/** Sorting a whole block: the first step by two bytes, then passes over all open groups. */
module BwtBlock {
  import opened Arith
  import opened BitModel
  import opened Lists
  import opened BwtOrder
  import opened BwtGroups
  import opened BwtMarks
  import opened BwtRadix
  import opened BwtRefine
  import opened BwtSort

  // ----- marking the buckets -----

  /** The rotations in the bucket of key `v`. */
  lemma BucketHas(d: seq<Byte>, perm: seq<nat>, grp: seq<nat>, v: nat, p: nat)
    requires Bucketed(d, perm, grp) && CountBelow(Keys(d), v) <= p < CountBelow(Keys(d), v + 1)
    ensures Sized(|d|, perm, grp) && p < |d| && Starts(|d|, perm, grp)[p] == CountBelow(Keys(d), v)
  {
    hide Key, CountBelow, CountOf, Place;
    BucketedSized(d, perm, grp);
    BelowNext(Keys(d), v);
    var x := WhoIsAt(d, perm, grp, p);
    KeyOfBucket(Keys(d), Key(d, x), v, p);
  }

  lemma KeyOfBucket(ks: seq<nat>, k: nat, v: nat, p: nat)
    requires CountBelow(ks, k) <= p < CountBelow(ks, k + 1) && CountBelow(ks, v) <= p < CountBelow(ks, v + 1)
    ensures k == v
  {
    hide CountBelow;
    if k < v {
      BelowGrows(ks, k + 1, v);
    } else if v < k {
      BelowGrows(ks, v + 1, k);
    }
  }

  lemma BucketOf(d: seq<Byte>, perm: seq<nat>, grp: seq<nat>, v: nat, a: nat, b: nat)
    requires Bucketed(d, perm, grp) && a == CountBelow(Keys(d), v) && b == CountBelow(Keys(d), v + 1)
    ensures Sized(|d|, perm, grp) && b <= |d| && forall p | a <= p < b :: Starts(|d|, perm, grp)[p] == a
  {
    BucketedSized(d, perm, grp);
    BelowNext(Keys(d), v);
    hide CountBelow, Bucketed;
    forall p: nat | a <= p < b ensures Starts(|d|, perm, grp)[p] == a { BucketHas(d, perm, grp, v, p); }
  }

  method MarkBuckets(d: seq<Byte>, counters: array<Word>, indices: array<Word>, ghost grp: seq<nat>)
    requires 0 < |d| <= 0x10_0000 && counters.Length == 0x1_0000 && indices.Length == |d| && indices != counters
    requires Bucketed(d, Indices(indices[..]), grp) && CleanIn(indices[..], 0, |d|)
    requires Sized(|d|, Indices(indices[..]), grp)
    requires forall v: nat | v < 0x1_0000 :: counters[v] == CountBelow(Keys(d), v + 1)
    modifies indices
    ensures Indices(indices[..]) == Indices(old(indices[..]))
    ensures Marked(indices[..], Starts(|d|, Indices(indices[..]), grp), 0, 0, |d|)
  {
    hide *;
    var prev: nat := 0;
    ghost var ks, perm, f := Keys(d), Indices(indices[..]), Starts(|d|, Indices(indices[..]), grp);
    BelowZero(ks);
    NoneMarked(indices[..], f, 0);
    for i := 0 to 0x1_0000
      invariant prev == CountBelow(ks, i) && prev <= |d| && Indices(indices[..]) == perm
      invariant Marked(indices[..], f, 0, 0, prev) && CleanIn(indices[..], prev, |d|)
    {
      BucketOf(d, perm, grp, i, prev, counters[i]);
      BelowNext(ks, i);
      var size := counters[i] - prev;
      if size != 0 {
        CleanParts(indices[..], prev, counters[i], |d|);
        ghost var ws := indices[..];
        CloseGroup(indices, prev, counters[i], f, 0);
        CleanKept(ws, indices[..], counters[i], |d|);
        prev := counters[i];
      }
    }
    AllKeys(d);
  }

  lemma CleanParts(ws: seq<Word>, a: nat, b: nat, e: nat)
    requires CleanIn(ws, a, e) && a <= b <= e
    ensures CleanIn(ws, a, b) && CleanIn(ws, b, e)
  {}

  lemma CleanKept(ws: seq<Word>, vs: seq<Word>, a: nat, e: nat)
    requires CleanIn(ws, a, e) && |vs| == |ws| && forall p | a <= p < e :: vs[p] == ws[p]
    ensures CleanIn(vs, a, e)
  {}

  lemma AllKeys(d: seq<Byte>)
    ensures CountBelow(Keys(d), 0x1_0000) == |d|
  {
    hide Key, CountBelow;
    BelowAll(Keys(d), 0x1_0000);
  }

  lemma BucketedClean(d: seq<Byte>, ws: seq<Word>, grp: seq<nat>)
    requires |d| <= 0x10_0000 && |ws| == |d| == |grp|
    requires forall x: nat | x < |d| :: Place(Keys(d), x) < |d| && ws[Place(Keys(d), x)] == x
    requires forall x: nat | x < |d| :: grp[x] == CountBelow(Keys(d), Key(d, x))
    ensures Bucketed(d, Indices(ws), grp) && CleanIn(ws, 0, |d|)
  {
    hide Key, CountBelow, CountOf, Place;
    forall x: nat | x < |d| ensures Indices(ws)[Place(Keys(d), x)] == x { assert Index(x) == x; }
    assert Bucketed(d, Indices(ws), grp);
    PlacesArePerm(Keys(d));
    forall p | 0 <= p < |d| ensures Clean(ws[p]) { var x := HasPlace(Places(Keys(d)), |d|, p); }
  }

  /** The first step: places, groups and marks for the first two bytes. */
  method FirstStep(d: seq<Byte>, indices: array<Word>, counters: array<Word>, groups: array<Word>)
    requires 0 < |d| <= 0x10_0000 && counters.Length == 0x1_0000 && indices.Length == |d| == groups.Length
    requires indices != counters && indices != groups && counters != groups
    modifies indices, counters, groups
    ensures State(d, 2, groups[..], Indices(indices[..]), groups[..])
    ensures Sized(|d|, Indices(indices[..]), groups[..])
    ensures Marked(indices[..], Starts(|d|, Indices(indices[..]), groups[..]), 0, 0, |d|)
  {
    hide *;
    CountKeys(d, counters);
    StartBuckets(d, counters);
    NumberGroups(d, counters, groups);
    PlaceIndices(d, counters, indices);
    BucketedClean(d, indices[..], groups[..]);
    BucketedState(d, Indices(indices[..]), groups[..]);
    BucketedSized(d, Indices(indices[..]), groups[..]);
    MarkBuckets(d, counters, indices, groups[..]);
  }

  // ----- passes -----

  /** The marks in front of place `i`, of which the last `run` places are one run, and those from `i` on. */
  ghost predicate Between(ws: seq<Word>, f: seq<nat>, i: nat, run: nat) {
    && |f| == |ws| && run <= i <= |ws| && Marked(ws, f, 0, 0, i - run)
    && (run > 0 ==> Group(ws, i - run, run, false) && Numbered(f, 0, i - run, run, false))
    && Marked(ws, f, 0, i, |ws|)
  }

  /** The next group and what is behind it. */
  lemma NextGroup(ws: seq<Word>, f: seq<nat>, i: nat, run: nat)
    requires Between(ws, f, i, run) && i < |ws|
    ensures var m, open := SizeAt(ws, i), Open(ws[i]);
      && i + m <= |ws| && Group(ws, i, m, open) && Numbered(f, 0, i, m, open) && Marked(ws, f, 0, i + m, |ws|)
      && (open ==> m > 1)
    ensures Marked(ws, f, 0, 0, i)
  {
    if run > 0 {
      OneMarked(ws, f, 0, i - run, run, false, i);
      JoinMarked(ws, f, 0, 0, i - run, i);
    }
  }

  lemma RunEnds(ws: seq<Word>, f: seq<nat>, run: nat)
    requires Between(ws, f, |ws|, run)
    ensures Marked(ws, f, 0, 0, |ws|)
  {
    if run > 0 {
      OneMarked(ws, f, 0, |ws| - run, run, false, |ws|);
      JoinMarked(ws, f, 0, 0, |ws| - run, |ws|);
    }
  }

  /** Takes the marks of a run away. */
  method ClearRun(indices: array<Word>, at: nat, run: nat)
    requires Group(indices[..], at, run, false)
    modifies indices
    ensures CleanIn(indices[..], at, at + run) && Indices(indices[..]) == Indices(old(indices[..]))
    ensures forall x | 0 <= x < indices.Length && (x < at || at + run <= x) :: indices[x] == old(indices[x])
  {
    hide Index, Extra, Big, Open;
    Cleaned(indices[at]);
    indices[at] := Index(indices[at]);
    if run > 1 {
      Cleaned(indices[at + 1]);
      indices[at + 1] := Index(indices[at + 1]);
    }
    assert Indices(indices[..]) == Indices(old(indices[..]));
  }

  /** Joins a group of sorted places to the run before it. */
  method JoinRun(indices: array<Word>, i: nat, run: nat, size: nat, ghost f: seq<nat>)
    requires 0 < size && i + size <= indices.Length <= 0x10_0000 && |f| == indices.Length && run <= i
    requires Marked(indices[..], f, 0, 0, i - run) && Marked(indices[..], f, 0, i + size, indices.Length)
    requires run > 0 ==> Group(indices[..], i - run, run, false) && Numbered(f, 0, i - run, run, false)
    requires CleanIn(indices[..], i, i + size) && Numbered(f, 0, i, size, false)
    modifies indices
    ensures Between(indices[..], f, i + size, run + size) && Indices(indices[..]) == Indices(old(indices[..]))
  {
    hide Group, Marked, Indices;
    ghost var ws := indices[..];
    if run > 0 { ClearRun(indices, i - run, run); }
    SetFinishedGroupSize(indices, i - run, run + size);
    KeepMarked(ws, f, indices[..], f, 0, 0, i - run);
    KeepMarked(ws, f, indices[..], f, 0, i + size, indices.Length);
  }

  /** In a pass: the places in front of `i` are sorted by twice as many bytes. */
  ghost predicate During(d: seq<Byte>, h: nat, g0: seq<nat>, ws: seq<Word>, grp: seq<nat>, i: nat, run: nat,
                         limit: nat)
  {
    && State(d, h, g0, Indices(ws), grp) && h < |d| <= 0x10_0000
    && var f := Starts(|d|, Indices(ws), grp);
       && Between(ws, f, i, run) && DeepIn(d, Indices(ws), f, 0, i, 2 * h) && (limit == 0 ==> Single(f, 0, i))
  }

  /** In the last pass, when all bytes have been compared: the places in front of `i` number their rotations. */
  ghost predicate Closing(d: seq<Byte>, perm0: seq<nat>, grp0: seq<nat>, ws: seq<Word>, grp: seq<nat>, i: nat,
                          run: nat)
  {
    && Indices(ws) == perm0 && Sized(|d|, perm0, grp) && |grp0| == |d| <= 0x10_0000
    && Between(ws, Starts(|d|, perm0, grp), i, run) && Single(Starts(|d|, perm0, grp), 0, i)
  }

  lemma {:induction false} RunsAreSingle(d: seq<Byte>, perm: seq<nat>, f: seq<nat>, a: nat, b: nat, k: nat)
    requires Perm(perm, |d|) && |f| == |d| && a <= b <= |d| && forall p | a <= p < b :: f[p] == p
    ensures DeepIn(d, perm, f, a, b, k)
  {
    forall p: nat | a <= p < b ensures Same(d, perm[p], perm[p], k) { SameSelf(d, perm[p], perm[p], k); }
    hide Same;
  }

  lemma StartsInFront(ws: seq<Word>, f: seq<nat>, i: nat)
    requires Marked(ws, f, 0, 0, i)
    ensures forall p | 0 <= p < i :: f[p] < i
  {
    StartsItself(ws, f, 0, i);
  }

  /** A group of sorted places counts as sorted by any number of bytes. */
  lemma DuringRun(d: seq<Byte>, h: nat, g0: seq<nat>, ws: seq<Word>, ws': seq<Word>, grp: seq<nat>, i: nat, run: nat,
                  limit: nat, e: nat, run': nat)
    requires During(d, h, g0, ws, grp, i, run, limit) && Indices(ws') == Indices(ws) && i < e <= |d|
    requires Between(ws', Starts(|d|, Indices(ws), grp), e, run')
    requires Numbered(Starts(|d|, Indices(ws), grp), 0, i, e - i, false)
    ensures During(d, h, g0, ws', grp, e, run', limit)
  {
    hide Same, Less, Ranked, Deep, Blocks, Finer, Marked, Group, DeepIn, Index;
    var perm, f := Indices(ws), Starts(|d|, Indices(ws), grp);
    NextGroup(ws, f, i, run);
    StartsInFront(ws, f, i);
    RunsAreSingle(d, perm, f, i, e, 2 * h);
    JoinDeep(d, perm, f, perm, f, 0, i, e, 2 * h);
  }

  /** An open group can be sorted, with the whole block as range. */
  lemma OpenReady(d: seq<Byte>, h: nat, g0: seq<nat>, ws: seq<Word>, grp: seq<nat>, i: nat, e: nat)
    requires State(d, h, g0, Indices(ws), grp) && h < |d| <= 0x10_0000 && i < e <= |d| && CleanIn(ws, i, e)
    requires Numbered(Starts(|d|, Indices(ws), grp), 0, i, e - i, true)
    requires Marked(ws, Starts(|d|, Indices(ws), grp), 0, e, |d|)
    ensures Ready(d, h, g0, ws, grp, i, e) && KeysIn(|d|, h, g0, Indices(ws), grp, i, e, 0, |d|)
  {
    hide Same, Less, Ranked, Deep, Blocks, Marked, Index, Skip;
    StartsItself(ws, Starts(|d|, Indices(ws), grp), e, |d|);
  }

  /** Sorting the group at `i` leaves all others as they were. */
  lemma OthersStay(d: seq<Byte>, h: nat, g0: seq<nat>, ws: seq<Word>, grp: seq<nat>, ws': seq<Word>, grp': seq<nat>,
                   i: nat, e: nat, more: bool)
    requires Sized(|d|, Indices(ws), grp) && Outcome(d, h, g0, ws, grp, ws', grp', i, e, more)
    requires Marked(ws, Starts(|d|, Indices(ws), grp), 0, 0, i) && Marked(ws, Starts(|d|, Indices(ws), grp), 0, e, |d|)
    requires i < e
    ensures var f, f' := Starts(|d|, Indices(ws), grp), Starts(|d|, Indices(ws'), grp');
      && (forall p | 0 <= p < i :: f'[p] == f[p] < i && Indices(ws')[p] == Indices(ws)[p])
      && (forall p | e <= p < |d| :: f'[p] == f[p])
      && (forall p | i <= p < e :: i <= f'[p])
  {
    hide State, Marked, DeepIn, Single, Index, Distinct;
    OutcomeSized(d, h, g0, ws, grp, ws', grp', i, e, more);
    var f, f' := Starts(|d|, Indices(ws), grp), Starts(|d|, Indices(ws'), grp');
    StartsItself(ws, f, 0, i);
    StartsItself(ws, f, e, |d|);
    StartsItself(ws', f', i, e);
    forall p | 0 <= p < i || e <= p < |d| ensures f'[p] == f[p] && Indices(ws')[p] == Indices(ws)[p] {
      assert f[p] != i;
    }
  }

  lemma OutcomeSized(d: seq<Byte>, h: nat, g0: seq<nat>, ws: seq<Word>, grp: seq<nat>, ws': seq<Word>, grp': seq<nat>,
                     i: nat, e: nat, more: bool)
    requires Outcome(d, h, g0, ws, grp, ws', grp', i, e, more)
    ensures Sized(|d|, Indices(ws'), grp') && |ws| == |ws'| == |d|
    ensures var f' := Starts(|d|, Indices(ws'), grp');
      Marked(ws', f', 0, i, e) && DeepIn(d, Indices(ws'), f', i, e, 2 * h) && (!more ==> Single(f', i, e))
    ensures State(d, h, g0, Indices(ws'), grp')
  {
    hide Ranked, Deep, Blocks, Finer, Marked, DeepIn, Distinct, Index;
    assert |Indices(ws')| == |ws'|;
  }

  lemma DuringSorted(d: seq<Byte>, h: nat, g0: seq<nat>, ws0: seq<Word>, ws: seq<Word>, grp: seq<nat>, i: nat,
                     run: nat, limit: nat, ws': seq<Word>, grp': seq<nat>, e: nat, more: bool, limit': nat)
    requires During(d, h, g0, ws0, grp, i, run, limit) && Indices(ws) == Indices(ws0) && i < e <= |d|
    requires Marked(ws, Starts(|d|, Indices(ws), grp), 0, 0, i) && Marked(ws, Starts(|d|, Indices(ws), grp), 0, e, |d|)
    requires Outcome(d, h, g0, ws, grp, ws', grp', i, e, more) && limit' == if more then e else limit
    ensures During(d, h, g0, ws', grp', e, 0, limit')
  {
    hide Same, Less, State, Marked, Group, DeepIn, Index, Outcome, Sized, Perm;
    DuringFacts(d, h, g0, ws0, grp, i, run, limit);
    var perm, f := Indices(ws), Starts(|d|, Indices(ws), grp);
    OutcomeSized(d, h, g0, ws, grp, ws', grp', i, e, more);
    OthersStay(d, h, g0, ws, grp, ws', grp', i, e, more);
    OutcomeFrame(d, h, g0, ws, grp, ws', grp', i, e, more);
    var perm', f' := Indices(ws'), Starts(|d|, Indices(ws'), grp');
    KeepMarked(ws, f, ws', f', 0, 0, i);
    JoinMarked(ws', f', 0, 0, i, e);
    KeepMarked(ws, f, ws', f', 0, e, |d|);
    SizedPerm(|d|, perm, grp);
    SizedPerm(|d|, perm', grp');
    JoinDeep(d, perm, f, perm', f', 0, i, e, 2 * h);
  }

  lemma OutcomeFrame(d: seq<Byte>, h: nat, g0: seq<nat>, ws: seq<Word>, grp: seq<nat>, ws': seq<Word>, grp': seq<nat>,
                     i: nat, e: nat, more: bool)
    requires Outcome(d, h, g0, ws, grp, ws', grp', i, e, more)
    ensures |ws| == |ws'| && forall p | 0 <= p < i || e <= p < |ws| :: ws'[p] == ws[p]
  {
    hide State, Marked, DeepIn, Single;
  }

  lemma DuringFacts(d: seq<Byte>, h: nat, g0: seq<nat>, ws: seq<Word>, grp: seq<nat>, i: nat, run: nat, limit: nat)
    requires During(d, h, g0, ws, grp, i, run, limit)
    ensures State(d, h, g0, Indices(ws), grp) && h < |d| <= 0x10_0000 && Sized(|d|, Indices(ws), grp)
    ensures |ws| == |grp| == |d| && Between(ws, Starts(|d|, Indices(ws), grp), i, run) && i <= |d| && run <= i
    ensures DeepIn(d, Indices(ws), Starts(|d|, Indices(ws), grp), 0, i, 2 * h)
    ensures limit == 0 ==> Single(Starts(|d|, Indices(ws), grp), 0, i)
  {
    hide Ranked, Deep, Blocks, Finer, Marked, Group, DeepIn, Distinct, Index;
  }

  // ----- the last pass -----

  /** Numbers the rotations of an open group by their places. */
  method NumberPlaces(i: nat, e: nat, indices: array<Word>, groups: array<Word>)
    requires i <= e <= indices.Length == groups.Length < 0x1_0000_0000 && CleanIn(indices[..], i, e)
    requires Perm(Indices(indices[..]), indices.Length) && indices != groups
    modifies groups
    ensures forall p | 0 <= p < indices.Length ::
      Index(indices[p]) < groups.Length
      && groups[Index(indices[p])] == if i <= p < e then p else old(groups[Index(indices[p])])
  {
    hide Index;
    ghost var perm := Indices(indices[..]);
    assert forall p | 0 <= p < indices.Length :: perm[p] == Index(indices[p]);
    for t := i to e
      invariant forall p | 0 <= p < indices.Length ::
        groups[perm[p]] == if i <= p < t then p else old(groups[perm[p]])
    {
      CleanWord(indices[t]);
      assert indices[t] == perm[t];
      groups[indices[t]] := t;
    }
  }

  /** Places without marks are groups of one. */
  lemma {:induction false} CleanSingles(ws: seq<Word>, f: seq<nat>, a: nat, e: nat)
    requires CleanIn(ws, a, e) && e <= |f| && forall p | a <= p < e :: f[p] == p
    ensures Marked(ws, f, 0, a, e)
    decreases e - a
  {
    if a < e {
      CleanWord(ws[a]);
      CleanSingles(ws, f, a + 1, e);
      OneMarked(ws, f, 0, a, 1, false, a + 1);
      JoinMarked(ws, f, 0, a, a + 1, e);
    }
  }

  lemma NumberedPlaces(n: nat, perm: seq<nat>, grp: seq<nat>, grp': seq<nat>, i: nat, e: nat)
    requires Sized(n, perm, grp) && |grp'| == n && i <= e <= n
    requires forall p | 0 <= p < n :: grp'[perm[p]] == if i <= p < e then p else grp[perm[p]]
    ensures Sized(n, perm, grp')
    ensures forall p | 0 <= p < n :: Starts(n, perm, grp')[p] == if i <= p < e then p else Starts(n, perm, grp)[p]
  {
    forall x | 0 <= x < n ensures grp'[x] < n { var p := HasPlace(perm, n, x); }
  }

  lemma ClosingOpen(d: seq<Byte>, grp0: seq<nat>, perm: seq<nat>, ws: seq<Word>, grp: seq<nat>,
                    grp': seq<nat>, i: nat, e: nat)
    requires Indices(ws) == perm && Sized(|d|, perm, grp) && i < e <= |d| == |grp0| == |grp'| == |ws| <= 0x10_0000
    requires Marked(ws, Starts(|d|, perm, grp), 0, 0, i) && Marked(ws, Starts(|d|, perm, grp), 0, e, |d|)
    requires Single(Starts(|d|, perm, grp), 0, i) && CleanIn(ws, i, e)
    requires forall p | 0 <= p < |d| :: grp'[perm[p]] == if i <= p < e then p else grp[perm[p]]
    ensures Closing(d, perm, grp0, ws, grp', e, 0)
  {
    hide Marked, Group, Index, Distinct;
    NumberedPlaces(|d|, perm, grp, grp', i, e);
    var f, f' := Starts(|d|, perm, grp), Starts(|d|, perm, grp');
    CleanSingles(ws, f', i, e);
    KeepMarked(ws, f, ws, f', 0, 0, i);
    JoinMarked(ws, f', 0, 0, i, e);
    KeepMarked(ws, f, ws, f', 0, e, |d|);
  }

  // ----- one pass -----

  ghost predicate Going(d: seq<Byte>, h: nat, g0: seq<nat>, perm0: seq<nat>, ws: seq<Word>, grp: seq<nat>, i: nat,
                        run: nat, limit: nat)
  {
    if h < |d| then During(d, h, g0, ws, grp, i, run, limit)
    else Closing(d, perm0, g0, ws, grp, i, run) && limit == 0
  }

  lemma GoingFacts(d: seq<Byte>, h: nat, g0: seq<nat>, perm0: seq<nat>, ws: seq<Word>, grp: seq<nat>, i: nat,
                   run: nat, limit: nat)
    requires Going(d, h, g0, perm0, ws, grp, i, run, limit)
    ensures Sized(|d|, Indices(ws), grp) && |ws| == |grp| == |d| <= 0x10_0000 && i <= |d|
    ensures Between(ws, Starts(|d|, Indices(ws), grp), i, run) && run <= i
  {
    hide Marked, Group, Index, Distinct;
    if h < |d| { DuringFacts(d, h, g0, ws, grp, i, run, limit); }
    assert |Indices(ws)| == |ws|;
  }

  /** The marks elsewhere when those of the group at `i` have been taken. */
  lemma OtherMarks(ws: seq<Word>, vs: seq<Word>, f: seq<nat>, i: nat, run: nat, e: nat)
    requires Between(ws, f, i, run) && i < e <= |ws| == |vs| && Marked(ws, f, 0, e, |ws|) && Marked(ws, f, 0, 0, i)
    requires forall x | 0 <= x < |ws| && (x < i || e <= x) :: vs[x] == ws[x]
    ensures Marked(vs, f, 0, 0, i - run) && Marked(vs, f, 0, 0, i) && Marked(vs, f, 0, e, |vs|)
    ensures run > 0 ==> Group(vs, i - run, run, false) && Numbered(f, 0, i - run, run, false)
  {
    hide Marked, Extra, Big, Open;
    KeepMarked(ws, f, vs, f, 0, 0, i - run);
    KeepMarked(ws, f, vs, f, 0, 0, i);
    KeepMarked(ws, f, vs, f, 0, e, |ws|);
  }

  lemma GoingRun(d: seq<Byte>, h: nat, g0: seq<nat>, perm0: seq<nat>, ws: seq<Word>, ws': seq<Word>, grp: seq<nat>,
                 i: nat, run: nat, limit: nat, e: nat, run': nat)
    requires Going(d, h, g0, perm0, ws, grp, i, run, limit) && Indices(ws') == Indices(ws) && i < e <= |d|
    requires Sized(|d|, Indices(ws), grp)
    requires Between(ws', Starts(|d|, Indices(ws), grp), e, run')
    requires Numbered(Starts(|d|, Indices(ws), grp), 0, i, e - i, false)
    ensures Going(d, h, g0, perm0, ws', grp, e, run', limit)
  {
    hide During, Between, Index, Distinct;
    if h < |d| { DuringRun(d, h, g0, ws, ws', grp, i, run, limit, e, run'); }
  }

  /** The next group of a pass. */
  method Step(n: nat, h: nat, unit: nat, indices: array<Word>, temp: array<Word>, groups: array<Word>, i0: nat,
              run0: nat, limit0: nat, ghost d: seq<Byte>, ghost g0: seq<nat>, ghost perm0: seq<nat>)
    returns (i: nat, run: nat, limit: nat)
    requires Going(d, h, g0, perm0, indices[..], groups[..], i0, run0, limit0) && i0 < n == |d|
    requires n * unit <= 0x1_0000_0000 && unit <= temp.Length
    requires temp != indices && temp != groups && indices != groups
    modifies indices, temp, groups
    ensures Going(d, h, g0, perm0, indices[..], groups[..], i, run, limit) && i0 < i <= n
  {
    hide *;
    ghost var ws0, grp: seq<Word> := indices[..], groups[..];
    GoingFacts(d, h, g0, perm0, ws0, grp, i0, run0, limit0);
    ghost var perm, f := Indices(ws0), Starts(n, Indices(ws0), grp);
    NextGroup(ws0, f, i0, run0);
    ghost var m, open := SizeAt(ws0, i0), Open(ws0[i0]);
    var size, finished := TakeMarks(indices, i0, m, open);
    ghost var ws1 := indices[..];
    i := i0 + size;
    OtherMarks(ws0, ws1, f, i0, run0, i);
    if finished || size == 1 {
      JoinRun(indices, i0, run0, size, f);
      run, limit := run0 + size, limit0;
      GoingRun(d, h, g0, perm0, ws0, indices[..], grp, i0, run0, limit0, i, run);
      return;
    }
    run, limit := 0, limit0;
    if h >= n {
      ClosingFacts(d, h, g0, perm0, ws0, grp, i0, run0, limit0);
      NumberPlaces(i0, i, indices, groups);
      ClosingNumbered(d, h, g0, perm0, ws1, grp, groups[..], i0, i);
    } else {
      IsDuring(d, h, g0, perm0, ws0, grp, i0, run0, limit0);
      DuringFacts(d, h, g0, ws0, grp, i0, run0, limit0);
      OpenReady(d, h, g0, ws1, grp, i0, i);
      var more := SortGroup(n, h, i0, size, unit, indices, temp, groups, 0, n, d, g0);
      if more { limit := i; }
      DuringSorted(d, h, g0, ws0, ws1, grp, i0, run0, limit0, indices[..], groups[..], i, more, limit);
      IsGoing(d, h, g0, perm0, indices[..], groups[..], i, limit);
    }
  }

  lemma IsDuring(d: seq<Byte>, h: nat, g0: seq<nat>, perm0: seq<nat>, ws: seq<Word>, grp: seq<nat>, i: nat,
                 run: nat, limit: nat)
    requires Going(d, h, g0, perm0, ws, grp, i, run, limit) && h < |d|
    ensures During(d, h, g0, ws, grp, i, run, limit)
  {}

  lemma IsGoing(d: seq<Byte>, h: nat, g0: seq<nat>, perm0: seq<nat>, ws: seq<Word>, grp: seq<nat>, i: nat, limit: nat)
    requires During(d, h, g0, ws, grp, i, 0, limit)
    ensures Going(d, h, g0, perm0, ws, grp, i, 0, limit)
  {}

  lemma ClosingFacts(d: seq<Byte>, h: nat, g0: seq<nat>, perm0: seq<nat>, ws: seq<Word>, grp: seq<nat>, i: nat,
                     run: nat, limit: nat)
    requires Going(d, h, g0, perm0, ws, grp, i, run, limit) && h >= |d|
    ensures Indices(ws) == perm0 && Sized(|d|, perm0, grp) && |g0| == |d| && limit == 0 && Perm(perm0, |d|)
    ensures Single(Starts(|d|, perm0, grp), 0, i)
  {}

  lemma ClosingNumbered(d: seq<Byte>, h: nat, g0: seq<nat>, perm: seq<nat>, ws: seq<Word>, grp: seq<nat>,
                        grp': seq<nat>, i: nat, e: nat)
    requires Indices(ws) == perm && Sized(|d|, perm, grp) && i < e <= |d| == |g0| == |grp'| == |ws| <= 0x10_0000
    requires Marked(ws, Starts(|d|, perm, grp), 0, 0, i) && Marked(ws, Starts(|d|, perm, grp), 0, e, |d|)
    requires Single(Starts(|d|, perm, grp), 0, i) && CleanIn(ws, i, e) && |grp| == |d| <= h
    requires forall p | 0 <= p < |d| ::
      Index(ws[p]) < |d| && grp'[Index(ws[p])] == if i <= p < e then p else grp[Index(ws[p])]
    ensures Going(d, h, g0, perm, ws, grp', e, 0, 0)
  {
    hide Closing, Marked, Index, Single;
    ClosingOpen(d, g0, perm, ws, grp, grp', i, e);
  }

  /** Goes once through all groups. A result of 0 means that all of them are sorted. */
  method Pass(n: nat, h: nat, unit: nat, indices: array<Word>, temp: array<Word>, groups: array<Word>,
              ghost d: seq<Byte>) returns (limit: nat)
    requires State(d, h, groups[..], Indices(indices[..]), groups[..]) && n == |d| <= 0x10_0000
    requires Sized(n, Indices(indices[..]), groups[..]) && h > 0
    requires Marked(indices[..], Starts(n, Indices(indices[..]), groups[..]), 0, 0, n)
    requires n * unit <= 0x1_0000_0000 && unit <= temp.Length
    requires temp != indices && temp != groups && indices != groups
    modifies indices, temp, groups
    ensures Sized(n, Indices(indices[..]), groups[..])
    ensures Marked(indices[..], Starts(n, Indices(indices[..]), groups[..]), 0, 0, n)
    ensures limit == 0 ==>
      InOrder(d, Indices(indices[..])) && Single(Starts(n, Indices(indices[..]), groups[..]), 0, n)
    ensures limit != 0 ==> h < n && State(d, 2 * h, groups[..], Indices(indices[..]), groups[..])
  {
    hide *;
    ghost var g0: seq<Word>, perm0 := groups[..], Indices(indices[..]);
    var i, run := 0, 0;
    limit := 0;
    PassBegins(d, h, indices[..], g0);
    while i < n
      invariant i <= n && Going(d, h, g0, perm0, indices[..], groups[..], i, run, limit)
      decreases n - i
    {
      i, run, limit := Step(n, h, unit, indices, temp, groups, i, run, limit, d, g0, perm0);
    }
    PassEnds(d, h, g0, perm0, indices[..], groups[..], run, limit);
  }

  lemma PassBegins(d: seq<Byte>, h: nat, ws: seq<Word>, grp: seq<nat>)
    requires State(d, h, grp, Indices(ws), grp) && |d| <= 0x10_0000 && Sized(|d|, Indices(ws), grp)
    requires Marked(ws, Starts(|d|, Indices(ws), grp), 0, 0, |d|)
    ensures Going(d, h, grp, Indices(ws), ws, grp, 0, 0, 0)
  {
    hide Ranked, Deep, Blocks, Finer, Index, Distinct;
    assert |Indices(ws)| == |ws|;
  }

  lemma PassEnds(d: seq<Byte>, h: nat, g0: seq<nat>, perm0: seq<nat>, ws: seq<Word>, grp: seq<nat>, run: nat,
                 limit: nat)
    requires Going(d, h, g0, perm0, ws, grp, |d|, run, limit) && State(d, h, g0, perm0, g0)
    ensures Sized(|d|, Indices(ws), grp) && Marked(ws, Starts(|d|, Indices(ws), grp), 0, 0, |d|)
    ensures limit == 0 ==> InOrder(d, Indices(ws)) && Single(Starts(|d|, Indices(ws), grp), 0, |d|)
    ensures limit != 0 ==> h < |d| && State(d, 2 * h, grp, Indices(ws), grp)
  {
    hide Marked, Group, Ranked, Deep, Blocks, Finer, Index, Distinct, InOrder, DeepIn, Between;
    GoingFacts(d, h, g0, perm0, ws, grp, |d|, run, limit);
    RunEnds(ws, Starts(|d|, Indices(ws), grp), run);
    if h < |d| {
      DuringFacts(d, h, g0, ws, grp, |d|, run, limit);
      NextPass(d, h, g0, Indices(ws), grp);
      if limit == 0 { BwtGroups.EndsInOrder(d, h, g0, Indices(ws), grp); }
    } else {
      ClosingFacts(d, h, g0, perm0, ws, grp, |d|, run, limit);
      BwtGroups.EndsInOrder(d, h, g0, perm0, g0);
    }
  }

  // ----- the whole block -----

  /** The number of bits that a place inside a small group may take up, besides a group number. */
  method RefBits(n: nat) returns (bits: nat)
    requires 0 < n <= 0x10_0000
    ensures bits <= 12 && n * Pow2(bits) <= 0x1_0000_0000
  {
    bits := 0;
    while (n - 1) / Pow2(bits) != 0
      invariant bits <= 20
      decreases 20 - bits
    {
      if bits == 20 { TwentyBits(); }
      bits := bits + 1;
    }
    BitsFit(n, bits);
    bits := 32 - bits;
    if bits > 12 { bits := 12; }
  }

  lemma TwentyBits()
    ensures Pow2(20) == 0x10_0000
  {
    assert Pow2(10) == 1024;
    Pow2Split(10, 10);
  }

  lemma BitsFit(n: nat, r: nat)
    requires 0 < n <= 0x10_0000 && r <= 20 && (n - 1) / Pow2(r) == 0
    ensures n * Pow2(32 - r) <= 0x1_0000_0000 && n * Pow2(12) <= 0x1_0000_0000
  {
    hide Pow2;
    TwelveBits();
    TwentyBits();
    Pow2Split(20, 12);
    Pow2Split(r, 32 - r);
    assert n <= Pow2(r);
    MulMono(n, Pow2(r), Pow2(32 - r));
  }

  /** Takes all marks away. */
  method ClearMarks(n: nat, indices: array<Word>, ghost f: seq<nat>)
    requires Marked(indices[..], f, 0, 0, n) && n == indices.Length
    modifies indices
    ensures Indices(indices[..]) == Indices(old(indices[..])) && CleanIn(indices[..], 0, n)
  {
    hide Index, Extra, Big, Open;
    var i := 0;
    while i < n
      invariant i <= n && Indices(indices[..]) == Indices(old(indices[..])) && CleanIn(indices[..], 0, i)
      invariant Marked(indices[..], f, 0, i, n)
      decreases n - i
    {
      ghost var ws := indices[..];
      var size, finished := TakeMarks(indices, i, SizeAt(ws, i), Open(ws[i]));
      KeepMarked(ws, f, indices[..], f, 0, i + size, n);
      i := i + size;
    }
  }

  /** Sorts the rotations of a block. `indices` lists them in order, `groups` has the place of each, and the
      result is the place of the block itself. */
  method BlockSort(data: seq<Byte>, indices: array<Word>, counters: array<Word>, groups: array<Word>)
    returns (place: nat)
    requires 0 < |data| <= 0x10_0000 && indices.Length == |data| == groups.Length && counters.Length == 0x1_0000
    requires indices != counters && indices != groups && counters != groups
    modifies indices, counters, groups
    ensures InOrder(data, indices[..])
    ensures forall p | 0 <= p < |data| :: indices[p] < |data| && groups[indices[p]] == p
    ensures place < |data| && indices[place] == 0
  {
    hide *;
    var n := |data|;
    FirstStep(data, indices, counters, groups);
    var bits := RefBits(n);
    SmallGroups(bits);
    var h, limit := 2, 1;
    while limit != 0
      invariant h > 0 && Sized(n, Indices(indices[..]), groups[..])
      invariant Marked(indices[..], Starts(n, Indices(indices[..]), groups[..]), 0, 0, n)
      invariant limit == 0 ==>
        InOrder(data, Indices(indices[..])) && Single(Starts(n, Indices(indices[..]), groups[..]), 0, n)
      invariant limit != 0 ==> State(data, h, groups[..], Indices(indices[..]), groups[..])
      decreases limit != 0, 2 * n - h
    {
      limit := Pass(n, h, Pow2(bits), indices, counters, groups, data);
      h := 2 * h;
    }
    ClearMarks(n, indices, Starts(n, Indices(indices[..]), groups[..]));
    PlacesOf(n, indices[..], groups[..]);
    SameList(indices[..]);
    place := groups[0];
  }

  lemma SmallGroups(bits: nat)
    requires bits <= 12
    ensures Pow2(bits) <= 0x1_0000
  {
    hide Pow2;
    TwelveBits();
    Pow2Split(bits, 12 - bits);
    MulMono(1, Pow2(12 - bits), Pow2(bits));
  }

  lemma TwelveBits()
    ensures Pow2(12) == 4096
  {
    assert Pow2(6) == 64;
    Pow2Split(6, 6);
  }

  lemma SameList(ws: seq<Word>)
    requires CleanIn(ws, 0, |ws|)
    ensures Indices(ws) == ws
  {
    forall p | 0 <= p < |ws| ensures Indices(ws)[p] == ws[p] { CleanWord(ws[p]); }
  }

  lemma PlacesOf(n: nat, ws: seq<Word>, grp: seq<nat>)
    requires 0 < n && Sized(n, Indices(ws), grp) && Single(Starts(n, Indices(ws), grp), 0, n) && CleanIn(ws, 0, n)
    ensures |ws| == n == |grp| && forall p | 0 <= p < n :: ws[p] < n && grp[ws[p]] == p
    ensures grp[0] < n && ws[grp[0]] == 0
  {
    assert |Indices(ws)| == |ws|;
    SameList(ws);
    var p := HasPlace(Indices(ws), n, 0);
    forall p | 0 <= p < n ensures ws[p] < n && grp[ws[p]] == p {
      assert Starts(n, Indices(ws), grp)[p] == p;
    }
  }
}
