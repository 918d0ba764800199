/** Block sorting: the rotations of a block in order, by doubling the number of sorted bytes. */
module BwtSort {
  import opened Arith
  import opened BitModel
  import opened Lists
  import opened BwtOrder
  import opened BwtGroups
  import opened BwtMarks
  import opened BwtRadix
  import opened BwtRefine

  // ----- splitting a large group by a range of keys -----

  /** The keys of the places from `s` to `e` lie between `left` and `right`: in the groups that there are now not
      below `left`, and in those that there were at the start of the pass not above. */
  ghost predicate KeysIn(n: nat, h: nat, g0: seq<nat>, perm: seq<nat>, grp: seq<nat>, s: nat, e: nat, left: nat,
                         right: nat)
  {
    && Sized(n, perm, grp) && |g0| == n && h <= n && e <= n
    && forall p | s <= p < e :: left <= grp[Skip(n, perm[p], h)] && g0[Skip(n, perm[p], h)] < right
  }

  /** The places of the group may have been exchanged. */
  ghost predicate Moved(n: nat, h: nat, ws0: seq<Word>, grp: seq<nat>, ws: seq<Word>, s: nat, e: nat) {
    && |ws| == |ws0| == n == |grp| && Perm(Indices(ws), n) && CleanIn(ws, s, e) && h <= n
    && (forall p | 0 <= p < n && (p < s || e <= p) :: ws[p] == ws0[p])
    && (forall p | s <= p < e :: ws[p] < n && grp[ws[p]] == s)
  }

  /** All the keys from `a` to `b` are below `mid`, or none is. */
  ghost predicate Side(n: nat, h: nat, grp: seq<nat>, ws: seq<Word>, a: nat, b: nat, mid: nat, below: bool) {
    && |grp| == n == |ws| && h <= n && b <= n
    && forall p | a <= p < b :: ws[p] < n && (grp[Skip(n, ws[p], h)] < mid <==> below)
  }

  lemma PermSwap(ws: seq<Word>, vs: seq<Word>, i: nat, j: nat)
    requires i < |ws| && j < |ws| && vs == ws[i := ws[j]][j := ws[i]]
    ensures Perm(Indices(ws), |ws|) ==> Perm(Indices(vs), |ws|)
  {
    hide Index;
    if Perm(Indices(ws), |ws|) {
      forall p, q | 0 <= p < q < |ws| ensures Indices(vs)[p] != Indices(vs)[q] {
        var p' := if p == i then j else if p == j then i else p;
        var q' := if q == i then j else if q == j then i else q;
        assert Indices(ws)[p'] != Indices(ws)[q'];
        assert vs[p] == ws[p'] && vs[q] == ws[q'];
      }
      forall p | 0 <= p < |ws| ensures Indices(vs)[p] < |ws| {
        var p' := if p == i then j else if p == j then i else p;
        assert Indices(ws)[p'] < |ws|;
      }
    }
  }

  lemma MovedSwap(n: nat, h: nat, ws0: seq<Word>, grp: seq<nat>, ws: seq<Word>, vs: seq<Word>, s: nat, e: nat, i: nat,
                  j: nat)
    requires Moved(n, h, ws0, grp, ws, s, e) && s <= i < e && s <= j < e
    requires vs == ws[i := ws[j]][j := ws[i]]
    ensures Moved(n, h, ws0, grp, vs, s, e)
  {
    PermSwap(ws, vs, i, j);
  }

  method Swap(indices: array<Word>, i: nat, j: nat, ghost n: nat, ghost h: nat, ghost ws0: seq<Word>,
              ghost grp: seq<nat>, ghost s: nat, ghost e: nat)
    requires Moved(n, h, ws0, grp, indices[..], s, e) && s <= i < e <= indices.Length && s <= j < e
    modifies indices
    ensures Moved(n, h, ws0, grp, indices[..], s, e)
    ensures forall p | 0 <= p < indices.Length ::
      indices[p] == old(indices[if p == i then j else if p == j then i else p])
  {
    hide Moved;
    ghost var ws := indices[..];
    indices[i], indices[j] := indices[j], indices[i];
    MovedSwap(n, h, ws0, grp, ws, indices[..], s, e, i, j);
  }

  lemma MovedAt(n: nat, h: nat, ws0: seq<Word>, grp: seq<nat>, ws: seq<Word>, s: nat, e: nat, p: nat)
    requires Moved(n, h, ws0, grp, ws, s, e) && s <= p < e <= n
    ensures h <= n == |ws| == |grp| && ws[p] < n
  {}

  lemma SideAdd(n: nat, h: nat, grp: seq<nat>, ws: seq<Word>, a: nat, b: nat, mid: nat, below: bool, p: nat)
    requires Side(n, h, grp, ws, a, b, mid, below) && p < n == |ws| == |grp| && h <= n
    requires ws[p] < n && (grp[Skip(n, ws[p], h)] < mid <==> below)
    ensures p == b ==> Side(n, h, grp, ws, a, p + 1, mid, below)
    ensures p + 1 == a ==> Side(n, h, grp, ws, p, b, mid, below)
  {
    hide Skip;
  }

  lemma NoSide(n: nat, h: nat, grp: seq<nat>, ws: seq<Word>, a: nat, mid: nat, below: bool)
    requires |grp| == n == |ws| && h <= n && a <= n
    ensures Side(n, h, grp, ws, a, a, mid, below)
  {}

  lemma SideKept(n: nat, h: nat, grp: seq<nat>, ws: seq<Word>, vs: seq<Word>, a: nat, b: nat, mid: nat, below: bool)
    requires Side(n, h, grp, ws, a, b, mid, below) && |vs| == |ws|
    requires forall p | a <= p < b :: vs[p] == ws[p]
    ensures Side(n, h, grp, vs, a, b, mid, below)
  {
    hide Skip;
  }

  method KeyBelow(n: nat, h: nat, mid: nat, indices: array<Word>, groups: array<Word>, p: nat) returns (below: bool)
    requires h <= n == indices.Length == groups.Length && p < n && indices[p] < n
    ensures below <==> groups[Skip(n, indices[p], h)] < mid
  {
    below := groups[Skip(n, indices[p], h)] < mid;
  }

  /** The last place before `j0` with a key below `mid`, down to place `i`. */
  method FindBelow(n: nat, h: nat, s: nat, i: nat, j0: nat, mid: nat, indices: array<Word>, groups: array<Word>,
                   ghost ws0: seq<Word>, ghost e: nat) returns (j: nat)
    requires Moved(n, h, ws0, groups[..], indices[..], s, e) && i < j0 && s + j0 <= e <= n
    requires Side(n, h, groups[..], indices[..], s + j0, e, mid, false)
    requires h <= n == groups.Length == indices.Length && indices[s + i] < n
    requires !(groups[Skip(n, indices[s + i], h)] < mid)
    ensures i <= j < j0 && Side(n, h, groups[..], indices[..], s + j + 1, e, mid, false)
    ensures j == i ==> Side(n, h, groups[..], indices[..], s + i, e, mid, false)
    ensures j > i ==> indices[s + j] < n && groups[Skip(n, indices[s + j], h)] < mid
  {
    hide *;
    j := j0 - 1;
    MovedAt(n, h, ws0, groups[..], indices[..], s, e, s + i);
    var below := false;
    while j > i && !below
      invariant i <= j < j0 && Side(n, h, groups[..], indices[..], s + j + 1, e, mid, false)
      invariant below ==> j > i && indices[s + j] < n && groups[Skip(n, indices[s + j], h)] < mid
      decreases j, !below
    {
      MovedAt(n, h, ws0, groups[..], indices[..], s, e, s + j);
      below := KeyBelow(n, h, mid, indices, groups, s + j);
      if !below {
        SideAdd(n, h, groups[..], indices[..], s + j + 1, e, mid, false, s + j);
        j := j - 1;
      }
    }
    if j == i { SideAdd(n, h, groups[..], indices[..], s + i + 1, e, mid, false, s + i); }
  }

  /** Puts the places with keys below `mid` in front of the others. */
  method Partition(n: nat, h: nat, s: nat, size: nat, mid: nat, indices: array<Word>, groups: array<Word>,
                   ghost ws0: seq<Word>) returns (i: nat)
    requires Moved(n, h, ws0, groups[..], indices[..], s, s + size) && s + size <= n && indices != groups
    requires h <= n == indices.Length == groups.Length
    modifies indices
    ensures Moved(n, h, ws0, groups[..], indices[..], s, s + size) && i <= size
    ensures Side(n, h, groups[..], indices[..], s, s + i, mid, true)
    ensures Side(n, h, groups[..], indices[..], s + i, s + size, mid, false)
  {
    hide *;
    ghost var e, grp: seq<Word> := s + size, groups[..];
    var j := size;
    i := 0;
    NoSide(n, h, grp, indices[..], s, mid, true);
    NoSide(n, h, grp, indices[..], e, mid, false);
    while i < j
      invariant i <= j <= size && Moved(n, h, ws0, grp, indices[..], s, e)
      invariant Side(n, h, grp, indices[..], s, s + i, mid, true)
      invariant Side(n, h, grp, indices[..], s + j, e, mid, false)
    {
      MovedAt(n, h, ws0, grp, indices[..], s, e, s + i);
      var below := KeyBelow(n, h, mid, indices, groups, s + i);
      if !below {
        j := FindBelow(n, h, s, i, j, mid, indices, groups, ws0, e);
        if i >= j { break; }
        SwapBelow(n, h, s, i, j, mid, indices, ws0, grp, e);
      }
      SideAdd(n, h, grp, indices[..], s, s + i, mid, true, s + i);
      i := i + 1;
    }
  }

  method SwapBelow(n: nat, h: nat, s: nat, i: nat, j: nat, mid: nat, indices: array<Word>, ghost ws0: seq<Word>,
                   ghost grp: seq<nat>, ghost e: nat)
    requires Moved(n, h, ws0, grp, indices[..], s, e) && i < j && s + j < e <= n == indices.Length == |grp| && h <= n
    requires indices[s + i] < n && indices[s + j] < n
    requires Side(n, h, grp, indices[..], s, s + i, mid, true)
    requires Side(n, h, grp, indices[..], s + j + 1, e, mid, false)
    requires !(grp[Skip(n, indices[s + i], h)] < mid) && grp[Skip(n, indices[s + j], h)] < mid
    modifies indices
    ensures Moved(n, h, ws0, grp, indices[..], s, e)
    ensures Side(n, h, grp, indices[..], s, s + i, mid, true)
    ensures Side(n, h, grp, indices[..], s + j, e, mid, false)
    ensures indices[s + i] < n && grp[Skip(n, indices[s + i], h)] < mid
  {
    hide *;
    ghost var ws := indices[..];
    Swap(indices, s + i, s + j, n, h, ws0, grp, s, e);
    SideKept(n, h, grp, ws, indices[..], s, s + i, mid, true);
    SideKept(n, h, grp, ws, indices[..], s + j + 1, e, mid, false);
    SideAdd(n, h, grp, indices[..], s + j + 1, e, mid, false, s + j);
  }

  // ----- what a split leaves -----

  lemma NotMoved(d: seq<Byte>, h: nat, g0: seq<nat>, ws: seq<Word>, grp: seq<nat>, s: nat, e: nat)
    requires Ready(d, h, g0, ws, grp, s, e)
    ensures Moved(|d|, h, ws, grp, ws, s, e)
  {
    ReadyFacts(d, h, g0, ws, grp, s, e);
    PlainPlaces(|d|, ws, grp, s, e);
  }

  /** All numbers are places. */
  lemma SplitInside(n: nat, h: nat, ws0: seq<Word>, grp0: seq<nat>, ws: seq<Word>, grp: seq<nat>, s: nat, m: nat,
                    e: nat)
    requires Sized(n, Indices(ws0), grp0) && Blocks(Starts(n, Indices(ws0), grp0))
    requires Segment(Starts(n, Indices(ws0), grp0), s, e) && Moved(n, h, ws0, grp0, ws, s, e) && s < m <= e
    requires |grp| == n && forall x | 0 <= x < n && grp0[x] != s :: grp[x] == grp0[x]
    requires forall p | s <= p < e :: grp[ws[p]] == if p < m then s else m
    ensures Sized(n, Indices(ws), grp) && |Indices(ws0)| == n
    ensures forall p | s <= p < e :: Indices(ws)[p] == ws[p] && grp0[Indices(ws)[p]] == s
    ensures forall p | 0 <= p < n && (p < s || e <= p) :: Indices(ws)[p] == Indices(ws0)[p]
  {
    var perm := Indices(ws);
    forall p | s <= p < e ensures perm[p] == ws[p] { assert Index(ws[p]) == ws[p]; }
    forall x | 0 <= x < n ensures grp[x] < n {
      if grp0[x] == s {
        var p := HasPlace(perm, n, x);
        OtherPlaces(Starts(n, Indices(ws0), grp0), s, e, p);
      }
    }
  }

  /** Exchanged places, with new numbers from place `m` on, refine the group: the keys in front are smaller. */
  lemma SplitRefines(n: nat, h: nat, ws0: seq<Word>, grp0: seq<nat>, ws: seq<Word>, grp: seq<nat>, s: nat, m: nat,
                     e: nat, mid: nat)
    requires Sized(n, Indices(ws0), grp0) && Blocks(Starts(n, Indices(ws0), grp0)) && h <= n
    requires Segment(Starts(n, Indices(ws0), grp0), s, e) && Moved(n, h, ws0, grp0, ws, s, e) && s < m <= e
    requires Side(n, h, grp0, ws, s, m, mid, true) && (m < e ==> Side(n, h, grp0, ws, m, e, mid, false))
    requires |grp| == n && forall x | 0 <= x < n && grp0[x] != s :: grp[x] == grp0[x]
    requires forall p | s <= p < e :: ws[p] < n && grp[ws[p]] == if p < m then s else m
    ensures Refines(n, h, Indices(ws0), grp0, s, e, Indices(ws), grp)
    ensures Starts(n, Indices(ws), grp)[s] == s && (m < e ==> Starts(n, Indices(ws), grp)[m] == m)
  {
    hide Skip, Moved, Blocks;
    SplitInside(n, h, ws0, grp0, ws, grp, s, m, e);
  }

  /** Exchanging places alone keeps the state. */
  lemma MovedState(d: seq<Byte>, h: nat, g0: seq<nat>, ws0: seq<Word>, ws: seq<Word>, grp: seq<nat>, s: nat, e: nat)
    requires Ready(d, h, g0, ws0, grp, s, e) && Moved(|d|, h, ws0, grp, ws, s, e)
    ensures Ready(d, h, g0, ws, grp, s, e)
  {
    hide Same, Less, Ranked, Deep, Finer, Blocks, Refines, Skip, Index;
    ReadyFacts(d, h, g0, ws0, grp, s, e);
    var n := |d|;
    assert Side(n, h, grp, ws, s, e, n, true);
    SplitRefines(n, h, ws0, grp, ws, grp, s, e, e, n);
    Refined(d, h, g0, Indices(ws0), grp, s, e, Indices(ws), grp);
    SplitInside(n, h, ws0, grp, ws, grp, s, e, e);
    MovedSegment(n, ws0, grp, ws, s, e);
  }

  lemma MovedSegment(n: nat, ws0: seq<Word>, grp: seq<nat>, ws: seq<Word>, s: nat, e: nat)
    requires Sized(n, Indices(ws0), grp) && Sized(n, Indices(ws), grp) && Segment(Starts(n, Indices(ws0), grp), s, e)
    requires forall p | s <= p < e :: grp[Indices(ws)[p]] == s
    requires forall p | 0 <= p < n && (p < s || e <= p) :: Indices(ws)[p] == Indices(ws0)[p]
    ensures Segment(Starts(n, Indices(ws), grp), s, e)
  {
    hide Index;
  }

  /** The keys of a group do not depend on the order of its places. */
  lemma MovedKeys(n: nat, h: nat, g0: seq<nat>, perm0: seq<nat>, grp: seq<nat>, perm: seq<nat>, s: nat, e: nat,
                  left: nat, right: nat)
    requires KeysIn(n, h, g0, perm0, grp, s, e, left, right) && Sized(n, perm, grp)
    requires Blocks(Starts(n, perm0, grp)) && Segment(Starts(n, perm0, grp), s, e)
    requires forall p | s <= p < e :: grp[perm[p]] == s
    ensures KeysIn(n, h, g0, perm, grp, s, e, left, right)
  {
    hide Skip;
    forall p | s <= p < e
      ensures left <= grp[Skip(n, perm[p], h)] && g0[Skip(n, perm[p], h)] < right
    {
      var q := HasPlace(perm0, n, perm[p]);
      OtherPlaces(Starts(n, perm0, grp), s, e, q);
    }
  }

  /** Only one group is left in a range of one. */
  lemma OneKey(d: seq<Byte>, h: nat, g0: seq<nat>, perm: seq<nat>, grp: seq<nat>, s: nat, e: nat, left: nat,
               right: nat)
    requires State(d, h, g0, perm, grp) && h < |d| && KeysIn(|d|, h, g0, perm, grp, s, e, left, right)
    requires right <= left + 1
    ensures forall p, q | s <= p < e && s <= q < e :: g0[Skip(|d|, perm[p], h)] == g0[Skip(|d|, perm[q], h)]
  {
    hide Skip, Same, Less, Ranked, Deep, Blocks;
    forall p: nat, q: nat | s <= p < e && s <= q < e
      ensures g0[Skip(|d|, perm[p], h)] == g0[Skip(|d|, perm[q], h)]
    {
      OneOf(Starts(|d|, perm, grp), g0, grp, Skip(|d|, perm[p], h), Skip(|d|, perm[q], h), left);
    }
  }

  lemma OneOf(f: seq<nat>, g0: seq<nat>, grp: seq<nat>, x: nat, y: nat, left: nat)
    requires Finer(f, g0, grp) && x < |grp| && y < |grp|
    requires g0[x] <= left <= grp[x] && g0[y] <= left <= grp[y]
    ensures g0[x] == g0[y]
  {}

  lemma SplitSegments(n: nat, perm: seq<nat>, grp0: seq<nat>, grp: seq<nat>, s: nat, m: nat, e: nat)
    requires Sized(n, perm, grp0) && Sized(n, perm, grp) && Segment(Starts(n, perm, grp0), s, e) && s < m < e
    requires Blocks(Starts(n, perm, grp0))
    requires forall x | 0 <= x < n && grp0[x] != s :: grp[x] == grp0[x]
    requires forall p | s <= p < e :: grp[perm[p]] == if p < m then s else m
    ensures Segment(Starts(n, perm, grp), s, m) && Segment(Starts(n, perm, grp), m, e)
  {
    if e < n { OtherPlaces(Starts(n, perm, grp0), s, e, e); }
  }

  /** After the split both parts are groups, with the two halves of the range for their keys. */
  lemma SplitReady(d: seq<Byte>, h: nat, g0: seq<nat>, ws: seq<Word>, grp0: seq<nat>, grp: seq<nat>, s: nat, m: nat,
                   e: nat, left: nat, mid: nat, right: nat)
    requires Ready(d, h, g0, ws, grp0, s, e) && s < m < e && |grp| == |d|
    requires KeysIn(|d|, h, g0, Indices(ws), grp0, s, e, left, right)
    requires Side(|d|, h, grp0, ws, s, m, mid, true) && Side(|d|, h, grp0, ws, m, e, mid, false)
    requires forall x | 0 <= x < |d| && grp0[x] != s :: grp[x] == grp0[x]
    requires forall p | s <= p < e :: ws[p] < |d| && grp[ws[p]] == if p < m then s else m
    ensures Ready(d, h, g0, ws, grp, s, m) && Ready(d, h, g0, ws, grp, m, e)
    ensures KeysIn(|d|, h, g0, Indices(ws), grp, s, m, left, mid)
    ensures KeysIn(|d|, h, g0, Indices(ws), grp, m, e, mid, right)
    ensures forall x | 0 <= x < |d| :: grp0[x] <= grp[x]
  {
    hide Skip, Same, Less, Ranked, Deep, Blocks, Refines, Index, KeysIn, Perm;
    var n, perm := |d|, Indices(ws);
    ReadyFacts(d, h, g0, ws, grp0, s, e);
    PlainPlaces(n, ws, grp0, s, e);
    NotMoved(d, h, g0, ws, grp0, s, e);
    SplitRefines(n, h, ws, grp0, ws, grp, s, m, e, mid);
    Refined(d, h, g0, perm, grp0, s, e, perm, grp);
    SplitSegments(n, perm, grp0, grp, s, m, e);
    SplitKeys(n, h, g0, perm, grp0, grp, ws, s, m, e, left, mid, right);
  }

  lemma SplitKeys(n: nat, h: nat, g0: seq<nat>, perm: seq<nat>, grp0: seq<nat>, grp: seq<nat>, ws: seq<Word>, s: nat,
                  m: nat, e: nat, left: nat, mid: nat, right: nat)
    requires KeysIn(n, h, g0, perm, grp0, s, e, left, right) && Sized(n, perm, grp) && s < m < e
    requires forall x | 0 <= x < n :: g0[x] <= grp0[x] <= grp[x]
    requires |ws| == n && forall p | s <= p < e :: ws[p] == perm[p]
    requires Side(n, h, grp0, ws, s, m, mid, true) && Side(n, h, grp0, ws, m, e, mid, false)
    ensures KeysIn(n, h, g0, perm, grp, s, m, left, mid) && KeysIn(n, h, g0, perm, grp, m, e, mid, right)
  {
    hide Skip, Perm;
  }

  /** Sorting one part leaves the other part as it was. */
  lemma OtherPart(d: seq<Byte>, h: nat, g0: seq<nat>, ws: seq<Word>, grp: seq<nat>, ws': seq<Word>, grp': seq<nat>,
                  s: nat, m: nat, e: nat, more: bool, left: nat, right: nat)
    requires Outcome(d, h, g0, ws, grp, ws', grp', s, m, more) && Ready(d, h, g0, ws, grp, m, e) && s < m
    requires KeysIn(|d|, h, g0, Indices(ws), grp, m, e, left, right)
    ensures Ready(d, h, g0, ws', grp', m, e) && KeysIn(|d|, h, g0, Indices(ws'), grp', m, e, left, right)
  {
    hide Skip, Same, Less, Ranked, Deep, Blocks, Index, Distinct, Marked, DeepIn, KeysIn;
    var n, f, f' := |d|, Starts(|d|, Indices(ws), grp), Starts(|d|, Indices(ws'), grp');
    forall p | m <= p < n ensures Indices(ws')[p] == Indices(ws)[p] {}
    forall p | m <= p <= e && p < n ensures f'[p] == f[p] { assert f[p] == if p == e then e else m; }
    LaterKeys(n, h, g0, Indices(ws), grp, Indices(ws'), grp', m, e, left, right);
  }

  lemma LaterKeys(n: nat, h: nat, g0: seq<nat>, perm: seq<nat>, grp: seq<nat>, perm': seq<nat>, grp': seq<nat>, a: nat,
                  b: nat, left: nat, right: nat)
    requires KeysIn(n, h, g0, perm, grp, a, b, left, right) && Sized(n, perm', grp')
    requires forall x | 0 <= x < n :: grp[x] <= grp'[x]
    requires forall p | a <= p < b :: perm'[p] == perm[p]
    ensures KeysIn(n, h, g0, perm', grp', a, b, left, right)
  {
    hide Skip, Perm;
  }

  /** The group has been split before place `m`, and the second part has a new number. */
  ghost predicate Divided(ws0: seq<Word>, grp0: seq<nat>, ws1: seq<Word>, grp1: seq<nat>, s: nat, m: nat, e: nat) {
    && |ws0| == |ws1| && |grp0| == |grp1| && s < m < e
    && (forall p | 0 <= p < |ws0| && (p < s || e <= p) :: ws1[p] == ws0[p])
    && forall x | 0 <= x < |grp0| :: grp0[x] <= grp1[x] && (grp0[x] != s ==> grp1[x] == grp0[x] && grp0[x] != m)
  }

  /** The outcomes for both parts are the outcome for the group. */
  lemma JoinOutcomes(d: seq<Byte>, h: nat, g0: seq<nat>, ws0: seq<Word>, grp0: seq<nat>, ws1: seq<Word>, grp1: seq<nat>,
                     ws2: seq<Word>, grp2: seq<nat>, ws3: seq<Word>, grp3: seq<nat>, s: nat, m: nat, e: nat,
                     more1: bool, more2: bool)
    requires Outcome(d, h, g0, ws1, grp1, ws2, grp2, s, m, more1)
      && Outcome(d, h, g0, ws2, grp2, ws3, grp3, m, e, more2)
    requires Divided(ws0, grp0, ws1, grp1, s, m, e)
    ensures Outcome(d, h, g0, ws0, grp0, ws3, grp3, s, e, more1 || more2)
  {
    hide Same, Less, Ranked, Deep, Blocks, Index, Distinct, Marked, DeepIn, Finer;
    var f2, f3 := Starts(|d|, Indices(ws2), grp2), Starts(|d|, Indices(ws3), grp3);
    StartsItself(ws2, f2, s, m);
    StartsItself(ws3, f3, m, e);
    forall p | s <= p < m ensures f3[p] == f2[p] && Indices(ws3)[p] == Indices(ws2)[p] { assert f2[p] != m; }
    KeepMarked(ws2, f2, ws3, f3, 0, s, m);
    JoinMarked(ws3, f3, 0, s, m, e);
    JoinDeep(d, Indices(ws2), f2, Indices(ws3), f3, s, m, e, 2 * h);
    JoinFrames(ws0, grp0, ws1, grp1, ws2, grp2, ws3, grp3, s, m, e);
    hide Divided, Starts;
  }

  lemma JoinFrames(ws0: seq<Word>, grp0: seq<nat>, ws1: seq<Word>, grp1: seq<nat>, ws2: seq<Word>, grp2: seq<nat>,
                   ws3: seq<Word>, grp3: seq<nat>, s: nat, m: nat, e: nat)
    requires Divided(ws0, grp0, ws1, grp1, s, m, e) && |ws0| == |ws2| == |ws3| && |grp0| == |grp2| == |grp3|
    requires forall p | 0 <= p < |ws0| && (p < s || m <= p) :: ws2[p] == ws1[p]
    requires forall x | 0 <= x < |grp0| :: grp1[x] <= grp2[x] && (grp1[x] != s ==> grp2[x] == grp1[x])
    requires forall p | 0 <= p < |ws0| && (p < m || e <= p) :: ws3[p] == ws2[p]
    requires forall x | 0 <= x < |grp0| :: grp2[x] <= grp3[x] && (grp2[x] != m ==> grp3[x] == grp2[x])
    ensures forall p | 0 <= p < |ws0| && (p < s || e <= p) :: ws3[p] == ws0[p]
    ensures forall x | 0 <= x < |grp0| :: grp0[x] <= grp3[x] && (grp0[x] != s ==> grp3[x] == grp0[x])
  {}

  lemma JoinDeep(d: seq<Byte>, perm2: seq<nat>, f2: seq<nat>, perm3: seq<nat>, f3: seq<nat>, s: nat, m: nat, e: nat,
                 k: nat)
    requires Perm(perm2, |d|) && Perm(perm3, |d|) && |f2| == |d| == |f3| && s <= m <= e
    requires DeepIn(d, perm2, f2, s, m, k) && DeepIn(d, perm3, f3, m, e, k)
    requires forall p | s <= p < m :: f3[p] == f2[p] < m && perm3[p] == perm2[p]
    requires forall p | m <= p < e :: m <= f3[p]
    ensures DeepIn(d, perm3, f3, s, e, k)
  {
    hide Same;
  }

  /** When all keys are on one side, so is the range. */
  lemma SideKeys(n: nat, h: nat, g0: seq<nat>, perm: seq<nat>, grp: seq<nat>, ws: seq<Word>, s: nat, e: nat,
                 left: nat, mid: nat, right: nat)
    requires KeysIn(n, h, g0, perm, grp, s, e, left, right) && forall x | 0 <= x < n :: g0[x] <= grp[x]
    requires |ws| == n && forall p | s <= p < e :: ws[p] == perm[p]
    ensures Side(n, h, grp, ws, s, e, mid, true) ==> KeysIn(n, h, g0, perm, grp, s, e, left, mid)
    ensures Side(n, h, grp, ws, s, e, mid, false) ==> KeysIn(n, h, g0, perm, grp, s, e, mid, right)
  {
    hide Skip, Perm;
  }

  lemma GroupFacts(d: seq<Byte>, h: nat, g0: seq<nat>, ws: seq<Word>, grp: seq<nat>, s: nat, e: nat)
    requires Ready(d, h, g0, ws, grp, s, e)
    ensures Sized(|d|, Indices(ws), grp) && h < |d| <= 0x10_0000 && s < e <= |d| == |ws| == |grp| == |g0|
    ensures Segment(Starts(|d|, Indices(ws), grp), s, e) && Blocks(Starts(|d|, Indices(ws), grp)) && CleanIn(ws, s, e)
    ensures State(d, h, g0, Indices(ws), grp) && forall x | 0 <= x < |d| :: g0[x] <= grp[x]
    ensures forall p | s <= p < e :: Indices(ws)[p] == ws[p] && ws[p] < |d| && grp[ws[p]] == s
  {
    ReadyFacts(d, h, g0, ws, grp, s, e);
    PlainPlaces(|d|, ws, grp, s, e);
    hide Ranked, Deep, Blocks, Index;
  }

  /** What stays when the places of a group have been exchanged by `Partition`. */
  lemma PartedReady(d: seq<Byte>, h: nat, g0: seq<nat>, ws0: seq<Word>, ws: seq<Word>, grp: seq<nat>, s: nat, e: nat,
                    left: nat, right: nat)
    requires Ready(d, h, g0, ws0, grp, s, e) && Moved(|d|, h, ws0, grp, ws, s, e)
    requires KeysIn(|d|, h, g0, Indices(ws0), grp, s, e, left, right)
    ensures Ready(d, h, g0, ws, grp, s, e) && KeysIn(|d|, h, g0, Indices(ws), grp, s, e, left, right)
    ensures |ws| == |ws0| && forall p | 0 <= p < |ws| && (p < s || e <= p) :: ws[p] == ws0[p]
  {
    hide Ready, KeysIn, Sized, Segment, Blocks, State, Starts, Index, CleanIn, Perm;
    MovedState(d, h, g0, ws0, ws, grp, s, e);
    GroupFacts(d, h, g0, ws0, grp, s, e);
    GroupFacts(d, h, g0, ws, grp, s, e);
    MovedKeys(|d|, h, g0, Indices(ws0), grp, Indices(ws), s, e, left, right);
  }

  /** Looks for a middle of the range that splits the group, and puts the smaller keys in front. */
  method SplitRange(n: nat, h: nat, s: nat, size: nat, indices: array<Word>, groups: array<Word>, left0: nat,
                    range0: nat, ghost d: seq<Byte>, ghost g0: seq<nat>)
    returns (whole: bool, i: nat, left: nat, mid: nat, range: nat)
    requires Ready(d, h, g0, indices[..], groups[..], s, s + size) && n == |d| && indices != groups
    requires KeysIn(n, h, g0, Indices(indices[..]), groups[..], s, s + size, left0, left0 + range0)
    modifies indices
    ensures Ready(d, h, g0, indices[..], groups[..], s, s + size) && 0 <= i <= size
    ensures KeysIn(n, h, g0, Indices(indices[..]), groups[..], s, s + size, left, left + range)
    ensures forall p | 0 <= p < indices.Length && (p < s || s + size <= p) :: indices[p] == old(indices[p])
    ensures if whole then range <= 1 else
      && 0 < i < size && 0 < mid - left < range <= range0
      && Side(n, h, groups[..], indices[..], s, s + i, mid, true)
      && Side(n, h, groups[..], indices[..], s + i, s + size, mid, false)
  {
    hide *;
    ghost var e, grp: seq<Word> := s + size, groups[..];
    whole, i, left, mid, range := true, 0, left0, 0, range0;
    while range > 1
      invariant Ready(d, h, g0, indices[..], grp, s, e) && range <= range0 && groups[..] == grp
      invariant KeysIn(n, h, g0, Indices(indices[..]), grp, s, e, left, left + range)
      invariant forall p | 0 <= p < indices.Length && (p < s || e <= p) :: indices[p] == old(indices[p])
      decreases range
    {
      ghost var ws := indices[..];
      GroupFacts(d, h, g0, ws, grp, s, e);
      NotMoved(d, h, g0, ws, grp, s, e);
      mid := left + (range + 1) / 2;
      i := Partition(n, h, s, size, mid, indices, groups, ws);
      PartedReady(d, h, g0, ws, indices[..], grp, s, e, left, left + range);
      GroupFacts(d, h, g0, indices[..], grp, s, e);
      SideKeys(n, h, g0, Indices(indices[..]), grp, indices[..], s, e, left, mid, left + range);
      if i == 0 {
        range := range - (mid - left);
        left := mid;
      } else if i == size {
        range := mid - left;
      } else {
        whole := false;
        return;
      }
    }
    i := 0;
  }

  // ----- one group -----

  lemma SinglePlace(d: seq<Byte>, h: nat, g0: seq<nat>, ws: seq<Word>, grp: seq<nat>, s: nat, e: nat)
    requires Ready(d, h, g0, ws, grp, s, e) && e == s + 1
    ensures Outcome(d, h, g0, ws, grp, ws, grp, s, e, false)
  {
    hide Same, Less, Ranked, Deep, Blocks, Finer;
    var perm := Indices(ws);
    CleanWord(ws[s]);
    OneMarked(ws, Starts(|d|, perm, grp), 0, s, 1, false, e);
    SameSelf(d, perm[s], perm[s], 2 * h);
  }

  lemma {:induction false} SameSelf(d: seq<Byte>, x: nat, y: nat, k: nat)
    requires x == y < |d|
    ensures Same(d, x, y, k)
    decreases k
  {
    if k > 0 { SameSelf(d, Skip(|d|, x, 1), Skip(|d|, y, 1), k - 1); }
  }

  /** Whether all keys of the group are the same. */
  method AllSame(n: nat, h: nat, s: nat, size: nat, indices: array<Word>, groups: array<Word>) returns (same: bool)
    requires 0 < size && s + size <= n == indices.Length == groups.Length && h <= n
    requires forall p | s <= p < s + size :: indices[p] < n
    ensures same ==> forall p, q | s <= p < s + size && s <= q < s + size ::
      groups[Skip(n, indices[p], h)] == groups[Skip(n, indices[q], h)]
  {
    hide Skip;
    var group := groups[Skip(n, indices[s], h)];
    for j := 1 to size
      invariant forall p | s <= p < s + j :: groups[Skip(n, indices[p], h)] == group
    {
      if groups[Skip(n, indices[s + j], h)] != group { return false; }
    }
    same := true;
  }

  /** Leaves a group unsorted, and marks it. */
  method LeaveGroup(s: nat, size: nat, indices: array<Word>, ghost grp: seq<nat>, ghost d: seq<Byte>, ghost h: nat,
                    ghost g0: seq<nat>)
    requires Ready(d, h, g0, indices[..], grp, s, s + size) && 2 <= size && h < |d| == |g0| && s + size <= |d|
    requires Perm(Indices(indices[..]), |d|)
    requires forall p, q | s <= p < s + size && s <= q < s + size ::
      g0[Skip(|d|, Indices(indices[..])[p], h)] == g0[Skip(|d|, Indices(indices[..])[q], h)]
    modifies indices
    ensures Outcome(d, h, g0, old(indices[..]), grp, indices[..], grp, s, s + size, true)
  {
    hide *;
    ghost var ws := indices[..];
    GroupFacts(d, h, g0, ws, grp, s, s + size);
    SetGroupSize(indices, s, size);
    WholeGroup(d, h, g0, ws, indices[..], grp, s, s + size);
  }

  lemma SameBefore(d: seq<Byte>, h: nat, g0: seq<nat>, ws: seq<Word>, grp: seq<nat>, s: nat, e: nat)
    requires Ready(d, h, g0, ws, grp, s, e) && h < |d| == |ws| == |grp| && e <= |ws|
    requires forall p | s <= p < e :: ws[p] < |d|
    requires forall p, q | s <= p < e && s <= q < e :: grp[Skip(|d|, ws[p], h)] == grp[Skip(|d|, ws[q], h)]
    ensures Perm(Indices(ws), |d|) && |g0| == |d|
    ensures forall p, q | s <= p < e && s <= q < e ::
      g0[Skip(|d|, Indices(ws)[p], h)] == g0[Skip(|d|, Indices(ws)[q], h)]
  {
    hide Skip, Same, Less, Ranked, Deep, Blocks, Index;
    GroupFacts(d, h, g0, ws, grp, s, e);
    forall p: nat, q: nat | s <= p < e && s <= q < e
      ensures g0[Skip(|d|, Indices(ws)[p], h)] == g0[Skip(|d|, Indices(ws)[q], h)]
    {
      EqualBefore(Starts(|d|, Indices(ws), grp), g0, grp, Skip(|d|, ws[p], h), Skip(|d|, ws[q], h));
    }
  }

  /** Exchanges inside the group belong to its outcome. */
  lemma WiderOutcome(d: seq<Byte>, h: nat, g0: seq<nat>, ws0: seq<Word>, ws1: seq<Word>, grp0: seq<nat>, ws: seq<Word>,
                     grp: seq<nat>, s: nat, e: nat, more: bool)
    requires Outcome(d, h, g0, ws1, grp0, ws, grp, s, e, more) && |ws0| == |ws1|
    requires forall p | 0 <= p < |ws0| && (p < s || e <= p) :: ws1[p] == ws0[p]
    ensures Outcome(d, h, g0, ws0, grp0, ws, grp, s, e, more)
  {
    hide State, Marked, DeepIn, Single, Index;
  }

  /** Numbers the second part of a group. */
  method NumberRest(n: nat, s: nat, i: nat, size: nat, indices: array<Word>, groups: array<Word>)
    requires 0 < i < size && s + size <= n == indices.Length == groups.Length < 0x1_0000_0000 && indices != groups
    requires forall p | s <= p < s + size :: indices[p] < n && groups[indices[p]] == s
    requires Distinct(indices[s..s + size])
    modifies groups
    ensures forall p | s <= p < s + size :: groups[indices[p]] == if p < s + i then s else s + i
    ensures forall x | 0 <= x < n && old(groups[x]) != s :: groups[x] == old(groups[x])
  {
    ghost var e := s + size;
    forall p, q | s <= p < q < e ensures indices[p] != indices[q] {
      assert indices[s..e][p - s] != indices[s..e][q - s];
    }
    hide Distinct;
    for j := i to size
      invariant forall p | s <= p < e :: groups[indices[p]] == if s + i <= p < s + j then s + i else s
      invariant forall x | 0 <= x < n && old(groups[x]) != s :: groups[x] == old(groups[x])
    {
      groups[indices[s + j]] := s + i;
    }
  }

  lemma NoNumberInside(d: seq<Byte>, h: nat, g0: seq<nat>, ws: seq<Word>, grp: seq<nat>, s: nat, m: nat, e: nat)
    requires Ready(d, h, g0, ws, grp, s, e) && s < m < e
    ensures forall x | 0 <= x < |grp| :: grp[x] != m
  {
    hide Ranked, Deep, Finer, Blocks;
    GroupFacts(d, h, g0, ws, grp, s, e);
    forall x: nat | x < |grp| ensures grp[x] != m { NotBetween(|d|, Indices(ws), grp, s, e, x); }
  }

  /** Splits a group by its range of keys, or leaves it if there is nothing to split. */
  method Divide(n: nat, h: nat, s: nat, size: nat, indices: array<Word>, groups: array<Word>, left0: nat, range0: nat,
                ghost d: seq<Byte>, ghost g0: seq<nat>)
    returns (whole: bool, i: nat, left: nat, mid: nat, range: nat)
    requires Ready(d, h, g0, indices[..], groups[..], s, s + size) && n == |d| && indices != groups && size >= 2
    requires KeysIn(n, h, g0, Indices(indices[..]), groups[..], s, s + size, left0, left0 + range0)
    modifies indices, groups
    ensures whole ==> Outcome(d, h, g0, old(indices[..]), old(groups[..]), indices[..], groups[..], s, s + size, true)
    ensures !whole ==>
      && 0 < i < size && 0 < mid - left < range <= range0
      && Ready(d, h, g0, indices[..], groups[..], s, s + i)
      && Ready(d, h, g0, indices[..], groups[..], s + i, s + size)
      && KeysIn(n, h, g0, Indices(indices[..]), groups[..], s, s + i, left, mid)
      && KeysIn(n, h, g0, Indices(indices[..]), groups[..], s + i, s + size, mid, left + range)
      && Divided(old(indices[..]), old(groups[..]), indices[..], groups[..], s, s + i, s + size)
  {
    hide *;
    ghost var e, ws0, grp0: seq<Word> := s + size, indices[..], groups[..];
    GroupFacts(d, h, g0, ws0, grp0, s, e);
    whole, i, left, mid, range := SplitRange(n, h, s, size, indices, groups, left0, range0, d, g0);
    ghost var ws1 := indices[..];
    GroupFacts(d, h, g0, ws1, grp0, s, e);
    if whole {
      OneKey(d, h, g0, Indices(ws1), grp0, s, e, left, left + range);
      SizedPerm(n, Indices(ws1), grp0);
      LeaveGroup(s, size, indices, grp0, d, h, g0);
      WiderOutcome(d, h, g0, ws0, ws1, grp0, indices[..], grp0, s, e, true);
      return;
    }
    PlainPlaces(n, ws1, grp0, s, e);
    NumberRest(n, s, i, size, indices, groups);
    SplitReady(d, h, g0, ws1, grp0, groups[..], s, s + i, e, left, mid, left + range);
    NoNumberInside(d, h, g0, ws1, grp0, s, s + i, e);
    IsDivided(ws0, grp0, ws1, groups[..], s, s + i, e);
  }

  lemma IsDivided(ws0: seq<Word>, grp0: seq<nat>, ws1: seq<Word>, grp1: seq<nat>, s: nat, m: nat, e: nat)
    requires |ws0| == |ws1| && |grp0| == |grp1| && s < m < e
    requires forall p | 0 <= p < |ws0| && (p < s || e <= p) :: ws1[p] == ws0[p]
    requires forall x | 0 <= x < |grp0| :: grp0[x] <= grp1[x]
    requires forall x | 0 <= x < |grp0| && grp0[x] != s :: grp1[x] == grp0[x]
    requires forall x | 0 <= x < |grp0| :: grp0[x] != m
    ensures Divided(ws0, grp0, ws1, grp1, s, m, e)
  {}

  /** Sorts one group by the groups of its rotations `h` bytes on. */
  method SortGroup(n: nat, h: nat, s: nat, size: nat, unit: nat, indices: array<Word>, temp: array<Word>,
                   groups: array<Word>, left0: nat, range0: nat, ghost d: seq<Byte>, ghost g0: seq<nat>)
    returns (more: bool)
    requires Ready(d, h, g0, indices[..], groups[..], s, s + size) && n == |d|
    requires KeysIn(n, h, g0, Indices(indices[..]), groups[..], s, s + size, left0, left0 + range0)
    requires n * unit <= 0x1_0000_0000 && unit <= temp.Length
    requires temp != indices && temp != groups && indices != groups
    modifies indices, temp, groups
    ensures Outcome(d, h, g0, old(indices[..]), old(groups[..]), indices[..], groups[..], s, s + size, more)
    decreases range0
  {
    hide *;
    ghost var e, ws0, grp0: seq<Word> := s + size, indices[..], groups[..];
    GroupFacts(d, h, g0, ws0, grp0, s, e);
    if size <= 1 {
      SinglePlace(d, h, g0, ws0, grp0, s, e);
      return false;
    }
    if size <= unit && size <= range0 {
      more := RefineByKeys(n, h, s, size, unit, indices, temp, groups, d, g0);
      return;
    }
    var same := AllSame(n, h, s, size, indices, groups);
    if same {
      SameBefore(d, h, g0, ws0, grp0, s, e);
      LeaveGroup(s, size, indices, grp0, d, h, g0);
      return true;
    }
    var whole, i, left, mid, range := Divide(n, h, s, size, indices, groups, left0, range0, d, g0);
    if whole { return true; }
    ghost var m, ws1, grp1: seq<Word> := s + i, indices[..], groups[..];
    assert left + (mid - left) == mid && mid + (range - (mid - left)) == left + range && m + (size - i) == e;
    var more1 := SortGroup(n, h, s, i, unit, indices, temp, groups, left, mid - left, d, g0);
    ghost var ws2, grp2: seq<Word> := indices[..], groups[..];
    OtherPart(d, h, g0, ws1, grp1, ws2, grp2, s, m, e, more1, mid, left + range);
    var more2 := SortGroup(n, h, s + i, size - i, unit, indices, temp, groups, mid, range - (mid - left), d, g0);
    JoinOutcomes(d, h, g0, ws0, grp0, ws1, grp1, ws2, grp2, indices[..], groups[..], s, m, e, more1, more2);
    more := more1 || more2;
  }

  lemma SizedPerm(n: nat, perm: seq<nat>, grp: seq<nat>)
    requires Sized(n, perm, grp)
    ensures Perm(perm, n)
  {}
}
