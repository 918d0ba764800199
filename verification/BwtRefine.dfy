/** Refining a small group: its places are sorted by one word each, made of the key and the place. */
module BwtRefine {
  import opened Arith
  import opened BitModel
  import opened Lists
  import opened BwtOrder
  import opened BwtGroups
  import opened BwtMarks
  import opened WordSort

  // ----- what sorting a group comes to -----

  /** The state after the group between places `s` and `e` has been dealt with, and whether open groups are left. */
  ghost predicate Outcome(d: seq<Byte>, h: nat, g0: seq<nat>, ws0: seq<Word>, grp0: seq<nat>, ws: seq<Word>,
                          grp: seq<nat>, s: nat, e: nat, more: bool)
  {
    && State(d, h, g0, Indices(ws), grp) && |ws0| == |ws| && |grp0| == |grp| && s <= e <= |ws|
    && (forall p | 0 <= p < s || e <= p < |ws| :: ws[p] == ws0[p])
    && (forall x | 0 <= x < |grp| :: grp0[x] <= grp[x] && (grp0[x] != s ==> grp[x] == grp0[x]))
    && var f := Starts(|d|, Indices(ws), grp);
       Marked(ws, f, 0, s, e) && DeepIn(d, Indices(ws), f, s, e, 2 * h) && (!more ==> Single(f, s, e))
  }

  ghost predicate Single(f: seq<nat>, a: nat, b: nat) {
    b <= |f| && forall p | a <= p < b :: f[p] == p
  }

  /** The state before a group is dealt with. */
  ghost predicate Ready(d: seq<Byte>, h: nat, g0: seq<nat>, ws: seq<Word>, grp: seq<nat>, s: nat, e: nat) {
    && State(d, h, g0, Indices(ws), grp) && h < |d| <= INDEX
    && Segment(Starts(|d|, Indices(ws), grp), s, e) && CleanIn(ws, s, e)
  }

  // ----- the first place with the same key -----

  ghost function Head(ks: seq<nat>, j: nat): (h: nat)
    requires j < |ks|
    ensures h <= j
  {
    if j > 0 && ks[j - 1] == ks[j] then Head(ks, j - 1) else j
  }

  lemma {:induction false} HeadReaches(ks: seq<nat>, j: nat, r: nat)
    requires r <= j < |ks| && Sorted(ks) && (Head(ks, j) <= r || ks[r] == ks[j])
    ensures Head(ks, r) == Head(ks, j) && ks[r] == ks[j]
    decreases j
  {
    if r < j {
      assert ks[r] <= ks[j - 1] <= ks[j];
      HeadReaches(ks, j - 1, r);
    }
  }

  lemma HeadsTell(ks: seq<nat>, p: nat, q: nat)
    requires p < |ks| && q < |ks| && Sorted(ks)
    ensures Head(ks, p) == Head(ks, q) <==> ks[p] == ks[q]
    ensures Head(ks, p) < Head(ks, q) ==> ks[p] < ks[q]
  {
    if p <= q {
      if Head(ks, q) <= p || ks[p] == ks[q] { HeadReaches(ks, q, p); }
    } else {
      if Head(ks, p) <= q || ks[p] == ks[q] { HeadReaches(ks, p, q); }
    }
  }

  // ----- a group in its new order -----

  /** The places of the group, taken in the order `sigma`, with rising keys. */
  ghost predicate Reordered(n: nat, h: nat, perm: seq<nat>, grp: seq<nat>, s: nat, e: nat, sigma: seq<nat>,
                            ks: seq<nat>, perm': seq<nat>, grp': seq<nat>)
  {
    && Sized(n, perm, grp) && Segment(Starts(n, perm, grp), s, e) && h <= n
    && e == s + |sigma| && |ks| == |sigma| && Distinct(sigma) && Inside(sigma, |sigma|) && Sorted(ks)
    && |perm'| == n == |grp'|
    && (forall p | 0 <= p < s || e <= p < n :: perm'[p] == perm[p])
    && (forall p | s <= p < e :: perm'[p] == perm[s + sigma[p - s]] && ks[p - s] == grp[Skip(n, perm'[p], h)]
          && grp'[perm'[p]] == s + Head(ks, p - s))
    && (forall x | 0 <= x < n && grp[x] != s :: grp'[x] == grp[x])
  }

  lemma ReorderedPerm(n: nat, h: nat, perm: seq<nat>, grp: seq<nat>, s: nat, e: nat, sigma: seq<nat>, ks: seq<nat>,
                      perm': seq<nat>, grp': seq<nat>)
    requires Reordered(n, h, perm, grp, s, e, sigma, ks, perm', grp') && Blocks(Starts(n, perm, grp))
    ensures Perm(perm', n)
    ensures forall p | s <= p < e :: grp[perm'[p]] == s
  {
    var f := Starts(n, perm, grp);
    forall p | s <= p < e ensures grp[perm'[p]] == s { assert f[s + sigma[p - s]] == s; }
    forall p, q | 0 <= p < q < n ensures perm'[p] != perm'[q] {
      if s <= p < e { assert s <= s + sigma[p - s] < e; }
      if s <= q < e { assert s <= s + sigma[q - s] < e; }
      if s <= p && q < e { assert sigma[p - s] != sigma[q - s]; }
    }
  }

  lemma ReorderedSized(n: nat, h: nat, perm: seq<nat>, grp: seq<nat>, s: nat, e: nat, sigma: seq<nat>, ks: seq<nat>,
                       perm': seq<nat>, grp': seq<nat>)
    requires Reordered(n, h, perm, grp, s, e, sigma, ks, perm', grp') && Blocks(Starts(n, perm, grp))
    ensures Sized(n, perm', grp')
  {
    ReorderedPerm(n, h, perm, grp, s, e, sigma, ks, perm', grp');
    forall x | 0 <= x < n ensures grp'[x] < n {
      if grp[x] == s {
        var p := HasPlace(perm', n, x);
        OtherPlaces(Starts(n, perm, grp), s, e, p);
      }
    }
  }

  lemma ReorderedAt(n: nat, h: nat, perm: seq<nat>, grp: seq<nat>, s: nat, e: nat, sigma: seq<nat>, ks: seq<nat>,
                    perm': seq<nat>, grp': seq<nat>, p: nat)
    requires Reordered(n, h, perm, grp, s, e, sigma, ks, perm', grp') && Sized(n, perm', grp') && s <= p < e
    ensures Starts(n, perm', grp')[p] == s + Head(ks, p - s) && ks[p - s] == grp[Skip(n, perm'[p], h)]
  {}

  lemma ReorderedRefines(n: nat, h: nat, perm: seq<nat>, grp: seq<nat>, s: nat, e: nat, sigma: seq<nat>, ks: seq<nat>,
                         perm': seq<nat>, grp': seq<nat>)
    requires Reordered(n, h, perm, grp, s, e, sigma, ks, perm', grp') && Blocks(Starts(n, perm, grp))
    ensures Refines(n, h, perm, grp, s, e, perm', grp')
  {
    ReorderedPerm(n, h, perm, grp, s, e, sigma, ks, perm', grp');
    ReorderedSized(n, h, perm, grp, s, e, sigma, ks, perm', grp');
    var f' := Starts(n, perm', grp');
    forall p: nat, q: nat | s <= p < e && s <= q < e
      ensures s <= f'[p] <= p && (f'[p] <= q <= p ==> f'[q] == f'[p])
      ensures f'[p] < f'[q] ==> grp[Skip(n, perm'[p], h)] < grp[Skip(n, perm'[q], h)]
    {
      ReorderedTwo(n, h, perm, grp, s, e, sigma, ks, perm', grp', p, q);
    }
    hide Head, Skip, Sorted, Distinct;
  }

  lemma ReorderedTwo(n: nat, h: nat, perm: seq<nat>, grp: seq<nat>, s: nat, e: nat, sigma: seq<nat>, ks: seq<nat>,
                     perm': seq<nat>, grp': seq<nat>, p: nat, q: nat)
    requires Reordered(n, h, perm, grp, s, e, sigma, ks, perm', grp') && Sized(n, perm', grp')
    requires s <= p < e && s <= q < e
    ensures var f' := Starts(n, perm', grp');
      && s <= f'[p] <= p && (f'[p] <= q <= p ==> f'[q] == f'[p])
      && (f'[p] < f'[q] ==> grp[Skip(n, perm'[p], h)] < grp[Skip(n, perm'[q], h)])
      && (f'[p] == f'[q] ==> grp[Skip(n, perm'[p], h)] == grp[Skip(n, perm'[q], h)])
  {
    ReorderedAt(n, h, perm, grp, s, e, sigma, ks, perm', grp', p);
    ReorderedAt(n, h, perm, grp, s, e, sigma, ks, perm', grp', q);
    HeadsTell(ks, p - s, q - s);
    if Head(ks, p - s) <= q - s <= p - s { HeadReaches(ks, p - s, q - s); }
  }

  lemma ReorderedDeep(d: seq<Byte>, h: nat, g0: seq<nat>, perm: seq<nat>, grp: seq<nat>, s: nat, e: nat,
                      sigma: seq<nat>, ks: seq<nat>, perm': seq<nat>, grp': seq<nat>)
    requires State(d, h, g0, perm, grp) && Reordered(|d|, h, perm, grp, s, e, sigma, ks, perm', grp')
    ensures Sized(|d|, perm', grp') && DeepIn(d, perm', Starts(|d|, perm', grp'), s, e, 2 * h)
  {
    hide Same, Less, Ranked, Deep, Finer, Head, Sorted, Skip;
    ReorderedPerm(|d|, h, perm, grp, s, e, sigma, ks, perm', grp');
    ReorderedSized(|d|, h, perm, grp, s, e, sigma, ks, perm', grp');
    var f' := Starts(|d|, perm', grp');
    forall p: nat, q: nat | s <= p < e && s <= q < e && f'[p] == f'[q] ensures Same(d, perm'[p], perm'[q], 2 * h) {
      ReorderedTwo(|d|, h, perm, grp, s, e, sigma, ks, perm', grp', p, q);
      SameKeys(d, h, g0, perm, grp, perm'[p], perm'[q]);
    }
  }

  /** Two rotations of one group with keys in one group agree on twice as many bytes. */
  lemma SameKeys(d: seq<Byte>, h: nat, g0: seq<nat>, perm: seq<nat>, grp: seq<nat>, x: nat, y: nat)
    requires State(d, h, g0, perm, grp) && h <= |d| && x < |d| && y < |d| && grp[x] == grp[y]
    requires grp[Skip(|d|, x, h)] == grp[Skip(|d|, y, h)]
    ensures Same(d, x, y, 2 * h)
  {
    hide Same, Less, Blocks, Ranked, Deep;
    EqualBefore(Starts(|d|, perm, grp), g0, grp, x, y);
    EqualBefore(Starts(|d|, perm, grp), g0, grp, Skip(|d|, x, h), Skip(|d|, y, h));
    Doubled(d, h, g0, perm, grp, x, y);
  }

  // ----- sorting words -----

  /** `ks` has the key of each place of the group, `t` the sorted words. */
  ghost predicate SortedKeys(ks: seq<nat>, unit: nat, t: seq<nat>) {
    && |t| == |ks| <= unit && Sorted(t) && Distinct(t)
    && forall j | 0 <= j < |t| :: t[j] % unit < |ks| && t[j] / unit == ks[t[j] % unit]
  }

  lemma WordsSorted(ks: seq<nat>, unit: nat, t0: seq<nat>, t: seq<nat>)
    requires |t0| == |ks| <= unit && (forall j | 0 <= j < |ks| :: t0[j] == ks[j] * unit + j)
    requires Sorted(t) && multiset(t) == multiset(t0)
    ensures SortedKeys(ks, unit, t)
  {
    assert |multiset(t)| == |t| && |multiset(t0)| == |t0|;
    forall j | 0 <= j < |ks| ensures t0[j] / unit == ks[j] && t0[j] % unit == j { DivUnique(t0[j], ks[j], unit); }
    StaysDistinct(t0, t);
    forall j | 0 <= j < |t| ensures t[j] % unit < |ks| && t[j] / unit == ks[t[j] % unit] {
      assert t[j] in multiset(t0);
      var i :| 0 <= i < |t0| && t0[i] == t[j];
    }
  }

  ghost function Remainders(t: seq<nat>, unit: nat): (r: seq<nat>)
    requires unit > 0
    ensures |r| == |t| && forall j | 0 <= j < |t| :: r[j] == t[j] % unit
  {
    seq(|t|, j requires 0 <= j < |t| => t[j] % unit)
  }

  ghost function Quotients(t: seq<nat>, unit: nat): (r: seq<nat>)
    requires unit > 0
    ensures |r| == |t| && forall j | 0 <= j < |t| :: r[j] == t[j] / unit
  {
    seq(|t|, j requires 0 <= j < |t| => t[j] / unit)
  }

  lemma QuotientGrows(a: nat, b: nat, unit: nat)
    requires a <= b && unit > 0
    ensures a / unit <= b / unit
  {
    if b / unit < a / unit { MulMono(b / unit + 1, a / unit, unit); }
  }

  lemma SameParts(a: nat, b: nat, unit: nat)
    requires unit > 0 && a / unit == b / unit
    ensures a % unit == b % unit ==> a == b
  {
    assert a == unit * (a / unit) + a % unit;
    assert b == unit * (b / unit) + b % unit;
  }

  lemma SortedParts(ks: seq<nat>, unit: nat, t: seq<nat>)
    requires SortedKeys(ks, unit, t) && unit > 0
    ensures Distinct(Remainders(t, unit)) && Inside(Remainders(t, unit), |t|) && Sorted(Quotients(t, unit))
    ensures forall j | 0 <= j < |t| :: Quotients(t, unit)[j] == ks[Remainders(t, unit)[j]]
  {
    var r := Remainders(t, unit);
    forall x, y | 0 <= x < y < |t| ensures r[x] != r[y] && t[x] / unit <= t[y] / unit {
      QuotientGrows(t[x], t[y], unit);
      if t[x] / unit == t[y] / unit { SameParts(t[x], t[y], unit); }
    }
  }

  // ----- the loops -----

  /** A word for each place of the group: its key above the place. */
  method FillKeys(n: nat, h: nat, s: nat, size: nat, unit: nat, indices: array<Word>, temp: array<Word>,
                  groups: array<Word>, ghost ks: seq<nat>) returns (differ: bool)
    requires 2 <= size <= unit && size <= temp.Length && s + size <= n == indices.Length == groups.Length && h < n
    requires n * unit <= 0x1_0000_0000 && temp != indices && temp != groups
    requires |ks| == size && forall x | 0 <= x < n :: groups[x] < n
    requires forall p | s <= p < s + size :: indices[p] < n && ks[p - s] == groups[Skip(n, indices[p], h)]
    modifies temp
    ensures forall j | 0 <= j < size :: temp[j] == ks[j] * unit + j
    ensures !differ ==> forall j | 0 <= j < size :: ks[j] == ks[0]
  {
    differ := false;
    var first := groups[Skip(n, indices[s], h)];
    assert first == ks[s - s];
    for j := 0 to size
      invariant forall k | 0 <= k < j :: temp[k] == ks[k] * unit + k
      invariant !differ ==> forall k | 0 <= k < j :: ks[k] == ks[0]
    {
      var g: nat := groups[Skip(n, indices[s + j], h)];
      assert g == ks[s + j - s];
      WordFits(g, j, n, unit);
      temp[j] := g * unit + j;
      if g != first { differ := true; }
    }
  }

  lemma WordFits(g: nat, j: nat, n: nat, unit: nat)
    requires g < n && j < unit && n * unit <= 0x1_0000_0000
    ensures g * unit + j < 0x1_0000_0000
  {
    MulSucc(g, unit);
    MulMono(g + 1, n, unit);
  }

  ghost function Numbers(s: nat, ks: seq<nat>): (g: seq<nat>)
    ensures |g| == |ks| && forall j | 0 <= j < |ks| :: g[j] == s + Head(ks, j)
  {
    seq(|ks|, j requires 0 <= j < |ks| => s + Head(ks, j))
  }

  /** Marks the places from `a` to `b` as one group behind those already marked. */
  method CloseGroup(temp: array<Word>, a: nat, b: nat, ghost g: seq<nat>, ghost base: nat)
    requires a < b <= temp.Length && b <= |g| && b - a <= 0x10_0000 && CleanIn(temp[..], a, b)
    requires Marked(temp[..], g, base, 0, a) && forall p | a <= p < b :: g[p] == base + a
    modifies temp
    ensures Marked(temp[..], g, base, 0, b) && Indices(temp[..]) == Indices(old(temp[..]))
    ensures forall x | 0 <= x < temp.Length && (x < a || b <= x) :: temp[x] == old(temp[x])
  {
    hide Group, Indices, CleanIn;
    ghost var ws := temp[..];
    SetGroupSize(temp, a, b - a);
    KeepMarked(ws, g, temp[..], g, base, 0, a);
    OneMarked(temp[..], g, base, a, b - a, b - a > 1, b);
    JoinMarked(temp[..], g, base, 0, a, b);
  }

  /** Up to place `j` of the sorted group the words have become indices, and the groups have their numbers. */
  ghost predicate Renumbered(ind: seq<Word>, t: seq<Word>, sigma: seq<nat>, ks: seq<nat>, s: nat, grp0: seq<nat>,
                             ws: seq<Word>, grp: seq<nat>, j: nat)
  {
    && j <= |t| == |sigma| == |ks| == |ind| <= |ws| && |grp| == |grp0| && Inside(sigma, |ind|)
    && (forall k | 0 <= k < |ind| :: ind[k] < |grp|)
    && (forall k | j <= k < |t| :: ws[k] == t[k])
    && (forall k | 0 <= k < j :: Index(ws[k]) == ind[sigma[k]] && grp[ind[sigma[k]]] == s + Head(ks, k))
    && (forall x | 0 <= x < |grp| && grp0[x] != s :: grp[x] == grp0[x])
  }

  /** The next place of the sorted group. */
  method PlaceNext(s: nat, j: nat, unit: nat, group: Word, indices: array<Word>, temp: array<Word>,
                   groups: array<Word>, ghost ind: seq<Word>, ghost t: seq<Word>, ghost sigma: seq<nat>,
                   ghost ks: seq<nat>, ghost grp0: seq<nat>)
    requires temp != indices && temp != groups && indices != groups && unit > 0
    requires j < |t| && s + |t| <= indices.Length && indices[s..s + |t|] == ind
    requires Renumbered(ind, t, sigma, ks, s, grp0, temp[..], groups[..], j)
    requires sigma[j] == t[j] % unit && group == s + Head(ks, j) && grp0[ind[sigma[j]]] == s
    requires Distinct(sigma) && Distinct(ind) && Clean(ind[sigma[j]])
    modifies temp, groups
    ensures Renumbered(ind, t, sigma, ks, s, grp0, temp[..], groups[..], j + 1)
    ensures temp[j] == ind[sigma[j]] && forall k | 0 <= k < temp.Length && k != j :: temp[k] == old(temp[k])
  {
    hide Head;
    var val := temp[j];
    assert indices[s + val % unit] == ind[val % unit];
    var x := indices[s + val % unit];
    assert Index(x) == x;
    temp[j] := x;
    groups[x] := group;
    forall k | 0 <= k < j ensures ind[sigma[k]] != x { assert sigma[k] != sigma[j]; }
  }

  lemma HeadsBetween(ks: seq<nat>, j: nat)
    requires j < |ks| && Sorted(ks)
    ensures forall k | Head(ks, j) <= k <= j :: Head(ks, k) == Head(ks, j)
  {
    forall k | Head(ks, j) <= k <= j ensures Head(ks, k) == Head(ks, j) { HeadReaches(ks, j, k); }
  }

  lemma NextHead(ks: seq<nat>, j: nat)
    requires 0 < j < |ks|
    ensures Head(ks, j) == if ks[j] == ks[j - 1] then Head(ks, j - 1) else j
    ensures Head(ks, 0) == 0
  {}

  /** Marking words keeps what has been written. */
  lemma StaysRenumbered(ind: seq<Word>, t: seq<Word>, sigma: seq<nat>, ks: seq<nat>, s: nat, grp0: seq<nat>,
                        ws: seq<Word>, vs: seq<Word>, grp: seq<nat>, j: nat)
    requires Renumbered(ind, t, sigma, ks, s, grp0, ws, grp, j) && Indices(ws) == Indices(vs)
    requires forall k | j <= k < |ws| :: vs[k] == ws[k]
    ensures Renumbered(ind, t, sigma, ks, s, grp0, vs, grp, j)
  {
    hide Head, Index;
    forall k | 0 <= k < |ws| ensures Index(vs[k]) == Index(ws[k]) { assert Indices(ws)[k] == Indices(vs)[k]; }
  }

  /** What the writing loop starts from. */
  ghost predicate Writing(ind: seq<Word>, t: seq<Word>, unit: nat, sigma: seq<nat>, ks: seq<nat>, s: nat,
                          grp0: seq<nat>)
  {
    && unit > 0 && 2 <= |t| == |sigma| == |ks| == |ind| <= INDEX && Inside(sigma, |ind|) && Distinct(sigma)
    && Distinct(ind) && Sorted(ks)
    && forall j | 0 <= j < |t| :: sigma[j] == t[j] % unit && ks[j] == t[j] / unit
         && ind[j] < |grp0| && Clean(ind[j]) && grp0[ind[j]] == s
  }

  /** In the loop: the groups before `prev` have been marked, the group at `prev` goes on. */
  ghost predicate Halfway(ind: seq<Word>, t: seq<Word>, unit: nat, sigma: seq<nat>, ks: seq<nat>, s: nat,
                          grp0: seq<nat>, ws: seq<Word>, grp: seq<nat>, j: nat, prev: nat, more: bool)
  {
    && Writing(ind, t, unit, sigma, ks, s, grp0) && 1 <= j <= |t|
    && Renumbered(ind, t, sigma, ks, s, grp0, ws, grp, j) && prev == Head(ks, j - 1)
    && CleanIn(ws, prev, j) && Marked(ws, Numbers(s, ks), s, 0, prev)
    && (!more ==> forall k | 0 <= k < j :: Head(ks, k) == k)
  }

  /** The group at `prev` ends before `j`. */
  method EndGroup(prev: nat, j: nat, temp: array<Word>, ghost ind: seq<Word>, ghost t: seq<Word>, ghost unit: nat,
                  ghost sigma: seq<nat>, ghost ks: seq<nat>, ghost s: nat, ghost grp0: seq<nat>, ghost grp: seq<nat>,
                  ghost more: bool)
    requires Halfway(ind, t, unit, sigma, ks, s, grp0, temp[..], grp, j, prev, more)
    modifies temp
    ensures Renumbered(ind, t, sigma, ks, s, grp0, temp[..], grp, j) && Marked(temp[..], Numbers(s, ks), s, 0, j)
    ensures forall x | j <= x < temp.Length :: temp[x] == old(temp[x])
  {
    hide Head, Marked, Group;
    HeadsBetween(ks, j - 1);
    ghost var ws := temp[..];
    CloseGroup(temp, prev, j, Numbers(s, ks), s);
    StaysRenumbered(ind, t, sigma, ks, s, grp0, ws, temp[..], grp, j);
  }

  lemma WritingAt(ind: seq<Word>, t: seq<Word>, unit: nat, sigma: seq<nat>, ks: seq<nat>, s: nat, grp0: seq<nat>,
                  j: nat)
    requires Writing(ind, t, unit, sigma, ks, s, grp0) && j < |t|
    ensures unit > 0 && Distinct(sigma) && Distinct(ind) && |t| == |sigma| == |ks| == |ind|
    ensures sigma[j] == t[j] % unit && ks[j] == t[j] / unit && sigma[j] < |ind|
    ensures ind[sigma[j]] < |grp0| && Clean(ind[sigma[j]]) && grp0[ind[sigma[j]]] == s
  {}

  lemma HalfwayAt(ind: seq<Word>, t: seq<Word>, unit: nat, sigma: seq<nat>, ks: seq<nat>, s: nat,
                  grp0: seq<nat>, ws: seq<Word>, grp: seq<nat>, j: nat, prev: nat, more: bool)
    requires Halfway(ind, t, unit, sigma, ks, s, grp0, ws, grp, j, prev, more)
    ensures Writing(ind, t, unit, sigma, ks, s, grp0) && Renumbered(ind, t, sigma, ks, s, grp0, ws, grp, j)
    ensures Marked(ws, Numbers(s, ks), s, 0, prev) && prev <= j <= |ws| && 0 < j <= |ks| == |t| && prev <= |ks|
    ensures j < |t| ==> j < |ws| && ws[j] == t[j]
  {}

  lemma HalfwayNext(ind: seq<Word>, t: seq<Word>, unit: nat, sigma: seq<nat>, ks: seq<nat>, s: nat, grp0: seq<nat>,
                    ws0: seq<Word>, grp0': seq<nat>, j: nat, prev0: nat, more0: bool, ws: seq<Word>, grp: seq<nat>,
                    prev: nat, more: bool, j': nat)
    requires Halfway(ind, t, unit, sigma, ks, s, grp0, ws0, grp0', j, prev0, more0) && j < |t| && j' == j + 1
    requires if ks[j] == ks[j - 1] then prev == prev0 && more else prev == j && more == more0
    requires Renumbered(ind, t, sigma, ks, s, grp0, ws, grp, j') && Marked(ws, Numbers(s, ks), s, 0, prev)
    requires j' <= |ws| && j' <= |ws0| && Clean(ws[j]) && forall k | prev <= k < j :: ws[k] == ws0[k]
    ensures Halfway(ind, t, unit, sigma, ks, s, grp0, ws, grp, j', prev, more)
  {
    hide Head, Marked, Renumbered, Distinct, Sorted;
    NextHead(ks, j);
  }

  /** Whether the next place starts a new group. */
  method GoOn(j: nat, unit: nat, prev0: nat, more0: bool, cg: nat, temp: array<Word>, ghost ind: seq<Word>,
              ghost t: seq<Word>, ghost sigma: seq<nat>, ghost ks: seq<nat>, ghost s: nat, ghost grp0: seq<nat>,
              ghost grp: seq<nat>)
    returns (prev: nat, more: bool, cgCur: nat)
    requires 0 < j < |t| == |ks| && unit > 0
    requires Halfway(ind, t, unit, sigma, ks, s, grp0, temp[..], grp, j, prev0, more0) && cg == ks[j - 1]
    modifies temp
    ensures Renumbered(ind, t, sigma, ks, s, grp0, temp[..], grp, j) && Marked(temp[..], Numbers(s, ks), s, 0, prev)
    ensures if ks[j] == ks[j - 1] then prev == prev0 && more else prev == j && more == more0
    ensures prev == Head(ks, j) && cgCur == ks[j] && forall k | prev <= k < temp.Length :: temp[k] == old(temp[k])
  {
    hide *;
    HalfwayAt(ind, t, unit, sigma, ks, s, grp0, temp[..], grp, j, prev0, more0);
    WritingAt(ind, t, unit, sigma, ks, s, grp0, j);
    NextHead(ks, j);
    HeadNow(ks, j, temp[..], ind, t, unit, sigma, s, grp0, grp, prev0, more0);
    prev, more, cgCur := prev0, more0, temp[j] / unit;
    if cgCur != cg {
      EndGroup(prev, j, temp, ind, t, unit, sigma, ks, s, grp0, grp, more);
      prev := j;
    } else {
      more := true;
    }
  }

  /** One place further. */
  method WriteNext(s: nat, j: nat, unit: nat, prev0: nat, more0: bool, cg: nat, indices: array<Word>,
                   temp: array<Word>, groups: array<Word>, ghost ind: seq<Word>, ghost t: seq<Word>,
                   ghost sigma: seq<nat>, ghost ks: seq<nat>, ghost grp0: seq<nat>)
    returns (prev: nat, more: bool, cgCur: nat)
    requires temp != indices && temp != groups && indices != groups && 0 < j < |t| == |ks| && unit > 0
    requires s + |t| <= indices.Length < 0x1_0000_0000 && indices[s..s + |t|] == ind
    requires Halfway(ind, t, unit, sigma, ks, s, grp0, temp[..], groups[..], j, prev0, more0) && cg == ks[j - 1]
    modifies temp, groups
    ensures Halfway(ind, t, unit, sigma, ks, s, grp0, temp[..], groups[..], j + 1, prev, more) && cgCur == ks[j]
  {
    hide *;
    ghost var ws0, grp := temp[..], groups[..];
    HalfwayAt(ind, t, unit, sigma, ks, s, grp0, ws0, grp, j, prev0, more0);
    prev, more, cgCur := GoOn(j, unit, prev0, more0, cg, temp, ind, t, sigma, ks, s, grp0, grp);
    PlaceStep(s, j, unit, prev, indices, temp, groups, ind, t, sigma, ks, grp0);
    HalfwayNext(ind, t, unit, sigma, ks, s, grp0, ws0, grp, j, prev0, more0, temp[..], groups[..], prev, more, j + 1);
  }

  /** Places the next rotation; the groups before `prev` keep their marks. */
  method PlaceStep(s: nat, j: nat, unit: nat, prev: nat, indices: array<Word>, temp: array<Word>,
                   groups: array<Word>, ghost ind: seq<Word>, ghost t: seq<Word>, ghost sigma: seq<nat>,
                   ghost ks: seq<nat>, ghost grp0: seq<nat>)
    requires temp != indices && temp != groups && indices != groups && prev <= j < |t| == |ks| && unit > 0
    requires s + |t| <= indices.Length < 0x1_0000_0000 && indices[s..s + |t|] == ind && j < temp.Length
    requires Writing(ind, t, unit, sigma, ks, s, grp0) && prev == Head(ks, j)
    requires Renumbered(ind, t, sigma, ks, s, grp0, temp[..], groups[..], j)
    requires Marked(temp[..], Numbers(s, ks), s, 0, prev)
    modifies temp, groups
    ensures Renumbered(ind, t, sigma, ks, s, grp0, temp[..], groups[..], j + 1)
    ensures Marked(temp[..], Numbers(s, ks), s, 0, prev) && Clean(temp[j])
    ensures forall k | 0 <= k < temp.Length && k != j :: temp[k] == old(temp[k])
  {
    hide *;
    WritingAt(ind, t, unit, sigma, ks, s, grp0, j);
    ghost var ws := temp[..];
    PlaceNext(s, j, unit, s + prev, indices, temp, groups, ind, t, sigma, ks, grp0);
    KeepMarked(ws, Numbers(s, ks), temp[..], Numbers(s, ks), s, 0, prev);
  }

  lemma HeadNow(ks: seq<nat>, j: nat, ws: seq<Word>, ind: seq<Word>, t: seq<Word>, unit: nat, sigma: seq<nat>, s: nat,
                grp0: seq<nat>, grp: seq<nat>, prev: nat, more: bool)
    requires Halfway(ind, t, unit, sigma, ks, s, grp0, ws, grp, j, prev, more)
    ensures prev == Head(ks, j - 1) && |Numbers(s, ks)| == |ks|
  {}

  method WriteFirst(s: nat, unit: nat, indices: array<Word>, temp: array<Word>, groups: array<Word>,
                    ghost ind: seq<Word>, ghost t: seq<Word>, ghost sigma: seq<nat>, ghost ks: seq<nat>,
                    ghost grp0: seq<nat>) returns (cg: nat)
    requires temp != indices && temp != groups && indices != groups && 2 <= |t| == |ks|
    requires Writing(ind, t, unit, sigma, ks, s, grp0) && s + |t| <= indices.Length < 0x1_0000_0000
    requires indices[s..s + |t|] == ind && |t| <= temp.Length && temp[..|t|] == t && groups[..] == grp0
    modifies temp
    ensures Halfway(ind, t, unit, sigma, ks, s, grp0, temp[..], groups[..], 1, 0, false) && cg == ks[0]
  {
    hide *;
    WritingAt(ind, t, unit, sigma, ks, s, grp0, 0);
    ghost var ws := temp[..];
    assert temp[0] == temp[..|t|][0] == t[0];
    cg := temp[0] / unit;
    assert indices[s + temp[0] % unit] == ind[temp[0] % unit];
    temp[0] := indices[s + temp[0] % unit];
    HalfwayFirst(ind, t, unit, sigma, ks, s, grp0, ws, temp[..]);
  }

  lemma NoneMarked(ws: seq<Word>, f: seq<nat>, base: nat)
    ensures Marked(ws, f, base, 0, 0)
  {}

  lemma HalfwayFirst(ind: seq<Word>, t: seq<Word>, unit: nat, sigma: seq<nat>, ks: seq<nat>, s: nat, grp0: seq<nat>,
                     ws0: seq<Word>, ws: seq<Word>)
    requires Writing(ind, t, unit, sigma, ks, s, grp0) && |t| <= |ws0| && ws0[..|t|] == t
    requires ws == ws0[0 := ind[sigma[0]]]
    ensures Halfway(ind, t, unit, sigma, ks, s, grp0, ws, grp0, 1, 0, false)
  {
    hide Distinct, Sorted;
    assert Head(ks, 0) == 0;
    assert Index(ws[0]) == ws[0];
    forall k | 1 <= k < |t| ensures ws[k] == t[k] { assert ws0[..|t|][k] == t[k]; }
    NoneMarked(ws, Numbers(s, ks), s);
  }

  /** Turns the sorted words into indices, numbers and marks the new groups. */
  method WriteGroups(s: nat, size: nat, unit: nat, indices: array<Word>, temp: array<Word>, groups: array<Word>,
                     ghost ind: seq<Word>, ghost t: seq<Word>, ghost sigma: seq<nat>, ghost ks: seq<nat>,
                     ghost grp0: seq<nat>) returns (more: bool)
    requires temp != indices && temp != groups && indices != groups && 2 <= size == |t| == |ks|
    requires Writing(ind, t, unit, sigma, ks, s, grp0) && s + size <= indices.Length < 0x1_0000_0000
    requires indices[s..s + size] == ind && size <= temp.Length && temp[..size] == t && groups[..] == grp0
    modifies temp, groups
    ensures Renumbered(ind, t, sigma, ks, s, grp0, temp[..], groups[..], size)
    ensures Marked(temp[..], Numbers(s, ks), s, 0, size)
    ensures !more ==> forall k | 0 <= k < size :: Head(ks, k) == k
  {
    hide Head, Marked, Renumbered, CleanIn;
    var cg := WriteFirst(s, unit, indices, temp, groups, ind, t, sigma, ks, grp0);
    var prev := 0;
    more := false;
    for j := 1 to size
      invariant Halfway(ind, t, unit, sigma, ks, s, grp0, temp[..], groups[..], j, prev, more) && cg == ks[j - 1]
    {
      prev, more, cg := WriteNext(s, j, unit, prev, more, cg, indices, temp, groups, ind, t, sigma, ks, grp0);
    }
    EndGroup(prev, size, temp, ind, t, unit, sigma, ks, s, grp0, groups[..], more);
  }

  // ----- one small group -----

  /** The keys of a group: the groups that its rotations have `h` bytes on. */
  ghost function KeysOf(n: nat, h: nat, perm: seq<nat>, grp: seq<nat>, s: nat, e: nat): (ks: seq<nat>)
    requires Sized(n, perm, grp) && h <= n && s <= e <= n
    ensures |ks| == e - s && forall p | s <= p < e :: ks[p - s] == grp[Skip(n, perm[p], h)]
  {
    seq(e - s, j requires 0 <= j < e - s => grp[Skip(n, perm[s + j], h)])
  }

  lemma ReadyFacts(d: seq<Byte>, h: nat, g0: seq<nat>, ws: seq<Word>, grp: seq<nat>, s: nat, e: nat)
    requires Ready(d, h, g0, ws, grp, s, e)
    ensures State(d, h, g0, Indices(ws), grp) && h < |d| <= INDEX && CleanIn(ws, s, e)
    ensures Sized(|d|, Indices(ws), grp) && s < e <= |d| == |ws| == |grp|
    ensures Segment(Starts(|d|, Indices(ws), grp), s, e) && Blocks(Starts(|d|, Indices(ws), grp))
  {
    hide Ranked, Deep, Finer, Blocks, Inside, Distinct, CleanIn;
    assert |Indices(ws)| == |ws|;
  }

  /** The places of a group, as plain words. */
  lemma PlainPlaces(n: nat, ws: seq<Word>, grp: seq<nat>, s: nat, e: nat)
    requires Sized(n, Indices(ws), grp) && Segment(Starts(n, Indices(ws), grp), s, e) && CleanIn(ws, s, e)
    ensures s < e <= n == |ws| == |grp|
    ensures forall p | s <= p < e :: Clean(ws[p]) && ws[p] == Indices(ws)[p] < n && grp[ws[p]] == s
    ensures Distinct(ws[s..e])
  {
    forall p | s <= p < e ensures ws[p] == Indices(ws)[p] < n && grp[ws[p]] == s {
      assert Index(ws[p]) == ws[p];
      assert Starts(n, Indices(ws), grp)[p] == s;
    }
    forall p, q | s <= p < q < e ensures ws[p] != ws[q] { assert Indices(ws)[p] != Indices(ws)[q]; }
  }

  lemma WholeDeep(d: seq<Byte>, h: nat, g0: seq<nat>, perm: seq<nat>, grp: seq<nat>, s: nat, e: nat)
    requires State(d, h, g0, perm, grp) && h < |d| && Segment(Starts(|d|, perm, grp), s, e)
    requires forall p, q | s <= p < e && s <= q < e :: g0[Skip(|d|, perm[p], h)] == g0[Skip(|d|, perm[q], h)]
    ensures DeepIn(d, perm, Starts(|d|, perm, grp), s, e, 2 * h)
  {
    hide Same, Less, Ranked, Deep, Blocks;
    var f := Starts(|d|, perm, grp);
    forall p: nat, q: nat | s <= p < e && s <= q < e ensures Same(d, perm[p], perm[q], 2 * h) {
      EqualBefore(f, g0, grp, perm[p], perm[q]);
      Doubled(d, h, g0, perm, grp, perm[p], perm[q]);
    }
  }

  /** If no key differs, the group stays as it is; it is still sorted by twice as many bytes. */
  lemma WholeGroup(d: seq<Byte>, h: nat, g0: seq<nat>, ws0: seq<Word>, ws: seq<Word>, grp: seq<nat>, s: nat, e: nat)
    requires State(d, h, g0, Indices(ws), grp) && h < |d| && |ws| == |ws0| && e <= |ws|
    requires Segment(Starts(|d|, Indices(ws), grp), s, e) && s + 1 < e && Group(ws, s, e - s, true)
    requires forall p | 0 <= p < |ws| && (p < s || e <= p) :: ws[p] == ws0[p]
    requires forall p, q | s <= p < e && s <= q < e ::
      g0[Skip(|d|, Indices(ws)[p], h)] == g0[Skip(|d|, Indices(ws)[q], h)]
    ensures Outcome(d, h, g0, ws0, grp, ws, grp, s, e, true)
  {
    hide Same, Less, Group, Ranked, Deep, Blocks, Finer, Marked, DeepIn, Skip;
    OneMarked(ws, Starts(|d|, Indices(ws), grp), 0, s, e - s, true, e);
    WholeDeep(d, h, g0, Indices(ws), grp, s, e);
  }

  lemma NewNumbers(n: nat, h: nat, perm0: seq<nat>, grp0: seq<nat>, s: nat, e: nat, sigma: seq<nat>, ks: seq<nat>,
                   perm: seq<nat>, grp: seq<nat>)
    requires Reordered(n, h, perm0, grp0, s, e, sigma, ks, perm, grp) && Sized(n, perm, grp)
    ensures |ks| == e - s && forall p | s <= p < e :: Starts(n, perm, grp)[p] == Numbers(s, ks)[p - s]
  {
    hide Head, Distinct, Sorted, Skip;
  }

  /** The marks of the new order, moved to their places. */
  lemma NewMarks(f: seq<nat>, ws: seq<Word>, s: nat, e: nat, ks: seq<nat>, tw: seq<Word>)
    requires s <= e <= |f| == |ws| && |ks| == e - s <= |tw| && Marked(tw, Numbers(s, ks), s, 0, e - s)
    requires forall p | s <= p < e :: ws[p] == tw[p - s] && f[p] == Numbers(s, ks)[p - s]
    ensures Marked(ws, f, 0, s, e)
  {
    hide Head, Marked, Numbers;
    forall k | 0 <= k < e - s ensures f[k + s] == Numbers(s, ks)[k] && ws[k + s] == tw[k] {
      assert k + s - s == k;
    }
    MoveMarked(tw, Numbers(s, ks), s, 0, e - s, ws, f, 0, s, s, e);
  }

  lemma NewState(d: seq<Byte>, h: nat, g0: seq<nat>, perm0: seq<nat>, grp0: seq<nat>, s: nat, e: nat, sigma: seq<nat>,
                 ks: seq<nat>, perm: seq<nat>, grp: seq<nat>)
    requires State(d, h, g0, perm0, grp0) && Reordered(|d|, h, perm0, grp0, s, e, sigma, ks, perm, grp)
    ensures State(d, h, g0, perm, grp) && DeepIn(d, perm, Starts(|d|, perm, grp), s, e, 2 * h)
    ensures forall x | 0 <= x < |d| :: grp0[x] <= grp[x] && (grp0[x] != s ==> grp[x] == grp0[x])
  {
    hide Same, Less, Ranked, Deep, Finer, Head, Distinct, Sorted, Skip, DeepIn;
    ReorderedRefines(|d|, h, perm0, grp0, s, e, sigma, ks, perm, grp);
    ReorderedDeep(d, h, g0, perm0, grp0, s, e, sigma, ks, perm, grp);
    Refined(d, h, g0, perm0, grp0, s, e, perm, grp);
  }

  /** The new order, written out, is the outcome. */
  lemma NewOrder(d: seq<Byte>, h: nat, g0: seq<nat>, ws0: seq<Word>, grp0: seq<nat>, ws: seq<Word>, grp: seq<nat>,
                 s: nat, e: nat, sigma: seq<nat>, ks: seq<nat>, tw: seq<Word>, more: bool)
    requires State(d, h, g0, Indices(ws0), grp0) && |ws| == |ws0| && s <= e <= |ws|
    requires Reordered(|d|, h, Indices(ws0), grp0, s, e, sigma, ks, Indices(ws), grp) && |ks| == e - s <= |tw|
    requires Marked(tw, Numbers(s, ks), s, 0, e - s)
    requires forall p | 0 <= p < |ws| :: ws[p] == if s <= p < e then tw[p - s] else ws0[p]
    requires !more ==> forall k | 0 <= k < e - s :: Head(ks, k) == k
    ensures Outcome(d, h, g0, ws0, grp0, ws, grp, s, e, more)
  {
    hide Same, Less, Ranked, Deep, Finer, Head, Distinct, Sorted, Index, Skip, Marked, DeepIn, Reordered, Blocks;
    var perm0, perm := Indices(ws0), Indices(ws);
    NewState(d, h, g0, perm0, grp0, s, e, sigma, ks, perm, grp);
    NewNumbers(|d|, h, perm0, grp0, s, e, sigma, ks, perm, grp);
    NewMarks(Starts(|d|, perm, grp), ws, s, e, ks, tw);
  }

  lemma KeysDiffer(d: seq<Byte>, h: nat, g0: seq<nat>, perm: seq<nat>, grp: seq<nat>, s: nat, e: nat)
    requires State(d, h, g0, perm, grp) && h < |d| && s < e <= |d|
    requires forall j | 0 <= j < e - s :: KeysOf(|d|, h, perm, grp, s, e)[j] == KeysOf(|d|, h, perm, grp, s, e)[0]
    ensures forall p, q | s <= p < e && s <= q < e :: g0[Skip(|d|, perm[p], h)] == g0[Skip(|d|, perm[q], h)]
  {
    hide Same, Less, Ranked, Deep, Blocks;
    var ks := KeysOf(|d|, h, perm, grp, s, e);
    forall p: nat, q: nat | s <= p < e && s <= q < e ensures g0[Skip(|d|, perm[p], h)] == g0[Skip(|d|, perm[q], h)] {
      assert ks[p - s] == ks[q - s];
      EqualBefore(Starts(|d|, perm, grp), g0, grp, Skip(|d|, perm[p], h), Skip(|d|, perm[q], h));
    }
  }

  lemma ReadyToWrite(n: nat, h: nat, ws: seq<Word>, grp: seq<nat>, s: nat, e: nat, unit: nat, t: seq<Word>)
    requires Sized(n, Indices(ws), grp) && Segment(Starts(n, Indices(ws), grp), s, e) && CleanIn(ws, s, e)
    requires h < n <= INDEX && s + 2 <= e && unit > 0
    requires SortedKeys(KeysOf(n, h, Indices(ws), grp, s, e), unit, t)
    ensures e <= |ws| && Writing(ws[s..e], t, unit, Remainders(t, unit), Quotients(t, unit), s, grp)
  {
    hide Segment, Sized;
    PlainPlaces(n, ws, grp, s, e);
    SortedParts(KeysOf(n, h, Indices(ws), grp, s, e), unit, t);
    hide KeysOf;
  }

  lemma WrittenAt(n: nat, h: nat, ws0: seq<Word>, grp0: seq<nat>, s: nat, e: nat, unit: nat, t: seq<Word>,
                  tw: seq<Word>, ws: seq<Word>, grp: seq<nat>, p: nat, q: nat)
    requires Sized(n, Indices(ws0), grp0) && s <= p < e <= |ws0| == |ws| == |grp| == n && e - s == |t| && h < n
      && unit > 0
    requires forall j | s <= j < e :: ws0[j] == Indices(ws0)[j]
    requires Renumbered(ws0[s..e], t, Remainders(t, unit), Quotients(t, unit), s, grp0, tw, grp, |t|)
    requires q == s + Remainders(t, unit)[p - s] < e && ws[p] == tw[p - s]
    requires Quotients(t, unit)[p - s] == KeysOf(n, h, Indices(ws0), grp0, s, e)[q - s]
    ensures Indices(ws)[p] == Indices(ws0)[q] < n
    ensures Quotients(t, unit)[p - s] == grp0[Skip(n, Indices(ws)[p], h)]
    ensures grp[Indices(ws)[p]] == s + Head(Quotients(t, unit), p - s)
  {
    hide Head, Skip, Remainders, Quotients, Renumbered, Index, Starts;
    RenumberedAt(ws0[s..e], t, Remainders(t, unit), Quotients(t, unit), s, grp0, tw, grp, |t|, p - s);
    assert ws0[s..e][q - s] == ws0[q];
  }

  lemma RenumberedAt(ind: seq<Word>, t: seq<Word>, sigma: seq<nat>, ks: seq<nat>, s: nat, grp0: seq<nat>,
                     tw: seq<Word>, grp: seq<nat>, j: nat, k: nat)
    requires Renumbered(ind, t, sigma, ks, s, grp0, tw, grp, j) && k < j
    ensures j <= |t| == |sigma| == |ks| == |ind| <= |tw| && sigma[k] < |ind| && ind[sigma[k]] < |grp|
    ensures Index(tw[k]) == ind[sigma[k]] && grp[ind[sigma[k]]] == s + Head(ks, k)
  {
    hide Head, Index;
  }

  lemma WrittenOrder(n: nat, h: nat, ws0: seq<Word>, grp0: seq<nat>, s: nat, e: nat, unit: nat, t: seq<Word>,
                     tw: seq<Word>, ws: seq<Word>, grp: seq<nat>)
    requires Sized(n, Indices(ws0), grp0) && Segment(Starts(n, Indices(ws0), grp0), s, e) && CleanIn(ws0, s, e)
    requires h < n && s < e && unit > 0 && SortedKeys(KeysOf(n, h, Indices(ws0), grp0, s, e), unit, t)
    requires e <= |ws0| == |ws| && e - s == |t| && |grp| == n
    requires Renumbered(ws0[s..e], t, Remainders(t, unit), Quotients(t, unit), s, grp0, tw, grp, |t|)
    requires forall p | 0 <= p < |ws| :: ws[p] == if s <= p < e then tw[p - s] else ws0[p]
    ensures Reordered(n, h, Indices(ws0), grp0, s, e, Remainders(t, unit), Quotients(t, unit), Indices(ws), grp)
  {
    hide *;
    var perm0, perm, sigma, ks := Indices(ws0), Indices(ws), Remainders(t, unit), Quotients(t, unit);
    PlainPlaces(n, ws0, grp0, s, e);
    SortedParts(KeysOf(n, h, perm0, grp0, s, e), unit, t);
    forall p: nat | s <= p < e
      ensures perm[p] == perm0[s + sigma[p - s]] && ks[p - s] == grp0[Skip(n, perm[p], h)]
      ensures grp[perm[p]] == s + Head(ks, p - s)
    {
      WrittenAt(n, h, ws0, grp0, s, e, unit, t, tw, ws, grp, p, s + sigma[p - s]);
    }
    OthersKept(ws0[s..e], t, sigma, ks, s, grp0, tw, grp);
    MakeReordered(n, h, perm0, grp0, s, e, sigma, ks, perm, grp);
  }

  lemma MakeReordered(n: nat, h: nat, perm: seq<nat>, grp: seq<nat>, s: nat, e: nat, sigma: seq<nat>,
                      ks: seq<nat>, perm': seq<nat>, grp': seq<nat>)
    requires Sized(n, perm, grp) && Segment(Starts(n, perm, grp), s, e) && h <= n && s <= e <= n == |perm| == |grp|
    requires e == s + |sigma| && |ks| == |sigma| && Distinct(sigma) && Inside(sigma, |sigma|) && Sorted(ks)
    requires |perm'| == n == |grp'| && forall p | 0 <= p < s || e <= p < n :: perm'[p] == perm[p]
    requires forall p: nat | s <= p < e :: s + sigma[p - s] < n && perm'[p] == perm[s + sigma[p - s]] && perm'[p] < n
    requires forall p: nat | s <= p < e ::
      ks[p - s] == grp[Skip(n, perm'[p], h)] && grp'[perm'[p]] == s + Head(ks, p - s)
    requires forall x | 0 <= x < n && grp[x] != s :: grp'[x] == grp[x]
    ensures Reordered(n, h, perm, grp, s, e, sigma, ks, perm', grp')
  {
    hide Head, Skip, Sorted, Distinct;
  }

  lemma OthersKept(ind: seq<Word>, t: seq<Word>, sigma: seq<nat>, ks: seq<nat>, s: nat, grp0: seq<nat>, tw: seq<Word>,
                   grp: seq<nat>)
    requires Renumbered(ind, t, sigma, ks, s, grp0, tw, grp, |t|)
    ensures forall x | 0 <= x < |grp| && grp0[x] != s :: grp[x] == grp0[x]
  {}

  /** Puts the keys of a group into order, each with its place, if they are not all the same. */
  method SortKeys(n: nat, h: nat, s: nat, size: nat, unit: nat, indices: array<Word>, temp: array<Word>,
                  groups: array<Word>, ghost k0: seq<nat>) returns (differ: bool, ghost t: seq<Word>)
    requires 2 <= size <= unit && size <= temp.Length && s + size <= n == indices.Length == groups.Length && h < n
    requires n * unit <= 0x1_0000_0000 && temp != indices && temp != groups
    requires |k0| == size && forall x | 0 <= x < n :: groups[x] < n
    requires forall p | s <= p < s + size :: indices[p] < n && k0[p - s] == groups[Skip(n, indices[p], h)]
    modifies temp
    ensures if differ then temp[..size] == t && SortedKeys(k0, unit, t)
      else forall j | 0 <= j < size :: k0[j] == k0[0]
  {
    hide *;
    t := [];
    differ := FillKeys(n, h, s, size, unit, indices, temp, groups, k0);
    if differ {
      ghost var t0 := temp[..size];
      assert Part(temp, 0, size) == t0;
      HeapSort(temp, 0, size);
      t := temp[..size];
      assert Part(temp, 0, size) == t;
      WordsSorted(k0, unit, t0, t);
    }
  }

  method CopyBack(s: nat, size: nat, indices: array<Word>, temp: array<Word>)
    requires s + size <= indices.Length && size <= temp.Length && temp != indices
    modifies indices
    ensures forall p | 0 <= p < indices.Length :: indices[p] == if s <= p < s + size then temp[p - s]
      else old(indices[p])
  {
    for j := 0 to size
      invariant forall p | 0 <= p < indices.Length ::
        indices[p] == if s <= p < s + j then temp[p - s] else old(indices[p])
    {
      indices[s + j] := temp[j];
    }
  }

  /** Sorts a small group by its keys and splits it. */
  method RefineByKeys(n: nat, h: nat, s: nat, size: nat, unit: nat, indices: array<Word>, temp: array<Word>,
                      groups: array<Word>, ghost d: seq<Byte>, ghost g0: seq<nat>) returns (more: bool)
    requires Ready(d, h, g0, indices[..], groups[..], s, s + size) && n == |d| && 2 <= size <= unit
    requires n * unit <= 0x1_0000_0000 && size <= temp.Length
    requires temp != indices && temp != groups && indices != groups
    modifies indices, temp, groups
    ensures Outcome(d, h, g0, old(indices[..]), old(groups[..]), indices[..], groups[..], s, s + size, more)
  {
    hide *;
    ghost var ws0, grp0: seq<Word>, e := indices[..], groups[..], s + size;
    ReadyFacts(d, h, g0, ws0, grp0, s, e);
    ReadyKeys(n, h, ws0, grp0, s, e);
    ghost var k0 := KeysOf(n, h, Indices(ws0), grp0, s, e);
    ghost var t;
    var differ;
    differ, t := SortKeys(n, h, s, size, unit, indices, temp, groups, k0);
    if !differ {
      SetGroupSize(indices, s, size);
      KeysDiffer(d, h, g0, Indices(ws0), grp0, s, e);
      WholeGroup(d, h, g0, ws0, indices[..], grp0, s, e);
      return true;
    }
    ReadyToWrite(n, h, ws0, grp0, s, e, unit, t);
    more := WriteGroups(s, size, unit, indices, temp, groups, ws0[s..e], t, Remainders(t, unit), Quotients(t, unit),
                        grp0);
    CopyBack(s, size, indices, temp);
    WrittenOrder(n, h, ws0, grp0, s, e, unit, t, temp[..], indices[..], groups[..]);
    NewOrder(d, h, g0, ws0, grp0, indices[..], groups[..], s, e, Remainders(t, unit), Quotients(t, unit), temp[..],
             more);
  }

  lemma ReadyKeys(n: nat, h: nat, ws: seq<Word>, grp: seq<nat>, s: nat, e: nat)
    requires Sized(n, Indices(ws), grp) && Segment(Starts(n, Indices(ws), grp), s, e) && CleanIn(ws, s, e) && h < n
    ensures |ws| == n == |grp| && forall x | 0 <= x < n :: grp[x] < n
    ensures |KeysOf(n, h, Indices(ws), grp, s, e)| == e - s
    ensures forall p | s <= p < e ::
      ws[p] < n && KeysOf(n, h, Indices(ws), grp, s, e)[p - s] == grp[Skip(n, ws[p], h)]
  {
    PlainPlaces(n, ws, grp, s, e);
  }
}
