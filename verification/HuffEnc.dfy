/** Lengths and codes from the tree: levels are found from the root down, leaves that would lie too deep are moved
    up, and the longest words go to the rarest symbols. */
module HuffEnc {
  import opened Arith
  import opened Lists
  import opened BitModel
  import opened HuffCost
  import opened HuffTree
  import opened HuffLevels
  import opened HuffLimit
  import opened HuffCode
  import opened HuffWord
  import opened HuffSort
  import opened HuffBuild
  import opened HuffOrder

  const MAX_LEN := 16

  // ----- numbers of leaves by level -----

  /** After nodes `b` and above have been unfolded: there are `|w| - b` leaves, none too deep, and Kraft's sum is
      exactly one. As long as no level was too deep the counters are those of the tree. */
  ghost predicate Limited(w: seq<nat>, cnt: seq<nat>, m: nat, b: nat) {
    && 2 <= |w| && b + 1 < |w| && 1 <= m <= MAX_LEN && |cnt| == MAX_LEN + 1
    && cnt[0] == 0 && KraftOf(cnt, m, m + 1) == Pow2(m) && Count(cnt, m + 1) == |w| - b
    && (LevelOf(w, b) < m ==> Counts(cnt, Levels(w, b)))
  }

  lemma RootOnly(w: seq<nat>, cnt: seq<nat>, m: nat)
    requires 2 <= |w| && 1 <= m <= MAX_LEN && |cnt| == MAX_LEN + 1
    requires forall l :: 0 <= l <= MAX_LEN ==> cnt[l] == if l == 1 then 2 else 0
    ensures Limited(w, cnt, m, |w| - 2)
  {
    hide Pow2, Levels, LevelOf;
    LevelStep(w, |w| - 2);
    RootLevels(w);
    forall l: nat | l <= MAX_LEN
      ensures cnt[l] == multiset(Levels(w, |w| - 2))[l]
    {
      UnfoldCounts(w, |w| - 2, l);
    }
    TwoAtOne(cnt, m, m + 1);
    Pow2Next(m - 1, m);
  }

  lemma {:induction false} TwoAtOne(cnt: seq<nat>, m: nat, n: nat)
    requires n <= |cnt| && 1 <= m && n <= m + 1
    requires forall l :: 0 <= l < |cnt| ==> cnt[l] == if l == 1 then 2 else 0
    ensures KraftOf(cnt, m, n) == (if n > 1 then 2 * Pow2(m - 1) else 0)
    ensures Count(cnt, n) == (if n > 1 then 2 else 0)
    decreases n
  {
    hide Pow2;
    if n > 0 { TwoAtOne(cnt, m, n - 1); }
  }

  /** The level of a leaf that becomes a node: that of node `q`, or one that is not too deep. */
  ghost predicate SplitAt(w: seq<nat>, cnt: seq<nat>, m: nat, q: nat, len: nat)
    requires q + 1 < |w| && |cnt| == MAX_LEN + 1 && m <= MAX_LEN
  {
    len < m && if LevelOf(w, q) < m then len == LevelOf(w, q) else cnt[len] > 0
  }

  lemma LimitedStep(w: seq<nat>, cnt: seq<nat>, m: nat, q: nat, b: nat, len: nat)
    requires Limited(w, cnt, m, b) && b == q + 1 && SplitAt(w, cnt, m, q, len)
    ensures cnt[len] > 0 && Limited(w, SplitLeaf(cnt, len), m, q)
  {
    hide Pow2, Levels, LevelOf, KraftOf, Count;
    LevelsFall(w, q, b);
    if LevelOf(w, q) < m {
      UnfoldCounts(w, q, len);
      assert cnt[len] > 0;
      forall l: nat | l < |cnt|
        ensures SplitLeaf(cnt, len)[l] == multiset(Levels(w, q))[l]
      {
        UnfoldCounts(w, q, l);
      }
    }
    SplitKraft(cnt, len, m, m + 1);
    SplitCount(cnt, len, m + 1);
  }

  /** There is a leaf that may be split exactly while the leaves do not fill the deepest level. */
  lemma LeafToSplit(w: seq<nat>, cnt: seq<nat>, m: nat, b: nat)
    requires Limited(w, cnt, m, b)
    ensures (exists len :: 1 <= len < m && cnt[len] > 0) <==> |w| - b < Pow2(m)
  {
    hide Levels, LevelOf, Pow2;
    FindsLeaf(cnt, m);
    if |w| - b < Pow2(m) {
      var len :| 0 <= len < m && cnt[len] > 0;
      assert len >= 1;
    }
  }

  /** With more than `2^m` symbols the search comes to have no leaf: once there are `2^m` leaves, all of them are at
      level `m`, and the next node lies too deep. */
  lemma NoLeafLeft(w: seq<nat>, cnt: seq<nat>, m: nat, b: nat)
    requires Limited(w, cnt, m, b) && b > 0 && |w| - b == Pow2(m)
    ensures LevelOf(w, b - 1) >= m && forall len :: 0 <= len < m ==> cnt[len] == 0
  {
    hide Levels, LevelOf, Pow2;
    LeafToSplit(w, cnt, m, b);
    LevelsFall(w, b - 1, b);
    if LevelOf(w, b - 1) < m { UnfoldCounts(w, b - 1, LevelOf(w, b - 1)); }
  }

  /** The smallest instance: three symbols in words of one bit. The search begins with no leaf to find. */
  lemma ThreeInOneBit(w: seq<nat>, cnt: seq<nat>)
    requires |w| == 3 && |cnt| == MAX_LEN + 1
    requires forall l :: 0 <= l <= MAX_LEN ==> cnt[l] == if l == 1 then 2 else 0
    ensures Limited(w, cnt, 1, 1) && LevelOf(w, 0) >= 1 && !exists len :: 0 <= len < 1 && cnt[len] > 0
  {
    hide LevelOf, Limited;
    RootOnly(w, cnt, 1);
    assert Pow2(1) == 2 * Pow2(0);
    NoLeafLeft(w, cnt, 1, 1);
  }

  // ----- levels of the nodes -----

  ghost predicate LevelsHold(w: seq<nat>, p: seq<Word>, b: nat) {
    2 <= |w| <= |p| && forall i: nat :: b <= i && i + 1 < |w| ==> Hi(p[i]) == LevelOf(w, i)
  }

  /** Levels of the nodes from `b` on, and parents of the others. */
  ghost predicate HalfWay(w: seq<nat>, p: seq<Word>, cnt: seq<nat>, m: nat, b: nat) {
    InputOk(w, p) && b + 1 < |w| && LevelsHold(w, p, b) && ParentsHold(w, p, b) && Limited(w, cnt, m, b)
  }

  lemma LevelBelowSize(w: seq<nat>, j: nat)
    requires j + 1 < |w|
    ensures LevelOf(w, j) < |w| - j
    decreases |w| - j
  {
    hide LevelOf, After, ParentFrom;
    LevelStep(w, j);
    if j + 2 < |w| { LevelBelowSize(w, Parent(w, j)); }
  }

  /** Once all leaves have been taken, nodes are taken in pairs. */
  lemma PairsOnly(w: seq<nat>, e: nat, j: nat)
    requires e <= j < |w| && After(w, e).l == |w|
    ensures NodesBefore(w, j) + |w| == 2 * j
  {
    AfterGrows(w, e, j);
  }

  /** The children of `j` in the top part of the tree, which is a heap. */
  lemma PairOf(w: seq<nat>, e: nat, j: nat, n: nat)
    requires e <= j && j + 1 < |w| && After(w, e).l == |w| && n + |w| == 2 * j
    ensures n + 1 < j && Parent(w, n) == j == Parent(w, n + 1)
    ensures LevelOf(w, n) == LevelOf(w, j) + 1 == LevelOf(w, n + 1)
  {
    hide After, ParentFrom, LevelOf;
    PairsOnly(w, e, j);
    PairsOnly(w, e, j + 1);
    ParentIs(w, n, j);
    ParentIs(w, n + 1, j);
    LevelStep(w, n);
    LevelStep(w, n + 1);
  }

  ghost predicate HeapBound(w: seq<nat>, j: nat)
    requires j + 1 < |w|
  {
    Pow2(LevelOf(w, j)) <= |w| - 1 - j
  }

  lemma HeapStep(w: seq<nat>, e: nat, j: nat, n: nat, m: nat)
    requires e <= j && j + 1 < |w| && After(w, e).l == |w| && n + |w| == 2 * j && HeapBound(w, j) && |w| <= Pow2(m)
    ensures n + 1 < j && HeapBound(w, n) && HeapBound(w, n + 1) && LevelOf(w, j) + 1 < m
  {
    hide After, LevelOf;
    PairOf(w, e, j, n);
    var len := LevelOf(w, j) + 1;
    Pow2Next(LevelOf(w, j), len);
    if len >= m { Pow2Mono(m, len); }
  }

  lemma HeapRoot(w: seq<nat>)
    requires |w| >= 2
    ensures HeapBound(w, |w| - 2) && LevelOf(w, |w| - 2) == 0
  {
    LevelStep(w, |w| - 2);
    assert Pow2(0) == 1;
  }

  /** Two nodes of the same level, children of `j`, become inner nodes. */
  lemma TwoUnfolded(w: seq<nat>, cnt: seq<nat>, m: nat, e: nat, j: nat, n: nat, top: nat, len: nat, next: seq<nat>)
    requires e <= j && j + 1 < |w| && After(w, e).l == |w| && n + |w| == 2 * j && top == n + 2
    requires Limited(w, cnt, m, top) && len == LevelOf(w, j) + 1 < m
    ensures cnt[len] >= 2
    ensures next == cnt[len := cnt[len] - 2][len + 1 := cnt[len + 1] + 4] ==> Limited(w, next, m, n)
  {
    hide After, LevelOf, Limited;
    PairOf(w, e, j, n);
    InLimits(w, cnt, m, top);
    LimitedStep(w, cnt, m, n + 1, top, len);
    var mid := SplitLeaf(cnt, len);
    InLimits(w, mid, m, n + 1);
    LimitedStep(w, mid, m, n, n + 1, len);
    assert SplitLeaf(mid, len) == cnt[len := cnt[len] - 2][len + 1 := cnt[len + 1] + 4];
  }

  lemma InLimits(w: seq<nat>, cnt: seq<nat>, m: nat, b: nat)
    requires Limited(w, cnt, m, b)
    ensures b + 1 < |w| && 1 <= m <= MAX_LEN && |cnt| == MAX_LEN + 1
  {}

  /** The nodes from `n` on have levels; `p1` is the parent of the next two. */
  ghost predicate TailState(w: seq<nat>, p: seq<Word>, cnt: seq<nat>, m: nat, b: nat, n: nat, p1: nat) {
    && InputOk(w, p) && b <= n && n + 1 < |w| <= Pow2(m) && n + |w| == 2 * p1 + 2
    && ParentsHold(w, p, b) && LevelsHold(w, p, n) && Limited(w, cnt, m, n)
    && HeapFrom(w, n)
  }

  ghost predicate HeapFrom(w: seq<nat>, n: nat) {
    forall j: nat :: n <= j && j + 1 < |w| ==> HeapBound(w, j)
  }

  lemma TailFacts(w: seq<nat>, p: seq<Word>, cnt: seq<nat>, m: nat, b: nat, n: nat, p1: nat, e: nat, low: nat)
    requires TailState(w, p, cnt, m, b, n, p1) && b + 2 <= n && low == n - 2
    requires e < |w| && After(w, e).l == |w| && After(w, e).k == b
    ensures n <= p1 && p1 + 1 < |w| <= |p| && |w| <= MAX_SYMBOLS && e <= p1 && low + |w| == 2 * p1
    ensures Hi(p[p1]) == LevelOf(w, p1) && HeapBound(w, p1) && |cnt| == MAX_LEN + 1 && m <= MAX_LEN
  {
    hide After, LevelOf, HeapBound, Limited;
    InLimits(w, cnt, m, n);
  }

  lemma TailDone(w: seq<nat>, p: seq<Word>, cnt: seq<nat>, m: nat, b: nat, n: nat, p1: nat, e: nat, low: nat,
                 q: seq<Word>, next: seq<nat>)
    requires TailState(w, p, cnt, m, b, n, p1) && b + 2 <= n && low == n - 2
    requires e < |w| && After(w, e).l == |w| && After(w, e).k == b
    requires |q| == |p| && forall i: nat :: i < |p| && i != low && i != low + 1 ==> q[i] == p[i]
    requires p1 + 1 < |w|
    requires Hi(q[low]) == LevelOf(w, p1) + 1 == Hi(q[low + 1])
    requires Limited(w, next, m, low)
    ensures TailState(w, q, next, m, b, low, p1 - 1)
  {
    hide After, LevelOf, Limited, InputOk, Pow2, HeapBound, HeapFrom, LevelsHold, ParentsHold, Hi;
    TailFacts(w, p, cnt, m, b, n, p1, e, low);
    HeapStep(w, e, p1, low, m);
    PairOf(w, e, p1, low);
    TwoMoreHeap(w, n, low);
    TwoMoreLevels(w, p, q, n, low, LevelOf(w, p1) + 1);
    ParentsKept(w, p, q, b, low);
    InputKept(w, p, q);
  }

  lemma TwoMoreHeap(w: seq<nat>, n: nat, low: nat)
    requires low + 2 == n && n + 1 < |w| && HeapFrom(w, n) && HeapBound(w, low) && HeapBound(w, low + 1)
    ensures HeapFrom(w, low)
  {
    hide HeapBound;
  }

  lemma TwoMoreLevels(w: seq<nat>, p: seq<Word>, q: seq<Word>, n: nat, low: nat, len: nat)
    requires low + 2 == n && n + 1 < |w| <= |p| && LevelsHold(w, p, n) && |q| == |p|
    requires forall i: nat :: i < |p| && i != low && i != low + 1 ==> q[i] == p[i]
    requires LevelOf(w, low) == len == LevelOf(w, low + 1) && Hi(q[low]) == len == Hi(q[low + 1])
    ensures LevelsHold(w, q, low)
  {
    hide LevelOf, Hi;
  }

  lemma ParentsKept(w: seq<nat>, p: seq<Word>, q: seq<Word>, b: nat, low: nat)
    requires b < |w| <= |p| && |q| == |p| && b <= low && ParentsHold(w, p, b)
    requires forall i: nat :: i < |p| && i != low && i != low + 1 ==> q[i] == p[i]
    ensures ParentsHold(w, q, b)
  {
    hide Parent, Hi;
  }

  lemma InputKept(w: seq<nat>, p: seq<Word>, q: seq<Word>)
    requires InputOk(w, p) && |q| == |p|
    ensures InputOk(w, q)
  {
    hide Sorted, Sum;
  }

  /** The children of `p1` get their level. */
  method TailPair(ghost w: seq<nat>, p: array<Word>, num: nat, cnt: array<nat>, ghost m: nat, ghost b: nat, n0: nat,
                  p1: nat, ghost e: nat) returns (n: nat)
    requires TailState(w, p[..], cnt[..], m, b, n0, p1) && b + 2 <= n0 && num == |w|
    requires e < |w| && After(w, e).l == |w| && After(w, e).k == b && p as object != cnt as object
    modifies p, cnt
    ensures n + 2 == n0 && p1 > 0 && TailState(w, p[..], cnt[..], m, b, n, p1 - 1)
    ensures SameSymbols(old(p[..]), p[..], num)
  {
    hide After, LevelOf, Limited, Pack, Sym, Hi, HeapBound, TailState;
    ghost var before, was := p[..], cnt[..];
    n := n0 - 2;
    TailFacts(w, before, was, m, b, n0, p1, e, n);
    TailSize(w, before, was, m, b, n0, p1);
    HeapStep(w, e, p1, n, m);
    var len := Hi(p[p1]) + 1;
    ghost var next := was[len := Minus(was[len], 2)][len + 1 := was[len + 1] + 4];
    TwoUnfolded(w, was, m, e, p1, n, n0, len, next);
    cnt[len] := cnt[len] - 2;
    cnt[len + 1] := cnt[len + 1] + 4;
    Packed(Sym(p[n]), len);
    Packed(Sym(p[n + 1]), len);
    p[n] := Pack(Sym(p[n]), len);
    p[n + 1] := Pack(Sym(p[n + 1]), len);
    assert cnt[..] == next;
    TailDone(w, before, was, m, b, n0, p1, e, n, p[..], cnt[..]);
  }

  lemma TailSize(w: seq<nat>, p: seq<Word>, cnt: seq<nat>, m: nat, b: nat, n: nat, p1: nat)
    requires TailState(w, p, cnt, m, b, n, p1)
    ensures n + 1 < |w| <= Pow2(m) && Limited(w, cnt, m, n)
  {}

  lemma TailStart(w: seq<nat>, p: seq<Word>, e: nat, b: nat, cnt: seq<nat>, m: nat, root: nat, q: seq<Word>)
    requires LeavesTaken(w, p, e, b) && root == |w| - 2 && Limited(w, cnt, m, root) && |w| <= Pow2(m)
    requires q == p[root := Pack(Sym(p[root]), 0)]
    ensures TailState(w, q, cnt, m, b, root, root) && SameSymbols(p, q, |w|)
    ensures e < |w| && b <= root && b + |w| == 2 * e && After(w, e).l == |w| && After(w, e).k == b
  {
    hide LevelOf, Limited, Sorted, Sum, Parent, After, Pow2, HeapBound, Pack, Sym, Hi;
    HeapRoot(w);
    Packed(Sym(p[root]), 0);
    TakenInPairs(w, p, e, b);
  }

  lemma TakenInPairs(w: seq<nat>, p: seq<Word>, e: nat, b: nat)
    requires LeavesTaken(w, p, e, b)
    ensures b + |w| == 2 * e && b + 2 <= |w|
  {
    PairsOnly(w, e, e);
    hide After;
  }

  /** The top of the tree, where there are only inner nodes left to join. */
  method TailLevels(ghost w: seq<nat>, p: array<Word>, num: nat, b: nat, ghost m: nat, cnt: array<nat>, ghost e: nat)
    requires LeavesTaken(w, p[..], e, b) && num == |w| <= Pow2(m)
    requires Limited(w, cnt[..], m, num - 2) && p as object != cnt as object
    modifies p, cnt
    ensures SameSymbols(old(p[..]), p[..], num) && HalfWay(w, p[..], cnt[..], m, b)
  {
    hide After, LevelOf, Limited, Pack, Sym, Hi, HeapBound, TailState;
    var n: nat := num - 2;
    ghost var p0 := p[..];
    TailStart(w, p0, e, b, cnt[..], m, n, p0[n := Pack(Sym(p[n]), 0)]);
    p[n] := Pack(Sym(p[n]), 0);
    assert p[..] == p0[n := Pack(Sym(p0[n]), 0)];
    var p1: nat := n;
    ghost var h: nat := num - 1 - e;
    while n != b
      invariant TailState(w, p[..], cnt[..], m, b, n, p1) && SameSymbols(p0, p[..], num) && n == b + 2 * h
      decreases n
    {
      ghost var before := p[..];
      n := TailPair(w, p, num, cnt, m, b, n, p1, e);
      p1 := p1 - 1;
      h := h - 1;
      SymbolsStay(p0, before, p[..], num);
    }
    TailEnd(w, p[..], cnt[..], m, b, p1);
  }

  lemma TailEnd(w: seq<nat>, p: seq<Word>, cnt: seq<nat>, m: nat, b: nat, p1: nat)
    requires TailState(w, p, cnt, m, b, b, p1)
    ensures HalfWay(w, p, cnt, m, b)
  {}

  // ----- the lower nodes, with the limit -----

  /** The nearest level above the limit that has a leaf. */
  method FindLeaf(cnt: array<nat>, m: nat) returns (len: nat)
    requires cnt.Length == MAX_LEN + 1 && 1 <= m <= MAX_LEN
    requires exists l :: 1 <= l < m && cnt[l] > 0
    ensures 1 <= len < m && cnt[len] > 0 && forall l :: len < l < m ==> cnt[l] == 0
  {
    len := m - 1;
    while cnt[len] == 0
      invariant 1 <= len < m && forall l :: len < l < m ==> cnt[l] == 0
      decreases len
    {
      len := len - 1;
    }
  }

  lemma BottomFacts(w: seq<nat>, p: seq<Word>, cnt: seq<nat>, m: nat, b: nat, q: nat)
    requires HalfWay(w, p, cnt, m, b) && b == q + 1
    ensures q + 2 < |w| <= |p| && |w| <= MAX_SYMBOLS && Hi(p[q]) == Parent(w, q) && Hi(p[q]) < |w|
      && |cnt| == MAX_LEN + 1
    ensures Hi(p[Hi(p[q])]) + 1 == LevelOf(w, q) < |w| && 1 <= m <= MAX_LEN && Limited(w, cnt, m, b)
  {
    LevelStep(w, q);
    LevelBelowSize(w, q);
    hide After, LevelOf, Hi, Sorted, Sum, Levels, Parent;
  }

  lemma BottomDone(w: seq<nat>, p: seq<Word>, cnt: seq<nat>, m: nat, b: nat, q: nat, len: nat, r: seq<Word>)
    requires HalfWay(w, p, cnt, m, b) && b == q + 1 && |cnt| == MAX_LEN + 1 && 1 <= m <= MAX_LEN
    requires q < |p| && |r| == |p| && (forall i: nat :: i < |p| && i != q ==> r[i] == p[i])
    requires q + 1 < |w| && Hi(r[q]) == LevelOf(w, q)
    requires SplitAt(w, cnt, m, q, len)
    ensures cnt[len] > 0 && HalfWay(w, r, SplitLeaf(cnt, len), m, q)
  {
    hide After, LevelOf, Hi, Limited, InputOk, SplitAt, Parent;
    LimitedStep(w, cnt, m, q, b, len);
    InputKept(w, p, r);
  }

  /** Nodes from `b - 1` down to 0: their levels, and for levels that are too deep another leaf. */
  method BottomLevels(ghost w: seq<nat>, p: array<Word>, num: nat, b0: nat, m: nat, cnt: array<nat>)
    requires HalfWay(w, p[..], cnt[..], m, b0) && num == |w| <= Pow2(m) && p as object != cnt as object
    modifies p, cnt
    ensures SameSymbols(old(p[..]), p[..], num) && HalfWay(w, p[..], cnt[..], m, 0)
  {
    hide After, LevelOf, Hi, Limited, SplitAt, HalfWay, Pow2, Sym, Pack, InputOk, LevelsHold, ParentsHold;
    var b: nat := b0;
    ghost var p0 := p[..];
    HalfInside(w, p0, cnt[..], m, b);
    while b != 0
      invariant b + 1 < num && HalfWay(w, p[..], cnt[..], m, b) && SameSymbols(p0, p[..], num)
      decreases b
    {
      b := Lower(w, p, num, b, m, cnt, p0);
    }
  }

  lemma HalfInside(w: seq<nat>, p: seq<Word>, cnt: seq<nat>, m: nat, b: nat)
    requires HalfWay(w, p, cnt, m, b)
    ensures b + 1 < |w| <= |p|
  {}

  method Lower(ghost w: seq<nat>, p: array<Word>, num: nat, b0: nat, m: nat, cnt: array<nat>, ghost p0: seq<Word>)
    returns (b: nat)
    requires HalfWay(w, p[..], cnt[..], m, b0) && num == |w| <= Pow2(m) && p as object != cnt as object && b0 > 0
    requires SameSymbols(p0, p[..], num)
    modifies p, cnt
    ensures b + 1 == b0 && b + 1 < num && HalfWay(w, p[..], cnt[..], m, b) && SameSymbols(p0, p[..], num)
  {
    hide After, LevelOf, Hi, Limited, SplitAt, HalfWay, Pow2, Sym, Pack, InputOk, LevelsHold, ParentsHold;
    ghost var before, was := p[..], cnt[..];
    b := b0 - 1;
    BottomFacts(w, before, was, m, b0, b);
    var len := Hi(p[Hi(p[b])]) + 1;
    Packed(Sym(p[b]), len);
    p[b] := Pack(Sym(p[b]), len);
    if len >= m {
      LeafToSplit(w, was, m, b0);
      len := FindLeaf(cnt, m);
    }
    Splits(w, was, m, b, len);
    BottomDone(w, before, was, m, b0, b, len, p[..]);
    cnt[len] := cnt[len] - 1;
    cnt[len + 1] := cnt[len + 1] + 2;
    assert cnt[..] == SplitLeaf(was, len);
    SymbolsStay(p0, before, p[..], num);
  }

  lemma Splits(w: seq<nat>, cnt: seq<nat>, m: nat, q: nat, len: nat)
    requires q + 1 < |w| && |cnt| == MAX_LEN + 1 && m <= MAX_LEN && len < m
    requires if LevelOf(w, q) < m then len == LevelOf(w, q) else cnt[len] > 0
    ensures SplitAt(w, cnt, m, q, len)
  {}

  // ----- lengths of the symbols -----

  /** The first `num` places hold different symbols below `n`. */
  ghost predicate SymbolsDiffer(p: seq<Word>, num: nat, n: nat) {
    && num <= |p| && (forall x: nat :: x < num ==> Sym(p[x]) < n)
    && (forall x: nat, y: nat :: x < y < num ==> Sym(p[x]) != Sym(p[y]))
  }

  /** The first `x` places have given their symbols the lengths `all`; the other symbols have none. */
  ghost predicate Assigned(p: seq<Word>, lens: seq<nat>, all: seq<nat>, num: nat, x: nat) {
    && SymbolsDiffer(p, num, |lens|) && x <= num == |all|
    && (forall y: nat :: y < x ==> lens[Sym(p[y])] == all[y])
    && (forall i: nat :: i < |lens| && (forall y: nat :: y < x ==> Sym(p[y]) != i) ==> lens[i] == 0)
    && (forall l: nat :: l > 0 ==> multiset(lens)[l] == multiset(all[..x])[l])
  }

  lemma NoneAssigned(p: seq<Word>, lens: seq<nat>, all: seq<nat>, num: nat)
    requires SymbolsDiffer(p, num, |lens|) && num == |all| && forall i: nat :: i < |lens| ==> lens[i] == 0
    ensures Assigned(p, lens, all, num, 0)
  {
    hide Sym;
    assert all[..0] == [];
    forall l: nat | l > 0
      ensures multiset(lens)[l] == 0
    {
      assert l !in lens;
    }
  }

  lemma AssignedNext(p: seq<Word>, lens: seq<nat>, all: seq<nat>, num: nat, x: nat, next: nat)
    requires Assigned(p, lens, all, num, x) && next == x + 1 <= num
    ensures Sym(p[x]) < |lens| && Assigned(p, lens[Sym(p[x]) := all[x]], all, num, next)
  {
    hide Sym;
    var s := Sym(p[x]);
    var r := lens[s := all[x]];
    assert lens[s] == 0;
    assert all[..next] == all[..x] + [all[x]];
    assert multiset(r) == multiset(lens) - multiset{lens[s]} + multiset{all[x]};
    forall i: nat | i < |r| && (forall y: nat :: y < next ==> Sym(p[y]) != i)
      ensures r[i] == 0
    {
      assert i != s;
    }
  }

  /** Gives the longest words to the rarest symbols. */
  method AssignLens(p: array<Word>, num: nat, lens: array<nat>, cnt: array<nat>, m: nat)
    requires cnt.Length == MAX_LEN + 1 && 1 <= m <= MAX_LEN && cnt != lens
    requires SymbolsDiffer(p[..], num, lens.Length) && |Lengths(cnt[..], m)| == num
    requires forall i: nat :: i < lens.Length ==> lens[i] == 0
    modifies lens
    ensures Assigned(p[..], lens[..], Lengths(cnt[..], m), num, num)
  {
    hide Sym, Lengths, Assigned, Rep, SymbolsDiffer;
    ghost var c := cnt[..];
    ghost var all := Lengths(c, m);
    NoneAssigned(p[..], lens[..], all, num);
    assert all[0..] == all;
    var len: nat := m;
    var x: nat := 0;
    while len > 0
      invariant 0 <= len <= m && x <= num && all[x..] == Lengths(c, len)
      invariant Assigned(p[..], lens[..], all, num, x) && cnt[..] == c
      decreases len
    {
      LengthsStep(c, len);
      x := AssignOne(p, num, lens, cnt[len], len, x, all, c);
      len := len - 1;
    }
    assert Lengths(c, 0) == [] by { LengthsStep(c, 1); }
  }

  lemma LengthsStep(cnt: seq<nat>, m: nat)
    requires 0 < m < |cnt|
    ensures Lengths(cnt, m) == Rep(m, cnt[m]) + Lengths(cnt, m - 1) && Lengths(cnt, 0) == []
  {
    hide Rep;
  }

  /** The next `k0` symbols get words of length `len`. */
  method AssignOne(p: array<Word>, num: nat, lens: array<nat>, k0: nat, len: nat, x0: nat, ghost all: seq<nat>,
                   ghost c: seq<nat>)
    returns (x: nat)
    requires 0 < len < |c| && x0 <= num && Assigned(p[..], lens[..], all, num, x0)
    requires all[x0..] == Rep(len, k0) + Lengths(c, len - 1)
    modifies lens
    ensures x <= num && Assigned(p[..], lens[..], all, num, x) && all[x..] == Lengths(c, len - 1)
  {
    hide Sym, Lengths, Assigned;
    x := x0;
    var k := k0;
    AssignedInside(p[..], lens[..], all, num, x);
    while k > 0
      invariant x <= num == |all| && Assigned(p[..], lens[..], all, num, x)
      invariant all[x..] == Rep(len, k) + Lengths(c, len - 1)
      decreases k
    {
      ghost var was, next := lens[..], x + 1;
      assert all[x] == all[x..][0] == len;
      AssignedNext(p[..], was, all, num, x, next);
      AssignedInside(p[..], was, all, num, x);
      lens[Sym(p[x])] := len;
      assert lens[..] == was[Sym(p[x]) := all[x]];
      assert all[next..] == all[x..][1..];
      assert Rep(len, k)[1..] == Rep(len, k - 1);
      assert all[x..][1..] == Rep(len, k)[1..] + Lengths(c, len - 1);
      x := x + 1;
      k := k - 1;
    }
    assert Rep(len, 0) + Lengths(c, len - 1) == Lengths(c, len - 1);
  }

  lemma AssignedInside(p: seq<Word>, lens: seq<nat>, all: seq<nat>, num: nat, x: nat)
    requires Assigned(p, lens, all, num, x)
    ensures x <= num == |all| <= |p| && (forall y: nat :: y < num ==> Sym(p[y]) < |lens|)
  {
    hide Sym;
  }

  // ----- codes of the symbols -----

  method FirstCodes(cnt: array<nat>, codes: array<nat>)
    requires cnt.Length == MAX_LEN + 1 == codes.Length && cnt != codes && cnt[0] == 0
    modifies codes
    ensures forall l: nat :: l <= MAX_LEN ==> codes[l] == FirstCode(cnt[..], l)
  {
    codes[0] := 0;
    var code := 0;
    var len: nat := 0;
    while len < MAX_LEN
      invariant len <= MAX_LEN && code == FirstCode(cnt[..], len)
      invariant forall l: nat :: l <= len ==> codes[l] == FirstCode(cnt[..], l)
    {
      code := 2 * (code + cnt[len]);
      codes[len + 1] := code;
      len := len + 1;
    }
  }

  lemma CodeIsWord(cnt: seq<nat>, lens: seq<nat>, m: nat, i: nat)
    requires CodeOk(cnt, lens, m) && i < |lens| <= MAX_SYMBOLS && m <= MAX_LEN
    ensures lens[i] < |cnt| && Code(cnt, lens, i) < WORD
  {
    if lens[i] > 0 {
      CodeFits(cnt, lens, m, i);
      Pow2Mono(lens[i], 16);
      assert Pow2(16) == 65536 by { assert Pow2(8) == 256; Pow2Split(8, 8); }
    } else {
      assert |multiset(lens[..i])| == i;
    }
  }

  /** Codes in the order of the symbols. */
  method AssignCodes(p: array<Word>, lens: array<nat>, codes: array<nat>, ghost cnt: seq<nat>, ghost m: nat)
    requires codes.Length == MAX_LEN + 1 == |cnt| && lens.Length <= p.Length && lens.Length <= MAX_SYMBOLS
    requires codes != lens && p as object != lens as object && p as object != codes as object
    requires CodeOk(cnt, lens[..], m) && m <= MAX_LEN
    requires forall l: nat :: l <= MAX_LEN ==> codes[l] == FirstCode(cnt, l)
    modifies p, codes
    ensures CodeOk(cnt, lens[..], m)
    ensures forall i: nat :: i < lens.Length ==> lens[i] <= MAX_LEN && p[i] == Code(cnt, lens[..], i)
  {
    hide FirstCode, CodeOk, Code;
    ghost var all := lens[..];
    for i := 0 to lens.Length
      invariant forall l: nat :: l <= MAX_LEN ==> codes[l] == FirstCode(cnt, l) + multiset(all[..i])[l]
      invariant forall j: nat :: j < i ==> lens[j] <= MAX_LEN && p[j] == Code(cnt, all, j)
    {
      CodeIsWord(cnt, all, m, i);
      CodeIs(cnt, all, i);
      assert all[..i + 1] == all[..i] + [all[i]];
      var len := lens[i];
      var c := codes[len];
      p[i] := c;
      codes[len] := c + 1;
    }
  }

  lemma CodeIs(cnt: seq<nat>, lens: seq<nat>, i: nat)
    requires i < |lens| && lens[i] < |cnt|
    ensures Code(cnt, lens, i) == FirstCode(cnt, lens[i]) + multiset(lens[..i])[lens[i]]
  {}

  // ----- the whole -----

  /** A complete prefix code: no word is the beginning of another one, and Kraft's sum is exactly one. */
  ghost predicate CompleteCode(lens: seq<nat>, codes: seq<Word>, m: nat) {
    && |lens| <= |codes| && AtMost(lens, m)
    && Kraft(UsedLengths(lens, lens), m) == Pow2(m)
    && (forall i: nat :: i < |lens| && lens[i] > 0 ==> codes[i] < Pow2(lens[i]))
    && (forall i: nat, j: nat :: i < |lens| && j < |lens| && i != j && 0 < lens[i] <= lens[j] ==>
         codes[j] / Pow2(lens[j] - lens[i]) != codes[i])
  }

  function NumUsed(freqs: seq<nat>): nat { |UsedList(freqs, |freqs|)| }

  lemma {:induction false} SameUsedList(a: seq<nat>, b: seq<nat>, n: nat)
    requires n <= |a| == |b| && forall i: nat :: i < |a| ==> (a[i] > 0 <==> b[i] > 0)
    ensures UsedList(a, n) == UsedList(b, n)
  {
    if n > 0 { SameUsedList(a, b, n - 1); }
  }

  /** The frequencies in sorted order. */
  ghost function Weights(freqs: seq<nat>, perm: seq<nat>, num: nat): seq<nat>
    requires InOrder(freqs, perm, num)
  {
    Pick(freqs, perm[..num])
  }

  lemma WeightsOk(freqs: seq<nat>, perm: seq<nat>, num: nat)
    requires Distinct(perm) && InOrder(freqs, perm, num)
    ensures var w := Weights(freqs, perm, num);
      |w| == num == NumUsed(freqs) && Sorted(w) && Sum(w) == Sum(freqs)
  {
    hide Cost, Sum, UsedList, Rep;
    var w, ones, s := Weights(freqs, perm, num), Rep(1, |freqs|), perm[..num];
    UsedComeFirst(freqs, perm, num);
    assert |multiset(s)| == |multiset(UsedList(freqs, |freqs|))|;
    InListOrder(freqs, perm, num, ones, 1);
    CostOfRep(freqs, 1);
    CostOfRep(w, 1);
    assert Pick(ones, s) == Rep(1, num);
  }

  lemma FreqsFit(freqs: seq<nat>)
    requires Sum(freqs) < MAX_FREQ && |freqs| <= MAX_SYMBOLS
    ensures FreqsOk(freqs)
  {
    forall i: nat | i < |freqs| ensures freqs[i] < MAX_FREQ { ElementBelowSum(freqs, i); }
  }

  lemma WordsOf(freqs: seq<nat>, p: seq<Word>, perm: seq<nat>, num: nat)
    requires Listed(freqs, p, perm) && InOrder(freqs, perm, num)
    ensures forall x: nat :: x < num ==> Sym(p[x]) == perm[x] && Hi(p[x]) == Weights(freqs, perm, num)[x]
  {
    hide Sym, Hi, Pack, Distinct;
    forall x: nat | x < num
      ensures Sym(p[x]) == perm[x] && Hi(p[x]) == Weights(freqs, perm, num)[x]
    {
      assert Holds(freqs, p, perm, x);
      Packed(perm[x], freqs[perm[x]]);
    }
  }

  lemma StillDiffer(p: seq<Word>, q: seq<Word>, perm: seq<nat>, num: nat, n: nat)
    requires num <= |perm| && num <= |p| && Distinct(perm) && SameSymbols(p, q, num) && Inside(perm, n)
    requires forall x: nat :: x < num ==> Sym(p[x]) == perm[x]
    ensures SymbolsDiffer(q, num, n) && forall x: nat :: x < num ==> Sym(q[x]) == perm[x]
  {
    hide Sym;
  }

  lemma {:induction false} LengthsPositive(cnt: seq<nat>, m: nat)
    requires m < |cnt|
    ensures AtLeast(Lengths(cnt, m), 1)
  {
    if m > 0 { LengthsPositive(cnt, m - 1); }
  }

  /** What the assigned lengths are for the codes. */
  lemma LengthsAreCode(freqs: seq<nat>, perm: seq<nat>, num: nat, p: seq<Word>, lens: seq<nat>, cnt: seq<nat>, m: nat,
                       w: seq<nat>)
    requires Distinct(perm) && InOrder(freqs, perm, num) && |lens| == |freqs| && w == Weights(freqs, perm, num)
    requires Limited(w, cnt, m, 0) && Assigned(p, lens, Lengths(cnt, m), num, num)
    requires num <= |p| && forall x: nat :: x < num ==> Sym(p[x]) == perm[x]
    ensures CodeOk(cnt, lens, m) && Pick(lens, perm[..num]) == Lengths(cnt, m)
    ensures forall i: nat :: i < |freqs| ==> (lens[i] > 0 <==> freqs[i] > 0)
  {
    hide Sym, Levels, LevelOf, KraftOf, Count, Sum, Cost, Distinct, Rep, Counts, Pow2;
    var all := Lengths(cnt, m);
    LengthsFall(cnt, m);
    LengthsPositive(cnt, m);
    forall l: nat | 1 <= l <= m
      ensures cnt[l] == multiset(lens)[l]
    {
      LengthsCount(cnt, m, l);
      assert all[..num] == all;
    }
    forall i: nat | i < |freqs|
      ensures (lens[i] > 0 <==> freqs[i] > 0) && lens[i] <= m
    {
      AllListed(perm, |freqs|, i);
      var k :| 0 <= k < |perm| && perm[k] == i;
      LengthOf(p, perm, lens, all, num, k);
    }
    assert Pick(lens, perm[..num]) == all;
  }

  lemma LengthOf(p: seq<Word>, perm: seq<nat>, lens: seq<nat>, all: seq<nat>, num: nat, k: nat)
    requires Assigned(p, lens, all, num, num) && Distinct(perm) && k < |perm| == |lens| && perm[k] < |lens|
      && num <= |perm|
    requires forall x: nat :: x < num ==> Sym(p[x]) == perm[x]
    ensures lens[perm[k]] == if k < num then all[k] else 0
  {
    hide Sym;
    if k >= num { assert forall y: nat :: y < num ==> Sym(p[y]) != perm[k]; }
  }

  lemma CodeIsComplete(freqs: seq<nat>, perm: seq<nat>, num: nat, lens: seq<nat>, cnt: seq<nat>, m: nat,
                       codes: seq<Word>, w: seq<nat>)
    requires Distinct(perm) && InOrder(freqs, perm, num) && |lens| == |freqs| <= |codes|
      && w == Weights(freqs, perm, num)
    requires Limited(w, cnt, m, 0) && CodeOk(cnt, lens, m) && Pick(lens, perm[..num]) == Lengths(cnt, m)
    requires forall i: nat :: i < |lens| ==> codes[i] == Code(cnt, lens, i)
    requires forall i: nat :: i < |freqs| ==> (lens[i] > 0 <==> freqs[i] > 0)
    ensures CompleteCode(lens, codes, m)
  {
    hide Levels, LevelOf, Count, Sum, Cost, Distinct, Counts, Pow2, Code, Lengths, Kraft, KraftOf, UsedList, Pick;
    SameUsedList(lens, freqs, |freqs|);
    InListOrder(freqs, perm, num, lens, m);
    LengthsKraft(cnt, m, m);
    forall i: nat | i < |lens| && lens[i] > 0
      ensures codes[i] < Pow2(lens[i])
    {
      CodeFits(cnt, lens, m, i);
    }
    forall i: nat, j: nat | i < |lens| && j < |lens| && i != j && 0 < lens[i] <= lens[j]
      ensures codes[j] / Pow2(lens[j] - lens[i]) != codes[i]
    {
      PrefixFree(cnt, lens, m, i, j);
    }
  }

  lemma CodeIsOptimal(freqs: seq<nat>, perm: seq<nat>, num: nat, lens: seq<nat>, cnt: seq<nat>, m: nat, w: seq<nat>)
    requires Distinct(perm) && InOrder(freqs, perm, num) && |lens| == |freqs| && w == Weights(freqs, perm, num)
    requires Limited(w, cnt, m, 0) && Pick(lens, perm[..num]) == Lengths(cnt, m) && LevelOf(w, 0) < m
    ensures Optimal(freqs, lens)
  {
    hide Levels, LevelOf, Count, Sum, Cost, Counts, Pow2, Lengths, Kraft, KraftOf, UsedList, Sorted, LowerBound;
    WeightsOk(freqs, perm, num);
    UnlimitedIsOptimal(w, cnt, m);
    OptimalInAnyOrder(freqs, perm, num, lens);
  }

  /** With at most two used symbols, two symbols get the words 0 and 1. */
  method FewSymbols(freqs: seq<nat>, p: array<Word>, lens: array<nat>, num: nat, m: nat, ghost perm: seq<nat>)
    requires Listed(freqs, p[..], perm) && InOrder(freqs, perm, num) && num <= 2 <= |freqs| == lens.Length && 1 <= m
    requires p as object != lens as object && forall i: nat :: i < lens.Length ==> lens[i] == 0
    modifies p, lens
    ensures CompleteCode(lens[..], p[..], m) && forall i: nat :: i < |freqs| && freqs[i] > 0 ==> lens[i] > 0
  {
    hide Pack, Sym, Hi, UsedLengths, Kraft, Pow2;
    WordsOf(freqs, p[..], perm, num);
    var minCode: nat, maxCode: nat := 0, 1;
    if num > 0 {
      maxCode := Sym(p[num - 1]);
      if num == 2 {
        minCode := Sym(p[0]);
        if minCode > maxCode {
          minCode, maxCode := maxCode, minCode;
        }
      } else if maxCode == 0 {
        maxCode := maxCode + 1;
      }
    }
    FewUsed(freqs, perm, num, minCode, maxCode);
    p[minCode] := 0;
    p[maxCode] := 1;
    lens[minCode] := 1;
    lens[maxCode] := 1;
    TwoWords(lens[..], p[..], minCode, maxCode, m);
  }

  lemma FewUsed(freqs: seq<nat>, perm: seq<nat>, num: nat, a: nat, b: nat)
    requires Distinct(perm) && InOrder(freqs, perm, num) && num <= 2 <= |freqs|
    requires num == 0 ==> a == 0 && b == 1
    requires num == 1 ==> a == 0 && b == if perm[0] == 0 then 1 else perm[0]
    requires num == 2 ==> (a == perm[0] && b == perm[1] && a <= b) || (a == perm[1] && b == perm[0] && a <= b)
    ensures a < b < |freqs| && forall i: nat :: i < |freqs| && freqs[i] > 0 ==> i == a || i == b
  {
    forall i: nat | i < |freqs| && freqs[i] > 0
      ensures i == a || i == b
    {
      AllListed(perm, |freqs|, i);
      var k :| 0 <= k < |perm| && perm[k] == i;
    }
  }

  lemma TwoWords(lens: seq<nat>, codes: seq<Word>, a: nat, b: nat, m: nat)
    requires a < b < |lens| <= |codes| && 1 <= m && codes[a] == 0 && codes[b] == 1
    requires forall i: nat :: i < |lens| ==> lens[i] == if i == a || i == b then 1 else 0
    ensures CompleteCode(lens, codes, m)
  {
    hide Kraft, UsedList, Pow2;
    TwoUsed(lens, a, b, |lens|);
    assert UsedLengths(lens, lens) == [1, 1];
    KraftOfTwo(1, 0, m);
    Pow2Next(m - 1, m);
    Pow2Next(0, 1);
    assert Pow2(0) == 1 by { Pow2Zero(); }
  }

  lemma Pow2Zero()
    ensures Pow2(0) == 1
  {}

  lemma {:induction false} TwoUsed(lens: seq<nat>, a: nat, b: nat, n: nat)
    requires a < b && n <= |lens| && forall i: nat :: i < |lens| ==> lens[i] == if i == a || i == b then 1 else 0
    ensures UsedList(lens, n) == if n > b then [a, b] else if n > a then [a] else []
    decreases n
  {
    if n > 0 { TwoUsed(lens, a, b, n - 1); }
  }

  lemma EnoughWeights(freqs: seq<nat>, p: seq<Word>, perm: seq<nat>, num: nat)
    requires Listed(freqs, p, perm) && InOrder(freqs, perm, num) && num >= 3 && Sum(freqs) < MAX_FREQ
    ensures InputOk(Weights(freqs, perm, num), p) && LeavesFrom(Weights(freqs, perm, num), p, 0)
    ensures |Weights(freqs, perm, num)| == num
  {
    hide Pack, Sym, Hi, Sum, Sorted;
    WeightsOk(freqs, perm, num);
    WordsOf(freqs, p, perm, num);
  }

  /** The lengths by level, for at least three used symbols. */
  method CountLevels(ghost w: seq<nat>, p: array<Word>, num: nat, m: nat, cnt: array<nat>)
    requires InputOk(w, p[..]) && LeavesFrom(w, p[..], 0) && num == |w| <= Pow2(m) && 1 <= m <= MAX_LEN
    requires cnt.Length == MAX_LEN + 1 && p as object != cnt as object
    modifies p, cnt
    ensures SameSymbols(old(p[..]), p[..], num) && Limited(w, cnt[..], m, 0)
  {
    hide Sym, Hi, Limited, LeavesTaken, HalfWay, LeavesFrom, Pow2;
    for i := 0 to MAX_LEN + 1
      invariant forall l :: 0 <= l < i ==> cnt[l] == 0
      invariant p[..] == old(p[..])
    {
      cnt[i] := 0;
    }
    cnt[1] := 2;
    RootOnly(w, cnt[..], m);
    ghost var p0 := p[..];
    var b, e := Build(w, p, num);
    ghost var p1 := p[..];
    TailLevels(w, p, num, b, m, cnt, e);
    ghost var p2 := p[..];
    BottomLevels(w, p, num, b, m, cnt);
    SymbolsStay(p0, p1, p2, num);
    SymbolsStay(p0, p2, p[..], num);
    HalfLimited(w, p[..], cnt[..], m, 0);
  }

  lemma HalfLimited(w: seq<nat>, p: seq<Word>, cnt: seq<nat>, m: nat, b: nat)
    requires HalfWay(w, p, cnt, m, b)
    ensures Limited(w, cnt, m, b)
  {}

  lemma {:induction false} ShareOfEach(ls: seq<nat>, m: nat)
    requires AtMost(ls, m)
    ensures |ls| <= Kraft(ls, m)
  {
    if ls != [] { ShareOfEach(ls[1..], m); }
  }

  lemma {:induction false} MoreUsed(freqs: seq<nat>, lens: seq<nat>, n: nat)
    requires n <= |freqs| == |lens| && forall i: nat :: i < |freqs| && freqs[i] > 0 ==> lens[i] > 0
    ensures |UsedList(freqs, n)| <= |UsedList(lens, n)|
  {
    if n > 0 { MoreUsed(freqs, lens, n - 1); }
  }

  /** A complete code with words of at most `m` bits is for at most `2^m` symbols. */
  lemma NoCodeForMore(freqs: seq<nat>, lens: seq<nat>, codes: seq<Word>, m: nat)
    requires |lens| == |freqs| && CompleteCode(lens, codes, m)
    requires forall i: nat :: i < |freqs| && freqs[i] > 0 ==> lens[i] > 0
    ensures NumUsed(freqs) <= Pow2(m)
  {
    hide Kraft, Pow2, UsedList;
    MoreUsed(freqs, lens, |freqs|);
    ShareOfEach(UsedLengths(lens, lens), m);
  }

  /** Lengths and codes for a table of frequencies. `NoCodeForMore` says why no more than `2^maxLen` symbols may be
      used, which the header does not demand. `w` are the used frequencies in rising order. */
  method Generate(freqs: seq<nat>, p: array<Word>, lens: array<nat>, maxLen: nat) returns (ghost w: seq<nat>)
    requires 2 <= |freqs| <= MAX_SYMBOLS && |freqs| <= p.Length && lens.Length == |freqs| && Sum(freqs) < MAX_FREQ
    requires 1 <= maxLen <= MAX_LEN && NumUsed(freqs) <= Pow2(maxLen) && p as object != lens as object
    modifies p, lens
    ensures CompleteCode(lens[..], p[..], maxLen)
    ensures forall i: nat :: i < |freqs| && freqs[i] > 0 ==> lens[i] > 0
    ensures |w| == NumUsed(freqs) && Sorted(w) && multiset(w) == multiset(UsedLengths(freqs, freqs))
    ensures |w| > 2 ==> forall i: nat :: i < |freqs| && freqs[i] == 0 ==> lens[i] == 0
    ensures |w| > 2 && LevelOf(w, 0) < maxLen ==> Optimal(freqs, lens[..])
  {
    hide Pack, Sym, Hi, UsedLengths, UsedList, CompleteCode, Optimal, LevelOf, Sum, Pow2, Sorted, Pick, Listed,
         Distinct, Lengths,
      Limited, Assigned, SymbolsDiffer, CodeOk, Code;
    FreqsFit(freqs);
    for i := 0 to lens.Length
      invariant forall j: nat :: j < i ==> lens[j] == 0
    {
      lens[i] := 0;
    }
    ghost var perm;
    var num;
    num, perm := SortByFreq(freqs, p);
    w := Weights(freqs, perm, num);
    PermDistinct(freqs, p[..], perm);
    WeightsOk(freqs, perm, num);
    WeightsMultiset(freqs, perm, num);
    if num <= 2 {
      FewSymbols(freqs, p, lens, num, maxLen, perm);
      return;
    }
    var cnt := new nat[MAX_LEN + 1];
    ghost var p0 := p[..];
    EnoughWeights(freqs, p0, perm, num);
    WordsOf(freqs, p0, perm, num);
    CountLevels(w, p, num, maxLen, cnt);
    ghost var p1 := p[..];
    StillDiffer(p0, p1, perm, num, |freqs|);
    LengthsTotal(w, cnt[..], maxLen);
    AssignLens(p, num, lens, cnt, maxLen);
    LengthsAreCode(freqs, perm, num, p1, lens[..], cnt[..], maxLen, w);
    var codes := new nat[MAX_LEN + 1];
    FirstCodes(cnt, codes);
    AssignCodes(p, lens, codes, cnt[..], maxLen);
    CodeIsComplete(freqs, perm, num, lens[..], cnt[..], maxLen, p[..], w);
    if LevelOf(w, 0) < maxLen {
      CodeIsOptimal(freqs, perm, num, lens[..], cnt[..], maxLen, w);
    }
  }

  lemma PermDistinct(freqs: seq<nat>, p: seq<Word>, perm: seq<nat>)
    requires Listed(freqs, p, perm)
    ensures Distinct(perm) && |perm| == |freqs| <= |p|
  {}

  lemma LengthsTotal(w: seq<nat>, cnt: seq<nat>, m: nat)
    requires Limited(w, cnt, m, 0)
    ensures |cnt| == MAX_LEN + 1 && 1 <= m <= MAX_LEN && |Lengths(cnt, m)| == |w| && cnt[0] == 0
  {
    LengthsFall(cnt, m);
    hide Lengths;
  }

  lemma WeightsMultiset(freqs: seq<nat>, perm: seq<nat>, num: nat)
    requires Distinct(perm) && InOrder(freqs, perm, num)
    ensures multiset(Weights(freqs, perm, num)) == multiset(UsedLengths(freqs, freqs))
  {
    UsedComeFirst(freqs, perm, num);
    PickMultiset(freqs, perm[..num], UsedList(freqs, |freqs|));
  }

  lemma PickMultiset(x: seq<nat>, s: seq<nat>, t: seq<nat>)
    requires Inside(s, |x|) && Inside(t, |x|) && multiset(s) == multiset(t)
    ensures multiset(Pick(x, s)) == multiset(Pick(x, t))
    decreases |s|
  {
    if s == [] {
      NoMembers(s, t);
    } else {
      var t1, t2 := Around(t, s[0], s);
      FirstAway(s);
      Parts(t1, s[0], t2, |x|);
      PickMultiset(x, s[1..], t1 + t2);
      PickOne(x, [], s[0], s[1..]);
      PickOne(x, t1, s[0], t2);
    }
  }

  lemma PickOne(x: seq<nat>, t1: seq<nat>, a: nat, t2: seq<nat>)
    requires Inside(t1, |x|) && Inside(t2, |x|) && a < |x|
    ensures Inside(t1 + [a] + t2, |x|) && Inside(t1 + t2, |x|)
    ensures multiset(Pick(x, t1 + [a] + t2)) == multiset(Pick(x, t1 + t2)) + multiset{x[a]}
  {
    PickAppend(x, t1 + [a], t2);
    PickAppend(x, t1, [a]);
    PickAppend(x, t1, t2);
    assert Pick(x, [a]) == [x[a]];
  }
}
