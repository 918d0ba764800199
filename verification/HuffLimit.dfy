/** Numbers of code words by length: splitting one leaf into two keeps Kraft's sum, and there is a leaf to split
    exactly while there are fewer than `2^m` of them. */
module HuffLimit {
  import opened Arith
  import opened Lists
  import opened HuffCost
  import opened HuffTree
  import opened HuffLevels

  /** The number of leaves below level `n`. */
  function Count(cnt: seq<nat>, n: nat): nat
    requires n <= |cnt|
  {
    if n == 0 then 0 else Count(cnt, n - 1) + cnt[n - 1]
  }

  /** Kraft's sum of the leaves below level `n`, in units of level `m`. */
  function KraftOf(cnt: seq<nat>, m: nat, n: nat): nat
    requires n <= |cnt| && n <= m + 1
  {
    if n == 0 then 0 else KraftOf(cnt, m, n - 1) + cnt[n - 1] * Pow2(m - (n - 1))
  }

  /** A leaf at level `len` becomes a node with two leaves. */
  function SplitLeaf(cnt: seq<nat>, len: nat): (r: seq<nat>)
    requires len + 1 < |cnt| && cnt[len] > 0
    ensures |r| == |cnt|
  {
    cnt[len := cnt[len] - 1][len + 1 := cnt[len + 1] + 2]
  }

  lemma {:induction false} SplitCount(cnt: seq<nat>, len: nat, n: nat)
    requires len + 1 < |cnt| && cnt[len] > 0 && n <= |cnt|
    ensures Count(SplitLeaf(cnt, len), n) ==
      Count(cnt, n) - (if n > len then 1 else 0) + (if n > len + 1 then 2 else 0)
    decreases n
  {
    if n > 0 { SplitCount(cnt, len, n - 1); }
  }

  lemma {:induction false} SplitKraft(cnt: seq<nat>, len: nat, m: nat, n: nat)
    requires len + 1 < |cnt| && cnt[len] > 0 && n <= |cnt| && n <= m + 1 && len < m
    ensures KraftOf(SplitLeaf(cnt, len), m, n) ==
      KraftOf(cnt, m, n) - (if n > len then Pow2(m - len) else 0) + (if n > len + 1 then Pow2(m - len) else 0)
    decreases n
  {
    hide Pow2;
    if n > 0 {
      SplitKraft(cnt, len, m, n - 1);
      Pow2Next(m - (len + 1), m - len);
      var c, p := cnt[n - 1], Pow2(m - (n - 1));
      if n - 1 == len { assert (c - 1) * p == c * p - p; }
      if n - 1 == len + 1 { assert (c + 2) * p == c * p + 2 * p; }
    }
  }

  /** Without leaves above level `m` the sum is just the number of leaves. */
  lemma {:induction false} NoneAbove(cnt: seq<nat>, m: nat, n: nat)
    requires n <= m < |cnt| && forall l :: 0 <= l < n ==> cnt[l] == 0
    ensures KraftOf(cnt, m, n) == 0 && Count(cnt, n) == 0
    decreases n
  {
    if n > 0 { NoneAbove(cnt, m, n - 1); }
  }

  /** A leaf above level `m` has more than one share. */
  lemma {:induction false} LeafHasShare(cnt: seq<nat>, m: nat, n: nat)
    requires n <= |cnt| && n <= m + 1
    ensures Count(cnt, n) <= KraftOf(cnt, m, n)
    ensures forall len: nat :: len < n && len < m && cnt[len] > 0 ==> Count(cnt, n) < KraftOf(cnt, m, n)
    decreases n
  {
    hide Pow2;
    if n > 0 {
      LeafHasShare(cnt, m, n - 1);
      Shares(cnt[n - 1], m - (n - 1));
    }
  }

  lemma Shares(c: nat, e: nat)
    ensures c <= c * Pow2(e) && (c > 0 && e > 0 ==> c < c * Pow2(e))
  {
    var p := Pow2(e);
    assert e > 0 ==> p == 2 * Pow2(e - 1);
    hide Pow2;
    MulMono(1, p, c);
    if e > 0 { MulMono(2, p, c); }
  }

  /** The search for a leaf to split succeeds exactly while the deepest level is not full. */
  lemma FindsLeaf(cnt: seq<nat>, m: nat)
    requires m + 1 <= |cnt| && KraftOf(cnt, m, m + 1) == Pow2(m)
    ensures (exists len :: 0 <= len < m && cnt[len] > 0) <==> Count(cnt, m + 1) < Pow2(m)
  {
    assert Pow2(0) == 1;
    LeafHasShare(cnt, m, m + 1);
    if forall len :: 0 <= len < m ==> cnt[len] == 0 {
      NoneAbove(cnt, m, m);
    }
  }

  /** The lengths of the leaves at levels 1 to `m`, longest first. */
  function Lengths(cnt: seq<nat>, m: nat): (s: seq<nat>)
    requires m < |cnt|
  {
    if m == 0 then [] else Rep(m, cnt[m]) + Lengths(cnt, m - 1)
  }

  lemma {:induction false} LengthsFall(cnt: seq<nat>, m: nat)
    requires m < |cnt|
    ensures Falling(Lengths(cnt, m)) && AtMost(Lengths(cnt, m), m)
    ensures |Lengths(cnt, m)| + cnt[0] == Count(cnt, m + 1)
  {
    hide Rep, Falling, KraftOf;
    if m == 0 {
      NoneFall(Lengths(cnt, m));
    } else {
      LengthsFall(cnt, m - 1);
      FallingAppend(m, cnt[m], Lengths(cnt, m - 1));
    }
  }

  lemma {:induction false} LengthsCount(cnt: seq<nat>, m: nat, l: nat)
    requires m < |cnt|
    ensures multiset(Lengths(cnt, m))[l] == if 1 <= l <= m then cnt[l] else 0
  {
    hide Rep;
    if m > 0 {
      LengthsCount(cnt, m - 1, l);
      RepMultiset(m, cnt[m]);
      assert multiset(Rep(m, cnt[m]) + Lengths(cnt, m - 1)) == multiset(Rep(m, cnt[m])) + multiset(Lengths(cnt, m - 1));
    }
  }

  lemma {:induction false} KraftOfRep(x: nat, n: nat, m: nat)
    requires x <= m
    ensures Kraft(Rep(x, n), m) == n * Pow2(m - x)
  {
    if n > 0 {
      KraftOfRep(x, n - 1, m);
      assert Rep(x, n)[1..] == Rep(x, n - 1);
      MulSucc(n - 1, Pow2(m - x));
    }
  }

  lemma {:induction false} LengthsKraft(cnt: seq<nat>, n: nat, m: nat)
    requires n < |cnt| && n <= m && cnt[0] == 0
    ensures Kraft(Lengths(cnt, n), m) == KraftOf(cnt, m, n + 1)
    decreases n
  {
    hide Rep, Pow2;
    if n == 0 {
      assert KraftOf(cnt, m, 1) == KraftOf(cnt, m, 0) + cnt[0] * Pow2(m);
      assert 0 * Pow2(m) == 0;
    } else {
      LengthsKraft(cnt, n - 1, m);
      KraftAppend(Rep(n, cnt[n]), Lengths(cnt, n - 1), m);
      KraftOfRep(n, cnt[n], m);
    }
  }

  /** A falling sequence is known from how often each number occurs. */
  lemma {:induction false} FallingDetermined(a: seq<nat>, b: seq<nat>)
    requires Falling(a) && Falling(b) && multiset(a) == multiset(b) && |a| == |b|
    ensures a == b
  {
    hide Falling;
    if a != [] {
      SameFirst(a, b);
      FallingTail(a);
      FallingTail(b);
      FallingDetermined(a[1..], b[1..]);
      Rejoin(a, b);
    }
  }

  lemma Rejoin(a: seq<nat>, b: seq<nat>)
    requires a != [] && b != [] && a[0] == b[0] && a[1..] == b[1..]
    ensures a == b
  {
    assert a == [a[0]] + a[1..] && b == [b[0]] + b[1..];
  }

  lemma SameFirst(a: seq<nat>, b: seq<nat>)
    requires Falling(a) && Falling(b) && multiset(a) == multiset(b) && a != [] && b != []
    ensures a[0] == b[0]
  {
    FirstIsGreatest(a, b[0]);
    FirstIsGreatest(b, a[0]);
    Member(a);
    Member(b);
  }

  lemma Member(a: seq<nat>)
    requires a != []
    ensures a[0] in multiset(a)
  {
    assert a[0] in a;
  }

  lemma FirstIsGreatest(a: seq<nat>, x: nat)
    requires Falling(a) && a != []
    ensures x in multiset(a) ==> x <= a[0]
  {}

  lemma FallingTail(a: seq<nat>)
    requires Falling(a) && a != []
    ensures Falling(a[1..]) && multiset(a[1..]) == multiset(a) - multiset{a[0]}
  {
    assert a == [a[0]] + a[1..];
  }

  lemma TooLong(a: seq<nat>, m: nat, l: nat)
    requires AtMost(a, m) && l > m
    ensures multiset(a)[l] == 0
  {
    assert l !in a;
  }

  /** The counters hold the numbers of `levels`. */
  ghost predicate Counts(cnt: seq<nat>, levels: seq<nat>) {
    forall l :: 0 <= l < |cnt| ==> cnt[l] == multiset(levels)[l]
  }

  /** When no leaf had to be moved, the lengths are the levels of the tree, leaf by leaf, and no prefix code
      is better. */
  lemma UnlimitedIsOptimal(w: seq<nat>, cnt: seq<nat>, m: nat)
    requires |w| >= 2 && Sorted(w) && m < |cnt|
    requires Counts(cnt, Levels(w, 0)) && cnt[0] == 0 && LevelOf(w, 0) < m
    ensures |Lengths(cnt, m)| == |w| && LowerBound(w, Cost(w, Lengths(cnt, m)))
  {
    hide *;
    assert |Levels(w, 0)| == |w|;
    LeafLevelsAtStart(w);
    LeafLevelsFall(w, 0);
    AtMostMore(LeafLevels(w, 0), LevelOf(w, 0) + 1, m);
    LengthsFall(cnt, m);
    SameCounts(w, cnt, m);
    assert |multiset(Lengths(cnt, m))| == |multiset(Levels(w, 0))|;
    FallingDetermined(Lengths(cnt, m), Levels(w, 0));
    LevelsCostRest(w, 0);
    RestIsLowerBound(w, 0);
  }

  lemma AtMostMore(s: seq<nat>, m: nat, n: nat)
    requires AtMost(s, m) && m <= n
    ensures AtMost(s, n)
  {}

  lemma SameCounts(w: seq<nat>, cnt: seq<nat>, m: nat)
    requires |w| >= 2 && m < |cnt| && Counts(cnt, Levels(w, 0)) && cnt[0] == 0
    requires AtMost(Levels(w, 0), m)
    ensures multiset(Lengths(cnt, m)) == multiset(Levels(w, 0))
  {
    hide Levels, LevelOf, Lengths;
    var all := Levels(w, 0);
    var mine: multiset<nat>, theirs: multiset<nat> := multiset(Lengths(cnt, m)), multiset(all);
    forall l: nat
      ensures mine[l] == theirs[l]
    {
      LengthsCount(cnt, m, l);
      if l > m { TooLong(all, m, l); }
    }
  }
}
