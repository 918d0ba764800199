/** The tree that two sorted queues build: leaves by weight, and inner nodes in the order of their creation.
    Node `e` takes the two smallest items that are left; so the tree is known from the number of leaves and
    nodes taken before each merge. */
module HuffTree {
  import opened Arith
  import opened HuffCost
  import opened Lists

  /** `l` leaves and `k` inner nodes have been taken; `made` are the weights of the inner nodes. */
  datatype Queues = Queues(l: nat, k: nat, made: seq<nat>)

  predicate QueuesOk(w: seq<nat>, q: Queues) {
    q.l <= |w| && q.k <= |q.made|
  }

  predicate SomeLeft(w: seq<nat>, q: Queues) {
    QueuesOk(w, q) && (q.l < |w| || q.k < |q.made|)
  }

  /** An inner node goes first only if it is smaller than the next leaf. */
  predicate NodeFirst(w: seq<nat>, q: Queues)
    requires QueuesOk(w, q)
  {
    q.k < |q.made| && (q.l == |w| || q.made[q.k] < w[q.l])
  }

  function Front(w: seq<nat>, q: Queues): nat
    requires SomeLeft(w, q)
  {
    if NodeFirst(w, q) then q.made[q.k] else w[q.l]
  }

  function Next(w: seq<nat>, q: Queues): Queues
    requires SomeLeft(w, q)
  {
    if NodeFirst(w, q) then q.(k := q.k + 1) else q.(l := q.l + 1)
  }

  predicate TwoLeft(w: seq<nat>, q: Queues) {
    QueuesOk(w, q) && q.l + q.k + 2 <= |w| + |q.made|
  }

  function MergeSum(w: seq<nat>, q: Queues): nat
    requires TwoLeft(w, q)
  {
    Front(w, q) + Front(w, Next(w, q))
  }

  function Merge(w: seq<nat>, q: Queues): Queues
    requires TwoLeft(w, q)
  {
    var r := Next(w, Next(w, q));
    r.(made := q.made + [MergeSum(w, q)])
  }

  /** The queues after `e` merges. */
  function After(w: seq<nat>, e: nat): (q: Queues)
    requires e < |w|
    ensures QueuesOk(w, q) && q.l + q.k == 2 * e && |q.made| == e
    ensures e > 0 ==> q.k < e
  {
    if e == 0 then Queues(0, 0, []) else Merge(w, After(w, e - 1))
  }

  /** The weights that are left. */
  function Items(w: seq<nat>, q: Queues): seq<nat>
    requires QueuesOk(w, q)
  {
    w[q.l..] + q.made[q.k..]
  }

  /** One merge: leaves and nodes are taken one or two at a time, and a later state has what an earlier one had. */
  lemma MergeStep(w: seq<nat>, e: nat)
    requires e + 1 < |w|
    ensures var q, r := After(w, e), After(w, e + 1);
      && q.l <= r.l <= q.l + 2 && q.k <= r.k <= q.k + 2 && r.l + r.k == q.l + q.k + 2
      && r.made == q.made + [MergeSum(w, q)] && TwoLeft(w, q) && r == Merge(w, q)
  {}

  lemma {:induction false} AfterGrows(w: seq<nat>, e: nat, later: nat)
    requires e <= later < |w|
    ensures var q, r := After(w, e), After(w, later);
      q.l <= r.l && q.k <= r.k && q.made == r.made[..e]
    decreases later
  {
    if e < later {
      AfterGrows(w, e, later - 1);
      MergeStep(w, later - 1);
      var q, r := After(w, later - 1), After(w, later);
      assert r.made[..e] == q.made[..e];
    } else {
      assert After(w, e).made == After(w, e).made[..e];
    }
  }

  // ----- the two smallest -----

  ghost predicate AtLeastFrom(s: seq<nat>, from: nat, m: nat) { forall i :: from <= i < |s| ==> m <= s[i] }

  /** Both queues are sorted, everything left is at least the last item taken, and the last node is at most
      twice that. */
  ghost predicate Ordered(w: seq<nat>, q: Queues, last: nat) {
    && QueuesOk(w, q) && Sorted(w) && Sorted(q.made)
    && AtLeastFrom(w, q.l, last) && AtLeastFrom(q.made, q.k, last)
    && (q.made != [] ==> q.made[|q.made| - 1] <= 2 * last)
  }

  lemma SortedFrom(s: seq<nat>, from: nat)
    requires Sorted(s) && from < |s|
    ensures AtLeastFrom(s, from, s[from])
  {}

  lemma SmallerBound(s: seq<nat>, from: nat, m: nat, n: nat)
    requires AtLeastFrom(s, from, m) && n <= m
    ensures AtLeastFrom(s, from, n)
  {}

  lemma FrontIsSmallest(w: seq<nat>, q: Queues, last: nat)
    requires Ordered(w, q, last) && SomeLeft(w, q)
    ensures last <= Front(w, q)
    ensures AtLeastFrom(w, q.l, Front(w, q)) && AtLeastFrom(q.made, q.k, Front(w, q))
    ensures Ordered(w, Next(w, q), Front(w, q))
  {
    hide Sorted;
    var x := Front(w, q);
    if q.l < |w| {
      SortedFrom(w, q.l);
      SmallerBound(w, q.l, w[q.l], x);
    }
    if q.k < |q.made| {
      SortedFrom(q.made, q.k);
      SmallerBound(q.made, q.k, q.made[q.k], x);
    }
  }

  lemma SortedAppend(s: seq<nat>, x: nat)
    requires Sorted(s) && (s != [] ==> s[|s| - 1] <= x)
    ensures Sorted(s + [x])
  {}

  lemma MergeOrdered(w: seq<nat>, q: Queues, last: nat)
    requires Ordered(w, q, last) && TwoLeft(w, q)
    ensures Ordered(w, Merge(w, q), Front(w, Next(w, q)))
  {
    FrontIsSmallest(w, q, last);
    var m := Next(w, q);
    FrontIsSmallest(w, m, Front(w, q));
    hide Sorted;
    SortedAppend(q.made, MergeSum(w, q));
  }

  ghost function Last(w: seq<nat>, e: nat): nat
    requires e < |w|
  {
    if e == 0 then 0 else Front(w, Next(w, After(w, e - 1)))
  }

  lemma {:induction false} AfterOrdered(w: seq<nat>, e: nat)
    requires e < |w| && Sorted(w)
    ensures Ordered(w, After(w, e), Last(w, e))
  {
    if e > 0 {
      AfterOrdered(w, e - 1);
      MergeOrdered(w, After(w, e - 1), Last(w, e - 1));
    }
  }

  // ----- no prefix code is better -----

  /** The weights of the nodes that are made from merge `e` on. */
  ghost function Rest(w: seq<nat>, e: nat): nat
    requires e < |w|
  {
    Sum(After(w, |w| - 1).made[e..])
  }

  lemma RestStep(w: seq<nat>, e: nat)
    requires e + 1 < |w|
    ensures Rest(w, e) == MergeSum(w, After(w, e)) + Rest(w, e + 1)
  {
    hide After, Merge, MergeSum;
    var all := After(w, |w| - 1).made;
    MergeStep(w, e);
    AfterGrows(w, e + 1, |w| - 1);
    assert all[e..][1..] == all[e + 1..];
    assert all[e] == all[..e + 1][e];
  }

  /** What a merge takes away and adds. */
  lemma MergeItems(w: seq<nat>, q: Queues, bound: nat)
    requires TwoLeft(w, q)
    requires LowerBound([Front(w, q), Front(w, Next(w, q))] + Others(w, q), bound)
    ensures LowerBound(Items(w, q), bound)
  {
    hide LowerBound;
    var m := Next(w, q);
    var r := Next(w, m);
    var x, y := Front(w, q), Front(w, m);
    var a, b := w[r.l..], q.made[r.k..];
    assert [x, y] + Others(w, q) == [x, y] + a + b;
    if !NodeFirst(w, q) && !NodeFirst(w, m) {
      assert Items(w, q) == [x, y] + a + b;
    } else if !NodeFirst(w, q) {
      assert [x, y] + a + b == [x] + [y] + a + b;
      MoveBack([x], y, a, b, bound);
      assert Items(w, q) == [x] + a + [y] + b;
    } else if !NodeFirst(w, m) {
      assert [x, y] + a + b == [] + [x] + ([y] + a) + b;
      MoveBack([], x, [y] + a, b, bound);
      assert Items(w, q) == [] + ([y] + a) + [x] + b;
    } else {
      assert [x, y] + a + b == [x] + [y] + a + b;
      MoveBack([x], y, a, b, bound);
      assert [x] + a + [y] + b == [] + [x] + a + ([y] + b);
      MoveBack([], x, a, [y] + b, bound);
      assert Items(w, q) == [] + a + [x] + ([y] + b);
    }
  }

  /** What is left besides the two items of a merge. */
  ghost function Others(w: seq<nat>, q: Queues): seq<nat>
    requires TwoLeft(w, q)
  {
    var r := Next(w, Next(w, q));
    w[r.l..] + q.made[r.k..]
  }

  lemma OthersAreLarger(w: seq<nat>, q: Queues, last: nat)
    requires TwoLeft(w, q) && Ordered(w, q, last)
    ensures TwoSmallest(Front(w, q), Front(w, Next(w, q)), Others(w, q))
    ensures Items(w, Merge(w, q)) == Others(w, q) + [MergeSum(w, q)]
  {
    hide Sorted;
    var m := Next(w, q);
    var x, y := Front(w, q), Front(w, m);
    FrontIsSmallest(w, q, last);
    FrontIsSmallest(w, m, x);
    var r := Next(w, m);
    SliceAtLeast(w, r.l, m.l, y);
    SliceAtLeast(q.made, r.k, m.k, y);
    assert (q.made + [x + y])[r.k..] == q.made[r.k..] + [x + y];
  }

  lemma SliceAtLeast(s: seq<nat>, from: nat, before: nat, m: nat)
    requires before <= from <= |s| && AtLeastFrom(s, before, m)
    ensures AtLeast(s[from..], m)
  {}

  /** Every prefix code costs at least the weights of all inner nodes that are still to be made. */
  lemma {:induction false} RestIsLowerBound(w: seq<nat>, e: nat)
    requires e < |w| && Sorted(w)
    ensures LowerBound(Items(w, After(w, e)), Rest(w, e))
    decreases |w| - e
  {
    hide LowerBound, Sum, Front, NodeFirst, Sorted, Items, Others;
    var q := After(w, e);
    if e + 1 == |w| {
      assert After(w, |w| - 1).made[e..] == [];
      NothingToPay(Items(w, q));
      return;
    }
    MergeStep(w, e);
    AfterOrdered(w, e);
    RestIsLowerBound(w, e + 1);
    RestStep(w, e);
    OthersAreLarger(w, q, Last(w, e));
    JoinSmallest(Front(w, q), Front(w, Next(w, q)), Others(w, q), Rest(w, e + 1));
    MergeItems(w, q, Rest(w, e));
  }

  lemma NothingToPay(ws: seq<nat>)
    ensures LowerBound(ws, Sum([]))
  {}
}
