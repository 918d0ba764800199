/** Levels in the tree of two queues, read from the root down: unfolding node `b` turns its level `k` into two
    levels `k + 1`, which undoes merge `b`. */
module HuffLevels {
  import opened Arith
  import opened HuffCost
  import opened HuffTree

  function LeavesBefore(w: seq<nat>, e: nat): nat
    requires e < |w|
  {
    After(w, e).l
  }

  function NodesBefore(w: seq<nat>, e: nat): (k: nat)
    requires e < |w|
    ensures e > 0 ==> k < e
  {
    After(w, e).k
  }

  lemma AllTaken(w: seq<nat>)
    requires |w| >= 2
    ensures NodesBefore(w, |w| - 1) == |w| - 2 && LeavesBefore(w, |w| - 1) == |w|
  {}

  /** The node that takes node `j`. */
  function ParentFrom(w: seq<nat>, j: nat, e: nat): (p: nat)
    requires e + 1 < |w| && NodesBefore(w, e) <= j < |w| - 2
    ensures e <= p && p + 1 < |w| && NodesBefore(w, p) <= j < NodesBefore(w, p + 1) && j < p
    decreases |w| - e
  {
    AllTaken(w);
    if j < NodesBefore(w, e + 1) then e else ParentFrom(w, j, e + 1)
  }

  function Parent(w: seq<nat>, j: nat): (p: nat)
    requires j + 2 < |w|
    ensures p + 1 < |w| && NodesBefore(w, p) <= j < NodesBefore(w, p + 1) && j < p
  {
    ParentFrom(w, j, 0)
  }

  lemma ParentIs(w: seq<nat>, j: nat, e: nat)
    requires e + 1 < |w| && NodesBefore(w, e) <= j < NodesBefore(w, e + 1)
    ensures j + 2 < |w| && Parent(w, j) == e
  {
    AfterGrows(w, e + 1, |w| - 1);
    AllTaken(w);
    hide After;
    var p := Parent(w, j);
    if p < e { AfterGrows(w, p + 1, e); }
    if p > e { AfterGrows(w, e + 1, p); }
  }

  /** The distance of node `j` from the root, node `|w| - 2`. */
  function LevelOf(w: seq<nat>, j: nat): nat
    requires j + 1 < |w|
    decreases |w| - j
  {
    if j + 2 == |w| then 0 else LevelOf(w, Parent(w, j)) + 1
  }

  lemma LevelStep(w: seq<nat>, j: nat)
    requires j + 1 < |w|
    ensures j + 2 == |w| ==> LevelOf(w, j) == 0
    ensures j + 2 < |w| ==> LevelOf(w, j) == LevelOf(w, Parent(w, j)) + 1
  {}

  lemma ParentsGrow(w: seq<nat>, i: nat, j: nat)
    requires i <= j && j + 2 < |w|
    ensures Parent(w, i) <= Parent(w, j)
  {
    hide After, ParentFrom;
    var p, r := Parent(w, i), Parent(w, j);
    if p > r { AfterGrows(w, r + 1, p); }
  }

  lemma {:induction false} LevelsFall(w: seq<nat>, i: nat, j: nat)
    requires i <= j && j + 1 < |w|
    ensures LevelOf(w, i) >= LevelOf(w, j)
    decreases |w| - i
  {
    hide *;
    LevelStep(w, i);
    LevelStep(w, j);
    if i < j && j + 2 < |w| {
      ParentsGrow(w, i, j);
      LevelsFall(w, Parent(w, i), Parent(w, j));
    }
  }

  function Rep(x: nat, n: nat): (s: seq<nat>)
    ensures |s| == n && forall i :: 0 <= i < n ==> s[i] == x
  {
    if n == 0 then [] else [x] + Rep(x, n - 1)
  }

  /** Levels of the leaves that are taken by the nodes from `b` on. */
  function LeafLevels(w: seq<nat>, b: nat): (s: seq<nat>)
    requires b < |w| && |w| >= 2
    ensures |s| == |w| - LeavesBefore(w, b)
    decreases |w| - b
  {
    AllTaken(w);
    if b + 1 == |w| then [] else
    MergeStep(w, b);
    Rep(LevelOf(w, b) + 1, LeavesBefore(w, b + 1) - LeavesBefore(w, b)) + LeafLevels(w, b + 1)
  }

  /** Levels of the nodes from `i` to `j`. */
  function NodeLevels(w: seq<nat>, i: nat, j: nat): (s: seq<nat>)
    requires i <= j < |w|
    ensures |s| == j - i
    decreases j
  {
    if i == j then [] else NodeLevels(w, i, j - 1) + [LevelOf(w, j - 1)]
  }

  /** Levels of what is left before merge `b`. */
  function Levels(w: seq<nat>, b: nat): (s: seq<nat>)
    requires b < |w| && |w| >= 2
    ensures |s| == |w| - b
  {
    LeafLevels(w, b) + NodeLevels(w, NodesBefore(w, b), b)
  }

  lemma NodeLevelsStep(w: seq<nat>, i: nat, j: nat)
    requires i < j < |w|
    ensures NodeLevels(w, i, j) == NodeLevels(w, i, j - 1) + [LevelOf(w, j - 1)]
    ensures NodeLevels(w, i, i) == NodeLevels(w, j, j) == []
  {
    hide LevelOf;
  }

  lemma {:induction false} NodeLevelsSplit(w: seq<nat>, i: nat, k: nat, j: nat)
    requires i <= k <= j < |w|
    ensures NodeLevels(w, i, j) == NodeLevels(w, i, k) + NodeLevels(w, k, j)
    decreases j
  {
    hide *;
    if k < j {
      NodeLevelsSplit(w, i, k, j - 1);
      NodeLevelsStep(w, i, j);
      NodeLevelsStep(w, k, j);
    } else {
      assert NodeLevels(w, k, j) == [];
    }
  }

  lemma {:induction false} RepAppend(x: nat, n: nat)
    ensures Rep(x, n) + [x] == Rep(x, n + 1)
  {
    assert Rep(x, n) + [x] == Rep(x, n + 1);
  }

  lemma {:induction false} ChildLevels(w: seq<nat>, e: nat, i: nat, j: nat)
    requires e + 1 < |w| && NodesBefore(w, e) <= i <= j <= NodesBefore(w, e + 1) <= |w| - 2
    ensures NodeLevels(w, i, j) == Rep(LevelOf(w, e) + 1, j - i)
    decreases j
  {
    hide *;
    if i < j {
      NodeLevelsStep(w, i, j);
      ChildLevels(w, e, i, j - 1);
      ParentIs(w, j - 1, e);
      LevelStep(w, j - 1);
      RepAppend(LevelOf(w, e) + 1, j - 1 - i);
    } else {
      assert Rep(LevelOf(w, e) + 1, 0) == [];
    }
  }

  lemma LeafLevelsStep(w: seq<nat>, b: nat, d: nat)
    requires b + 1 < |w| && d == LeavesBefore(w, b + 1) - LeavesBefore(w, b)
    ensures LeafLevels(w, b) == Rep(LevelOf(w, b) + 1, d) + LeafLevels(w, b + 1)
  {
    hide After, LevelOf;
  }

  lemma LevelsAre(w: seq<nat>, b: nat)
    requires b < |w| && |w| >= 2
    ensures Levels(w, b) == LeafLevels(w, b) + NodeLevels(w, NodesBefore(w, b), b)
  {}

  lemma TakenCounts(w: seq<nat>, b: nat)
    requires b + 1 < |w|
    ensures var dl, dk := LeavesBefore(w, b + 1) - LeavesBefore(w, b), NodesBefore(w, b + 1) - NodesBefore(w, b);
      dl >= 0 && dk >= 0 && dl + dk == 2 && NodesBefore(w, b + 1) <= |w| - 2
  {
    MergeStep(w, b);
    AllTaken(w);
    AfterGrows(w, b + 1, |w| - 1);
    hide After;
  }

  /** Unfolding node `b`. */
  lemma Unfold(w: seq<nat>, b: nat)
    requires b + 1 < |w|
    ensures var dl, dk := LeavesBefore(w, b + 1) - LeavesBefore(w, b), NodesBefore(w, b + 1) - NodesBefore(w, b);
      var x, y, k := LeafLevels(w, b + 1), NodeLevels(w, NodesBefore(w, b + 1), b), LevelOf(w, b);
      && dl >= 0 && dk >= 0 && dl + dk == 2
      && Levels(w, b + 1) == x + y + [k]
      && Levels(w, b) == Rep(k + 1, dl) + x + Rep(k + 1, dk) + y
  {
    hide *;
    TakenCounts(w, b);
    var i, j := NodesBefore(w, b), NodesBefore(w, b + 1);
    LeafLevelsStep(w, b, LeavesBefore(w, b + 1) - LeavesBefore(w, b));
    NodeLevelsSplit(w, i, j, b);
    ChildLevels(w, b, i, j);
    NodeLevelsStep(w, j, b + 1);
    LevelsAre(w, b);
    LevelsAre(w, b + 1);
  }

  // ----- the cost -----

  lemma {:induction false} CostOfRep(ws: seq<nat>, x: nat)
    ensures Cost(ws, Rep(x, |ws|)) == Sum(ws) * x
  {
    if ws != [] {
      assert Rep(x, |ws|)[1..] == Rep(x, |ws| - 1);
      CostOfRep(ws[1..], x);
      assert (ws[0] + Sum(ws[1..])) * x == ws[0] * x + Sum(ws[1..]) * x;
    }
  }

  /** The weights of the two children. */
  lemma TakenSum(w: seq<nat>, q: Queues)
    requires TwoLeft(w, q)
    ensures var r := Merge(w, q);
      q.l <= r.l <= |w| && q.k <= r.k <= |q.made| && Sum(w[q.l..r.l]) + Sum(q.made[q.k..r.k]) == MergeSum(w, q)
  {
    var m := Next(w, q);
    var r := Next(w, m);
    assert Sum([]) == 0;
    SumOfSome(w, q.l, r.l);
    SumOfSome(q.made, q.k, r.k);
  }

  lemma SumOfSome(s: seq<nat>, i: nat, j: nat)
    requires i <= j <= |s|
    ensures i == j ==> Sum(s[i..j]) == 0
    ensures i + 1 == j ==> Sum(s[i..j]) == s[i]
    ensures i + 2 == j ==> Sum(s[i..j]) == s[i] + s[i + 1]
  {
    if i + 1 == j { assert s[i..j] == [s[i]]; SumOfTwo(s[i], s[i]); }
    if i + 2 == j { assert s[i..j] == [s[i], s[i + 1]]; SumOfTwo(s[i], s[i + 1]); }
  }

  lemma SumOfTwo(x: nat, y: nat)
    ensures Sum([x, y]) == x + y && Sum([x]) == x
  {
    assert [x, y][1..] == [y] && [x][1..] == [] == [y][1..];
    assert Sum([y]) == y + Sum([]);
  }

  /** With the levels of the tree, what is left costs exactly the weights of the nodes still to be made. */
  lemma {:induction false} LevelsCostRest(w: seq<nat>, b: nat)
    requires b < |w| && |w| >= 2
    ensures |Levels(w, b)| == |Items(w, After(w, b))|
    ensures Cost(Items(w, After(w, b)), Levels(w, b)) == Rest(w, b)
    decreases |w| - b
  {
    hide After, Merge, Cost, Sum, LeafLevels, NodeLevels, LevelOf, Rep, MergeSum, Rest, Levels, Parent;
    var q := After(w, b);
    if b + 1 == |w| {
      RootCosts(w);
      return;
    }
    var r := After(w, b + 1);
    LevelsCostRest(w, b + 1);
    RestStep(w, b);
    Unfold(w, b);
    MergeStep(w, b);
    TakenSum(w, q);
    var x, y, k := LeafLevels(w, b + 1), NodeLevels(w, NodesBefore(w, b + 1), b), LevelOf(w, b);
    SplitCost(w, q, r, MergeSum(w, q), x, y, k, Levels(w, b), Levels(w, b + 1));
  }

  lemma RootCosts(w: seq<nat>)
    requires |w| >= 2
    ensures Cost(Items(w, After(w, |w| - 1)), Levels(w, |w| - 1)) == Rest(w, |w| - 1)
  {
    hide After, Cost, Sum, LevelOf, NodeLevels;
    var b := |w| - 1;
    AllTaken(w);
    RootLevels(w);
    assert After(w, b).made[b..] == [];
    var x := After(w, b).made[b - 1];
    assert Items(w, After(w, b)) == [x] && Levels(w, b) == [0];
    CostOfOne(x, 0);
    SumOfSome([], 0, 0);
  }

  lemma SplitCost(w: seq<nat>, q: Queues, r: Queues, sum: nat, x: seq<nat>, y: seq<nat>, k: nat,
                  lev: seq<nat>, next: seq<nat>)
    requires q.l <= r.l <= |w| && q.k <= r.k <= |q.made| && |x| == |w| - r.l && |y| == |q.made| - r.k
    requires Sum(w[q.l..r.l]) + Sum(q.made[q.k..r.k]) == sum && r.made == q.made + [sum]
    requires next == x + y + [k] && lev == Rep(k + 1, r.l - q.l) + x + Rep(k + 1, r.k - q.k) + y
    ensures |Items(w, q)| == |lev| && |Items(w, r)| == |next|
    ensures Cost(Items(w, q), lev) == Cost(Items(w, r), next) + sum
  {
    hide Cost, Sum, Rep;
    var a0, a, b0, b := w[q.l..r.l], w[r.l..], q.made[q.k..r.k], q.made[r.k..];
    SliceSplit(w, q.l, r.l);
    SliceSplit(q.made, q.k, r.k);
    SliceAppend(q.made, r.k, sum);
    assert a0 + a + b0 + b == (a0 + a) + (b0 + b);
    assert a + b + [sum] == a + (b + [sum]);
    CostOfParts(a0, a, b0, b, x, y, k);
  }

  lemma SliceSplit(s: seq<nat>, i: nat, j: nat)
    requires i <= j <= |s|
    ensures s[i..] == s[i..j] + s[j..]
  {}

  lemma SliceAppend(s: seq<nat>, j: nat, x: nat)
    requires j <= |s|
    ensures (s + [x])[j..] == s[j..] + [x]
  {}

  lemma CostOfParts(a0: seq<nat>, a: seq<nat>, b0: seq<nat>, b: seq<nat>, x: seq<nat>, y: seq<nat>, k: nat)
    requires |x| == |a| && |y| == |b|
    ensures var sum := Sum(a0) + Sum(b0);
      Cost(a0 + a + b0 + b, Rep(k + 1, |a0|) + x + Rep(k + 1, |b0|) + y) == Cost(a + b + [sum], x + y + [k]) + sum
  {
    hide Cost, Sum, Rep;
    var r0, r1 := Rep(k + 1, |a0|), Rep(k + 1, |b0|);
    var sum := Sum(a0) + Sum(b0);
    CostAppend(a0 + a + b0, b, r0 + x + r1, y);
    CostAppend(a0 + a, b0, r0 + x, r1);
    CostAppend(a0, a, r0, x);
    CostAppend(a + b, [sum], x + y, [k]);
    CostAppend(a, b, x, y);
    CostOfRep(a0, k + 1);
    CostOfRep(b0, k + 1);
    CostOfOne(sum, k);
    Distribute(Sum(a0), Sum(b0), k + 1);
    MulSucc(k, sum);
  }

  lemma CostOfOne(x: nat, k: nat)
    ensures Cost([x], [k]) == x * k
  {
    assert [x][1..] == [] == [k][1..];
    assert Cost([], []) == 0;
  }

  // ----- order and number of the levels -----

  ghost predicate Falling(s: seq<nat>) { forall i, j :: 0 <= i <= j < |s| ==> s[i] >= s[j] }

  lemma FallingAppend(x: nat, n: nat, s: seq<nat>)
    requires Falling(s) && AtMost(s, x)
    ensures Falling(Rep(x, n) + s) && AtMost(Rep(x, n) + s, x)
  {}

  lemma {:induction false} LeafLevelsFall(w: seq<nat>, b: nat)
    requires b < |w| && |w| >= 2
    ensures Falling(LeafLevels(w, b))
    ensures b + 1 < |w| ==> AtMost(LeafLevels(w, b), LevelOf(w, b) + 1)
    decreases |w| - b
  {
    hide *;
    if b + 1 < |w| {
      LeafLevelsFall(w, b + 1);
      TakenCounts(w, b);
      var k, d := LevelOf(w, b) + 1, LeavesBefore(w, b + 1) - LeavesBefore(w, b);
      LeafLevelsStep(w, b, d);
      LeafLevelsBound(w, b);
      FallingAppend(k, d, LeafLevels(w, b + 1));
    } else {
      AllTaken(w);
      NoneFall(LeafLevels(w, b));
    }
  }

  lemma LeafLevelsBound(w: seq<nat>, b: nat)
    requires b + 1 < |w| && (b + 2 < |w| ==> AtMost(LeafLevels(w, b + 1), LevelOf(w, b + 1) + 1))
    ensures AtMost(LeafLevels(w, b + 1), LevelOf(w, b) + 1)
  {
    hide After, LevelOf, LeafLevels;
    if b + 2 < |w| { LevelsFall(w, b, b + 1); } else { AllTaken(w); }
  }

  lemma NoneFall(s: seq<nat>)
    requires s == []
    ensures Falling(s)
  {}

  lemma RepMultiset(x: nat, n: nat)
    ensures multiset(Rep(x, n)) == multiset{}[x := n]
  {
    if n > 0 {
      RepMultiset(x, n - 1);
      assert multiset([x] + Rep(x, n - 1)) == multiset([x]) + multiset(Rep(x, n - 1));
    }
  }

  /** In numbers: a level is replaced by two levels below it. */
  lemma UnfoldCounts(w: seq<nat>, b: nat, l: nat)
    requires b + 1 < |w|
    ensures var k := LevelOf(w, b);
      && multiset(Levels(w, b + 1))[k] > 0
      && multiset(Levels(w, b))[l] == multiset(Levels(w, b + 1))[l] - (if l == k then 1 else 0)
                                             + (if l == k + 1 then 2 else 0)
  {
    hide *;
    Unfold(w, b);
    var dl, dk := LeavesBefore(w, b + 1) - LeavesBefore(w, b), NodesBefore(w, b + 1) - NodesBefore(w, b);
    var x, y, k := LeafLevels(w, b + 1), NodeLevels(w, NodesBefore(w, b + 1), b), LevelOf(w, b);
    CountsOfParts(x, y, k, dl, dk, l, Levels(w, b), Levels(w, b + 1));
  }

  lemma CountsOfParts(x: seq<nat>, y: seq<nat>, k: nat, dl: nat, dk: nat, l: nat, lev: seq<nat>, next: seq<nat>)
    requires dl + dk == 2 && next == x + y + [k] && lev == Rep(k + 1, dl) + x + Rep(k + 1, dk) + y
    ensures multiset(next)[k] > 0
    ensures multiset(lev)[l] == multiset(next)[l] - (if l == k then 1 else 0) + (if l == k + 1 then 2 else 0)
  {
    hide Rep;
    RepMultiset(k + 1, dl);
    RepMultiset(k + 1, dk);
    assert multiset(next) == multiset(x) + multiset(y) + multiset([k]);
    assert multiset(lev) == multiset(Rep(k + 1, dl)) + multiset(x) + multiset(Rep(k + 1, dk)) + multiset(y);
  }

  lemma RootLevels(w: seq<nat>)
    requires |w| >= 2
    ensures Levels(w, |w| - 1) == [0]
  {
    hide LevelOf, NodeLevels;
    var b := |w| - 1;
    AllTaken(w);
    LevelStep(w, b - 1);
    NodeLevelsStep(w, b - 1, b);
  }

  lemma LeafLevelsAtStart(w: seq<nat>)
    requires |w| >= 2
    ensures Levels(w, 0) == LeafLevels(w, 0) && Falling(Levels(w, 0)) && Items(w, After(w, 0)) == w
  {
    hide *;
    LeafLevelsFall(w, 0);
    AtStart(w);
    LevelsAre(w, 0);
    NodeLevelsStep(w, 0, 1);
  }

  lemma AtStart(w: seq<nat>)
    requires |w| >= 1
    ensures After(w, 0) == Queues(0, 0, []) && Items(w, After(w, 0)) == w && NodesBefore(w, 0) == 0
  {
  }
}
