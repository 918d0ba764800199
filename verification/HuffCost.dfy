/** Lengths of prefix codes, their cost, and the step at the heart of Huffman's theorem: joining the two
    smallest weights loses nothing. */
module HuffCost {
  import opened Arith

  function Sum(s: seq<nat>): nat {
    if s == [] then 0 else s[0] + Sum(s[1..])
  }

  /** The total length of all code words, each counted as often as its weight says. */
  function Cost(ws: seq<nat>, ls: seq<nat>): nat
    requires |ws| == |ls|
  {
    if ws == [] then 0 else ws[0] * ls[0] + Cost(ws[1..], ls[1..])
  }

  ghost predicate AtMost(s: seq<nat>, m: nat) { forall i :: 0 <= i < |s| ==> s[i] <= m }

  ghost predicate AtLeast(s: seq<nat>, m: nat) { forall i :: 0 <= i < |s| ==> m <= s[i] }

  /** The share of code words of length `m` that code words of these lengths cover. */
  function Kraft(ls: seq<nat>, m: nat): nat {
    if ls == [] then 0 else (if ls[0] <= m then Pow2(m - ls[0]) else 0) + Kraft(ls[1..], m)
  }

  /** The lengths of some prefix code, by Kraft's inequality. */
  ghost predicate PrefixLengths(ls: seq<nat>, m: nat) {
    AtMost(ls, m) && Kraft(ls, m) <= Pow2(m)
  }

  /** No prefix code for these weights costs less than `c`. */
  ghost predicate LowerBound(ws: seq<nat>, c: nat) {
    forall ls: seq<nat>, m: nat :: |ls| == |ws| && PrefixLengths(ls, m) ==> Cost(ws, ls) >= c
  }

  // ----- sums over concatenations -----

  lemma {:induction false} SumAppend(a: seq<nat>, b: seq<nat>)
    ensures Sum(a + b) == Sum(a) + Sum(b)
  {
    if a == [] {
      assert a + b == b;
    } else {
      assert (a + b)[1..] == a[1..] + b;
      SumAppend(a[1..], b);
    }
  }

  lemma {:induction false} CostAppend(u: seq<nat>, v: seq<nat>, a: seq<nat>, b: seq<nat>)
    requires |u| == |a| && |v| == |b|
    ensures Cost(u + v, a + b) == Cost(u, a) + Cost(v, b)
  {
    if a == [] {
      assert a + b == b && u + v == v;
    } else {
      assert (a + b)[1..] == a[1..] + b && (u + v)[1..] == u[1..] + v;
      CostAppend(u[1..], v, a[1..], b);
    }
  }

  lemma {:induction false} KraftAppend(a: seq<nat>, b: seq<nat>, m: nat)
    ensures Kraft(a + b, m) == Kraft(a, m) + Kraft(b, m)
  {
    if a == [] {
      assert a + b == b;
    } else {
      assert (a + b)[1..] == a[1..] + b;
      KraftAppend(a[1..], b, m);
    }
  }

  lemma {:induction false} ElementBelowSum(s: seq<nat>, i: nat)
    requires i < |s|
    ensures s[i] <= Sum(s)
  {
    if i > 0 { ElementBelowSum(s[1..], i - 1); }
  }

  /** Seen from a longest word, the share is smaller by a power of two. */
  lemma {:induction false} KraftScale(ls: seq<nat>, m: nat, n: nat)
    requires AtMost(ls, n) && n <= m
    ensures Kraft(ls, m) == Kraft(ls, n) * Pow2(m - n)
  {
    hide Pow2;
    if ls != [] {
      KraftScale(ls[1..], m, n);
      Pow2Split(n - ls[0], m - n);
      Distribute(Pow2(n - ls[0]), Kraft(ls[1..], n), Pow2(m - n));
      assert n - ls[0] + (m - n) == m - ls[0];
    }
  }

  lemma Distribute(a: nat, b: nat, q: nat)
    ensures (a + b) * q == a * q + b * q
  {}

  // ----- exchanging two words -----

  lemma {:induction false} CostUpdate(ws: seq<nat>, ls: seq<nat>, k: nat, l: nat)
    requires |ws| == |ls| && k < |ls|
    ensures Cost(ws, ls[k := l]) + ws[k] * ls[k] == Cost(ws, ls) + ws[k] * l
  {
    var next := ls[k := l];
    if k > 0 {
      CostUpdate(ws[1..], ls[1..], k - 1, l);
      assert next[1..] == ls[1..][k - 1 := l];
    } else {
      assert next[1..] == ls[1..];
    }
  }

  lemma {:induction false} KraftUpdate(ls: seq<nat>, m: nat, k: nat, l: nat)
    requires k < |ls| && AtMost(ls, m) && l <= m
    ensures Kraft(ls[k := l], m) + Pow2(m - ls[k]) == Kraft(ls, m) + Pow2(m - l)
    ensures AtMost(ls[k := l], m)
  {
    var next := ls[k := l];
    if k > 0 {
      KraftUpdate(ls[1..], m, k - 1, l);
      assert next[1..] == ls[1..][k - 1 := l];
    } else {
      assert next[1..] == ls[1..];
    }
  }

  lemma {:induction false} SumUpdate(ls: seq<nat>, k: nat, l: nat)
    requires k < |ls|
    ensures Sum(ls[k := l]) + ls[k] == Sum(ls) + l
  {
    var next := ls[k := l];
    if k > 0 {
      SumUpdate(ls[1..], k - 1, l);
      assert next[1..] == ls[1..][k - 1 := l];
    } else {
      assert next[1..] == ls[1..];
    }
  }

  /** Giving the longer word to the smaller weight does not cost more. */
  lemma Exchange(ws: seq<nat>, ls: seq<nat>, i: nat, k: nat, m: nat)
    requires |ws| == |ls| && i < |ls| && k < |ls| && i != k && PrefixLengths(ls, m)
    requires ws[i] <= ws[k] && ls[i] <= ls[k]
    ensures var next := ls[i := ls[k]][k := ls[i]];
      PrefixLengths(next, m) && Cost(ws, next) <= Cost(ws, ls) && Sum(next) == Sum(ls)
  {
    var mid := ls[i := ls[k]];
    CostUpdate(ws, ls, i, ls[k]);
    CostUpdate(ws, mid, k, ls[i]);
    KraftUpdate(ls, m, i, ls[k]);
    KraftUpdate(mid, m, k, ls[i]);
    SumUpdate(ls, i, ls[k]);
    SumUpdate(mid, k, ls[i]);
    Rearranged(ws[i], ws[k], ls[i], ls[k]);
  }

  lemma Rearranged(u: nat, v: nat, a: nat, b: nat)
    requires u <= v && a <= b
    ensures u * b + v * a <= u * a + v * b
  {
    MulMono(u, v, b - a);
    assert u * b == u * a + u * (b - a) && v * b == v * a + v * (b - a);
    assert (b - a) * u == u * (b - a);
  }

  // ----- a single longest word can be shortened -----

  lemma Shorten(ws: seq<nat>, ls: seq<nat>, i: nat, m: nat)
    requires |ws| == |ls| && i < |ls| && PrefixLengths(ls, m) && ls[i] > 0
    requires forall k :: 0 <= k < |ls| && k != i ==> ls[k] < ls[i]
    ensures var next := ls[i := ls[i] - 1];
      PrefixLengths(next, m) && Cost(ws, next) <= Cost(ws, ls) && Sum(next) == Sum(ls) - 1
  {
    hide Kraft, Pow2, Cost, Sum;
    var n := ls[i] - 1;
    var next := ls[i := n];
    assert AtMost(next, n);
    KraftUpdate(ls, m, i, n);
    CostUpdate(ws, ls, i, n);
    MulMono(n, n + 1, ws[i]);
    SumUpdate(ls, i, n);
    KraftScale(next, m, n);
    Pow2Split(n, m - n);
    assert n + (m - n) == m;
    var u := Pow2(m - ls[i]);
    Pow2Next(m - ls[i], m - n);
    NoOddRoom(Kraft(next, n), Pow2(n), u);
  }

  lemma Pow2Next(a: nat, b: nat)
    requires b == a + 1
    ensures Pow2(b) == 2 * Pow2(a)
  {}

  lemma NoOddRoom(t: nat, p: nat, u: nat)
    requires u > 0 && t * (2 * u) - u <= p * (2 * u)
    ensures t * (2 * u) <= p * (2 * u)
  {
    if t > p {
      MulMono(p + 1, t, 2 * u);
      MulSucc(p, 2 * u);
    }
  }

  // ----- joining the two smallest weights -----

  ghost predicate TwoSmallest(x: nat, y: nat, rest: seq<nat>) {
    AtLeast(rest, x) && AtLeast(rest, y)
  }

  lemma Bounds(ws: seq<nat>, c: nat, ls: seq<nat>, m: nat)
    requires LowerBound(ws, c) && |ls| == |ws| && PrefixLengths(ls, m)
    ensures Cost(ws, ls) >= c
  {}

  /** Two words of the same, greatest length are joined. */
  lemma Join(x: nat, y: nat, rest: seq<nat>, ls: seq<nat>, c: nat, m: nat)
    requires |ls| == |rest| + 2 && PrefixLengths(ls, m) && LowerBound(rest + [x + y], c)
    requires ls[0] == ls[1]
    ensures Cost([x, y] + rest, ls) >= c + x + y
  {
    hide Kraft, Pow2, Cost, LowerBound;
    var l, lr := ls[0], ls[2..];
    assert ls == [l, l] + lr && AtMost(lr, m);
    KraftAppend([l, l], lr, m);
    if l == 0 {
      KraftOfTwo(l, l, m);
    } else {
      var up: nat := l - 1;
      var joined := lr + [up];
      KraftAppend(lr, [up], m);
      KraftOfTwo(l, up, m);
      CostAppend([x, y], rest, [l, l], lr);
      CostAppend(rest, [x + y], lr, [up]);
      CostOfTwo(x, y, l, up);
      assert AtMost(joined, m);
      Bounds(rest + [x + y], c, joined, m);
    }
  }

  lemma KraftOfTwo(l: nat, up: nat, m: nat)
    requires l <= m && up <= l <= up + 1
    ensures Kraft([l, l], m) == 2 * Pow2(m - l) && Pow2(m) > 0
    ensures l == up + 1 ==> Kraft([up], m) == Kraft([l, l], m)
  {
    assert [l, l][1..] == [l] && [l][1..] == [] == [up][1..];
    assert Kraft([], m) == 0;
    assert Kraft([l], m) == Pow2(m - l) && Kraft([up], m) == Pow2(m - up);
    assert Kraft([l, l], m) == Pow2(m - l) + Kraft([l], m);
    if l == up + 1 { Pow2Next(m - l, m - up); }
  }

  lemma CostOfTwo(x: nat, y: nat, l: nat, up: nat)
    requires l == up + 1
    ensures Cost([x, y], [l, l]) == Cost([x + y], [up]) + x + y
  {
    assert [x, y][1..] == [y] && [l, l][1..] == [l] && [y][1..] == [l][1..] == [x + y][1..] == [up][1..] == [];
    assert Cost([y], [l]) == y * l + Cost([], []) && Cost([x + y], [up]) == (x + y) * up + Cost([], []);
    assert Cost([x, y], [l, l]) == x * l + Cost([y], [l]);
    assert x * l + y * l == (x + y) * up + x + y;
  }

  /** For all prefix lengths: by exchanging and shortening, the two smallest weights get the same greatest length. */
  lemma {:induction false} SmallestAreSiblings(x: nat, y: nat, rest: seq<nat>, ls: seq<nat>, c: nat, m: nat)
    requires |ls| == |rest| + 2 && PrefixLengths(ls, m) && LowerBound(rest + [x + y], c) && TwoSmallest(x, y, rest)
    ensures Cost([x, y] + rest, ls) >= c + x + y
    decreases Sum(ls), 2 * m - ls[0] - ls[1]
  {
    hide Kraft, Cost, Sum, Pow2, LowerBound;
    var ws := [x, y] + rest;
    if k :| 2 <= k < |ls| && ls[k] > ls[0] {
      Exchange(ws, ls, 0, k, m);
      SmallestAreSiblings(x, y, rest, ls[0 := ls[k]][k := ls[0]], c, m);
    } else if k :| 2 <= k < |ls| && ls[k] > ls[1] {
      Exchange(ws, ls, 1, k, m);
      SmallestAreSiblings(x, y, rest, ls[1 := ls[k]][k := ls[1]], c, m);
    } else if ls[0] == ls[1] {
      Join(x, y, rest, ls, c, m);
    } else {
      var i := if ls[0] > ls[1] then 0 else 1;
      Shorten(ws, ls, i, m);
      SmallestAreSiblings(x, y, rest, ls[i := ls[i] - 1], c, m);
    }
  }

  lemma JoinSmallest(x: nat, y: nat, rest: seq<nat>, c: nat)
    requires LowerBound(rest + [x + y], c) && TwoSmallest(x, y, rest)
    ensures LowerBound([x, y] + rest, c + x + y)
  {
    hide Kraft, Cost, PrefixLengths;
    forall ls: seq<nat>, m: nat | |ls| == |[x, y] + rest| && PrefixLengths(ls, m)
      ensures Cost([x, y] + rest, ls) >= c + x + y
    {
      SmallestAreSiblings(x, y, rest, ls, c, m);
    }
  }

  /** The order of the weights does not matter: `x` may stand behind `a`. */
  lemma MoveBack(p: seq<nat>, x: nat, a: seq<nat>, b: seq<nat>, c: nat)
    requires LowerBound(p + [x] + a + b, c)
    ensures LowerBound(p + a + [x] + b, c)
  {
    hide Cost, Kraft;
    forall ls: seq<nat>, m: nat | |ls| == |p + a + [x] + b| && PrefixLengths(ls, m)
      ensures Cost(p + a + [x] + b, ls) >= c
    {
      var i, j := |p|, |p| + |a|;
      var lp, la, l, lb := ls[..i], ls[i..j], ls[j], ls[j + 1..];
      assert ls == lp + la + [l] + lb;
      SameTotals(p, x, a, b, lp, l, la, lb, m);
      var moved := lp + [l] + la + lb;
      assert AtMost(moved, m);
      Bounds(p + [x] + a + b, c, moved, m);
    }
  }

  lemma SameTotals(p: seq<nat>, x: nat, a: seq<nat>, b: seq<nat>, lp: seq<nat>, l: nat, la: seq<nat>, lb: seq<nat>,
                   m: nat)
    requires |p| == |lp| && |a| == |la| && |b| == |lb|
    ensures Cost(p + a + [x] + b, lp + la + [l] + lb) == Cost(p + [x] + a + b, lp + [l] + la + lb)
    ensures Kraft(lp + la + [l] + lb, m) == Kraft(lp + [l] + la + lb, m)
  {
    hide Cost, Kraft;
    CostAppend(p + a + [x], b, lp + la + [l], lb);
    CostAppend(p + a, [x], lp + la, [l]);
    CostAppend(p, a, lp, la);
    CostAppend(p + [x] + a, b, lp + [l] + la, lb);
    CostAppend(p + [x], a, lp + [l], la);
    CostAppend(p, [x], lp, [l]);
    KraftAppend(lp + la + [l], lb, m);
    KraftAppend(lp + la, [l], m);
    KraftAppend(lp, la, m);
    KraftAppend(lp + [l] + la, lb, m);
    KraftAppend(lp + [l], la, m);
    KraftAppend(lp, [l], m);
  }
}
