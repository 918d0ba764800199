/** Costs and Kraft sums do not depend on the order in which the symbols are listed. */
module HuffOrder {
  import opened Arith
  import opened Lists
  import opened HuffCost
  import opened HuffSort

  /** The entries of `x` at the listed places. */
  function Pick(x: seq<nat>, idx: seq<nat>): (s: seq<nat>)
    requires forall k :: 0 <= k < |idx| ==> idx[k] < |x|
    ensures |s| == |idx| && forall k :: 0 <= k < |s| ==> s[k] == x[idx[k]]
  {
    seq(|idx|, k requires 0 <= k < |idx| => x[idx[k]])
  }

  lemma PickAppend(x: seq<nat>, a: seq<nat>, b: seq<nat>)
    requires Inside(a, |x|) && Inside(b, |x|)
    ensures Inside(a + b, |x|) && Pick(x, a + b) == Pick(x, a) + Pick(x, b)
  {}

  /** The used symbols among the first `n`. */
  function UsedList(freqs: seq<nat>, n: nat): (idx: seq<nat>)
    requires n <= |freqs|
    ensures forall k :: 0 <= k < |idx| ==> idx[k] < n
  {
    if n == 0 then [] else
    UsedList(freqs, n - 1) + if freqs[n - 1] > 0 then [n - 1] else []
  }

  lemma {:induction false} UsedListHas(freqs: seq<nat>, n: nat)
    requires n <= |freqs|
    ensures Distinct(UsedList(freqs, n))
    ensures forall i: nat :: i in UsedList(freqs, n) <==> i < n && freqs[i] > 0
  {
    if n > 0 { UsedListHas(freqs, n - 1); }
  }

  /** The lengths of the used symbols. */
  function UsedLengths(freqs: seq<nat>, x: seq<nat>): (s: seq<nat>)
    requires |x| == |freqs|
  {
    Pick(x, UsedList(freqs, |freqs|))
  }

  lemma {:induction false} CostOfUsed(freqs: seq<nat>, x: seq<nat>, n: nat)
    requires |x| == |freqs| && n <= |freqs|
    ensures Cost(freqs[..n], x[..n]) == Cost(Pick(freqs, UsedList(freqs, n)), Pick(x, UsedList(freqs, n)))
  {
    hide Cost;
    if n > 0 {
      var m: nat := n - 1;
      CostOfUsed(freqs, x, m);
      assert freqs[..n] == freqs[..m] + [freqs[m]] && x[..n] == x[..m] + [x[m]];
      CostAppend(freqs[..m], [freqs[m]], x[..m], [x[m]]);
      CostOfSingle(freqs[m], x[m]);
      var u := UsedList(freqs, m);
      if freqs[m] > 0 {
        PickAppend(freqs, u, [m]);
        PickAppend(x, u, [m]);
        assert Pick(freqs, [m]) == [freqs[m]] && Pick(x, [m]) == [x[m]];
        CostAppend(Pick(freqs, u), [freqs[m]], Pick(x, u), [x[m]]);
      } else {
        assert u + [] == u;
      }
    } else {
      assert freqs[..0] == [] && x[..0] == [] && Pick(freqs, []) == [] && Pick(x, []) == [];
    }
  }

  lemma CostOfSingle(f: nat, l: nat)
    ensures Cost([f], [l]) == f * l
  {
    assert [f][1..] == [] == [l][1..];
    assert Cost([], []) == 0;
  }

  /** Two lists of the same places. */
  lemma {:induction false} OrderDoesNotMatter(f: seq<nat>, x: seq<nat>, s: seq<nat>, t: seq<nat>, m: nat)
    requires |f| == |x| && Inside(s, |f|) && Inside(t, |f|) && multiset(s) == multiset(t)
    ensures Cost(Pick(f, s), Pick(x, s)) == Cost(Pick(f, t), Pick(x, t))
    ensures Kraft(Pick(x, s), m) == Kraft(Pick(x, t), m)
    decreases |s|
  {
    hide *;
    if s == [] {
      NoMembers(s, t);
    } else {
      var a, s1 := s[0], s[1..];
      var t1, t2 := Around(t, a, s);
      FirstAway(s);
      Parts(t1, a, t2, |f|);
      Parts([], a, s1, |f|);
      OrderDoesNotMatter(f, x, s1, t1 + t2, m);
      Split(f, x, [], a, s1, m);
      Split(f, x, t1, a, t2, m);
    }
  }

  lemma NoMembers(s: seq<nat>, t: seq<nat>)
    requires multiset(s) == multiset(t) && s == []
    ensures t == []
  {
    assert |multiset(s)| == 0 && |multiset(t)| == |t|;
  }

  lemma FirstAway(s: seq<nat>)
    requires s != []
    ensures s == [] + [s[0]] + s[1..] && s[1..] == [] + s[1..]
    ensures multiset(s[1..]) == multiset(s) - multiset{s[0]}
  {
    assert s == [s[0]] + s[1..];
  }

  lemma Parts(t1: seq<nat>, a: nat, t2: seq<nat>, n: nat)
    requires Inside(t1 + [a] + t2, n)
    ensures Inside(t1, n) && Inside(t2, n) && a < n && Inside(t1 + t2, n)
  {
    var t := t1 + [a] + t2;
    assert t[|t1|] == a;
    forall k | 0 <= k < |t1| ensures t1[k] < n { assert t[k] == t1[k]; }
    forall k | 0 <= k < |t2| ensures t2[k] < n { assert t[|t1| + 1 + k] == t2[k]; }
  }

  lemma Around(t: seq<nat>, a: nat, s: seq<nat>) returns (t1: seq<nat>, t2: seq<nat>)
    requires multiset(s) == multiset(t) && s != [] && a == s[0]
    ensures t == t1 + [a] + t2 && multiset(t1 + t2) == multiset(t) - multiset{a}
  {
    assert a in s;
    assert a in multiset(t);
    var k :| 0 <= k < |t| && t[k] == a;
    t1, t2 := t[..k], t[k + 1..];
    assert t == t1 + [a] + t2;
    assert multiset(t) == multiset(t1) + multiset{a} + multiset(t2);
  }

  lemma Split(f: seq<nat>, x: seq<nat>, t1: seq<nat>, a: nat, t2: seq<nat>, m: nat)
    requires |f| == |x| && Inside(t1, |f|) && Inside(t2, |f|) && a < |f|
    ensures Inside(t1 + [a] + t2, |f|) && Inside(t1 + t2, |f|)
    ensures Cost(Pick(f, t1 + [a] + t2), Pick(x, t1 + [a] + t2))
      == Cost(Pick(f, t1 + t2), Pick(x, t1 + t2)) + Cost([f[a]], [x[a]])
    ensures Kraft(Pick(x, t1 + [a] + t2), m) == Kraft(Pick(x, t1 + t2), m) + Kraft([x[a]], m)
  {
    hide Cost, Kraft;
    PickAppend(f, t1 + [a], t2);
    PickAppend(x, t1 + [a], t2);
    PickAppend(f, t1, [a]);
    PickAppend(x, t1, [a]);
    PickAppend(f, t1, t2);
    PickAppend(x, t1, t2);
    assert Pick(f, [a]) == [f[a]] && Pick(x, [a]) == [x[a]];
    CostAppend(Pick(f, t1) + [f[a]], Pick(f, t2), Pick(x, t1) + [x[a]], Pick(x, t2));
    CostAppend(Pick(f, t1), [f[a]], Pick(x, t1), [x[a]]);
    CostAppend(Pick(f, t1), Pick(f, t2), Pick(x, t1), Pick(x, t2));
    KraftAppend(Pick(x, t1) + [x[a]], Pick(x, t2), m);
    KraftAppend(Pick(x, t1), [x[a]], m);
    KraftAppend(Pick(x, t1), Pick(x, t2), m);
  }

  lemma SameMembers(s: seq<nat>, t: seq<nat>)
    requires Distinct(s) && Distinct(t) && forall i: nat :: i in s <==> i in t
    ensures multiset(s) == multiset(t)
  {
    var a: multiset<nat>, b: multiset<nat> := multiset(s), multiset(t);
    forall i: nat ensures a[i] == b[i] {
      DistinctOnce(s, i);
      DistinctOnce(t, i);
    }
  }

  /** The first `num` places of the sorted list hold the used symbols. */
  lemma UsedComeFirst(freqs: seq<nat>, perm: seq<nat>, num: nat)
    requires Distinct(perm) && InOrder(freqs, perm, num)
    ensures multiset(perm[..num]) == multiset(UsedList(freqs, |freqs|)) && Inside(perm[..num], |freqs|)
  {
    hide UsedList;
    var first, used := perm[..num], UsedList(freqs, |freqs|);
    UsedListHas(freqs, |freqs|);
    forall i: nat
      ensures i in first <==> i in used
    {
      if i in used {
        AllListed(perm, |freqs|, i);
        var k :| 0 <= k < |perm| && perm[k] == i;
        assert k < num;
        assert first[k] == i;
      }
    }
    SameMembers(first, used);
  }

  /** No prefix code for the used symbols has a smaller total length. */
  ghost predicate Optimal(freqs: seq<nat>, lens: seq<nat>)
    requires |lens| == |freqs|
  {
    forall x: seq<nat>, m: nat :: |x| == |freqs| && PrefixLengths(UsedLengths(freqs, x), m) ==>
      Cost(freqs, lens) <= Cost(freqs, x)
  }

  lemma InListOrder(freqs: seq<nat>, perm: seq<nat>, num: nat, x: seq<nat>, m: nat)
    requires Distinct(perm) && InOrder(freqs, perm, num) && |x| == |freqs|
    ensures Inside(perm[..num], |freqs|)
    ensures Cost(freqs, x) == Cost(Pick(freqs, perm[..num]), Pick(x, perm[..num]))
    ensures Kraft(UsedLengths(freqs, x), m) == Kraft(Pick(x, perm[..num]), m)
    ensures AtMost(UsedLengths(freqs, x), m) ==> AtMost(Pick(x, perm[..num]), m)
  {
    hide Cost, Kraft, UsedList;
    UsedComeFirst(freqs, perm, num);
    var u, s := UsedList(freqs, |freqs|), perm[..num];
    CostOfUsed(freqs, x, |freqs|);
    assert freqs[..|freqs|] == freqs && x[..|x|] == x;
    OrderDoesNotMatter(freqs, x, u, s, m);
    if AtMost(UsedLengths(freqs, x), m) { SameBound(x, u, s, m); }
  }

  lemma SameBound(x: seq<nat>, u: seq<nat>, s: seq<nat>, m: nat)
    requires Inside(u, |x|) && Inside(s, |x|) && multiset(u) == multiset(s) && AtMost(Pick(x, u), m)
    ensures AtMost(Pick(x, s), m)
  {
    forall k | 0 <= k < |s|
      ensures Pick(x, s)[k] <= m
    {
      assert s[k] in multiset(u);
      var j :| 0 <= j < |u| && u[j] == s[k];
      assert Pick(x, u)[j] <= m;
    }
  }

  lemma OptimalInAnyOrder(freqs: seq<nat>, perm: seq<nat>, num: nat, lens: seq<nat>)
    requires Distinct(perm) && InOrder(freqs, perm, num) && |lens| == |freqs| && Inside(perm[..num], |freqs|)
    requires LowerBound(Pick(freqs, perm[..num]), Cost(Pick(freqs, perm[..num]), Pick(lens, perm[..num])))
    ensures Optimal(freqs, lens)
  {
    hide Cost, Kraft, Pick, UsedLengths, LowerBound, AtMost;
    InListOrder(freqs, perm, num, lens, 0);
    forall x: seq<nat>, m: nat | |x| == |freqs| && PrefixLengths(UsedLengths(freqs, x), m)
      ensures Cost(freqs, lens) <= Cost(freqs, x)
    {
      InListOrder(freqs, perm, num, x, m);
      Bounds(Pick(freqs, perm[..num]), Cost(freqs, lens), Pick(x, perm[..num]), m);
    }
  }
}
