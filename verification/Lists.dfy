/** Lists of numbers in order, and of different numbers. */
module Lists {
  ghost predicate Sorted(s: seq<nat>) { forall i, j | 0 <= i <= j < |s| :: s[i] <= s[j] }

  ghost predicate Distinct(s: seq<nat>) { forall x, y :: 0 <= x < y < |s| ==> s[x] != s[y] }

  ghost predicate Inside(s: seq<nat>, n: nat) { forall k :: 0 <= k < |s| ==> s[k] < n }

  /** There are at most `n` different numbers below `n`. */
  lemma {:induction false} AtMostSoMany(s: seq<nat>, n: nat)
    requires Distinct(s) && Inside(s, n)
    ensures |s| <= n
    decreases n
  {
    var first := if s == [] then 0 else s[0];
    assert s == [] || first < n;
    if n == 0 {
    } else if k :| 0 <= k < |s| && s[k] == n - 1 {
      AtMostSoMany(s[..k] + s[k + 1..], n - 1);
    } else {
      AtMostSoMany(s, n - 1);
    }
  }

  /** Among `n` different numbers below `n` there is every number. */
  lemma AllListed(perm: seq<nat>, n: nat, i: nat)
    requires Distinct(perm) && |perm| == n && Inside(perm, n) && i < n
    ensures i in perm
  {
    if i !in perm { AtMostSoMany(perm + [i], n); }
  }

  lemma {:induction false} DistinctOnce(s: seq<nat>, i: nat)
    requires Distinct(s)
    ensures multiset(s)[i] == if i in s then 1 else 0
  {
    if s != [] {
      var n := |s| - 1;
      assert s == s[..n] + [s[n]];
      DistinctOnce(s[..n], i);
    }
  }

  lemma Twice(t: seq<nat>, x: nat, y: nat)
    requires x < y < |t| && t[x] == t[y]
    ensures multiset(t)[t[y]] >= 2
  {
    assert t == t[..y] + ([t[y]] + t[y + 1..]);
    assert t[..y][x] == t[y];
  }

  /** Putting different numbers into another order leaves them different. */
  lemma StaysDistinct(s: seq<nat>, t: seq<nat>)
    requires Distinct(s) && multiset(s) == multiset(t)
    ensures Distinct(t)
  {
    forall x, y | 0 <= x < y < |t| ensures t[x] != t[y] {
      DistinctOnce(s, t[y]);
      if t[x] == t[y] { Twice(t, x, y); }
    }
  }
}
