/** Canonical codes: those of one length are consecutive, in the order of the symbols, and start behind those
    that are shorter. No code is the beginning of another one. */
module HuffCode {
  import opened Arith
  import opened HuffCost
  import opened HuffLimit

  /** The first code of length `l`. */
  function FirstCode(cnt: seq<nat>, l: nat): nat
    requires l <= |cnt|
  {
    if l == 0 then 0 else 2 * (FirstCode(cnt, l - 1) + cnt[l - 1])
  }

  /** How many symbols before `i` have the same length. */
  function Rank(lens: seq<nat>, i: nat): nat
    requires i < |lens|
  {
    multiset(lens[..i])[lens[i]]
  }

  function Code(cnt: seq<nat>, lens: seq<nat>, i: nat): nat
    requires i < |lens| && lens[i] < |cnt|
  {
    FirstCode(cnt, lens[i]) + Rank(lens, i)
  }

  /** The counters are right for the used symbols, and Kraft's inequality holds. */
  ghost predicate CodeOk(cnt: seq<nat>, lens: seq<nat>, m: nat) {
    && m < |cnt| && AtMost(lens, m) && cnt[0] == 0
    && (forall l :: 1 <= l <= m ==> cnt[l] == multiset(lens)[l])
    && KraftOf(cnt, m, m + 1) <= Pow2(m)
  }

  lemma RankBelowCount(lens: seq<nat>, i: nat)
    requires i < |lens|
    ensures Rank(lens, i) < multiset(lens)[lens[i]]
  {
    assert lens == lens[..i] + [lens[i]] + lens[i + 1..];
    assert multiset(lens) == multiset(lens[..i]) + multiset([lens[i]]) + multiset(lens[i + 1..]);
  }

  lemma RankGrows(lens: seq<nat>, i: nat, j: nat)
    requires i < j < |lens| && lens[i] == lens[j]
    ensures Rank(lens, i) < Rank(lens, j)
  {
    RankBelowCount(lens[..j], i);
    assert lens[..j][..i] == lens[..i];
  }

  /** Longer codes start behind all extensions of shorter ones. */
  lemma {:induction false} FirstCodeBehind(cnt: seq<nat>, l: nat, d: nat)
    requires l + 1 + d <= |cnt|
    ensures FirstCode(cnt, l + 1 + d) >= (FirstCode(cnt, l) + cnt[l]) * Pow2(1 + d)
    decreases d
  {
    var f := FirstCode(cnt, l) + cnt[l];
    if d == 0 {
      assert Pow2(1) == 2 * Pow2(0) == 2;
    } else {
      FirstCodeBehind(cnt, l, d - 1);
      assert f * Pow2(1 + d) == 2 * (f * Pow2(d));
    }
  }

  /** The codes up to length `l` use exactly their share. */
  lemma {:induction false} CodesUse(cnt: seq<nat>, m: nat, l: nat)
    requires l <= m < |cnt|
    ensures (FirstCode(cnt, l) + cnt[l]) * Pow2(m - l) == KraftOf(cnt, m, l + 1)
    decreases l
  {
    hide Pow2;
    var p := Pow2(m - l);
    if l == 0 {
      assert KraftOf(cnt, m, 0) == 0;
    } else {
      CodesUse(cnt, m, l - 1);
      Pow2Next(m - l, m - (l - 1));
      var f := FirstCode(cnt, l - 1) + cnt[l - 1];
      assert f * (2 * p) == (2 * f) * p;
      Distribute(2 * f, cnt[l], p);
    }
  }

  lemma {:induction false} KraftGrows(cnt: seq<nat>, m: nat, n: nat, k: nat)
    requires n <= k <= |cnt| && k <= m + 1
    ensures KraftOf(cnt, m, n) <= KraftOf(cnt, m, k)
    decreases k
  {
    if n < k { KraftGrows(cnt, m, n, k - 1); }
  }

  /** A code has as many bits as its length says. */
  lemma CodeFits(cnt: seq<nat>, lens: seq<nat>, m: nat, i: nat)
    requires CodeOk(cnt, lens, m) && i < |lens| && lens[i] > 0
    ensures Code(cnt, lens, i) < Pow2(lens[i])
    ensures Code(cnt, lens, i) < FirstCode(cnt, lens[i]) + cnt[lens[i]]
  {
    var l := lens[i];
    RankBelowCount(lens, i);
    CodesUse(cnt, m, l);
    KraftGrows(cnt, m, l + 1, m + 1);
    Pow2Split(l, m - l);
    assert l + (m - l) == m;
    if FirstCode(cnt, l) + cnt[l] > Pow2(l) {
      MulMono(Pow2(l) + 1, FirstCode(cnt, l) + cnt[l], Pow2(m - l));
      MulSucc(Pow2(l), Pow2(m - l));
    }
  }

  /** No code is a beginning of another one. */
  lemma PrefixFree(cnt: seq<nat>, lens: seq<nat>, m: nat, i: nat, j: nat)
    requires CodeOk(cnt, lens, m) && i < |lens| && j < |lens| && i != j && 0 < lens[i] <= lens[j]
    ensures Code(cnt, lens, j) / Pow2(lens[j] - lens[i]) != Code(cnt, lens, i)
  {
    CodeFits(cnt, lens, m, i);
    if lens[i] == lens[j] {
      if i < j { RankGrows(lens, i, j); } else { RankGrows(lens, j, i); }
      assert Pow2(0) == 1;
    } else {
      FirstCodeBehind(cnt, lens[i], lens[j] - lens[i] - 1);
      var p, f := Pow2(lens[j] - lens[i]), FirstCode(cnt, lens[i]) + cnt[lens[i]];
      assert Code(cnt, lens, j) >= f * p;
      hide *;
      QuotientAtLeast(Code(cnt, lens, j), f, p);
    }
  }
}
