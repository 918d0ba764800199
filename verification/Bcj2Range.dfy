/** The BCJ2 range coder as exact arithmetic: an interval of unbounded integers that shrinks with every bit
    and grows by a byte with every normalisation. What the encoder writes is the lower end of the final
    interval, and the decoder's `code` is the distance from its own lower end. */
module Bcj2Range {
  import opened Arith
  import opened BitModel

  const NUM_PROBS := 258

  /** The value of a byte sequence, most significant byte first. */
  function Num(bs: seq<Byte>): nat {
    if bs == [] then 0 else 256 * Num(bs[..|bs| - 1]) + bs[|bs| - 1]
  }

  /** The `n` bytes of a number. */
  function Big(x: nat, n: nat): (bs: seq<Byte>)
    ensures |bs| == n
  {
    if n == 0 then [] else Big(x / 256, n - 1) + [x % 256]
  }

  lemma {:induction false} NumOfBig(x: nat, n: nat)
    requires x < Pow256(n)
    ensures Num(Big(x, n)) == x
  {
    if n > 0 {
      assert x / 256 < Pow256(n - 1);
      NumOfBig(x / 256, n - 1);
      assert Big(x, n)[..n - 1] == Big(x / 256, n - 1);
    }
  }

  lemma {:induction false} NumBounded(bs: seq<Byte>)
    ensures Num(bs) < Pow256(|bs|)
  {
    if bs != [] { NumBounded(bs[..|bs| - 1]); }
  }

  lemma {:induction false} NumDetermines(a: seq<Byte>, b: seq<Byte>)
    requires |a| == |b| && Num(a) == Num(b)
    ensures a == b
  {
    if a != [] {
      var n := |a| - 1;
      assert a[n] == Num(a) % 256 && b[n] == Num(b) % 256;
      NumDetermines(a[..n], b[..n]);
      assert a == a[..n] + [a[n]] && b == b[..n] + [b[n]];
    }
  }

  lemma {:induction false} NumAppend(a: seq<Byte>, b: seq<Byte>)
    ensures Num(a + b) == Num(a) * Pow256(|b|) + Num(b)
    decreases |b|
  {
    if b == [] {
      assert a + b == a;
    } else {
      var m := |b| - 1;
      NumAppend(a, b[..m]);
      assert (a + b)[..|a + b| - 1] == a + b[..m];
      AppendStep(Num(a), Pow256(m), Num(b[..m]), b[m]);
    }
  }

  lemma AppendStep(a: nat, p: nat, b: nat, c: nat)
    ensures 256 * (a * p + b) + c == a * (256 * p) + (256 * b + c)
  {}

  // ----- the encoder -----

  /** The interval [low, low + range), counted in units of the last byte after `k` normalisations. */
  datatype Coder = Coder(low: nat, range: nat, k: nat, probs: seq<Prob>)

  ghost predicate CoderOk(c: Coder) {
    TOP <= c.range < WORD && |c.probs| == NUM_PROBS
  }

  function Start(): Coder { Coder(0, 0xFFFF_FFFF, 0, seq(NUM_PROBS, i => PROB_INIT)) }

  function Split(range: nat, p: Prob): nat {
    range / 2048 * p
  }

  function Put(c: Coder, i: nat, bit: nat): Coder
    requires CoderOk(c) && i < NUM_PROBS
  {
    var bound := Split(c.range, c.probs[i]);
    var probs := c.probs[i := Adapt(c.probs[i], bit)];
    if bit == 0 then Coder(c.low, bound, c.k, probs) else Coder(c.low + bound, Minus(c.range, bound), c.k, probs)
  }

  function Norm(c: Coder): Coder {
    if c.range < TOP then Coder(256 * c.low, 256 * c.range, c.k + 1, c.probs) else c
  }

  function PutBit(c: Coder, i: nat, bit: nat): Coder
    requires CoderOk(c) && i < NUM_PROBS
  {
    Norm(Put(c, i, bit))
  }

  lemma SplitFits(range: nat, p: Prob)
    requires TOP <= range
    ensures 0x1_0000 <= Split(range, p) && Split(range, p) + 0x1_0000 <= range
  {
    var q := range / 2048;
    assert q >= 8192;
    MulMono(31, p, q);
    MulMono(p, 2017, q);
    assert q * p == p * q;
  }

  /** A reachable probability leaves both parts of the range large enough for one normalisation. */
  lemma PutKeeps(c: Coder, i: nat, bit: nat)
    requires CoderOk(c) && i < NUM_PROBS
    ensures CoderOk(PutBit(c, i, bit))
    ensures Put(c, i, bit).range >= 0x1_0000
  {
    SplitFits(c.range, c.probs[i]);
  }

  /** Interval `e` lies inside interval `c`, seen at the resolution of `e`. */
  ghost predicate Inside(c: Coder, e: Coder) {
    e.k >= c.k && c.low * Pow256(e.k - c.k) <= e.low
    && e.low + e.range <= (c.low + c.range) * Pow256(e.k - c.k)
  }

  lemma InsideSelf(c: Coder)
    ensures Inside(c, c)
  {}

  lemma InsideTransitive(a: Coder, b: Coder, c: Coder)
    requires Inside(a, b) && Inside(b, c)
    ensures Inside(a, c)
  {
    Pow256Split(b.k - a.k, c.k - b.k);
    Chain(a.low, Pow256(b.k - a.k), b.low, Pow256(c.k - b.k), c.low);
    ChainUp(a.low + a.range, Pow256(b.k - a.k), b.low + b.range, Pow256(c.k - b.k), c.low + c.range);
  }

  lemma Chain(x: nat, p: nat, y: nat, q: nat, z: nat)
    requires x * p <= y && y * q <= z
    ensures x * (p * q) <= z
  {
    MulMono(x * p, y, q);
    assert x * (p * q) == x * p * q;
  }

  lemma ChainUp(x: nat, p: nat, y: nat, q: nat, z: nat)
    requires y <= x * p && z <= y * q
    ensures z <= x * (p * q)
  {
    MulMono(y, x * p, q);
    assert x * (p * q) == x * p * q;
  }

  lemma NormInside(c: Coder, e: Coder)
    requires Inside(Norm(c), e)
    ensures Inside(c, e)
  {
    assert Pow256(1) == 256 * Pow256(0) == 256;
    assert Inside(c, Norm(c));
    InsideTransitive(c, Norm(c), e);
  }

  /** A bit keeps the interval inside, and on its own side of the split. */
  lemma PutInside(c: Coder, i: nat, bit: nat, e: Coder)
    requires CoderOk(c) && i < NUM_PROBS && Inside(PutBit(c, i, bit), e)
    ensures Inside(c, e)
    ensures var bound := Split(c.range, c.probs[i]);
      if bit == 0 then e.low + e.range <= (c.low + bound) * Pow256(e.k - c.k)
      else (c.low + bound) * Pow256(e.k - c.k) <= e.low
  {
    SplitFits(c.range, c.probs[i]);
    var m := Put(c, i, bit);
    NormInside(m, e);
    assert Inside(c, m) by { assert Pow256(0) == 1; }
    InsideTransitive(c, m, e);
  }

  // ----- the decoder -----

  /** `k` bytes beyond the first five have been read. */
  datatype Decoder = Decoder(range: nat, code: nat, k: nat, probs: seq<Prob>)

  /** What the encoder writes for a final interval. */
  function Written(e: Coder): seq<Byte> { Big(e.low, e.k + 5) }

  ghost predicate Follows(d: Decoder, c: Coder, rc: seq<Byte>) {
    && d.range == c.range && d.probs == c.probs && d.k == c.k && 5 + d.k <= |rc|
    && d.code + c.low == Num(rc[..5 + d.k])
  }

  function GetBit(d: Decoder, i: nat): nat
    requires i < |d.probs|
  {
    if d.code < Split(d.range, d.probs[i]) then 0 else 1
  }

  function Take(d: Decoder, i: nat): Decoder
    requires i < |d.probs|
  {
    var bound := Split(d.range, d.probs[i]);
    var probs := d.probs[i := Adapt(d.probs[i], GetBit(d, i))];
    if d.code < bound then Decoder(bound, d.code, d.k, probs)
    else Decoder(Minus(d.range, bound), d.code - bound, d.k, probs)
  }

  function Refill(d: Decoder, rc: seq<Byte>): Decoder
    requires d.range < TOP ==> 5 + d.k < |rc|
  {
    if d.range < TOP then Decoder(256 * d.range, 256 * d.code + rc[5 + d.k], d.k + 1, d.probs) else d
  }

  /** The leading bytes of what is written. */
  lemma {:induction false} BigPrefix(x: nat, m: nat, j: nat)
    ensures Big(x, m + j)[..m] == Big(x / Pow256(j), m)
    decreases j
  {
    if j == 0 {
      assert Big(x, m)[..m] == Big(x, m);
    } else {
      BigPrefix(x / 256, m, j - 1);
      assert Big(x, m + j)[..m] == Big(x / 256, m + j - 1)[..m];
      DivTwice(x, Pow256(j - 1));
    }
  }

  lemma DivTwice(x: nat, p: nat)
    requires p > 0
    ensures x / 256 / p == x / (256 * p)
  {
    var q := x / 256 / p;
    assert q * p <= x / 256 < q * p + p;
    assert q * (256 * p) == 256 * (q * p);
    DivUnique(x, q, 256 * p);
  }

  lemma WrittenQuotient(e: Coder, k: nat)
    requires k <= e.k && e.low < Pow256(e.k + 5)
    ensures Num(Written(e)[..5 + k]) == e.low / Pow256(e.k - k)
  {
    BigQuotient(e.low, 5 + k, e.k - k);
    hide Num, Pow256, Big;
    assert e.k + 5 == 5 + k + (e.k - k);
  }

  lemma BigQuotient(x: nat, m: nat, j: nat)
    requires x < Pow256(m + j)
    ensures Num(Big(x, m + j)[..m]) == x / Pow256(j)
  {
    BigPrefix(x, m, j);
    Pow256Split(m, j);
    hide Big, Num, Pow256;
    QuotientBelow(x, Pow256(m), Pow256(j));
    NumOfBig(x / Pow256(j), m);
  }

  /** Seen through the bytes read so far, the final interval lies in the decoder's interval: `code` is in
      range, and compares with the split as the encoder's bit says. */
  lemma WrittenBounds(c: Coder, e: Coder, bound: nat)
    requires Inside(c, e) && e.range > 0 && e.low < Pow256(e.k + 5)
    ensures var v := Num(Written(e)[..5 + c.k]);
      && c.low <= v < c.low + c.range
      && (e.low + e.range <= (c.low + bound) * Pow256(e.k - c.k) ==> v < c.low + bound)
      && ((c.low + bound) * Pow256(e.k - c.k) <= e.low ==> c.low + bound <= v)
  {
    WrittenQuotient(e, c.k);
    hide Pow256, Num, Written;
    QuotientBetween(e.low, c.low, Pow256(e.k - c.k));
    QuotientBetween(e.low, c.low + c.range, Pow256(e.k - c.k));
    QuotientBetween(e.low, c.low + bound, Pow256(e.k - c.k));
  }

  lemma QuotientBetween(x: nat, a: nat, p: nat)
    requires p > 0
    ensures x < a * p ==> x / p < a
    ensures a * p <= x ==> a <= x / p
  {
    if x < a * p { QuotientBelow(x, a, p); }
    if a * p <= x { QuotientAtLeast(x, a, p); }
  }

  lemma NumStep(rc: seq<Byte>, n: nat)
    requires n < |rc|
    ensures Num(rc[..n + 1]) == 256 * Num(rc[..n]) + rc[n]
  {
    assert rc[..n + 1][..n] == rc[..n];
  }

  /** The decoder, following the encoder, gets the bit that was put and follows on. */
  lemma TakesWhatWasPut(d: Decoder, c: Coder, i: nat, bit: nat, e: Coder)
    requires CoderOk(c) && i < NUM_PROBS && bit < 2 && Follows(d, c, Written(e))
    requires Inside(PutBit(c, i, bit), e) && e.range > 0 && e.low < Pow256(e.k + 5)
    ensures GetBit(d, i) == bit
    ensures Take(d, i).range < TOP ==> 5 + d.k < |Written(e)|
    ensures Follows(Refill(Take(d, i), Written(e)), PutBit(c, i, bit), Written(e))
    ensures d.code < d.range
  {
    var bound := Split(c.range, c.probs[i]);
    SplitFits(c.range, c.probs[i]);
    PutInside(c, i, bit, e);
    WrittenBounds(c, e, bound);
    assert PutBit(c, i, bit).k <= e.k;
    hide Pow256, Num, Split, Inside;
    if Take(d, i).range < TOP { NumStep(Written(e), 5 + d.k); }
  }
}
