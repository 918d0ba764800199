/** The encoder's 33-bit `low`, its cached byte and the run of 0xFF bytes behind it, as one exact number. */
module Bcj2Carry {
  import opened Arith
  import opened BitModel
  import opened Bcj2Range

  /** `out` has been written; `cache` and `size - 1` bytes 0xFF wait for a possible carry out of `low`. */
  datatype Tail = Tail(out: seq<Byte>, cache: Byte, size: nat, low: nat)

  function Carry(t: Tail): nat { if t.low >= WORD then 1 else 0 }

  function Low32(t: Tail): nat { if t.low >= WORD then Minus(t.low, WORD) else t.low }

  /** The first waiting byte, and the value of those behind it, once the carry is taken in. */
  function First(t: Tail): Byte { (t.cache + Carry(t)) % 256 }

  function Behind(t: Tail): nat
    requires t.size > 0
  {
    if Carry(t) == 1 then 0 else Pow256(t.size - 1) - 1
  }

  /** The bytes written and waiting, as a number. */
  function Digits(t: Tail): nat
    requires t.size > 0
  {
    Num(t.out) * Pow256(t.size) + First(t) * Pow256(t.size - 1) + Behind(t)
  }

  /** The tail stands for `total`, and a carry from anything up to `total + range` stops inside it. */
  ghost predicate Rep(t: Tail, total: nat, range: nat) {
    && t.size > 0 && range > 0
    && t.low + range <= 2 * WORD
    && total == Digits(t) * WORD + Low32(t)
    && total + range <= (Num(t.out) + 1) * Pow256(t.size) * WORD
  }

  lemma RepStart()
    ensures Rep(Tail([], 0, 1, 0), 0, 0xFFFF_FFFF)
  {
    assert Pow256(1) == 256 * Pow256(0) == 256;
  }

  lemma SameLow(t: Tail, u: Tail)
    requires t.low == u.low
    ensures Low32(t) == Low32(u) && Carry(t) == Carry(u)
  {}

  lemma RepPositive(t: Tail, total: nat, range: nat)
    requires Rep(t, total, range)
    ensures t.size > 0 && range > 0 && t.low < 2 * WORD
  {}

  lemma RepShrinks(t: Tail, total: nat, range: nat, smaller: nat)
    requires Rep(t, total, range) && 0 < smaller <= range
    ensures Rep(t, total, smaller)
  {}

  /** A carry is only possible while the cached byte can take it. */
  lemma CacheTakesCarry(t: Tail, total: nat, range: nat, low: nat)
    requires Rep(t, total, range) && t.low < WORD <= low < t.low + range
    ensures t.cache < 255
  {
    if t.cache == 255 {
      var q := Pow256(t.size - 1);
      FullDigits(Num(t.out), q);
    }
  }

  lemma FullDigits(n: nat, q: nat)
    requires q > 0
    ensures n * (256 * q) + 255 * q + (q - 1) + 1 == (n + 1) * (256 * q)
  {}

  /** Adding to `low` within the range. */
  lemma RepAdd(t: Tail, total: nat, range: nat, add: nat)
    requires Rep(t, total, range) && add < range
    ensures Rep(t.(low := t.low + add), total + add, range - add)
  {
    var u := t.(low := t.low + add);
    hide Num, Pow256;
    if t.low < WORD && u.low >= WORD {
      CacheTakesCarry(t, total, range, u.low);
      OneMore(Num(t.out) * Pow256(t.size), t.cache, Pow256(t.size - 1));
      assert Digits(u) == Digits(t) + 1;
      hide Digits;
      MulSucc(Digits(t), WORD);
    } else {
      assert Digits(u) == Digits(t);
    }
  }

  lemma OneMore(n: nat, c: nat, q: nat)
    requires q > 0
    ensures n + (c + 1) * q == n + c * q + (q - 1) + 1
  {}

  /** One waiting byte goes out, carry included. The next one is 0xFF, or 0 with the carry. */
  lemma RepEmit(t: Tail, total: nat, range: nat)
    requires Rep(t, total, range) && t.size > 1 && Low32(t) + range <= WORD
    ensures Rep(Tail(t.out + [First(t)], 255, t.size - 1, t.low), total, range)
  {
    var u := Tail(t.out + [First(t)], 255, t.size - 1, t.low);
    assert u.out[..|t.out|] == t.out;
    assert Num(u.out) == 256 * Num(t.out) + First(t);
    var q := Pow256(t.size - 2);
    Regroup(Num(t.out), First(t), q);
    assert Digits(u) == Digits(t);
    assert Digits(u) + 1 <= (Num(u.out) + 1) * Pow256(u.size) by { DigitsFit(u); }
    MulMono(Digits(u) + 1, (Num(u.out) + 1) * Pow256(u.size), WORD);
    MulSucc(Digits(u), WORD);
  }

  lemma Regroup(n: nat, f: nat, q: nat)
    ensures n * (256 * (256 * q)) + f * (256 * q) == (256 * n + f) * (256 * q)
    ensures (256 * n + f) * (256 * q) + 255 * q + q == (256 * n + f + 1) * (256 * q)
  {}

  lemma DigitsFit(t: Tail)
    requires t.size > 0
    ensures Digits(t) + 1 <= (Num(t.out) + 1) * Pow256(t.size)
  {
    var q := Pow256(t.size - 1);
    MulMono(First(t), 255, q);
    FullDigits(Num(t.out), q);
  }

  /** The last waiting byte goes out and the top byte of `low` takes its place. */
  lemma RepLast(t: Tail, total: nat, range: nat)
    requires Rep(t, total, range) && t.size == 1 && range <= TOP && Low32(t) + range <= WORD
    ensures Rep(Tail(t.out + [First(t)], Low32(t) / TOP % 256, 1, Low32(t) * 256 % WORD), 256 * total, 256 * range)
  {
    var l := Low32(t);
    var u := Tail(t.out + [First(t)], l / TOP % 256, 1, l * 256 % WORD);
    assert u.out[..|t.out|] == t.out;
    assert Num(u.out) == 256 * Num(t.out) + First(t);
    assert Pow256(1) == 256 * Pow256(0) == 256;
    assert Digits(t) == Num(u.out);
    assert l == (l / TOP) * TOP + l % TOP && l / TOP < 256;
    assert l * 256 == (l / TOP) * WORD + (l % TOP) * 256;
    assert l * 256 % WORD == (l % TOP) * 256;
  }

  lemma RepWait(t: Tail, total: nat, range: nat)
    requires Rep(t, total, range) && range <= TOP && 0xFF00_0000 <= t.low < WORD
    ensures Rep(Tail(t.out, t.cache, t.size + 1, t.low * 256 % WORD), 256 * total, 256 * range)
  {
    var u := Tail(t.out, t.cache, t.size + 1, t.low * 256 % WORD);
    assert t.low * 256 == 255 * WORD + (t.low - 0xFF00_0000) * 256;
    assert u.low == (t.low - 0xFF00_0000) * 256;
    WaitDigits(Num(t.out), Pow256(t.size), t.cache, Pow256(t.size - 1));
    assert Digits(u) == 256 * Digits(t) + 255;
    assert Pow256(u.size) == 256 * Pow256(t.size);
    hide Pow256, Digits, Num;
    Scale(Num(t.out) + 1, Pow256(t.size));
  }

  lemma Scale(n: nat, p: nat)
    ensures n * (256 * p) * WORD == 256 * (n * p * WORD)
  {}

  lemma WaitDigits(n: nat, p: nat, c: nat, q: nat)
    requires q > 0
    ensures n * (256 * p) + c * (256 * q) + (256 * q - 1) == 256 * (n * p + c * q + (q - 1)) + 255
  {}

  /** When a whole shift is allowed to write, the interval clears the boundary of the bytes written. */
  lemma Clears(t: Tail, total: nat, range: nat)
    requires Rep(t, total, range) && range <= TOP && (t.low < 0xFF00_0000 || t.low >= WORD)
    ensures Low32(t) + range <= WORD
  {}

  /** Five shifts after the last bit write the number out, and nothing is left waiting. */
  lemma FlushedIsWritten(t: Tail, total: nat, n: nat)
    requires Rep(t, total * Pow256(5), 1) && t.size == 1 && t.cache == 0 && t.low == 0
    requires |t.out| == n && total < Pow256(n)
    ensures t.out == Big(total, n)
  {
    assert Pow256(5) == 256 * WORD by {
      assert Pow256(2) == 0x1_0000; Pow256Split(2, 3); assert Pow256(3) == 0x100_0000;
    }
    assert Pow256(1) == 256 * Pow256(0) == 256;
    NumOfBig(total, n);
    NumDetermines(t.out, Big(total, n));
  }
}
