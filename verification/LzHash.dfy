/** The hash functions of the four-byte binary-tree finder. The masks are all ones, so masking is a
    remainder; exclusive or is taken bit by bit. */
module LzHash {
  import opened Arith
  import opened BitModel

  const HASH2_SIZE := 0x400
  const HASH3_SIZE := 0x1_0000
  const FIX3_HASH_SIZE := HASH2_SIZE
  const FIX4_HASH_SIZE := HASH2_SIZE + HASH3_SIZE
  const CRC_FACTOR_1 := 32

  type CrcTable = t: seq<Word> | |t| == 256 witness seq(256, i => 0)

  function Xor(a: nat, b: nat): nat
    decreases a + b
  {
    if a == 0 && b == 0 then 0 else (a % 2 + b % 2) % 2 + 2 * Xor(a / 2, b / 2)
  }

  function Hash2(crc: CrcTable, b0: Byte, b1: Byte): (h: nat)
    ensures h < HASH2_SIZE
  {
    Xor(crc[b0], b1) % HASH2_SIZE
  }

  function Hash3(crc: CrcTable, b0: Byte, b1: Byte, b2: Byte): (h: nat)
    ensures h < HASH3_SIZE
  {
    Xor(Xor(crc[b0], b1), 0x100 * b2) % HASH3_SIZE
  }

  /** `size` is one more than the hash mask. */
  function Hash4(crc: CrcTable, size: nat, b0: Byte, b1: Byte, b2: Byte, b3: Byte): (h: nat)
    requires size > 0
    ensures h < size
  {
    Xor(Xor(Xor(crc[b0], b1), 0x100 * b2), CRC_FACTOR_1 * crc[b3]) % size
  }

  lemma HalfMod(x: nat, k: nat)
    requires k > 0
    ensures Pow2(k) == 2 * Pow2(k - 1) && x % Pow2(k) == x % 2 + 2 * (x / 2 % Pow2(k - 1))
  {
    var q := x / 2 / Pow2(k - 1);
    var m := x / 2 % Pow2(k - 1);
    assert x / 2 == q * Pow2(k - 1) + m;
    assert q * Pow2(k) == 2 * (q * Pow2(k - 1));
    DivUnique(x, q, Pow2(k));
  }

  /** From equal remainders of `c` combined with `a` and with `b`, equal remainders of `a` and `b`. */
  lemma {:induction false} XorCancels(c: nat, a: nat, b: nat, k: nat)
    requires Xor(c, a) % Pow2(k) == Xor(c, b) % Pow2(k)
    ensures a % Pow2(k) == b % Pow2(k)
    decreases k
  {
    if k > 0 {
      XorHalf(c, a);
      XorHalf(c, b);
      HalfMod(Xor(c, a), k);
      HalfMod(Xor(c, b), k);
      HalfMod(a, k);
      HalfMod(b, k);
      hide Xor, Pow2;
      var p := Pow2(k - 1);
      SameHalves(Xor(c, a) % 2, Xor(c, a) / 2 % p, Xor(c, b) % 2, Xor(c, b) / 2 % p);
      SameBit(c % 2, a % 2, b % 2);
      XorCancels(c / 2, a / 2, b / 2, k - 1);
    }
  }

  lemma SameHalves(x: nat, p: nat, y: nat, q: nat)
    requires x < 2 && y < 2 && x + 2 * p == y + 2 * q
    ensures x == y && p == q
  {}

  lemma SameBit(c: nat, a: nat, b: nat)
    requires c < 2 && a < 2 && b < 2 && (c + a) % 2 == (c + b) % 2
    ensures a == b
  {}

  lemma XorHalf(a: nat, b: nat)
    ensures Xor(a, b) % 2 == (a % 2 + b % 2) % 2 && Xor(a, b) / 2 == Xor(a / 2, b / 2)
  {}

  /** Combining with a multiple of 2^k leaves the low k bits. */
  lemma {:induction false} XorKeepsLow(a: nat, b: nat, k: nat)
    requires b % Pow2(k) == 0
    ensures Xor(a, b) % Pow2(k) == a % Pow2(k)
    decreases k
  {
    if k > 0 {
      XorHalf(a, b);
      HalfMod(Xor(a, b), k);
      HalfMod(a, k);
      HalfMod(b, k);
      XorKeepsLow(a / 2, b / 2, k - 1);
    }
  }

  lemma Powers()
    ensures Pow2(8) == 0x100 && Pow2(10) == 0x400 && Pow2(16) == 0x1_0000
  {
    Pow2Split(8, 8);
  }

  /** Two bytes after the same first byte with the same hash are equal. */
  lemma Hash2Injective(crc: CrcTable, b0: Byte, a: Byte, b: Byte)
    requires Hash2(crc, b0, a) == Hash2(crc, b0, b)
    ensures a == b
  {
    Powers();
    hide Xor, Pow2;
    XorCancels(crc[b0], a, b, 10);
  }

  lemma Hash3Injective(crc: CrcTable, b0: Byte, a: Byte, a': Byte, b: Byte, b': Byte)
    requires Hash3(crc, b0, a, a') == Hash3(crc, b0, b, b')
    ensures a == b && a' == b'
  {
    Powers();
    hide Xor, Pow2;
    var s, t := Xor(crc[b0], a), Xor(crc[b0], b);
    var x, y := Xor(s, 0x100 * a'), Xor(t, 0x100 * b');
    ModOfMod(x, 0x1_0000, 0x100, 0x100);
    ModOfMod(y, 0x1_0000, 0x100, 0x100);
    XorKeepsLow(s, 0x100 * a', 8);
    XorKeepsLow(t, 0x100 * b', 8);
    XorCancels(crc[b0], a, b, 8);
    XorCancels(s, 0x100 * a', 0x100 * b', 16);
  }
}
