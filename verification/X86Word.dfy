/** The operand of an x86 call or jump: what conversion does to it, in 32-bit words of which 25 bits count. */
module X86Word {
  import opened Arith
  import opened BitModel

  const BIT24 := 0x100_0000
  const BIT25 := 0x200_0000

  predicate IsOpcode(b: Byte) { b / 2 == 0x74 }

  /** A sign byte: the top byte of a small operand. */
  predicate IsSign(b: Byte) { (b + 1) / 2 % 128 == 0 }

  lemma SignBytes(b: Byte)
    ensures IsSign(b) <==> b == 0 || b == 0xFF
  {}

  /** Adds the position when encoding, subtracts it when decoding. */
  function Moved(encoding: bool, v: Word, c: Word): Word {
    if encoding then (v + c) % WORD else (v + WORD - c) % WORD
  }

  /** The three lowest bytes of a word, and 2 to the power of their end. */
  function ByteAt(v: Word, k: nat): Byte
    requires k <= 2
  {
    if k == 0 then v % 256 else if k == 1 then v / 256 % 256 else v / 0x1_0000 % 256
  }

  function EndOf(k: nat): (n: nat)
    requires k <= 2
    ensures 0 < n <= BIT24
  {
    if k == 0 then 0x100 else if k == 1 then 0x1_0000 else BIT24
  }

  /** The complement of the bytes up to number `k`. */
  function Flipped(v: Word, k: nat): Word
    requires k <= 2
  {
    v - v % EndOf(k) + (EndOf(k) - 1 - v % EndOf(k))
  }

  /** Whether the top byte is a sign. */
  predicate SmallOperand(s: Word) { (s + BIT24) % WORD < BIT25 }

  /** The last step: the 25 bits as a signed operand. */
  function Signed25(v: Word): Word { (v % BIT25 + WORD - BIT24) % WORD }

  /** Conversion without another opcode near by. */
  function Plain(encoding: bool, s: Word, c: Word): Word {
    Signed25(Moved(encoding, (s + BIT24) % WORD, c))
  }

  /** Conversion when byte `k` is the top byte of an earlier operand: it must not become a sign. */
  function Guarded(encoding: bool, s: Word, c: Word, k: nat): Word
    requires k <= 2
  {
    var v := Moved(encoding, (s + BIT24) % WORD, c);
    Signed25(if IsSign(ByteAt(v, k)) then Moved(encoding, Flipped(v, k), c) else v)
  }

  // ----- everything happens modulo 2^25 -----

  function Low(v: int): nat { v % BIT25 }

  lemma LowOfWord(x: nat)
    ensures Low(x % WORD) == Low(x)
  {
    ModOfMod(x, WORD, BIT25, 128);
  }

  lemma ModStep(a: int, n: int, k: int)
    requires n > 0
    ensures (a + n * k) % n == a % n
  {
    var q := a / n;
    assert a + n * k == (q + k) * n + a % n;
    DivUnique(a + n * k, q + k, n);
  }

  /** The 25 bits of an operand, and back. */
  lemma SignedBack(v: Word)
    ensures SmallOperand(Signed25(v)) && (Signed25(v) + BIT24) % WORD == Low(v)
    ensures Signed25(v) / BIT24 == 0 || Signed25(v) / BIT24 == 255
  {
    var u := v % BIT25;
    if u >= BIT24 {
      assert Signed25(v) == u - BIT24;
    } else {
      assert Signed25(v) == u + WORD - BIT24;
    }
  }

  lemma SignedOf(s: Word)
    requires SmallOperand(s)
    ensures Signed25((s + BIT24) % WORD) == s
  {
    var u := (s + BIT24) % WORD;
    assert u % BIT25 == u;
    if s + BIT24 >= WORD { assert u == s + BIT24 - WORD; } else { assert u == s + BIT24; }
  }

  lemma SmallIsSign(s: Word)
    ensures SmallOperand(s) <==> IsSign(s / BIT24)
  {
    SignBytes(s / BIT24);
    if s + BIT24 >= WORD {
      assert (s + BIT24) % WORD == s + BIT24 - WORD;
    } else {
      assert (s + BIT24) % WORD == s + BIT24;
    }
  }

  lemma LowSame(a: int, b: int, k: int)
    requires a == b + BIT25 * k
    ensures Low(a) == Low(b)
  {
    ModStep(b, BIT25, k);
  }

  /** Moving there and back, as far as the 25 bits are concerned. */
  lemma MovedBack(encoding: bool, u: Word, c: Word, x: Word)
    requires Low(x) == Low(Moved(encoding, u, c))
    ensures Low(Moved(!encoding, x, c)) == Low(u)
  {
    var s := if encoding then c else WORD - c;
    var r := if encoding then WORD - c else c;
    LowOfWord(u + s);
    LowOfWord(x + r);
    var j, k := x / BIT25, (u + s) / BIT25;
    assert x + r == u + BIT25 * (j - k) + WORD;
    LowSame(x + r, u, j - k + 128);
  }

  lemma PlainBack(encoding: bool, s: Word, c: Word)
    requires SmallOperand(s)
    ensures SmallOperand(Plain(encoding, s, c)) && Plain(!encoding, Plain(encoding, s, c), c) == s
  {
    var u := (s + BIT24) % WORD;
    var v := Moved(encoding, u, c);
    SignedBack(v);
    SignedOf(s);
    hide Moved, Signed25;
    MovedBack(encoding, u, c, Low(v));
    SameSigned(Moved(!encoding, Low(v), c), u);
  }

  lemma SameSigned(v: Word, u: Word)
    requires Low(v) == Low(u)
    ensures Signed25(v) == Signed25(u)
  {}

  // ----- the guarded byte -----

  lemma ByteOfLow(a: Word, b: Word, k: nat)
    requires k <= 2 && a % EndOf(k) == b % EndOf(k)
    ensures ByteAt(a, k) == ByteAt(b, k)
  {
    ByteIs(a, k);
    ByteIs(b, k);
  }

  lemma ByteIs(a: Word, k: nat)
    requires k <= 2
    ensures ByteAt(a, k) == a % EndOf(k) / (EndOf(k) / 256)
  {
    if k == 1 {
      DivOfMod(a, 256, 256);
    } else if k == 2 {
      DivOfMod(a, 0x1_0000, 256);
    }
  }

  lemma LowThenEnd(a: Word, b: Word, k: nat)
    requires k <= 2 && Low(a) == Low(b)
    ensures a % EndOf(k) == b % EndOf(k)
  {
    var n := EndOf(k);
    ModOfMod(a, BIT25, n, BIT25 / n);
    ModOfMod(b, BIT25, n, BIT25 / n);
  }

  /** Flipping complements everything below the end of byte `k`, and keeps the rest. */
  lemma FlippedBytes(v: Word, k: nat)
    requires k <= 2
    ensures Flipped(v, k) % EndOf(k) == EndOf(k) - 1 - v % EndOf(k)
    ensures Flipped(Flipped(v, k), k) == v
    ensures ByteAt(Flipped(v, k), k) == 255 - ByteAt(v, k)
  {
    var n := EndOf(k);
    FlipMod(v, n);
    FlipMod(Flipped(v, k), n);
    ByteIs(v, k);
    ByteIs(Flipped(v, k), k);
    hide ByteAt;
    Complement(v % n, n / 256, n);
  }

  lemma FlipMod(v: nat, n: nat)
    requires n > 0
    ensures (v - v % n + (n - 1 - v % n)) % n == n - 1 - v % n
  {
    var q, r := v / n, v % n;
    var f := v - r + (n - 1 - r);
    assert v == q * n + r;
    assert f == q * n + (n - 1 - r);
    DivUnique(f, q, n);
  }

  lemma Complement(r: nat, a: nat, n: nat)
    requires a > 0 && n == 256 * a && r < n
    ensures (n - 1 - r) / a == 255 - r / a
  {
    var d, e := r / a, r % a;
    assert n - 1 - r == (255 - d) * a + (a - 1 - e);
    DivUnique(n - 1 - r, 255 - d, a);
  }

  lemma FlippedLow(a: Word, b: Word, k: nat)
    requires k <= 2 && Low(a) == Low(b)
    ensures Low(Flipped(a, k)) == Low(Flipped(b, k))
  {
    LowThenEnd(a, b, k);
    var j := a / BIT25 - b / BIT25;
    assert a == b + BIT25 * j;
    LowSame(Flipped(a, k), Flipped(b, k), j);
  }

  /** Moved by the same distance, the complement of a moved number is the complement of the number. */
  lemma FlippedThenMoved(encoding: bool, u: Word, c: Word, k: nat)
    requires k <= 2
    ensures var v := Moved(encoding, u, c);
      ByteAt(Moved(encoding, Flipped(v, k), c), k) == 255 - ByteAt(u, k)
  {
    hide EndOf, ByteAt, Flipped, Low;
    var n, v := EndOf(k), Moved(encoding, u, c);
    var f, fu := Flipped(v, k), Flipped(u, k);
    FlippedBytes(v, k);
    FlippedBytes(u, k);
    var s := if encoding then c else WORD - c;
    WordEnd(u + s, k);
    WordEnd(f + s, k);
    SumBack(u, s, v, f, n);
    ByteOfLow(Moved(encoding, f, c), fu, k);
  }

  lemma WordEnd(x: nat, k: nat)
    requires k <= 2
    ensures x % WORD % EndOf(k) == x % EndOf(k)
  {
    ModOfMod(x, WORD, EndOf(k), WORD / EndOf(k));
  }

  lemma Bit24End(x: nat, k: nat)
    requires k <= 2
    ensures (x + BIT24) % EndOf(k) == x % EndOf(k)
  {
    ModStep(x, EndOf(k), BIT24 / EndOf(k));
  }

  lemma SumBack(u: nat, s: nat, v: nat, f: nat, n: nat)
    requires n > 0 && v % n == (u + s) % n && f % n == n - 1 - v % n
    ensures (f + s) % n == n - 1 - u % n
  {
    var a, b, d := u / n, v / n, f / n;
    var j := (u + s) / n;
    assert u + s == j * n + v % n;
    assert f == d * n + (n - 1 - v % n);
    assert f + s == (d + j - a) * n + (n - 1 - u % n);
    DivUnique(f + s, d + j - a, n);
  }

  /** What is stored keeps the three low bytes. */
  lemma StoredBytes(v: Word, k: nat)
    requires k <= 2
    ensures ByteAt(Signed25(v), k) == ByteAt(v, k)
  {
    hide EndOf, ByteAt;
    var t := Signed25(v);
    SignedBack(v);
    LowOfLow(v);
    LowThenEnd(Low(v), v, k);
    WordEnd(t + BIT24, k);
    Bit24End(t, k);
    ByteOfLow(t, v, k);
  }

  lemma ReadBytes(s: Word, k: nat)
    requires k <= 2
    ensures ByteAt((s + BIT24) % WORD, k) == ByteAt(s, k)
  {
    hide EndOf, ByteAt;
    WordEnd(s + BIT24, k);
    Bit24End(s, k);
    ByteOfLow((s + BIT24) % WORD, s, k);
  }

  /** A guarded byte that was no sign is none afterwards. */
  lemma GuardedStays(encoding: bool, s: Word, c: Word, k: nat)
    requires k <= 2 && SmallOperand(s) && !IsSign(ByteAt(s, k))
    ensures SmallOperand(Guarded(encoding, s, c, k)) && !IsSign(ByteAt(Guarded(encoding, s, c, k), k))
  {
    var u := (s + BIT24) % WORD;
    var v := Moved(encoding, u, c);
    ReadBytes(s, k);
    FlippedThenMoved(encoding, u, c, k);
    var r := if IsSign(ByteAt(v, k)) then Moved(encoding, Flipped(v, k), c) else v;
    SignBytes(ByteAt(u, k));
    SignBytes(ByteAt(r, k));
    StoredBytes(r, k);
    SignedBack(r);
  }

  lemma LowByte(a: Word, b: Word, k: nat)
    requires k <= 2 && Low(a) == Low(b)
    ensures ByteAt(a, k) == ByteAt(b, k)
  {
    LowThenEnd(a, b, k);
    ByteOfLow(a, b, k);
  }

  /** Guarded conversion is undone by guarded conversion the other way. */
  lemma GuardedBack(encoding: bool, s: Word, c: Word, k: nat)
    requires k <= 2 && SmallOperand(s) && !IsSign(ByteAt(s, k))
    ensures Guarded(!encoding, Guarded(encoding, s, c, k), c, k) == s
  {
    hide Moved, Flipped, Signed25, ByteAt, IsSign, Low;
    var u := (s + BIT24) % WORD;
    var v := Moved(encoding, u, c);
    SignedOf(s);
    ReadBytes(s, k);
    if IsSign(ByteAt(v, k)) {
      var f := Flipped(v, k);
      var r := Moved(encoding, f, c);
      SignedBack(r);
      var x := Low(r);
      LowOfLow(r);
      MovedBack(encoding, f, c, x);
      var y := Moved(!encoding, x, c);
      LowByte(y, f, k);
      FlippedBytes(v, k);
      SignComplement(ByteAt(v, k), ByteAt(f, k));
      FlippedLow(y, f, k);
      MovedBack(encoding, u, c, Flipped(y, k));
      SameSigned(Moved(!encoding, Flipped(y, k), c), u);
    } else {
      SignedBack(v);
      var x := Low(v);
      LowOfLow(v);
      MovedBack(encoding, u, c, x);
      LowByte(Moved(!encoding, x, c), u, k);
      SameSigned(Moved(!encoding, x, c), u);
    }
  }

  lemma LowOfLow(v: Word)
    ensures Low(v) < WORD && Low(Low(v)) == Low(v)
  {}

  lemma SignComplement(a: Byte, b: Byte)
    requires b == 255 - a
    ensures IsSign(a) <==> IsSign(b)
  {
    SignBytes(a);
    SignBytes(b);
  }
}
