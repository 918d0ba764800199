/** RISC-V instruction words: JAL, and AUIPC with the instruction behind it. Bit fields are quotients and
    remainders. */
module RiscvWord {
  import opened Arith
  import opened BitModel
  import opened Words

  type Half = h: nat | h < 0x1_0000

  function Join(lo: Half, hi: Half): Word { lo + 0x1_0000 * hi }
  function Lo(w: Word): Half { w % 0x1_0000 }
  function Hi(w: Word): Half { w / 0x1_0000 }

  lemma JoinParts(w: Word, lo: Half, hi: Half)
    ensures Join(Lo(w), Hi(w)) == w && Lo(Join(lo, hi)) == lo && Hi(Join(lo, hi)) == hi
  {}

  /** The bytes in the opposite order. */
  function Swap(w: Word): Word {
    Be32(w % 256, w / 256 % 256, w / 0x1_0000 % 256, w / 0x100_0000)
  }

  lemma SwapTwice(w: Word)
    ensures Swap(Swap(w)) == w
  {
    WordBytes(w);
    BytesOf(w % 256, w / 256 % 256, w / 0x1_0000 % 256, w / 0x100_0000);
  }

  /** The first half of an instruction with bit 4 flipped, plus one: JAL then ends in seven zero bits, AUIPC in
      0001000. */
  function Key(h: Half): nat { (if h / 16 % 2 == 0 then h + 16 else h - 16) + 1 }

  predicate Found(h: Half) { Key(h) % 8 == 0 && Key(h) / 16 % 8 == 0 }

  predicate IsJal(h: Half) { Key(h) / 8 % 2 == 0 }

  /** JAL with the return address in x1 or x5. */
  predicate JalCall(h: Half) {
    var t := (Key(h) + WORD - 0x100) % WORD;
    t / 128 % 4 == 0 && t / 1024 % 4 == 0
  }

  /** AUIPC whose register is neither x0 nor x2. */
  predicate OtherRegister(h: Half) { Key(h) / 128 % 2 != 0 || Key(h) / 512 % 8 != 0 }

  /** The instruction behind AUIPC has 32 bits and uses its register. */
  predicate Pair(h: Half, b: Word) { b % 4 == 3 && b / 0x8000 % 32 == Key(h) / 128 % 32 }

  /** The bits of a register number that are not zero for x0 and x2. */
  function NotX0X2(r: nat): nat { r - r / 2 % 2 * 2 }

  /** AUIPC to x2 that looks like an encoded pair with register `r`. */
  predicate LooksEncoded(h: Half, r: nat) {
    (Key(h) + WORD - 0x3108) % WORD * 0x4_0000 % WORD < NotX0X2(r)
  }

  // ----- the tests in terms of the instruction's fields -----

  /** Opcode and register of the first half. */
  lemma KeyFields(h: Half)
    ensures Found(h) <==> h % 128 == 0x6F || h % 128 == 0x17
    ensures Found(h) ==> (IsJal(h) <==> h % 128 == 0x6F)
    ensures h % 128 == 0x17 ==> Key(h) == h - 0xF && Key(h) / 128 == h / 128
    ensures h % 128 == 0x6F ==> Key(h) == h + 17 && Key(h) / 128 == h / 128 + 1
  {
    var q, r := h / 128, h % 128;
    var k := if r / 16 % 2 == 0 then r + 17 else r - 15;
    Bit4(q, r);
    SmallKey(r, k);
    assert Key(h) == 128 * q + k;
    SameLow(q, k, Key(h));
  }

  lemma Bit4(q: nat, r: nat)
    requires r < 128
    ensures (128 * q + r) / 16 % 2 == r / 16 % 2
  {
    DivAdd(8 * q, r, 16);
    DivAdd(4 * q, r / 16, 2);
  }

  lemma SameLow(q: nat, k: nat, x: nat)
    requires x == 128 * q + k
    ensures x % 8 == k % 8 && x / 16 % 8 == k / 16 % 8 && x / 8 % 2 == k / 8 % 2
    ensures k < 128 ==> x / 128 == q
    ensures k == 128 ==> x / 128 == q + 1
  {
    DivAdd(16 * q, k, 8);
    DivAdd(8 * q, k, 16);
    DivAdd(q, k / 16, 8);
    DivAdd(8 * q, k / 8, 2);
    DivAdd(q, k, 128);
  }

  lemma SmallKey(r: nat, k: nat)
    requires r < 128 && k == if r / 16 % 2 == 0 then r + 17 else r - 15
    ensures k % 8 == 0 && k / 16 % 8 == 0 <==> r == 0x6F || r == 0x17
    ensures r == 0x6F ==> k == 128
    ensures r == 0x17 ==> k == 8
    ensures k <= 128
  {}

  lemma CallFields(h: Half)
    requires h % 128 == 0x6F
    ensures JalCall(h) <==> h / 128 % 32 == 1 || h / 128 % 32 == 5
  {
    KeyFields(h);
    hide Key;
    var q := h / 128;
    assert Key(h) == 128 * q + 128;
    CallBits(q, (Key(h) + WORD - 0x100) % WORD);
  }

  lemma CallBits(q: nat, t: Word)
    requires q < 512 && t == (128 * q + 128 + WORD - 0x100) % WORD
    ensures t / 128 % 4 == 0 && t / 1024 % 4 == 0 <==> q % 32 == 1 || q % 32 == 5
  {
    assert t / 1024 == t / 128 / 8;
    if q == 0 {
      assert t == WORD - 128;
    } else {
      var x: nat := q - 1;
      assert t == 128 * x;
      FiveBits(x);
      NextOf32(x, q);
    }
  }

  lemma NextOf32(x: nat, q: nat)
    requires q == x + 1
    ensures x % 32 == 0 || x % 32 == 4 <==> q % 32 == 1 || q % 32 == 5
  {
    var y, z := x / 32, x % 32;
    assert q == 32 * y + (z + 1);
  }

  lemma FiveBits(x: nat)
    ensures x % 4 == 0 && x / 8 % 4 == 0 <==> x % 32 == 0 || x % 32 == 4
  {
    var y, z := x / 32, x % 32;
    DivAdd(8 * y, z, 4);
    DivAdd(4 * y, z, 8);
    DivAdd(y, z / 8, 4);
  }

  lemma RegisterFields(h: Half)
    requires h % 128 == 0x17
    ensures OtherRegister(h) <==> h / 128 % 32 != 0 && h / 128 % 32 != 2
  {
    KeyFields(h);
    hide Key;
    var q := Key(h) / 128;
    assert Key(h) / 512 == q / 4;
    RegisterBits(q);
  }

  lemma RegisterBits(q: nat)
    ensures q % 2 != 0 || q / 4 % 8 != 0 <==> q % 32 != 0 && q % 32 != 2
  {
    var y, z := q / 32, q % 32;
    DivAdd(16 * y, z, 2);
    DivAdd(8 * y, z, 4);
    DivAdd(y, z / 4, 8);
  }

  lemma EncodedFields(h: Half, r: nat)
    requires h % 128 == 0x17 && r < 32
    ensures LooksEncoded(h, r) <==> h / 128 % 32 == 2 && h / 4096 % 4 == 3 && r != 0 && r != 2
  {
    KeyFields(h);
    hide Key;
    var d := (Key(h) + WORD - 0x3108) % WORD;
    ShiftedOut(d);
    LowBits(h, d);
    var n := NotX0X2(r);
    assert n > 0 <==> r != 0 && r != 2;
    LowFields(h);
  }

  lemma LowBits(h: Half, d: Word)
    requires h % 128 == 0x17 && d == (h - 0xF + WORD - 0x3108) % WORD
    ensures d % 0x4000 == 0 <==> h % 0x4000 == 0x3117
  {
    var q, r := h / 0x4000, h % 0x4000;
    if h >= 0x3117 {
      assert d == h - 0x3117;
    } else {
      assert d == WORD - (0x3117 - h);
    }
  }

  lemma LowFields(h: Half)
    requires h % 128 == 0x17
    ensures h % 0x4000 == 0x3117 <==> h / 128 % 32 == 2 && h / 4096 % 4 == 3
  {
    var q := h / 4096;
    assert q == h / 128 / 32;
    assert h == 4096 * q + 128 * (h / 128 % 32) + 0x17;
    assert h % 0x4000 == 4096 * (q % 4) + 128 * (h / 128 % 32) + 0x17;
  }

  /** Shifting left by 18 leaves the low 14 bits. */
  lemma ShiftedOut(d: Word)
    ensures d * 0x4_0000 % WORD == d % 0x4000 * 0x4_0000
  {
    var q := d / 0x4000;
    assert d * 0x4_0000 == q * WORD + d % 0x4000 * 0x4_0000;
    DivUnique(d * 0x4_0000, q, WORD);
  }

  // ----- JAL -----

  type Bits20 = y: nat | y < 0x10_0000

  /** Half the offset of JAL from the upper 20 bits of the instruction: 1, 10, 1 and 8 bits that belong at 19, 0,
      10 and 11. */
  function Gather(top: Bits20): Bits20 {
    top / 0x8_0000 * 0x8_0000 + top % 256 * 0x800 + top / 256 % 2 * 0x400 + top / 512 % 1024
  }

  function Scatter(y: Bits20): Bits20 {
    y / 0x8_0000 * 0x8_0000 + y % 1024 * 512 + y / 1024 % 2 * 256 + y / 0x800 % 256
  }

  /** Half the target as it is stored: four bits, then its lower bytes, most significant first. */
  function Turned(y: Bits20): Bits20 { y / 0x1_0000 + y / 256 % 256 * 16 + y % 256 * 4096 }
  function TurnedBack(z: Bits20): Bits20 { z % 16 * 0x1_0000 + z / 16 % 256 * 256 + z / 4096 }

  lemma GatherParts(s: nat, t: nat, u: nat, e: nat)
    requires s < 2 && t < 1024 && u < 2 && e < 256
    ensures var top := s * 0x8_0000 + t * 512 + u * 256 + e;
      top < 0x10_0000 && Gather(top) == s * 0x8_0000 + e * 0x800 + u * 0x400 + t
  {
    var top := s * 0x8_0000 + t * 512 + u * 256 + e;
    DivUnique(top, s, 0x8_0000);
    DivUnique(top, s * 2048 + t * 2 + u, 256);
    DivUnique(top, s * 1024 + t, 512);
    DivUnique(s * 2048 + t * 2 + u, s * 1024 + t, 2);
    DivUnique(s * 1024 + t, s, 1024);
  }

  lemma ScatterParts(s: nat, t: nat, u: nat, e: nat)
    requires s < 2 && t < 1024 && u < 2 && e < 256
    ensures var y := s * 0x8_0000 + e * 0x800 + u * 0x400 + t;
      y < 0x10_0000 && Scatter(y) == s * 0x8_0000 + t * 512 + u * 256 + e
  {
    var y := s * 0x8_0000 + e * 0x800 + u * 0x400 + t;
    DivUnique(y, s, 0x8_0000);
    DivUnique(y, s * 512 + e * 2 + u, 1024);
    DivUnique(y, s * 256 + e, 0x800);
    DivUnique(s * 512 + e * 2 + u, s * 256 + e, 2);
    DivUnique(s * 256 + e, s, 256);
  }

  lemma GatherBack(top: Bits20)
    ensures Scatter(Gather(top)) == top
  {
    var s, t, u, e := top / 0x8_0000, top / 512 % 1024, top / 256 % 2, top % 256;
    var d := top / 256;
    assert top / 512 == d / 2 && top / 0x8_0000 == d / 2 / 1024;
    GatherParts(s, t, u, e);
    ScatterParts(s, t, u, e);
  }

  lemma ScatterBack(y: Bits20)
    ensures Gather(Scatter(y)) == y
  {
    var s, t, u, e := y / 0x8_0000, y % 1024, y / 1024 % 2, y / 0x800 % 256;
    var d := y / 1024;
    assert y / 0x800 == d / 2 && y / 0x8_0000 == d / 2 / 256;
    ScatterParts(s, t, u, e);
    GatherParts(s, t, u, e);
  }

  lemma TurnBack(y: Bits20)
    ensures TurnedBack(Turned(y)) == y
  {
    var n, m, l := y / 0x1_0000, y / 256 % 256, y % 256;
    var z := Turned(y);
    assert y / 0x1_0000 == y / 256 / 256;
    DivUnique(z, m + l * 256, 16);
    DivUnique(z, l, 4096);
    DivUnique(m + l * 256, l, 256);
  }

  function JalEncoded(a: Word, pc: Word): Word {
    var v := (2 * Gather(a / 4096) + pc) % WORD;
    a % 4096 + 4096 * Turned(v / 2 % 0x10_0000)
  }

  function JalDecoded(w: Word, pc: Word): Word {
    var x := (2 * TurnedBack(w / 4096) + WORD - pc) % WORD;
    w % 4096 + 4096 * Scatter(x / 2 % 0x10_0000)
  }

  /** Half a number, as far as 20 bits go. */
  function Half20(v: nat): Bits20 { v / 2 % 0x10_0000 }

  lemma HalfOf(v: nat)
    ensures Half20(v) == v % 0x20_0000 / 2
  {
    DivOfMod(v, 2, 0x10_0000);
  }

  lemma Mod21(a: nat)
    ensures a % WORD % 0x20_0000 == a % 0x20_0000
  {
    ModOfMod(a, WORD, 0x20_0000, 2048);
  }

  /** Adding the position and taking it away again: exact for even positions, one too low for odd ones. */
  lemma MovedBack(y: Bits20, pc: Word)
    ensures var z := Half20((2 * y + pc) % WORD);
      Half20((2 * z + WORD - pc) % WORD) == y <==> pc % 2 == 0
  {
    hide Half20;
    var z := Half20((2 * y + pc) % WORD);
    var s, t := 2 * y + pc, 2 * z + WORD - pc;
    HalfOf(s % WORD);
    HalfOf(t % WORD);
    Mod21(s);
    Mod21(t);
    SumParity(y, pc);
    Returned(y, pc % 2, pc, s / 0x20_0000, t);
  }

  lemma SumParity(y: nat, pc: nat)
    ensures var s := 2 * y + pc; s % 0x20_0000 % 2 == pc % 2 && s == s / 0x20_0000 * 0x20_0000 + s % 0x20_0000
  {
    ModOfMod(2 * y + pc, 0x20_0000, 2, 0x10_0000);
    DivAdd(y, pc, 2);
  }

  lemma Returned(y: Bits20, odd: nat, pc: Word, k: nat, t: nat)
    requires odd < 2 && t == 2 * y - odd + WORD - k * 0x20_0000
    ensures t % 0x20_0000 / 2 == y <==> odd == 0
  {
    var x := 2 * y - odd;
    DivAdd(2048 - k, x, 0x20_0000);
    if x < 0 {
      DivUnique(x, -1, 0x20_0000);
    } else {
      DivUnique(x, 0, 0x20_0000);
    }
  }

  /** A converted JAL comes back exactly when the position is even. */
  lemma JalBack(a: Word, pc: Word)
    ensures JalDecoded(JalEncoded(a, pc), pc) == a <==> pc % 2 == 0
  {
    hide Gather, Scatter, Turned, TurnedBack, Half20;
    var y := Gather(a / 4096);
    var z := Half20((2 * y + pc) % WORD);
    var w := a % 4096 + 4096 * Turned(z);
    HalfIs((2 * y + pc) % WORD);
    HalfIs((2 * z + WORD - pc) % WORD);
    DivUnique(w, Turned(z), 4096);
    TurnBack(z);
    MovedBack(y, pc);
    GatherBack(a / 4096);
    ScatterBack(Half20((2 * z + WORD - pc) % WORD));
    assert a == a % 4096 + 4096 * (a / 4096);
  }

  lemma HalfIs(v: nat)
    ensures Half20(v) == v / 2 % 0x10_0000
  {}

  lemma JalKeepsLow(a: Word, pc: Word)
    ensures JalEncoded(a, pc) % 4096 == a % 4096 && JalDecoded(a, pc) % 4096 == a % 4096
  {
    hide Gather, Scatter, Turned, TurnedBack;
    DivUnique(JalEncoded(a, pc), JalEncoded(a, pc) / 4096, 4096);
  }

  // ----- AUIPC -----

  /** AUIPC to x2 with the lower 20 bits of the second instruction above it. */
  function PairFirst(b: Word): Word { b % 0x10_0000 * 4096 + 0x117 }

  /** The upper 20 bits, and the signed upper 12 bits of the second instruction. */
  function Upper(a: Word): Word { a - a % 4096 }
  function Signed12(b: Word): Word { if b / 0x8000_0000 == 0 then b / 0x10_0000 else b / 0x10_0000 + WORD - 0x1000 }
  function PairOffset(a: Word, b: Word): Word { (Upper(a) + Signed12(b)) % WORD }

  /** The absolute target, stored with its most significant byte first. */
  function PairTarget(a: Word, b: Word, pc: Word): Word { Swap((PairOffset(a, b) + pc) % WORD) }

  function TargetFirst(a: Word, t: Word): Word { a / 0x800_0000 * 128 + 0x17 + Upper((t + 0x800) % WORD) }
  function Second(a: Word, t: Word): Word { a / 4096 + t % 4096 * 0x10_0000 }

  /** An instruction that looks encoded becomes a pair with the register in its upper bits. */
  function EscapeFirst(a: Word, b: Word): Word { a / 0x800_0000 * 128 + 0x17 + Upper(b) }
  function UnescapeSecond(a: Word, b: Word): Word { Upper(a) + b / 0x10_0000 }

  lemma LowHalf(w: Word)
    ensures Lo(w) % 128 == w % 128 && Lo(w) / 128 % 32 == w / 128 % 32 && Lo(w) / 4096 % 4 == w / 4096 % 4
  {
    var q, r := w / 0x1_0000, w % 0x1_0000;
    DivAdd(512 * q, r, 128);
    DivAdd(16 * q, r / 128, 32);
    DivAdd(16 * q, r, 4096);
    DivAdd(4 * q, r / 4096, 4);
  }

  /** Opcode, register and the rest of a word. */
  lemma WordFields(w: Word, top: nat, r: nat, op: nat)
    requires w == 4096 * top + 128 * r + op && r < 32 && op < 128
    ensures w % 128 == op && w / 128 % 32 == r && w / 4096 == top && w % 4096 == 128 * r + op
  {
    DivUnique(w, 32 * top + r, 128);
    DivUnique(32 * top + r, top, 32);
    DivUnique(w, top, 4096);
  }

  lemma Fields(w: Word)
    ensures w == 4096 * (w / 4096) + 128 * (w / 128 % 32) + w % 128
    ensures w / 0x800_0000 == w / 4096 / 0x8000
  {
    assert w / 4096 == w / 128 / 32;
  }

  /** An AUIPC to a register other than x0 and x2, and its second instruction. */
  ghost predicate IsPair(a: Word, b: Word) {
    a % 128 == 0x17 && a / 128 % 32 != 0 && a / 128 % 32 != 2 && b % 4 == 3 && b / 0x8000 % 32 == a / 128 % 32
  }

  /** An AUIPC to x2 that could be what a pair is turned into. */
  ghost predicate IsEncoded(a: Word) {
    a % 128 == 0x17 && a / 128 % 32 == 2 && a / 4096 % 4 == 3 && a / 0x800_0000 != 0 && a / 0x800_0000 != 2
  }

  lemma PairMeans(a: Word, b: Word)
    requires Found(Lo(a)) && !IsJal(Lo(a))
    ensures OtherRegister(Lo(a)) && Pair(Lo(a), b) <==> IsPair(a, b)
    ensures !OtherRegister(Lo(a)) && LooksEncoded(Lo(a), a / 0x800_0000) <==> IsEncoded(a)
  {
    KeyFields(Lo(a));
    LowHalf(a);
    RegisterFields(Lo(a));
    EncodedFields(Lo(a), a / 0x800_0000);
  }

  lemma FoundMeans(a: Word)
    ensures Found(Lo(a)) && !IsJal(Lo(a)) <==> a % 128 == 0x17
  {
    KeyFields(Lo(a));
    LowHalf(a);
  }

  lemma PairBecomesEncoded(a: Word, b: Word)
    requires IsPair(a, b)
    ensures IsEncoded(PairFirst(b)) && PairFirst(b) / 0x800_0000 == a / 128 % 32
    ensures PairFirst(b) / 4096 == b % 0x10_0000
  {
    var x := PairFirst(b);
    WordFields(x, b % 0x10_0000, 2, 0x17);
    DivOfMod(b, 0x8000, 32);
    Fields(x);
    ModOfMod(b, 0x10_0000, 4, 0x4_0000);
  }

  /** The upper part of the target, rounded, is that of the first instruction. */
  lemma OffsetBack(a: Word, b: Word)
    ensures Upper((PairOffset(a, b) + 0x800) % WORD) == Upper(a) && PairOffset(a, b) % 4096 == b / 0x10_0000
  {
    var u, i := a / 4096, b / 0x10_0000;
    assert b / 0x8000_0000 == i / 2048;
    assert Upper(a) == 4096 * u;
    hide Upper;
    var t := PairOffset(a, b);
    RoundedUp(u, i, t);
    UpperIs((t + 0x800) % WORD);
  }

  lemma UpperIs(w: Word)
    ensures Upper(w) == 4096 * (w / 4096)
  {}

  /** A signed number of twelve bits is rounded away. */
  lemma RoundedUp(u: Bits20, i: nat, t: Word)
    requires i < 4096 && t == (4096 * u + (if i < 2048 then i else i + WORD - 4096)) % WORD
    ensures (t + 0x800) % WORD / 4096 == u && t % 4096 == i
  {
    if i < 2048 {
      assert t == 4096 * u + i;
      DivUnique(t, u, 4096);
      DivUnique(t + 0x800, u, 4096);
    } else if u > 0 {
      assert t == 4096 * u + i - 4096;
      DivUnique(t, u - 1, 4096);
      DivUnique(t + 0x800, u, 4096);
    } else {
      assert t == WORD - 4096 + i;
      DivUnique(t, 0xF_FFFF, 4096);
      assert (t + 0x800) % WORD == i - 0x800;
    }
  }

  lemma SumBack(x: Word, pc: Word)
    ensures ((x + pc) % WORD + WORD - pc) % WORD == x
  {
    if x + pc >= WORD { assert (x + pc) % WORD == x + pc - WORD; }
  }

  /** A converted pair looks encoded, and comes back. */
  lemma PairBack(a: Word, b: Word, pc: Word)
    requires IsPair(a, b)
    ensures var x, t := PairFirst(b), (Swap(PairTarget(a, b, pc)) + WORD - pc) % WORD;
      IsEncoded(x) && TargetFirst(x, t) == a && Second(x, t) == b
  {
    hide PairOffset, Swap, PairFirst, Upper;
    TargetLoaded(a, b, pc);
    PairBecomesEncoded(a, b);
    OffsetBack(a, b);
    Fields(a);
    UpperIs(a);
    assert b == b % 0x10_0000 + b / 0x10_0000 * 0x10_0000;
  }

  lemma TargetLoaded(a: Word, b: Word, pc: Word)
    ensures (Swap(PairTarget(a, b, pc)) + WORD - pc) % WORD == PairOffset(a, b)
  {
    hide PairOffset, Swap;
    var o := PairOffset(a, b);
    SwapTwice((o + pc) % WORD);
    SumBack(o, pc);
  }

  /** An escaped look-alike is a pair, and comes back. */
  lemma EscapeBack(a: Word, b: Word)
    requires IsEncoded(a)
    ensures var x, y := EscapeFirst(a, b), Second(a, b);
      IsPair(x, y) && PairFirst(y) == a && UnescapeSecond(x, y) == b
  {
    var x, y, r := EscapeFirst(a, b), Second(a, b), a / 0x800_0000;
    WordFields(x, b / 4096, r, 0x17);
    Fields(a);
    DivUnique(y, b % 4096, 0x10_0000);
    assert y % 0x10_0000 == a / 4096;
    DivOfMod(y, 0x8000, 32);
    ModOfMod(y, 0x10_0000, 4, 0x4_0000);
  }
}
