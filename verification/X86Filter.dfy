/** The x86 branch filter. Opcodes are looked for in pieces of four bytes; `mask` remembers which of the three
    bytes before the current one were opcodes that were not converted. Decoding finds the same instructions
    again although the bytes have changed. */
module X86Filter {
  import opened Arith
  import opened BitModel
  import opened Words
  import opened X86Word

  type Mask = m: nat | m < 8

  predicate One(m: Mask) { m == 1 || m == 2 || m == 4 }

  function Operand(d: seq<Byte>, q: nat): Word
    requires q + 5 <= |d|
  {
    Le32(d[q + 1..q + 5])
  }

  /** Whether the opcode at `q` is converted: its operand is small, and of the three bytes before it at most one
      was an opcode, whose own operand is not small. */
  predicate Converts(d: seq<Byte>, q: nat, m: Mask)
    requires q + 5 <= |d|
  {
    SmallOperand(Operand(d, q)) && (m == 0 || (One(m) && !IsSign(d[q + 1 + m / 2])))
  }

  /** The position behind an operand. */
  function Behind(pc: Word, q: nat): Word { (pc + q + 5) % WORD }

  function Converted(encoding: bool, d: seq<Byte>, q: nat, m: Mask, pc: Word): Word
    requires q + 5 <= |d| && (m == 0 || One(m))
  {
    var s, c := Operand(d, q), Behind(pc, q);
    if m == 0 then Plain(encoding, s, c) else Guarded(encoding, s, c, m / 2)
  }

  /** The bytes with another operand for the opcode at `q`. */
  function WithOperand(d: seq<Byte>, q: nat, v: Word): (r: seq<Byte>)
    requires q + 5 <= |d|
    ensures |r| == |d|
    ensures forall i :: 0 <= i < |d| && !(q + 1 <= i < q + 5) ==> r[i] == d[i]
    ensures r[q + 1..q + 5] == LeBytes(v)
  {
    d[..q + 1] + LeBytes(v) + d[q + 5..]
  }

  datatype End = End(data: seq<Byte>, p: nat, mask: Mask)

  /** The filter from position `p`, where the current piece ends at `e`. */
  function Run(encoding: bool, d: seq<Byte>, p: nat, m: Mask, e: nat, pc: Word): (r: End)
    requires 5 <= |d| && p <= e <= |d|
    ensures |r.data| == |d| && p <= r.p <= |d|
    decreases |d| - p, if p == e then 1 else 0
  {
    if p == e then
      if p + 4 >= |d| then End(d, p, m) else Run(encoding, d, p, m, p + 4, pc)
    else if !IsOpcode(d[p]) then Run(encoding, d, p + 1, m / 2, e, pc)
    else if p + 4 >= |d| then End(d, p, m)
    else if Converts(d, p, m) then
      Run(encoding, WithOperand(d, p, Converted(encoding, d, p, m, pc)), p + 5, 0, p + 5, pc)
    else Run(encoding, d, p + 1, m / 2 + 4, p + 1, pc)
  }

  // ----- what a run leaves alone -----

  /** Nothing up to the current byte changes. */
  lemma {:induction false} Untouched(encoding: bool, d: seq<Byte>, p: nat, m: Mask, e: nat, pc: Word, i: nat)
    requires 5 <= |d| && p <= e <= |d| && i <= p && i < |d|
    ensures Run(encoding, d, p, m, e, pc).data[i] == d[i]
    decreases |d| - p, if p == e then 1 else 0
  {
    hide Converted, IsOpcode, Operand, SmallOperand, IsSign;
    if p == e {
      if p + 4 < |d| { Untouched(encoding, d, p, m, p + 4, pc, i); }
    } else if !IsOpcode(d[p]) {
      Untouched(encoding, d, p + 1, m / 2, e, pc, i);
    } else if p + 4 < |d| {
      if Converts(d, p, m) {
        Untouched(encoding, WithOperand(d, p, Converted(encoding, d, p, m, pc)), p + 5, 0, p + 5, pc, i);
      } else {
        Untouched(encoding, d, p + 1, m / 2 + 4, p + 1, pc, i);
      }
    }
  }

  ghost predicate SameFrom(a: seq<Byte>, b: seq<Byte>, p: nat) {
    |a| == |b| && forall i :: p <= i < |a| ==> a[i] == b[i]
  }

  lemma SameOperand(a: seq<Byte>, b: seq<Byte>, p: nat, q: nat)
    requires SameFrom(a, b, p) && p <= q && q + 5 <= |a|
    ensures Operand(a, q) == Operand(b, q)
  {
    assert a[q + 1..q + 5] == b[q + 1..q + 5];
  }

  /** A run does not depend on what is before it. */
  lemma {:induction false} Local(encoding: bool, a: seq<Byte>, b: seq<Byte>, p: nat, m: Mask, e: nat, pc: Word)
    requires 5 <= |a| && p <= e <= |a| && SameFrom(a, b, p)
    ensures var r, t := Run(encoding, a, p, m, e, pc), Run(encoding, b, p, m, e, pc);
      SameFrom(r.data, t.data, p) && r.p == t.p && r.mask == t.mask
    decreases |a| - p, if p == e then 1 else 0
  {
    hide Operand, IsOpcode, SmallOperand, IsSign, Plain, Guarded;
    if p == e {
      if p + 4 < |a| { Local(encoding, a, b, p, m, p + 4, pc); }
    } else if !IsOpcode(a[p]) {
      Local(encoding, a, b, p + 1, m / 2, e, pc);
      Untouched(encoding, a, p + 1, m / 2, e, pc, p);
      Untouched(encoding, b, p + 1, m / 2, e, pc, p);
    } else if p + 4 < |a| {
      SameOperand(a, b, p, p);
      if Converts(a, p, m) {
        var x := WithOperand(a, p, Converted(encoding, a, p, m, pc));
        var y := WithOperand(b, p, Converted(encoding, b, p, m, pc));
        assert SameFrom(x, y, p) by { SameSlices(x, y, p); }
        Local(encoding, x, y, p + 5, 0, p + 5, pc);
        SamePart(encoding, x, y, p, p + 5, pc);
      } else {
        Local(encoding, a, b, p + 1, m / 2 + 4, p + 1, pc);
        Untouched(encoding, a, p + 1, m / 2 + 4, p + 1, pc, p);
        Untouched(encoding, b, p + 1, m / 2 + 4, p + 1, pc, p);
      }
    }
  }

  lemma SameSlices(x: seq<Byte>, y: seq<Byte>, p: nat)
    requires |x| == |y| && p + 5 <= |x| && x[p + 1..p + 5] == y[p + 1..p + 5] && x[p] == y[p]
    requires forall i :: p + 5 <= i < |x| ==> x[i] == y[i]
    ensures SameFrom(x, y, p)
  {
    forall i | p + 1 <= i < p + 5 ensures x[i] == y[i] {
      assert x[p + 1..p + 5][i - p - 1] == y[p + 1..p + 5][i - p - 1];
    }
  }

  lemma SamePart(encoding: bool, x: seq<Byte>, y: seq<Byte>, p: nat, q: nat, pc: Word)
    requires 5 <= |x| && p <= q <= |x| && SameFrom(x, y, p)
    requires SameFrom(Run(encoding, x, q, 0, q, pc).data, Run(encoding, y, q, 0, q, pc).data, q)
    ensures SameFrom(Run(encoding, x, q, 0, q, pc).data, Run(encoding, y, q, 0, q, pc).data, p)
  {
    hide Run;
    forall i | p <= i < q
      ensures Run(encoding, x, q, 0, q, pc).data[i] == Run(encoding, y, q, 0, q, pc).data[i]
    {
      Untouched(encoding, x, q, 0, q, pc, i);
      Untouched(encoding, y, q, 0, q, pc, i);
    }
  }

  // ----- the operand of an opcode that was passed over -----

  predicate Bit(m: Mask, b: nat) {
    if b == 0 then m % 2 == 1 else if b == 1 then m / 2 % 2 == 1 else b == 2 && m / 4 == 1
  }

  /** The opcode whose operand ends at `j` was passed over, and `mask` says so. */
  predicate Watched(p: nat, m: Mask, j: nat) {
    p + 1 <= j <= p + 3 && Bit(m, j - p - 1)
  }

  /** The bit moves down with every byte, whether that byte is an opcode or not. */
  lemma WatchedNext(p: nat, m: Mask, j: nat, n: Mask)
    requires Watched(p, m, j) && (n == m / 2 || n == m / 2 + 4)
    ensures j == p + 1 || Watched(p + 1, n, j)
  {}

  lemma WatchedAlone(p: nat, m: Mask, j: nat)
    requires Watched(p, m, j)
    ensures m != 0 && (One(m) ==> j == p + 1 + m / 2)
  {}

  /** The bytes of an operand. */
  lemma OperandBytes(d: seq<Byte>, q: nat, k: nat)
    requires q + 5 <= |d| && k <= 2
    ensures ByteAt(Operand(d, q), k) == d[q + 1 + k]
    ensures Operand(d, q) / BIT24 == d[q + 4]
  {
    var o := d[q + 1..q + 5];
    BytesOf(o[3], o[2], o[1], o[0]);
  }

  lemma NewOperand(d: seq<Byte>, q: nat, v: Word)
    requires q + 5 <= |d|
    ensures Operand(WithOperand(d, q, v), q) == v
  {}

  /** When a guarded instruction is converted, the guarded byte is no sign before or after. */
  lemma ConvertedKeepsGuard(encoding: bool, d: seq<Byte>, q: nat, m: Mask, pc: Word)
    requires q + 5 <= |d| && Converts(d, q, m) && One(m)
    ensures !IsSign(d[q + 1 + m / 2])
    ensures !IsSign(WithOperand(d, q, Converted(encoding, d, q, m, pc))[q + 1 + m / 2])
  {
    var k, v := m / 2, Converted(encoding, d, q, m, pc);
    OperandBytes(d, q, k);
    GuardedStays(encoding, Operand(d, q), Behind(pc, q), k);
    NewOperand(d, q, v);
    OperandBytes(WithOperand(d, q, v), q, k);
  }

  /** The watched byte does not become a sign. */
  lemma {:induction false} WatchedStaysNoSign(encoding: bool, d: seq<Byte>, p: nat, m: Mask, e: nat, pc: Word, j: nat)
    requires 5 <= |d| && p <= e <= |d| && Watched(p, m, j) && j < |d| && !IsSign(d[j])
    ensures !IsSign(Run(encoding, d, p, m, e, pc).data[j])
    decreases |d| - p, if p == e then 1 else 0
  {
    hide Operand, IsOpcode, SmallOperand, IsSign, Plain, Guarded, Bit, Converted;
    WatchedAlone(p, m, j);
    if p == e {
      if p + 4 < |d| { WatchedStaysNoSign(encoding, d, p, m, p + 4, pc, j); }
    } else if !IsOpcode(d[p]) {
      WatchedNext(p, m, j, m / 2);
      if j == p + 1 {
        Untouched(encoding, d, p + 1, m / 2, e, pc, j);
      } else {
        WatchedStaysNoSign(encoding, d, p + 1, m / 2, e, pc, j);
      }
    } else if p + 4 < |d| {
      if Converts(d, p, m) {
        ConvertedKeepsGuard(encoding, d, p, m, pc);
        Untouched(encoding, WithOperand(d, p, Converted(encoding, d, p, m, pc)), p + 5, 0, p + 5, pc, j);
      } else {
        WatchedNext(p, m, j, m / 2 + 4);
        if j == p + 1 {
          Untouched(encoding, d, p + 1, m / 2 + 4, p + 1, pc, j);
        } else {
          WatchedStaysNoSign(encoding, d, p + 1, m / 2 + 4, p + 1, pc, j);
        }
      }
    }
  }

  /** Another opcode was passed over after the watched one. */
  predicate Followed(p: nat, m: Mask, j: nat) {
    Watched(p, m, j) && j <= p + 2 && (if j == p + 1 then m / 2 != 0 else m / 4 != 0)
  }

  lemma FollowedNext(p: nat, m: Mask, j: nat, n: Mask)
    requires Followed(p, m, j) && (n == m / 2 || n == m / 2 + 4)
    ensures m != 0 && !One(m) && (j == p + 1 || Followed(p + 1, n, j))
  {}

  /** Then nothing is converted before the watched byte has been passed, and it stays as it is. */
  lemma {:induction false} FollowedStays(encoding: bool, d: seq<Byte>, p: nat, m: Mask, e: nat, pc: Word, j: nat)
    requires 5 <= |d| && p <= e <= |d| && Followed(p, m, j) && j < |d|
    ensures Run(encoding, d, p, m, e, pc).data[j] == d[j]
    decreases |d| - p, if p == e then 1 else 0
  {
    hide Operand, IsOpcode, SmallOperand, IsSign, Plain, Guarded, Bit, Converted, Watched;
    FollowedNext(p, m, j, m / 2);
    FollowedNext(p, m, j, m / 2 + 4);
    if p == e {
      if p + 4 < |d| { FollowedStays(encoding, d, p, m, p + 4, pc, j); }
    } else if !IsOpcode(d[p]) {
      if j == p + 1 {
        Untouched(encoding, d, p + 1, m / 2, e, pc, j);
      } else {
        FollowedStays(encoding, d, p + 1, m / 2, e, pc, j);
      }
    } else if p + 4 < |d| {
      if j == p + 1 {
        Untouched(encoding, d, p + 1, m / 2 + 4, p + 1, pc, j);
      } else {
        FollowedStays(encoding, d, p + 1, m / 2 + 4, p + 1, pc, j);
      }
    }
  }

  /** An instruction that was passed over is passed over again when the bytes behind it have been converted. */
  lemma PassedAgain(encoding: bool, d: seq<Byte>, q: nat, m: Mask, pc: Word)
    requires q + 5 <= |d| && !Converts(d, q, m)
    ensures !Converts(Run(encoding, d, q + 1, m / 2 + 4, q + 1, pc).data, q, m)
  {
    hide IsOpcode, Run, IsSign, SmallOperand, Operand;
    var f := Run(encoding, d, q + 1, m / 2 + 4, q + 1, pc).data;
    OperandBytes(d, q, 0);
    OperandBytes(f, q, 0);
    SmallIsSign(Operand(d, q));
    SmallIsSign(Operand(f, q));
    if !SmallOperand(Operand(d, q)) {
      WatchedStaysNoSign(encoding, d, q + 1, m / 2 + 4, q + 1, pc, q + 4);
    } else if One(m) {
      var j := q + 1 + m / 2;
      if m == 1 {
        Untouched(encoding, d, q + 1, m / 2 + 4, q + 1, pc, j);
      } else {
        FollowedStays(encoding, d, q + 1, m / 2 + 4, q + 1, pc, j);
      }
    }
  }

  // ----- the way back -----

  /** Decoding a converted instruction gives the operand back. */
  lemma OperandBack(encoding: bool, d: seq<Byte>, q: nat, m: Mask, pc: Word, f: seq<Byte>)
    requires q + 5 <= |d| == |f| && Converts(d, q, m)
    requires f[q + 1..q + 5] == WithOperand(d, q, Converted(encoding, d, q, m, pc))[q + 1..q + 5]
    ensures Converts(f, q, m) && Converted(!encoding, f, q, m, pc) == Operand(d, q)
  {
    var s, c := Operand(d, q), Behind(pc, q);
    var v := Converted(encoding, d, q, m, pc);
    hide Plain, Guarded, SmallOperand, IsSign, LeBytes;
    assert Operand(f, q) == v;
    if m == 0 {
      PlainBack(encoding, s, c);
    } else {
      var k := m / 2;
      OperandBytes(d, q, k);
      OperandBytes(f, q, k);
      GuardedStays(encoding, s, c, k);
      GuardedBack(encoding, s, c, k);
    }
  }

  /** The decoder, run over what the encoder made, gives the bytes back, and ends at the same position with the
      same mask; from any position, mask and piece. */
  lemma {:induction false} RoundTrip(d: seq<Byte>, p: nat, m: Mask, e: nat, pc: Word)
    requires 5 <= |d| && p <= e <= |d|
    ensures var r := Run(true, d, p, m, e, pc); Run(false, r.data, p, m, e, pc) == End(d, r.p, r.mask)
    decreases |d| - p, if p == e then 2 else 1
  {
    hide Operand, SmallOperand, IsSign, Plain, Guarded, IsOpcode;
    var f := Run(true, d, p, m, e, pc).data;
    if p < |d| { Untouched(true, d, p, m, e, pc, p); }
    if p == e {
      if p + 4 < |d| { RoundTrip(d, p, m, p + 4, pc); }
    } else if !IsOpcode(d[p]) {
      RoundTrip(d, p + 1, m / 2, e, pc);
    } else if p + 4 < |d| {
      if Converts(d, p, m) {
        RoundTripConverted(d, p, m, e, pc);
      } else {
        PassedAgain(true, d, p, m, pc);
        RoundTrip(d, p + 1, m / 2 + 4, p + 1, pc);
      }
    }
  }

  lemma RoundTripConverted(d: seq<Byte>, p: nat, m: Mask, e: nat, pc: Word)
    requires 5 <= |d| && p < e <= |d| && p + 4 < |d| && IsOpcode(d[p]) && Converts(d, p, m)
    ensures var r := Run(true, d, p, m, e, pc); Run(false, r.data, p, m, e, pc) == End(d, r.p, r.mask)
    decreases |d| - p, 0
  {
    hide Operand, SmallOperand, IsSign, Plain, Guarded, IsOpcode;
    var q := p + 5;
    var x := WithOperand(d, p, Converted(true, d, p, m, pc));
    RoundTrip(x, q, 0, q, pc);
    var r := Run(true, x, q, 0, q, pc);
    assert r == Run(true, d, p, m, e, pc);
    var f := r.data;
    forall i | 0 <= i < q ensures f[i] == x[i] { Untouched(true, x, q, 0, q, pc, i); }
    assert f[p + 1..q] == x[p + 1..q];
    OperandBack(true, d, p, m, pc, f);
    var y := WithOperand(f, p, Operand(d, p));
    hide Run, Converts, Converted;
    Restored(d, f, y, p);
    Local(false, f, y, q, 0, q, pc);
    Assemble(d, x, y, p, Run(false, y, q, 0, q, pc).data, pc);
  }

  lemma Restored(d: seq<Byte>, f: seq<Byte>, y: seq<Byte>, p: nat)
    requires p + 5 <= |d| == |f| && y == WithOperand(f, p, Operand(d, p)) && forall i :: 0 <= i <= p ==> f[i] == d[i]
    ensures SameFrom(f, y, p + 5) && forall i :: 0 <= i < p + 5 ==> y[i] == d[i]
  {
    var o := d[p + 1..p + 5];
    LeOf(o);
    forall i | 0 <= i < p + 5 ensures y[i] == d[i] {
      if i > p { assert y[p + 1..p + 5][i - p - 1] == o[i - p - 1]; }
    }
  }

  lemma Assemble(d: seq<Byte>, x: seq<Byte>, y: seq<Byte>, p: nat, z: seq<Byte>, pc: Word)
    requires 5 <= p + 5 <= |d| == |x| == |y| && z == Run(false, y, p + 5, 0, p + 5, pc).data
    requires forall i :: 0 <= i < p + 5 ==> y[i] == d[i]
    requires forall i :: p + 5 <= i < |d| ==> x[i] == d[i] && z[i] == x[i]
    ensures z == d
  {
    hide Run;
    forall i | 0 <= i < p + 5 ensures z[i] == d[i] { Untouched(false, y, p + 5, 0, p + 5, pc, i); }
  }

  // ----- the code -----

  /** The four bytes of a piece from `p`: `n` of them come before the first opcode. */
  method ScanPiece(data: array<Byte>, p: nat, mask0: Mask) returns (n: nat, mask: Mask)
    requires p + 4 <= data.Length
    ensures n <= 4 && mask == Shifted(mask0, n) && (n < 4 ==> IsOpcode(data[p + n]))
    ensures forall i :: p <= i < p + n ==> !IsOpcode(data[i])
  {
    hide IsOpcode;
    n, mask := 0, mask0;
    if IsOpcode(data[p]) { return; }
    n, mask := 1, mask / 2;
    if IsOpcode(data[p + 1]) { return; }
    n, mask := 2, mask / 2;
    if IsOpcode(data[p + 2]) { return; }
    n, mask := 3, 0;
    if IsOpcode(data[p + 3]) { return; }
    n := 4;
  }

  function Shifted(m: Mask, n: nat): Mask {
    if n == 0 then m else if n == 1 then m / 2 else if n == 2 then m / 4 else 0
  }

  /** Passing bytes that are no opcodes. */
  lemma RunPasses(encoding: bool, d: seq<Byte>, p: nat, m: Mask, e: nat, pc: Word, n: nat)
    requires 5 <= |d| && p + n <= e <= |d| && n <= 4 && forall i :: p <= i < p + n ==> !IsOpcode(d[i])
    ensures Run(encoding, d, p, m, e, pc) == Run(encoding, d, p + n, Shifted(m, n), e, pc)
    decreases n
  {
    hide Converts, Converted, IsOpcode;
    if n > 0 {
      RunPasses(encoding, d, p + 1, m / 2, e, pc, n - 1);
    }
  }

  /** Puts a word in place of an operand. */
  method SetOperand(data: array<Byte>, q: nat, v: Word)
    requires q + 5 <= data.Length
    modifies data
    ensures data[..] == WithOperand(old(data[..]), q, v)
  {
    data[q + 1] := v % 256;
    data[q + 2] := v / 256 % 256;
    data[q + 3] := v / 0x1_0000 % 256;
    data[q + 4] := v / 0x100_0000;
  }

  /** The opcode at `q`: converts it, or passes over it. */
  method Opcode(data: array<Byte>, q: nat, mask0: Mask, pc: Word, encoding: bool) returns (p: nat, mask: Mask)
    requires q + 5 <= data.Length
    modifies data
    ensures var d := old(data[..]);
      if Converts(d, q, mask0) then
        p == q + 5 && mask == 0 && data[..] == WithOperand(d, q, Converted(encoding, d, q, mask0, pc))
      else p == q + 1 && mask == mask0 / 2 + 4 && data[..] == d
  {
    hide Le32, LeBytes, Moved, Flipped, IsSign, ByteAt;
    mask, p := mask0, q + 1;
    ghost var d := data[..];
    assert data[q + 1..q + 5] == d[q + 1..q + 5];
    if mask != 0 {
      if mask > 4 || mask == 3 {
        mask := mask / 2 + 4;
        return;
      }
      mask := mask / 2;
      if IsSign(data[p + mask]) {
        mask := mask + 4;
        return;
      }
    }
    var v := (Le32(data[q + 1..q + 5]) + BIT24) % WORD;
    if v >= BIT25 {
      mask := mask + 4;
      return;
    }
    var c := (pc + 4 + p) % WORD;
    v := Moved(encoding, v, c);
    if mask0 != 0 {
      if IsSign(ByteAt(v, mask)) {
        v := Moved(encoding, Flipped(v, mask), c);
      }
      mask := 0;
    }
    v := Signed25(v);
    SetOperand(data, q, v);
    p := q + 5;
  }

  /** The filter over a buffer. */
  method Convert(data: array<Byte>, pc: Word, state: Mask, encoding: bool) returns (p: nat, mask: Mask)
    modifies data
    ensures data.Length < 5 ==> p == 0 && mask == state && data[..] == old(data[..])
    ensures data.Length >= 5 ==> End(data[..], p, mask) == Run(encoding, old(data[..]), 0, state, 0, pc)
  {
    hide IsOpcode, Converts, Converted, Shifted;
    p, mask := 0, state;
    if data.Length < 5 { return; }
    var lim := data.Length - 4;
    while p < lim
      invariant p <= data.Length && Run(encoding, data[..], p, mask, p, pc)
        == Run(encoding, old(data[..]), 0, state, 0, pc)
      decreases data.Length - p
    {
      ghost var d, m := data[..], mask;
      var n;
      n, mask := ScanPiece(data, p, mask);
      RunPasses(encoding, d, p, m, p + 4, pc, n);
      p := p + n;
      if n < 4 {
        if p >= lim { return; }
        p, mask := Opcode(data, p, mask, pc, encoding);
      }
    }
  }
}
