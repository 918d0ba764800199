/** The LZMA decoder over a cyclic dictionary: symbol decoding in place, the look-ahead, and the
    streaming layer that carries up to 20 bytes from call to call. */
module LzmaDecoder {
  import opened Arith
  import opened Wrappers
  import opened BitModel
  import opened LzmaSymbol
  import opened LzmaLookahead
  import opened LzmaStream

  const MATCH_SPEC_LEN_START := 274
  const ERROR_FAIL := 511
  const ERROR_DATA := 512
  const RC_INIT_SIZE := 5

  /** Index of the byte at distance `d` before `pos` in a cyclic buffer. */
  function Back(pos: nat, d: nat, size: nat): int {
    pos - d + (if pos < d then size else 0)
  }

  /** The dictionary holds the last bytes of the output. */
  ghost predicate Window(dic: seq<Byte>, pos: nat, out: seq<Byte>) {
    && pos <= |dic|
    && forall d {:trigger Back(pos, d, |dic|)} ::
        1 <= d <= |out| && d <= |dic|
        ==> dic[Back(pos, d, |dic|)] == out[|out| - d]
  }

  lemma WindowPut(dic: seq<Byte>, pos: nat, out: seq<Byte>, b: Byte)
    requires Window(dic, pos, out) && pos < |dic|
    ensures Window(dic[pos := b], pos + 1, out + [b])
  {
    var dic', out' := dic[pos := b], out + [b];
    forall d {:trigger Back(pos + 1, d, |dic|)} | 1 <= d <= |out'| && d <= |dic|
      ensures dic'[Back(pos + 1, d, |dic|)] == out'[|out'| - d]
    {
      if d > 1 { assert Back(pos + 1, d, |dic|) == Back(pos, d - 1, |dic|); }
    }
  }

  /** Moving the write position from the end of the buffer to its start is unobservable. */
  lemma WindowWrap(dic: seq<Byte>, out: seq<Byte>)
    requires Window(dic, |dic|, out)
    ensures Window(dic, 0, out)
  {
    forall d {:trigger Back(0, d, |dic|)} | 1 <= d <= |out| && d <= |dic|
      ensures dic[Back(0, d, |dic|)] == out[|out| - d]
    {
      assert Back(0, d, |dic|) == Back(|dic|, d, |dic|);
    }
  }

  // ----- contexts from the 32-bit position -----

  lemma LowBits(total: nat, k: nat)
    requires k <= 4
    ensures total % WORD % Pow2(k) == total % Pow2(k)
  {
    Pow2Split(k, 4 - k);
    assert Pow2(4) == 16;
    ModOfMod(total, WORD, 16, 0x1000_0000);
    ModOfMod(total, 16, Pow2(k), Pow2(4 - k));
    ModOfMod(total % WORD, 16, Pow2(k), Pow2(4 - k));
  }

  /** `x & lpMask` for lpMask = (0x100 << lp) - (0x100 >> lc): bits 8-lc to 7+lp in place. */
  function MaskLp(x: nat, lc: nat, lp: nat): nat {
    Times(x / Pow2(Minus(8, lc)) % Pow2(lp + lc), Pow2(Minus(8, lc)))
  }

  /** The decoder's literal index, computed with one mask, is the look-ahead's, computed from the two
      contexts separately. */
  lemma LiteralIndicesAgree(p: Props, total: nat, prev: Byte)
    requires PropsOk(p)
    ensures LITERAL + 3 * Times(MaskLp(total % WORD * 256 + prev, p.lc, p.lp), Pow2(p.lc))
      == LiteralBase(p, total, prev)
  {
    Pow2Of8(p.lc);
    Pow2Split(p.lp, p.lc);
    LowBits(total, p.lp);
    MaskedPair(total % WORD, prev, Pow2(p.lp), Pow2(p.lc), Pow2(8 - p.lc));
  }

  lemma SeparateIndexAgrees(p: Props, total: nat, prev: Byte)
    requires PropsOk(p)
    ensures LITERAL + 0x300 * (Times(total % WORD % Pow2(p.lp), Pow2(p.lc)) + prev / Pow2(8 - p.lc))
      == LiteralBase(p, total, prev)
  {
    LowBits(total, p.lp);
  }

  lemma MaskedPair(pos: nat, prev: nat, a: nat, b: nat, c: nat)
    requires a > 0 && b * c == 256 && c > 0 && prev < 256
    ensures a * b > 0
    ensures Times(Times((pos * 256 + prev) / c % (a * b), c), b) == 0x100 * (Times(pos % a, b) + prev / c)
  {
    DivShift(pos, b, c, prev);
    QuotientBelow(prev, b, c);
    ModPair(pos, prev / c, a, b);
    MulSwap(Times(pos % a, b) + prev / c, c, b);
  }

  lemma RunBit(adapt: bool, probs: seq<Prob>, input: seq<Byte>, rc: Coder, i: nat, zero: Prog, one: Prog)
    requires i < |probs|
    ensures Normalize(input, rc).None? ==> Run(adapt, probs, input, rc, Bit(i, zero, one)).Eof?
    ensures Normalize(input, rc).Some? ==>
              var n := Normalize(input, rc).value;
              var bit := BitOf(n, probs[i]);
              Run(adapt, probs, input, rc, Bit(i, zero, one))
                == Run(adapt, if adapt then probs[i := Adapt(probs[i], bit)] else probs, input, Narrow(n, probs[i]),
                       if bit == 0 then zero else one)
  {}

  lemma RunDirect(adapt: bool, probs: seq<Prob>, input: seq<Byte>, rc: Coder, zero: Prog, one: Prog)
    ensures Normalize(input, rc).None? ==> Run(adapt, probs, input, rc, Direct(zero, one)).Eof?
    ensures Normalize(input, rc).Some? ==>
              var n := Normalize(input, rc).value;
              Run(adapt, probs, input, rc, Direct(zero, one))
                == Run(adapt, probs, input, Halve(n), if DirectBit(n) == 0 then zero else one)
  {}

  datatype Status = NotSpecified | FinishedWithMark | NotFinished | NeedsMoreInput | MaybeFinishedWithoutMark

  datatype Dummy = InputEof | Lit | NonRepMatch | RepMatch

  function KindOf(s: Symbol): Dummy {
    match s
    case Literal(_) => Lit
    case ShortRep => RepMatch
    case Rep(_, _) => RepMatch
    case Match(_, _) => NonRepMatch
  }

  class LzmaDec {
    const p: Props
    const probs: array<Prob>
    const dic: array<Byte>
    const tempBuf: array<Byte>
    var dicPos: nat
    var buf: nat
    var range: Word
    var code: Word
    var processedPos: Word
    var checkDicSize: Word
    var rep0: nat
    var rep1: nat
    var rep2: nat
    var rep3: nat
    var state: nat
    var remainLen: nat
    var tempBufSize: nat
    /** All bytes written to the dictionary since its last reset. */
    ghost var out: seq<Byte>

    ghost function Rc(): Coder
      reads `range, `code, `buf
    {
      Coder(range, code, buf)
    }

    // ----- bits -----

    method NormalizeCoder(input: seq<Byte>)
      requires Normalize(input, Rc()).Some?
      modifies `range, `code, `buf
      ensures Rc() == old(Normalize(input, Rc())).value
    {
      if range < TOP {
        range, code, buf := range * 256, (code * 256 + input[buf]) % WORD, buf + 1;
      }
    }

    /** One modelled bit. `zero` and `one` are the rest of the symbol's tree. */
    method DecodeBit(input: seq<Byte>, i: nat, ghost zero: Prog, ghost one: Prog) returns (bit: nat)
      requires Run(true, probs[..], input, Rc(), Bit(i, zero, one)).Parsed?
      modifies `range, `code, `buf, probs
      ensures bit < 2
      ensures Run(true, probs[..], input, Rc(), if bit == 0 then zero else one)
           == old(Run(true, probs[..], input, Rc(), Bit(i, zero, one)))
    {
      NormalizeCoder(input);
      var ttt := probs[i];
      BoundFits(range, ttt);
      var bound := range / 2048 * ttt;
      if code < bound {
        range := bound;
        probs[i] := ttt + (PROB_TOTAL - ttt) / 32;
        bit := 0;
      } else {
        range, code := range - bound, code - bound;
        probs[i] := ttt - ttt / 32;
        bit := 1;
      }
      assert probs[..] == old(probs[..])[i := Adapt(ttt, bit)];
    }

    method DecodeTree(input: seq<Byte>, base: nat, limit: nat, ghost k: nat -> Prog) returns (m: nat)
      requires limit >= 1
      requires Run(true, probs[..], input, Rc(), TreeProg(base, limit, 1, k)).Parsed?
      modifies `range, `code, `buf, probs
      ensures limit <= m < 2 * limit
      ensures Run(true, probs[..], input, Rc(), k(m))
           == old(Run(true, probs[..], input, Rc(), TreeProg(base, limit, 1, k)))
    {
      hide Run;
      ghost var r0 := Run(true, probs[..], input, Rc(), TreeProg(base, limit, 1, k));
      m := 1;
      while m < limit
        invariant 1 <= m < 2 * limit
        invariant Run(true, probs[..], input, Rc(), TreeProg(base, limit, m, k)) == r0
      {
        var bit := DecodeBit(input, base + m, TreeProg(base, limit, 2 * m, k), TreeProg(base, limit, 2 * m + 1, k));
        m := 2 * m + bit;
      }
    }

    method DecodeMatched(input: seq<Byte>, base: nat, matchByte0: Byte, ghost k: nat -> Prog) returns (symbol: nat)
      requires Run(true, probs[..], input, Rc(), MatchedProg(base, matchByte0, true, 1, k)).Parsed?
      modifies `range, `code, `buf, probs
      ensures 0x100 <= symbol < 0x200
      ensures Run(true, probs[..], input, Rc(), k(symbol))
           == old(Run(true, probs[..], input, Rc(), MatchedProg(base, matchByte0, true, 1, k)))
    {
      hide Run;
      ghost var r0 := Run(true, probs[..], input, Rc(), MatchedProg(base, matchByte0, true, 1, k));
      var matchByte: nat, offs: nat := matchByte0, 0x100;
      symbol := 1;
      while symbol < 0x100
        invariant 1 <= symbol < 0x200 && (offs == 0 || offs == 0x100)
        invariant Run(true, probs[..], input, Rc(), MatchedProg(base, matchByte, offs == 0x100, symbol, k)) == r0
      {
        var bitMask := offs;
        var both := offs == 0x100 && matchByte * 2 / 0x100 % 2 == 1;
        ghost var zero := MatchedProg(base, matchByte * 2, both != (offs == 0x100), 2 * symbol, k);
        ghost var one := MatchedProg(base, matchByte * 2, both, 2 * symbol + 1, k);
        matchByte := matchByte + matchByte;
        offs := if both then 0x100 else 0;
        var bit := DecodeBit(input, base + offs + bitMask + symbol, zero, one);
        if bit == 0 {
          offs := if offs == bitMask then 0 else 0x100;
        }
        symbol := 2 * symbol + bit;
      }
    }

    /** `n` bits of a reverse tree; `start` is the index of the first probability less one. */
    method DecodeReverse(input: seq<Byte>, start: nat, n: nat, ghost k: nat -> Prog) returns (v: nat)
      requires Run(true, probs[..], input, Rc(), ReverseProg(start, 0, 1, n, k)).Parsed?
      modifies `range, `code, `buf, probs
      ensures v < Pow2(n)
      ensures Run(true, probs[..], input, Rc(), k(v))
           == old(Run(true, probs[..], input, Rc(), ReverseProg(start, 0, 1, n, k)))
    {
      hide Run;
      ghost var r0 := Run(true, probs[..], input, Rc(), ReverseProg(start, 0, 1, n, k));
      var i, m, left := start + 1, 1, n;
      v := 0;
      while left != 0
        invariant 0 <= left <= n && i == start + v + m && v < m && m >= 1
        invariant m * Pow2(left) == Pow2(n)
        invariant Run(true, probs[..], input, Rc(), ReverseProg(start, v, m, left, k)) == r0
        decreases left
      {
        PowStep(m, left);
        var bit := DecodeBit(input, i, ReverseProg(start, v, 2 * m, left - 1, k),
                             ReverseProg(start, v + m, 2 * m, left - 1, k));
        if bit == 0 {
          i, m := i + m, m + m;
        } else {
          v := v + m;
          m := m + m;
          i := i + m;
        }
        left := left - 1;
      }
      PowStep(m, 0);
    }

    method DecodeDirect(input: seq<Byte>, n: nat, distance0: nat, ghost k: nat -> Prog) returns (distance: nat)
      requires Run(true, probs[..], input, Rc(), DirectProg(n, distance0, k)).Parsed?
      modifies `range, `code, `buf
      ensures Run(true, probs[..], input, Rc(), k(distance))
           == old(Run(true, probs[..], input, Rc(), DirectProg(n, distance0, k)))
    {
      hide Run;
      ghost var r0 := Run(true, probs[..], input, Rc(), DirectProg(n, distance0, k));
      var left := n;
      distance := distance0;
      while left != 0
        invariant Run(true, probs[..], input, Rc(), DirectProg(left, distance, k)) == r0
        decreases left
      {
        RunDirect(true, probs[..], input, Rc(), DirectProg(left - 1, 2 * distance, k),
                  DirectProg(left - 1, 2 * distance + 1, k));
        NormalizeCoder(input);
        range := range / 2;
        var diff := (code - range + WORD) % WORD;
        if diff >= 0x8000_0000 {
          distance := 2 * distance;
        } else {
          code, distance := diff, 2 * distance + 1;
        }
        left := left - 1;
      }
    }

    /** The match length less 2. */
    method DecodeLen(input: seq<Byte>, base: nat, posState: nat, ghost k: nat -> Prog) returns (len: nat)
      requires Run(true, probs[..], input, Rc(), LenProg(base, posState, k)).Parsed?
      modifies `range, `code, `buf, probs
      ensures len < 272
      ensures Run(true, probs[..], input, Rc(), k(len))
           == old(Run(true, probs[..], input, Rc(), LenProg(base, posState, k)))
    {
      hide Run;
      ghost var low, high := (m: nat) => k(Minus(m, 8)), (m: nat) => k(Minus(m, 240));
      ghost var lowTree, midTree, highTree := TreeProg(base + posState, 8, 1, low),
                                              TreeProg(base + posState + 8, 8, 1, k),
                                              TreeProg(base + 256, 256, 1, high);
      var choice := DecodeBit(input, base, lowTree, Bit(base + 8, midTree, highTree));
      if choice == 0 {
        len := DecodeTree(input, base + posState, 8, low);
        assert low(len) == k(Minus(len, 8));
        len := len - 8;
      } else {
        var choice2 := DecodeBit(input, base + 8, midTree, highTree);
        if choice2 == 0 {
          len := DecodeTree(input, base + posState + 8, 8, k);
        } else {
          len := DecodeTree(input, base + 256, 256, high);
          assert high(len) == k(Minus(len, 240));
          len := len - 256 + 16;
        }
      }
    }

    /** The distance less 1: a slot of 6 bits, then a reverse tree, or direct bits and a reverse tree. */
    method DecodeDistance(input: seq<Byte>, len: nat, ghost k: nat -> Prog) returns (distance: nat)
      requires Run(true, probs[..], input, Rc(), DistProg(len, k)).Parsed?
      modifies `range, `code, `buf, probs
      ensures Run(true, probs[..], input, Rc(), k(distance))
           == old(Run(true, probs[..], input, Rc(), DistProg(len, k)))
    {
      hide Run, SlotProg, TreeProg;
      ghost var slots := (m: nat) => SlotProg(Minus(m, 64), k);
      var m := DecodeTree(input, POS_SLOT + 64 * (if len < 4 then len else 3), 64, slots);
      assert slots(m) == SlotProg(Minus(m, 64), k);
      distance := m - 64;
      SmallSlot(distance, k);
      if distance < 4 {
      } else if distance < 14 {
        distance := DecodeShortDistance(input, distance, k);
      } else {
        distance := DecodeLongDistance(input, distance, k);
      }
    }

    method DecodeShortDistance(input: seq<Byte>, posSlot: nat, ghost k: nat -> Prog) returns (distance: nat)
      requires 4 <= posSlot < 14
      requires Run(true, probs[..], input, Rc(), SlotProg(posSlot, k)).Parsed?
      modifies `range, `code, `buf, probs
      ensures Run(true, probs[..], input, Rc(), k(distance))
           == old(Run(true, probs[..], input, Rc(), SlotProg(posSlot, k)))
    {
      hide Run, ReverseProg, Pow2;
      var numDirectBits := posSlot / 2 - 1;
      distance := (2 + posSlot % 2) * Pow2(numDirectBits);
      ghost var top := 2 + posSlot % 2;
      ghost var k' := (v: nat) => k(top * Pow2(numDirectBits) + v);
      var v := DecodeReverse(input, SPEC_POS + distance, numDirectBits, k');
      assert k'(v) == k(top * Pow2(numDirectBits) + v);
      distance := distance + v;
    }

    method DecodeLongDistance(input: seq<Byte>, posSlot: nat, ghost k: nat -> Prog) returns (distance: nat)
      requires 14 <= posSlot
      requires Run(true, probs[..], input, Rc(), SlotProg(posSlot, k)).Parsed?
      modifies `range, `code, `buf, probs
      ensures Run(true, probs[..], input, Rc(), k(distance))
           == old(Run(true, probs[..], input, Rc(), SlotProg(posSlot, k)))
    {
      hide Run, ReverseProg;
      ghost var k' := (d: nat) => ReverseProg(ALIGN, 0, 1, 4, (v: nat) => k(16 * d + v));
      var d := DecodeDirect(input, posSlot / 2 - 5, 2 + posSlot % 2, k');
      ghost var k'' := (v: nat) => k(16 * d + v);
      assert k'(d) == ReverseProg(ALIGN, 0, 1, 4, k'');
      var v := DecodeReverse(input, ALIGN, 4, k'');
      assert k''(v) == k(16 * d + v);
      distance := 16 * d + v;
    }

    // ----- dictionary -----

    /** The dictionary holds every byte that a valid distance can reach. */
    ghost predicate DicOk()
      reads `dicPos, `processedPos, `out, dic
    {
      && PropsOk(p)
      && Window(dic[..], dicPos, out)
      && (p.dicSize <= dic.Length || |out| <= dicPos)
      && processedPos == |out| % WORD
    }

    ghost predicate RepReachable(r: nat)
      reads `out
    {
      1 <= r <= |out| && r <= p.dicSize
    }

    lemma BackIsInside(r: nat)
      requires DicOk() && RepReachable(r)
      ensures 0 <= Back(dicPos, r, dic.Length) < dic.Length
      ensures dic[Back(dicPos, r, dic.Length)] == ByteAt(out, r)
    {
      assert dic[..][Back(dicPos, r, |dic[..]|)] == out[|out| - r];
    }

    method PutByte(b: Byte)
      requires DicOk() && dicPos < dic.Length
      modifies `dicPos, `processedPos, `out, dic
      ensures DicOk() && dicPos == old(dicPos) + 1 && out == old(out) + [b]
      ensures dic[old(dicPos)] == b && forall i :: 0 <= i < dic.Length && i != old(dicPos) ==> dic[i] == old(dic[i])
    {
      WindowPut(dic[..], dicPos, out, b);
      ghost var dic' := dic[..][dicPos := b];
      dic[dicPos] := b;
      assert dic[..] == dic';
      dicPos := dicPos + 1;
      out := out + [b];
      processedPos := (processedPos + 1) % WORD;
    }

    /** Copies `n` bytes from distance rep0. */
    method CopyBytes(n: nat)
      requires DicOk() && RepReachable(rep0) && n >= 1 && dicPos + n <= dic.Length
      modifies `dicPos, `processedPos, `out, dic
      ensures DicOk() && dicPos == old(dicPos) + n && out == CopyOut(old(out), rep0, n)
    {
      BackIsInside(rep0);
      var pos := dicPos - rep0 + (if dicPos < rep0 then dic.Length else 0);
      if n <= dic.Length - pos {
        CopyStraight(n, pos - dicPos);
      } else {
        CopyCyclic(n, pos);
      }
    }

    /** The source does not meet the end of the buffer: both indices advance together. */
    method CopyStraight(n: nat, src: int)
      requires DicOk() && RepReachable(rep0) && dicPos + n <= dic.Length && n >= 1
      requires dicPos + src == Back(dicPos, rep0, dic.Length) && dicPos + src + n <= dic.Length
      modifies `dicPos, `processedPos, `out, dic
      ensures DicOk() && dicPos == old(dicPos) + n && out == CopyOut(old(out), rep0, n)
    {
      hide Window;
      var lim := dicPos + n;
      while dicPos < lim
        invariant DicOk() && dicPos <= lim <= dic.Length
        invariant RepReachable(rep0) && rep0 == old(rep0)
        invariant dicPos < lim ==> Back(dicPos, rep0, dic.Length) == dicPos + src
        invariant lim + src <= dic.Length
        invariant CopyOut(out, rep0, lim - dicPos) == CopyOut(old(out), rep0, n)
      {
        BackIsInside(rep0);
        PutByte(dic[dicPos + src]);
      }
    }

    method CopyCyclic(n: nat, pos0: nat)
      requires DicOk() && RepReachable(rep0) && dicPos + n <= dic.Length
      requires n >= 1 ==> pos0 == Back(dicPos, rep0, dic.Length)
      modifies `dicPos, `processedPos, `out, dic
      ensures DicOk() && dicPos == old(dicPos) + n && out == CopyOut(old(out), rep0, n)
    {
      hide Window;
      var pos := pos0;
      var curLen := n;
      while curLen != 0
        invariant 0 <= curLen <= n && dicPos == old(dicPos) + n - curLen
        invariant DicOk() && RepReachable(rep0) && rep0 == old(rep0)
        invariant curLen != 0 ==> pos == Back(dicPos, rep0, dic.Length)
        invariant CopyOut(out, rep0, curLen) == CopyOut(old(out), rep0, n)
        decreases curLen
      {
        BackIsInside(rep0);
        PutByte(dic[pos]);
        pos := pos + 1;
        if pos == dic.Length { pos := 0; }
        curLen := curLen - 1;
      }
    }

    // ----- one symbol -----

    ghost function Decoder(o: seq<Byte>): Ideal
      reads `range, `code, `rep0, `rep1, `rep2, `rep3, `state, probs
    {
      Ideal(probs[..], range, code, rep0, rep1, rep2, rep3, state, o)
    }

    ghost predicate RepsOk()
      reads `rep0, `rep1, `rep2, `rep3, `state, `out
    {
      if out == [] then rep0 == rep1 == rep2 == rep3 == 1 && state == 0
      else RepReachable(rep0) && RepReachable(rep1) && RepReachable(rep2) && RepReachable(rep3)
    }

    /** `checkDicSize` stays 0 until the dictionary is full, and `limit` stops decoding at that point. */
    ghost predicate LimitOk(limit: nat)
      reads `dicPos, `checkDicSize, `out
    {
      && dicPos <= limit <= dic.Length
      && (if checkDicSize == 0 then |out| + (limit - dicPos) <= p.dicSize
          else checkDicSize == p.dicSize && |out| >= p.dicSize)
    }

    ghost predicate Core()
      reads `dicPos, `processedPos, `out, `rep0, `rep1, `rep2, `rep3, `state, dic
    {
      && DicOk() && RepsOk() && state < 12
      && probs.Length == NumProbs(p)
      && tempBuf.Length == REQUIRED_INPUT_MAX && tempBuf != dic
    }

    ghost predicate CtxMatches(ctx: Ctx)
      reads `state, `rep0, `out
    {
      && ctx.state == state
      && ctx.posState == |out| % Pow2(p.pb) * 16
      && ctx.lit == (if out == [] then LITERAL else LiteralBase(p, |out|, ByteAt(out, 1)))
      && ctx.matchByte == ByteAt(out, rep0)
    }

    /** The state shows the result of a step, with the rest of a match still to be copied. */
    ghost predicate Shows(r: Result)
      reads `range, `code, `rep0, `rep1, `rep2, `rep3, `state, `remainLen, `out, probs
    {
      match r
      case Running(d) => remainLen <= 273 && (remainLen > 0 ==> out != [])
                         && Decoder(CopyOut(out, rep0, remainLen)) == d
      case Ended(d) => remainLen == MATCH_SPEC_LEN_START && Decoder(out) == d
      case Broken => remainLen >= ERROR_DATA
      case Stuck => false
    }

    lemma PositionIsZeroAtStart(limit: nat)
      requires DicOk() && LimitOk(limit)
      ensures processedPos != 0 || checkDicSize != 0 <==> out != []
    {}

    method LiteralIndex(ghost limit: nat) returns (lit: nat)
      requires DicOk() && LimitOk(limit)
      ensures lit == (if out == [] then LITERAL else LiteralBase(p, |out|, ByteAt(out, 1)))
    {
      hide Window;
      lit := LITERAL;
      PositionIsZeroAtStart(limit);
      if processedPos != 0 || checkDicSize != 0 {
        PrevByte();
        var prev := dic[(if dicPos == 0 then dic.Length else dicPos) - 1];
        LiteralIndicesAgree(p, |out|, prev);
        lit := lit + 3 * Times(MaskLp(processedPos * 256 + prev, p.lc, p.lp), Pow2(p.lc));
      }
    }

    method LiteralSymbol(input: seq<Byte>, lit: nat, ghost ctx: Ctx) returns (symbol: nat)
      requires DicOk() && state < 12
      requires ctx.lit == lit && ctx.state == state
        && (state >= 7 ==> RepReachable(rep0) && ctx.matchByte == ByteAt(out, rep0))
      requires Run(true, probs[..], input, Rc(), LiteralProg(ctx)).Parsed?
      modifies `range, `code, `buf, probs
      ensures old(Run(true, probs[..], input, Rc(), LiteralProg(ctx)))
        == Parsed(Literal(symbol % 0x100), Rc(), probs[..])
    {
      hide Run, Window;
      if state < 7 {
        symbol := DecodeTree(input, lit, 0x100, LiteralDone);
      } else {
        BackIsInside(rep0);
        var matchByte := dic[dicPos - rep0 + (if dicPos < rep0 then dic.Length else 0)];
        symbol := DecodeMatched(input, lit, matchByte, LiteralDone);
      }
      RunDone(input, Rc(), probs[..], LiteralDone(symbol));
    }

    method PerformLiteral(limit: nat, b: Byte)
      requires Core() && LimitOk(limit) && dicPos < limit && remainLen == 0
      modifies `state, `dicPos, `processedPos, `out, dic
      ensures Core() && LimitOk(limit) && dicPos > old(dicPos)
      ensures Shows(Apply(p, old(Decoder(out)), Literal(b)))
    {
      hide Window, NumProbs;
      if state < 7 {
        state := state - (if state < 4 then state else 3);
      } else {
        state := state - (if state < 10 then 3 else 6);
      }
      PutByte(b);
    }

    method DecodeLiteral(input: seq<Byte>, limit: nat, ghost ctx: Ctx, ghost r0: Outcome)
      requires Core() && LimitOk(limit) && dicPos < limit && remainLen == 0
      requires CtxMatches(ctx)
      requires r0 == Run(true, probs[..], input, Rc(), LiteralProg(ctx)) && r0.Parsed?
      modifies `range, `code, `buf, `state, `dicPos, `processedPos, `out, probs, dic
      ensures Core() && LimitOk(limit) && dicPos > old(dicPos)
      ensures Rc() == r0.rc
      ensures Shows(Apply(p, WithCoder(old(Decoder(out)), r0.rc, r0.probs), r0.sym))
    {
      hide Run, Window, LiteralBase, LiteralProg, NumProbs, ByteAt, Apply, Shows;
      var lit := LiteralIndex(limit);
      var symbol := LiteralSymbol(input, lit, ctx);
      PerformLiteral(limit, symbol % 0x100);
    }

    /** Copies what fits before `limit` and leaves the rest of the match in `remainLen`. */
    method FinishMatch(limit: nat, len: nat)
      requires DicOk() && LimitOk(limit) && RepReachable(rep0) && 2 <= len <= 273
      modifies `remainLen, `dicPos, `processedPos, `out, dic
      ensures DicOk() && LimitOk(limit) && remainLen <= len && old(out) <= out
      ensures CopyOut(out, rep0, remainLen) == CopyOut(old(out), rep0, len)
      ensures remainLen == 0 || dicPos == limit
      ensures if old(dicPos) < limit then dicPos > old(dicPos) else remainLen == len && dicPos == limit
    {
      hide Window;
      var rem := limit - dicPos;
      if rem == 0 {
        remainLen := len;
      } else {
        var curLen := if rem < len then rem else len;
        CopyOutSplit(out, rep0, curLen, len - curLen);
        CopyBytes(curLen);
        remainLen := len - curLen;
      }
    }

    /** What a match symbol does to the dictionary. An end mark stops the stream; a distance that
        reaches before the output or the dictionary is a data error. */
    method PerformMatch(limit: nat, len: nat, distance: nat)
      requires Core() && LimitOk(limit) && remainLen == 0 && 2 <= len <= 273
      modifies `state, `rep0, `rep1, `rep2, `rep3, `remainLen, `dicPos, `processedPos, `out, dic
      ensures DicOk() && LimitOk(limit) && (remainLen < ERROR_DATA ==> Core())
      ensures Shows(Apply(p, old(Decoder(out)), Match(len, distance)))
      ensures remainLen == 0 || remainLen >= MATCH_SPEC_LEN_START || dicPos == limit
      ensures old(dicPos) < limit && remainLen < MATCH_SPEC_LEN_START ==> dicPos > old(dicPos)
      ensures old(dicPos) <= dicPos && (old(dicPos) == limit ==> remainLen > 0)
    {
      hide Window, NumProbs, CopyOut, PropsOk;
      if distance == 0xFFFF_FFFF {
        remainLen := MATCH_SPEC_LEN_START;
        NoCopy();
        return;
      }
      DistanceLimit(limit);
      if distance >= (if checkDicSize == 0 then processedPos else checkDicSize) {
        rep0, rep1, rep2, rep3 := distance + 1, rep0, rep1, rep2;
        state := if state < 7 then 7 else 10;
        remainLen := len + ERROR_DATA;
        return;
      }
      CopyMatch(limit, len, distance);
    }

    method CopyMatch(limit: nat, len: nat, distance: nat)
      requires Core() && LimitOk(limit) && remainLen == 0 && 2 <= len <= 273
      requires distance < MaxDistance(p, Decoder(out)) && distance != 0xFFFF_FFFF
      modifies `state, `rep0, `rep1, `rep2, `rep3, `remainLen, `dicPos, `processedPos, `out, dic
      ensures Core() && LimitOk(limit)
      ensures Shows(Apply(p, old(Decoder(out)), Match(len, distance)))
      ensures remainLen == 0 || dicPos == limit
      ensures old(dicPos) < limit ==> dicPos > old(dicPos)
      ensures old(dicPos) <= dicPos && (old(dicPos) == limit ==> remainLen > 0)
    {
      hide Window, NumProbs, CopyOut, PropsOk;
      rep0, rep1, rep2, rep3 := distance + 1, rep0, rep1, rep2;
      state := if state < 7 then 7 else 10;
      FinishMatch(limit, len);
    }

    lemma CoreProps()
      requires Core()
      ensures PropsOk(p)
    {}

    lemma NoCopy()
      ensures CopyOut(out, rep0, 0) == out
    {}

    lemma DistanceLimit(limit: nat)
      requires DicOk() && LimitOk(limit)
      ensures (if checkDicSize == 0 then processedPos else checkDicSize) == MaxDistance(p, Decoder(out))
    {}

    method DecodeMatch(input: seq<Byte>, limit: nat, posState: nat, ghost ctx: Ctx, ghost r0: Outcome)
      requires Core() && LimitOk(limit) && remainLen == 0
      requires posState == ctx.posState
      requires r0 == Run(true, probs[..], input, Rc(), MatchProg(ctx)) && r0.Parsed?
      modifies `range, `code, `buf, `state, `rep0, `rep1, `rep2, `rep3, `remainLen, `dicPos, `processedPos, `out, probs,
        dic
      ensures DicOk() && LimitOk(limit) && (remainLen < ERROR_DATA ==> Core())
      ensures Rc() == r0.rc && r0.sym.Match?
      ensures Shows(Apply(p, WithCoder(old(Decoder(out)), r0.rc, r0.probs), r0.sym))
      ensures remainLen == 0 || remainLen >= MATCH_SPEC_LEN_START || dicPos == limit
      ensures old(dicPos) < limit && remainLen < MATCH_SPEC_LEN_START ==> dicPos > old(dicPos)
      ensures old(dicPos) <= dicPos && (old(dicPos) == limit ==> remainLen > 0)
    {
      hide Run, Window, NumProbs, Apply, MatchProg, Shows, PropsOk;
      var len, distance := MatchSymbol(input, posState, ctx);
      PerformMatch(limit, len + 2, distance);
    }

    method MatchSymbol(input: seq<Byte>, posState: nat, ghost ctx: Ctx) returns (len: nat, distance: nat)
      requires posState == ctx.posState
      requires Run(true, probs[..], input, Rc(), MatchProg(ctx)).Parsed?
      modifies `range, `code, `buf, probs
      ensures len < 272
      ensures old(Run(true, probs[..], input, Rc(), MatchProg(ctx)))
        == Parsed(Match(len + 2, distance), Rc(), probs[..])
    {
      hide Run;
      ghost var k := (len: nat) => DistProg(len, (dist: nat) => MatchDone(len, dist));
      len := DecodeLen(input, LEN_CODER, posState, k);
      ghost var k' := (dist: nat) => MatchDone(len, dist);
      assert k(len) == DistProg(len, k');
      distance := DecodeDistance(input, len, k');
      assert k'(distance) == MatchDone(len, distance);
      RunDone(input, Rc(), probs[..], MatchDone(len, distance));
    }

    method PerformRep(limit: nat, idx: nat, len: nat)
      requires Core() && LimitOk(limit) && remainLen == 0 && 2 <= len <= 273 && idx < 4 && out != []
      modifies `state, `rep0, `rep1, `rep2, `rep3, `remainLen, `dicPos, `processedPos, `out, dic
      ensures Core() && LimitOk(limit)
      ensures Shows(Apply(p, old(Decoder(out)), Rep(idx, len)))
      ensures remainLen == 0 || dicPos == limit
      ensures old(dicPos) < limit ==> dicPos > old(dicPos)
    {
      hide Window, NumProbs, CopyOut, PropsOk;
      if idx == 0 {
      } else if idx == 1 {
        rep0, rep1 := rep1, rep0;
      } else if idx == 2 {
        rep0, rep1, rep2 := rep2, rep0, rep1;
      } else {
        rep0, rep1, rep2, rep3 := rep3, rep0, rep1, rep2;
      }
      state := if state < 7 then 8 else 11;
      FinishMatch(limit, len);
    }

    method PerformShortRep(limit: nat)
      requires Core() && LimitOk(limit) && remainLen == 0 && out != [] && dicPos < limit
      modifies `state, `dicPos, `processedPos, `out, dic
      ensures Core() && LimitOk(limit) && dicPos > old(dicPos)
      ensures Shows(Apply(p, old(Decoder(out)), ShortRep))
    {
      hide Window, NumProbs, PropsOk;
      BackIsInside(rep0);
      PutByte(dic[dicPos - rep0 + (if dicPos < rep0 then dic.Length else 0)]);
      state := if state < 7 then 9 else 11;
    }

    /** Which of the four last distances, or a single byte at the last one (`short`). */
    method RepSymbol(input: seq<Byte>, posState: nat, ghost ctx: Ctx) returns (short: bool, idx: nat, len: nat)
      requires posState == ctx.posState && state == ctx.state
      requires Run(true, probs[..], input, Rc(), RepProg(ctx)).Parsed?
      modifies `range, `code, `buf, probs
      ensures len < 272 && idx < 4
      ensures old(Run(true, probs[..], input, Rc(), RepProg(ctx)))
           == Parsed(if short then ShortRep else Rep(idx, len + 2), Rc(), probs[..])
    {
      hide Run, RepLenProg;
      ghost var rep := RepProg(ctx);
      short, idx, len := false, 0, 0;
      var g0 := DecodeBit(input, IS_REP_G0 + state, rep.zero, rep.one);
      if g0 == 0 {
        var long := DecodeBit(input, IS_REP0_LONG + posState + state, rep.zero.zero, rep.zero.one);
        if long == 0 {
          RunDone(input, Rc(), probs[..], Done(ShortRep));
          short := true;
          return;
        }
      } else {
        var g1 := DecodeBit(input, IS_REP_G1 + state, rep.one.zero, rep.one.one);
        if g1 == 0 {
          idx := 1;
        } else {
          var g2 := DecodeBit(input, IS_REP_G2 + state, rep.one.one.zero, rep.one.one.one);
          idx := if g2 == 0 then 2 else 3;
        }
      }
      len := RepLen(input, posState, idx, ctx);
    }

    method RepLen(input: seq<Byte>, posState: nat, ghost idx: nat, ghost ctx: Ctx) returns (len: nat)
      requires posState == ctx.posState
      requires Run(true, probs[..], input, Rc(), RepLenProg(ctx, idx)).Parsed?
      modifies `range, `code, `buf, probs
      ensures len < 272
      ensures old(Run(true, probs[..], input, Rc(), RepLenProg(ctx, idx))) == Parsed(Rep(idx, len + 2), Rc(), probs[..])
    {
      hide Run;
      ghost var k := (len: nat) => RepDone(idx, len);
      len := DecodeLen(input, REP_LEN_CODER, posState, k);
      assert k(len) == RepDone(idx, len);
      RunDone(input, Rc(), probs[..], RepDone(idx, len));
    }

    method DecodeRep(input: seq<Byte>, limit: nat, posState: nat, ghost ctx: Ctx, ghost r0: Outcome)
      requires Core() && LimitOk(limit) && remainLen == 0 && out != [] && dicPos < limit
      requires posState == ctx.posState && state == ctx.state
      requires r0 == Run(true, probs[..], input, Rc(), RepProg(ctx)) && r0.Parsed?
      modifies `range, `code, `buf, `state, `rep0, `rep1, `rep2, `rep3, `remainLen, `dicPos, `processedPos, `out, probs,
        dic
      ensures Core() && LimitOk(limit)
      ensures Rc() == r0.rc
      ensures Shows(Apply(p, WithCoder(old(Decoder(out)), r0.rc, r0.probs), r0.sym))
      ensures remainLen == 0 || dicPos == limit
      ensures dicPos > old(dicPos)
    {
      hide Run, Window, NumProbs, Apply, RepProg, Shows, PropsOk;
      var short, idx, len := RepSymbol(input, posState, ctx);
      if short {
        PerformShortRep(limit);
      } else {
        PerformRep(limit, idx, len + 2);
      }
    }

    /** The body of the decoding loop: one symbol, in place. */
    method DecodeSymbol(input: seq<Byte>, limit: nat, ghost ctx: Ctx, ghost r0: Outcome)
      requires Core() && LimitOk(limit) && remainLen == 0
      requires ctx == CtxOf(p, Decoder(out))
      requires r0 == Run(true, probs[..], input, Rc(), SymbolProg(ctx)) && r0.Parsed?
      requires dicPos == limit ==> r0.sym.Match?
      requires out == [] ==> LiteralOrMatch(r0.sym)
      modifies `range, `code, `buf, `state, `rep0, `rep1, `rep2, `rep3, `remainLen, `dicPos, `processedPos, `out, probs,
        dic
      ensures DicOk() && LimitOk(limit) && (remainLen < ERROR_DATA ==> Core())
      ensures Rc() == r0.rc
      ensures Shows(Apply(p, WithCoder(old(Decoder(out)), r0.rc, r0.probs), r0.sym))
      ensures remainLen == 0 || remainLen >= MATCH_SPEC_LEN_START || dicPos == limit
      ensures old(dicPos) < limit && remainLen < MATCH_SPEC_LEN_START ==> dicPos > old(dicPos)
      ensures old(dicPos) <= dicPos && (old(dicPos) == limit ==> remainLen > 0)
    {
      hide Run, Window, NumProbs, Apply, RepProg, MatchProg, LiteralProg, Shows, LiteralBase;
      LowBits(|out|, p.pb);
      var posState := processedPos % Pow2(p.pb) * 16;
      ghost var prog := SymbolProg(ctx);
      var isMatch := DecodeBit(input, IS_MATCH + posState + state, prog.zero, prog.one);
      if isMatch == 0 {
        LiteralKind(ctx, input, probs[..], Rc());
        DecodeLiteral(input, limit, ctx, r0);
      } else {
        var isRep := DecodeBit(input, IS_REP + state, prog.one.zero, prog.one.one);
        if isRep == 0 {
          DecodeMatch(input, limit, posState, ctx, r0);
        } else {
          RepKind(ctx, input, probs[..], Rc());
          DecodeRep(input, limit, posState, ctx, r0);
        }
      }
    }

    lemma PrevByte()
      requires DicOk() && out != []
      ensures dic.Length > 0 && dic[(if dicPos == 0 then dic.Length else dicPos) - 1] == ByteAt(out, 1)
    {
      BackIsInside(1);
    }

    /** Decodes symbols until the limit, the input limit, an end mark or an error. At least one symbol
        is decoded. `chunks` cuts the consumed input into the codes of the symbols. */
    method DecodeReal(input: seq<Byte>, limit: nat, bufLimit: nat) returns (ok: bool, ghost chunks: seq<seq<Byte>>)
      requires Core() && LimitOk(limit) && remainLen == 0 && IdealOk(p, Decoder(out))
      requires buf <= |input| && (bufLimit <= buf || bufLimit + REQUIRED_INPUT_MAX <= |input|)
      requires DecodeOne(probs[..], input, Rc(), CtxOf(p, Decoder(out))).Parsed?
      requires dicPos == limit ==> DecodeOne(probs[..], input, Rc(), CtxOf(p, Decoder(out))).sym.Match?
      modifies `range, `code, `buf, `state, `rep0, `rep1, `rep2, `rep3, `remainLen, `dicPos, `processedPos, `out, probs,
        dic
      ensures DicOk() && LimitOk(limit) && (ok ==> Core())
      ensures old(buf) <= buf <= |input| && Concat(chunks) == input[old(buf)..buf] && chunks != [] && range >= TOP
      ensures Shows(Fold(StepOf(p), old(Decoder(out)), chunks))
      ensures ok <==> remainLen < ERROR_DATA
      ensures remainLen == 0 || remainLen >= MATCH_SPEC_LEN_START || dicPos == limit
      ensures old(dicPos) < limit && remainLen < MATCH_SPEC_LEN_START ==> dicPos > old(dicPos)
      ensures old(dicPos) <= dicPos && (old(dicPos) == limit ==> remainLen > 0)
      ensures bufLimit <= old(buf) ==> |chunks| == 1
    {
      hide Run, SymbolProg, Apply, Step, CtxOf, DecodeOne, DicOk, RepsOk, CopyOut;
      CoreProps();
      ghost var d0 := Decoder(out);
      ghost var start := buf;
      chunks := [];
      ghost var n := Rc();
      ghost var first := true;
      NoCopy();
      while true
        invariant Core() && LimitOk(limit) && remainLen == 0 && dicPos <= limit
        invariant start <= buf && start <= n.pos <= |input| && Concat(chunks) == input[start..n.pos]
        invariant Normalize(input, Rc()) == Some(n)
        invariant Fold(StepOf(p), d0, chunks) == Running(WithCoder(Decoder(out), n, probs[..]))
        invariant first ==> chunks == [] && n == Rc() && dicPos == old(dicPos) && Decoder(out) == d0
        invariant !first ==> chunks != [] && dicPos < limit && buf < bufLimit && dicPos > old(dicPos)
        decreases limit - dicPos, first
      {
        ghost var d := WithCoder(Decoder(out), n, probs[..]);
        FoldKeepsOk(p, d0, chunks);
        CtxOfCoder(p, Decoder(out), n, probs[..]);
        ghost var ctx := CtxOf(p, d);
        if !first { CtxIsOk(p, d); TwentyBytesSuffice(d.probs, ctx, input, n); }
        ghost var r := DecodeOne(d.probs, input, n, ctx);
        ghost var r0 := Run(true, probs[..], input, Rc(), SymbolProg(ctx));
        SymbolFacts(p, d, input, Rc(), n);
        ghost var chunk := input[n.pos..r.rc.pos];
        FoldAppend(StepOf(p), d0, chunks, chunk);
        ConcatAppend(chunks, chunk);
        chunks := chunks + [chunk];
        DecodeSymbol(input, limit, ctx, r0);
        n := r.rc;
        first := false;
        if remainLen >= MATCH_SPEC_LEN_START || !(dicPos < limit && buf < bufLimit) { break; }
        NoCopy();
      }
      NormalizeCoder(input);
      ok := remainLen < ERROR_DATA;
    }

    // ----- look-ahead -----

    method CheckBit(input: seq<Byte>, rc: Coder, i: nat, ghost zero: Prog, ghost one: Prog)
      returns (ok: bool, bit: nat, next: Coder)
      requires i < probs.Length
      ensures !ok ==> Run(false, probs[..], input, rc, Bit(i, zero, one)).Eof?
      ensures ok ==> bit < 2 && Run(false, probs[..], input, rc, Bit(i, zero, one))
                             == Run(false, probs[..], input, next, if bit == 0 then zero else one)
    {
      hide Run;
      RunBit(false, probs[..], input, rc, i, zero, one);
      bit, next := 0, rc;
      if next.range < TOP {
        if next.pos >= |input| { return false, 0, rc; }
        next := Coder(next.range * 256, (next.code * 256 + input[next.pos]) % WORD, next.pos + 1);
      }
      var ttt := probs[i];
      BoundFits(next.range, ttt);
      var bound := next.range / 2048 * ttt;
      if next.code < bound {
        next := next.(range := bound);
      } else {
        next := next.(range := next.range - bound, code := next.code - bound);
        bit := 1;
      }
      ok := true;
    }

    method CheckTree(input: seq<Byte>, rc: Coder, base: nat, limit: nat, ghost k: nat -> Prog)
      returns (ok: bool, m: nat, next: Coder)
      requires limit >= 1 && base + limit <= probs.Length
      ensures !ok ==> Run(false, probs[..], input, rc, TreeProg(base, limit, 1, k)).Eof?
      ensures ok ==> limit <= m < 2 * limit && Run(false, probs[..], input, rc, TreeProg(base, limit, 1, k))
                                            == Run(false, probs[..], input, next, k(m))
    {
      hide Run;
      ok, m, next := true, 1, rc;
      while m < limit
        invariant 1 <= m < 2 * limit
        invariant Run(false, probs[..], input, next, TreeProg(base, limit, m, k))
               == Run(false, probs[..], input, rc, TreeProg(base, limit, 1, k))
      {
        var bit;
        ok, bit, next := CheckBit(input, next, base + m, TreeProg(base, limit, 2 * m, k),
                                  TreeProg(base, limit, 2 * m + 1, k));
        if !ok { return; }
        m := 2 * m + bit;
      }
      ok := true;
    }

    method CheckMatched(input: seq<Byte>, rc: Coder, base: nat, matchByte0: Byte, ghost k: nat -> Prog)
      returns (ok: bool, ghost s: nat, next: Coder)
      requires base + 0x300 <= probs.Length
      ensures !ok ==> Run(false, probs[..], input, rc, MatchedProg(base, matchByte0, true, 1, k)).Eof?
      ensures ok ==>
                Run(false, probs[..], input, rc, MatchedProg(base, matchByte0, true, 1, k))
                  == Run(false, probs[..], input, next, k(s))
    {
      hide Run;
      ok, s, next := true, 0, rc;
      var matchByte: nat, offs: nat, symbol: nat := matchByte0, 0x100, 1;
      while symbol < 0x100
        invariant 1 <= symbol < 0x200 && (offs == 0 || offs == 0x100)
        invariant Run(false, probs[..], input, next, MatchedProg(base, matchByte, offs == 0x100, symbol, k))
               == Run(false, probs[..], input, rc, MatchedProg(base, matchByte0, true, 1, k))
      {
        var bitMask := offs;
        var both := offs == 0x100 && matchByte * 2 / 0x100 % 2 == 1;
        ghost var zero := MatchedProg(base, matchByte * 2, both != (offs == 0x100), 2 * symbol, k);
        ghost var one := MatchedProg(base, matchByte * 2, both, 2 * symbol + 1, k);
        matchByte := matchByte + matchByte;
        offs := if both then 0x100 else 0;
        var bit;
        ok, bit, next := CheckBit(input, next, base + offs + bitMask + symbol, zero, one);
        if !ok { return; }
        if bit == 0 {
          offs := if offs == bitMask then 0 else 0x100;
        }
        symbol := 2 * symbol + bit;
      }
      s := symbol;
    }

    method CheckReverse(input: seq<Byte>, rc: Coder, start: nat, n: nat, ghost k: nat -> Prog)
      returns (ok: bool, ghost value: nat, next: Coder)
      requires start + Pow2(n) <= probs.Length
      ensures !ok ==> Run(false, probs[..], input, rc, ReverseProg(start, 0, 1, n, k)).Eof?
      ensures ok ==>
                Run(false, probs[..], input, rc, ReverseProg(start, 0, 1, n, k))
                  == Run(false, probs[..], input, next, k(value))
    {
      hide Run;
      ok, value, next := true, 0, rc;
      var i, m, left := 1, 1, n;
      while left != 0
        invariant 0 <= left <= n && i == value + m && value < m && m >= 1
        invariant m * Pow2(left) == Pow2(n)
        invariant Run(false, probs[..], input, next, ReverseProg(start, value, m, left, k))
               == Run(false, probs[..], input, rc, ReverseProg(start, 0, 1, n, k))
        decreases left
      {
        PowStep(m, left);
        PowStep(2 * m, left - 1);
        var bit;
        ok, bit, next := CheckBit(input, next, start + i, ReverseProg(start, value, 2 * m, left - 1, k),
                                  ReverseProg(start, value + m, 2 * m, left - 1, k));
        if !ok { return; }
        if bit == 0 {
          i := i + m;
        } else {
          value := value + m;
          i := i + 2 * m;
        }
        m := m + m;
        left := left - 1;
      }
    }

    method CheckDirect(input: seq<Byte>, rc: Coder, n: nat, ghost acc0: nat, ghost k: nat -> Prog)
      returns (ok: bool, ghost acc: nat, next: Coder)
      ensures !ok ==> Run(false, probs[..], input, rc, DirectProg(n, acc0, k)).Eof?
      ensures ok ==>
                Run(false, probs[..], input, rc, DirectProg(n, acc0, k)) == Run(false, probs[..], input, next, k(acc))
    {
      hide Run;
      ok, acc, next := true, acc0, rc;
      var left := n;
      while left != 0
        invariant Run(false, probs[..], input, next, DirectProg(left, acc, k))
               == Run(false, probs[..], input, rc, DirectProg(n, acc0, k))
        decreases left
      {
        RunDirect(false, probs[..], input, next, DirectProg(left - 1, 2 * acc, k),
                  DirectProg(left - 1, 2 * acc + 1, k));
        if next.range < TOP {
          if next.pos >= |input| { ok := false; return; }
          next := Coder(next.range * 256, (next.code * 256 + input[next.pos]) % WORD, next.pos + 1);
        }
        acc := 2 * acc + DirectBit(next);
        var half := next.range / 2;
        var diff := (next.code - half + WORD) % WORD;
        // the subtrahend is masked by the sign of the difference
        next := Coder(half, if diff < 0x8000_0000 then diff else next.code, next.pos);
        left := left - 1;
      }
    }

    method CheckLen(input: seq<Byte>, rc: Coder, base: nat, posState: nat, ghost k: nat -> Prog)
      returns (ok: bool, len: nat, next: Coder)
      requires posState <= 240 && base + 512 <= probs.Length
      ensures !ok ==> Run(false, probs[..], input, rc, LenProg(base, posState, k)).Eof?
      ensures ok ==> len < 272 && Run(false, probs[..], input, rc, LenProg(base, posState, k))
                               == Run(false, probs[..], input, next, k(len))
    {
      hide Run;
      ghost var low, high := (m: nat) => k(Minus(m, 8)), (m: nat) => k(Minus(m, 240));
      ghost var lowTree, midTree, highTree := TreeProg(base + posState, 8, 1, low),
                                              TreeProg(base + posState + 8, 8, 1, k),
                                              TreeProg(base + 256, 256, 1, high);
      len := 0;
      var choice, choice2;
      ok, choice, next := CheckBit(input, rc, base, lowTree, Bit(base + 8, midTree, highTree));
      if !ok { return; }
      if choice == 0 {
        ok, len, next := CheckTree(input, next, base + posState, 8, low);
        if !ok { return; }
        assert low(len) == k(Minus(len, 8));
        len := len - 8;
      } else {
        ok, choice2, next := CheckBit(input, next, base + 8, midTree, highTree);
        if !ok { return; }
        if choice2 == 0 {
          ok, len, next := CheckTree(input, next, base + posState + 8, 8, k);
        } else {
          ok, len, next := CheckTree(input, next, base + 256, 256, high);
          if !ok { return; }
          assert high(len) == k(Minus(len, 240));
          len := len - 256 + 16;
        }
      }
    }

    method CheckDistance(input: seq<Byte>, rc: Coder, len: nat, ghost k: nat -> Prog)
      returns (ok: bool, ghost distance: nat, next: Coder)
      requires probs.Length >= LITERAL
      ensures !ok ==> Run(false, probs[..], input, rc, DistProg(len, k)).Eof?
      ensures ok ==>
        Run(false, probs[..], input, rc, DistProg(len, k))
        == Run(false, probs[..], input, next, k(distance))
    {
      hide Run, SlotProg, TreeProg;
      ghost var slots := (m: nat) => SlotProg(Minus(m, 64), k);
      distance := 0;
      var m;
      ok, m, next := CheckTree(input, rc, POS_SLOT + 64 * (if len < 3 then len else 3), 64, slots);
      if !ok { return; }
      assert slots(m) == SlotProg(Minus(m, 64), k);
      var posSlot := m - 64;
      SmallSlot(posSlot, k);
      if posSlot < 4 {
        distance := posSlot;
      } else if posSlot < 14 {
        ok, distance, next := CheckShortDistance(input, next, posSlot, k);
      } else {
        ok, distance, next := CheckLongDistance(input, next, posSlot, k);
      }
    }

    method CheckShortDistance(input: seq<Byte>, rc: Coder, posSlot: nat, ghost k: nat -> Prog)
      returns (ok: bool, ghost distance: nat, next: Coder)
      requires 4 <= posSlot < 14 && probs.Length >= LITERAL
      ensures !ok ==> Run(false, probs[..], input, rc, SlotProg(posSlot, k)).Eof?
      ensures ok ==>
        Run(false, probs[..], input, rc, SlotProg(posSlot, k))
        == Run(false, probs[..], input, next, k(distance))
    {
      hide Run, ReverseProg, Pow2;
      var numDirectBits := posSlot / 2 - 1;
      ghost var top := 2 + posSlot % 2;
      ghost var k' := (v: nat) => k(top * Pow2(numDirectBits) + v);
      ShortSlotFits(top, numDirectBits);
      ghost var v;
      ok, v, next := CheckReverse(input, rc, SPEC_POS + (2 + posSlot % 2) * Pow2(numDirectBits), numDirectBits, k');
      assert k'(v) == k(top * Pow2(numDirectBits) + v);
      distance := top * Pow2(numDirectBits) + v;
    }

    method CheckLongDistance(input: seq<Byte>, rc: Coder, posSlot: nat, ghost k: nat -> Prog)
      returns (ok: bool, ghost distance: nat, next: Coder)
      requires 14 <= posSlot && probs.Length >= LITERAL
      ensures !ok ==> Run(false, probs[..], input, rc, SlotProg(posSlot, k)).Eof?
      ensures ok ==>
        Run(false, probs[..], input, rc, SlotProg(posSlot, k))
        == Run(false, probs[..], input, next, k(distance))
    {
      hide Run, ReverseProg;
      ghost var k' := (d: nat) => ReverseProg(ALIGN, 0, 1, 4, (v: nat) => k(16 * d + v));
      ghost var d, v;
      distance := 0;
      ok, d, next := CheckDirect(input, rc, posSlot / 2 - 5, 2 + posSlot % 2, k');
      if !ok { return; }
      ghost var k'' := (v: nat) => k(16 * d + v);
      assert k'(d) == ReverseProg(ALIGN, 0, 1, 4, k'');
      assert Pow2(4) == 16;
      ok, v, next := CheckReverse(input, next, ALIGN, 4, k'');
      assert k''(v) == k(16 * d + v);
      distance := 16 * d + v;
    }

    /** The literal context, from the position and the previous byte separately. */
    method DummyLiteralIndex(ghost limit: nat) returns (lit: nat)
      requires DicOk() && LimitOk(limit)
      ensures lit == (if out == [] then LITERAL else LiteralBase(p, |out|, ByteAt(out, 1)))
    {
      hide Window, Pow2, Times, LiteralBase;
      lit := LITERAL;
      PositionIsZeroAtStart(limit);
      if checkDicSize != 0 || processedPos != 0 {
        PrevByte();
        var prev := dic[(if dicPos == 0 then dic.Length else dicPos) - 1];
        SeparateIndexAgrees(p, |out|, prev);
        lit := lit + 0x300 * (Times(processedPos % Pow2(p.lp), Pow2(p.lc)) + prev / Pow2(8 - p.lc));
      }
    }

    method DummyLiteral(input: seq<Byte>, rc: Coder, ghost limit: nat, ghost ctx: Ctx)
      returns (ok: bool, next: Coder, ghost s: nat)
      requires Core() && LimitOk(limit) && CtxMatches(ctx) && CtxOk(ctx, probs.Length)
      ensures !ok ==> Run(false, probs[..], input, rc, LiteralProg(ctx)).Eof?
      ensures ok ==> Run(false, probs[..], input, rc, LiteralProg(ctx)) == Parsed(Literal(s % 0x100), next, probs[..])
    {
      hide Run, Window, LiteralBase, TreeProg, MatchedProg, NumProbs;
      s := 0;
      var lit := DummyLiteralIndex(limit);
      if state < 7 {
        var symbol;
        ok, symbol, next := CheckTree(input, rc, lit, 0x100, LiteralDone);
        s := symbol;
      } else {
        BackIsInside(rep0);
        var matchByte := dic[dicPos - rep0 + (if dicPos < rep0 then dic.Length else 0)];
        ok, s, next := CheckMatched(input, rc, lit, matchByte, LiteralDone);
      }
      if ok { FrozenRunDone(input, next, probs[..], LiteralDone(s)); }
    }

    method DummyMatch(input: seq<Byte>, rc: Coder, posState: nat, ghost ctx: Ctx)
      returns (ok: bool, next: Coder, ghost sym: Symbol)
      requires posState == ctx.posState <= 240 && probs.Length >= LITERAL
      ensures !ok ==> Run(false, probs[..], input, rc, MatchProg(ctx)).Eof?
      ensures ok ==> sym.Match? && Run(false, probs[..], input, rc, MatchProg(ctx)) == Parsed(sym, next, probs[..])
    {
      hide Run;
      sym := ShortRep;
      ghost var k := (len: nat) => DistProg(len, (dist: nat) => MatchDone(len, dist));
      var len;
      ok, len, next := CheckLen(input, rc, LEN_CODER, posState, k);
      if !ok { return; }
      ghost var k' := (dist: nat) => MatchDone(len, dist);
      assert k(len) == DistProg(len, k');
      ghost var distance;
      ok, distance, next := CheckDistance(input, next, len, k');
      if !ok { return; }
      assert k'(distance) == MatchDone(len, distance);
      FrozenRunDone(input, next, probs[..], MatchDone(len, distance));
      sym := Match(len + 2, distance);
    }

    method DummyRep(input: seq<Byte>, rc: Coder, posState: nat, ghost ctx: Ctx)
      returns (ok: bool, next: Coder, ghost sym: Symbol)
      requires posState == ctx.posState <= 240 && state == ctx.state < 12 && probs.Length >= LITERAL
      ensures !ok ==> Run(false, probs[..], input, rc, RepProg(ctx)).Eof?
      ensures ok ==>
        (sym.ShortRep? || sym.Rep?) && Run(false, probs[..], input, rc, RepProg(ctx))
        == Parsed(sym, next, probs[..])
    {
      hide Run, RepLenProg;
      ghost var rep := RepProg(ctx);
      ghost var idx := 0;
      sym := ShortRep;
      var g0, g1, g2, long, len;
      ok, g0, next := CheckBit(input, rc, IS_REP_G0 + state, rep.zero, rep.one);
      if !ok { return; }
      if g0 == 0 {
        ok, long, next := CheckBit(input, next, IS_REP0_LONG + posState + state, rep.zero.zero, rep.zero.one);
        if !ok { return; }
        if long == 0 {
          FrozenRunDone(input, next, probs[..], Done(ShortRep));
          return;
        }
      } else {
        ok, g1, next := CheckBit(input, next, IS_REP_G1 + state, rep.one.zero, rep.one.one);
        if !ok { return; }
        idx := 1;
        if g1 != 0 {
          ok, g2, next := CheckBit(input, next, IS_REP_G2 + state, rep.one.one.zero, rep.one.one.one);
          if !ok { return; }
          idx := if g2 == 0 then 2 else 3;
        }
      }
      ok, len, next := DummyRepLen(input, next, posState, idx, ctx);
      sym := Rep(idx, len + 2);
    }

    method DummyRepLen(input: seq<Byte>, rc: Coder, posState: nat, ghost idx: nat, ghost ctx: Ctx)
      returns (ok: bool, len: nat, next: Coder)
      requires posState == ctx.posState <= 240 && probs.Length >= LITERAL
      ensures !ok ==> Run(false, probs[..], input, rc, RepLenProg(ctx, idx)).Eof?
      ensures ok ==>
        Run(false, probs[..], input, rc, RepLenProg(ctx, idx))
        == Parsed(Rep(idx, len + 2), next, probs[..])
    {
      hide Run;
      ghost var k := (len: nat) => RepDone(idx, len);
      ok, len, next := CheckLen(input, rc, REP_LEN_CODER, posState, k);
      if !ok { return; }
      assert k(len) == RepDone(idx, len);
      FrozenRunDone(input, next, probs[..], RepDone(idx, len));
    }

    method DummySymbol(input: seq<Byte>, rc0: Coder, ghost limit: nat, ghost ctx: Ctx)
      returns (ok: bool, kind: Dummy, rc: Coder, ghost sym: Symbol)
      requires Core() && LimitOk(limit) && CtxMatches(ctx) && CtxOk(ctx, probs.Length)
      ensures !ok ==> Run(false, probs[..], input, rc0, SymbolProg(ctx)).Eof?
      ensures ok ==>
        kind == KindOf(sym) && Run(false, probs[..], input, rc0, SymbolProg(ctx))
        == Parsed(sym, rc, probs[..])
    {
      hide Run, Window, LiteralBase, RepProg, MatchProg, LiteralProg, DicOk, RepsOk, NumProbs;
      CoreProps();
      PosStateOf();
      var posState := processedPos % Pow2(p.pb) * 16;
      ghost var prog := SymbolProg(ctx);
      kind, sym := InputEof, ShortRep;
      var bit;
      ok, bit, rc := CheckBit(input, rc0, IS_MATCH + posState + state, prog.zero, prog.one);
      if !ok { return; }
      if bit == 0 {
        ghost var s;
        ok, rc, s := DummyLiteral(input, rc, limit, ctx);
        kind, sym := Lit, Literal(s % 0x100);
        return;
      }
      ok, bit, rc := CheckBit(input, rc, IS_REP + state, prog.one.zero, prog.one.one);
      if !ok { return; }
      if bit == 0 {
        ok, rc, sym := DummyMatch(input, rc, posState, ctx);
        kind := NonRepMatch;
      } else {
        ok, rc, sym := DummyRep(input, rc, posState, ctx);
        kind := RepMatch;
      }
    }

    lemma PosStateOf()
      requires Core()
      ensures processedPos % Pow2(p.pb) == |out| % Pow2(p.pb)
    {
      LowBits(|out|, p.pb);
    }

    /** The look-ahead, on input that starts at `input[0]`: what kind of symbol comes next, and how many
        bytes it takes. It changes nothing. */
    method TryDummy(input: seq<Byte>, ghost limit: nat) returns (res: Dummy, processed: nat)
      requires Core() && LimitOk(limit) && CtxOk(CtxOf(p, Decoder(out)), probs.Length)
      ensures var r := LookAhead(probs[..], input, Coder(range, code, 0), CtxOf(p, Decoder(out)));
              if r.Eof? then res == InputEof else res == KindOf(r.sym) && processed == r.rc.pos
    {
      hide Run, Window, LiteralBase, SymbolProg, DicOk, RepsOk, CtxOk;
      ghost var ctx, sym := CtxOf(p, Decoder(out)), ShortRep;
      res, processed := InputEof, 0;
      var ok, kind, rc;
      ok, kind, rc, sym := DummySymbol(input, Coder(range, code, 0), limit, ctx);
      if !ok { return; }
      if rc.range < TOP {
        if rc.pos >= |input| { return; }
        rc := Coder(rc.range * 256, (rc.code * 256 + input[rc.pos]) % WORD, rc.pos + 1);
      }
      res, processed := kind, rc.pos;
    }

    // ----- limits and pending matches -----

    ghost predicate CheckOk()
      reads `checkDicSize, `out
    {
      checkDicSize == (if |out| >= p.dicSize then p.dicSize else 0)
    }

    /** Lowers the limit to the point where the dictionary becomes full. */
    method DecodeReal2(input: seq<Byte>, limit: nat, bufLimit: nat) returns (ok: bool, ghost chunks: seq<seq<Byte>>)
      requires Core() && CheckOk() && dicPos <= limit <= dic.Length && remainLen == 0 && IdealOk(p, Decoder(out))
      requires buf <= |input| && (bufLimit <= buf || bufLimit + REQUIRED_INPUT_MAX <= |input|)
      requires DecodeOne(probs[..], input, Rc(), CtxOf(p, Decoder(out))).Parsed?
      requires dicPos == limit ==> DecodeOne(probs[..], input, Rc(), CtxOf(p, Decoder(out))).sym.Match?
      modifies `range, `code, `buf, `state, `rep0, `rep1, `rep2, `rep3, `remainLen, `dicPos, `processedPos,
        `checkDicSize, `out, probs, dic
      ensures DicOk() && CheckOk() && old(dicPos) <= dicPos <= limit && (ok ==> Core())
      ensures old(buf) <= buf <= |input| && Concat(chunks) == input[old(buf)..buf] && chunks != [] && range >= TOP
      ensures Shows(Fold(StepOf(p), old(Decoder(out)), chunks))
      ensures ok <==> remainLen < ERROR_DATA
      ensures old(dicPos) < limit && remainLen < MATCH_SPEC_LEN_START ==> dicPos > old(dicPos)
      ensures old(dicPos) == limit ==> remainLen > 0 && dicPos == limit
      ensures bufLimit <= old(buf) ==> |chunks| == 1
    {
      hide Run, SymbolProg, Apply, Step, CtxOf, DecodeOne, RepsOk, CopyOut, Window, Shows, IdealOk;
      var lim := limit;
      if checkDicSize == 0 {
        var rem := p.dicSize - processedPos;
        if limit - dicPos > rem {
          lim := dicPos + rem;
        }
      }
      ok, chunks := DecodeReal(input, lim, bufLimit);
      if checkDicSize == 0 && processedPos >= p.dicSize {
        checkDicSize := p.dicSize;
      }
    }

    /** Writes the pending part of a match, as far as `limit` allows. */
    method WriteRem(limit: nat)
      requires Core() && CheckOk() && dicPos <= limit <= dic.Length && remainLen <= 273
      requires remainLen > 0 ==> RepReachable(rep0)
      modifies `remainLen, `checkDicSize, `dicPos, `processedPos, `out, dic
      ensures Core() && CheckOk() && old(dicPos) <= dicPos <= limit
      ensures CopyOut(out, rep0, remainLen) == old(CopyOut(out, rep0, remainLen))
      ensures remainLen == 0 || (dicPos == limit && remainLen <= old(remainLen))
      ensures remainLen != old(remainLen) ==> dicPos > old(dicPos)
      ensures old(remainLen) == 0 ==> dicPos == old(dicPos) && out == old(out)
    {
      hide Window, CopyOut, Core, CheckOk;
      var len := remainLen;
      if len == 0 { return; }
      var rem := limit - dicPos;
      if rem < len {
        len := rem;
        if len == 0 { return; }
      }
      CopyOutSplit(out, rep0, len, remainLen - len);
      WritePart(len);
    }

    method WritePart(len: nat)
      requires Core() && CheckOk() && 1 <= len <= remainLen && dicPos + len <= dic.Length && RepReachable(rep0)
      modifies `remainLen, `checkDicSize, `dicPos, `processedPos, `out, dic
      ensures Core() && CheckOk() && dicPos == old(dicPos) + len
      ensures out == CopyOut(old(out), rep0, len) && remainLen == old(remainLen) - len
    {
      hide Window, CopyOut, NumProbs, PropsOk;
      CoreProps();
      CheckDicSize(len);
      remainLen := remainLen - len;
      CopyCyclic(len, dicPos - rep0 + (if dicPos < rep0 then dic.Length else 0));
    }

    /** Accounts in advance for `len` bytes that are about to be written. */
    method CheckDicSize(len: nat)
      requires DicOk() && CheckOk()
      modifies `checkDicSize
      ensures checkDicSize == (if |out| + len >= p.dicSize then p.dicSize else 0)
    {
      hide Window;
      if checkDicSize == 0 && p.dicSize - processedPos <= len {
        checkDicSize := p.dicSize;
      }
    }

    // ----- streaming -----

    /** The decoder has run through `chunks` from the state `d0`. */
    ghost predicate Streaming(d0: Ideal, chunks: seq<seq<Byte>>)
      reads `range, `code, `rep0, `rep1, `rep2, `rep3, `state, `remainLen, `out, `dicPos, `processedPos, `checkDicSize,
        dic, probs
    {
      && Core() && CheckOk() && range >= TOP && remainLen <= MATCH_SPEC_LEN_START
      && IdealOk(p, d0)
      && Shows(Fold(StepOf(p), d0, chunks))
    }

    /** The bytes carried over are the start of a symbol: all but the last do not hold a whole one. */
    ghost predicate TempOk()
      reads `range, `code, `rep0, `rep1, `rep2, `rep3, `state, `remainLen, `out, `tempBufSize, tempBuf, probs
    {
      && tempBufSize <= REQUIRED_INPUT_MAX == tempBuf.Length
      && (tempBufSize > 0 ==>
            remainLen == 0 && DecodeOne(probs[..], tempBuf[..tempBufSize - 1], Coder(range, code, 0),
                                        CtxOf(p, Decoder(out))).Eof?)
    }

    /** More input is needed: what has been carried over does not hold a whole symbol. */
    ghost predicate Starved()
      reads `range, `code, `rep0, `rep1, `rep2, `rep3, `state, `remainLen, `out, `tempBufSize, tempBuf, probs
    {
      && remainLen == 0 && tempBufSize < REQUIRED_INPUT_MAX == tempBuf.Length
      && DecodeOne(probs[..], tempBuf[..tempBufSize], Coder(range, code, 0), CtxOf(p, Decoder(out))).Eof?
    }

    method Stash(data: seq<Byte>)
      requires |data| <= REQUIRED_INPUT_MAX == tempBuf.Length
      modifies `tempBufSize, tempBuf
      ensures tempBufSize == |data| && tempBuf[..tempBufSize] == data
      ensures |data| > 0 ==> tempBuf[..tempBufSize - 1] == data[..|data| - 1]
    {
      for i := 0 to |data|
        invariant tempBuf[..i] == data[..i]
      {
        tempBuf[i] := data[i];
      }
      tempBufSize := |data|;
    }

    lemma RunningIdeal(d0: Ideal, chunks: seq<seq<Byte>>)
      requires PropsOk(p) && Streaming(d0, chunks) && remainLen == 0
      ensures Fold(StepOf(p), d0, chunks) == Running(Decoder(out)) && IdealOk(p, Decoder(out))
      ensures CtxOk(CtxOf(p, Decoder(out)), probs.Length)
    {
      hide Step, Run;
      NoCopy();
      FoldKeepsOk(p, d0, chunks);
      CtxIsOk(p, Decoder(out));
    }

    /** What the streaming layer keeps from one symbol to the next, and what it returns. `taken` are
        the bytes taken from the caller since the decoder was in state `d0` with an empty carry. */
    ghost predicate Progress(d0: Ideal, chunks: seq<seq<Byte>>, taken: seq<Byte>)
      reads this, dic, probs, tempBuf
    {
      && DicOk() && CheckOk() && TempOk() && probs.Length == NumProbs(p) && tempBuf != dic
      && Concat(chunks) + tempBuf[..tempBufSize] == taken
      && (Streaming(d0, chunks)
          || (remainLen == ERROR_DATA && tempBufSize == 0 && Fold(StepOf(p), d0, chunks).Broken?))
    }

    /** Decodes from `input`, which starts with the next symbol. `expected` is what the look-ahead said
        of its size, or -1. */
    method DecodeChunks(input: seq<Byte>, dicLimit: nat, bufLimit: nat, ghost d0: Ideal, ghost chunks0: seq<seq<Byte>>)
      returns (ok: bool, ghost chunks: seq<seq<Byte>>)
      requires Streaming(d0, chunks0) && remainLen == 0 && dicPos <= dicLimit <= dic.Length
      requires bufLimit == 0 || bufLimit + REQUIRED_INPUT_MAX <= |input|
      requires DecodeOne(probs[..], input, Coder(range, code, 0), CtxOf(p, Decoder(out))).Parsed?
      requires dicPos == dicLimit
        ==> DecodeOne(probs[..], input, Coder(range, code, 0), CtxOf(p, Decoder(out))).sym.Match?
      modifies `range, `code, `buf, `state, `rep0, `rep1, `rep2, `rep3, `remainLen, `dicPos, `processedPos,
        `checkDicSize, `out, probs, dic
      ensures DicOk() && CheckOk() && old(dicPos) <= dicPos <= dicLimit && buf <= |input|
      ensures Concat(chunks) == Concat(chunks0) + input[..buf]
      ensures if ok then Streaming(d0, chunks) else Fold(StepOf(p), d0, chunks).Broken?
      ensures ok && old(dicPos) < dicLimit && remainLen < MATCH_SPEC_LEN_START ==> dicPos > old(dicPos)
      ensures old(dicPos) == dicLimit ==> remainLen > 0 && dicPos == dicLimit
      ensures bufLimit == 0 ==>
                buf == old(DecodeOne(probs[..], input, Coder(range, code, 0), CtxOf(p, Decoder(out))).rc.pos)
    {
      hide Run, SymbolProg, Step, Apply, CtxOf, DecodeOne, CopyOut, Window;
      CoreProps();
      RunningIdeal(d0, chunks0);
      ghost var d := Decoder(out);
      buf := 0;
      ghost var cs;
      ok, cs := DecodeReal2(input, dicLimit, bufLimit);
      chunks := chunks0 + cs;
      FoldConcat(StepOf(p), d0, chunks0, cs);
      ConcatConcat(chunks0, cs);
      FoldKeepsOk(p, d0, chunks);
      if bufLimit == 0 { OneChunkSize(p, d, input, cs, buf); }
    }

    ghost predicate Ready(d0: Ideal, chunks: seq<seq<Byte>>, dicLimit: nat)
      reads `range, `code, `rep0, `rep1, `rep2, `rep3, `state, `remainLen, `out, `dicPos, `processedPos, `checkDicSize,
        dic, probs
    {
      Streaming(d0, chunks) && remainLen == 0 && dicPos <= dicLimit <= dic.Length
    }

    /** The result of decoding the next symbol, on any input. */
    ghost function Next(input: seq<Byte>): Outcome
      reads `range, `code, `rep0, `rep1, `rep2, `rep3, `state, `out, probs
    {
      DecodeOne(probs[..], input, Coder(range, code, 0), CtxOf(p, Decoder(out)))
    }

    lemma NextFacts(d0: Ideal, chunks: seq<seq<Byte>>, input: seq<Byte>)
      requires Streaming(d0, chunks) && remainLen == 0
      ensures SameParse(Next(input), LookAhead(probs[..], input, Coder(range, code, 0), CtxOf(p, Decoder(out))))
      ensures Next(input).Parsed? ==> Next(input).rc.pos <= |input| && Next(input).rc.pos <= REQUIRED_INPUT_MAX
      ensures |input| >= REQUIRED_INPUT_MAX ==> Next(input).Parsed?
      ensures CtxOk(CtxOf(p, Decoder(out)), probs.Length)
    {
      hide Run, SymbolProg, Step, CtxOf, DecodeOne, LookAhead, CopyOut, Window;
      CoreProps();
      RunningIdeal(d0, chunks);
      TwentyBytesSuffice(probs[..], CtxOf(p, Decoder(out)), input, Coder(range, code, 0));
      LookAheadIsExact(probs[..], input, Coder(range, code, 0), CtxOf(p, Decoder(out)));
    }

    method DecodeFromSource(rest: seq<Byte>, dicLimit: nat, ghost d0: Ideal, ghost chunks0: seq<seq<Byte>>)
      returns (done: bool, res: SRes, status: Status, used: nat, ghost chunks: seq<seq<Byte>>)
      requires Ready(d0, chunks0, dicLimit) && tempBufSize == 0 && tempBuf.Length == REQUIRED_INPUT_MAX
        && tempBuf != dic
      modifies this, probs, dic, tempBuf
      ensures used <= |rest| && Progress(d0, chunks, Concat(chunks0) + rest[..used])
      ensures res != SzErrorFail && old(dicPos) <= dicPos <= dicLimit
      ensures !done ==> tempBufSize == 0 && remainLen <= MATCH_SPEC_LEN_START
                        && (if old(dicPos) < dicLimit then dicPos > old(dicPos) || remainLen == MATCH_SPEC_LEN_START
                            else remainLen > 0 && dicPos == dicLimit)
      ensures done && res == SzOk ==> status == NeedsMoreInput && used == |rest| && Starved()
    {
      hide Run, SymbolProg, Step, Apply, CtxOf, DecodeOne, LookAhead, CopyOut, Window, Shows, NumProbs, Fold;
      NextFacts(d0, chunks0, rest);
      used, chunks, done, res, status := 0, chunks0, false, SzOk, NotSpecified;
      var checkEndMarkNow := dicPos >= dicLimit;
      var bufLimit, dummyProcessed := 0, -1;
      if |rest| < REQUIRED_INPUT_MAX || checkEndMarkNow {
        var dummyRes, processed := TryDummy(rest, dicPos);
        if dummyRes == InputEof {
          if |rest| >= REQUIRED_INPUT_MAX {
            done, res := true, SzErrorFail;
            return;
          }
          PrefixIsEof(probs[..], rest, |rest| - 1, Coder(range, code, 0), CtxOf(p, Decoder(out)));
          Stash(rest);
          used, done, status := |rest|, true, NeedsMoreInput;
          return;
        }
        dummyProcessed := processed;
        if processed > REQUIRED_INPUT_MAX {
          done, res := true, SzErrorFail;
          return;
        }
        if checkEndMarkNow && dummyRes != NonRepMatch {
          assert processed > 0 ==> rest[..processed][..processed - 1] == rest[..processed - 1];
          PrefixIsEof(probs[..], rest, processed - 1, Coder(range, code, 0), CtxOf(p, Decoder(out)));
          Stash(rest[..processed]);
          used, done, res, status := processed, true, SzErrorData, NotFinished;
          return;
        }
      } else {
        bufLimit := |rest| - REQUIRED_INPUT_MAX;
      }
      var ok;
      ok, chunks := DecodeChunks(rest, dicLimit, bufLimit, d0, chunks0);
      if (if dummyProcessed < 0 then buf > |rest| else dummyProcessed != buf) {
        done, res := true, SzErrorFail;
        return;
      }
      used := buf;
      if !ok {
        remainLen, done, res := ERROR_DATA, true, SzErrorData;
      }
    }

    /** Appends bytes of the caller to the carry, up to 20. */
    method FillTemp(rest: seq<Byte>) returns (rem: nat, ahead: nat)
      requires tempBuf.Length == REQUIRED_INPUT_MAX && tempBufSize <= REQUIRED_INPUT_MAX
      modifies tempBuf
      ensures ahead <= |rest| && rem == tempBufSize + ahead <= REQUIRED_INPUT_MAX
      ensures rem < REQUIRED_INPUT_MAX ==> ahead == |rest|
      ensures tempBuf[..rem] == old(tempBuf[..tempBufSize]) + rest[..ahead]
    {
      rem, ahead := tempBufSize, 0;
      while rem < REQUIRED_INPUT_MAX && ahead < |rest|
        invariant ahead <= |rest| && rem == tempBufSize + ahead <= REQUIRED_INPUT_MAX
        invariant tempBuf[..rem] == old(tempBuf[..tempBufSize]) + rest[..ahead]
      {
        tempBuf[rem] := rest[ahead];
        rem, ahead := rem + 1, ahead + 1;
      }
    }

    /** Some bytes are carried over: decode one symbol from them and the caller's next bytes. */
    method DecodeFromTemp(rest: seq<Byte>, dicLimit: nat, ghost d0: Ideal, ghost chunks0: seq<seq<Byte>>)
      returns (done: bool, res: SRes, status: Status, used: nat, ghost chunks: seq<seq<Byte>>)
      requires Ready(d0, chunks0, dicLimit) && tempBufSize > 0 && TempOk() && tempBuf != dic
      modifies this, probs, dic, tempBuf
      ensures used <= |rest| && Progress(d0, chunks, Concat(chunks0) + (old(tempBuf[..tempBufSize]) + rest[..used]))
      ensures res != SzErrorFail && old(dicPos) <= dicPos <= dicLimit
      ensures !done ==> tempBufSize == 0 && remainLen <= MATCH_SPEC_LEN_START
                        && (if old(dicPos) < dicLimit then dicPos > old(dicPos) || remainLen == MATCH_SPEC_LEN_START
                            else remainLen > 0 && dicPos == dicLimit)
      ensures done && res == SzOk ==> status == NeedsMoreInput && used == |rest| && Starved()
    {
      hide Run, SymbolProg, Step, Apply, CtxOf, DecodeOne, LookAhead, CopyOut, Window, Shows, NumProbs, Fold, Concat,
           DicOk, RepsOk, CheckOk, IdealOk;
      ghost var temp0 := tempBuf[..tempBufSize];
      ghost var before := tempBuf[..tempBufSize - 1];
      ghost var size0 := tempBufSize;
      var rem, ahead := FillTemp(rest);
      var look := tempBuf[..rem];
      assert look[..tempBufSize - 1] == before;
      CarryPrefixes(look, temp0, rest, ahead);
      var dummyProcessed;
      done, res, status, dummyProcessed := CheckTemp(look, dicLimit, d0, chunks0);
      if done {
        used, chunks := tempBufSize - (rem - ahead), chunks0;
        assert tempBuf[..tempBufSize] == look[..tempBufSize];
      } else {
        done, res, used, chunks := DecodeTempSymbol(look, dicLimit, dummyProcessed, d0, chunks0);
      }
      assert look[..used + size0] == temp0 + rest[..used];
    }

    /** Looks ahead in the carry. When it cannot or must not decode, it keeps the bytes it looked at. */
    method CheckTemp(look: seq<Byte>, dicLimit: nat, ghost d0: Ideal, ghost chunks0: seq<seq<Byte>>)
      returns (done: bool, res: SRes, status: Status, dummyProcessed: int)
      requires Ready(d0, chunks0, dicLimit) && tempBuf.Length == REQUIRED_INPUT_MAX
      requires 0 < tempBufSize <= |look| <= REQUIRED_INPUT_MAX && look == tempBuf[..|look|]
      requires Next(look[..tempBufSize - 1]).Eof?
      modifies `tempBufSize
      ensures res != SzErrorFail
      ensures old(tempBufSize) <= tempBufSize <= |look|
      ensures done ==>
        TempOk()
        && (res == SzOk ==> status == NeedsMoreInput && tempBufSize == |look| < REQUIRED_INPUT_MAX && Starved())
      ensures !done ==>
        tempBufSize == old(tempBufSize) && Next(look).Parsed?
        && tempBufSize <= Next(look).rc.pos <= |look|
      ensures !done && dummyProcessed >= 0 ==> dummyProcessed == Next(look).rc.pos
      ensures !done && dicPos == dicLimit ==> Next(look).sym.Match?
      ensures !done ==> res == SzOk
    {
      hide Run, SymbolProg, Step, Apply, CtxOf, DecodeOne, LookAhead, CopyOut, Window, Shows, NumProbs, Fold;
      done, res, status, dummyProcessed := false, SzOk, NotSpecified, -1;
      var rem := |look|;
      var checkEndMarkNow := dicPos >= dicLimit;
      NextFacts(d0, chunks0, look);
      LongerThanCarry(probs[..], look, tempBufSize, Coder(range, code, 0), CtxOf(p, Decoder(out)));
      if rem < REQUIRED_INPUT_MAX || checkEndMarkNow {
        var dummyRes, processed := TryDummy(look, dicPos);
        if dummyRes == InputEof {
          if rem >= REQUIRED_INPUT_MAX {
            done, res := true, SzErrorFail;
            return;
          }
          CarryFacts(look, rem);
          tempBufSize, done, status := rem, true, NeedsMoreInput;
          return;
        }
        dummyProcessed := processed;
        if processed < tempBufSize {
          done, res := true, SzErrorFail;
          return;
        }
        if checkEndMarkNow && dummyRes != NonRepMatch {
          CarryFacts(look, processed);
          tempBufSize, done, res, status := processed, true, SzErrorData, NotFinished;
        }
      }
    }

    /** Decodes the symbol at the start of the carry, of which `dummyProcessed` bytes are known to be needed. */
    method DecodeTempSymbol(look: seq<Byte>, dicLimit: nat, dummyProcessed: int, ghost d0: Ideal,
                            ghost chunks0: seq<seq<Byte>>)
      returns (done: bool, res: SRes, used: nat, ghost chunks: seq<seq<Byte>>)
      requires Ready(d0, chunks0, dicLimit) && tempBufSize <= |look| && tempBuf.Length == REQUIRED_INPUT_MAX
        && tempBuf != dic
      requires Next(look).Parsed? && tempBufSize <= Next(look).rc.pos <= |look|
        && Next(look).rc.pos <= REQUIRED_INPUT_MAX
      requires dicPos == dicLimit ==> Next(look).sym.Match?
      requires dummyProcessed >= 0 ==> dummyProcessed == Next(look).rc.pos
      modifies this, probs, dic
      ensures used + old(tempBufSize) <= |look| && tempBufSize == 0
      ensures Progress(d0, chunks, Concat(chunks0) + look[..used + old(tempBufSize)])
      ensures res != SzErrorFail && old(dicPos) <= dicPos <= dicLimit
      ensures !done ==> res == SzOk && remainLen <= MATCH_SPEC_LEN_START
                        && (if old(dicPos) < dicLimit then dicPos > old(dicPos) || remainLen == MATCH_SPEC_LEN_START
                            else remainLen > 0 && dicPos == dicLimit)
      ensures done ==> res == SzErrorData
    {
      hide Run, SymbolProg, Step, Apply, CtxOf, DecodeOne, LookAhead, CopyOut, Window, Shows, NumProbs, Fold;
      done, res, used := false, SzOk, 0;
      var ok;
      ok, chunks := DecodeChunks(look, dicLimit, 0, d0, chunks0);
      if (if dummyProcessed < 0 then buf > REQUIRED_INPUT_MAX || buf < tempBufSize else dummyProcessed != buf) {
        done, res := true, SzErrorFail;
        return;
      }
      used := buf - tempBufSize;
      tempBufSize := 0;
      if !ok {
        remainLen, done, res := ERROR_DATA, true, SzErrorData;
      }
    }

    lemma CarryFacts(look: seq<Byte>, size: nat)
      requires size <= |look| <= tempBuf.Length && look == tempBuf[..|look|]
      requires Next(look).Parsed? ==> Next(look).rc.pos >= size
      ensures tempBuf[..size] == look[..size]
      ensures size > 0 ==> Next(tempBuf[..size - 1]).Eof?
    {
      hide Run, SymbolProg, CtxOf, DecodeOne;
      if size > 0 {
        PrefixIsEof(probs[..], look, size - 1, Coder(range, code, 0), CtxOf(p, Decoder(out)));
        assert look[..size - 1] == tempBuf[..size - 1];
      }
    }

    /** The next symbols, from the carry or from the caller's buffer. */
    method DecodeNext(rest: seq<Byte>, dicLimit: nat, ghost d0: Ideal, ghost chunks0: seq<seq<Byte>>)
      returns (done: bool, res: SRes, status: Status, used: nat, ghost chunks: seq<seq<Byte>>)
      requires Ready(d0, chunks0, dicLimit) && TempOk() && tempBuf != dic
      modifies this, probs, dic, tempBuf
      ensures used <= |rest| && Progress(d0, chunks, Concat(chunks0) + (old(tempBuf[..tempBufSize]) + rest[..used]))
      ensures res != SzErrorFail && old(dicPos) <= dicPos <= dicLimit
      ensures !done ==> Streaming(d0, chunks)
                        && (if old(dicPos) < dicLimit then dicPos > old(dicPos) || remainLen == MATCH_SPEC_LEN_START
                            else remainLen > 0 && dicPos == dicLimit)
      ensures done && res == SzOk ==> status == NeedsMoreInput && used == |rest| && Starved()
    {
      hide Run, SymbolProg, Step, Apply, CtxOf, DecodeOne, LookAhead, CopyOut, Window, Shows, NumProbs, Fold, Concat,
           DicOk, RepsOk, CheckOk, IdealOk, Core;
      if tempBufSize == 0 {
        done, res, status, used, chunks := DecodeFromSource(rest, dicLimit, d0, chunks0);
      } else {
        done, res, status, used, chunks := DecodeFromTemp(rest, dicLimit, d0, chunks0);
      }
    }

    /** The decoding loop of `LzmaDec_DecodeToDic`, entered when the range coder is initialized. */
    method DecodeLoop(dicLimit: nat, src: seq<Byte>, finishEnd: bool, ghost d0: Ideal)
      returns (res: SRes, used: nat, status: Status, ghost chunks: seq<seq<Byte>>)
      requires Streaming(d0, []) && TempOk() && tempBuf != dic && dicPos <= dicLimit <= dic.Length
      modifies this, probs, dic, tempBuf
      ensures used <= |src| && Progress(d0, chunks, old(tempBuf[..tempBufSize]) + src[..used])
      ensures res != SzErrorFail && dicPos <= dicLimit
      ensures res == SzOk ==> StatusOk(status, dicLimit, finishEnd, used == |src|)
    {
      hide Run, SymbolProg, Step, Apply, CtxOf, DecodeOne, LookAhead, CopyOut, Window, NumProbs, DicOk, RepsOk, CheckOk,
           IdealOk, Fold, Shows, Core;
      ghost var temp0 := tempBuf[..tempBufSize];
      used, chunks := 0, [];
      res, status := SzOk, NotSpecified;
      EmptyRun(d0);
      while true
        invariant Streaming(d0, chunks) && TempOk() && tempBuf != dic && dicPos <= dicLimit <= dic.Length
        invariant used <= |src| && Concat(chunks) + tempBuf[..tempBufSize] == temp0 + src[..used]
        decreases dicLimit - dicPos, remainLen == 0
      {
        StreamingFacts(d0, chunks);
        if remainLen == MATCH_SPEC_LEN_START {
          res, status := if code != 0 then SzErrorData else SzOk, if code != 0 then NotSpecified else FinishedWithMark;
          return;
        }
        Flush(dicLimit, d0, chunks);
        StreamingFacts(d0, chunks);
        var checkEndMarkNow := dicPos >= dicLimit;
        if checkEndMarkNow {
          if remainLen == 0 && code == 0 {
            res, status := SzOk, MaybeFinishedWithoutMark;
            return;
          }
          if !finishEnd {
            res, status := SzOk, NotFinished;
            return;
          }
          if remainLen != 0 {
            res, status := SzErrorData, NotFinished;
            return;
          }
        }
        ghost var chunks0, used0, temp1 := chunks, used, tempBuf[..tempBufSize];
        var done, more;
        done, res, status, more, chunks := DecodeNext(src[used..], dicLimit, d0, chunks);
        used := used + more;
        assert src[used0..][..more] == src[used0..used];
        SeqAssoc(Concat(chunks0), temp1, src[used0..used], temp0, src, used0, used);
        if done { return; }
      }
    }

    /** What each status means. Input is asked for only where the next symbol, or the header, is incomplete. */
    ghost predicate StatusOk(status: Status, dicLimit: nat, finishEnd: bool, allUsed: bool)
      reads `range, `code, `rep0, `rep1, `rep2, `rep3, `state, `remainLen, `out, `dicPos, `tempBufSize, tempBuf, probs
    {
      match status
      case FinishedWithMark => remainLen == MATCH_SPEC_LEN_START && code == 0
      case NotFinished => dicPos == dicLimit && !finishEnd
      case NeedsMoreInput =>
        allUsed && (if remainLen > MATCH_SPEC_LEN_START then tempBufSize < RC_INIT_SIZE else Starved())
      case MaybeFinishedWithoutMark => dicPos == dicLimit && remainLen == 0 && code == 0
      case NotSpecified => false
    }

    lemma EmptyRun(d0: Ideal)
      ensures Concat([]) == []
    {}

    lemma StreamingFacts(d0: Ideal, chunks: seq<seq<Byte>>)
      requires Streaming(d0, chunks)
      ensures DicOk() && CheckOk() && PropsOk(p) && probs.Length == NumProbs(p)
      ensures 0 < remainLen < MATCH_SPEC_LEN_START ==> RepReachable(rep0)
    {}

    /** Writing a pending match changes neither the decoder nor the ideal output. */
    method Flush(dicLimit: nat, ghost d0: Ideal, ghost chunks: seq<seq<Byte>>)
      requires Streaming(d0, chunks) && TempOk() && remainLen < MATCH_SPEC_LEN_START && dicPos <= dicLimit <= dic.Length
      requires tempBuf != dic
      modifies `remainLen, `checkDicSize, `dicPos, `processedPos, `out, dic
      ensures Streaming(d0, chunks) && TempOk() && old(dicPos) <= dicPos <= dicLimit && remainLen < MATCH_SPEC_LEN_START
      ensures remainLen == 0 || dicPos == dicLimit
      ensures remainLen != old(remainLen) ==> dicPos > old(dicPos)
    {
      hide Run, SymbolProg, Step, CtxOf, DecodeOne, CopyOut, Window, NumProbs, DicOk, CheckOk, IdealOk, Fold;
      StreamingFacts(d0, chunks);
      WriteRem(dicLimit);
    }

    // ----- the interface -----

    /** What holds between calls. 275 asks for a new range coder, 276 for new probabilities as well. */
    ghost predicate Valid()
      reads this, dic, probs, tempBuf
    {
      && PropsOk(p) && DicOk() && CheckOk()
      && probs.Length == NumProbs(p) && tempBuf.Length == REQUIRED_INPUT_MAX && tempBuf != dic
      && (remainLen <= MATCH_SPEC_LEN_START + 2 || remainLen == ERROR_DATA)
      && (if remainLen <= MATCH_SPEC_LEN_START then Core() && range >= TOP && TempOk()
          else tempBufSize <= RC_INIT_SIZE)
      && (remainLen < MATCH_SPEC_LEN_START ==>
            IdealOk(p, Decoder(CopyOut(out, rep0, remainLen))) && (remainLen > 0 ==> out != []))
      && (remainLen == MATCH_SPEC_LEN_START + 1 ==> Core() && out != [])
    }

    constructor (p: Props, dicBufSize: nat)
      requires PropsOk(p)
      ensures Valid() && fresh(probs) && fresh(dic) && fresh(tempBuf)
      ensures this.p == p && dic.Length == dicBufSize && dicPos == 0 && out == []
      ensures remainLen == MATCH_SPEC_LEN_START + 2 && tempBufSize == 0
    {
      this.p := p;
      probs := new Prob[NumProbs(p)];
      dic := new Byte[dicBufSize];
      tempBuf := new Byte[REQUIRED_INPUT_MAX];
      dicPos, buf, range, code, processedPos, checkDicSize := 0, 0, 0, 0, 0, 0;
      rep0, rep1, rep2, rep3, state := 1, 1, 1, 1, 0;
      remainLen, tempBufSize := MATCH_SPEC_LEN_START + 2, 0;
      out := [];
    }

    /** Restarts at a chunk boundary of a container. With the dictionary and the probabilities kept, the decoder can
        go on if and only if it has decoded something and its distances lie inside that. */
    method InitDicAndState(initDic: bool, initState: bool)
      requires Valid()
      modifies `processedPos, `checkDicSize, `remainLen, `tempBufSize, `out
      ensures Valid() <==> initDic || initState || (Core() && out != [])
      ensures old(remainLen) <= MATCH_SPEC_LEN_START + 1 && old(out) != [] ==> Valid()
      ensures tempBufSize == 0
      ensures remainLen == (if initDic || initState then MATCH_SPEC_LEN_START + 2 else MATCH_SPEC_LEN_START + 1)
      ensures out == (if initDic then [] else old(out))
    {
      hide DecodeOne, CtxOf, IdealOk, CopyOut, NumProbs, PropsOk;
      remainLen := MATCH_SPEC_LEN_START + 1;
      tempBufSize := 0;
      if initDic {
        processedPos := 0;
        checkDicSize := 0;
        out := [];
        remainLen := MATCH_SPEC_LEN_START + 2;
      }
      if initState {
        remainLen := MATCH_SPEC_LEN_START + 2;
      }
    }

    /** The caller's step when the write position has reached the end of the dictionary. */
    method WrapDic()
      requires Valid() && dicPos == dic.Length && p.dicSize <= dic.Length
      modifies `dicPos
      ensures Valid() && dicPos == 0
      ensures remainLen < MATCH_SPEC_LEN_START ==>
                Decoder(CopyOut(out, rep0, remainLen)) == old(Decoder(CopyOut(out, rep0, remainLen)))
    {
      WindowWrap(dic[..], out);
      dicPos := 0;
    }

    method InitProbs()
      modifies probs, `rep0, `rep1, `rep2, `rep3, `state
      ensures forall i :: 0 <= i < probs.Length ==> probs[i] == PROB_INIT
      ensures rep0 == rep1 == rep2 == rep3 == 1 && state == 0
    {
      for i := 0 to probs.Length
        invariant forall j :: 0 <= j < i ==> probs[j] == PROB_INIT
      {
        probs[i] := PROB_INIT;
      }
      rep0, rep1, rep2, rep3 := 1, 1, 1, 1;
      state := 0;
    }

    method FillHeader(src: seq<Byte>) returns (used: nat)
      requires tempBufSize <= RC_INIT_SIZE && tempBuf.Length == REQUIRED_INPUT_MAX
      modifies `tempBufSize, tempBuf
      ensures used <= |src| && tempBufSize == old(tempBufSize) + used <= RC_INIT_SIZE
      ensures tempBufSize < RC_INIT_SIZE ==> used == |src|
      ensures tempBuf[..tempBufSize] == old(tempBuf[..tempBufSize]) + src[..used]
    {
      used := 0;
      while used < |src| && tempBufSize < RC_INIT_SIZE
        invariant used <= |src| && tempBufSize == old(tempBufSize) + used <= RC_INIT_SIZE
        invariant tempBuf[..tempBufSize] == old(tempBuf[..tempBufSize]) + src[..used]
      {
        tempBuf[tempBufSize] := src[used];
        tempBufSize, used := tempBufSize + 1, used + 1;
      }
    }

    /** The range coder of a stream whose five header bytes are `h`. */
    ghost function Initial(h: seq<Byte>, newState: bool): Ideal
      requires |h| == RC_INIT_SIZE
      reads `rep0, `rep1, `rep2, `rep3, `state, `out, probs
    {
      var c := Be32(h[1], h[2], h[3], h[4]);
      if newState then Ideal(seq(probs.Length, i => PROB_INIT), 0xFFFF_FFFF, c, 1, 1, 1, 1, 0, out)
      else Ideal(probs[..], 0xFFFF_FFFF, c, rep0, rep1, rep2, rep3, state, out)
    }

    /** Reads the five bytes that start a range coder. On success the decoder is in the ideal state
        given by these bytes; the header is rejected when its first byte is not 0, or when it would let
        a stream begin with a repeated match. */
    method ReadHeader(src: seq<Byte>) returns (ready: bool, res: SRes, used: nat)
      requires Valid() && MATCH_SPEC_LEN_START < remainLen <= MATCH_SPEC_LEN_START + 2
      modifies this, probs, tempBuf
      ensures Valid() && used <= |src| && dicPos == old(dicPos) && out == old(out)
      ensures !ready ==> remainLen == old(remainLen)
                         && tempBuf[..tempBufSize] == old(tempBuf[..tempBufSize]) + src[..used]
      ensures !ready && res == SzOk ==> used == |src| && tempBufSize < RC_INIT_SIZE
      ensures ready ==> tempBufSize == 0 && remainLen == 0 && res == SzOk
                        && old(tempBufSize) + used == RC_INIT_SIZE
                        && Decoder(out) == old(Initial(tempBuf[..tempBufSize] + src[..RC_INIT_SIZE - tempBufSize],
                                                       remainLen == MATCH_SPEC_LEN_START + 2))
      ensures res != SzErrorFail
    {
      hide Window, IdealOk, RepsOk, NumProbs, CopyOut;
      used := FillHeader(src);
      ready, res := false, SzOk;
      ghost var h := tempBuf[..tempBufSize];
      if tempBufSize != 0 && tempBuf[0] != 0 {
        res := SzErrorData;
        return;
      }
      if tempBufSize < RC_INIT_SIZE { return; }
      code := Be32(tempBuf[1], tempBuf[2], tempBuf[3], tempBuf[4]);
      if checkDicSize == 0 && processedPos == 0 && code >= BAD_REP_CODE {
        res := SzErrorData;
        return;
      }
      assert h == old(tempBuf[..tempBufSize] + src[..RC_INIT_SIZE - tempBufSize]);
      StartCoder();
      ready := true;
    }

    method StartCoder()
      requires Valid() && MATCH_SPEC_LEN_START < remainLen <= MATCH_SPEC_LEN_START + 2
      requires out == [] ==> code < BAD_REP_CODE
      modifies `range, `tempBufSize, `remainLen, `rep0, `rep1, `rep2, `rep3, `state, probs
      ensures Valid() && tempBufSize == 0 && remainLen == 0
      ensures Decoder(out) == (if old(remainLen) == MATCH_SPEC_LEN_START + 2
                               then Ideal(seq(probs.Length, i => PROB_INIT), 0xFFFF_FFFF, code, 1, 1, 1, 1, 0, out)
                               else old(Decoder(out)).(range := 0xFFFF_FFFF))
    {
      hide Window;
      range := 0xFFFF_FFFF;
      tempBufSize := 0;
      if remainLen > MATCH_SPEC_LEN_START + 1 {
        InitProbs();
      }
      remainLen := 0;
      NoCopy();
    }

    lemma ProgressIsValid(d0: Ideal, chunks: seq<seq<Byte>>, taken: seq<Byte>)
      requires PropsOk(p) && Progress(d0, chunks, taken) && IdealOk(p, d0)
      ensures Valid()
    {
      hide Run, SymbolProg, Step, CtxOf, DecodeOne, CopyOut, Window, NumProbs, DicOk, CheckOk, RepsOk, IdealOk;
      FoldKeepsOk(p, d0, chunks);
    }

    /** Decodes to the dictionary up to `dicLimit`, from as much of `src` as that needs. The state after
        the call is the ideal decoder's after the symbols in `chunks`, which are exactly the bytes
        taken, apart from the carry; the internal-failure result does not occur. */
    method DecodeToDic(dicLimit: nat, src: seq<Byte>, finishEnd: bool)
      returns (res: SRes, srcLen: nat, status: Status, ghost d0: Ideal, ghost start: nat, ghost chunks: seq<seq<Byte>>)
      requires Valid() && dicPos <= dicLimit <= dic.Length
      modifies this, probs, dic, tempBuf
      ensures Valid() && srcLen <= |src| && dicPos <= dicLimit
      ensures res != SzErrorFail
      ensures res == SzOk ==> StatusOk(status, dicLimit, finishEnd, srcLen == |src|)
      ensures old(remainLen) == ERROR_DATA ==> res == SzErrorData
      ensures old(remainLen) < MATCH_SPEC_LEN_START ==>
                d0 == old(Decoder(CopyOut(out, rep0, remainLen)))
                && Progress(d0, chunks, old(tempBuf[..tempBufSize]) + src[..srcLen])
      ensures MATCH_SPEC_LEN_START < old(remainLen) < ERROR_DATA && remainLen != old(remainLen) ==>
                old(tempBufSize) + start == RC_INIT_SIZE && start <= srcLen
                && d0 == old(Initial(tempBuf[..tempBufSize] + src[..RC_INIT_SIZE - tempBufSize],
                                     remainLen == MATCH_SPEC_LEN_START + 2))
                && Progress(d0, chunks, src[start..srcLen])
    {
      hide Run, SymbolProg, Step, CtxOf, DecodeOne, CopyOut, Window, NumProbs, DicOk, CheckOk, RepsOk, IdealOk, Core,
           Fold, Concat;
      srcLen, status, start, chunks := 0, NotSpecified, 0, [];
      d0 := Decoder(CopyOut(out, rep0, remainLen));
      if remainLen > MATCH_SPEC_LEN_START {
        if remainLen > MATCH_SPEC_LEN_START + 2 {
          res := if remainLen == ERROR_FAIL then SzErrorFail else SzErrorData;
          return;
        }
        var ready;
        ready, res, srcLen := ReadHeader(src);
        if !ready {
          status := if res == SzOk then NeedsMoreInput else NotSpecified;
          return;
        }
        start := srcLen;
        d0 := Decoder(out);
        NoCopy();
      }
      if remainLen == MATCH_SPEC_LEN_START {
        res, status := if code != 0 then SzErrorData else SzOk, if code != 0 then NotSpecified else FinishedWithMark;
        return;
      }
      StartsEmpty(d0);
      var used;
      ghost var temp0 := tempBuf[..tempBufSize];
      res, used, status, chunks := DecodeLoop(dicLimit, src[srcLen..], finishEnd, d0);
      srcLen := srcLen + used;
      assert src[start..][..used] == src[start..srcLen];
      assert start == 0 ==> src[start..srcLen] == src[..srcLen];
      assert temp0 == [] ==> temp0 + src[start..srcLen] == src[start..srcLen];
      ProgressIsValid(d0, chunks, temp0 + src[start..srcLen]);
    }

    lemma StartsEmpty(d0: Ideal)
      requires Valid() && remainLen < MATCH_SPEC_LEN_START && d0 == Decoder(CopyOut(out, rep0, remainLen))
      ensures Streaming(d0, [])
    {}
  }

  lemma {:induction false} FoldConcat(step: Stepper, d: Ideal, cs: seq<seq<Byte>>, ds: seq<seq<Byte>>)
    requires Fold(step, d, cs).Running?
    ensures Fold(step, d, cs + ds) == Fold(step, Fold(step, d, cs).d, ds)
  {
    FoldSplitAt(step, d, cs + ds, cs, ds);
  }

  lemma FoldSplitAt(step: Stepper, d: Ideal, all: seq<seq<Byte>>, cs: seq<seq<Byte>>, ds: seq<seq<Byte>>)
    requires all == cs + ds && Fold(step, d, cs).Running?
    ensures Fold(step, d, all) == Fold(step, Fold(step, d, cs).d, ds)
  {
    assert all[..|cs|] == cs && all[|cs|..] == ds;
    FoldSplit(step, d, all, |cs|);
  }

  lemma {:induction false} ConcatConcat(cs: seq<seq<Byte>>, ds: seq<seq<Byte>>)
    ensures Concat(cs + ds) == Concat(cs) + Concat(ds)
    decreases |cs|
  {
    if cs == [] {
      assert cs + ds == ds;
    } else {
      assert (cs + ds)[1..] == cs[1..] + ds;
      ConcatConcat(cs[1..], ds);
    }
  }

  lemma SeqAssoc(c: seq<Byte>, t: seq<Byte>, more: seq<Byte>, t0: seq<Byte>, src: seq<Byte>, a: nat, b: nat)
    requires a <= b <= |src| && more == src[a..b] && c + t == t0 + src[..a]
    ensures c + (t + more) == t0 + src[..b] && (t == [] ==> c + more == t0 + src[..b])
  {
    assert src[..b] == src[..a] + src[a..b];
    assert c + (t + more) == (c + t) + more;
    assert t0 + src[..b] == (t0 + src[..a]) + more;
    if t == [] { assert c + t == c; }
  }

  lemma CarryPrefixes(look: seq<Byte>, temp: seq<Byte>, rest: seq<Byte>, ahead: nat)
    requires ahead <= |rest| && look == temp + rest[..ahead]
    ensures forall used: nat :: used <= ahead ==> look[..used + |temp|] == temp + rest[..used]
  {}

  /** An input that ends before the symbol does, or before its last byte, is not parsed. */
  lemma PrefixIsEof(probs: seq<Prob>, x: seq<Byte>, k: int, rc: Coder, ctx: Ctx)
    requires rc.pos == 0 && k <= |x|
    requires DecodeOne(probs, x, rc, ctx).Parsed? ==> DecodeOne(probs, x, rc, ctx).rc.pos > k
    ensures k >= 0 ==> DecodeOne(probs, x[..k], rc, ctx).Eof?
  {
    hide Run, SymbolProg;
    if k >= 0 && DecodeOne(probs, x[..k], rc, ctx).Parsed? {
      FinishInside(SymbolProg(ctx), probs, x[..k], rc);
      FinishIsLocal(true, SymbolProg(ctx), probs, x[..k], 0, x, 0, k, rc);
    }
  }

  /** If all but the last byte of the carry do not hold a symbol, a symbol takes the whole carry. */
  lemma LongerThanCarry(probs: seq<Prob>, x: seq<Byte>, size: nat, rc: Coder, ctx: Ctx)
    requires rc.pos == 0 && 0 < size <= |x| && DecodeOne(probs, x[..size - 1], rc, ctx).Eof?
    ensures DecodeOne(probs, x, rc, ctx).Parsed? ==> DecodeOne(probs, x, rc, ctx).rc.pos >= size
  {
    hide Run, SymbolProg;
    var r := DecodeOne(probs, x, rc, ctx);
    if r.Parsed? && r.rc.pos < size {
      FinishIsLocal(true, SymbolProg(ctx), probs, x, 0, x[..size - 1], 0, size - 1, rc);
    }
  }

  /** A single decoded chunk has the size that decoding one symbol predicts. */
  lemma OneChunkSize(p: Props, d: Ideal, input: seq<Byte>, cs: seq<seq<Byte>>, n: nat)
    requires DecodeOne(d.probs, input, RcOf(d, 0), CtxOf(p, d)).Parsed?
    requires |cs| == 1 && n <= |input| && Concat(cs) == input[..n]
    requires !Fold(StepOf(p), d, cs).Stuck?
    ensures n == DecodeOne(d.probs, input, RcOf(d, 0), CtxOf(p, d)).rc.pos
  {
    hide Run, SymbolProg, CtxOf;
    var r := DecodeOne(d.probs, input, RcOf(d, 0), CtxOf(p, d));
    ChunkStep(p, d, input, 0);
    assert cs[1..] == [] && cs[0] == input[..n];
    ApplyNotStuck(p, WithCoder(d, r.rc, r.probs), r.sym);
    SymbolCodeIsPrefixFree(p, d, cs[0], input[..r.rc.pos], input);
  }

  lemma ApplyNotStuck(p: Props, d: Ideal, sym: Symbol)
    ensures !Apply(p, d, sym).Stuck?
  {}

  lemma SmallSlot(slot: nat, k: nat -> Prog)
    ensures slot < 4 ==> SlotProg(slot, k) == k(slot)
  {}

  lemma ShortSlotFits(top: nat, nb: nat)
    requires top <= 3 && nb <= 5
    ensures top * Pow2(nb) + Pow2(nb) <= 128
  {
    Pow2Mono(nb, 5);
    assert Pow2(5) == 32;
    MulMono(top, 3, Pow2(nb));
  }

  lemma CtxOfCoder(p: Props, d: Ideal, rc: Coder, probs: seq<Prob>)
    ensures CtxOf(p, WithCoder(d, rc, probs)) == CtxOf(p, d)
  {}

  lemma RunFromNormalized(input: seq<Byte>, rc: Coder, probs: seq<Prob>, ctx: Ctx)
    requires Normalize(input, rc).Some? && Normalize(input, rc).value.range >= TOP
    ensures DecodeOne(probs, input, Normalize(input, rc).value, ctx)
      == Finish(input, Run(true, probs, input, rc, SymbolProg(ctx)))
  {
    SameRun(input, rc, probs, SymbolProg(ctx));
  }

  lemma SameRun(input: seq<Byte>, rc: Coder, probs: seq<Prob>, prog: Prog)
    requires Normalize(input, rc).Some? && Normalize(input, rc).value.range >= TOP && !prog.Done?
    ensures Run(true, probs, input, Normalize(input, rc).value, prog) == Run(true, probs, input, rc, prog)
  {}

  /** The bytes that a symbol consumes from a longer input are a chunk. */
  lemma ChunkStep(p: Props, d: Ideal, input: seq<Byte>, pos: nat)
    requires pos <= |input| && DecodeOne(d.probs, input, RcOf(d, pos), CtxOf(p, d)).Parsed?
    ensures var r := DecodeOne(d.probs, input, RcOf(d, pos), CtxOf(p, d));
            pos <= r.rc.pos <= |input|
            && Step(p, d, input[pos..r.rc.pos]) == Apply(p, WithCoder(d, r.rc, r.probs), r.sym)
  {
    hide Run, SymbolProg, Apply, CtxOf;
    var ctx := CtxOf(p, d);
    var r := DecodeOne(d.probs, input, RcOf(d, pos), ctx);
    FinishInside(SymbolProg(ctx), d.probs, input, RcOf(d, pos));
    var chunk := input[pos..r.rc.pos];
    FinishIsLocal(true, SymbolProg(ctx), d.probs, input, pos, chunk, 0, |chunk|, RcOf(d, pos));
  }

  /** A symbol decoded from a range coder `rc` that is still to be normalized to `n`. */
  lemma SymbolFacts(p: Props, d: Ideal, input: seq<Byte>, rc: Coder, n: Coder)
    requires PropsOk(p) && IdealOk(p, d) && n == RcOf(d, n.pos) && n.pos <= |input|
    requires Normalize(input, rc) == Some(n)
    requires DecodeOne(d.probs, input, n, CtxOf(p, d)).Parsed?
    ensures var r, r0 :=
      DecodeOne(d.probs, input, n, CtxOf(p, d)), Run(true, d.probs, input, rc, SymbolProg(CtxOf(p, d)));
            && r0.Parsed? && rc.pos <= r0.rc.pos && Normalize(input, r0.rc) == Some(r.rc)
            && r0.sym == r.sym && r0.probs == r.probs
            && n.pos <= r.rc.pos <= |input| && r.rc.range >= TOP
            && (d.out == [] ==> LiteralOrMatch(r0.sym))
            && Step(p, d, input[n.pos..r.rc.pos]) == Recode(Apply(p, WithCoder(d, r0.rc, r0.probs), r0.sym), r.rc)
  {
    hide Run, SymbolProg, Apply, CtxOf, Step;
    var ctx := CtxOf(p, d);
    var r0 := Run(true, d.probs, input, rc, SymbolProg(ctx));
    if d.out == [] { FirstSymbolIsNotRep(p, d, input, n.pos); }
    RunFromNormalized(input, rc, d.probs, ctx);
    RunAdvances(true, SymbolProg(ctx), d.probs, input, rc);
    ChunkStep(p, d, input, n.pos);
    DecodedSymbolOk(p, d, input, n);
    ApplyRecode(p, d, r0.rc, DecodeOne(d.probs, input, n, ctx).rc, r0.probs, r0.sym);
  }

  function Recode(r: Result, rc: Coder): Result {
    match r
    case Running(d) => Running(d.(range := rc.range, code := rc.code))
    case Ended(d) => Ended(d.(range := rc.range, code := rc.code))
    case Broken => Broken
    case Stuck => Stuck
  }

  lemma ApplyRecode(p: Props, d: Ideal, rc: Coder, rc': Coder, probs: seq<Prob>, sym: Symbol)
    ensures Apply(p, WithCoder(d, rc', probs), sym) == Recode(Apply(p, WithCoder(d, rc, probs), sym), rc')
  {}

  lemma LiteralKind(ctx: Ctx, input: seq<Byte>, probs: seq<Prob>, rc: Coder)
    ensures var r := Run(true, probs, input, rc, LiteralProg(ctx)); r.Parsed? ==> r.sym.Literal?
  {
    var kind := (s: Symbol) => s.Literal?;
    if ctx.state < 7 { TreeLeaves(ctx.lit, 0x100, 1, LiteralDone, kind); }
    else { MatchedLeaves(ctx.lit, ctx.matchByte, true, 1, LiteralDone, kind); }
    RunEndsAtLeaf(LiteralProg(ctx), kind, probs, input, rc);
  }

  lemma {:induction false} MatchedLeaves(base: nat, matchByte: nat, offs: bool, symbol: nat, k: nat -> Prog,
                                         kind: Symbol -> bool)
    requires symbol >= 1 && forall r: nat :: Leaves(k(r), kind)
    ensures Leaves(MatchedProg(base, matchByte, offs, symbol, k), kind)
    decreases 0x100 - symbol
  {
    if symbol < 0x100 {
      var both := offs && matchByte * 2 / 0x100 % 2 == 1;
      MatchedLeaves(base, matchByte * 2, both != offs, 2 * symbol, k, kind);
      MatchedLeaves(base, matchByte * 2, both, 2 * symbol + 1, k, kind);
    }
  }

  lemma RepKind(ctx: Ctx, input: seq<Byte>, probs: seq<Prob>, rc: Coder)
    ensures var r := Run(true, probs, input, rc, RepProg(ctx)); r.Parsed? ==> r.sym.ShortRep? || r.sym.Rep?
  {
    var kind := (s: Symbol) => s.ShortRep? || s.Rep?;
    RepLenLeaves(ctx, 0, kind);
    RepLenLeaves(ctx, 1, kind);
    RepLenLeaves(ctx, 2, kind);
    RepLenLeaves(ctx, 3, kind);
    RepShape(ctx, RepProg(ctx), kind);
    RunEndsAtLeaf(RepProg(ctx), kind, probs, input, rc);
  }

  lemma RepShape(ctx: Ctx, rep: Prog, kind: Symbol -> bool)
    requires rep.Bit? && rep.zero.Bit? && rep.one.Bit? && rep.one.one.Bit?
    requires Leaves(rep.zero.zero, kind) && Leaves(rep.zero.one, kind) && Leaves(rep.one.zero, kind)
    requires Leaves(rep.one.one.zero, kind) && Leaves(rep.one.one.one, kind)
    ensures Leaves(rep, kind)
  {}

  lemma RepLenLeaves(ctx: Ctx, idx: nat, kind: Symbol -> bool)
    requires forall len: nat :: kind(Rep(idx, len))
    ensures Leaves(RepLenProg(ctx, idx), kind)
  {
    var k := (len: nat) => RepDone(idx, len);
    forall len: nat ensures Leaves(k(len), kind) { assert k(len) == RepDone(idx, len); }
    LenLeaves(REP_LEN_CODER, ctx.posState, k, kind);
  }

  lemma FrozenRunDone(input: seq<Byte>, rc: Coder, probs: seq<Prob>, prog: Prog)
    requires prog.Done?
    ensures Run(false, probs, input, rc, prog) == Parsed(prog.sym, rc, probs)
  {}

  lemma RunDone(input: seq<Byte>, rc: Coder, probs: seq<Prob>, prog: Prog)
    requires prog.Done?
    ensures Run(true, probs, input, rc, prog) == Parsed(prog.sym, rc, probs)
  {}

  lemma {:induction false} CopyOutSplit(out: seq<Byte>, dist: nat, a: nat, b: nat)
    ensures CopyOut(CopyOut(out, dist, a), dist, b) == CopyOut(out, dist, a + b)
    decreases a
  {
    if a > 0 { CopyOutSplit(out + [ByteAt(out, dist)], dist, a - 1, b); }
  }
}
