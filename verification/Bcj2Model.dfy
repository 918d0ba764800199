/** BCJ2 as a transformation: the input is split over four streams and put together again. */
module Bcj2Model {
  import opened Arith
  import opened Wrappers
  import opened BitModel
  import opened Words
  import opened Bcj2Range

  // ----- markers -----

  const QWORD := 0x1_0000_0000_0000_0000

  /** The marker test on the word that holds the previous byte on top and the new byte at the bottom. */
  function Pair(prev: Byte, b: Byte): Word { 0x100_0000 * prev + b }

  lemma PairIs(prev: Byte, b: Byte)
    ensures Pair(prev, b) / 0x100_0000 == prev && Pair(prev, b) % 256 == b
  {}

  /** A CALL or JUMP opcode, or the second byte of a conditional jump. */
  predicate IsMarker(prev: Byte, b: Byte) {
    (b + 0x18) / 2 % 128 == 0 || (Pair(prev, b) + WORD - 0x0F00_0080) % WORD / 16 == 0
  }

  lemma MarkerBytes(prev: Byte, b: Byte)
    ensures IsMarker(prev, b) <==> b == 0xE8 || b == 0xE9 || (prev == 0x0F && 0x80 <= b < 0x90)
  {}

  predicate IsCall(b: Byte) { (b + 0x57) / 64 % 2 == 0 }

  /** The probability for a marker: one for conditional jumps, one for JUMP, and one for CALL after each byte. */
  function Index(prev: Byte, b: Byte): (i: nat)
    ensures IsMarker(prev, b) ==>
      i == if b == 0xE8 then prev + 2 else if b == 0xE9 then 1 else 0
    ensures IsMarker(prev, b) ==> i < NUM_PROBS
  {
    var c := (b + 0x17) / 64 % 2;
    MarkerBytes(prev, b);
    (if c == 1 then prev else 0) + c + b / 32 % 2
  }

  // ----- words -----

  /** 32-bit sums and differences. */
  function Wrap(a: nat): Word { a % WORD }
  function Plus(a: nat, k: nat): Word { (a + k) % WORD }
  function Less(a: Word, b: Word): Word { (a + WORD - b) % WORD }

  // ----- the encoder -----

  /** What restricts the targets that are converted. Positions are 64-bit. */
  datatype Limits = Limits(fileIp: nat, fileSizeMinus1: nat, relatLimit: Word)

  predicate LimitsOk(l: Limits) { l.fileIp < QWORD && l.fileSizeMinus1 < QWORD }

  /** The first position, and for each position the limits and the end of its block. */
  datatype Options = Options(ip: nat, limits: nat -> Limits, end: nat -> nat)

  /** Inside a block, the end and the limits are those of the block. */
  ghost predicate OptionsOk(o: Options) {
    && o.ip < QWORD && (forall p: nat :: LimitsOk(o.limits(p)))
    && (forall p: nat, q: nat :: p <= q < o.end(p) ==> o.end(q) == o.end(p) && o.limits(q) == o.limits(p))
  }

  function Signed32(v: Word): int { if v < 0x8000_0000 then v else v - WORD }

  /** Whether the offset `relat` after the marker byte `b`, at position `ip`, is converted. */
  predicate Wanted(l: Limits, ip: nat, b: Byte, relat: Word) {
    var at := (ip + QWORD - l.fileIp) % QWORD;
    && at > (b + 0x20) / 32 % 2
    && (at + 4 + Signed32(relat)) % QWORD <= l.fileSizeMinus1
    && (relat + l.relatLimit) % WORD / 2 < l.relatLimit
  }

  datatype Enc = Enc(pos: nat, prev: Byte, main: seq<Byte>, call: seq<Byte>, jump: seq<Byte>, coder: Coder)

  function Fresh(): (e: Enc)
    ensures CoderOk(e.coder) && e.pos == 0
  {
    Enc(0, 0, [], [], [], Start())
  }

  ghost predicate EncOk(input: seq<Byte>, e: Enc) { e.pos <= |input| && CoderOk(e.coder) }

  /** Whether the offset behind the marker that ends before `p` is converted: no conversion crosses the end of a
      block, or of the input. */
  predicate Converted(o: Options, input: seq<Byte>, p: nat)
    requires 0 < p <= |input|
  {
    && p + 4 <= |input| && p + 4 <= o.end(p - 1)
    && Wanted(o.limits(p - 1), (o.ip + p) % QWORD, input[p - 1], Le32(input[p..p + 4]))
  }

  /** The position after the offset at `p`. */
  function PastOffset(o: Options, p: nat): nat { o.ip + p + 4 }

  /** The absolute target that replaces the offset at `p`. */
  function Target(o: Options, p: nat, offset: seq<Byte>): (t: seq<Byte>)
    requires |offset| == 4
    ensures |t| == 4
  {
    BeBytes(Plus(PastOffset(o, p), Le32(offset)))
  }

  /** One byte, with the decision and the converted offset if it completes a marker. */
  function EncStep(o: Options, input: seq<Byte>, e: Enc): (f: Enc)
    requires OptionsOk(o) && e.pos < |input| && CoderOk(e.coder)
    ensures EncOk(input, f) && f.pos > e.pos
  {
    var b := input[e.pos];
    var p := e.pos + 1;
    PutsKeep(e, b);
    if !IsMarker(e.prev, b) then Enc(p, b, e.main + [b], e.call, e.jump, e.coder)
    else if !Converted(o, input, p) then
      Enc(p, b, e.main + [b], e.call, e.jump, PutBit(e.coder, Index(e.prev, b), 0))
    else
      var target := Target(o, p, input[p..p + 4]);
      Enc(p + 4, input[p + 3], e.main + [b],
          if IsCall(b) then e.call + target else e.call, if IsCall(b) then e.jump else e.jump + target,
          PutBit(e.coder, Index(e.prev, b), 1))
  }

  lemma PutsKeep(e: Enc, b: Byte)
    requires CoderOk(e.coder)
    ensures IsMarker(e.prev, b) ==>
      CoderOk(PutBit(e.coder, Index(e.prev, b), 0)) && CoderOk(PutBit(e.coder, Index(e.prev, b), 1))
  {
    if IsMarker(e.prev, b) {
      PutKeeps(e.coder, Index(e.prev, b), 0);
      PutKeeps(e.coder, Index(e.prev, b), 1);
    }
  }

  function EncAll(o: Options, input: seq<Byte>, e: Enc): Enc
    requires OptionsOk(o) && EncOk(input, e)
    decreases |input| - e.pos
  {
    if e.pos == |input| then e else
    EncAll(o, input, EncStep(o, input, e))
  }

  datatype Streams = Streams(main: seq<Byte>, call: seq<Byte>, jump: seq<Byte>, rc: seq<Byte>)

  function StreamsOf(e: Enc): Streams { Streams(e.main, e.call, e.jump, Written(e.coder)) }

  /** The four streams of an input. */
  function Encode(o: Options, input: seq<Byte>): Streams
    requires OptionsOk(o)
  {
    StreamsOf(EncAll(o, input, Fresh()))
  }

  // ----- the decoder -----

  datatype Dec = Dec(out: seq<Byte>, prev: Byte, m: nat, c: nat, j: nat, ip: Word, rcd: Decoder)

  /** The decoder after the five leading bytes of the range coder stream, which have to be right. */
  function DecStart(s: Streams, ip: Word): Option<Dec> {
    if |s.rc| < 5 || s.rc[0] != 0 || Num(s.rc[..5]) == 0xFFFF_FFFF then None
    else Some(Dec([], 0, 0, 0, 0, ip, Decoder(0xFFFF_FFFF, Num(s.rc[..5]), 0, Start().probs)))
  }

  function Refilled(s: Streams, rcd: Decoder): Option<Decoder> {
    if rcd.range >= TOP then Some(rcd)
    else if 5 + rcd.k >= |s.rc| then None
    else Some(Refill(rcd, s.rc))
  }

  /** The relative offset of an absolute target, for the position behind it. */
  function Offset(t: seq<Byte>, to: Word): Word
    requires |t| == 4
  {
    Less(Be32(t[0], t[1], t[2], t[3]), to)
  }

  /** The range coder is normalised again before anything else is read. */
  function Settled(s: Streams, d: Dec): (r: Option<Dec>)
    ensures r.Some? ==> r.value == d.(rcd := r.value.rcd) && |r.value.rcd.probs| == |d.rcd.probs|
  {
    match Refilled(s, d.rcd)
    case None => None
    case Some(rcd) => Some(d.(rcd := rcd))
  }

  /** One byte of the main stream, with the offset behind it if the range coder says so; nothing when a
      stream runs out. The range coder is not normalised at the end. */
  function HalfStep(s: Streams, d: Dec): (r: Option<Dec>)
    requires d.m < |s.main| && |d.rcd.probs| == NUM_PROBS
    ensures r.Some? ==> r.value.m == d.m + 1 && |r.value.rcd.probs| == NUM_PROBS
  {
    var b := s.main[d.m];
    var ip := Plus(d.ip, 1);
    if !IsMarker(d.prev, b) then Some(Dec(d.out + [b], b, d.m + 1, d.c, d.j, ip, d.rcd)) else
    var i := Index(d.prev, b);
    var rcd := Take(d.rcd, i);
    if GetBit(d.rcd, i) == 0 then Some(Dec(d.out + [b], b, d.m + 1, d.c, d.j, ip, rcd)) else
    var from, at := if IsCall(b) then s.call else s.jump, if IsCall(b) then d.c else d.j;
    if at + 4 > |from| then None else
    var to := Plus(ip, 4);
    var v := Offset(from[at..at + 4], to);
    Some(Dec(d.out + [b] + LeBytes(v), v / 0x100_0000, d.m + 1,
             if IsCall(b) then d.c + 4 else d.c, if IsCall(b) then d.j else d.j + 4, to, rcd))
  }

  function DecStep(s: Streams, d: Dec): (r: Option<Dec>)
    requires d.m < |s.main| && |d.rcd.probs| == NUM_PROBS
    ensures r.Some? ==> r.value.m == d.m + 1 && |r.value.rcd.probs| == NUM_PROBS
  {
    match HalfStep(s, d)
    case None => None
    case Some(h) => Settled(s, h)
  }

  function DecAll(s: Streams, d: Dec): Option<Dec>
    requires d.m <= |s.main| && |d.rcd.probs| == NUM_PROBS
    decreases |s.main| - d.m
  {
    if d.m == |s.main| then Some(d) else
    match DecStep(s, d)
    case None => None
    case Some(next) => DecAll(s, next)
  }

  // ----- round trip -----

  /** The streams and the interval of `e` are beginnings of those of `f`. */
  ghost predicate Extends(e: Enc, f: Enc) {
    && e.main <= f.main && e.call <= f.call && e.jump <= f.jump
    && Inside(e.coder, f.coder) && CoderOk(f.coder)
  }

  lemma StepExtends(o: Options, input: seq<Byte>, e: Enc, f: Enc)
    requires OptionsOk(o) && e.pos < |input| && CoderOk(e.coder) && Extends(EncStep(o, input, e), f)
    ensures Extends(e, f)
  {
    hide Inside, CoderOk;
    var b := input[e.pos];
    if IsMarker(e.prev, b) {
      PutInside(e.coder, Index(e.prev, b), if Converted(o, input, e.pos + 1) then 1 else 0, f.coder);
    }
  }

  lemma {:induction false} AllExtends(o: Options, input: seq<Byte>, e: Enc)
    requires OptionsOk(o) && EncOk(input, e)
    ensures Extends(e, EncAll(o, input, e)) && EncAll(o, input, e).pos == |input|
    decreases |input| - e.pos
  {
    if e.pos == |input| {
      InsideSelf(e.coder);
    } else {
      AllExtends(o, input, EncStep(o, input, e));
      StepExtends(o, input, e, EncAll(o, input, e));
    }
  }

  /** The decoder stands where the encoder stood. */
  ghost predicate Meets(o: Options, input: seq<Byte>, e: Enc, d: Dec, s: Streams)
    requires e.pos <= |input|
  {
    && d.out == input[..e.pos] && d.prev == e.prev
    && d.m == |e.main| && d.c == |e.call| && d.j == |e.jump|
    && d.ip == Wrap(o.ip + e.pos)
    && Follows(d.rcd, e.coder, s.rc)
  }

  lemma PlusWrap(a: nat, k: nat)
    ensures Plus(Wrap(a), k) == Plus(a, k) == Wrap(a + k)
  {
    var q := a / WORD;
    DivUnique(a + k, q + (a % WORD + k) / WORD, WORD);
  }

  /** Subtracting the position that was added gives the offset back. */
  lemma OffsetReturns(a: nat, relat: Word)
    ensures Less(Plus(a, relat), Wrap(a)) == relat
  {
    var r := a % WORD;
    PlusWrap(a, relat);
    if r + relat < WORD {
      assert Plus(a, relat) == r + relat;
      assert (relat + WORD) % WORD == relat;
    } else {
      assert Plus(a, relat) == r + relat - WORD;
    }
  }

  lemma MeetsPlain(o: Options, input: seq<Byte>, e: Enc, d: Dec, s: Streams, f: Enc)
    requires OptionsOk(o) && e.pos < |input| && CoderOk(e.coder) && Meets(o, input, e, d, s)
    requires s == StreamsOf(f) && Extends(EncStep(o, input, e), f) && !IsMarker(e.prev, input[e.pos])
    ensures d.m < |s.main| && |d.rcd.probs| == NUM_PROBS && DecStep(s, d).Some?
    ensures Meets(o, input, EncStep(o, input, e), DecStep(s, d).value, s)
  {
    hide Inside, Written;
    var b := input[e.pos];
    assert s.main[d.m] == b;
    PlusWrap(o.ip + e.pos, 1);
    assert input[..e.pos + 1] == input[..e.pos] + [b];
  }

  ghost predicate Meeting(o: Options, input: seq<Byte>, e: Enc, d: Dec, s: Streams, f: Enc) {
    && OptionsOk(o) && e.pos < |input| && CoderOk(e.coder) && Meets(o, input, e, d, s)
    && s == StreamsOf(f) && Extends(EncStep(o, input, e), f)
    && f.coder.low < Pow256(f.coder.k + 5)
  }

  /** At a marker the range decoder gives the encoder's decision. */
  lemma MeetsBit(o: Options, input: seq<Byte>, e: Enc, d: Dec, s: Streams, f: Enc)
    requires Meeting(o, input, e, d, s, f) && IsMarker(e.prev, input[e.pos])
    ensures |d.rcd.probs| == NUM_PROBS
    ensures var i := Index(e.prev, input[e.pos]);
      && (GetBit(d.rcd, i) == if Converted(o, input, e.pos + 1) then 1 else 0)
      && Refilled(s, Take(d.rcd, i)).Some?
      && Follows(Refilled(s, Take(d.rcd, i)).value, EncStep(o, input, e).coder, s.rc)
  {
    var bit := if Converted(o, input, e.pos + 1) then 1 else 0;
    TakesWhatWasPut(d.rcd, e.coder, Index(e.prev, input[e.pos]), bit, f.coder);
  }

  lemma MeetsKept(o: Options, input: seq<Byte>, e: Enc, d: Dec, s: Streams, f: Enc)
    requires Meeting(o, input, e, d, s, f) && IsMarker(e.prev, input[e.pos]) && !Converted(o, input, e.pos + 1)
    ensures d.m < |s.main| && |d.rcd.probs| == NUM_PROBS && DecStep(s, d).Some?
    ensures Meets(o, input, EncStep(o, input, e), DecStep(s, d).value, s)
  {
    MeetsBit(o, input, e, d, s, f);
    hide Inside, Written, GetBit, Take, Refilled, Index, PutBit, Follows, Converted;
    var b := input[e.pos];
    assert s.main[d.m] == b;
    PlusWrap(o.ip + e.pos, 1);
    assert input[..e.pos + 1] == input[..e.pos] + [b];
  }

  lemma MeetsConverted(o: Options, input: seq<Byte>, e: Enc, d: Dec, s: Streams, f: Enc)
    requires Meeting(o, input, e, d, s, f) && IsMarker(e.prev, input[e.pos]) && Converted(o, input, e.pos + 1)
    ensures d.m < |s.main| && |d.rcd.probs| == NUM_PROBS && DecStep(s, d).Some?
    ensures Meets(o, input, EncStep(o, input, e), DecStep(s, d).value, s)
  {
    hide *;
    ConvertedFacts(o, input, e, d, s, f);
    var b, p := input[e.pos], e.pos + 1;
    var target := Target(o, p, input[p..p + 4]);
    PositionBehind(o, e);
    StreamFacts(o, input, e, s);
    MeetsBit(o, input, e, d, s, f);
    EncStepConverted(o, input, e);
    TargetReturns(o, p, input[p..p + 4], target);
    DecStepConverted(s, d, b);
    assert input[..p + 4] == input[..e.pos] + [b] + input[p..p + 4];
    MeetsFrom(o, input, EncStep(o, input, e), DecStep(s, d).value, s);
  }

  lemma ConvertedFacts(o: Options, input: seq<Byte>, e: Enc, d: Dec, s: Streams, f: Enc)
    requires Meeting(o, input, e, d, s, f) && IsMarker(e.prev, input[e.pos]) && Converted(o, input, e.pos + 1)
    ensures OptionsOk(o) && e.pos + 5 <= |input| && CoderOk(e.coder) && |d.rcd.probs| == NUM_PROBS
    ensures d.out == input[..e.pos] && d.prev == e.prev && d.m == |e.main| && d.c == |e.call| && d.j == |e.jump|
    ensures d.ip == Wrap(o.ip + e.pos)
    ensures var next := EncStep(o, input, e); next.main <= s.main && next.call <= s.call && next.jump <= s.jump
  {
    hide EncStep, Inside, Written, Wanted, IsMarker, Num, Wrap;
  }

  lemma PositionBehind(o: Options, e: Enc)
    ensures Plus(Plus(Wrap(o.ip + e.pos), 1), 4) == Wrap(PastOffset(o, e.pos + 1)) == Wrap(o.ip + (e.pos + 5))
  {
    PlusWrap(o.ip + e.pos, 1);
    PlusWrap(o.ip + e.pos + 1, 4);
  }

  lemma StreamFacts(o: Options, input: seq<Byte>, e: Enc, s: Streams)
    requires OptionsOk(o) && e.pos + 5 <= |input| && CoderOk(e.coder)
    requires IsMarker(e.prev, input[e.pos]) && Converted(o, input, e.pos + 1)
    requires var next := EncStep(o, input, e); next.main <= s.main && next.call <= s.call && next.jump <= s.jump
    ensures |e.main| < |s.main| && s.main[|e.main|] == input[e.pos]
    ensures var b, p := input[e.pos], e.pos + 1;
      var from, at := if IsCall(b) then s.call else s.jump, if IsCall(b) then |e.call| else |e.jump|;
      at + 4 <= |from| && from[at..at + 4] == Target(o, p, input[p..p + 4])
  {
    EncStepConverted(o, input, e);
    var target := Target(o, e.pos + 1, input[e.pos + 1..e.pos + 5]);
    hide EncStep, Target, IsCall, Converted, IsMarker, CoderOk, Wanted;
    PrefixSlice(e.main, [input[e.pos]], s.main);
    PrefixSlice(e.call, target, s.call);
    PrefixSlice(e.jump, target, s.jump);
  }

  lemma MeetsFrom(o: Options, input: seq<Byte>, e: Enc, d: Dec, s: Streams)
    requires e.pos <= |input| && d.out == input[..e.pos] && d.prev == e.prev
    requires d.m == |e.main| && d.c == |e.call| && d.j == |e.jump| && d.ip == Wrap(o.ip + e.pos)
    requires Follows(d.rcd, e.coder, s.rc)
    ensures Meets(o, input, e, d, s)
  {}

  lemma EncStepConverted(o: Options, input: seq<Byte>, e: Enc)
    requires OptionsOk(o) && e.pos < |input| && CoderOk(e.coder)
    requires IsMarker(e.prev, input[e.pos]) && Converted(o, input, e.pos + 1)
    ensures var b, p := input[e.pos], e.pos + 1;
      var f := EncStep(o, input, e);
      && p + 4 <= |input|
      && f.pos == p + 4 && f.prev == input[p + 3] && f.main == e.main + [b]
      && f.call == (if IsCall(b) then e.call + Target(o, p, input[p..p + 4]) else e.call)
      && f.jump == (if IsCall(b) then e.jump else e.jump + Target(o, p, input[p..p + 4]))
  {}

  lemma DecStepConverted(s: Streams, d: Dec, b: Byte)
    requires d.m < |s.main| && |d.rcd.probs| == NUM_PROBS && s.main[d.m] == b && IsMarker(d.prev, b)
    requires GetBit(d.rcd, Index(d.prev, b)) == 1 && Refilled(s, Take(d.rcd, Index(d.prev, b))).Some?
    requires if IsCall(b) then d.c + 4 <= |s.call| else d.j + 4 <= |s.jump|
    ensures DecStep(s, d).Some?
    ensures var from, at := if IsCall(b) then s.call else s.jump, if IsCall(b) then d.c else d.j;
      var to := Plus(Plus(d.ip, 1), 4);
      var v := Offset(from[at..at + 4], to);
      var x := DecStep(s, d).value;
      && x.out == d.out + [b] + LeBytes(v) && x.prev == v / 0x100_0000 && x.m == d.m + 1 && x.ip == to
      && x.c == (if IsCall(b) then d.c + 4 else d.c) && x.j == (if IsCall(b) then d.j else d.j + 4)
      && x.rcd == Refilled(s, Take(d.rcd, Index(d.prev, b))).value
  {
    hide Offset, Plus, Take, GetBit, Refilled, LeBytes;
  }

  lemma PrefixSlice(a: seq<Byte>, t: seq<Byte>, s: seq<Byte>)
    ensures a + t <= s ==> |a| + |t| <= |s| && s[|a|..|a| + |t|] == t && (t != [] ==> s[|a|] == t[0])
  {}

  /** Reading the target back and subtracting the position gives the four bytes of the offset. */
  lemma TargetReturns(o: Options, p: nat, offset: seq<Byte>, t: seq<Byte>)
    requires |offset| == 4 && t == Target(o, p, offset)
    ensures var v := Offset(t, Wrap(PastOffset(o, p))); LeBytes(v) == offset && v / 0x100_0000 == offset[3]
  {
    LeOf(offset);
    hide Le32, LeBytes, Be32, PastOffset, Plus, Less, Wrap;
    OffsetReturns(PastOffset(o, p), Le32(offset));
  }

  lemma MeetsStep(o: Options, input: seq<Byte>, e: Enc, d: Dec, s: Streams, f: Enc)
    requires Meeting(o, input, e, d, s, f)
    ensures d.m < |s.main| && |d.rcd.probs| == NUM_PROBS && DecStep(s, d).Some?
    ensures Meets(o, input, EncStep(o, input, e), DecStep(s, d).value, s)
  {
    if !IsMarker(e.prev, input[e.pos]) {
      MeetsPlain(o, input, e, d, s, f);
    } else if Converted(o, input, e.pos + 1) {
      MeetsConverted(o, input, e, d, s, f);
    } else {
      MeetsKept(o, input, e, d, s, f);
    }
  }

  /** Decoding the streams of an input from where the encoder stood ends where the encoder ended. */
  lemma {:induction false} MeetsToTheEnd(o: Options, input: seq<Byte>, e: Enc, d: Dec, s: Streams, f: Enc)
    requires OptionsOk(o) && EncOk(input, e) && Meets(o, input, e, d, s) && |d.rcd.probs| == NUM_PROBS
    requires f == EncAll(o, input, e) && s == StreamsOf(f) && f.coder.low < Pow256(f.coder.k + 5)
    ensures d.m <= |s.main| && DecAll(s, d).Some? && f.pos == |input|
    ensures Meets(o, input, f, DecAll(s, d).value, s)
    decreases |input| - e.pos
  {
    AllExtends(o, input, e);
    if e.pos < |input| {
      var next := EncStep(o, input, e);
      AllExtends(o, input, next);
      hide EncStep, DecStep, Meets, Extends, StreamsOf, Pow256;
      MeetsStep(o, input, e, d, s, f);
      MeetsToTheEnd(o, input, next, DecStep(s, d).value, s, f);
    } else {
      AtTheEnd(e, d, s);
    }
  }

  lemma AtTheEnd(e: Enc, d: Dec, s: Streams)
    requires s == StreamsOf(e) && d.m == |e.main|
    ensures d.m == |s.main|
  {}

  /** The coder stream starts right and is used up, and what is written below its top byte fits. */
  lemma StartsRight(f: Coder)
    requires Inside(Start(), f) && f.range > 0
    ensures f.low < Pow256(f.k + 4) && Pow256(f.k + 5) == 256 * Pow256(f.k + 4)
    ensures Written(f)[0] == 0 && Num(Written(f)[..5]) < 0xFFFF_FFFF
  {
    var p := Pow256(f.k);
    Pow256Split(4, f.k);
    Pow256Split(5, f.k);
    assert Pow256(4) == WORD by { assert Pow256(2) == 0x1_0000; Pow256Split(2, 2); }
    MulMono(0xFFFF_FFFF, WORD, p);
    QuotientBelow(f.low, 0xFFFF_FFFF, p);
    BigQuotient(f.low, 5, f.k);
    TopByte(f.low, f.k + 4);
    assert f.k + 5 == 1 + (f.k + 4);
  }

  lemma TopByte(x: nat, n: nat)
    requires x < Pow256(n)
    ensures Big(x, 1 + n)[0] == 0
  {
    BigPrefix(x, 1, n);
    DivUnique(x, 0, Pow256(n));
    assert Big(0, 1) == [0];
    hide Big, Pow256;
    assert Big(x, 1 + n)[..1][0] == 0;
  }

  /** Decoding the four streams of an input gives the input back, uses up all four streams and leaves
      `code` zero, whatever the blocks and the limits on conversion were. */
  lemma RoundTrip(o: Options, input: seq<Byte>)
    requires OptionsOk(o)
    ensures var s := Encode(o, input);
      && DecStart(s, Wrap(o.ip)).Some?
      && DecAll(s, DecStart(s, Wrap(o.ip)).value).Some?
      && var d := DecAll(s, DecStart(s, Wrap(o.ip)).value).value;
         && d.out == input
         && d.m == |s.main| && d.c == |s.call| && d.j == |s.jump| && 5 + d.rcd.k == |s.rc|
         && d.rcd.code == 0
  {
    var f := EncAll(o, input, Fresh());
    var s := StreamsOf(f);
    AllExtends(o, input, Fresh());
    StartsRight(f.coder);
    var d := DecStart(s, Wrap(o.ip)).value;
    assert Num(s.rc[..5]) + 0 == Num(s.rc[..5]);
    assert Meets(o, input, Fresh(), d, s) by { assert input[..0] == []; }
    MeetsToTheEnd(o, input, Fresh(), d, s, f);
    EndCode(DecAll(s, d).value, f, s);
    assert input[..|input|] == input;
  }

  lemma EndCode(d: Dec, f: Enc, s: Streams)
    requires s == StreamsOf(f) && Follows(d.rcd, f.coder, s.rc) && f.coder.low < Pow256(f.coder.k + 5)
    ensures 5 + d.rcd.k == |s.rc| && d.rcd.code == 0
  {
    NumOfBig(f.coder.low, f.coder.k + 5);
    assert s.rc[..|s.rc|] == s.rc;
  }
}
