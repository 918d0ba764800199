/** The BCJ2 encoder object. Output buffers and input come in pieces; whenever the encoder stops it can go on
    later, and what it writes in the end are the four streams of the whole input. */
module Bcj2Encoder {
  import opened Arith
  import opened BitModel
  import opened Words
  import opened Bcj2Range
  import opened Bcj2Carry
  import opened Bcj2Model

  datatype State = NeedMain | NeedCall | NeedJump | NeedRc | NeedInput | Finished

  datatype Mode = Continue | EndBlock | EndStream

  /** The 64-bit position of input byte `pos`. */
  function Ip(o: Options, pos: nat): nat { (o.ip + pos) % QWORD }

  lemma IpNext(o: Options, pos: nat, k: nat, to: nat)
    requires to == pos + k
    ensures (Ip(o, pos) + k) % QWORD == Ip(o, to)
  {
    var a := o.ip + pos;
    DivUnique(a + k, a / QWORD + (a % QWORD + k) / QWORD, QWORD);
  }

  lemma PlainStep(o: Options, whole: seq<Byte>, e: Enc)
    requires OptionsOk(o) && e.pos < |whole| && CoderOk(e.coder) && !IsMarker(e.prev, whole[e.pos])
    ensures EncStep(o, whole, e) == Enc(e.pos + 1, whole[e.pos], e.main + [whole[e.pos]], e.call, e.jump, e.coder)
    ensures EncAll(o, whole, EncStep(o, whole, e)) == EncAll(o, whole, e)
  {}

  /** `src` from `at` on is what follows `pos` in the whole input. */
  predicate Matches(src: seq<Byte>, at: nat, whole: seq<Byte>, pos: nat) {
    at <= |src| && pos + (|src| - at) <= |whole| && src[at..] == whole[pos..pos + (|src| - at)]
  }

  lemma MatchesInside(src: seq<Byte>, at: nat, whole: seq<Byte>, pos: nat)
    requires Matches(src, at, whole, pos)
    ensures at <= |src| && pos + (|src| - at) <= |whole|
  {}

  lemma NextSlice(src: seq<Byte>, at: nat, whole: seq<Byte>, pos: nat, k: nat, at': nat, pos': nat)
    requires Matches(src, at, whole, pos) && at' == at + k <= |src| && pos' == pos + k
    ensures Matches(src, at', whole, pos')
    ensures k > 0 ==> src[at] == whole[pos]
    ensures src[at..at'] == whole[pos..pos']
    ensures pos' + (|src| - at') == pos + (|src| - at)
  {
    assert src[at'..] == src[at..][k..];
    assert src[at..at'] == src[at..][..k];
    if k > 0 { assert src[at] == src[at..][0]; }
  }

  lemma TempFirst(temp: seq<Byte>, rest: seq<Byte>, whole: seq<Byte>, pos: nat)
    requires Matches(temp + rest, 0, whole, pos)
    ensures Matches(temp, 0, whole, pos)
  {
    assert (temp + rest)[0..] == temp + rest;
    assert temp == (temp + rest)[..|temp|] == whole[pos..pos + |temp|];
  }

  lemma TempRest(temp: seq<Byte>, rest: seq<Byte>, whole: seq<Byte>, pos: nat, k: nat, to: nat)
    requires Matches(temp + rest, 0, whole, pos) && k <= |temp| && to == pos + k
    ensures Matches(temp[k..] + rest, 0, whole, to)
  {
    assert (temp + rest)[0..] == temp + rest;
    assert temp[k..] + rest == (temp + rest)[k..] == whole[to..to + |temp| - k + |rest|];
  }

  /** The `rem` bytes from `pos` on that a caller supplies belong to one block, whose limits are set; with `EndBlock`
      they are the rest of it. */
  ghost predicate InBlock(o: Options, l: Limits, mode: Mode, pos: nat, rem: nat) {
    rem > 0 ==> l == o.limits(pos) && pos + rem <= o.end(pos) && (mode == EndBlock ==> pos + rem == o.end(pos))
  }

  lemma InBlockNext(o: Options, l: Limits, mode: Mode, pos: nat, rem: nat, pos': nat, rem': nat)
    requires OptionsOk(o) && InBlock(o, l, mode, pos, rem) && pos <= pos' && pos' + rem' == pos + rem
    ensures InBlock(o, l, mode, pos', rem')
  {}

  lemma InBlockPart(o: Options, l: Limits, mode: Mode, pos: nat, rem: nat, k: nat)
    requires InBlock(o, l, mode, pos, rem) && k <= rem
    ensures InBlock(o, l, Continue, pos, k)
  {}

  class Bcj2Enc {
    var src: seq<Byte>
    var srcPos: nat
    var main: seq<Byte>
    var call: seq<Byte>
    var jump: seq<Byte>
    var rc: seq<Byte>
    var mainRoom: nat
    var callRoom: nat
    var jumpRoom: nat
    var rcRoom: nat
    var state: State
    var finishMode: Mode
    var context: Byte
    var flushRem: nat
    var isFlushState: bool
    var cache: Byte
    var range: Word
    var low: nat
    var cacheSize: nat
    var temp: seq<Byte>
    var ip64: nat
    var limits: Limits
    ghost const options: Options
    var tempTarget: Word
    const probs: array<Prob>

    ghost function TailNow(): Tail
      reads `rc, `cache, `cacheSize, `low
    {
      Tail(rc, cache, cacheSize, low)
    }

    /** Writes the cached byte and what waits behind it, unless a carry is still possible; `full` when the
        output has no room, and then the same call completes the shift later. */
    method ShiftLow(ghost total: nat, ghost span: nat) returns (full: bool)
      requires Rep(TailNow(), total, span) && span <= TOP
      modifies `rc, `rcRoom, `cache, `cacheSize, `low, `state
      ensures full ==> Rep(TailNow(), total, span) && state == NeedRc && rcRoom == 0 && low == old(low)
      ensures !full ==> Rep(TailNow(), 256 * total, 256 * span) && state == old(state)
      ensures !full ==> low == Low32(old(TailNow())) * 256 % WORD
      ensures !full && (old(low) < 0xFF00_0000 || old(low) >= WORD) ==>
        cacheSize == 1 && cache == Low32(old(TailNow())) / TOP % 256
      ensures |rc| + cacheSize == old(|rc| + cacheSize) + (if full then 0 else 1)
      ensures old(rc) <= rc
    {
      hide Rep, Digits, Num, Pow256, Behind;
      var low32 := if low >= WORD then low - WORD else low;
      var high := if low >= WORD then 1 else 0;
      assert low32 == Low32(TailNow());
      RepPositive(TailNow(), total, span);
      if low32 < 0xFF00_0000 || high != 0 {
        full := WriteCache(high, total, span);
        if full { return; }
        cache := low32 / TOP % 256;
      } else {
        RepWait(TailNow(), total, span);
        full := false;
      }
      cacheSize := cacheSize + 1;
      low := low32 * 256 % WORD;
    }

    /** The loop that writes: the cached byte with the carry, then 0xFF with the carry. */
    method WriteCache(high: nat, ghost total: nat, ghost span: nat) returns (full: bool)
      requires Rep(TailNow(), total, span) && span <= TOP && (low < 0xFF00_0000 || low >= WORD)
      requires high == Carry(TailNow())
      modifies `rc, `rcRoom, `cache, `cacheSize, `state
      ensures full ==> Rep(TailNow(), total, span) && state == NeedRc && rcRoom == 0
      ensures !full ==> state == old(state) && cacheSize == 0
      ensures !full ==> Rep(Tail(rc, Low32(TailNow()) / TOP % 256, 1, Low32(TailNow()) * 256 % WORD), 256 * total,
                            256 * span)
      ensures |rc| + cacheSize == old(|rc| + cacheSize)
      ensures old(rc) <= rc
    {
      hide Rep, Digits, Num, Pow256, Behind, Low32, Carry;
      Clears(TailNow(), total, span);
      RepPositive(TailNow(), total, span);
      ghost var keep := Low32(TailNow());
      while true
        invariant cacheSize > 0 && Rep(TailNow(), total, span) && high == Carry(TailNow())
        invariant keep == Low32(TailNow()) && keep + span <= WORD
        invariant state == old(state) && old(rc) <= rc && |rc| + cacheSize == old(|rc| + cacheSize)
        decreases cacheSize
      {
        if rcRoom == 0 {
          state := NeedRc;
          return true;
        }
        ghost var t := TailNow();
        rc := rc + [(cache + high) % 256];
        rcRoom := rcRoom - 1;
        cache := 0xFF;
        cacheSize := cacheSize - 1;
        SameLow(t, TailNow());
        if cacheSize == 0 {
          RepLast(t, total, span);
          return false;
        }
        RepEmit(t, total, span);
      }
    }

    // ----- what the fields stand for -----

    /** The range coder fields are the interval `c`, not yet normalised perhaps. */
    ghost predicate Coded(c: Coder)
      reads `rc, `cache, `cacheSize, `low, `range, probs
    {
      c.range == range && c.probs == probs[..] && Rep(TailNow(), c.low, c.range) && |rc| + cacheSize == c.k + 1
    }

    /** The streams, the context and the position are those of `e`; a word that found no room is still in
        `tempTarget`. */
    ghost predicate Placed(e: Enc)
      reads `main, `call, `jump, `context, `ip64, `state, `tempTarget
    {
      && e.main == main && e.prev == context && ip64 == Ip(options, e.pos)
      && e.call == (if state == NeedCall then call + BeBytes(tempTarget) else call)
      && e.jump == (if state == NeedJump then jump + BeBytes(tempTarget) else jump)
    }

    /** The rest of the source buffer is what follows position `pos` of the whole input. */
    ghost predicate Window(whole: seq<Byte>, pos: nat)
      reads `src, `srcPos, `finishMode, `limits
    {
      && Matches(src, srcPos, whole, pos) && InBlock(options, limits, finishMode, pos, |src| - srcPos)
      && (finishMode == EndStream ==> pos + (|src| - srcPos) == |whole|)
    }

    ghost predicate Ready(e: Enc, c: Coder)
      reads `main, `call, `jump, `rc, `state, `context, `flushRem, `isFlushState, `cache, `range, `low, `cacheSize,
        `ip64, `tempTarget, probs
    {
      && OptionsOk(options) && probs.Length == NUM_PROBS
      && !isFlushState && flushRem == 5
      && Coded(c) && 0x1_0000 <= c.range && e.coder == Norm(c) && CoderOk(e.coder)
      && Placed(e)
    }

    // ----- the encoder loop -----

    method TopNormalize(ghost e: Enc, ghost c: Coder) returns (full: bool)
      requires Ready(e, c) && state == NeedInput
      modifies `rc, `rcRoom, `cache, `cacheSize, `low, `state, `range
      ensures full ==> Ready(e, c) && state == NeedRc && rcRoom == 0
      ensures !full ==> Ready(e, e.coder) && state == NeedInput
    {
      full := false;
      if range < TOP {
        full := ShiftLow(c.low, c.range);
        if full { return; }
        range := range * 256;
      }
    }

    /** A coded bit, before normalisation. */
    method CodeBit(i: nat, bit: nat, ghost c: Coder)
      requires Coded(c) && CoderOk(c) && probs.Length == NUM_PROBS && i < NUM_PROBS && bit < 2
      modifies `low, `range, probs
      ensures Coded(Put(c, i, bit)) && 0x1_0000 <= Put(c, i, bit).range
    {
      PutKeeps(c, i, bit);
      SplitFits(range, probs[i]);
      var ttt := probs[i];
      var bound := range / 2048 * ttt;
      if bit == 0 {
        RepShrinks(TailNow(), c.low, c.range, bound);
        range := bound;
        probs[i] := Raise(ttt);
      } else {
        RepAdd(TailNow(), c.low, c.range, bound);
        low := low + bound;
        range := range - bound;
        probs[i] := Lower(ttt);
      }
    }

    lemma NextInBlock(pos: nat, rem: nat, pos': nat, rem': nat)
      requires OptionsOk(options) && pos <= pos' && pos' + rem' == pos + rem
      requires InBlock(options, limits, finishMode, pos, rem)
      ensures InBlock(options, limits, finishMode, pos', rem')
    {
      InBlockNext(options, limits, finishMode, pos, rem, pos', rem');
    }

    method CopyByte(ghost whole: seq<Byte>, ghost e: Enc) returns (found: bool, v: Word, ghost f: Enc)
      requires Ready(e, e.coder) && Window(whole, e.pos) && state == NeedInput
      requires srcPos < |src| && mainRoom > 0
      modifies `main, `mainRoom, `context, `ip64, `srcPos
      ensures f.pos <= |whole| && CoderOk(f.coder) && EncAll(options, whole, f) == EncAll(options, whole, e)
      ensures Window(whole, f.pos)
      ensures srcPos == old(srcPos) + (if found then 0 else 1) <= |src|
      ensures f.pos == e.pos + (if found then 0 else 1)
      ensures !found ==> Ready(f, f.coder)
      ensures found ==> AtMarker(whole, f) && v == Pair(f.prev, src[srcPos])
    {
      hide Coded, EncStep, EncAll, Wanted, Ip, IsMarker, Matches, InBlock, CoderOk, Norm, OptionsOk, Rep;
      f := e;
      MatchesInside(src, srcPos, whole, e.pos);
      NextSlice(src, srcPos, whole, e.pos, 1, srcPos + 1, e.pos + 1);
      NextInBlock(e.pos, |src| - srcPos, e.pos + 1, |src| - srcPos - 1);
      var b := src[srcPos];
      IpNext(options, e.pos, 1, e.pos + 1);
      main := main + [b];
      mainRoom := mainRoom - 1;
      ip64 := (ip64 + 1) % QWORD;
      v := Pair(context, b);
      found := IsMarker(context, b);
      if !found {
        PlainStep(options, whole, e);
        context := b;
        srcPos := srcPos + 1;
        f := EncStep(options, whole, e);
      }
    }

    /** Copies bytes to the main stream up to a marker, which is copied too, or to the end of the source or
        of the room. */
    method Scan(ghost whole: seq<Byte>, ghost e: Enc) returns (found: bool, v: Word, ghost f: Enc)
      requires Ready(e, e.coder) && Window(whole, e.pos) && state == NeedInput
      modifies `main, `mainRoom, `context, `ip64, `srcPos
      ensures f.pos <= |whole| && CoderOk(f.coder) && EncAll(options, whole, f) == EncAll(options, whole, e)
      ensures Window(whole, f.pos) && f.pos >= e.pos && srcPos - old(srcPos) == f.pos - e.pos
      ensures !found ==> Ready(f, f.coder) && srcPos <= |src| && (mainRoom == 0 || srcPos == |src|)
      ensures found ==> AtMarker(whole, f) && v == Pair(f.prev, src[srcPos])
    {
      hide Rep, Coded, Placed, EncStep, EncAll, CoderOk, OptionsOk, IsMarker, Pair, Wanted, AtMarker;
      f, found, v := e, false, 0;
      while srcPos < |src| && mainRoom > 0 && !found
        invariant srcPos <= |src| && f.pos <= |whole| && CoderOk(f.coder) && OptionsOk(options)
        invariant f.pos >= e.pos && srcPos - old(srcPos) == f.pos - e.pos
        invariant Window(whole, f.pos) && EncAll(options, whole, f) == EncAll(options, whole, e)
        invariant !found ==> Ready(f, f.coder)
        invariant found ==> srcPos < |src| && AtMarker(whole, f) && v == Pair(f.prev, src[srcPos])
        decreases |src| - srcPos, !found
      {
        found, v, f := CopyByte(whole, f);
      }
    }

    lemma WindowEnds(whole: seq<Byte>, pos: nat)
      requires Window(whole, pos) && srcPos == |src| && finishMode == EndStream
      ensures pos == |whole|
    {}

    lemma FlushStarts(e: Enc)
      requires Ready(e, e.coder) && state == NeedInput
      ensures FlushedBy(e, 0) && main == e.main && call == e.call && jump == e.jump && flushRem == 5
    {
      hide Num, Digits;
      RepShrinks(TailNow(), e.coder.low, e.coder.range, 1);
    }

    /** The marker byte has been written to the main stream, but nothing else has been done about it. */
    ghost predicate AtMarker(whole: seq<Byte>, e: Enc)
      reads this, probs
    {
      && OptionsOk(options) && probs.Length == NUM_PROBS && !isFlushState && flushRem == 5
      && Coded(e.coder) && CoderOk(e.coder) && state == NeedInput
      && e.pos < |whole| && srcPos < |src| && src[srcPos] == whole[e.pos] && IsMarker(e.prev, whole[e.pos])
      && main == e.main + [whole[e.pos]] && call == e.call && jump == e.jump
      && context == e.prev && ip64 == Ip(options, e.pos + 1)
    }

    /** The decision at a marker whose byte is at `srcPos`: whether to convert, or to wait for more input. */
    method Decide(ghost whole: seq<Byte>, v: Word, ghost e: Enc) returns (wait: bool, convert: bool, relat: Word)
      requires AtMarker(whole, e) && Window(whole, e.pos) && v == Pair(e.prev, src[srcPos])
      ensures wait ==> finishMode == Continue && srcPos <= |src| && |src| - srcPos <= 4
      ensures !wait ==> convert == Converted(options, whole, e.pos + 1)
      ensures convert ==> srcPos + 5 <= |src| && e.pos + 5 <= |whole|
      ensures convert ==> src[srcPos + 1..srcPos + 5] == whole[e.pos + 1..e.pos + 5]
      ensures convert ==> relat == Le32(whole[e.pos + 1..e.pos + 5])
    {
      hide Coded, Wanted, IsMarker, Le32, Pair, Ip;
      wait, convert, relat := false, false, 0;
      var at := srcPos + 1;
      NextSlice(src, srcPos, whole, e.pos, 1, srcPos + 1, e.pos + 1);
      if |src| - at >= 4 {
        NextSlice(src, at, whole, e.pos + 1, 4, at + 4, e.pos + 5);
        relat := Le32(src[at..at + 4]);
        convert := Wanted(limits, ip64, src[srcPos], relat);
        IpIs(options, e.pos + 1);
      } else if finishMode == Continue {
        wait := true;
      }
    }

    /** Takes the marker byte back until its offset has arrived. */
    method TakeBack(ghost whole: seq<Byte>, ghost e: Enc)
      requires AtMarker(whole, e) && Window(whole, e.pos)
      modifies `ip64, `main, `mainRoom
      ensures Ready(e, e.coder) && mainRoom > 0
    {
      hide Coded, IsMarker;
      IpNext(options, e.pos, 1, e.pos + 1);
      IpBack(options, e.pos);
      ip64 := if ip64 == 0 then QWORD - 1 else ip64 - 1;
      main := main[..|main| - 1];
      mainRoom := mainRoom + 1;
      assert main == e.main;
      NormIs(e.coder);
    }

    /** No conversion: a 0 bit, and scanning goes on behind the marker. */
    method Keep(ghost whole: seq<Byte>, v: Word, ghost e: Enc) returns (ghost f: Enc, ghost c: Coder)
      requires AtMarker(whole, e) && Window(whole, e.pos) && v == Pair(e.prev, src[srcPos])
      requires !Converted(options, whole, e.pos + 1)
      modifies `low, `range, probs, `context, `srcPos
      ensures Ready(f, c) && f.pos == e.pos + 1 <= |whole| && Window(whole, f.pos) && srcPos == old(srcPos) + 1 <= |src|
      ensures EncAll(options, whole, f) == EncAll(options, whole, e)
    {
      hide Coded, IsMarker, Ip, Converted, EncStep, EncAll, Put, Index, InBlock;
      KeepStep(options, whole, e);
      NextSlice(src, srcPos, whole, e.pos, 1, srcPos + 1, e.pos + 1);
      NextInBlock(e.pos, |src| - srcPos, e.pos + 1, |src| - srcPos - 1);
      PairIs(e.prev, src[srcPos]);
      var i := Index(v / 0x100_0000, v % 256);
      f, c := EncStep(options, whole, e), Put(e.coder, i, 0);
      CodeBit(i, 0, e.coder);
      context := v % 256;
      srcPos := srcPos + 1;
    }

    /** Conversion: a 1 bit, and the absolute target goes to its stream, or waits for room. */
    method Convert(ghost whole: seq<Byte>, v: Word, relat: Word, ghost e: Enc)
      returns (full: bool, ghost f: Enc, ghost c: Coder)
      requires AtMarker(whole, e) && Window(whole, e.pos) && v == Pair(e.prev, src[srcPos])
      requires Converted(options, whole, e.pos + 1) && srcPos + 5 <= |src| && e.pos + 5 <= |whole|
      requires src[srcPos + 1..srcPos + 5] == whole[e.pos + 1..e.pos + 5] && relat == Le32(whole[e.pos + 1..e.pos + 5])
      modifies `low, `range, probs, `context, `srcPos, `ip64, `state, `tempTarget, `call, `jump, `callRoom, `jumpRoom
      ensures Ready(f, c) && f.pos == e.pos + 5 && Window(whole, f.pos) && srcPos == old(srcPos) + 5 <= |src|
      ensures EncAll(options, whole, f) == EncAll(options, whole, e)
      ensures !full ==> state == NeedInput
      ensures full ==> (state == NeedCall && callRoom < 4) || (state == NeedJump && jumpRoom < 4)
    {
      hide Rep, Coded, IsMarker, Ip, Converted, EncStep, EncAll, Put, Index, Le32, BeBytes, Target, Plus, Window,
           CoderOk, Norm,
        OptionsOk, Placed, Pair;
      f := EncStep(options, whole, e);
      ConvertStep(options, whole, e);
      PairIs(e.prev, src[srcPos]);
      var i := Index(v / 0x100_0000, v % 256);
      c := Put(e.coder, i, 1);
      CodeBit(i, 1, e.coder);
      full := PassOffset(whole, v % 256, relat, e, f);
    }

    /** Moves behind the four bytes of an offset. */
    method PassOffset(ghost whole: seq<Byte>, b: Byte, relat: Word, ghost e: Enc, ghost f: Enc) returns (full: bool)
      requires OptionsOk(options) && e.pos + 5 <= |whole| && srcPos + 5 <= |src| && Window(whole, e.pos)
      requires relat == Le32(whole[e.pos + 1..e.pos + 5]) && state == NeedInput
      requires main == f.main && call == e.call && jump == e.jump && ip64 == Ip(options, e.pos + 1)
      requires f.pos == e.pos + 5 && f.prev == whole[e.pos + 4]
      requires f.call == (if IsCall(b) then e.call + Target(options, e.pos + 1, whole[e.pos + 1..e.pos + 5])
        else e.call)
      requires f.jump == (if IsCall(b) then e.jump
        else e.jump + Target(options, e.pos + 1, whole[e.pos + 1..e.pos + 5]))
      modifies `context, `srcPos, `ip64, `state, `tempTarget, `call, `jump, `callRoom, `jumpRoom
      ensures Placed(f) && Window(whole, f.pos) && srcPos == old(srcPos) + 5 <= |src|
      ensures !full ==> state == NeedInput
      ensures full ==> (state == NeedCall && callRoom < 4) || (state == NeedJump && jumpRoom < 4)
    {
      hide Matches, InBlock, Ip, Le32, BeBytes, Target, Plus, Rep, OptionsOk, IsCall;
      NextSlice(src, srcPos, whole, e.pos, 5, srcPos + 5, f.pos);
      NextInBlock(e.pos, |src| - srcPos, f.pos, |src| - srcPos - 5);
      ghost var offset := whole[e.pos + 1..e.pos + 5];
      LeOf(offset);
      assert offset[3] == whole[e.pos + 4];
      IpNext(options, e.pos + 1, 4, f.pos);
      ip64 := (ip64 + 4) % QWORD;
      TargetIs(options, e.pos + 1, offset, ip64, relat, f.pos);
      srcPos := srcPos + 5;
      context := relat / 0x100_0000;
      full := PutTarget(IsCall(b), Plus(ip64 % WORD, relat));
    }

    method PutTarget(isCall: bool, absol: Word) returns (full: bool)
      requires state == NeedInput
      modifies `state, `tempTarget, `call, `jump, `callRoom, `jumpRoom
      ensures !full ==> state == NeedInput
      ensures full ==> call == old(call) && jump == old(jump) && tempTarget == absol
      ensures full ==> if isCall then state == NeedCall && callRoom < 4 else state == NeedJump && jumpRoom < 4
      ensures !full ==> call == (if isCall then old(call) + BeBytes(absol) else old(call))
      ensures !full ==> jump == (if isCall then old(jump) else old(jump) + BeBytes(absol))
    {
      full := false;
      if isCall {
        if callRoom < 4 {
          state, tempTarget, full := NeedCall, absol, true;
        } else {
          call, callRoom := call + BeBytes(absol), callRoom - 4;
        }
      } else {
        if jumpRoom < 4 {
          state, tempTarget, full := NeedJump, absol, true;
        } else {
          jump, jumpRoom := jump + BeBytes(absol), jumpRoom - 4;
        }
      }
    }

    /** A word that found no room last time is written first. */
    method ResumeWord(ghost e: Enc, ghost c: Coder) returns (full: bool)
      requires Ready(e, c)
      modifies `state, `call, `jump, `callRoom, `jumpRoom
      ensures Ready(e, c)
      ensures !full ==> state == NeedInput
      ensures full ==> (state == NeedCall && callRoom < 4) || (state == NeedJump && jumpRoom < 4)
    {
      hide Rep, Coded, Ip, Norm, CoderOk, OptionsOk;
      full := false;
      if state == NeedCall {
        if callRoom < 4 { return true; }
        call, callRoom := call + BeBytes(tempTarget), callRoom - 4;
      } else if state == NeedJump {
        if jumpRoom < 4 { return true; }
        jump, jumpRoom := jump + BeBytes(tempTarget), jumpRoom - 4;
      }
      state := NeedInput;
    }

    /** All input has been encoded, and `done` of the five last shifts have been made. */
    ghost predicate Flushing(e: Enc, done: nat)
      reads `main, `call, `jump, `rc, `flushRem, `isFlushState, `cache, `low, `cacheSize
    {
      && isFlushState && flushRem + done == 5
      && e.main == main && e.call == call && e.jump == jump
      && FlushedBy(e, done)
    }

    ghost predicate FlushedBy(e: Enc, done: nat)
      reads `rc, `cache, `cacheSize, `low
    {
      && Rep(TailNow(), e.coder.low * Pow256(done), 1)
      && |rc| + cacheSize == e.coder.k + 1 + done
      && EmptyLow(low, done)
      && (done == 5 ==> cacheSize == 1 && cache == 0)
    }

    /** The encoder has taken in the first `e.pos` bytes of the input, and can go on from there. */
    ghost predicate Held(whole: seq<Byte>, e: Enc, c: Coder)
      reads `main, `call, `jump, `rc, `state, `context, `flushRem, `isFlushState, `cache, `range, `low, `cacheSize,
        `ip64, `tempTarget, probs
    {
      && OptionsOk(options) && EncOk(whole, e) && state != Finished
      && EncAll(options, whole, e) == EncAll(options, whole, Fresh())
      && if isFlushState then e.pos == |whole| && flushRem <= 5 && Flushing(e, 5 - flushRem) else Ready(e, c)
    }

    lemma HeldOptions(whole: seq<Byte>, e: Enc, c: Coder)
      requires Held(whole, e, c)
      ensures OptionsOk(options)
    {}

    ghost predicate Paused(whole: seq<Byte>, e: Enc, c: Coder)
      reads this, probs
    {
      Held(whole, e, c) && (!isFlushState ==> Window(whole, e.pos))
    }

    method FlushOne(ghost e: Enc, ghost done: nat, ghost next: nat) returns (full: bool)
      requires FlushedBy(e, done) && next == done + 1 <= 5 && state != Finished
      modifies `rc, `rcRoom, `cache, `cacheSize, `low, `state
      ensures full ==> FlushedBy(e, done) && state == NeedRc && rcRoom == 0
      ensures !full ==> FlushedBy(e, next) && state != Finished
    {
      hide Rep, Pow256;
      ghost var total := e.coder.low * Pow256(done);
      ghost var t := TailNow();
      RepPositive(t, total, 1);
      full := ShiftLow(total, 1);
      if !full {
        ShiftEmpties(t.low, Low32(t), done);
        ShiftedTotal(e.coder.low, done, next);
        RepOfByte(TailNow(), 256 * total);
      }
    }

    lemma FlushedFully(e: Enc)
      requires FlushedBy(e, 5)
      ensures Rep(TailNow(), e.coder.low * Pow256(5), 1) && |rc| + cacheSize == e.coder.k + 6
      ensures cacheSize == 1 && cache == 0 && low == 0
    {
      hide Rep, Pow256;
    }

    /** The five shifts that write out the rest of the range coder. */
    method Flush(ghost whole: seq<Byte>, ghost e: Enc, ghost c: Coder)
      requires Held(whole, e, c) && isFlushState
      modifies `rc, `rcRoom, `cache, `cacheSize, `low, `state, `flushRem
      ensures state == Finished || (state == NeedRc && rcRoom == 0 && Held(whole, e, c))
      ensures state == Finished ==> main == e.main && call == e.call && jump == e.jump && rc == Written(e.coder)
    {
      hide EncAll, Rep, Num, Big, Written, Inside, OptionsOk, EncOk, Ready, Window, FlushedBy;
      ghost var done: nat := 5 - flushRem;
      while flushRem != 0
        invariant flushRem <= 5 && Flushing(e, done) && state != Finished
        decreases flushRem
      {
        var full := FlushOne(e, done, done + 1);
        if full { return; }
        flushRem := flushRem - 1;
        done := done + 1;
      }
      state := Finished;
      FlushedFully(e);
      LowFits(options, whole, e);
      FlushEnds(e.coder, TailNow());
    }

    /** The output that the encoder waits for has no room. */
    ghost predicate Blocked()
      reads `state, `mainRoom, `callRoom, `jumpRoom, `rcRoom
    {
      match state
      case NeedMain => mainRoom == 0
      case NeedCall => callRoom < 4
      case NeedJump => jumpRoom < 4
      case NeedRc => rcRoom == 0
      case _ => true
    }

    /** Why the encoder stopped: no room, no complete input, the end of a block, or the end. */
    ghost predicate Stopped()
      reads this
    {
      Blocked() && (state == NeedInput ==>
        && finishMode != EndStream && srcPos <= |src| && |src| - srcPos <= 4
        && (finishMode == EndBlock ==> srcPos == |src|))
    }

    /** Scanning has ended without a marker: there is no room, no more input, or the stream is complete. */
    method ScanEnds(ghost whole: seq<Byte>, ghost e: Enc) returns (stop: bool)
      requires Ready(e, e.coder) && Window(whole, e.pos) && state == NeedInput && srcPos <= |src|
      requires mainRoom == 0 || srcPos == |src|
      modifies `state
      ensures Ready(e, e.coder) && state != Finished
      ensures stop ==> Stopped()
      ensures !stop ==> state == NeedInput && e.pos == |whole|
    {
      hide Matches, InBlock, Coded, Norm, CoderOk, OptionsOk;
      stop := true;
      if srcPos != |src| {
        state := NeedMain;
      } else if finishMode == EndStream {
        WindowEnds(whole, e.pos);
        stop := false;
      }
    }

    /** One round of the loop: normalise, scan to a marker and deal with it. `stop` says that something ran out,
        `more` is false at the end of the input. */
    method Round(ghost whole: seq<Byte>, ghost e0: Enc, ghost c0: Coder)
      returns (stop: bool, more: bool, ghost e: Enc, ghost c: Coder)
      requires Ready(e0, c0) && Window(whole, e0.pos) && EncOk(whole, e0) && state == NeedInput && srcPos <= |src|
      modifies `main, `call, `jump, `rc, `mainRoom, `callRoom, `jumpRoom, `rcRoom, `state, `context,
        `cache, `range, `low, `cacheSize, `ip64, `tempTarget, `srcPos, probs
      ensures Ready(e, c) && Window(whole, e.pos) && EncOk(whole, e)
      ensures EncAll(options, whole, e) == EncAll(options, whole, e0)
      ensures e.pos >= e0.pos && srcPos - old(srcPos) == e.pos - e0.pos
      ensures stop ==> Stopped() && state != Finished
      ensures srcPos <= |src|
      ensures !stop ==> state == NeedInput && (more ==> e.pos > e0.pos)
      ensures !stop && !more ==> c == e.coder && e.pos == |whole|
    {
      hide Rep, Coded, Placed, Window, EncAll, EncStep, OptionsOk, Norm, CoderOk, AtMarker, Converted, Pair, Ip;
      e, c, more := e0, c0, true;
      stop := TopNormalize(e, c);
      if stop { return; }
      c := e.coder;
      var found, v;
      found, v, e := Scan(whole, e);
      c := e.coder;
      if !found {
        more := false;
        stop := ScanEnds(whole, e);
      } else {
        var wait, convert, relat := Decide(whole, v, e);
        if wait {
          TakeBack(whole, e);
          stop := true;
        } else if convert {
          stop, e, c := Convert(whole, v, relat, e);
        } else {
          e, c := Keep(whole, v, e);
        }
      }
    }

    /** Encodes what the source and the room allow. */
    method EncodeTwo(ghost whole: seq<Byte>, ghost e0: Enc, ghost c0: Coder) returns (ghost e: Enc, ghost c: Coder)
      requires Paused(whole, e0, c0) && srcPos <= |src|
      modifies `main, `call, `jump, `rc, `mainRoom, `callRoom, `jumpRoom, `rcRoom, `state, `context, `flushRem,
        `isFlushState, `cache, `range, `low, `cacheSize, `ip64, `tempTarget, `srcPos, probs
      ensures Stopped() && srcPos <= |src|
      ensures e.pos >= e0.pos && srcPos - old(srcPos) == e.pos - e0.pos
      ensures if state == Finished then e.pos == |whole| && Streams(main, call, jump, rc) == Encode(options, whole)
        else Paused(whole, e, c)
    {
      hide Rep, Coded, Placed, Window, EncAll, EncStep, OptionsOk, Norm, CoderOk, AtMarker, Written, Converted, Pair;
      e, c := e0, c0;
      if !isFlushState {
        var stop := ResumeWord(e, c);
        var more := true;
        if stop { return; }
        while more
          invariant Ready(e, c) && Window(whole, e.pos) && EncOk(whole, e) && state == NeedInput
          invariant EncAll(options, whole, e) == EncAll(options, whole, Fresh())
          invariant e.pos >= e0.pos && srcPos - old(srcPos) == e.pos - e0.pos
          invariant srcPos <= |src| && (!more ==> c == e.coder && e.pos == |whole|)
          decreases |whole| - e.pos, more
        {
          stop, more, e, c := Round(whole, e, c);
          if stop { return; }
        }
        FlushStarts(e);
        isFlushState := true;
      }
      EncodedAll(options, whole, e);
      Flush(whole, e, c);
    }

    /** What has not been taken in yet, `temp` first, is what follows position `pos` of the whole input. */
    ghost predicate Fed(whole: seq<Byte>, pos: nat)
      reads `src, `srcPos, `temp, `finishMode, `limits
    {
      && srcPos <= |src| && Matches(temp + src[srcPos..], 0, whole, pos)
      && InBlock(options, limits, finishMode, pos, Unread())
      && (finishMode == EndStream ==> pos + Unread() == |whole|)
    }

    /** How many bytes of those supplied have not been taken in yet. */
    ghost function Unread(): nat
      reads `src, `srcPos, `temp
    {
      |temp| + if srcPos <= |src| then |src| - srcPos else 0
    }

    lemma UnreadIs()
      ensures srcPos <= |src| ==> Unread() == |temp| + |src| - srcPos
    {}

    constructor (ip: nat, ghost o: Options, ghost whole: seq<Byte>)
      requires OptionsOk(o) && o.ip == ip
      ensures Held(whole, Fresh(), Start()) && Fed(whole, 0) && temp == [] && options == o
      ensures fresh(probs)
    {
      options := o;
      limits := Limits(0, QWORD - 1, 0x0F00_0000);
      src, srcPos, temp, finishMode := [], 0, [], Continue;
      main, call, jump, rc := [], [], [], [];
      mainRoom, callRoom, jumpRoom, rcRoom := 0, 0, 0, 0;
      state, context, flushRem, isFlushState := NeedInput, 0, 5, false;
      cache, range, low, cacheSize, ip64, tempTarget := 0, 0xFFFF_FFFF, 0, 1, ip, 0;
      probs := new Prob[NUM_PROBS](i => PROB_INIT);
      new;
      StartsHeld(whole);
    }

    lemma StartsHeld(whole: seq<Byte>)
      requires OptionsOk(options) && probs.Length == NUM_PROBS
      requires forall i :: 0 <= i < NUM_PROBS ==> probs[i] == PROB_INIT
      requires main == call == jump == rc == [] && cache == 0 && cacheSize == 1 && low == 0 && range == 0xFFFF_FFFF
      requires context == 0 && ip64 == options.ip && state == NeedInput && !isFlushState && flushRem == 5
      ensures Held(whole, Fresh(), Start())
    {
      hide Rep, EncStep;
      RepStart();
      assert probs[..] == Start().probs;
      assert TailNow() == Tail([], 0, 1, 0);
    }

    /** More input is needed, or the block is complete and nothing of it is left in `temp`. */
    ghost predicate Waits()
      reads `finishMode, `temp
    {
      finishMode != EndStream && (finishMode == EndBlock ==> temp == [])
    }

    /** Keeps what has not been read of `temp`, and goes back to the source of the caller. */
    method BackToSource(source: seq<Byte>, at: nat, mode: Mode)
      requires srcPos <= |temp|
      modifies `temp, `src, `srcPos, `finishMode
      ensures temp == old(temp[srcPos..]) && src == source && srcPos == at && finishMode == mode
    {
      temp := temp[srcPos..];
      src, srcPos, finishMode := source, at, mode;
    }

    /** Runs the encoder on the bytes of `temp`. */
    method EncodeTemp(ghost whole: seq<Byte>, ghost e0: Enc, ghost c0: Coder) returns (ghost e: Enc, ghost c: Coder)
      requires Held(whole, e0, c0) && Fed(whole, e0.pos)
      modifies this, probs
      ensures Blocked() && (state == NeedInput ==> |temp| <= 4 && (srcPos < |src| || Waits()))
      ensures src == old(src) && srcPos == old(srcPos) && finishMode == old(finishMode) && limits == old(limits)
      ensures e.pos + Unread() == e0.pos + old(Unread())
      ensures Fed(whole, e.pos) && |temp| <= old(|temp|) && temp == old(temp)[old(|temp|) - |temp|..]
      ensures if state == Finished then e.pos == |whole| && Streams(main, call, jump, rc) == Encode(options, whole)
        else Held(whole, e, c)
    {
      hide Held, EncAll, OptionsOk, EncOk, CoderOk, Matches, Encode, InBlock, Blocked, Unread;
      HeldOptions(whole, e0, c0);
      UnreadIs();
      TempFirst(temp, src[srcPos..], whole, e0.pos);
      InBlockPart(options, limits, finishMode, e0.pos, Unread(), |temp|);
      ghost var all := Unread();
      var src', srcPos', mode' := src, srcPos, finishMode;
      if srcPos != |src| { finishMode := Continue; }
      src, srcPos := temp, 0;
      e, c := EncodeTwo(whole, e0, c0);
      TempRest(temp, src'[srcPos'..], whole, e0.pos, srcPos, e.pos);
      BackToSource(src', srcPos', mode');
      UnreadIs();
      InBlockNext(options, limits, finishMode, e0.pos, all, e.pos, Unread());
    }

    /** The last bytes of `temp` may be taken back to the source. */
    ghost predicate Borrowed(extra: nat)
      reads `temp, `src, `srcPos
    {
      EndsWith(temp, src, srcPos, if extra < |temp| then extra else |temp|)
    }

    method RollBack(extra: nat, ghost whole: seq<Byte>, ghost pos: nat)
      requires Fed(whole, pos) && Borrowed(extra)
      modifies `temp, `srcPos
      ensures Fed(whole, pos) && |temp| == (if extra < old(|temp|) then old(|temp|) - extra else 0)
      ensures Unread() == old(Unread())
    {
      var back := if extra < |temp| then extra else |temp|;
      TakenBack(temp, src, srcPos, back);
      srcPos := srcPos - back;
      temp := temp[..|temp| - back];
    }

    method Borrow(extra: nat, ghost whole: seq<Byte>, ghost pos: nat)
      requires Fed(whole, pos) && Borrowed(extra) && extra < |temp| && srcPos < |src|
      modifies `temp, `srcPos
      ensures Fed(whole, pos) && Borrowed(extra + 1) && |temp| == old(|temp|) + 1 && srcPos == old(srcPos) + 1
      ensures Unread() == old(Unread())
    {
      OneMoreBorrowed(temp, src, srcPos, extra, srcPos + 1, extra + 1);
      temp := temp + [src[srcPos]];
      srcPos := srcPos + 1;
    }

    /** One attempt on the bytes of `temp`, `extra` of which are borrowed. If that is not enough, one more byte is
        borrowed, and it goes `on`; or all that is left is borrowed and is given back; or the encoder is `done`. */
    method EncodeBorrowed(extra: nat, ghost whole: seq<Byte>, ghost e0: Enc, ghost c0: Coder)
      returns (on: bool, done: bool, ghost e: Enc, ghost c: Coder)
      requires Held(whole, e0, c0) && Fed(whole, e0.pos) && Borrowed(extra) && |temp| <= (if extra > 0 then 5 else 4)
      modifies this, probs
      ensures src == old(src) && finishMode == old(finishMode) && limits == old(limits)
      ensures Fed(whole, e.pos) && srcPos <= |src| && e.pos + Unread() == e0.pos + old(Unread())
      ensures on ==> Borrowed(extra + 1) && |temp| <= 5 && state == NeedInput && srcPos == old(srcPos) + 1
      ensures !on ==> |temp| <= 4 && (!done ==> temp == [])
      ensures state == Finished ==> done && e.pos == |whole| && Streams(main, call, jump, rc) == Encode(options, whole)
      ensures state != Finished ==> Held(whole, e, c)
      ensures !on && done ==> Blocked() && (state == NeedInput ==> srcPos == |src| && Waits())
    {
      hide Held, Matches, EndsWith, Encode, Blocked, Fed, Waits, Unread;
      FedInside(whole, e0.pos);
      on, done := false, true;
      ghost var t := temp;
      e, c := EncodeTemp(whole, e0, c0);
      StillEndsWith(t, temp, src, srcPos, if extra < |t| then extra else |t|, if extra < |temp| then extra else |temp|);
      if state != NeedInput {
        RollBack(extra, whole, e.pos);
      } else if srcPos != |src| {
        if extra >= |temp| {
          RollBack(extra, whole, e.pos);
          done := false;
        } else {
          Borrow(extra, whole, e.pos);
          on := true;
        }
      }
    }

    /** The unread bytes of `temp` are finished with bytes of the source, one at a time, until the source can
        be used directly; `done` when the encoder stops before that. */
    method EncodeUnread(ghost whole: seq<Byte>, ghost e0: Enc, ghost c0: Coder)
      returns (done: bool, ghost e: Enc, ghost c: Coder)
      requires Held(whole, e0, c0) && Fed(whole, e0.pos) && |temp| <= 4
      modifies this, probs
      ensures src == old(src) && finishMode == old(finishMode) && limits == old(limits)
      ensures Fed(whole, e.pos) && |temp| <= 4 && e.pos + Unread() == e0.pos + old(Unread())
      ensures state == Finished ==> done && e.pos == |whole| && Streams(main, call, jump, rc) == Encode(options, whole)
      ensures state != Finished ==> Held(whole, e, c)
      ensures !done ==> temp == []
      ensures done ==> Blocked() && (state == NeedInput ==> srcPos == |src| && Waits())
    {
      hide Held, Matches, EndsWith, Encode, Blocked, Fed, Waits, Unread, OptionsOk;
      HeldOptions(whole, e0, c0);
      FedInside(whole, e0.pos);
      NoneBorrowed(temp, src, srcPos);
      e, c, done := e0, c0, false;
      var extra, on := 0, true;
      while on
        invariant src == old(src) && finishMode == old(finishMode) && limits == old(limits) && srcPos <= |src|
        invariant OptionsOk(options) && Fed(whole, e.pos) && e.pos + Unread() == e0.pos + old(Unread())
        invariant on ==> Held(whole, e, c) && Borrowed(extra) && |temp| <= (if extra > 0 then 5 else 4)
        invariant !on ==> |temp| <= 4 && (!done ==> temp == [])
        invariant !on ==> state == Finished ==>
          done && e.pos == |whole| && Streams(main, call, jump, rc) == Encode(options, whole)
        invariant !on ==> state != Finished ==> Held(whole, e, c)
        invariant !on && done ==> Blocked() && (state == NeedInput ==> srcPos == |src| && Waits())
        decreases on, |src| - srcPos
      {
        on, done, e, c := EncodeBorrowed(extra, whole, e, c);
        extra := extra + 1;
      }
    }

    lemma FedInside(whole: seq<Byte>, pos: nat)
      requires Fed(whole, pos)
      ensures srcPos <= |src|
    {}

    method EncodeSource(ghost whole: seq<Byte>, ghost e0: Enc, ghost c0: Coder) returns (ghost e: Enc, ghost c: Coder)
      requires Held(whole, e0, c0) && Fed(whole, e0.pos) && temp == []
      modifies this, probs
      ensures src == old(src) && finishMode == old(finishMode) && limits == old(limits)
      ensures temp == [] && Fed(whole, e.pos) && Stopped() && e.pos + Unread() == e0.pos + old(Unread())
      ensures if state == Finished then Streams(main, call, jump, rc) == Encode(options, whole) else Held(whole, e, c)
    {
      hide Matches, Blocked, Encode, Ready, Flushing, EncAll, OptionsOk, EncOk;
      ghost var at := srcPos;
      assert temp + src[at..] == src[at..];
      SourceFirst(src, at, whole, e0.pos);
      e, c := EncodeTwo(whole, e0, c0);
      assert temp + src[srcPos..] == src[srcPos..];
      SourceRest(src, at, whole, e0.pos, srcPos, e.pos);
    }

    /** One call. It ends when an output is full, or with all the input taken in, or with the whole stream. At the
        end of a block nothing of it is left in `temp`, and the limits may be changed. */
    method EncodeCall(ghost whole: seq<Byte>, ghost e0: Enc, ghost c0: Coder) returns (ghost e: Enc, ghost c: Coder)
      requires Held(whole, e0, c0) && Fed(whole, e0.pos) && |temp| <= 4
      modifies this, probs
      ensures src == old(src) && finishMode == old(finishMode) && limits == old(limits) && |temp| <= 4
      ensures Blocked() && (state == NeedInput ==> srcPos == |src| && Waits())
      ensures state != Finished ==> e.pos + Unread() == e0.pos + old(Unread())
      ensures if state == Finished then Streams(main, call, jump, rc) == Encode(options, whole)
        else Held(whole, e, c) && Fed(whole, e.pos)
    {
      hide Matches, Blocked, Encode, Ready, Flushing, EncAll;
      e, c := e0, c0;
      if |temp| != 0 {
        var done;
        done, e, c := EncodeUnread(whole, e, c);
        if done { return; }
      }
      e, c := EncodeSource(whole, e, c);
      if state == NeedInput {
        assert temp + src[srcPos..] == src[srcPos..] == src[srcPos..] + src[|src|..];
        temp := src[srcPos..];
        srcPos := |src|;
      }
    }
  }

  lemma SourceRest(src: seq<Byte>, at: nat, whole: seq<Byte>, pos: nat, at': nat, pos': nat)
    requires Matches(src, at, whole, pos) && at <= at' <= |src| && at' - at == pos' - pos
    ensures Matches(src[at'..], 0, whole, pos') && pos' + (|src| - at') == pos + (|src| - at)
  {
    NextSlice(src, at, whole, pos, at' - at, at', pos');
    SourceFirst(src, at', whole, pos');
  }

  lemma SourceFirst(src: seq<Byte>, at: nat, whole: seq<Byte>, pos: nat)
    requires at <= |src|
    ensures Matches(src[at..], 0, whole, pos) <==> Matches(src, at, whole, pos)
  {
    assert src[at..][0..] == src[at..];
  }

  /** The last `k` bytes of `temp` are those before `at` in `src`. */
  predicate EndsWith(temp: seq<Byte>, src: seq<Byte>, at: nat, k: nat) {
    k <= at <= |src| && k <= |temp| && temp[|temp| - k..] == src[at - k..at]
  }

  lemma NoneBorrowed(temp: seq<Byte>, src: seq<Byte>, at: nat)
    requires at <= |src|
    ensures EndsWith(temp, src, at, 0)
  {}

  lemma StillEndsWith(t: seq<Byte>, temp: seq<Byte>, src: seq<Byte>, at: nat, k: nat, j: nat)
    requires EndsWith(t, src, at, k) && j <= k && j <= |temp| <= |t| && temp == t[|t| - |temp|..]
    ensures EndsWith(temp, src, at, j)
  {
    var last, mine, theirs := t[|t| - k..], temp[|temp| - j..], src[at - j..at];
    forall i: nat | i < j
      ensures mine[i] == theirs[i]
    {
      assert last[k - j + i] == src[at - k..at][k - j + i];
    }
    assert mine == theirs;
  }

  lemma OneMoreBorrowed(temp: seq<Byte>, src: seq<Byte>, at: nat, k: nat, to: nat, more: nat)
    requires EndsWith(temp, src, at, k) && at < |src| && to == at + 1 && more == k + 1
    ensures EndsWith(temp + [src[at]], src, to, more)
    ensures temp + [src[at]] + src[to..] == temp + src[at..]
  {
    assert src[at - k..to] == src[at - k..at] + [src[at]];
    assert (temp + [src[at]])[|temp| - k..] == temp[|temp| - k..] + [src[at]];
  }

  lemma TakenBack(temp: seq<Byte>, src: seq<Byte>, at: nat, k: nat)
    requires EndsWith(temp, src, at, k)
    ensures temp[..|temp| - k] + src[at - k..] == temp + src[at..]
  {
    assert src[at - k..] == src[at - k..at] + src[at..];
    assert temp == temp[..|temp| - k] + temp[|temp| - k..];
  }

  lemma EncodedAll(o: Options, whole: seq<Byte>, e: Enc)
    requires OptionsOk(o) && EncOk(whole, e) && EncAll(o, whole, e) == EncAll(o, whole, Fresh()) && e.pos == |whole|
    ensures Encode(o, whole) == StreamsOf(e)
  {
    hide EncStep;
  }

  /** After `done` shifts the low `done` bytes of `low` are zero; after four nothing is left. */
  predicate EmptyLow(low: nat, done: nat) {
    && (done > 0 ==> low < WORD)
    && (done == 1 ==> low % 0x100 == 0) && (done == 2 ==> low % 0x1_0000 == 0) && (done == 3 ==> low % 0x100_0000 == 0)
    && (done >= 4 ==> low == 0)
  }

  lemma ShiftEmpties(low: nat, low32: nat, done: nat)
    requires EmptyLow(low, done) && low32 < WORD && (low < WORD ==> low32 == low)
    ensures EmptyLow(low32 * 256 % WORD, done + 1)
  {
    if done == 1 { MultipleStays(low32, 0x100, 0x100_0000); }
    if done == 2 { MultipleStays(low32, 0x1_0000, 0x1_0000); }
    if done == 0 { MultipleStays(low32, 1, WORD); }
  }

  lemma MultipleStays(x: nat, m: nat, k: nat)
    requires m > 0 && k > 0 && x % m == 0 && WORD == m * k && k % 256 == 0
    ensures (x * 256 % WORD) % (m * 256) == 0
  {
    var q, j := x / m, k / 256;
    assert x * 256 == q * (m * 256);
    assert WORD == j * (m * 256);
    ModOfMod(x * 256, WORD, m * 256, j);
    DivUnique(x * 256, q, m * 256);
  }

  lemma ShiftedTotal(low: nat, done: nat, next: nat)
    requires next == done + 1
    ensures 256 * (low * Pow256(done)) == low * Pow256(next)
  {}

  lemma RepOfByte(t: Tail, total: nat)
    requires Rep(t, total, 256)
    ensures Rep(t, total, 1)
  {
    RepShrinks(t, total, 256, 1);
  }

  lemma LowFits(o: Options, whole: seq<Byte>, e: Enc)
    requires OptionsOk(o) && EncOk(whole, e) && e.pos == |whole|
    requires EncAll(o, whole, e) == EncAll(o, whole, Fresh())
    ensures e.coder.low < Pow256(e.coder.k + 5)
  {
    hide EncStep, Num, Big, Rep;
    AllExtends(o, whole, Fresh());
    assert EncAll(o, whole, e) == e;
    StartsRight(e.coder);
  }

  lemma FlushEnds(c: Coder, t: Tail)
    requires c.low < Pow256(c.k + 5) && Rep(t, c.low * Pow256(5), 1) && |t.out| + t.size == c.k + 6
    requires t.size == 1 && t.cache == 0 && t.low == 0
    ensures t.out == Written(c)
  {
    hide Num, Big, Rep;
    FlushedIsWritten(t, c.low, c.k + 5);
  }

  lemma KeepStep(o: Options, whole: seq<Byte>, e: Enc)
    requires OptionsOk(o) && e.pos < |whole| && CoderOk(e.coder) && IsMarker(e.prev, whole[e.pos])
    requires !Converted(o, whole, e.pos + 1)
    ensures var b, f := whole[e.pos], EncStep(o, whole, e);
      && EncAll(o, whole, f) == EncAll(o, whole, e) && CoderOk(f.coder) && Index(e.prev, b) < NUM_PROBS
      && f == Enc(e.pos + 1, b, e.main + [b], e.call, e.jump, Norm(Put(e.coder, Index(e.prev, b), 0)))
  {
    hide Converted, IsMarker, Norm, Put, CoderOk;
  }

  lemma ConvertStep(o: Options, whole: seq<Byte>, e: Enc)
    requires OptionsOk(o) && e.pos + 5 <= |whole| && CoderOk(e.coder) && IsMarker(e.prev, whole[e.pos])
    requires Converted(o, whole, e.pos + 1)
    ensures var b, p, f := whole[e.pos], e.pos + 1, EncStep(o, whole, e);
      && EncAll(o, whole, f) == EncAll(o, whole, e) && CoderOk(f.coder) && Index(e.prev, b) < NUM_PROBS
      && f.pos == e.pos + 5 && f.prev == whole[p + 3] && f.main == e.main + [b]
      && f.call == (if IsCall(b) then e.call + Target(o, p, whole[p..p + 4]) else e.call)
      && f.jump == (if IsCall(b) then e.jump else e.jump + Target(o, p, whole[p..p + 4]))
      && f.coder == Norm(Put(e.coder, Index(e.prev, b), 1))
  {
    EncStepConverted(o, whole, e);
    hide Converted, IsMarker, Norm, Put, CoderOk, Target, IsCall;
  }

  lemma TargetIs(o: Options, p: nat, offset: seq<Byte>, ip: nat, relat: Word, to: nat)
    requires |offset| == 4 && to == p + 4 && ip == Ip(o, to) && relat == Le32(offset)
    ensures BeBytes(Plus(ip % WORD, relat)) == Target(o, p, offset)
  {
    LowWord(PastOffset(o, p));
    IpIs(o, to);
    assert o.ip + to == PastOffset(o, p);
    hide Le32, BeBytes, PastOffset, Plus, Wrap, Ip;
    PlusWrap(PastOffset(o, p), relat);
  }

  lemma LowWord(a: nat)
    ensures a % QWORD % WORD == Wrap(a)
  {
    ModOfMod(a, QWORD, WORD, WORD);
  }

  lemma NormIs(c: Coder)
    requires CoderOk(c)
    ensures Norm(c) == c
  {}

  lemma IpIs(o: Options, pos: nat)
    ensures Ip(o, pos) == (o.ip + pos) % QWORD
  {}

  lemma IpBack(o: Options, pos: nat)
    ensures Ip(o, pos) == if Ip(o, pos + 1) == 0 then QWORD - 1 else Ip(o, pos + 1) - 1
  {
    IpNext(o, pos, 1, pos + 1);
    assert Ip(o, pos) < QWORD;
  }
}
