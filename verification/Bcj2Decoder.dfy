/** The BCJ2 decoder object. Its four inputs and its output come in pieces of any size; whatever the pieces
    are, it decodes the four whole streams. */
module Bcj2Decoder {
  import opened Arith
  import opened Wrappers
  import opened BitModel
  import opened Words
  import opened Bcj2Range
  import opened Bcj2Model

  /** `Writing(k)`: `k` bytes of an offset have been written. */
  datatype State = NeedMain | NeedCall | NeedJump | NeedRc | Writing(k: nat) | NeedRoom | Error

  /** `p` is the part of `whole` from `at` on that has arrived. */
  predicate Piece(p: seq<Byte>, whole: seq<Byte>, at: nat) {
    at + |p| <= |whole| && p == whole[at..at + |p|]
  }

  lemma PieceNext(p: seq<Byte>, whole: seq<Byte>, at: nat, k: nat, to: nat)
    requires Piece(p, whole, at) && 0 < k <= |p| && to == at + k
    ensures Piece(p[k..], whole, to) && to <= |whole| && p[0] == whole[at] && p[..k] == whole[at..to]
  {
    assert p[k..] == whole[at..at + |p|][k..];
    assert p[..k] == whole[at..at + |p|][..k];
  }

  // ----- what decoding the whole streams gives -----

  ghost function Decoded(s: Streams, ip: Word): Option<Dec> {
    match DecStart(s, ip)
    case None => None
    case Some(d) => DecAll(s, d)
  }

  ghost predicate RcdOk(r: Decoder) {
    r.code < r.range < WORD && 0x1_0000 <= r.range && |r.probs| == NUM_PROBS
  }

  /** Decoding goes on from `h` to the result of the whole streams. */
  ghost predicate OnTrack(s: Streams, ip: Word, h: Dec) {
    && h.m <= |s.main| && RcdOk(h.rcd)
    && Decoded(s, ip) == match Settled(s, h) case None => None case Some(d) => DecAll(s, d)
  }

  lemma StartOnTrack(s: Streams, ip: Word)
    requires DecStart(s, ip).Some? && Num(s.rc[..5]) < 0xFFFF_FFFF
    ensures OnTrack(s, ip, DecStart(s, ip).value)
  {
    hide DecAll;
  }

  lemma TakeKeeps(r: Decoder, i: nat)
    requires RcdOk(r) && r.range >= TOP && i < NUM_PROBS
    ensures RcdOk(Take(r, i))
  {
    SplitFits(r.range, r.probs[i]);
    hide Split;
  }

  /** Normalising keeps the decoder on track. */
  lemma RefillOnTrack(s: Streams, ip: Word, h: Dec)
    requires OnTrack(s, ip, h) && h.rcd.range < TOP && 5 + h.rcd.k < |s.rc|
    ensures OnTrack(s, ip, h.(rcd := Refill(h.rcd, s.rc))) && Refill(h.rcd, s.rc).range >= TOP
  {
    hide DecAll;
  }

  lemma PlainOnTrack(s: Streams, ip: Word, g: Dec)
    requires OnTrack(s, ip, g) && g.rcd.range >= TOP && g.m < |s.main| && !IsMarker(g.prev, s.main[g.m])
    ensures HalfStep(s, g) ==
      Some(Dec(g.out + [s.main[g.m]], s.main[g.m], g.m + 1, g.c, g.j, Plus(g.ip, 1), g.rcd))
    ensures OnTrack(s, ip, HalfStep(s, g).value)
  {
    hide IsMarker;
  }

  /** A branch that the range coder says was converted. */
  ghost predicate AtBranch(s: Streams, g: Dec) {
    && g.m < |s.main| && RcdOk(g.rcd) && g.rcd.range >= TOP && IsMarker(g.prev, s.main[g.m])
    && GetBit(g.rcd, Index(g.prev, s.main[g.m])) == 1
  }

  lemma KeptOnTrack(s: Streams, ip: Word, g: Dec)
    requires OnTrack(s, ip, g) && g.rcd.range >= TOP && g.m < |s.main| && IsMarker(g.prev, s.main[g.m])
    requires GetBit(g.rcd, Index(g.prev, s.main[g.m])) == 0
    ensures Index(g.prev, s.main[g.m]) < NUM_PROBS && |g.rcd.probs| == NUM_PROBS
    ensures HalfStep(s, g) == Some(Dec(g.out + [s.main[g.m]], s.main[g.m], g.m + 1, g.c, g.j, Plus(g.ip, 1),
      Take(g.rcd, Index(g.prev, s.main[g.m]))))
    ensures OnTrack(s, ip, HalfStep(s, g).value)
  {
    TakeKeeps(g.rcd, Index(g.prev, s.main[g.m]));
    hide IsMarker, GetBit, Take, Index;
  }

  /** The word that completes a branch. */
  ghost predicate WordFor(s: Streams, g: Dec, v: Word)
    requires g.m < |s.main|
  {
    var b := s.main[g.m];
    var from, at := if IsCall(b) then s.call else s.jump, if IsCall(b) then g.c else g.j;
    at + 4 <= |from| && v == Offset(from[at..at + 4], Plus(Plus(g.ip, 1), 4))
  }

  /** The state behind a branch. */
  ghost function Behind(s: Streams, g: Dec, v: Word, r: Decoder): Dec
    requires g.m < |s.main|
  {
    var b := s.main[g.m];
    Dec(g.out + [b] + LeBytes(v), v / 0x100_0000, g.m + 1, if IsCall(b) then g.c + 4 else g.c,
        if IsCall(b) then g.j else g.j + 4, Plus(Plus(g.ip, 1), 4), r)
  }

  lemma BranchOnTrack(s: Streams, ip: Word, g: Dec, v: Word, r: Decoder)
    requires OnTrack(s, ip, g) && AtBranch(s, g) && WordFor(s, g, v) && RcdOk(r)
    requires Refilled(s, r) == Refilled(s, Take(g.rcd, Index(g.prev, s.main[g.m])))
    ensures OnTrack(s, ip, Behind(s, g, v, r))
  {
    TakeKeeps(g.rcd, Index(g.prev, s.main[g.m]));
    hide IsMarker, GetBit, Take, Index, LeBytes, Offset, Plus, RcdOk, IsCall;
    var h := HalfStep(s, g).value;
    assert h == Behind(s, g, v, h.rcd);
  }

  /** Refilling early makes no difference later. */
  lemma RefillEarly(s: Streams, r: Decoder)
    requires RcdOk(r) && r.range < TOP && 5 + r.k < |s.rc|
    ensures RcdOk(Refill(r, s.rc)) && Refilled(s, Refill(r, s.rc)) == Refilled(s, r)
  {}

  // ----- the result of a run -----

  /** What is decoded at any time is a beginning of the result. */
  lemma {:induction false} PrefixOfResult(s: Streams, d: Dec)
    requires d.m <= |s.main| && |d.rcd.probs| == NUM_PROBS && DecAll(s, d).Some?
    ensures d.out <= DecAll(s, d).value.out
    decreases |s.main| - d.m
  {
    if d.m < |s.main| {
      HalfExtends(s, d);
      PrefixOfResult(s, DecStep(s, d).value);
    }
  }

  lemma HalfExtends(s: Streams, d: Dec)
    requires d.m < |s.main| && |d.rcd.probs| == NUM_PROBS && HalfStep(s, d).Some?
    ensures d.out + [s.main[d.m]] <= HalfStep(s, d).value.out
  {
    hide IsMarker, Take, Index, GetBit, Offset, Plus;
  }

  /** Where a decoder is: reading the first five bytes, between bytes of the main stream, behind the marker byte
      of a branch whose word is missing, or writing the bytes of an offset. */
  datatype Phase = Starting(n: nat) | Between(h: Dec) | Marked(g: Dec, r: Decoder) | Offsetting(h: Dec)

  /** The bytes of an offset word that are still to be written when `k` have been shifted out. */
  function Rest(v: Word, k: nat): seq<Byte>
    requires k <= 4
  {
    LeBytes(v)[..4 - k]
  }

  lemma RestShifts(v: Word, k: nat)
    requires k < 4
    ensures Rest(v, k) == [v % 256] + Rest(v / 256, k + 1)
    ensures k == 3 ==> Rest(v, k) == [v % 256]
  {
    WordBytes(v);
    assert v / 256 / 256 == v / 0x1_0000 && v / 256 / 0x1_0000 == v / 0x100_0000;
  }

  class Bcj2Dec {
    var main: seq<Byte>
    var call: seq<Byte>
    var jump: seq<Byte>
    var rc: seq<Byte>
    var dest: seq<Byte>
    var destRoom: nat
    var state: State
    var ip: Word
    var temp: Word
    var range: nat
    var code: nat
    const probs: array<Prob>

    ghost predicate Coded(r: Decoder)
      reads `range, `code, probs
    {
      r.range == range && r.code == code && r.probs == probs[..] && RcdOk(r)
    }

    /** The unread inputs are pieces of the whole streams. */
    ghost predicate Fed(s: Streams, m: nat, c: nat, j: nat, k: nat)
      reads `main, `call, `jump, `rc
    {
      Piece(main, s.main, m) && Piece(call, s.call, c) && Piece(jump, s.jump, j) && Piece(rc, s.rc, k)
    }

    ghost predicate Shows(s: Streams, h: Dec)
      reads `main, `call, `jump, `rc, `dest, `ip, `temp, `range, `code, probs
    {
      && dest == h.out && temp % 256 == h.prev && ip == h.ip
      && Coded(h.rcd) && Fed(s, h.m, h.c, h.j, 5 + h.rcd.k)
    }

    ghost predicate ShowsStart(s: Streams, start: Word, n: nat)
      reads `main, `call, `jump, `rc, `dest, `ip, `temp, `range, `code, probs
    {
      && n <= 5 && range == n && Piece(rc, s.rc, n) && n <= |s.rc| && code == Num(s.rc[..n])
      && (n > 1 ==> s.rc[0] == 0)
      && dest == [] && temp == 0 && ip == start && probs[..] == Start().probs
      && Fed(s, 0, 0, 0, n)
    }

    ghost predicate ShowsMarker(s: Streams, g: Dec, r: Decoder)
      reads `main, `call, `jump, `rc, `dest, `ip, `range, `code, probs
    {
      && AtBranch(s, g) && dest == g.out + [s.main[g.m]] && ip == Plus(g.ip, 1)
      && Coded(r) && Refilled(s, r) == Refilled(s, Take(g.rcd, Index(g.prev, s.main[g.m])))
      && Fed(s, g.m + 1, g.c, g.j, 5 + r.k)
    }

    ghost predicate ShowsOffset(s: Streams, h: Dec, k: nat)
      reads `main, `call, `jump, `rc, `dest, `ip, `temp, `range, `code, probs
    {
      && k < 4 && dest + Rest(temp, k) == h.out && Rest(temp, k)[3 - k] == h.prev && ip == h.ip
      && Coded(h.rcd) && Fed(s, h.m, h.c, h.j, 5 + h.rcd.k)
    }

    /** The decoder, started at position `start`, is at `at` in the whole streams `s`. */
    ghost predicate Inv(s: Streams, start: Word, at: Phase)
      reads this, probs
    {
      && probs.Length == NUM_PROBS
      && match at
         case Starting(n) =>
           && ShowsStart(s, start, n)
           && ((state == NeedRc && n < 5) || (state == Error && |s.rc| >= n && DecStart(s, start) == None))
         case Between(h) =>
           && OnTrack(s, start, h) && Shows(s, h) && (state == NeedRc || state == NeedMain || state == NeedRoom)
           && (state == NeedRc <==> range < TOP)
         case Marked(g, r) =>
           && OnTrack(s, start, g) && ShowsMarker(s, g, r)
           && state == if IsCall(s.main[g.m]) then NeedCall else NeedJump
         case Offsetting(h) =>
           OnTrack(s, start, h) && state.Writing? && ShowsOffset(s, h, state.k)
    }

    constructor (start: Word, ghost s: Streams)
      ensures Inv(s, start, Starting(0)) && fresh(probs) && destRoom == 0
    {
      main, call, jump, rc, dest, destRoom := [], [], [], [], [], 0;
      state, ip, temp, range, code := NeedRc, start, 0, 0, 0;
      probs := new Prob[NUM_PROBS](i => PROB_INIT);
      new;
      assert probs[..] == Start().probs;
      assert s.rc[..0] == [];
    }

    // ----- the first five bytes -----

    /** Reads what is missing of the first five bytes of the range coder stream. */
    method ReadStart(ghost s: Streams, ghost start: Word, ghost n0: nat)
      returns (res: SRes, done: bool, ghost n: nat, ghost h: Dec)
      requires Inv(s, start, Starting(n0))
      modifies `rc, `state, `range, `code
      ensures !done ==> Inv(s, start, Starting(n))
      ensures !done ==> if res == SzOk then state == NeedRc && rc == [] else res == SzErrorData && state == Error
      ensures done ==> res == SzOk && OnTrack(s, start, h) && Shows(s, h)
    {
      hide Piece, DecAll, Start;
      n := n0;
      res, done, h := SzOk, false, Dec([], 0, 0, 0, 0, start, Decoder(0, 0, 0, []));
      state := Error;
      while range != 5
        invariant ShowsStart(s, start, n) && probs.Length == NUM_PROBS && state == Error
        decreases 5 - range
      {
        if range == 1 && code != 0 {
          FirstByte(s, start, n);
          return SzErrorData, false, n, h;
        }
        if rc == [] {
          state := NeedRc;
          return;
        }
        code := NextCode(s, start, n);
        rc := rc[1..];
        range := range + 1;
        n := n + 1;
      }
      FiveBytes(s, start);
      if code == 0xFFFF_FFFF {
        return SzErrorData, false, n, h;
      }
      h := DecStart(s, start).value;
      range := 0xFFFF_FFFF;
      done := true;
      StartOnTrack(s, start);
    }

    method NextCode(ghost s: Streams, ghost start: Word, ghost n: nat) returns (next: nat)
      requires ShowsStart(s, start, n) && n < 5 && rc != [] && !(range == 1 && code != 0)
      ensures n + 1 <= |s.rc| && next == Num(s.rc[..n + 1]) && Piece(rc[1..], s.rc, n + 1)
      ensures n > 0 ==> s.rc[0] == 0
    {
      PieceNext(rc, s.rc, n, 1, n + 1);
      NumStep(s.rc, n);
      if n == 1 { OneByte(s.rc); }
      CodeFits(s.rc, n + 1);
      next := (code * 256 + rc[0]) % WORD;
    }

    // ----- the main stream -----

    /** One byte of the range coder stream. */
    method Refill1(ghost s: Streams, ghost r: Decoder)
      requires Coded(r) && range < TOP && rc != [] && Piece(rc, s.rc, 5 + r.k)
      modifies `rc, `range, `code
      ensures 5 + r.k < |s.rc| && Coded(Refill(r, s.rc)) && Piece(rc, s.rc, 5 + Refill(r, s.rc).k)
    {
      hide Piece;
      PieceNext(rc, s.rc, 5 + r.k, 1, 5 + r.k + 1);
      RefillEarly(s, r);
      range := range * 256 % WORD;
      code := (code * 256 + rc[0]) % WORD;
      rc := rc[1..];
    }

    method Normalize(ghost s: Streams, ghost start: Word, ghost h0: Dec) returns (stop: bool, ghost h: Dec)
      requires OnTrack(s, start, h0) && Shows(s, h0)
      modifies `rc, `range, `code, `state
      ensures OnTrack(s, start, h) && Shows(s, h)
      ensures if stop then state == NeedRc && rc == [] && range < TOP else range >= TOP && state == old(state)
    {
      hide Piece, Refill, DecAll, Settled, RcdOk;
      h, stop := h0, false;
      if range < TOP {
        if rc == [] {
          state, stop := NeedRc, true;
          return;
        }
        Refill1(s, h.rcd);
        RefillOnTrack(s, start, h);
        h := h.(rcd := Refill(h.rcd, s.rc));
      }
    }

    /** The marker byte of `g` has been copied, its bit has not been read. */
    ghost predicate AtMarker(s: Streams, g: Dec)
      reads `main, `call, `jump, `rc, `dest, `ip, `temp, `range, `code, probs
    {
      && g.m < |s.main| && dest == g.out + [s.main[g.m]] && ip == Plus(g.ip, 1)
      && IsMarker(g.prev, s.main[g.m]) && temp == Pair(g.prev, s.main[g.m])
      && Coded(g.rcd) && g.rcd.range >= TOP
      && Fed(s, g.m + 1, g.c, g.j, 5 + g.rcd.k)
    }

    method CopyByte(ghost s: Streams, ghost start: Word, ghost g0: Dec) returns (found: bool, ghost g: Dec)
      requires OnTrack(s, start, g0) && Shows(s, g0) && range >= TOP && main != [] && destRoom > 0
      modifies `main, `dest, `destRoom, `ip, `temp
      ensures OnTrack(s, start, g) && |main| == old(|main|) - 1
      ensures if found then AtMarker(s, g) else Shows(s, g)
    {
      hide Coded, OnTrack, Plus, IsMarker, HalfStep, RcdOk, Piece, ShiftIn, Pair;
      RangeIs(g0.rcd);
      g := g0;
      PieceNext(main, s.main, g.m, 1, g.m + 1);
      var b := main[0];
      main := main[1..];
      dest := dest + [b];
      destRoom := destRoom - 1;
      temp := ShiftIn(temp, b);
      ip := Plus(ip, 1);
      ShiftedIn(old(temp), b);
      found := IsMarker(temp / 0x100_0000, b);
      if !found {
        PlainOnTrack(s, start, g);
        g := HalfStep(s, g).value;
      }
    }

    lemma RangeIs(r: Decoder)
      requires Coded(r)
      ensures r.range == range && r.code == code && r.probs == probs[..]
    {}

    method Scan(ghost s: Streams, ghost start: Word, ghost g0: Dec) returns (found: bool, ghost g: Dec)
      requires OnTrack(s, start, g0) && Shows(s, g0) && range >= TOP
      modifies `main, `dest, `destRoom, `ip, `temp
      ensures OnTrack(s, start, g) && |main| <= old(|main|)
      ensures found ==> AtMarker(s, g) && |main| < old(|main|)
      ensures !found ==> Shows(s, g) && (main == [] || destRoom == 0)
    {
      hide Coded, OnTrack, Shows, AtMarker;
      found, g := false, g0;
      while main != [] && destRoom > 0 && !found
        invariant OnTrack(s, start, g) && |main| <= old(|main|)
        invariant if found then AtMarker(s, g) && |main| < old(|main|) else Shows(s, g)
        decreases |main|
      {
        found, g := CopyByte(s, start, g);
      }
    }

    /** The bit behind a marker byte. */
    method ReadBit(ghost s: Streams, ghost start: Word, ghost g: Dec) returns (converted: bool, ghost h: Dec)
      requires OnTrack(s, start, g) && AtMarker(s, g) && probs.Length == NUM_PROBS
      modifies `range, `code, probs
      ensures if converted then ShowsMarker(s, g, Take(g.rcd, Index(g.prev, s.main[g.m])))
              else OnTrack(s, start, h) && Shows(s, h)
    {
      hide OnTrack, Plus, IsMarker, HalfStep, Piece, Index, Refilled;
      h := g;
      PairIs(g.prev, s.main[g.m]);
      var i := Index(temp / 0x100_0000, temp % 256);
      TakeKeeps(g.rcd, i);
      var ttt := probs[i];
      var bound := range / 2048 * ttt;
      if code < bound {
        range := bound;
        probs[i] := Raise(ttt);
        converted := false;
        KeptOnTrack(s, start, g);
        h := HalfStep(s, g).value;
      } else {
        range := range - bound;
        code := code - bound;
        probs[i] := Lower(ttt);
        converted := true;
      }
    }

    /** The word of a branch, made relative again. */
    method ReadWord(ghost s: Streams, ghost start: Word, ghost g: Dec, ghost r: Decoder, isCall: bool)
      returns (v: Word, ghost h: Dec)
      requires OnTrack(s, start, g) && ShowsMarker(s, g, r) && isCall == IsCall(s.main[g.m])
      requires if isCall then |call| >= 4 else |jump| >= 4
      modifies `call, `jump, `ip
      ensures h == Behind(s, g, v, r) && OnTrack(s, start, h) && h.out == dest + LeBytes(v) && ip == h.ip
        && Coded(h.rcd)
      ensures Fed(s, h.m, h.c, h.j, 5 + h.rcd.k) && h.prev == v / 0x100_0000
    {
      hide Coded, OnTrack, Plus, IsMarker, HalfStep, Piece, Index, Take, Refilled, GetBit, LeBytes, IsCall, RcdOk,
           Offset;
      CodedOk(r);
      ip := Plus(ip, 4);
      if isCall {
        PieceNext(call, s.call, g.c, 4, g.c + 4);
        v := Offset(call[..4], ip);
        call := call[4..];
      } else {
        PieceNext(jump, s.jump, g.j, 4, g.j + 4);
        v := Offset(jump[..4], ip);
        jump := jump[4..];
      }
      BranchOnTrack(s, start, g, v, r);
      h := Behind(s, g, v, r);
    }

    lemma CodedOk(r: Decoder)
      requires Coded(r)
      ensures RcdOk(r)
    {}

    /** Writes the bytes of the offset that are left, as far as there is room. */
    method WriteRest(ghost s: Streams, ghost h: Dec)
      requires state.Writing? && ShowsOffset(s, h, state.k)
      modifies `dest, `destRoom, `temp, `state
      ensures if state.Writing? then ShowsOffset(s, h, state.k) && destRoom == 0 else state == NeedRoom && Shows(s, h)
    {
      hide Coded, Fed, Rest;
      var k := state.k;
      while true
        invariant state == Writing(k) && ShowsOffset(s, h, k)
        decreases 4 - k
      {
        if destRoom == 0 { return; }
        RestShifts(temp, k);
        LastOfRest(temp, k);
        dest := dest + [temp % 256];
        destRoom := destRoom - 1;
        if k == 3 {
          state := NeedRoom;
          return;
        }
        temp := temp / 256;
        k := k + 1;
        state := Writing(k);
      }
    }

    /** Writes all bytes of the offset at once, or those for which there is room. */
    method WriteWord(ghost s: Streams, ghost h: Dec, v: Word) returns (stop: bool)
      requires h.out == dest + LeBytes(v) && h.prev == v / 0x100_0000 && ip == h.ip && Coded(h.rcd)
      requires Fed(s, h.m, h.c, h.j, 5 + h.rcd.k)
      modifies `dest, `destRoom, `temp, `state
      ensures if stop then state.Writing? && ShowsOffset(s, h, state.k) && destRoom == 0 else Shows(s, h)
    {
      hide Coded, Fed, LeBytes;
      stop := destRoom < 4;
      if !stop {
        dest := dest + LeBytes(v);
        destRoom := destRoom - 4;
        temp := v / 0x100_0000;
        return;
      }
      var rem := destRoom;
      temp := v;
      WholeRest(v);
      if rem > 0 {
        PutRest(s, h, 0);
        if rem > 1 {
          PutRest(s, h, 1);
          if rem > 2 { PutRest(s, h, 2); }
        }
      }
      state := Writing(rem);
    }

    method PutRest(ghost s: Streams, ghost h: Dec, ghost k: nat)
      requires k < 3 && ShowsOffset(s, h, k) && destRoom > 0
      modifies `dest, `destRoom, `temp
      ensures ShowsOffset(s, h, k + 1) && destRoom == old(destRoom) - 1
    {
      hide Coded, Fed, Rest;
      RestShifts(temp, k);
      LastOfRest(temp, k);
      dest := dest + [temp % 256];
      destRoom := destRoom - 1;
      temp := temp / 256;
    }

    /** The output or input that the decoder waits for. */
    ghost predicate Blocked()
      reads `state, `main, `call, `jump, `rc, `destRoom
    {
      match state
      case NeedMain => main == []
      case NeedCall => |call| < 4
      case NeedJump => |jump| < 4
      case NeedRc => rc == []
      case Writing(_) => destRoom == 0
      case NeedRoom => destRoom == 0 && main != []
      case Error => true
    }

    /** A last refill before a stop inside a branch. */
    method RefillAtStop(ghost s: Streams, ghost r0: Decoder) returns (ghost r: Decoder)
      requires Coded(r0) && Piece(rc, s.rc, 5 + r0.k)
      modifies `rc, `range, `code
      ensures Coded(r) && Piece(rc, s.rc, 5 + r.k) && Refilled(s, r) == Refilled(s, r0)
      ensures r == r0 || (r0.range < TOP && 5 + r0.k < |s.rc| && r == Refill(r0, s.rc))
    {
      hide Piece;
      r := r0;
      if range < TOP && rc != [] {
        Refill1(s, r0);
        RefillEarly(s, r0);
        r := Refill(r0, s.rc);
      }
    }

    /** One round of the loop: normalise, scan to a marker, read its bit and pass its offset. */
    method Round(ghost s: Streams, ghost start: Word, ghost h0: Dec) returns (stop: bool, ghost at: Phase)
      requires OnTrack(s, start, h0) && Shows(s, h0) && probs.Length == NUM_PROBS
      modifies this, probs
      ensures stop ==> Inv(s, start, at) && Blocked() && state != Error && !at.Starting?
      ensures !stop ==> at.Between? && OnTrack(s, start, at.h) && Shows(s, at.h) && |main| < old(|main|)
      ensures |main| <= old(|main|)
    {
      hide Coded, OnTrack, Fed, IsCall;
      ghost var h;
      stop, h := Normalize(s, start, h0);
      at := Between(h);
      if stop { return; }
      var found;
      found, h := Scan(s, start, h);
      at := Between(h);
      if !found {
        state := if main == [] then NeedMain else NeedRoom;
        stop := true;
        return;
      }
      stop, at := Branch(s, start, h);
    }

    method Branch(ghost s: Streams, ghost start: Word, ghost g: Dec) returns (stop: bool, ghost at: Phase)
      requires OnTrack(s, start, g) && AtMarker(s, g) && probs.Length == NUM_PROBS
      modifies `call, `jump, `rc, `dest, `destRoom, `ip, `temp, `range, `code, `state, probs
      ensures stop ==> Inv(s, start, at) && Blocked() && state != Error && !at.Starting?
      ensures !stop ==> at.Between? && OnTrack(s, start, at.h) && Shows(s, at.h)
    {
      hide Coded, OnTrack, Fed, IsCall;
      var isCall := IsCall(temp % 256);
      PairIs(g.prev, s.main[g.m]);
      var converted, h := ReadBit(s, start, g);
      at, stop := Between(h), false;
      if !converted { return; }
      ghost var r := Take(g.rcd, Index(g.prev, s.main[g.m]));
      if if isCall then |call| < 4 else |jump| < 4 {
        state := if isCall then NeedCall else NeedJump;
        r := RefillAtMarker(s, g, r);
        at, stop := Marked(g, r), true;
        return;
      }
      var v;
      v, h := ReadWord(s, start, g, r, isCall);
      stop := WriteWord(s, h, v);
      at := Between(h);
      if stop {
        h := RefillInOffset(s, start, h, state.k);
        at := Offsetting(h);
      }
    }

    method RefillAtMarker(ghost s: Streams, ghost g: Dec, ghost r0: Decoder) returns (ghost r: Decoder)
      requires ShowsMarker(s, g, r0)
      modifies `rc, `range, `code
      ensures ShowsMarker(s, g, r)
    {
      hide Coded, Piece, AtBranch, Refilled, Take, Index, Plus;
      r := RefillAtStop(s, r0);
    }

    method RefillInOffset(ghost s: Streams, ghost start: Word, ghost h0: Dec, ghost k: nat) returns (ghost h: Dec)
      requires OnTrack(s, start, h0) && ShowsOffset(s, h0, k)
      modifies `rc, `range, `code
      ensures OnTrack(s, start, h) && ShowsOffset(s, h, k)
    {
      hide Coded, Piece, Rest, OnTrack, Refill, Refilled;
      var r := RefillAtStop(s, h0.rcd);
      h := h0.(rcd := r);
      if r != h0.rcd { RefillOnTrack(s, start, h0); }
    }

    /** What a stop inside a branch left over: the missing word and the bytes of its offset. `stop` when they
        still cannot be dealt with. */
    method Resume(ghost s: Streams, ghost start: Word, ghost at0: Phase) returns (stop: bool, ghost at: Phase)
      requires Inv(s, start, at0) && !at0.Starting?
      modifies `call, `jump, `dest, `destRoom, `ip, `temp, `state
      ensures main == old(main) && (state != Error)
      ensures stop ==> Inv(s, start, at) && !at.Starting? && Blocked()
      ensures !stop ==> at.Between? && OnTrack(s, start, at.h) && Shows(s, at.h)
    {
      hide Coded, OnTrack, Fed, IsCall, LeBytes, Rest, AtBranch;
      at, stop := at0, false;
      if state == NeedCall || state == NeedJump {
        var isCall := state == NeedCall;
        if if isCall then |call| < 4 else |jump| < 4 { stop := true; return; }
        var v, h := ReadWord(s, start, at.g, at.r, isCall);
        at := Offsetting(h);
        temp := v;
        WholeRest(v);
        state := Writing(0);
      }
      if state.Writing? {
        ghost var h := at.h;
        WriteRest(s, h);
        if state.Writing? { stop := true; return; }
        at := Between(h);
      }
    }

    /** Decodes as much as the inputs and the room for output allow. */
    method Decode(ghost s: Streams, ghost start: Word, ghost at0: Phase) returns (res: SRes, ghost at: Phase)
      requires Inv(s, start, at0)
      modifies this, probs
      ensures Inv(s, start, at) && Blocked()
      ensures res == if state == Error then SzErrorData else SzOk
    {
      hide Coded, OnTrack, Shows, ShowsStart, ShowsMarker, ShowsOffset, Blocked;
      res, at := SzOk, at0;
      if range <= 5 {
        StartBelow(s, start, at0);
        var done;
        ghost var n, h;
        res, done, n, h := ReadStart(s, start, at0.n);
        at := if done then Between(h) else Starting(n);
        if !done { StopsAtStart(); return; }
      } else {
        StartAbove(s, start, at0);
        var stop;
        stop, at := Resume(s, start, at);
        if stop { return; }
      }
      var stop := false;
      while !stop
        invariant probs.Length == NUM_PROBS && res == SzOk
        invariant stop ==> Inv(s, start, at) && Blocked() && state != Error
        invariant !stop ==> at.Between? && OnTrack(s, start, at.h) && Shows(s, at.h)
        decreases |main|, !stop
      {
        stop, at := Round(s, start, at.h);
      }
    }

    /** What has been decoded is right so far, and it is everything once the main stream has been used up. */
    lemma RightSoFar(s: Streams, start: Word, at: Phase, f: Dec)
      requires Inv(s, start, at) && Decoded(s, start) == Some(f)
      ensures state != Error && dest <= f.out
      ensures state == NeedMain && at.h.m == |s.main| ==> at.h == f
    {
      hide HalfStep, Settled, AtBranch, Refilled, Take, Index, Rest, IsMarker, RcdOk, Piece, Num;
      match at
      case Starting(n) =>
      case Between(h) => SettledPrefix(s, start, h, f);
      case Marked(g, r) =>
        SettledPrefix(s, start, g, f);
        MarkerPrefix(s, start, g, f);
      case Offsetting(h) => SettledPrefix(s, start, h, f);
    }

    /** Decoding what `Bcj2Enc` wrote, in whatever pieces, gives the input back. */
    lemma InputBack(o: Options, input: seq<Byte>, at: Phase)
      requires OptionsOk(o) && Inv(Encode(o, input), Wrap(o.ip), at)
      ensures state != Error && dest <= input
      ensures state == NeedMain && at.h.m == |Encode(o, input).main| ==>
        && dest == input && code == 0
        && main == [] && call == [] && jump == [] && rc == []
    {
      hide Encode, DecStart, DecAll, Rest, AtBranch, Refilled, Index, Take, OnTrack, RcdOk;
      RoundTrip(o, input);
      RightSoFar(Encode(o, input), Wrap(o.ip), at, Decoded(Encode(o, input), Wrap(o.ip)).value);
    }

    /** Nothing of the streams is missing any more: what the decoder has not read, it has at hand. */
    ghost predicate Supplied(s: Streams, at: Phase)
      reads `main, `call, `jump, `rc
    {
      match at
      case Starting(n) => main == s.main && call == s.call && jump == s.jump && n + |rc| == |s.rc|
      case Between(h) => Rests(s, h.m, h.c, h.j, 5 + h.rcd.k)
      case Marked(g, r) => Rests(s, g.m + 1, g.c, g.j, 5 + r.k)
      case Offsetting(h) => Rests(s, h.m, h.c, h.j, 5 + h.rcd.k)
    }

    ghost predicate Rests(s: Streams, m: nat, c: nat, j: nat, k: nat)
      reads `main, `call, `jump, `rc
    {
      m + |main| == |s.main| && c + |call| == |s.call| && j + |jump| == |s.jump| && k + |rc| == |s.rc|
    }

    /** Once everything is supplied, the decoder stops only at the end or for want of room. */
    lemma StopsAtEnd(s: Streams, start: Word, at: Phase, f: Dec)
      requires Inv(s, start, at) && Decoded(s, start) == Some(f) && Blocked() && Supplied(s, at)
      ensures if state == NeedMain then at.Between? && at.h.m == |s.main| else destRoom == 0 && |dest| < |f.out|
    {
      hide Take, Index, IsMarker, Piece, Num, Refill, Start;
      match at
      case Starting(n) =>
      case Between(h) =>
        if state == NeedRoom { MorePrefix(s, start, h, f); }
      case Marked(g, r) => MarkedHasWord(s, start, g, f);
      case Offsetting(h) => SettledPrefix(s, start, h, f);
    }

    /** Decoding all of what `Bcj2Enc` wrote ends with the input, given room for it. */
    lemma AllBack(o: Options, input: seq<Byte>, at: Phase)
      requires OptionsOk(o) && Inv(Encode(o, input), Wrap(o.ip), at)
      requires Blocked() && Supplied(Encode(o, input), at)
      ensures if |dest| + destRoom >= |input| then state == NeedMain && dest == input && code == 0
              else destRoom == 0 && dest <= input
    {
      hide Encode, DecStart, DecAll, Rest, AtBranch, Refilled, Index, Take, OnTrack, RcdOk, Inv, Blocked, Supplied;
      RoundTrip(o, input);
      InputBack(o, input, at);
      StopsAtEnd(Encode(o, input), Wrap(o.ip), at, Decoded(Encode(o, input), Wrap(o.ip)).value);
    }

    lemma StartBelow(s: Streams, start: Word, at: Phase)
      requires Inv(s, start, at) && range <= 5
      ensures at.Starting?
    {}

    lemma StartAbove(s: Streams, start: Word, at: Phase)
      requires Inv(s, start, at) && range > 5
      ensures !at.Starting?
    {}

    lemma StopsAtStart()
      requires state == Error || (state == NeedRc && rc == [])
      ensures Blocked()
    {}

    lemma FirstByte(s: Streams, start: Word, n: nat)
      requires ShowsStart(s, start, n) && range == 1 && code != 0
      ensures DecStart(s, start) == None
    {
      OneByte(s.rc);
    }

    lemma FiveBytes(s: Streams, start: Word)
      requires ShowsStart(s, start, 5) && probs.Length == NUM_PROBS
      ensures code == 0xFFFF_FFFF ==> DecStart(s, start) == None
      ensures code != 0xFFFF_FFFF ==>
        && DecStart(s, start) == Some(Dec([], 0, 0, 0, 0, ip, Decoder(0xFFFF_FFFF, code, 0, probs[..])))
        && code < 0xFFFF_FFFF
    {
      CodeFits(s.rc, 5);
    }
  }

  lemma SettledPrefix(s: Streams, start: Word, h: Dec, f: Dec)
    requires OnTrack(s, start, h) && Decoded(s, start) == Some(f)
    ensures h.out <= f.out
    ensures h.rcd.range >= TOP && h.m == |s.main| ==> f == h
  {
    hide DecStep;
    PrefixOfResult(s, Settled(s, h).value);
  }

  lemma MarkerPrefix(s: Streams, start: Word, g: Dec, f: Dec)
    requires OnTrack(s, start, g) && Decoded(s, start) == Some(f) && AtBranch(s, g)
    ensures g.out + [s.main[g.m]] <= f.out
  {
    hide GetBit, IsMarker, HalfStep;
    assert Settled(s, g) == Some(g);
    HalfExtends(s, g);
    PrefixOfResult(s, DecStep(s, g).value);
  }

  /** Before the end of the main stream there is always another byte to come. */
  lemma MorePrefix(s: Streams, start: Word, h: Dec, f: Dec)
    requires OnTrack(s, start, h) && Decoded(s, start) == Some(f) && h.rcd.range >= TOP && h.m < |s.main|
    ensures |h.out| < |f.out|
  {
    hide GetBit, IsMarker, HalfStep;
    assert Settled(s, h) == Some(h);
    HalfExtends(s, h);
    PrefixOfResult(s, DecStep(s, h).value);
  }

  /** A marker that is followed by a converted offset has its word in the stream. */
  lemma MarkedHasWord(s: Streams, start: Word, g: Dec, f: Dec)
    requires OnTrack(s, start, g) && Decoded(s, start) == Some(f) && AtBranch(s, g)
    ensures if IsCall(s.main[g.m]) then g.c + 4 <= |s.call| else g.j + 4 <= |s.jump|
  {
    hide GetBit, IsMarker, IsCall, Take, Index, LeBytes;
    assert Settled(s, g) == Some(g);
  }

  lemma OneByte(bs: seq<Byte>)
    requires |bs| >= 1
    ensures Num(bs[..1]) == bs[0]
  {
    assert bs[..1][..0] == [];
  }

  /** A leading zero byte leaves room for four more. */
  lemma CodeFits(bs: seq<Byte>, n: nat)
    requires n <= 5 && n <= |bs| && (n > 1 ==> bs[0] == 0)
    ensures Num(bs[..n]) < WORD
  {
    assert Pow256(4) == WORD by { assert Pow256(2) == 0x1_0000; Pow256Split(2, 2); }
    NumBounded(bs[..n]);
    if n > 0 {
      assert bs[..n] == [bs[0]] + bs[1..n];
      NumAppend([bs[0]], bs[1..n]);
      NumBounded(bs[1..n]);
      OneByte([bs[0]]);
      assert [bs[0]][..1] == [bs[0]];
    }
    if n == 5 { } else if n > 0 { Pow256Split(n - 1, 5 - n); }
  }

  lemma LastOfRest(v: Word, k: nat)
    requires k < 4
    ensures k < 3 ==> Rest(v, k)[3 - k] == Rest(v / 256, k + 1)[3 - (k + 1)]
    ensures k == 3 ==> Rest(v, k)[0] == v % 256
  {
    RestShifts(v, k);
  }

  lemma WholeRest(v: Word)
    ensures Rest(v, 0) == LeBytes(v) && Rest(v, 0)[3] == v / 0x100_0000
  {}

  /** The new byte at the bottom and the previous one on top. */
  function ShiftIn(v: Word, b: Byte): Word { v * 0x100_0000 % WORD + b }

  lemma ShiftedIn(v: Word, b: Byte)
    ensures ShiftIn(v, b) == Pair(v % 256, b) && Pair(v % 256, b) / 0x100_0000 == v % 256
    ensures Pair(v % 256, b) % 256 == b
  {
    var q := v / 256;
    assert v * 0x100_0000 == q * WORD + (v % 256) * 0x100_0000;
    DivUnique(v * 0x100_0000, q, WORD);
  }
}
