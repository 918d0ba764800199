/** The LZMA stream decoder with an unbounded output and no buffers. It is the reference for the
    streaming decoder: a stream is cut into chunks, one per symbol, and each chunk is one step. */
module LzmaStream {
  import opened Arith
  import opened Wrappers
  import opened BitModel
  import opened LzmaSymbol
  import opened LzmaLookahead

  datatype Props = Props(lc: nat, lp: nat, pb: nat, dicSize: nat)

  ghost predicate PropsOk(p: Props) {
    p.lc <= 8 && p.lp <= 4 && p.pb <= 4 && 0x1000 <= p.dicSize < WORD
  }

  function NumProbs(p: Props): nat { LITERAL + 0x300 * Pow2(p.lc + p.lp) }

  datatype Ideal = Ideal(probs: seq<Prob>, range: Word, code: Word,
                         rep0: nat, rep1: nat, rep2: nat, rep3: nat, state: nat, out: seq<Byte>)

  // ----- output -----

  function ByteAt(out: seq<Byte>, dist: nat): Byte {
    if 1 <= dist <= |out| then out[|out| - dist] else 0
  }

  function CopyOut(out: seq<Byte>, dist: nat, n: nat): (r: seq<Byte>)
    ensures |r| == |out| + n && out <= r
    decreases n
  {
    if n == 0 then out else CopyOut(out + [ByteAt(out, dist)], dist, n - 1)
  }

  // ----- what the next symbol's tree depends on -----

  /** The literal coder: `lp` low bits of the position and `lc` high bits of the previous byte. */
  function LiteralBase(p: Props, total: nat, prev: Byte): nat {
    LITERAL + 0x300 * (Times(total % Pow2(p.lp), Pow2(p.lc)) + prev / Pow2(Minus(8, p.lc)))
  }

  function CtxOf(p: Props, d: Ideal): Ctx {
    Ctx(d.state, |d.out| % Pow2(p.pb) * 16,
        if d.out == [] then LITERAL else LiteralBase(p, |d.out|, ByteAt(d.out, 1)),
        ByteAt(d.out, d.rep0))
  }

  // ----- what a symbol does -----

  function LitState(s: nat): nat { if s < 4 then 0 else if s < 10 then s - 3 else s - 6 }

  datatype Result = Running(d: Ideal) | Ended(d: Ideal) | Broken | Stuck

  function MaxDistance(p: Props, d: Ideal): nat { if |d.out| < p.dicSize then |d.out| else p.dicSize }

  function Apply(p: Props, d: Ideal, sym: Symbol): Result {
    match sym
    case Literal(b) => Running(d.(out := d.out + [b % 0x100], state := LitState(d.state)))
    case ShortRep => Running(d.(out := d.out + [ByteAt(d.out, d.rep0)], state := if d.state < 7 then 9 else 11))
    case Rep(idx, len) =>
      var d' := RotateReps(d, idx);
      Running(d'.(out := CopyOut(d.out, d'.rep0, len), state := if d.state < 7 then 8 else 11))
    case Match(len, dist) =>
      if dist == 0xFFFF_FFFF then Ended(d)
      else if dist >= MaxDistance(p, d) then Broken
      else
        Running(d.(rep0 := dist + 1, rep1 := d.rep0, rep2 := d.rep1, rep3 := d.rep2,
                   out := CopyOut(d.out, dist + 1, len), state := if d.state < 7 then 7 else 10))
  }

  function RotateReps(d: Ideal, idx: nat): Ideal {
    if idx == 0 then d
    else if idx == 1 then d.(rep0 := d.rep1, rep1 := d.rep0)
    else if idx == 2 then d.(rep0 := d.rep2, rep1 := d.rep0, rep2 := d.rep1)
    else d.(rep0 := d.rep3, rep1 := d.rep0, rep2 := d.rep1, rep3 := d.rep2)
  }

  function RcOf(d: Ideal, pos: nat): Coder { Coder(d.range, d.code, pos) }

  function WithCoder(d: Ideal, rc: Coder, probs: seq<Prob>): Ideal {
    d.(range := rc.range, code := rc.code, probs := probs)
  }

  /** One symbol whose code is exactly `chunk`. */
  function Step(p: Props, d: Ideal, chunk: seq<Byte>): Result {
    var r := DecodeOne(d.probs, chunk, RcOf(d, 0), CtxOf(p, d));
    if r.Parsed? && r.rc.pos == |chunk| then Apply(p, WithCoder(d, r.rc, r.probs), r.sym) else Stuck
  }

  type Stepper = (Ideal, seq<Byte>) -> Result

  function StepOf(p: Props): Stepper { (d: Ideal, chunk: seq<Byte>) => Step(p, d, chunk) }

  /** A run of steps. Nothing may follow an end mark or an invalid distance. */
  function Fold(step: Stepper, d: Ideal, chunks: seq<seq<Byte>>): Result
    decreases |chunks|
  {
    if chunks == [] then Running(d) else
    var r := step(d, chunks[0]);
    if r.Running? then Fold(step, r.d, chunks[1..])
    else if |chunks| == 1 then r else Stuck
  }

  function Concat(chunks: seq<seq<Byte>>): seq<Byte> {
    if chunks == [] then [] else chunks[0] + Concat(chunks[1..])
  }

  // ----- invariant -----

  const BAD_REP_CODE := 0xC000_0000 - 0x400

  ghost predicate Reachable(p: Props, r: nat, d: Ideal) { 1 <= r <= MaxDistance(p, d) }

  /** Before the first symbol of a stream, the state is the initial one and the code has been
      checked against the bound that rules out a repeated match. */
  ghost predicate Fresh(d: Ideal) {
    && d.state == 0
    && d.rep0 == d.rep1 == d.rep2 == d.rep3 == 1
    && d.range == 0xFFFF_FFFF && d.code < BAD_REP_CODE
    && forall i :: 0 <= i < |d.probs| ==> d.probs[i] == PROB_INIT
  }

  ghost predicate IdealOk(p: Props, d: Ideal) {
    && |d.probs| == NumProbs(p)
    && d.range >= TOP
    && d.state < 12
    && (if d.out == [] then Fresh(d)
        else Reachable(p, d.rep0, d) && Reachable(p, d.rep1, d) && Reachable(p, d.rep2, d) && Reachable(p, d.rep3, d))
  }

  // ----- facts -----

  lemma CtxIsOk(p: Props, d: Ideal)
    requires PropsOk(p) && |d.probs| == NumProbs(p) && d.state < 12
    ensures CtxOk(CtxOf(p, d), |d.probs|)
  {
    Pow2Mono(p.pb, 4);
    assert Pow2(4) == 16;
    assert |d.out| % Pow2(p.pb) < 16;
    if d.out != [] { LiteralBaseFits(p, |d.out|, ByteAt(d.out, 1)); }
    Pow2Mono(0, p.lc + p.lp);
  }

  lemma LiteralBaseFits(p: Props, total: nat, prev: Byte)
    requires PropsOk(p)
    ensures LiteralBase(p, total, prev) + 0x300 <= NumProbs(p)
  {
    var a, b, c := Pow2(p.lp), Pow2(p.lc), Pow2(8 - p.lc);
    Pow2Of8(p.lc);
    QuotientBelow(prev, b, c);
    PairBelow(total % a, prev / c, a, b);
    Pow2Split(p.lp, p.lc);
  }

  /** The bound tested on the first code word excludes repeated matches as a first symbol. */
  lemma FirstSymbolIsNotRep(p: Props, d: Ideal, input: seq<Byte>, pos: nat)
    requires PropsOk(p) && IdealOk(p, d) && d.out == []
    ensures var r := DecodeOne(d.probs, input, RcOf(d, pos), CtxOf(p, d));
            r.Parsed? ==> LiteralOrMatch(r.sym)
  {
    CtxIsOk(p, d);
    FreshRun(CtxOf(p, d), d.probs, input, RcOf(d, pos));
  }

  ghost predicate Leaves(prog: Prog, kind: Symbol -> bool)
    decreases prog
  {
    match prog
    case Done(s) => kind(s)
    case Bit(_, zero, one) => Leaves(zero, kind) && Leaves(one, kind)
    case Direct(zero, one) => Leaves(zero, kind) && Leaves(one, kind)
  }

  lemma {:induction false} RunEndsAtLeaf(prog: Prog, kind: Symbol -> bool, p: seq<Prob>, input: seq<Byte>, rc: Coder)
    requires Leaves(prog, kind)
    ensures var r := Run(true, p, input, rc, prog); r.Parsed? ==> kind(r.sym)
    decreases prog
  {
    if !prog.Done? && Normalize(input, rc).Some? {
      var m := Advance(true, p, Normalize(input, rc).value, prog);
      if m.Go? { RunEndsAtLeaf(m.prog, kind, m.probs, input, m.rc); }
    }
  }

  lemma {:induction false} TreeLeaves(base: nat, limit: nat, m: nat, k: nat -> Prog, kind: Symbol -> bool)
    requires m >= 1 && forall r: nat :: Leaves(k(r), kind)
    ensures Leaves(TreeProg(base, limit, m, k), kind)
    decreases limit - m
  {
    if m < limit {
      TreeLeaves(base, limit, 2 * m, k, kind);
      TreeLeaves(base, limit, 2 * m + 1, k, kind);
    }
  }

  lemma {:induction false} ReverseLeaves(base: nat, v: nat, m: nat, n: nat, k: nat -> Prog, kind: Symbol -> bool)
    requires forall r: nat :: Leaves(k(r), kind)
    ensures Leaves(ReverseProg(base, v, m, n, k), kind)
    decreases n
  {
    if n > 0 {
      ReverseLeaves(base, v, 2 * m, n - 1, k, kind);
      ReverseLeaves(base, v + m, 2 * m, n - 1, k, kind);
    }
  }

  lemma {:induction false} DirectLeaves(n: nat, acc: nat, k: nat -> Prog, kind: Symbol -> bool)
    requires forall r: nat :: Leaves(k(r), kind)
    ensures Leaves(DirectProg(n, acc, k), kind)
    decreases n
  {
    if n > 0 {
      DirectLeaves(n - 1, 2 * acc, k, kind);
      DirectLeaves(n - 1, 2 * acc + 1, k, kind);
    }
  }

  lemma LenLeaves(base: nat, ps: nat, k: nat -> Prog, kind: Symbol -> bool)
    requires forall r: nat :: Leaves(k(r), kind)
    ensures Leaves(LenProg(base, ps, k), kind)
  {
    var low, high := (m: nat) => k(Minus(m, 8)), (m: nat) => k(Minus(m, 240));
    forall r: nat ensures Leaves(low(r), kind) && Leaves(high(r), kind) {
      assert low(r) == k(Minus(r, 8)) && high(r) == k(Minus(r, 240));
    }
    TreeLeaves(base + ps, 8, 1, low, kind);
    TreeLeaves(base + ps + 8, 8, 1, k, kind);
    TreeLeaves(base + 256, 256, 1, high, kind);
  }

  lemma SlotLeaves(slot: nat, k: nat -> Prog, kind: Symbol -> bool)
    requires forall r: nat :: Leaves(k(r), kind)
    ensures Leaves(SlotProg(slot, k), kind)
  {
    var nb := slot / 2 - 1;
    var top := 2 + slot % 2;
    if slot < 4 {
    } else if slot < 14 {
      ReverseLeaves(SPEC_POS + top * Pow2(nb), 0, 1, nb, (v: nat) => k(top * Pow2(nb) + v), kind);
    } else {
      var k' := (d: nat) => ReverseProg(ALIGN, 0, 1, 4, (v: nat) => k(16 * d + v));
      forall d: nat ensures Leaves(k'(d), kind) {
        ReverseLeaves(ALIGN, 0, 1, 4, (v: nat) => k(16 * d + v), kind);
        assert k'(d) == ReverseProg(ALIGN, 0, 1, 4, (v: nat) => k(16 * d + v));
      }
      DirectLeaves(nb - 4, top, k', kind);
    }
  }

  lemma MatchLeaves(ctx: Ctx, kind: Symbol -> bool)
    requires forall len: nat, dist: nat :: kind(Match(len, dist))
    ensures Leaves(MatchProg(ctx), kind)
  {
    var k := (len: nat) => DistProg(len, (dist: nat) => MatchDone(len, dist));
    forall len: nat ensures Leaves(k(len), kind) {
      var k' := (dist: nat) => MatchDone(len, dist);
      var slots := (m: nat) => SlotProg(Minus(m, 64), k');
      forall m: nat ensures Leaves(slots(m), kind) {
        SlotLeaves(Minus(m, 64), k', kind);
        assert slots(m) == SlotProg(Minus(m, 64), k');
      }
      TreeLeaves(POS_SLOT + 64 * LenState(len), 64, 1, slots, kind);
      assert k(len) == DistProg(len, (dist: nat) => MatchDone(len, dist));
    }
    LenLeaves(LEN_CODER, ctx.posState, k, kind);
  }

  predicate LiteralOrMatch(s: Symbol) { s.Literal? || s.Match? }

  lemma FreshRun(ctx: Ctx, probs: seq<Prob>, input: seq<Byte>, rc: Coder)
    requires CtxOk(ctx, |probs|) && ctx.state == 0 && ctx.posState == 0
    requires rc.range == 0xFFFF_FFFF && rc.code < BAD_REP_CODE
    requires forall i :: 0 <= i < |probs| ==> probs[i] == PROB_INIT
    ensures var r := DecodeOne(probs, input, rc, ctx);
            r.Parsed? ==> LiteralOrMatch(r.sym)
  {
    hide Run, MatchProg, RepProg;
    TreeLeaves(ctx.lit, 0x100, 1, LiteralDone, LiteralOrMatch);
    MatchLeaves(ctx, LiteralOrMatch);
    FreshBits(SymbolProg(ctx), probs, input, rc);
  }

  lemma FreshBits(prog: Prog, probs: seq<Prob>, input: seq<Byte>, rc: Coder)
    requires prog.Bit? && prog.one.Bit? && prog.prob == IS_MATCH && prog.one.prob == IS_REP && |probs| >= LITERAL
    requires Leaves(prog.zero, LiteralOrMatch) && Leaves(prog.one.zero, LiteralOrMatch)
    requires rc.range == 0xFFFF_FFFF && rc.code < BAD_REP_CODE
    requires forall i :: 0 <= i < |probs| ==> probs[i] == PROB_INIT
    ensures var r := Finish(input, Run(true, probs, input, rc, prog));
            r.Parsed? ==> LiteralOrMatch(r.sym)
  {
    var m := Advance(true, probs, rc, prog);
    if BitOf(rc, probs[IS_MATCH]) == 0 {
      RunEndsAtLeaf(prog.zero, LiteralOrMatch, m.probs, input, m.rc);
    } else {
      assert m.rc.range == 0x8000_03FF && m.rc.code < 0x4000_0000;
      assert m.probs[IS_REP] == PROB_INIT;
      var m' := Advance(true, m.probs, m.rc, prog.one);
      RunEndsAtLeaf(prog.one.zero, LiteralOrMatch, m'.probs, input, m'.rc);
    }
  }

  // ----- a step keeps the invariant -----

  lemma {:induction false} RunKeepsSound(adapt: bool, prog: Prog, p: seq<Prob>, input: seq<Byte>, rc: Coder)
    requires Sound(rc)
    ensures var r := Run(adapt, p, input, rc, prog); r.Parsed? ==> Sound(r.rc)
    decreases prog
  {
    if !prog.Done? && Normalize(input, rc).Some? {
      var n := Normalize(input, rc).value;
      var m := Advance(adapt, p, n, prog);
      if m.Go? {
        if prog.Bit? { NarrowRange(n, p[prog.prob]); }
        RunKeepsSound(adapt, m.prog, m.probs, input, m.rc);
      }
    }
  }

  /** What is known of the result of decoding one symbol. */
  lemma DecodedSymbolOk(p: Props, d: Ideal, input: seq<Byte>, rc: Coder)
    requires PropsOk(p) && |d.probs| == NumProbs(p) && d.state < 12 && Sound(rc)
    ensures var r := DecodeOne(d.probs, input, rc, CtxOf(p, d));
            r.Parsed? ==> SymbolOk(r.sym) && |r.probs| == NumProbs(p) && r.rc.range >= TOP
  {
    hide Run, SymbolProg;
    CtxIsOk(p, d);
    var ctx := CtxOf(p, d);
    SymbolGood(ctx, |d.probs|);
    RunYieldsGoodSymbol(true, SymbolProg(ctx), {}, SymbolBudget(), d.probs, input, rc);
    RunKeepsSound(true, SymbolProg(ctx), d.probs, input, rc);
  }

  /** A symbol that is applied keeps every distance inside the decoded output and the dictionary,
      only appends to the output, and appends at least one byte. */
  lemma ApplyKeepsOk(p: Props, d: Ideal, sym: Symbol)
    requires PropsOk(p) && SymbolOk(sym)
    requires |d.probs| == NumProbs(p) && d.range >= TOP && d.state < 12
    requires d.out == [] ==> d.rep0 == d.rep1 == d.rep2 == d.rep3 == 1 && LiteralOrMatch(sym)
    requires d.out != [] ==>
      Reachable(p, d.rep0, d) && Reachable(p, d.rep1, d) && Reachable(p, d.rep2, d)
      && Reachable(p, d.rep3, d)
    ensures var r := Apply(p, d, sym);
            && (r.Running? ==> IdealOk(p, r.d) && d.out <= r.d.out && |d.out| < |r.d.out|)
            && (r.Ended? ==> r.d == d)
            && !r.Stuck?
  {
    var r := Apply(p, d, sym);
    if r.Running? {
      assert d.out <= r.d.out && |d.out| < |r.d.out|;
      assert MaxDistance(p, d) <= MaxDistance(p, r.d);
    }
  }

  lemma StepKeepsOk(p: Props, d: Ideal, chunk: seq<Byte>)
    requires PropsOk(p) && IdealOk(p, d)
    ensures var r := Step(p, d, chunk);
            && (r.Running? ==> IdealOk(p, r.d) && d.out <= r.d.out && |d.out| < |r.d.out|)
            && (r.Ended? ==> r.d.out == d.out)
  {
    hide Run, SymbolProg, Apply;
    DecodedSymbolOk(p, d, chunk, RcOf(d, 0));
    var r := DecodeOne(d.probs, chunk, RcOf(d, 0), CtxOf(p, d));
    if d.out == [] { FirstSymbolIsNotRep(p, d, chunk, 0); }
    if r.Parsed? { ApplyKeepsOk(p, WithCoder(d, r.rc, r.probs), r.sym); }
  }

  // ----- runs of steps -----

  lemma {:induction false} FoldAppend(step: Stepper, d: Ideal, chunks: seq<seq<Byte>>, c: seq<Byte>)
    requires Fold(step, d, chunks).Running?
    ensures Fold(step, d, chunks + [c]) == step(Fold(step, d, chunks).d, c)
    decreases |chunks|
  {
    if chunks != [] {
      assert (chunks + [c])[1..] == chunks[1..] + [c];
      FoldAppend(step, step(d, chunks[0]).d, chunks[1..], c);
    } else {
      assert (chunks + [c])[1..] == [];
    }
  }

  lemma {:induction false} ConcatAppend(chunks: seq<seq<Byte>>, c: seq<Byte>)
    ensures Concat(chunks + [c]) == Concat(chunks) + c
    decreases |chunks|
  {
    if chunks != [] {
      assert (chunks + [c])[1..] == chunks[1..] + [c];
      ConcatAppend(chunks[1..], c);
    }
  }

  lemma {:induction false} FoldKeepsOk(p: Props, d: Ideal, chunks: seq<seq<Byte>>)
    requires PropsOk(p) && IdealOk(p, d)
    ensures var r := Fold(StepOf(p), d, chunks);
            r.Running? ==> IdealOk(p, r.d) && d.out <= r.d.out
    decreases |chunks|
  {
    hide Step;
    if chunks != [] {
      StepKeepsOk(p, d, chunks[0]);
      var r := Step(p, d, chunks[0]);
      if r.Running? { FoldKeepsOk(p, r.d, chunks[1..]); }
    }
  }

  /** No symbol code is a proper prefix of another that is possible in the same state. */
  lemma SymbolCodeIsPrefixFree(p: Props, d: Ideal, c: seq<Byte>, c': seq<Byte>, s: seq<Byte>)
    requires !Step(p, d, c).Stuck? && !Step(p, d, c').Stuck?
    requires c <= s && c' <= s
    ensures c == c'
  {
    hide Run, SymbolProg, Apply;
    var ctx := CtxOf(p, d);
    FinishIsLocal(true, SymbolProg(ctx), d.probs, c, 0, s, 0, |c|, RcOf(d, 0));
    FinishIsLocal(true, SymbolProg(ctx), d.probs, c', 0, s, 0, |c'|, RcOf(d, 0));
    assert c == s[..|c|] && c' == s[..|c'|];
  }

  /** Two runs over the same stream cut it in the same way: the shorter run is a prefix of the longer. */
  lemma {:induction false} ChunksAreDetermined(p: Props, d: Ideal, cs: seq<seq<Byte>>, ds: seq<seq<Byte>>, s: seq<Byte>)
    requires !Fold(StepOf(p), d, cs).Stuck? && !Fold(StepOf(p), d, ds).Stuck?
    requires Concat(cs) <= s && Concat(ds) <= s && |cs| <= |ds|
    ensures cs == ds[..|cs|]
    decreases |cs|
  {
    hide Step;
    if cs != [] {
      assert cs[0] <= Concat(cs) && ds[0] <= Concat(ds);
      assert cs[0] <= s && ds[0] <= s;
      SymbolCodeIsPrefixFree(p, d, cs[0], ds[0], s);
      var r := Step(p, d, cs[0]);
      if r.Running? {
        var t := s[|cs[0]|..];
        PrefixTail(cs[0], Concat(cs[1..]), s);
        PrefixTail(ds[0], Concat(ds[1..]), s);
        ChunksAreDetermined(p, r.d, cs[1..], ds[1..], t);
        assert cs == [cs[0]] + cs[1..] && ds[..|cs|] == [ds[0]] + ds[1..][..|cs| - 1];
      } else {
        assert |cs| == 1;
      }
    }
  }

  lemma PrefixTail(a: seq<Byte>, b: seq<Byte>, s: seq<Byte>)
    requires a + b <= s
    ensures b <= s[|a|..]
  {
    assert a + b == s[..|a| + |b|];
    assert b == s[|a|..][..|b|];
  }

  lemma {:induction false} FoldSplit(step: Stepper, d: Ideal, cs: seq<seq<Byte>>, n: nat)
    requires n <= |cs| && Fold(step, d, cs[..n]).Running?
    ensures Fold(step, d, cs) == Fold(step, Fold(step, d, cs[..n]).d, cs[n..])
    decreases n
  {
    if n > 0 {
      assert cs[..n][1..] == cs[1..][..n - 1] && cs[n..] == cs[1..][n - 1..];
      FoldSplit(step, step(d, cs[0]).d, cs[1..], n - 1);
    } else {
      assert cs[..0] == [] && cs[0..] == cs;
    }
  }

  /** However a stream is cut into calls, two decoders that start in the same state and have consumed
      prefixes of the same stream have outputs of which one is a prefix of the other, and after the
      same number of symbols they are in the same state. */
  lemma StreamDeterminesOutput(p: Props, d: Ideal, cs: seq<seq<Byte>>, ds: seq<seq<Byte>>, s: seq<Byte>)
    requires PropsOk(p) && IdealOk(p, d)
    requires Fold(StepOf(p), d, cs).Running? && Fold(StepOf(p), d, ds).Running?
    requires Concat(cs) <= s && Concat(ds) <= s && |cs| <= |ds|
    ensures Fold(StepOf(p), d, cs).d.out <= Fold(StepOf(p), d, ds).d.out
    ensures |cs| == |ds| ==> Fold(StepOf(p), d, cs) == Fold(StepOf(p), d, ds)
  {
    hide Step;
    ChunksAreDetermined(p, d, cs, ds, s);
    FoldKeepsOk(p, d, cs);
    FoldSplit(StepOf(p), d, ds, |cs|);
    FoldKeepsOk(p, Fold(StepOf(p), d, cs).d, ds[|cs|..]);
    if |cs| == |ds| { assert ds[..|cs|] == ds; }
  }
}
