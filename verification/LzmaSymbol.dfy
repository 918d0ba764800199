/** One LZMA symbol: the decision tree that the decoder walks, and the range coder steps along it.
    A `Prog` lists, for every prefix of decoded bits, which probability is asked next. The adaptive
    decoder and its read-only look-ahead are two ways of running the same tree. */
module LzmaSymbol {
  import opened Arith
  import opened Wrappers
  import opened BitModel

  /** Range decoder state: `pos` is the index of the next input byte. */
  datatype Coder = Coder(range: Word, code: Word, pos: nat)

  datatype Symbol =
    | Literal(b: nat)
    | ShortRep
    | Rep(idx: nat, len: nat)
    | Match(len: nat, dist: nat)

  datatype Prog =
    | Done(sym: Symbol)
    | Bit(prob: nat, zero: Prog, one: Prog)
    | Direct(zero: Prog, one: Prog)

  /** `Eof` when the input ends before the symbol does. */
  datatype Outcome = Eof | Parsed(sym: Symbol, rc: Coder, probs: seq<Prob>)

  // ----- range coder steps -----

  function Normalize(input: seq<Byte>, rc: Coder): Option<Coder> {
    if rc.range >= TOP then Some(rc)
    else if rc.pos >= |input| then None
    else Some(Coder(rc.range * 256, (rc.code * 256 + input[rc.pos]) % WORD, rc.pos + 1))
  }

  function Bound(range: Word, p: Prob): (b: Word)
    ensures b <= range
    ensures range >= 0x800 ==> 0 < b < range
  {
    BoundFits(range, p);
    range / 2048 * p
  }

  lemma BoundFits(range: Word, p: Prob)
    ensures range / 2048 * p <= range
    ensures range >= 0x800 ==> 0 < range / 2048 * p < range
  {
    var q := range / 2048;
    assert q * p <= q * 2048;
    if q > 0 { assert q * p < q * 2048; }
  }

  function BitOf(rc: Coder, p: Prob): nat {
    if rc.code < Bound(rc.range, p) then 0 else 1
  }

  function Narrow(rc: Coder, p: Prob): Coder {
    var bound := Bound(rc.range, p);
    if rc.code < bound then rc.(range := bound)
    else rc.(range := rc.range - bound, code := rc.code - bound)
  }

  /** A direct bit is the complement of the sign of `code - range/2` in 32-bit arithmetic. */
  function DirectBit(rc: Coder): nat {
    if (rc.code - rc.range / 2 + WORD) % WORD < 0x8000_0000 then 1 else 0
  }

  function Halve(rc: Coder): Coder {
    var half := rc.range / 2;
    Coder(half, if DirectBit(rc) == 1 then (rc.code - half + WORD) % WORD else rc.code, rc.pos)
  }

  datatype Move = Stop | Go(prog: Prog, rc: Coder, probs: seq<Prob>)

  /** One question of the tree, asked of a normalized range coder. With `adapt` the probability is
      updated as soon as it has been used. An index outside the table stops the run; the grammar
      below asks none (`SymbolGood`). */
  function Advance(adapt: bool, probs: seq<Prob>, n: Coder, prog: Prog): (m: Move)
    requires !prog.Done?
    ensures m.Go? ==> m.prog == prog.zero || m.prog == prog.one
    ensures m.Go? ==> m.rc.pos == n.pos && |m.probs| == |probs|
  {
    match prog
    case Bit(i, zero, one) =>
      if i >= |probs| then Stop else
      var bit := BitOf(n, probs[i]);
      Go(if bit == 0 then zero else one, Narrow(n, probs[i]),
         if adapt then probs[i := Adapt(probs[i], bit)] else probs)
    case Direct(zero, one) =>
      Go(if DirectBit(n) == 0 then zero else one, Halve(n), probs)
  }

  /** Runs a tree to its end. */
  function Run(adapt: bool, probs: seq<Prob>, input: seq<Byte>, rc: Coder, prog: Prog): Outcome
    decreases prog
  {
    if prog.Done? then Parsed(prog.sym, rc, probs) else
    match Normalize(input, rc)
    case None => Eof
    case Some(n) =>
      match Advance(adapt, probs, n, prog)
      case Stop => Eof
      case Go(next, rc', probs') => Run(adapt, probs', input, rc', next)
  }

  // ----- layout of the probability table -----

  const SPEC_POS := 0
  const IS_REP0_LONG := 128
  const REP_LEN_CODER := 384
  const LEN_CODER := 896
  const IS_MATCH := 1408
  const ALIGN := 1664
  const IS_REP := 1680
  const IS_REP_G0 := 1692
  const IS_REP_G1 := 1704
  const IS_REP_G2 := 1716
  const POS_SLOT := 1728
  const LITERAL := 1984

  // ----- the symbol grammar -----

  function TreeProg(base: nat, limit: nat, m: nat, k: nat -> Prog): Prog
    requires m >= 1
    decreases limit - m, base
  {
    if m >= limit then k(m)
    else Bit(base + m, TreeProg(base, limit, 2 * m, k), TreeProg(base, limit, 2 * m + 1, k))
  }

  /** Literal after a match: the byte at distance rep0 selects the subtree until the first mismatch. */
  function MatchedProg(base: nat, matchByte: nat, offs: bool, symbol: nat, k: nat -> Prog): Prog
    requires symbol >= 1
    decreases 0x100 - symbol, base
  {
    if symbol >= 0x100 then k(symbol) else
    var both := offs && matchByte * 2 / 0x100 % 2 == 1;
    Bit(base + (if both then 0x100 else 0) + (if offs then 0x100 else 0) + symbol,
        MatchedProg(base, matchByte * 2, both != offs, 2 * symbol, k),
        MatchedProg(base, matchByte * 2, both, 2 * symbol + 1, k))
  }

  /** Reverse bit tree: `v` is the value so far, `m` the weight of the next bit. */
  function ReverseProg(base: nat, v: nat, m: nat, n: nat, k: nat -> Prog): Prog
    decreases n
  {
    if n == 0 then k(v)
    else Bit(base + v + m, ReverseProg(base, v, 2 * m, n - 1, k), ReverseProg(base, v + m, 2 * m, n - 1, k))
  }

  function DirectProg(n: nat, acc: nat, k: nat -> Prog): Prog {
    if n == 0 then k(acc)
    else Direct(DirectProg(n - 1, 2 * acc, k), DirectProg(n - 1, 2 * acc + 1, k))
  }

  /** The length, without the minimal match length 2. */
  function LenProg(base: nat, posState: nat, k: nat -> Prog): Prog {
    Bit(base,
        TreeProg(base + posState, 8, 1, (m: nat) => k(Minus(m, 8))),
        Bit(base + 8,
            TreeProg(base + posState + 8, 8, 1, k),
            TreeProg(base + 256, 256, 1, (m: nat) => k(Minus(m, 240)))))
  }

  function SlotProg(slot: nat, k: nat -> Prog): Prog {
    if slot < 4 then k(slot) else
    var nb := slot / 2 - 1;
    var top := 2 + slot % 2;
    if slot < 14 then
      ReverseProg(SPEC_POS + top * Pow2(nb), 0, 1, nb, (v: nat) => k(top * Pow2(nb) + v))
    else
      DirectProg(nb - 4, top, (d: nat) => ReverseProg(ALIGN, 0, 1, 4, (v: nat) => k(16 * d + v)))
  }

  function LenState(len: nat): nat { if len < 4 then len else 3 }

  function DistProg(len: nat, k: nat -> Prog): Prog {
    TreeProg(POS_SLOT + 64 * LenState(len), 64, 1, (m: nat) => SlotProg(Minus(m, 64), k))
  }

  /** What the tree depends on: the state, `posState` (a multiple of 16), the base of the literal
      coder, and the byte at distance rep0 (used in states 7 to 11 only). */
  datatype Ctx = Ctx(state: nat, posState: nat, lit: nat, matchByte: nat)

  ghost predicate CtxOk(ctx: Ctx, n: nat) {
    && ctx.state < 12
    && ctx.posState % 16 == 0 && ctx.posState <= 240
    && LITERAL <= ctx.lit && ctx.lit + 0x300 <= n
    && ctx.matchByte < 0x100
  }

  function LiteralDone(symbol: nat): Prog { Done(Literal(symbol % 0x100)) }
  function RepDone(idx: nat, len: nat): Prog { Done(Rep(idx, len + 2)) }
  function MatchDone(len: nat, dist: nat): Prog { Done(Match(len + 2, dist)) }

  function LiteralProg(ctx: Ctx): Prog {
    if ctx.state < 7 then TreeProg(ctx.lit, 0x100, 1, LiteralDone)
    else MatchedProg(ctx.lit, ctx.matchByte, true, 1, LiteralDone)
  }

  function RepLenProg(ctx: Ctx, idx: nat): Prog {
    LenProg(REP_LEN_CODER, ctx.posState, (len: nat) => RepDone(idx, len))
  }

  function MatchProg(ctx: Ctx): Prog {
    LenProg(LEN_CODER, ctx.posState, (len: nat) => DistProg(len, (dist: nat) => MatchDone(len, dist)))
  }

  function LongRepProg(ctx: Ctx): Prog {
    Bit(IS_REP_G1 + ctx.state, RepLenProg(ctx, 1),
        Bit(IS_REP_G2 + ctx.state, RepLenProg(ctx, 2), RepLenProg(ctx, 3)))
  }

  function RepProg(ctx: Ctx): Prog {
    Bit(IS_REP_G0 + ctx.state,
        Bit(IS_REP0_LONG + ctx.posState + ctx.state, Done(ShortRep), RepLenProg(ctx, 0)),
        LongRepProg(ctx))
  }

  function SymbolProg(ctx: Ctx): Prog {
    Bit(IS_MATCH + ctx.posState + ctx.state, LiteralProg(ctx),
        Bit(IS_REP + ctx.state, MatchProg(ctx), RepProg(ctx)))
  }
}
