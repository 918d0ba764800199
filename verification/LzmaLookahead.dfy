/** Why the LZMA look-ahead can be trusted: it parses exactly the symbol that the adaptive decoder
    decodes, it never needs more than 20 bytes, and what it says of a prefix of the input is what it
    says of the whole input. */
module LzmaLookahead {
  import opened Arith
  import opened Wrappers
  import opened BitModel
  import opened LzmaSymbol

  /** Length and distance ranges of a decoded symbol. */
  predicate SymbolOk(s: Symbol) {
    match s
    case Literal(b) => b < 0x100
    case ShortRep => true
    case Rep(idx, len) => idx < 4 && 2 <= len <= 273
    case Match(len, dist) => 2 <= len <= 273 && dist < WORD
  }

  /** On every path of the tree: all indices are below `n`, none is asked twice or is in `used`, the
      symbol is well formed, and `budget` pays for the bits asked: a modelled bit costs a factor of
      67 > 2048/31, a direct bit a factor of 2.01 > 2, and 2^24 must be left at the end. */
  ghost predicate Good(prog: Prog, used: set<nat>, n: nat, budget: real)
    decreases prog
  {
    match prog
    case Done(s) => SymbolOk(s) && budget >= 16777216.0
    case Bit(i, zero, one) =>
      && i < n && i !in used
      && Good(zero, used + {i}, n, budget / 67.0)
      && Good(one, used + {i}, n, budget / 67.0)
    case Direct(zero, one) =>
      && Good(zero, used, n, budget / 2.01)
      && Good(one, used, n, budget / 2.01)
  }

  lemma {:induction false} GoodNeedsTop(prog: Prog, used: set<nat>, n: nat, budget: real)
    requires Good(prog, used, n, budget)
    ensures budget >= 16777216.0
    decreases prog
  {
    match prog
    case Done(_) =>
    case Bit(i, zero, one) => GoodNeedsTop(zero, used + {i}, n, budget / 67.0);
    case Direct(zero, one) => GoodNeedsTop(zero, used, n, budget / 2.01);
  }

  lemma {:induction false} GoodWeaken(prog: Prog, used: set<nat>, n: nat, budget: real,
                                      used': set<nat>, budget': real)
    requires Good(prog, used, n, budget)
    requires used' <= used && budget <= budget'
    ensures Good(prog, used', n, budget')
    decreases prog
  {
    match prog
    case Done(_) =>
    case Bit(i, zero, one) =>
      GoodWeaken(zero, used + {i}, n, budget / 67.0, used' + {i}, budget' / 67.0);
      GoodWeaken(one, used + {i}, n, budget / 67.0, used' + {i}, budget' / 67.0);
    case Direct(zero, one) =>
      GoodWeaken(zero, used, n, budget / 2.01, used', budget' / 2.01);
      GoodWeaken(one, used, n, budget / 2.01, used', budget' / 2.01);
  }

  // ----- agreement of the two decoders -----

  ghost predicate AgreeOutside(p: seq<Prob>, q: seq<Prob>, used: set<nat>) {
    |p| == |q| && forall i :: 0 <= i < |p| && i !in used ==> p[i] == q[i]
  }

  predicate SameParse(a: Outcome, b: Outcome) {
    (a.Eof? <==> b.Eof?) && (a.Parsed? ==> b.Parsed? && a.sym == b.sym && a.rc == b.rc)
  }

  /** Running with updated probabilities and running on the frozen table give the same symbol and
      consume the same bytes, because no probability is used twice within one symbol. */
  lemma {:induction false} FrozenRunAgrees(prog: Prog, used: set<nat>, budget: real,
                                           p: seq<Prob>, q: seq<Prob>, input: seq<Byte>, rc: Coder)
    requires Good(prog, used, |p|, budget)
    requires AgreeOutside(p, q, used)
    ensures SameParse(Run(true, q, input, rc, prog), Run(false, p, input, rc, prog))
    decreases prog
  {
    if !prog.Done? && Normalize(input, rc).Some? {
      var n := Normalize(input, rc).value;
      var f := Advance(false, p, n, prog);
      FrozenRunAgrees(f.prog, if prog.Bit? then used + {prog.prob} else used,
                      if prog.Bit? then budget / 67.0 else budget / 2.01,
                      p, Advance(true, q, n, prog).probs, input, f.rc);
    }
  }

  /** A finished run yields a well-formed symbol and keeps the table size. */
  lemma {:induction false} RunYieldsGoodSymbol(adapt: bool, prog: Prog, used: set<nat>, budget: real,
                                               p: seq<Prob>, input: seq<Byte>, rc: Coder)
    requires Good(prog, used, |p|, budget)
    ensures var r := Run(adapt, p, input, rc, prog);
            r.Parsed? ==> SymbolOk(r.sym) && |r.probs| == |p|
    decreases prog
  {
    if !prog.Done? && Normalize(input, rc).Some? {
      var m := Advance(adapt, p, Normalize(input, rc).value, prog);
      RunYieldsGoodSymbol(adapt, m.prog, if prog.Bit? then used + {prog.prob} else used,
                          if prog.Bit? then budget / 67.0 else budget / 2.01, m.probs, input, m.rc);
    }
  }

  // ----- the 20-byte bound -----

  const REQUIRED_INPUT_MAX := 20

  /** Ranges that one normalization step brings back to at least 2^24. */
  predicate Sound(rc: Coder) { rc.range >= 0x1_0000 }

  /** The range as it would be if the rest of the input had been shifted in. */
  function Potential(rc: Coder, end: nat): nat
    requires rc.pos <= end
  {
    rc.range * Pow256(end - rc.pos)
  }

  lemma NormalizeKeepsPotential(input: seq<Byte>, rc: Coder)
    requires Sound(rc) && rc.pos <= |input| && Potential(rc, |input|) >= TOP
    ensures var n := Normalize(input, rc);
            n.Some? && n.value.range >= TOP && n.value.pos <= |input|
            && Potential(n.value, |input|) == Potential(rc, |input|)
  {
    if rc.range < TOP {
      assert rc.pos < |input|;
      var q := Pow256(|input| - rc.pos - 1);
      assert rc.range * (256 * q) == (rc.range * 256) * q;
    }
  }

  lemma NarrowRange(rc: Coder, p: Prob)
    requires rc.range >= TOP
    ensures Sound(Narrow(rc, p))
    ensures 67 * Narrow(rc, p).range >= rc.range
  {
    var q := rc.range / 2048;
    MulMono(31, p, q);
    MulMono(p, 2017, q);
    assert 31 * q <= q * p <= 2017 * q;
    assert rc.range >= 2048 * q && q >= 0x2000;
    assert Narrow(rc, p).range >= 31 * q;
  }

  lemma NarrowPotential(rc: Coder, p: Prob, end: nat)
    requires rc.range >= TOP && rc.pos <= end
    ensures Sound(Narrow(rc, p))
    ensures 67 * Potential(Narrow(rc, p), end) >= Potential(rc, end)
  {
    NarrowRange(rc, p);
    var n := Narrow(rc, p);
    var q := Pow256(end - rc.pos);
    MulMono(rc.range, 67 * n.range, q);
    assert (67 * n.range) * q == 67 * (n.range * q);
  }

  lemma HalvePotential(rc: Coder, end: nat)
    requires rc.range >= TOP && rc.pos <= end
    ensures Sound(Halve(rc))
    ensures 201 * Potential(Halve(rc), end) >= 100 * Potential(rc, end)
  {
    var h := Halve(rc);
    assert 201 * h.range >= 100 * rc.range;
    var q := Pow256(end - rc.pos);
    MulMono(100 * rc.range, 201 * h.range, q);
    assert (201 * h.range) * q == 201 * Potential(h, end);
    assert (100 * rc.range) * q == 100 * Potential(rc, end);
  }

  /** With enough potential the run does not meet the end of the input, and neither does the
      normalization after it. */
  lemma {:induction false} EnoughInput(adapt: bool, prog: Prog, used: set<nat>, budget: real,
                                       p: seq<Prob>, input: seq<Byte>, rc: Coder)
    requires Good(prog, used, |p|, budget)
    requires Sound(rc) && rc.pos <= |input|
    requires Potential(rc, |input|) as real >= budget
    ensures var r := Run(adapt, p, input, rc, prog);
            && r.Parsed? && Sound(r.rc) && r.rc.pos <= |input|
            && Potential(r.rc, |input|) >= TOP
    decreases prog
  {
    GoodNeedsTop(prog, used, |p|, budget);
    if !prog.Done? {
      NormalizeKeepsPotential(input, rc);
      var n := Normalize(input, rc).value;
      if prog.Bit? { NarrowPotential(n, p[prog.prob], |input|); } else { HalvePotential(n, |input|); }
      var m := Advance(adapt, p, n, prog);
      EnoughInput(adapt, m.prog, if prog.Bit? then used + {prog.prob} else used,
                  if prog.Bit? then budget / 67.0 else budget / 2.01, m.probs, input, m.rc);
    }
  }

  // ----- the grammar is good -----

  predicate Within(i: nat, lo: nat, hi: nat) { lo <= i < hi }

  ghost function Region(lo: nat, hi: nat): set<nat> {
    set i: nat | i < hi && Within(i, lo, hi)
  }

  function Spend(bits: nat, budget: real): real {
    if bits == 0 then budget else 67.0 * Spend(bits - 1, budget)
  }

  function SpendDirect(bits: nat, budget: real): real {
    if bits == 0 then budget else 2.01 * SpendDirect(bits - 1, budget)
  }

  lemma {:induction false} TreeGood(base: nat, limit: nat, m: nat, e: nat, k: nat -> Prog,
                                    used: set<nat>, all: set<nat>, n: nat, budget: real)
    requires 1 <= m < 2 * limit && limit <= m * Pow2(e) && base + limit <= n
    requires used !! Region(base + m, base + limit)
    requires used <= all && Region(base + m, base + limit) <= all
    requires forall r: nat :: limit <= r < 2 * limit ==> Good(k(r), all, n, budget)
    requires budget >= 0.0
    ensures Good(TreeProg(base, limit, m, k), used, n, Spend(e, budget))
    decreases e
  {
    PowStep(m, e);
    if m >= limit {
      SpendGrows(e, budget);
      GoodWeaken(k(m), all, n, budget, used, Spend(e, budget));
    } else {
      assert base + m in Region(base + m, base + limit);
      TreeGood(base, limit, 2 * m, e - 1, k, used + {base + m}, all, n, budget);
      TreeGood(base, limit, 2 * m + 1, e - 1, k, used + {base + m}, all, n, budget);
    }
  }

  lemma {:induction false} SpendGrows(e: nat, budget: real)
    requires budget >= 0.0
    ensures Spend(e, budget) >= budget
  {
    if e > 0 { SpendGrows(e - 1, budget); }
  }

  lemma {:induction false} MatchedGood(base: nat, matchByte: nat, offs: bool, symbol: nat, e: nat, k: nat -> Prog,
                                       used: set<nat>, n: nat, budget: real)
    requires 1 <= symbol < 0x200 && symbol * Pow2(e) >= 0x100 && base + 0x300 <= n
    requires forall i :: i in used && base <= i < base + 0x300 ==> (i - base) % 0x100 < symbol
    requires forall r: nat, u: set<nat> {:trigger Good(k(r), u, n, budget)} ::
        0x100 <= r < 0x200
        ==> Good(k(r), u, n, budget)
    requires budget >= 0.0
    ensures Good(MatchedProg(base, matchByte, offs, symbol, k), used, n, Spend(e, budget))
    decreases e
  {
    PowStep(symbol, e);
    if symbol >= 0x100 {
      SpendGrows(e, budget);
      assert Good(k(symbol), used, n, budget);
      GoodWeaken(k(symbol), used, n, budget, used, Spend(e, budget));
    } else {
      var both := offs && matchByte * 2 / 0x100 % 2 == 1;
      var i := base + (if both then 0x100 else 0) + (if offs then 0x100 else 0) + symbol;
      assert (i - base) % 0x100 == symbol;
      MatchedGood(base, matchByte * 2, both != offs, 2 * symbol, e - 1, k, used + {i}, n, budget);
      MatchedGood(base, matchByte * 2, both, 2 * symbol + 1, e - 1, k, used + {i}, n, budget);
    }
  }

  lemma {:induction false} ReverseGood(base: nat, v: nat, m: nat, e: nat, limit: nat, k: nat -> Prog,
                                       used: set<nat>, all: set<nat>, n: nat, budget: real)
    requires m >= 1 && v < m && limit == m * Pow2(e) && base + limit <= n
    requires used !! Region(base + v + m, base + limit)
    requires used <= all && Region(base + v + m, base + limit) <= all
    requires forall r: nat :: r < limit ==> Good(k(r), all, n, budget)
    requires budget >= 0.0
    ensures Good(ReverseProg(base, v, m, e, k), used, n, Spend(e, budget))
    decreases e
  {
    PowStep(m, e);
    if e == 0 {
      GoodWeaken(k(v), all, n, budget, used, budget);
    } else {
      PowStep(2 * m, e - 1);
      assert base + v + m in Region(base + v + m, base + limit);
      ReverseGood(base, v, 2 * m, e - 1, limit, k, used + {base + v + m}, all, n, budget);
      ReverseGood(base, v + m, 2 * m, e - 1, limit, k, used + {base + v + m}, all, n, budget);
    }
  }

  lemma {:induction false} DirectGood(d: nat, acc: nat, k: nat -> Prog, used: set<nat>, n: nat, budget: real)
    requires forall r: nat :: acc * Pow2(d) <= r < (acc + 1) * Pow2(d) ==> Good(k(r), used, n, budget)
    ensures Good(DirectProg(d, acc, k), used, n, SpendDirect(d, budget))
    decreases d
  {
    if d == 0 {
      assert Good(k(acc), used, n, budget);
    } else {
      assert 2 * acc * Pow2(d - 1) == acc * Pow2(d);
      assert (2 * acc + 1) * Pow2(d - 1) == acc * Pow2(d) + Pow2(d - 1);
      assert (2 * acc + 2) * Pow2(d - 1) == (acc + 1) * Pow2(d);
      DirectGood(d - 1, 2 * acc, k, used, n, budget);
      DirectGood(d - 1, 2 * acc + 1, k, used, n, budget);
    }
  }

  lemma LenGood(base: nat, ps: nat, k: nat -> Prog, used: set<nat>, all: set<nat>, n: nat, budget: real)
    requires ps % 16 == 0 && ps <= 240 && base + 512 <= n && budget >= 0.0
    requires forall i :: i in used ==> !Within(i, base, base + 512)
    requires used <= all && Region(base, base + 512) <= all
    requires forall r: nat :: r < 272 ==> Good(k(r), all, n, budget)
    ensures Good(LenProg(base, ps, k), used, n, Spend(10, budget))
  {
    assert base in Region(base, base + 512) && base + 8 in Region(base, base + 512);
    LenLowGood(base, ps, k, used + {base}, all, n, budget);
    LenHighPartGood(base, ps, k, used + {base}, all, n, budget, LenProg(base, ps, k).one);
    LenJoin(LenProg(base, ps, k), used, n, budget);
  }

  lemma LenJoin(p: Prog, used: set<nat>, n: nat, budget: real)
    requires p.Bit? && p.prob < n && p.prob !in used && budget >= 0.0
    requires Good(p.zero, used + {p.prob}, n, Spend(3, budget))
    requires Good(p.one, used + {p.prob}, n, 67.0 * Spend(8, budget))
    ensures Good(p, used, n, Spend(10, budget))
  {
    SpendAdds(budget);
    AskGood(p, used, used + {p.prob}, n, Spend(3, budget), 67.0 * Spend(8, budget), Spend(10, budget));
  }

  lemma SpendAdds(budget: real)
    requires budget >= 0.0
    ensures Spend(3, budget) <= Spend(8, budget) <= 67.0 * Spend(8, budget)
    ensures Spend(10, budget) == 67.0 * (67.0 * Spend(8, budget))
  {
    SpendGrows(3, budget);
    var s := Spend(3, budget);
    assert Spend(5, budget) == 67.0 * (67.0 * s);
    assert Spend(7, budget) == 67.0 * (67.0 * Spend(5, budget));
  }

  lemma LenHighPartGood(base: nat, ps: nat, k: nat -> Prog, used: set<nat>, all: set<nat>, n: nat, budget: real,
                        p: Prog)
    requires ps % 16 == 0 && ps <= 240 && base + 512 <= n && budget >= 0.0
    requires forall i :: i in used && Within(i, base, base + 512) ==> i == base
    requires used <= all && Region(base, base + 512) <= all
    requires forall r: nat :: r < 272 ==> Good(k(r), all, n, budget)
    requires p == LenProg(base, ps, k).one
    ensures Good(p, used, n, 67.0 * Spend(8, budget))
  {
    assert base + 8 in Region(base, base + 512);
    assert base + 8 !in used by { assert Within(base + 8, base, base + 512); }
    LenMidGood(base, ps, k, used + {base + 8}, all, n, budget);
    LenHighGood(base, k, used + {base + 8}, all, n, budget);
    SpendAdds(budget);
    AskGood(p, used, used + {base + 8}, n, Spend(3, budget), Spend(8, budget), 67.0 * Spend(8, budget));
  }

  lemma LenLowGood(base: nat, ps: nat, k: nat -> Prog, used: set<nat>, all: set<nat>, n: nat, budget: real)
    requires ps % 16 == 0 && ps <= 240 && base + 512 <= n && budget >= 0.0
    requires forall i :: i in used && Within(i, base, base + 512) ==> i == base
    requires used <= all && Region(base, base + 512) <= all
    requires forall r: nat :: r < 272 ==> Good(k(r), all, n, budget)
    ensures Good(TreeProg(base + ps, 8, 1, (m: nat) => k(Minus(m, 8))), used, n, Spend(3, budget))
  {
    assert Pow2(3) == 8;
    RegionIn(base + ps + 1, base + ps + 8, base, base + 512, all);
    var k' := (m: nat) => k(Minus(m, 8));
    forall r: nat | 8 <= r < 16 ensures Good(k'(r), all, n, budget) {
      assert Minus(r, 8) == r - 8; assert k'(r) == k(Minus(r, 8));
    }
    TreeGood(base + ps, 8, 1, 3, k', used, all, n, budget);
  }

  lemma LenMidGood(base: nat, ps: nat, k: nat -> Prog, used: set<nat>, all: set<nat>, n: nat, budget: real)
    requires ps % 16 == 0 && ps <= 240 && base + 512 <= n && budget >= 0.0
    requires forall i :: i in used && Within(i, base, base + 512) ==> i == base || i == base + 8
    requires used <= all && Region(base, base + 512) <= all
    requires forall r: nat :: r < 272 ==> Good(k(r), all, n, budget)
    ensures Good(TreeProg(base + ps + 8, 8, 1, k), used, n, Spend(3, budget))
  {
    assert Pow2(3) == 8;
    RegionIn(base + ps + 9, base + ps + 16, base, base + 512, all);
    TreeGood(base + ps + 8, 8, 1, 3, k, used, all, n, budget);
  }

  lemma LenHighGood(base: nat, k: nat -> Prog, used: set<nat>, all: set<nat>, n: nat, budget: real)
    requires base + 512 <= n && budget >= 0.0
    requires forall i :: i in used && Within(i, base, base + 512) ==> i == base || i == base + 8
    requires used <= all && Region(base, base + 512) <= all
    requires forall r: nat :: r < 272 ==> Good(k(r), all, n, budget)
    ensures Good(TreeProg(base + 256, 256, 1, (m: nat) => k(Minus(m, 240))), used, n, Spend(8, budget))
  {
    assert Pow2(8) == 256;
    RegionIn(base + 257, base + 512, base, base + 512, all);
    var k' := (m: nat) => k(Minus(m, 240));
    forall r: nat | 256 <= r < 512 ensures Good(k'(r), all, n, budget) {
      assert Minus(r, 240) == r - 240; assert k'(r) == k(Minus(r, 240));
    }
    TreeGood(base + 256, 256, 1, 8, k', used, all, n, budget);
  }

  lemma RegionIn(lo: nat, hi: nat, lo': nat, hi': nat, all: set<nat>)
    requires lo' <= lo && hi <= hi' && Region(lo', hi') <= all
    ensures Region(lo, hi) <= all
  {
    forall i | i in Region(lo, hi) ensures i in all { assert i in Region(lo', hi'); }
  }

  const LEFT := 16777216.0

  ghost function SlotBudget(): real { SpendDirect(26, Spend(4, LEFT)) }

  lemma {:induction false} SpendDirectGrows(d: nat, d': nat, budget: real)
    requires d <= d' && budget >= 0.0
    ensures 0.0 <= budget <= SpendDirect(d, budget) <= SpendDirect(d', budget)
    decreases d'
  {
    if d < d' { SpendDirectGrows(d, d' - 1, budget); }
    else if d > 0 { SpendDirectGrows(d - 1, d - 1, budget); }
  }

  lemma SevenDirectBits(x: real)
    ensures x >= 0.0 ==> SpendDirect(7, x) >= 67.0 * x
  {
    assert SpendDirect(1, x) == 2.01 * x;
    assert SpendDirect(3, x) == 2.01 * (2.01 * SpendDirect(1, x));
    assert SpendDirect(5, x) == 2.01 * (2.01 * SpendDirect(3, x));
    assert SpendDirect(7, x) == 2.01 * (2.01 * SpendDirect(5, x));
  }

  /** A reversed tree of at most five bits costs less than the long form. */
  lemma ReverseFitsSlot(e: nat)
    requires e <= 5
    ensures Spend(e, LEFT) <= SlotBudget()
  {
    SpendDirectGrows(7, 26, Spend(4, LEFT));
    SevenDirectBits(Spend(4, LEFT));
    if e < 5 { SpendMono(e, 5); }
  }

  lemma {:induction false} SpendMono(e: nat, e': nat)
    requires e <= e'
    ensures Spend(e, LEFT) <= Spend(e', LEFT)
    decreases e'
  {
    SpendGrows(e, LEFT);
    if e < e' { SpendMono(e, e' - 1); }
  }

  lemma SlotGood(slot: nat, k: nat -> Prog, used: set<nat>, all: set<nat>, n: nat)
    requires slot < 64 && n >= LITERAL
    requires forall i :: i in used ==> i >= IS_REP0_LONG && !Within(i, ALIGN, IS_REP)
    requires used <= all && Region(0, IS_REP0_LONG) <= all && Region(ALIGN, IS_REP) <= all
    requires forall r: nat :: r < WORD ==> Good(k(r), all, n, LEFT)
    ensures Good(SlotProg(slot, k), used, n, SlotBudget())
  {
    if slot < 4 {
      ReverseFitsSlot(0);
      GoodWeaken(k(slot), all, n, LEFT, used, SlotBudget());
    } else if slot < 14 {
      ShortSlotGood(slot, k, used, all, n);
      ReverseFitsSlot(slot / 2 - 1);
      GoodWeaken(SlotProg(slot, k), used, n, Spend(slot / 2 - 1, LEFT), used, SlotBudget());
    } else {
      LongSlotGood(slot, k, used, all, n);
      var d := slot / 2 - 5;
      SpendGrows(4, LEFT);
      SpendDirectGrows(d, 26, Spend(4, LEFT));
      GoodWeaken(SlotProg(slot, k), used, n, SpendDirect(d, Spend(4, LEFT)), used, SlotBudget());
    }
  }

  lemma ShortSlotGood(slot: nat, k: nat -> Prog, used: set<nat>, all: set<nat>, n: nat)
    requires 4 <= slot < 14 && n >= LITERAL
    requires forall i :: i in used ==> i >= IS_REP0_LONG
    requires used <= all && Region(0, IS_REP0_LONG) <= all
    requires forall r: nat :: r < WORD ==> Good(k(r), all, n, LEFT)
    ensures Good(SlotProg(slot, k), used, n, Spend(slot / 2 - 1, LEFT))
  {
    var nb := slot / 2 - 1;
    var top := 2 + slot % 2;
    assert Pow2(nb) <= 32 by { Pow2Mono(nb, 5); assert Pow2(5) == 32; }
    assert top * Pow2(nb) + Pow2(nb) <= 128;
    var k' := (v: nat) => k(top * Pow2(nb) + v);
    forall r: nat | r < Pow2(nb) ensures Good(k'(r), all, n, LEFT) {
      assert k'(r) == k(top * Pow2(nb) + r);
    }
    RegionIn(top * Pow2(nb) + 1, top * Pow2(nb) + Pow2(nb), 0, IS_REP0_LONG, all);
    ReverseGood(SPEC_POS + top * Pow2(nb), 0, 1, nb, Pow2(nb), k', used, all, n, LEFT);
  }

  lemma LongSlotGood(slot: nat, k: nat -> Prog, used: set<nat>, all: set<nat>, n: nat)
    requires 14 <= slot < 64 && n >= LITERAL
    requires forall i :: i in used ==> !Within(i, ALIGN, IS_REP)
    requires used <= all && Region(ALIGN, IS_REP) <= all
    requires forall r: nat :: r < WORD ==> Good(k(r), all, n, LEFT)
    ensures Good(SlotProg(slot, k), used, n, SpendDirect(slot / 2 - 5, Spend(4, LEFT)))
  {
    hide ReverseProg;
    var nb := slot / 2 - 1;
    var top := 2 + slot % 2;
    var k' := (d: nat) => ReverseProg(ALIGN, 0, 1, 4, (v: nat) => k(16 * d + v));
    DistanceFits(top + 1, nb - 4);
    forall d: nat | top * Pow2(nb - 4) <= d < (top + 1) * Pow2(nb - 4)
      ensures Good(k'(d), used, n, Spend(4, LEFT))
    {
      AlignGood(d, k, used, all, n);
      assert k'(d) == ReverseProg(ALIGN, 0, 1, 4, (v: nat) => k(16 * d + v));
    }
    DirectGood(nb - 4, top, k', used, n, Spend(4, LEFT));
  }

  lemma Pow2Of26()
    ensures Pow2(26) == 0x400_0000
  {
    assert Pow2(6) == 64;
    assert Pow2(7) == 128;
    Pow2Split(6, 7);
    Pow2Split(13, 13);
  }

  lemma DistanceFits(top: nat, nb: nat)
    requires top <= 4 && nb <= 26
    ensures top * Pow2(nb) <= 0x1000_0000
  {
    Pow2Mono(nb, 26);
    Pow2Of26();
    MulMono(top, 4, Pow2(nb));
  }

  lemma AlignGood(d: nat, k: nat -> Prog, used: set<nat>, all: set<nat>, n: nat)
    requires d < 0x1000_0000 && n >= LITERAL
    requires forall i :: i in used ==> !Within(i, ALIGN, IS_REP)
    requires used <= all && Region(ALIGN, IS_REP) <= all
    requires forall r: nat :: r < WORD ==> Good(k(r), all, n, LEFT)
    ensures Good(ReverseProg(ALIGN, 0, 1, 4, (v: nat) => k(16 * d + v)), used, n, Spend(4, LEFT))
  {
    var k' := (v: nat) => k(16 * d + v);
    assert Pow2(4) == 16;
    forall r: nat | r < 16 ensures Good(k'(r), all, n, LEFT) { assert k'(r) == k(16 * d + r); }
    RegionIn(ALIGN + 1, IS_REP, ALIGN, IS_REP, all);
    ReverseGood(ALIGN, 0, 1, 4, 16, k', used, all, n, LEFT);
  }

  ghost function Everything(): set<nat> { Region(0, LITERAL) }

  /** The indices that may have been used before the length is decoded. */
  ghost function BeforeLen(): set<nat> {
    Region(IS_REP0_LONG, REP_LEN_CODER) + Region(IS_MATCH, ALIGN) + Region(IS_REP, POS_SLOT)
  }

  ghost function BeforeDist(): set<nat> { BeforeLen() + Region(LEN_CODER, IS_MATCH) }

  lemma DistGood(len: nat, k: nat -> Prog, n: nat)
    requires n >= LITERAL
    requires forall r: nat :: r < WORD ==> Good(k(r), Everything(), n, LEFT)
    ensures Good(DistProg(len, k), BeforeDist(), n, Spend(6, SlotBudget()))
  {
    var base := POS_SLOT + 64 * LenState(len);
    var all := BeforeDist() + Region(POS_SLOT, LITERAL);
    var k' := (m: nat) => SlotProg(Minus(m, 64), k);
    forall m: nat | 64 <= m < 128 ensures Good(k'(m), all, n, SlotBudget()) {
      SlotGood(m - 64, k, all, Everything(), n);
      assert k'(m) == SlotProg(Minus(m, 64), k);
    }
    ReverseFitsSlot(0);
    assert Pow2(6) == 64;
    RegionIn(base + 1, base + 64, POS_SLOT, LITERAL, all);
    TreeGood(base, 64, 1, 6, k', BeforeDist(), all, n, SlotBudget());
  }

  ghost function MatchBudget(): real { Spend(10, Spend(6, SlotBudget())) }

  lemma MatchGood(ctx: Ctx, n: nat)
    requires CtxOk(ctx, n)
    ensures Good(MatchProg(ctx), BeforeLen(), n, MatchBudget())
  {
    var k := (len: nat) => DistProg(len, (dist: nat) => MatchDone(len, dist));
    forall len: nat | len < 272 ensures Good(k(len), BeforeDist(), n, Spend(6, SlotBudget())) {
      var k' := (dist: nat) => MatchDone(len, dist);
      forall r: nat | r < WORD ensures Good(k'(r), Everything(), n, LEFT) {
        assert k'(r) == MatchDone(len, r);
      }
      DistGood(len, k', n);
      assert k(len) == DistProg(len, (dist: nat) => MatchDone(len, dist));
    }
    ReverseFitsSlot(0);
    SpendGrows(6, SlotBudget());
    LenGood(LEN_CODER, ctx.posState, k, BeforeLen(), BeforeDist(), n, Spend(6, SlotBudget()));
  }

  lemma RepLenGood(ctx: Ctx, idx: nat, n: nat)
    requires CtxOk(ctx, n) && idx < 4
    ensures Good(RepLenProg(ctx, idx), BeforeLen(), n, Spend(10, LEFT))
  {
    var k := (len: nat) => RepDone(idx, len);
    forall len: nat | len < 272 ensures Good(k(len), Everything(), n, LEFT) {
      assert k(len) == RepDone(idx, len);
    }
    LenGood(REP_LEN_CODER, ctx.posState, k, BeforeLen(), Everything(), n, LEFT);
  }

  lemma LiteralGood(ctx: Ctx, n: nat)
    requires CtxOk(ctx, n)
    ensures Good(LiteralProg(ctx), BeforeLen(), n, Spend(8, LEFT))
  {
    forall r: nat, u: set<nat> {:trigger Good(LiteralDone(r), u, n, LEFT)} ensures Good(LiteralDone(r), u, n, LEFT) {}
    if ctx.state < 7 {
      assert Pow2(8) == 0x100;
      TreeGood(ctx.lit, 0x100, 1, 8, LiteralDone, BeforeLen(), BeforeLen() + Region(ctx.lit + 1, ctx.lit + 0x100), n,
               LEFT);
    } else {
      assert Pow2(8) == 0x100;
      MatchedGood(ctx.lit, ctx.matchByte, true, 1, 8, LiteralDone, BeforeLen(), n, LEFT);
    }
  }

  /** Asking one more bit, whose index precedes all that is asked later. */
  lemma AskGood(p: Prog, used: set<nat>, later: set<nat>, n: nat, b0: real, b1: real, budget: real)
    requires p.Bit? && Good(p.zero, later, n, b0) && Good(p.one, later, n, b1)
    requires p.prob < n && p.prob !in used && used + {p.prob} <= later
    requires 67.0 * b0 <= budget && 67.0 * b1 <= budget
    ensures Good(p, used, n, budget)
  {
    GoodWeaken(p.zero, later, n, b0, used + {p.prob}, budget / 67.0);
    GoodWeaken(p.one, later, n, b1, used + {p.prob}, budget / 67.0);
  }

  ghost function AfterIsRep(): set<nat> { Region(IS_MATCH, ALIGN) + Region(IS_REP, IS_REP_G0) }

  lemma RepGood(ctx: Ctx, n: nat, b: real, rep: Prog)
    requires CtxOk(ctx, n) && b >= LEFT
    requires rep.Bit? && rep.prob == IS_REP_G0 + ctx.state && rep.zero.Bit? && rep.one.Bit? && rep.one.one.Bit?
    requires rep.zero.prob == IS_REP0_LONG + ctx.posState + ctx.state && rep.zero.zero == Done(ShortRep)
    requires rep.one.prob == IS_REP_G1 + ctx.state && rep.one.one.prob == IS_REP_G2 + ctx.state
    requires Good(rep.zero.one, BeforeLen(), n, b) && Good(rep.one.zero, BeforeLen(), n, b)
    requires Good(rep.one.one.zero, BeforeLen(), n, b) && Good(rep.one.one.one, BeforeLen(), n, b)
    ensures Good(rep, AfterIsRep(), n, 300763.0 * b)
  {
    var u0 := AfterIsRep() + {IS_REP_G0 + ctx.state};
    var u1 := u0 + {IS_REP_G1 + ctx.state};
    assert u1 + {IS_REP_G2 + ctx.state} <= BeforeLen();
    assert u0 + {IS_REP0_LONG + ctx.posState + ctx.state} <= BeforeLen();
    AskGood(rep.zero, u0, BeforeLen(), n, b, b, 4489.0 * b);
    AskGood(rep.one.one, u1, BeforeLen(), n, b, b, 67.0 * b);
    GoodWeaken(rep.one.zero, BeforeLen(), n, b, u1, 67.0 * b);
    AskGood(rep.one, u0, u1, n, 67.0 * b, 67.0 * b, 4489.0 * b);
    AskGood(rep, AfterIsRep(), u0, n, 4489.0 * b, 4489.0 * b, 300763.0 * b);
  }

  ghost function SymbolBudget(): real { 67.0 * (67.0 * MatchBudget()) }

  lemma MatchIsWorst()
    ensures LEFT <= Spend(8, LEFT) <= MatchBudget()
    ensures LEFT <= Spend(10, LEFT)
    ensures 300763.0 * Spend(10, LEFT) <= MatchBudget()
  {
    ReverseFitsSlot(0);
    SpendOver(6, LEFT, SlotBudget());
    SpendOver(10, Spend(6, LEFT), Spend(6, SlotBudget()));
    SpendPlus(10, 6);
    SpendMono(8, 16);
    SpendMono(13, 16);
    SpendMono(0, 8);
    SpendMono(8, 10);
    FourBits(LEFT, 9);
  }

  lemma FourBits(x: real, d: nat)
    ensures Spend(d + 2, x) == 4489.0 * Spend(d, x)
    ensures Spend(d + 4, x) == 20151121.0 * Spend(d, x)
  {
    assert Spend(d + 1, x) == 67.0 * Spend(d, x);
    assert Spend(d + 3, x) == 67.0 * Spend(d + 2, x);
  }

  lemma {:induction false} SpendOver(e: nat, a: real, b: real)
    requires a <= b
    ensures Spend(e, a) <= Spend(e, b)
  {
    if e > 0 { SpendOver(e - 1, a, b); }
  }

  lemma {:induction false} SpendPlus(e: nat, f: nat)
    ensures Spend(e, Spend(f, LEFT)) == Spend(e + f, LEFT)
  {
    if e > 0 { SpendPlus(e - 1, f); }
  }

  lemma RepProgGood(ctx: Ctx, n: nat, b: real)
    requires CtxOk(ctx, n) && b >= LEFT
    requires Good(RepLenProg(ctx, 0), BeforeLen(), n, b) && Good(RepLenProg(ctx, 1), BeforeLen(), n, b)
    requires Good(RepLenProg(ctx, 2), BeforeLen(), n, b) && Good(RepLenProg(ctx, 3), BeforeLen(), n, b)
    ensures Good(RepProg(ctx), AfterIsRep(), n, 300763.0 * b)
  {
    RepGood(ctx, n, b, RepProg(ctx));
  }

  lemma SymbolProgGood(ctx: Ctx, n: nat, bl: real, bm: real, br: real)
    requires CtxOk(ctx, n)
    requires Good(LiteralProg(ctx), BeforeLen(), n, bl) && Good(MatchProg(ctx), BeforeLen(), n, bm)
    requires Good(RepProg(ctx), AfterIsRep(), n, br)
    requires 0.0 <= bl <= bm && br <= bm
    ensures Good(SymbolProg(ctx), {}, n, 67.0 * (67.0 * bm))
  {
    FirstBitsGood(ctx, n, SymbolProg(ctx), bl, bm, br);
  }

  /** Every path of the symbol grammar asks distinct probabilities inside the table and is paid for
      by the budget of the longest match: 22 modelled and 26 direct bits. */
  lemma SymbolGood(ctx: Ctx, n: nat)
    requires CtxOk(ctx, n)
    ensures Good(SymbolProg(ctx), {}, n, SymbolBudget())
  {
    var b := Spend(10, LEFT);
    MatchIsWorst();
    LiteralGood(ctx, n);
    RepLenGood(ctx, 0, n);
    RepLenGood(ctx, 1, n);
    RepLenGood(ctx, 2, n);
    RepLenGood(ctx, 3, n);
    MatchGood(ctx, n);
    RepProgGood(ctx, n, b);
    SymbolProgGood(ctx, n, Spend(8, LEFT), MatchBudget(), 300763.0 * b);
  }

  lemma FirstBitsGood(ctx: Ctx, n: nat, prog: Prog, bl: real, bm: real, br: real)
    requires CtxOk(ctx, n)
    requires prog.Bit? && prog.prob == IS_MATCH + ctx.posState + ctx.state
    requires prog.one.Bit? && prog.one.prob == IS_REP + ctx.state
    requires Good(prog.zero, BeforeLen(), n, bl) && Good(prog.one.zero, BeforeLen(), n, bm)
    requires Good(prog.one.one, AfterIsRep(), n, br)
    requires 0.0 <= bl <= bm && br <= bm
    ensures Good(prog, {}, n, 67.0 * (67.0 * bm))
  {
    var u := Region(IS_MATCH, ALIGN);
    GoodWeaken(prog.one.zero, BeforeLen(), n, bm, AfterIsRep(), bm);
    GoodWeaken(prog.zero, BeforeLen(), n, bl, u, 67.0 * bm);
    AskGood(prog.one, u, AfterIsRep(), n, bm, br, 67.0 * bm);
    AskGood(prog, {}, u, n, 67.0 * bm, 67.0 * bm, 67.0 * (67.0 * bm));
  }

  lemma Pow256Of20()
    ensures Pow256(20) == 0x1_0000_0000_0000_0000_0000_0000_0000_0000_0000_0000
  {
    assert Pow256(5) == 0x100_0000_0000;
    Pow256Split(5, 5);
    Pow256Split(10, 10);
  }

  /** 22 modelled bits and 26 direct bits shrink the range by less than 2^160. */
  lemma WorstSymbolFitsIn20Bytes()
    ensures SymbolBudget() <= (TOP * Pow256(20)) as real
  {
    Pow256Of20();
    assert Spend(4, LEFT) == 16777216.0 * 20151121.0;
    DirectCost();
    FourBits(SlotBudget(), 0);
    FourBits(SlotBudget(), 2);
    var x := Spend(6, SlotBudget());
    FourBits(x, 0);
    FourBits(x, 4);
    FourBits(x, 6);
  }

  lemma DirectCost()
    ensures SlotBudget() <= 76401000.0 * Spend(4, LEFT)
  {
    var x := Spend(4, LEFT);
    SpendGrows(4, LEFT);
    FourDirect(x, 0);
    FourDirect(x, 4);
    FourDirect(x, 8);
    FourDirect(x, 12);
    FourDirect(x, 16);
    FourDirect(x, 20);
    assert SpendDirect(26, x) == 2.01 * (2.01 * SpendDirect(24, x));
  }

  lemma FourDirect(x: real, d: nat)
    ensures SpendDirect(d + 4, x) == 16.32240801 * SpendDirect(d, x)
  {
    assert SpendDirect(d + 2, x) == 4.0401 * SpendDirect(d, x);
    assert SpendDirect(d + 4, x) == 4.0401 * SpendDirect(d + 2, x);
  }

  // ----- main results about one symbol -----

  /** The look-ahead: a run on frozen probabilities, then the final normalization. */
  function LookAhead(probs: seq<Prob>, input: seq<Byte>, rc: Coder, ctx: Ctx): Outcome {
    Finish(input, Run(false, probs, input, rc, SymbolProg(ctx)))
  }

  /** The decoder: a run that updates probabilities, then the final normalization. */
  function DecodeOne(probs: seq<Prob>, input: seq<Byte>, rc: Coder, ctx: Ctx): Outcome {
    Finish(input, Run(true, probs, input, rc, SymbolProg(ctx)))
  }

  function Finish(input: seq<Byte>, r: Outcome): Outcome {
    if r.Eof? then Eof else
    match Normalize(input, r.rc)
    case None => Eof
    case Some(n) => r.(rc := n)
  }

  /** The look-ahead parses the symbol that the decoder decodes and stops at the same byte. */
  lemma LookAheadIsExact(probs: seq<Prob>, input: seq<Byte>, rc: Coder, ctx: Ctx)
    requires CtxOk(ctx, |probs|)
    ensures SameParse(DecodeOne(probs, input, rc, ctx), LookAhead(probs, input, rc, ctx))
    ensures SameParse(Run(true, probs, input, rc, SymbolProg(ctx)), Run(false, probs, input, rc, SymbolProg(ctx)))
  {
    SymbolGood(ctx, |probs|);
    FrozenRunAgrees(SymbolProg(ctx), {}, SymbolBudget(), probs, probs, input, rc);
  }

  lemma {:induction false} RunAdvances(adapt: bool, prog: Prog, p: seq<Prob>, input: seq<Byte>, rc: Coder)
    ensures var r := Run(adapt, p, input, rc, prog); r.Parsed? ==> rc.pos <= r.rc.pos
    decreases prog
  {
    if !prog.Done? && Normalize(input, rc).Some? {
      var m := Advance(adapt, p, Normalize(input, rc).value, prog);
      if m.Go? { RunAdvances(adapt, m.prog, m.probs, input, m.rc); }
    }
  }

  /** Two inputs that agree on the `k` bytes after `a` and `b`. */
  ghost predicate SameBytes(x: seq<Byte>, a: nat, y: seq<Byte>, b: nat, k: nat) {
    a + k <= |x| && b + k <= |y| && x[a..a + k] == y[b..b + k]
  }

  function Moved(rc: Coder, a: nat, b: nat): Coder
    requires rc.pos >= a
  {
    rc.(pos := rc.pos - a + b)
  }

  function Shift(r: Outcome, a: nat, b: nat): Outcome
    requires r.Parsed? ==> r.rc.pos >= a
  {
    if r.Eof? then Eof else r.(rc := Moved(r.rc, a, b))
  }

  lemma NormalizeIsLocal(x: seq<Byte>, a: nat, y: seq<Byte>, b: nat, k: nat, rc: Coder)
    requires SameBytes(x, a, y, b, k) && a <= rc.pos <= a + k
    requires Normalize(x, rc).Some? && Normalize(x, rc).value.pos <= a + k
    ensures Normalize(x, rc).value.pos >= a
    ensures Normalize(y, Moved(rc, a, b)) == Some(Moved(Normalize(x, rc).value, a, b))
  {
    if rc.range < TOP {
      assert x[rc.pos] == x[a..a + k][rc.pos - a];
      assert y[rc.pos - a + b] == y[b..b + k][rc.pos - a];
    }
  }

  lemma AdvanceIsLocal(adapt: bool, p: seq<Prob>, n: Coder, prog: Prog, a: nat, b: nat)
    requires !prog.Done? && n.pos >= a
    ensures var m := Advance(adapt, p, n, prog);
            m.Go? ==> Advance(adapt, p, Moved(n, a, b), prog) == Go(m.prog, Moved(m.rc, a, b), m.probs)
  {}

  /** A run depends only on the bytes that it consumes: on any other input that has the same `k`
      bytes it gives the same result, if it stays within these bytes. */
  lemma {:induction false} RunIsLocal(adapt: bool, prog: Prog, p: seq<Prob>,
                                      x: seq<Byte>, a: nat, y: seq<Byte>, b: nat, k: nat, rc: Coder)
    requires SameBytes(x, a, y, b, k) && a <= rc.pos <= a + k
    requires Run(adapt, p, x, rc, prog).Parsed? && Run(adapt, p, x, rc, prog).rc.pos <= a + k
    ensures Run(adapt, p, x, rc, prog).rc.pos >= a
    ensures Run(adapt, p, y, Moved(rc, a, b), prog) == Shift(Run(adapt, p, x, rc, prog), a, b)
    decreases prog
  {
    if !prog.Done? {
      var n := Normalize(x, rc).value;
      var m := Advance(adapt, p, n, prog);
      RunAdvances(adapt, m.prog, m.probs, x, m.rc);
      NormalizeIsLocal(x, a, y, b, k, rc);
      AdvanceIsLocal(adapt, p, n, prog, a, b);
      RunIsLocal(adapt, m.prog, m.probs, x, a, y, b, k, m.rc);
    }
  }

  lemma FinishIsLocal(adapt: bool, prog: Prog, p: seq<Prob>,
                      x: seq<Byte>, a: nat, y: seq<Byte>, b: nat, k: nat, rc: Coder)
    requires SameBytes(x, a, y, b, k) && a <= rc.pos <= a + k
    requires Finish(x, Run(adapt, p, x, rc, prog)).Parsed? && Finish(x, Run(adapt, p, x, rc, prog)).rc.pos <= a + k
    ensures Finish(x, Run(adapt, p, x, rc, prog)).rc.pos >= rc.pos
    ensures Finish(y, Run(adapt, p, y, Moved(rc, a, b), prog)) == Shift(Finish(x, Run(adapt, p, x, rc, prog)), a, b)
  {
    RunAdvances(adapt, prog, p, x, rc);
    RunIsLocal(adapt, prog, p, x, a, y, b, k, rc);
    NormalizeIsLocal(x, a, y, b, k, Run(adapt, p, x, rc, prog).rc);
  }

  /** From a normalized range coder every symbol, with the normalization after it, takes at most 20
      bytes, whatever the probabilities. */
  lemma TwentyBytesSuffice(probs: seq<Prob>, ctx: Ctx, input: seq<Byte>, rc: Coder)
    requires CtxOk(ctx, |probs|) && rc.range >= TOP && rc.pos <= |input|
    ensures var r := DecodeOne(probs, input, rc, ctx);
            && (r.Parsed? ==> rc.pos <= r.rc.pos <= rc.pos + REQUIRED_INPUT_MAX && r.rc.pos <= |input|)
            && (rc.pos + REQUIRED_INPUT_MAX <= |input| ==> r.Parsed?)
  {
    if rc.pos + 20 <= |input| {
      TwentyBytes(probs, ctx, input, rc);
    } else {
      FinishInside(SymbolProg(ctx), probs, input, rc);
    }
  }

  lemma FinishInside(prog: Prog, p: seq<Prob>, input: seq<Byte>, rc: Coder)
    requires rc.pos <= |input|
    ensures var r := Finish(input, Run(true, p, input, rc, prog)); r.Parsed? ==> rc.pos <= r.rc.pos <= |input|
  {
    RunAdvances(true, prog, p, input, rc);
    RunInside(true, prog, p, input, rc);
  }

  lemma {:induction false} RunInside(adapt: bool, prog: Prog, p: seq<Prob>, input: seq<Byte>, rc: Coder)
    requires rc.pos <= |input|
    ensures var r := Run(adapt, p, input, rc, prog); r.Parsed? ==> r.rc.pos <= |input|
    decreases prog
  {
    if !prog.Done? && Normalize(input, rc).Some? {
      var m := Advance(adapt, p, Normalize(input, rc).value, prog);
      if m.Go? { RunInside(adapt, m.prog, m.probs, input, m.rc); }
    }
  }

  lemma TwentyBytes(probs: seq<Prob>, ctx: Ctx, input: seq<Byte>, rc: Coder)
    requires CtxOk(ctx, |probs|) && rc.range >= TOP && rc.pos + 20 <= |input|
    ensures var r := DecodeOne(probs, input, rc, ctx);
            r.Parsed? && rc.pos <= r.rc.pos <= rc.pos + 20
  {
    SymbolGood(ctx, |probs|);
    SymbolInTwenty(SymbolProg(ctx), probs, input, rc);
  }

  lemma SymbolInTwenty(prog: Prog, p: seq<Prob>, input: seq<Byte>, rc: Coder)
    requires Good(prog, {}, |p|, SymbolBudget())
    requires rc.range >= TOP && rc.pos + 20 <= |input|
    ensures var r := Finish(input, Run(true, p, input, rc, prog)); r.Parsed? && rc.pos <= r.rc.pos <= rc.pos + 20
  {
    var x := input[..rc.pos + 20];
    TwentyBytesPotential(rc, |x|);
    BudgetFinishes(prog, p, x, rc, SymbolBudget());
    FinishIsLocal(true, prog, p, x, 0, input, 0, rc.pos + 20, rc);
  }

  lemma TwentyBytesPotential(rc: Coder, end: nat)
    requires rc.range >= TOP && end == rc.pos + 20
    ensures Potential(rc, end) as real >= SymbolBudget()
  {
    hide Pow256, SymbolBudget;
    WorstSymbolFitsIn20Bytes();
    assert end - rc.pos == 20;
    MulMono(TOP, rc.range, Pow256(20));
  }

  lemma BudgetFinishes(prog: Prog, p: seq<Prob>, input: seq<Byte>, rc: Coder, budget: real)
    requires Good(prog, {}, |p|, budget)
    requires rc.range >= TOP && rc.pos <= |input| && Potential(rc, |input|) as real >= budget
    ensures var r := Finish(input, Run(true, p, input, rc, prog)); r.Parsed? && rc.pos <= r.rc.pos <= |input|
  {
    EnoughInput(true, prog, {}, budget, p, input, rc);
    NormalizeKeepsPotential(input, Run(true, p, input, rc, prog).rc);
    FinishInside(prog, p, input, rc);
  }
}
