/** The RISC-V branch filter over 16-bit units. JAL calls, and AUIPC with the instruction behind it, get absolute
    targets; AUIPC that already looks like the result is escaped. The decoder finds the same places again. */
module RiscvFilter {
  import opened Arith
  import opened BitModel
  import opened RiscvWord

  function First(d: seq<Half>, p: nat): Word
    requires p + 3 < |d|
  {
    Join(d[p], d[p + 1])
  }

  function Next(d: seq<Half>, p: nat): Word
    requires p + 3 < |d|
  {
    Join(d[p + 2], d[p + 3])
  }

  function Position(pc: Word, p: nat): Word { (pc + 2 * p) % WORD }

  /** The data with other words at `p`. */
  function With(d: seq<Half>, p: nat, a: Word, b: Word): (r: seq<Half>)
    requires p + 3 < |d|
    ensures |r| == |d| && forall i :: 0 <= i < |d| && !(p <= i < p + 4) ==> r[i] == d[i]
    ensures First(r, p) == a && Next(r, p) == b
  {
    JoinParts(a, 0, 0);
    JoinParts(b, 0, 0);
    d[p := Lo(a)][p + 1 := Hi(a)][p + 2 := Lo(b)][p + 3 := Hi(b)]
  }

  /** What happens to an instruction: new words, and how far the filter goes on. */
  datatype Step = Step(a: Word, b: Word, adv: nat)

  /** What the encoder does with an instruction that starts with `h`. */
  function Encoded(h: Half, a: Word, b: Word, c: Word): (s: Step)
    ensures 1 <= s.adv <= 4
  {
    if IsJal(h) then
      if JalCall(h) then Step(JalEncoded(a, c), b, 2) else Step(a, b, 1)
    else if OtherRegister(h) then
      if Pair(h, b) then Step(PairFirst(b), PairTarget(a, b, c), 4) else Step(a, b, 3)
    else if LooksEncoded(h, a / 0x800_0000) then Step(EscapeFirst(a, b), Second(a, b), 4)
    else Step(a, b, 2)
  }

  function Decoded(h: Half, a: Word, b: Word, c: Word): (s: Step)
    ensures 1 <= s.adv <= 4
  {
    if IsJal(h) then
      if JalCall(h) then Step(JalDecoded(a, c), b, 2) else Step(a, b, 1)
    else if OtherRegister(h) then
      if Pair(h, b) then Step(PairFirst(b), UnescapeSecond(a, b), 4) else Step(a, b, 3)
    else if LooksEncoded(h, a / 0x800_0000) then
      var t := (Swap(b) + WORD - c) % WORD;
      Step(TargetFirst(a, t), Second(a, t), 4)
    else Step(a, b, 2)
  }

  function Act(encoding: bool, d: seq<Half>, p: nat, pc: Word): (s: Step)
    requires p + 3 < |d|
    ensures 1 <= s.adv <= 4
  {
    var c := Position(pc, p);
    if encoding then Encoded(d[p], First(d, p), Next(d, p), c) else Decoded(d[p], First(d, p), Next(d, p), c)
  }

  datatype End = End(data: seq<Half>, p: nat)

  /** The filter from `p`; instructions are looked for in pairs of units, and `second` says that `p` is the second
      of a pair. */
  function Run(encoding: bool, d: seq<Half>, p: nat, second: bool, pc: Word): (r: End)
    requires p <= |d| && (second ==> p + 3 <= |d|)
    ensures |r.data| == |d| && p <= r.p <= |d|
    decreases |d| - p
  {
    if !second && p + 3 >= |d| then End(d, p)
    else if !Found(d[p]) then Run(encoding, d, p + 1, !second, pc)
    else if p + 3 >= |d| then End(d, p)
    else
      var s := Act(encoding, d, p, pc);
      Run(encoding, With(d, p, s.a, s.b), p + s.adv, false, pc)
  }

  // ----- what a run leaves alone -----

  lemma {:induction false} Untouched(encoding: bool, d: seq<Half>, p: nat, second: bool, pc: Word, i: nat)
    requires p <= |d| && (second ==> p + 3 <= |d|) && i < p
    ensures Run(encoding, d, p, second, pc).data[i] == d[i]
    decreases |d| - p
  {
    hide Act, Found;
    if !second && p + 3 >= |d| {
    } else if !Found(d[p]) {
      Untouched(encoding, d, p + 1, !second, pc, i);
    } else if p + 3 < |d| {
      var s := Act(encoding, d, p, pc);
      Untouched(encoding, With(d, p, s.a, s.b), p + s.adv, false, pc, i);
    }
  }

  /** Words that do not change leave the data as it is. */
  lemma WithSame(d: seq<Half>, p: nat)
    requires p + 3 < |d|
    ensures With(d, p, First(d, p), Next(d, p)) == d
  {
    hide Join, Lo, Hi;
    JoinParts(0, d[p], d[p + 1]);
    JoinParts(0, d[p + 2], d[p + 3]);
    var r := With(d, p, First(d, p), Next(d, p));
    assert forall i :: 0 <= i < |d| ==> r[i] == d[i];
  }

  ghost predicate SameFrom(a: seq<Half>, b: seq<Half>, p: nat) {
    |a| == |b| && forall i :: p <= i < |a| ==> a[i] == b[i]
  }

  /** A run does not depend on what is before it. */
  lemma {:induction false} Local(encoding: bool, a: seq<Half>, b: seq<Half>, p: nat, second: bool, pc: Word)
    requires p <= |a| && (second ==> p + 3 <= |a|) && SameFrom(a, b, p)
    ensures var r, t := Run(encoding, a, p, second, pc), Run(encoding, b, p, second, pc);
      r.p == t.p && SameFrom(r.data, t.data, p)
    decreases |a| - p
  {
    hide Encoded, Decoded, Found, Lo, Hi, Join;
    if !second && p + 3 >= |a| {
    } else if !Found(a[p]) {
      Local(encoding, a, b, p + 1, !second, pc);
      Untouched(encoding, a, p + 1, !second, pc, p);
      Untouched(encoding, b, p + 1, !second, pc, p);
    } else if p + 3 < |a| {
      var s := Act(encoding, a, p, pc);
      assert s == Act(encoding, b, p, pc);
      var x, y := With(a, p, s.a, s.b), With(b, p, s.a, s.b);
      assert SameFrom(x, y, p);
      var q := p + s.adv;
      Local(encoding, x, y, q, false, pc);
      SamePart(encoding, x, y, p, q, pc);
    }
  }

  lemma SamePart(encoding: bool, x: seq<Half>, y: seq<Half>, p: nat, q: nat, pc: Word)
    requires p <= q <= |x| && SameFrom(x, y, p)
    requires SameFrom(Run(encoding, x, q, false, pc).data, Run(encoding, y, q, false, pc).data, q)
    ensures SameFrom(Run(encoding, x, q, false, pc).data, Run(encoding, y, q, false, pc).data, p)
  {
    hide Run;
    forall i | p <= i < q
      ensures Run(encoding, x, q, false, pc).data[i] == Run(encoding, y, q, false, pc).data[i]
    {
      Untouched(encoding, x, q, false, pc, i);
      Untouched(encoding, y, q, false, pc, i);
    }
  }

  // ----- the way back -----

  /** The four low bits of the current unit never change, because the opcode does not. */
  lemma LowBitsStay(encoding: bool, d: seq<Half>, p: nat, second: bool, pc: Word)
    requires p < |d| && (second ==> p + 3 <= |d|)
    ensures Run(encoding, d, p, second, pc).data[p] % 16 == d[p] % 16
  {
    hide Act, Found;
    if !second && p + 3 >= |d| {
    } else if !Found(d[p]) {
      Untouched(encoding, d, p + 1, !second, pc, p);
    } else if p + 3 < |d| {
      var s := Act(encoding, d, p, pc);
      Untouched(encoding, With(d, p, s.a, s.b), p + s.adv, false, pc, p);
      ActKeepsOpcode(encoding, d, p, pc);
    }
  }

  lemma ActKeepsOpcode(encoding: bool, d: seq<Half>, p: nat, pc: Word)
    requires p + 3 < |d| && Found(d[p])
    ensures With(d, p, Act(encoding, d, p, pc).a, Act(encoding, d, p, pc).b)[p] % 16 == d[p] % 16
  {
    hide Encoded, Decoded, Found, Join, Lo, Hi, With;
    var s, a := Act(encoding, d, p, pc), First(d, p);
    var r := With(d, p, s.a, s.b);
    JoinParts(0, d[p], d[p + 1]);
    JoinParts(0, r[p], r[p + 1]);
    StepKeepsLow(encoding, d[p], a, Next(d, p), Position(pc, p), s);
    LowFour(s.a);
  }

  lemma LowFour(w: Word)
    ensures Lo(w) % 16 == w % 16
  {
    ModOfMod(w, 0x1_0000, 16, 4096);
  }

  lemma StepKeepsLow(encoding: bool, h: Half, a: Word, b: Word, c: Word, s: Step)
    requires Found(h) && h == Lo(a) && s == if encoding then Encoded(h, a, b, c) else Decoded(h, a, b, c)
    ensures s.a % 16 == h % 16
  {
    hide JalEncoded, JalDecoded, PairTarget, Swap, JalCall, OtherRegister, Pair, LooksEncoded, Lo, Key, Found, IsJal,
         PairFirst,
      TargetFirst, EscapeFirst, Second, UnescapeSecond;
    LowFour(a);
    SixteenOf(a, c);
    var t := (Swap(b) + WORD - c) % WORD;
    EndsInSeven(a, b, t);
    if !IsJal(h) { AuipcEnds(h); }
  }

  lemma AuipcEnds(h: Half)
    requires Found(h) && !IsJal(h)
    ensures h % 16 == 7
  {
    KeyFields(h);
    ModOfMod(h, 128, 16, 8);
  }

  lemma SixteenOf(a: Word, c: Word)
    ensures JalEncoded(a, c) % 16 == a % 16 && JalDecoded(a, c) % 16 == a % 16
  {
    hide JalEncoded, JalDecoded;
    JalKeepsLow(a, c);
    ModOfMod(JalEncoded(a, c), 4096, 16, 256);
    ModOfMod(JalDecoded(a, c), 4096, 16, 256);
    ModOfMod(a, 4096, 16, 256);
  }

  lemma EndsInSeven(a: Word, b: Word, t: Word)
    ensures PairFirst(b) % 16 == 7 && TargetFirst(a, t) % 16 == 7 && EscapeFirst(a, b) % 16 == 7
  {
    SevenLow(PairFirst(b), b % 0x10_0000 * 256 + 0x11);
    UpperLow(a / 0x800_0000, (t + 0x800) % WORD);
    UpperLow(a / 0x800_0000, b);
  }

  lemma SevenLow(w: nat, k: nat)
    requires w == 16 * k + 7
    ensures w % 16 == 7
  {}

  lemma UpperLow(r: nat, w: Word)
    ensures (r * 128 + 0x17 + Upper(w)) % 16 == 7
  {
    UpperIs(w);
    SevenLow(r * 128 + 0x17 + Upper(w), r * 8 + 1 + 256 * (w / 4096));
  }

  /** Whether the encoder converts a JAL. */
  predicate SomeCall(d: seq<Half>, p: nat, second: bool, pc: Word)
    requires p <= |d| && (second ==> p + 3 <= |d|)
    decreases |d| - p
  {
    if !second && p + 3 >= |d| then false
    else if !Found(d[p]) then SomeCall(d, p + 1, !second, pc)
    else if p + 3 >= |d| then false
    else
      var s := Act(true, d, p, pc);
      (IsJal(d[p]) && JalCall(d[p])) || SomeCall(With(d, p, s.a, s.b), p + s.adv, false, pc)
  }

  /** Whether an instruction at `p` comes back: only JAL at an odd position does not. */
  predicate ComesBack(h: Half, pc: Word) {
    pc % 2 == 0 || !(IsJal(h) && JalCall(h))
  }

  lemma PositionParity(pc: Word, p: nat)
    ensures Position(pc, p) % 2 == pc % 2
  {
    ModOfMod(pc + 2 * p, WORD, 2, 0x8000_0000);
    DivAdd(p, pc, 2);
  }

  /** The encoder's step, seen by the decoder: it stops at the same place, and gives the words back. */
  lemma StepBack(a: Word, b: Word, c: Word)
    requires Found(Lo(a))
    ensures var s := Encoded(Lo(a), a, b, c);
      var t := Decoded(Lo(s.a), s.a, s.b, c);
      && Found(Lo(s.a)) && t.adv == s.adv && t.b == b
      && (t.a == a <==> ComesBack(Lo(a), c))
  {
    hide *;
    if IsJal(Lo(a)) {
      JalStepBack(a, b, c);
    } else {
      AuipcStepBack(a, b, c);
    }
  }

  lemma JalStepBack(a: Word, b: Word, c: Word)
    requires Found(Lo(a)) && IsJal(Lo(a))
    ensures var s := Encoded(Lo(a), a, b, c);
      var t := Decoded(Lo(s.a), s.a, s.b, c);
      && Found(Lo(s.a)) && t.adv == s.adv && t.b == b
      && (t.a == a <==> ComesBack(Lo(a), c))
  {
    hide JalEncoded, JalDecoded, Found, IsJal, JalCall, Lo;
    JalBack(a, c);
    SameJal(a, JalEncoded(a, c));
    JalKeepsLow(a, c);
    SameJal(a, JalEncoded(a, c));
  }

  lemma SameJal(a: Word, w: Word)
    ensures Found(Lo(a)) && IsJal(Lo(a)) && w % 4096 == a % 4096 ==>
      Found(Lo(w)) && IsJal(Lo(w)) && (JalCall(Lo(a)) <==> JalCall(Lo(w)))
  {
    if Found(Lo(a)) && IsJal(Lo(a)) && w % 4096 == a % 4096 {
      KeyFields(Lo(a));
      KeyFields(Lo(w));
      LowHalf(a);
      LowHalf(w);
      hide Lo, Key, Found, IsJal, JalCall;
      Fields(a);
      Fields(w);
      LowTwelve(a);
      LowTwelve(w);
      CallFields(Lo(a));
      CallFields(Lo(w));
    }
  }

  lemma LowTwelve(a: Word)
    ensures a % 128 == a % 4096 % 128 && a / 128 % 32 == a % 4096 / 128
  {
    ModOfMod(a, 4096, 128, 32);
    DivOfMod(a, 128, 32);
  }

  lemma AuipcStepBack(a: Word, b: Word, c: Word)
    requires Found(Lo(a)) && !IsJal(Lo(a))
    ensures var s := Encoded(Lo(a), a, b, c);
      var t := Decoded(Lo(s.a), s.a, s.b, c);
      && Found(Lo(s.a)) && t.adv == s.adv && t.b == b
      && (t.a == a <==> ComesBack(Lo(a), c))
  {
    hide Found, IsJal, JalCall, OtherRegister, Pair, LooksEncoded, Lo, IsPair, IsEncoded, PairFirst, PairTarget,
         EscapeFirst, Second,
      TargetFirst, UnescapeSecond, Swap, JalEncoded, JalDecoded;
    var s := Encoded(Lo(a), a, b, c);
    FoundMeans(a);
    PairMeans(a, b);
    Exclusive(a, b);
    if IsPair(a, b) {
      PairBack(a, b, c);
      Exclusive(s.a, s.b);
      FoundMeans(s.a);
      PairMeans(s.a, s.b);
    } else if IsEncoded(a) {
      EscapeBack(a, b);
      Exclusive(s.a, s.b);
      FoundMeans(s.a);
      PairMeans(s.a, s.b);
    }
  }

  lemma Exclusive(a: Word, b: Word)
    ensures !(IsPair(a, b) && IsEncoded(a))
    ensures IsPair(a, b) || IsEncoded(a) ==> a % 128 == 0x17
  {}

  /** Whether the step at `p` leaves the words alone. */
  predicate Skips(d: seq<Half>, p: nat)
    requires p + 3 < |d|
  {
    if IsJal(d[p]) then !JalCall(d[p])
    else if OtherRegister(d[p]) then !Pair(d[p], Next(d, p))
    else !LooksEncoded(d[p], First(d, p) / 0x800_0000)
  }

  lemma SkippedStep(encoding: bool, d: seq<Half>, p: nat, pc: Word)
    requires p + 3 < |d| && Skips(d, p)
    ensures var s := Act(encoding, d, p, pc);
      With(d, p, s.a, s.b) == d && s.adv == if IsJal(d[p]) then 1 else if OtherRegister(d[p]) then 3 else 2
  {
    hide IsJal, JalCall, OtherRegister, Pair, LooksEncoded, Join;
    WithSame(d, p);
  }

  /** A skipped instruction is skipped again when what is behind it has been converted. */
  lemma SkippedAgain(d: seq<Half>, p: nat, pc: Word, q: nat)
    requires p + 3 < |d| && Skips(d, p) && q == p + (if IsJal(d[p]) then 1 else if OtherRegister(d[p]) then 3 else 2)
    ensures var f := Run(true, d, q, false, pc).data;
      Skips(f, p) && f[p] == d[p] && forall i :: 0 <= i < q ==> f[i] == d[i]
  {
    hide Run, IsJal, JalCall, OtherRegister, LooksEncoded, Key;
    var f := Run(true, d, q, false, pc).data;
    forall i | 0 <= i < q ensures f[i] == d[i] { Untouched(true, d, q, false, pc, i); }
    if q == p + 3 {
      LowBitsStay(true, d, q, false, pc);
      SecondWord(d[p + 2], d[p + 3]);
      SecondWord(f[p + 2], f[p + 3]);
    }
  }

  /** The test for the second instruction reads its first unit and four bits of the other one. */
  lemma SecondWord(lo: Half, hi: Half)
    ensures Join(lo, hi) % 4 == lo % 4 && Join(lo, hi) / 0x8000 % 32 == lo / 0x8000 + 2 * (hi % 16)
  {
    var w := Join(lo, hi);
    DivAdd(0x4000 * hi, lo, 4);
    DivAdd(2 * hi, lo, 0x8000);
    var e := hi / 16;
    DivUnique(2 * hi + lo / 0x8000, e, 32);
  }

  /** Decoding behind a place that has been put back. */
  lemma Rejoined(d: seq<Half>, x: seq<Half>, f: seq<Half>, g: seq<Half>, q: nat, pc: Word)
    requires q <= |d| == |x| == |f| == |g| && SameFrom(d, x, q) && SameFrom(f, g, q)
    requires forall i :: 0 <= i < q ==> f[i] == x[i]
    ensures Run(false, g, q, false, pc).p == Run(false, f, q, false, pc).p
    ensures Run(false, g, q, false, pc).data == d <==>
      Run(false, f, q, false, pc).data == x && forall i :: 0 <= i < q ==> g[i] == d[i]
  {
    Local(false, f, g, q, false, pc);
    hide Run;
    var y, z := Run(false, f, q, false, pc).data, Run(false, g, q, false, pc).data;
    forall i | 0 <= i < q ensures y[i] == f[i] && z[i] == g[i] {
      Untouched(false, f, q, false, pc, i);
      Untouched(false, g, q, false, pc, i);
    }
  }

  /** The decoder always ends where the encoder ended; and it gives the data back if and only if the position is
      even or no JAL was converted. */
  lemma {:induction false} RoundTrip(d: seq<Half>, p: nat, second: bool, pc: Word)
    requires p <= |d| && (second ==> p + 3 <= |d|)
    ensures var r := Run(true, d, p, second, pc);
      var t := Run(false, r.data, p, second, pc);
      t.p == r.p && (t.data == d <==> pc % 2 == 0 || !SomeCall(d, p, second, pc))
    decreases |d| - p, 2
  {
    hide Act, Found, IsJal, JalCall;
    if !second && p + 3 >= |d| {
    } else if !Found(d[p]) {
      Untouched(true, d, p + 1, !second, pc, p);
      RoundTrip(d, p + 1, !second, pc);
    } else if p + 3 >= |d| {
    } else if Skips(d, p) {
      RoundTripSkipped(d, p, second, pc);
    } else {
      RoundTripConverted(d, p, second, pc);
    }
  }

  lemma RoundTripSkipped(d: seq<Half>, p: nat, second: bool, pc: Word)
    requires p + 3 < |d| && Found(d[p]) && Skips(d, p)
    ensures var r := Run(true, d, p, second, pc);
      var t := Run(false, r.data, p, second, pc);
      t.p == r.p && (t.data == d <==> pc % 2 == 0 || !SomeCall(d, p, second, pc))
    decreases |d| - p, 1
  {
    hide Act, Found, IsJal, JalCall, OtherRegister, Pair, LooksEncoded;
    SkippedStep(true, d, p, pc);
    var q := p + Act(true, d, p, pc).adv;
    SkippedAgain(d, p, pc, q);
    SkippedStep(false, Run(true, d, q, false, pc).data, p, pc);
    NoCall(d, p);
    RoundTrip(d, q, false, pc);
  }

  lemma NoCall(d: seq<Half>, p: nat)
    requires p + 3 < |d| && Skips(d, p)
    ensures !(IsJal(d[p]) && JalCall(d[p]))
  {}

  /** A conversion changes one word, or two. */
  lemma ConvertedStep(d: seq<Half>, p: nat, pc: Word, x: seq<Half>)
    requires p + 3 < |d| && !Skips(d, p)
    requires var s := Act(true, d, p, pc); x == With(d, p, s.a, s.b)
    ensures var s := Act(true, d, p, pc);
      && s.adv == (if IsJal(d[p]) then 2 else 4) && SameFrom(d, x, p + s.adv)
      && (IsJal(d[p]) ==> s.b == Next(d, p))
  {
    hide IsJal, JalCall, OtherRegister, Pair, LooksEncoded, Join;
    if IsJal(d[p]) { SecondStays(d, p, Act(true, d, p, pc).a); }
  }

  lemma SecondStays(d: seq<Half>, p: nat, a: Word)
    requires p + 3 < |d|
    ensures SameFrom(d, With(d, p, a, Next(d, p)), p + 2)
  {
    hide Join, Lo, Hi, With;
    var r := With(d, p, a, Next(d, p));
    JoinParts(0, d[p + 2], d[p + 3]);
    JoinParts(0, r[p + 2], r[p + 3]);
  }

  /** A place that has been put back. */
  lemma PutBack(d: seq<Half>, f: seq<Half>, p: nat, a: Word, b: Word, n: nat)
    requires p + 3 < |d| == |f| && (n == 2 || (n == 4 && b == Next(d, p)))
    requires forall i :: 0 <= i < p ==> f[i] == d[i]
    ensures (forall i :: 0 <= i < p + n ==> With(f, p, a, b)[i] == d[i]) <==> a == First(d, p)
  {
    hide Join, Lo, Hi, With;
    var r := With(f, p, a, b);
    JoinParts(0, d[p], d[p + 1]);
    JoinParts(0, r[p], r[p + 1]);
    JoinParts(0, d[p + 2], d[p + 3]);
    JoinParts(0, r[p + 2], r[p + 3]);
    if a == First(d, p) {
      assert r[p] == d[p] && r[p + 1] == d[p + 1];
    }
  }

  /** What the decoder makes of a converted instruction. */
  lemma SeenBack(d: seq<Half>, p: nat, pc: Word, x: seq<Half>, f: seq<Half>, q: nat)
    requires p + 3 < |d| == |f| && Found(d[p]) && !Skips(d, p)
    requires var s := Act(true, d, p, pc); x == With(d, p, s.a, s.b) && q == p + s.adv
    requires forall i :: 0 <= i < q ==> f[i] == x[i]
    ensures var t := Act(false, f, p, pc);
      var g := With(f, p, t.a, t.b);
      && Found(f[p]) && p + t.adv == q && SameFrom(f, g, q)
      && ((forall i :: 0 <= i < q ==> g[i] == d[i]) <==> ComesBack(d[p], Position(pc, p)))
  {
    hide Found, IsJal, JalCall, OtherRegister, Pair, LooksEncoded, Encoded, Decoded, Join, Lo, Hi, With, Skips;
    var c, a, s := Position(pc, p), First(d, p), Act(true, d, p, pc);
    ConvertedStep(d, p, pc, x);
    JoinParts(0, d[p], d[p + 1]);
    JoinParts(0, x[p], x[p + 1]);
    assert First(f, p) == s.a && f[p] == Lo(s.a);
    var b := if IsJal(d[p]) then Next(f, p) else Next(d, p);
    SameStep(a, Next(d, p), b, c);
    StepBack(a, b, c);
    var t := Act(false, f, p, pc);
    if IsJal(d[p]) { SecondStays(f, p, t.a); }
    PutBack(d, f, p, t.a, t.b, s.adv);
  }

  /** JAL does not look at the word behind it. */
  lemma SameStep(a: Word, b: Word, b': Word, c: Word)
    ensures IsJal(Lo(a)) ==>
      Encoded(Lo(a), a, b, c).a == Encoded(Lo(a), a, b', c).a
        && Encoded(Lo(a), a, b, c).adv == Encoded(Lo(a), a, b', c).adv
    ensures IsJal(Lo(a)) ==> Encoded(Lo(a), a, b', c).b == b'
  {
    hide IsJal, JalCall, OtherRegister, Pair, LooksEncoded, JalEncoded;
  }

  lemma RoundTripConverted(d: seq<Half>, p: nat, second: bool, pc: Word)
    requires p + 3 < |d| && Found(d[p]) && !Skips(d, p)
    ensures var r := Run(true, d, p, second, pc);
      var t := Run(false, r.data, p, second, pc);
      t.p == r.p && (t.data == d <==> pc % 2 == 0 || !SomeCall(d, p, second, pc))
    decreases |d| - p, 1
  {
    hide Found, IsJal, JalCall, OtherRegister, Pair, LooksEncoded, Act, Join, Lo, Hi, With, Skips;
    var s := Act(true, d, p, pc);
    var q, x := p + s.adv, With(d, p, s.a, s.b);
    PositionParity(pc, p);
    ConvertedStep(d, p, pc, x);
    RoundTrip(x, q, false, pc);
    var f := Run(true, x, q, false, pc).data;
    forall i | 0 <= i < q ensures f[i] == x[i] { Untouched(true, x, q, false, pc, i); }
    SeenBack(d, p, pc, x, f, q);
    var t := Act(false, f, p, pc);
    Rejoined(d, x, f, With(f, p, t.a, t.b), q, pc);
  }

  ghost predicate RoundTrips(d: seq<Half>, pc: Word) {
    Run(false, Run(true, d, 0, false, pc).data, 0, false, pc).data == d
  }

  lemma CallAtStart(d: seq<Half>, pc: Word)
    requires |d| == 4 && d[0] % 128 == 0x6F && d[0] / 128 == 1
    ensures SomeCall(d, 0, false, pc)
  {
    hide Act, Found, IsJal, JalCall, Key;
    KeyFields(d[0]);
    CallFields(d[0]);
  }

  /** A single call is lost at an odd position. */
  lemma OddPositionLosesCall(pc: Word)
    requires pc % 2 == 1
    ensures !RoundTrips([0xEF, 0, 0, 0], pc)
  {
    hide Run, Act, Join, SomeCall;
    var d: seq<Half> := [0xEF, 0, 0, 0];
    RoundTrip(d, 0, false, pc);
    CallAtStart(d, pc);
  }

  /** The filter is reversible for all data exactly at even positions. */
  lemma ReversibleIffEven(pc: Word)
    ensures (forall d: seq<Half> :: RoundTrips(d, pc)) <==> pc % 2 == 0
  {
    hide SomeCall;
    if pc % 2 == 0 {
      forall d: seq<Half>
        ensures RoundTrips(d, pc)
      {
        RoundTrip(d, 0, false, pc);
      }
    } else {
      OddPositionLosesCall(pc);
    }
  }

  // ----- many calls -----

  /** One step of a run. */
  lemma RunStep(encoding: bool, d: seq<Half>, p: nat, second: bool, pc: Word)
    requires p <= |d| && (second ==> p + 3 <= |d|)
    ensures var r := Run(encoding, d, p, second, pc);
      if !second && p + 3 >= |d| then r == End(d, p)
      else if !Found(d[p]) then r == Run(encoding, d, p + 1, !second, pc)
      else if p + 3 >= |d| then r == End(d, p)
      else
        var s := Act(encoding, d, p, pc);
        r == Run(encoding, With(d, p, s.a, s.b), p + s.adv, false, pc)
  {
    hide Act, Found, With;
  }

  /** The part of a run behind `b` is the run over the rest of the data, from the position of `b` on. */
  lemma {:induction false} RunOfRest(encoding: bool, d: seq<Half>, b: nat, p: nat, second: bool, pc: Word)
    requires b <= p <= |d| && (second ==> p + 3 <= |d|)
    ensures var r, t := Run(encoding, d, p, second, pc), Run(encoding, d[b..], p - b, second, Position(pc, b));
      r.p == b + t.p && r.data == d[..b] + t.data
    decreases |d| - p
  {
    hide *;
    var q, c := p - b, Position(pc, b);
    RunStep(encoding, d, p, second, pc);
    RunStep(encoding, d[b..], q, second, c);
    if !second && p + 3 >= |d| {
    } else if !Found(d[p]) {
      RunOfRest(encoding, d, b, p + 1, !second, pc);
    } else if p + 3 < |d| {
      var s := Act(encoding, d, p, pc);
      ActOfRest(encoding, d, b, p, q, pc);
      assert With(d, p, s.a, s.b)[..b] == d[..b];
      RunOfRest(encoding, With(d, p, s.a, s.b), b, p + s.adv, false, pc);
    }
  }

  lemma ActOfRest(encoding: bool, d: seq<Half>, b: nat, p: nat, q: nat, pc: Word)
    requires b <= p == b + q && p + 3 < |d|
    ensures var s := Act(encoding, d, p, pc);
      s == Act(encoding, d[b..], q, Position(pc, b)) && With(d, p, s.a, s.b)[b..] == With(d[b..], q, s.a, s.b)
  {
    hide Encoded, Decoded, Join, Lo, Hi;
    PositionOfRest(pc, b, q);
  }

  lemma PositionOfRest(pc: Word, b: nat, q: nat)
    ensures Position(Position(pc, b), q) == Position(pc, b + q)
  {
    var x := pc + 2 * b;
    DivAdd(x / WORD, x % WORD + 2 * q, WORD);
  }

  /** A run over the beginning of the data, continued with all data, is the run over all data. */
  lemma {:induction false} RunOfBeginning(encoding: bool, d: seq<Half>, n: nat, p: nat, second: bool, pc: Word)
    requires p <= n <= |d| && (second ==> p + 3 <= n)
    ensures var r := Run(encoding, d[..n], p, second, pc);
      Run(encoding, r.data + d[n..], r.p, false, pc) == Run(encoding, d, p, second, pc)
    decreases n - p
  {
    hide *;
    assert d[..n] + d[n..] == d;
    RunStep(encoding, d[..n], p, second, pc);
    RunStep(encoding, d, p, second, pc);
    RunStep(encoding, d, p, false, pc);
    if !second && p + 3 >= n {
    } else if !Found(d[p]) {
      RunOfBeginning(encoding, d, n, p + 1, !second, pc);
    } else if p + 3 < n {
      var s := Act(encoding, d, p, pc);
      ActOfBeginning(encoding, d, n, p, pc);
      RunOfBeginning(encoding, With(d, p, s.a, s.b), n, p + s.adv, false, pc);
    }
  }

  lemma ActOfBeginning(encoding: bool, d: seq<Half>, n: nat, p: nat, pc: Word)
    requires p + 3 < n <= |d|
    ensures var s := Act(encoding, d, p, pc);
      && s == Act(encoding, d[..n], p, pc)
      && With(d, p, s.a, s.b)[..n] == With(d[..n], p, s.a, s.b) && With(d, p, s.a, s.b)[n..] == d[n..]
  {
    hide Encoded, Decoded, Join, Lo, Hi;
  }

  /** What a caller gets who has `cuts[0]` units at hand for the first call, and so on, and everything in the last
      one: each call starts where the last one stopped, with the position moved on by what has been processed. */
  ghost function Calls(encoding: bool, d: seq<Half>, cuts: seq<nat>, pc: Word): (r: seq<Half>)
    ensures |r| == |d|
    decreases |cuts|
  {
    if cuts == [] then Run(encoding, d, 0, false, pc).data
    else
      var n := if cuts[0] < |d| then cuts[0] else |d|;
      var r := Run(encoding, d[..n], 0, false, pc);
      r.data[..r.p] + Calls(encoding, r.data[r.p..] + d[n..], cuts[1..], Position(pc, r.p))
  }

  /** However a stream is cut into calls, they compute the run over the whole stream. */
  lemma {:induction false} CallsAreOneRun(encoding: bool, d: seq<Half>, cuts: seq<nat>, pc: Word)
    ensures Calls(encoding, d, cuts, pc) == Run(encoding, d, 0, false, pc).data
    decreases |cuts|
  {
    hide Run, Position;
    if cuts != [] {
      var n := if cuts[0] < |d| then cuts[0] else |d|;
      var r := Run(encoding, d[..n], 0, false, pc);
      var e := r.data + d[n..];
      RunOfBeginning(encoding, d, n, 0, false, pc);
      RunOfRest(encoding, e, r.p, r.p, false, pc);
      assert e[r.p..] == r.data[r.p..] + d[n..] && e[..r.p] == r.data[..r.p];
      CallsAreOneRun(encoding, r.data[r.p..] + d[n..], cuts[1..], Position(pc, r.p));
    }
  }

  /** Whether a stream comes back that is encoded and decoded in any calls. */
  ghost predicate StreamBack(d: seq<Half>, cuts: seq<nat>, backCuts: seq<nat>, pc: Word) {
    Calls(false, Calls(true, d, cuts, pc), backCuts, pc) == d
  }

  /** Every stream comes back, however it is cut into calls on both sides, exactly if it starts at an even position:
      the guard of the callers on the start position is what is needed, and it is enough for all later calls. */
  lemma StreamsComeBackIffEven(pc: Word)
    ensures (forall d: seq<Half>, cuts: seq<nat>, backCuts: seq<nat> :: StreamBack(d, cuts, backCuts, pc))
       <==> pc % 2 == 0
  {
    hide Run, Calls;
    ReversibleIffEven(pc);
    forall d: seq<Half>, cuts: seq<nat>, backCuts: seq<nat>
      ensures StreamBack(d, cuts, backCuts, pc) <==> RoundTrips(d, pc)
    {
      CallsAreOneRun(true, d, cuts, pc);
      CallsAreOneRun(false, Calls(true, d, cuts, pc), backCuts, pc);
    }
    if forall d: seq<Half>, cuts: seq<nat>, backCuts: seq<nat> :: StreamBack(d, cuts, backCuts, pc) {
      forall d: seq<Half> ensures RoundTrips(d, pc) { assert StreamBack(d, [], [], pc); }
    }
  }

  // ----- the code -----

  method SetWord(data: array<Half>, p: nat, w: Word)
    requires p + 1 < data.Length
    modifies data
    ensures data[..] == old(data[..])[p := Lo(w)][p + 1 := Hi(w)]
  {
    data[p] := w % 0x1_0000;
    data[p + 1] := w / 0x1_0000;
  }

  lemma WithFirst(d: seq<Half>, p: nat, a: Word)
    requires p + 3 < |d|
    ensures With(d, p, a, Next(d, p)) == d[p := Lo(a)][p + 1 := Hi(a)]
  {
    hide Join, Lo, Hi, With;
    var r := With(d, p, a, Next(d, p));
    JoinParts(0, d[p + 2], d[p + 3]);
    JoinParts(0, r[p], r[p + 1]);
    JoinParts(0, r[p + 2], r[p + 3]);
    var t := d[p := Lo(a)][p + 1 := Hi(a)];
    assert forall i :: 0 <= i < |d| ==> r[i] == t[i];
  }

  /** The encoder at an instruction. */
  method EncodeAt(data: array<Half>, p: nat, pc: Word) returns (adv: nat)
    requires p + 3 < data.Length
    modifies data
    ensures var d := old(data[..]); var s := Act(true, d, p, pc);
      data[..] == With(d, p, s.a, s.b) && adv == s.adv
  {
    hide IsJal, JalCall, OtherRegister, Pair, LooksEncoded, JalEncoded, PairFirst, PairTarget, EscapeFirst, Second,
         Join, Lo, Hi;
    ghost var d := data[..];
    var h := data[p];
    var a, b := Join(data[p], data[p + 1]), Join(data[p + 2], data[p + 3]);
    var c := (pc + 2 * p) % WORD;
    WithSame(d, p);
    if IsJal(h) {
      if !JalCall(h) {
        return 1;
      }
      SetWord(data, p, JalEncoded(a, c));
      WithFirst(d, p, JalEncoded(a, c));
      return 2;
    }
    if OtherRegister(h) {
      if !Pair(h, b) {
        return 3;
      }
      SetWord(data, p, PairFirst(b));
      SetWord(data, p + 2, PairTarget(a, b, c));
      return 4;
    }
    if !LooksEncoded(h, a / 0x800_0000) {
      return 2;
    }
    SetWord(data, p, EscapeFirst(a, b));
    SetWord(data, p + 2, Second(a, b));
    return 4;
  }

  /** The decoder at an instruction. */
  method DecodeAt(data: array<Half>, p: nat, pc: Word) returns (adv: nat)
    requires p + 3 < data.Length
    modifies data
    ensures var d := old(data[..]); var s := Act(false, d, p, pc);
      data[..] == With(d, p, s.a, s.b) && adv == s.adv
  {
    hide IsJal, JalCall, OtherRegister, Pair, LooksEncoded, JalDecoded, PairFirst, TargetFirst, UnescapeSecond, Second,
         Swap, Join, Lo, Hi;
    ghost var d := data[..];
    var h := data[p];
    var a, b := Join(data[p], data[p + 1]), Join(data[p + 2], data[p + 3]);
    var c := (pc + 2 * p) % WORD;
    WithSame(d, p);
    if IsJal(h) {
      if !JalCall(h) {
        return 1;
      }
      SetWord(data, p, JalDecoded(a, c));
      WithFirst(d, p, JalDecoded(a, c));
      return 2;
    }
    if !OtherRegister(h) {
      if !LooksEncoded(h, a / 0x800_0000) {
        return 2;
      }
      var t := (Swap(b) + WORD - c) % WORD;
      SetWord(data, p, TargetFirst(a, t));
      SetWord(data, p + 2, Second(a, t));
      return 4;
    }
    if !Pair(h, b) {
      return 3;
    }
    SetWord(data, p, PairFirst(b));
    SetWord(data, p + 2, UnescapeSecond(a, b));
    return 4;
  }

  /** The filter over a buffer. The search looks at two units at a time. */
  method Convert(encoding: bool, data: array<Half>, pc: Word) returns (p: nat)
    modifies data
    ensures End(data[..], p) == Run(encoding, old(data[..]), 0, false, pc)
  {
    hide Found, Act;
    p := 0;
    if data.Length <= 3 { return; }
    var lim := data.Length - 3;
    while true
      invariant p <= data.Length && Run(encoding, old(data[..]), 0, false, pc) == Run(encoding, data[..], p, false, pc)
      decreases data.Length - p
    {
      if p >= lim { return; }
      if !Found(data[p]) {
        var second := Found(data[p + 1]);
        p := p + 2;
        if !second { continue; }
        p := p - 1;
        if p >= lim { return; }
      }
      var adv;
      if encoding { adv := EncodeAt(data, p, pc); } else { adv := DecodeAt(data, p, pc); }
      p := p + adv;
    }
  }
}
