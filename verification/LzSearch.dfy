/** The tree search of the match finder as the code runs it: a loop over the `son` array that starts each
    comparison where the two enclosing suffixes already agree. */
module LzSearch {
  import opened Arith
  import opened BitModel
  import opened LzTree
  import opened LzSon

  /** `cutValue` counts down before it is tested, so 0 stands for 2^32 rounds. */
  function Rounds(cutValue: Word): nat {
    if cutValue == 0 then WORD else cutValue
  }

  /** What the search knows about the subtree it is about to enter: every suffix in it lies between the
      last smaller and the last larger suffix, which share `len1` and `len0` bytes with the current one. */
  ghost predicate Enclosed(text: seq<Byte>, r: Ring, n: nat, t: Tree, y0: nat, y1: nat, len1: nat, len0: nat) {
    && RingOk(r) && InRing(r, y0) && InRing(r, y1) && Cur(r) + n <= |text|
    && Falling(t, Cur(r)) && Sorted(text, t, n)
    && len0 <= n && len1 <= n
    && (y0 == r.pos ==> len1 == 0)
    && (y0 < r.pos ==> Agree(text, y0 + r.base, Cur(r), len1) && y0 + r.base + n <= |text|
                       && AllFrom(text, Nodes(t), y0 + r.base, n))
    && (y1 == r.pos ==> len0 == 0)
    && (y1 < r.pos ==> Agree(text, y1 + r.base, Cur(r), len0) && y1 + r.base + n <= |text|
                       && AllUpTo(text, Nodes(t), y1 + r.base, n))
  }

  /** The comparison may skip the shorter of the two agreements. */
  lemma EnclosedAgrees(text: seq<Byte>, r: Ring, n: nat, t: Tree, y0: nat, y1: nat, len1: nat, len0: nat)
    requires Enclosed(text, r, n, t, y0, y1, len1, len0) && t.Node?
    ensures Agree(text, t.pos, Cur(r), if len0 < len1 then len0 else len1)
  {
    hide NotAbove;
    var k := if len0 < len1 then len0 else len1;
    if k > 0 {
      AgreeShrink(text, y0 + r.base, Cur(r), len1, k);
      AgreeShrink(text, y1 + r.base, Cur(r), len0, k);
      assert t.pos in Nodes(t);
      BetweenAgrees(text, y0 + r.base, t.pos, y1 + r.base, Cur(r), k, n);
    }
  }

  lemma EnclosedRight(text: seq<Byte>, r: Ring, n: nat, t: Tree, y0: nat, y1: nat, len1: nat, len0: nat, m: nat)
    requires Enclosed(text, r, n, t, y0, y1, len1, len0) && t.Node? && InRing(r, m) && m + r.base == t.pos
    ensures Enclosed(text, r, n, t.right, m, y1, Lcp(text, t.pos, Cur(r), n), len0)
  {
    hide NotAbove, Agree, Lcp;
    LcpAgrees(text, t.pos, Cur(r), n);
    FallingWeakens(t.right, t.pos, Cur(r));
  }

  lemma EnclosedLeft(text: seq<Byte>, r: Ring, n: nat, t: Tree, y0: nat, y1: nat, len1: nat, len0: nat, m: nat)
    requires Enclosed(text, r, n, t, y0, y1, len1, len0) && t.Node? && InRing(r, m) && m + r.base == t.pos
    ensures Enclosed(text, r, n, t.left, y0, m, len1, Lcp(text, t.pos, Cur(r), n))
  {
    hide NotAbove, Agree, Lcp;
    LcpAgrees(text, t.pos, Cur(r), n);
    FallingWeakens(t.left, t.pos, Cur(r));
  }

  lemma LcpFromStep(text: seq<Byte>, a: nat, b: nat, k: nat, n: nat)
    requires k <= n && a + n <= |text| && b + n <= |text|
    ensures LcpFrom(text, a, b, k, n)
         == if k < n && text[a + k] == text[b + k] then LcpFrom(text, a, b, k + 1, n) else k
  {}

  /** The number of equal bytes, from a start already known to agree. */
  method Compare(text: seq<Byte>, a: nat, b: nat, start: nat, n: nat) returns (len: nat)
    requires start < n && a + n <= |text| && b + n <= |text| && Agree(text, a, b, start)
    ensures len == Lcp(text, a, b, n)
  {
    LcpSkips(text, a, b, start, n);
    hide Lcp, Agree, LcpFrom;
    LcpFromStep(text, a, b, start, n);
    len := start;
    if text[a + len] == text[b + len] {
      len := len + 1;
      LcpFromStep(text, a, b, len, n);
      if len != n && text[a + len] == text[b + len] {
        len := len + 1;
        LcpFromStep(text, a, b, len, n);
        while len != n && text[a + len] == text[b + len]
          invariant start < len <= n
          invariant LcpFrom(text, a, b, start, n) == LcpFrom(text, a, b, len, n)
        {
          LcpFromStep(text, a, b, len, n);
          len := len + 1;
        }
        LcpFromStep(text, a, b, len, n);
      }
    }
  }

  /** The new value of the countdown and whether another round follows. */
  function Count(cutValue: Word): Word {
    if cutValue == 0 then 0xFFFF_FFFF else cutValue - 1
  }

  lemma CountDown(cutValue: Word)
    ensures if Count(cutValue) == 0 then Rounds(cutValue) == 1 else Rounds(Count(cutValue)) == Rounds(cutValue) - 1
    ensures Rounds(cutValue) > 0
  {}

  ghost predicate Searchable(text: seq<Byte>, r: Ring, n: nat, son: seq<nat>, m: nat) {
    && Ready(text, r, n, son, m, r.pos, r.pos)
    && Sorted(text, TreeAt(r, son, m), n)
    && Apart(TreeAt(r, son, m))
  }

  /** One visit: the node `m` is compared, hung on its side of the current suffix, and left through the
      link towards it. */
  lemma Visit(text: seq<Byte>, r: Ring, n: nat, son: seq<nat>, m: nat, y0: nat, y1: nat, len1: nat, len0: nat,
              rounds: nat, best: nat)
    requires Ready(text, r, n, son, m, y0, y1) && InRing(r, m) && rounds > 0 && best < n
    requires Enclosed(text, r, n, TreeAt(r, son, m), y0, y1, len1, len0)
    ensures LinksFall(r, son, m)
    ensures m + r.base + n <= |text| && Agree(text, m + r.base, Cur(r), if len0 < len1 then len0 else len1)
    ensures var t := TreeAt(r, son, m);
      var len := Lcp(text, m + r.base, Cur(r), n);
      var b: Side := if Below(text, m + r.base, Cur(r), n) then 0 else 1;
      var best' := if len > best then len else best;
      var found := if len > best then [Match(len, r.pos - m - 1)] else [];
      var s1, next := Hung(r, son, m, y0, y1, b), Link(r, son, m, 1 - b);
      var z0, z1 := if b == 0 then m else y0, if b == 0 then y1 else m;
      && (len == n ==>
            && Descend(text, r, n, son, m, y0, y1, rounds)
               == son[Hole(r, y0, 0) := Link(r, son, m, 0)][Hole(r, y1, 1) := Link(r, son, m, 1)]
            && Matches(text, t, Cur(r), n, rounds, best) == found && |found| == 1)
      && (len != n ==>
            && Ready(text, r, n, s1, next, z0, z1)
            && Enclosed(text, r, n, TreeAt(r, s1, next), z0, z1, if b == 0 then len else len1,
                        if b == 0 then len0 else len)
            && Descend(text, r, n, son, m, y0, y1, rounds) == Descend(text, r, n, s1, next, z0, z1, rounds - 1)
            && Matches(text, t, Cur(r), n, rounds, best)
               == found + Matches(text, TreeAt(r, s1, next), Cur(r), n, rounds - 1, best'))
  {
    hide Lcp, Below, Slot, Hole, Agree, Sorted, Enclosed;
    var t := TreeAt(r, son, m);
    EnclosedAgrees(text, r, n, t, y0, y1, len1, len0);
    EnclosedRight(text, r, n, t, y0, y1, len1, len0, m);
    EnclosedLeft(text, r, n, t, y0, y1, len1, len0, m);
    var b: Side := if Below(text, m + r.base, Cur(r), n) then 0 else 1;
    HungReady(text, r, n, son, m, y0, y1, b);
  }

  /** The state of the search: the next node, the owners of the two waiting links, what they share with the
      current suffix, the rounds left, the best length and the report so far. */
  datatype Walk = Walk(m: nat, y0: nat, y1: nat, len1: nat, len0: nat, rounds: nat, best: nat, found: seq<Match>)

  ghost predicate Walking(r: Ring, n: nat, w: Walk) {
    Owners(r, w.m, w.y0, w.y1) && InRing(r, w.y0) && InRing(r, w.y1) && w.len0 < n && w.len1 < n && w.best < n
  }

  /** The invariant of the loop: finishing the search from here gives the final array and report. */
  ghost predicate Progress(text: seq<Byte>, r: Ring, n: nat, son: seq<nat>, w: Walk, final: seq<nat>,
                           total: seq<Match>) {
    && Ready(text, r, n, son, w.m, w.y0, w.y1)
    && Enclosed(text, r, n, TreeAt(r, son, w.m), w.y0, w.y1, w.len1, w.len0)
    && Walking(r, n, w)
    && Descend(text, r, n, son, w.m, w.y0, w.y1, w.rounds) == final
    && w.found + Matches(text, TreeAt(r, son, w.m), Cur(r), n, w.rounds, w.best) == total
  }

  lemma ProgressStarts(text: seq<Byte>, r: Ring, n: nat, son: seq<nat>, m: nat, rounds: nat, best: nat, d: seq<Match>)
    requires Searchable(text, r, n, son, m) && best < n
    ensures Falling(TreeAt(r, son, m), Cur(r))
    ensures Progress(text, r, n, son, Walk(m, r.pos, r.pos, 0, 0, rounds, best, d),
                     Descend(text, r, n, son, m, r.pos, r.pos, rounds),
                     d + Matches(text, TreeAt(r, son, m), Cur(r), n, rounds, best))
  {
    hide Descend, Matches;
    TreeAtFalls(r, son, m, Cur(r));
  }

  ghost function Reported(r: Ring, w: Walk, len: nat): seq<Match>
    requires w.m < r.pos
  {
    if len > w.best then w.found + [Match(len, r.pos - w.m - 1)] else w.found
  }

  lemma ReportedIs(r: Ring, w: Walk, len: nat, dist: nat)
    requires w.m < r.pos && dist == r.pos - w.m - 1
    ensures Reported(r, w, len) == if len > w.best then w.found + [Match(len, dist)] else w.found
  {}

  /** The walk after visiting `w.m`, which shares `len` bytes and comes before the current suffix or not. */
  ghost function Visited(r: Ring, son: seq<nat>, w: Walk, len: nat, less: bool): Walk
    requires Shape(r, son) && InRing(r, w.m) && w.m < r.pos && w.rounds > 0
  {
    var best, found := if len > w.best then len else w.best, Reported(r, w, len);
    if less then Walk(Link(r, son, w.m, 1), w.m, w.y1, len, w.len0, w.rounds - 1, best, found)
    else Walk(Link(r, son, w.m, 0), w.y0, w.m, w.len1, len, w.rounds - 1, best, found)
  }

  /** The array after visiting `w.m`. */
  ghost function Linked(r: Ring, son: seq<nat>, w: Walk, less: bool): seq<nat>
    requires Shape(r, son) && InRing(r, w.y0) && InRing(r, w.y1)
  {
    Hung(r, son, w.m, w.y0, w.y1, if less then 0 else 1)
  }

  function At(r: Ring, m: nat): nat
    requires RingOk(r) && m > 0
  {
    m + r.base
  }

  lemma ProgressStep(text: seq<Byte>, r: Ring, n: nat, son: seq<nat>, w: Walk, final: seq<nat>, total: seq<Match>)
    requires Progress(text, r, n, son, w, final, total) && w.m > Low(r) && w.rounds > 0
    ensures Shape(r, son) && InRing(r, w.m) && w.m < r.pos && Walking(r, n, w)
    ensures At(r, w.m) + n <= |text| && Agree(text, At(r, w.m), Cur(r), if w.len0 < w.len1 then w.len0 else w.len1)
    ensures var len := Lcp(text, At(r, w.m), Cur(r), n);
      if len == n then
        && final == son[Hole(r, w.y0, 0) := Link(r, son, w.m, 0)][Hole(r, w.y1, 1) := Link(r, son, w.m, 1)]
        && total == Reported(r, w, len)
      else
        var less := Below(text, At(r, w.m), Cur(r), n);
        Progress(text, r, n, Linked(r, son, w, less), Visited(r, son, w, len, less), final, total)
  {
    hide Lcp, Below, Slot, Hole, Hung, Link, Agree, Sorted, Enclosed, Descend, Matches;
    Visit(text, r, n, son, w.m, w.y0, w.y1, w.len1, w.len0, w.rounds, w.best);
  }

  lemma OlderThanCurrent(text: seq<Byte>, r: Ring, n: nat, son: seq<nat>, w: Walk, final: seq<nat>, total: seq<Match>)
    requires Progress(text, r, n, son, w, final, total)
    ensures w.m < r.pos && w.m < w.y0 && w.m < w.y1
  {}

  lemma NodeHere(r: Ring, m: nat)
    requires RingOk(r) && Low(r) < m < r.pos
    ensures InRing(r, m) && Cur(r) == r.pos + r.base && At(r, m) == Cur(r) - (r.pos - m)
    ensures 2 * (r.cyc - (r.pos - m) + (if r.cyc < r.pos - m then r.cbs else 0)) == 2 * Slot(r, m)
  {}

  /** Everything the code needs to know to visit node `w.m`, where `x` and `cur` are the two suffixes. */
  lemma NodeFacts(text: seq<Byte>, r: Ring, n: nat, son: seq<nat>, w: Walk, final: seq<nat>, total: seq<Match>,
                  x: nat, cur: nat)
    requires Progress(text, r, n, son, w, final, total) && w.m > Low(r) && w.rounds > 0
    requires x == At(r, w.m) && cur == Cur(r)
    ensures Shape(r, son) && InRing(r, w.m) && w.m < r.pos && Walking(r, n, w)
    ensures x + n <= |text| && cur + n <= |text| && Agree(text, x, cur, if w.len0 < w.len1 then w.len0 else w.len1)
    ensures var len := Lcp(text, x, cur, n);
      && (len == n ==>
            final == son[Hole(r, w.y0, 0) := Link(r, son, w.m, 0)][Hole(r, w.y1, 1) := Link(r, son, w.m, 1)]
            && total == Reported(r, w, len))
      && (len < n ==>
            var less := text[x + len] < text[cur + len];
            Progress(text, r, n, Linked(r, son, w, less), Visited(r, son, w, len, less), final, total))
  {
    assert Cur(r) + n <= |text|;
    hide *;
    ProgressStep(text, r, n, son, w, final, total);
    BelowIs(text, x, cur, n);
  }

  lemma WalkFacts(r: Ring, n: nat, son: seq<nat>, w: Walk, len: nat, less: bool)
    requires Shape(r, son) && InRing(r, w.m) && w.m < r.pos && Walking(r, n, w) && w.rounds > 0
    ensures w.best < n && w.len0 < n && w.len1 < n && InRing(r, w.y0) && InRing(r, w.y1)
    ensures var v := Visited(r, son, w, len, less);
      v.rounds == w.rounds - 1 && v.best == (if len > w.best then len else w.best) && v.found == Reported(r, w, len)
      && (v.y0 == w.m || v.y1 == w.m)
  {}

  lemma ProgressEnds(text: seq<Byte>, r: Ring, n: nat, son: seq<nat>, w: Walk, final: seq<nat>, total: seq<Match>)
    requires Progress(text, r, n, son, w, final, total) && (w.m <= Low(r) || w.rounds == 0)
    ensures Shape(r, son) && Walking(r, n, w) && InRing(r, w.y0) && InRing(r, w.y1)
    ensures Hole(r, w.y0, 0) < |son| && Hole(r, w.y1, 1) < |son|
    ensures final == son[Hole(r, w.y0, 0) := 0][Hole(r, w.y1, 1) := 0] && total == w.found
  {
    hide Lcp, Below, Slot, Hole, Hung, Link, Agree, Sorted, Enclosed;
  }

  lemma PairFacts(r: Ring, son: seq<nat>, m: nat, y0: nat, y1: nat)
    requires Shape(r, son) && Owners(r, m, y0, y1) && InRing(r, m) && m < r.pos
    ensures var delta := r.pos - m;
      var pair := 2 * (r.cyc - delta + (if r.cyc < delta then r.cbs else 0));
      && 0 <= pair && pair + 1 < |son|
      && Hole(r, m, 0) == pair + 1 && Hole(r, m, 1) == pair
      && Link(r, son, m, 0) == son[pair] && Link(r, son, m, 1) == son[pair + 1]
      && Hole(r, y0, 0) != pair && Hole(r, y0, 0) != pair + 1
      && Hole(r, y1, 1) != pair && Hole(r, y1, 1) != pair + 1
      && Hole(r, y0, 0) != Hole(r, y1, 1)
  {
    SlotsDiffer(r, m, y0);
    SlotsDiffer(r, m, y1);
    SlotsDiffer(r, y0, y1);
  }

  lemma BelowIs(text: seq<Byte>, a: nat, b: nat, n: nat)
    requires a + n <= |text| && b + n <= |text|
    ensures var len := Lcp(text, a, b, n);
      len < n ==> (Below(text, a, b, n) <==> text[a + len] < text[b + len])
  {}

  lemma StartHoles(r: Ring)
    requires RingOk(r)
    ensures Hole(r, r.pos, 0) == 2 * r.cyc && Hole(r, r.pos, 1) == 2 * r.cyc + 1
  {}

  /** Hangs node `w.m` into the waiting link of its side and moves that side's pointer to the far link of
      the node; the search goes on through that link. */
  method Hang(son: array<Word>, less: bool, m: Word, pair: nat, ptr0: nat, ptr1: nat, len: nat, len0: nat, len1: nat,
              ghost r: Ring, ghost n: nat, ghost w: Walk, ghost v: Walk, ghost linked: seq<nat>)
    returns (next: Word, to0: nat, to1: nat, lenTo0: nat, lenTo1: nat)
    requires Shape(r, son[..]) && Walking(r, n, w) && InRing(r, m) && m < r.pos && pair == 2 * Slot(r, m)
    requires ptr1 == Hole(r, w.y0, 0) && ptr0 == Hole(r, w.y1, 1) && w.m == m && w.rounds > 0
    requires len0 == w.len0 && len1 == w.len1
    requires v == Visited(r, son[..], w, len, less) && linked == Linked(r, son[..], w, less)
    modifies son
    ensures son[..] == linked
    ensures
      && next == v.m && InRing(r, v.y0) && InRing(r, v.y1)
      && to1 == Hole(r, v.y0, 0) && to0 == Hole(r, v.y1, 1) && lenTo1 == v.len1 && lenTo0 == v.len0
  {
    PairFacts(r, son[..], m, w.y0, w.y1);
    to0, to1, lenTo0, lenTo1 := ptr0, ptr1, len0, len1;
    if less {
      son[ptr1] := m;
      next := son[pair + 1];
      to1, lenTo1 := pair + 1, len;
    } else {
      son[ptr0] := m;
      next := son[pair];
      to0, lenTo0 := pair, len;
    }
  }

  /** A suffix that agrees throughout gives up its place: its links become those of the current one. */
  method PassOn(son: array<Word>, pair: nat, ptr0: nat, ptr1: nat, ghost r: Ring, ghost n: nat, ghost w: Walk)
    requires Shape(r, son[..]) && Walking(r, n, w) && InRing(r, w.m) && w.m < r.pos && pair == 2 * Slot(r, w.m)
    requires ptr1 == Hole(r, w.y0, 0) && ptr0 == Hole(r, w.y1, 1)
    modifies son
    ensures var was: seq<nat> := old(son[..]);
      son[..] == was[Hole(r, w.y0, 0) := Link(r, was, w.m, 0)][Hole(r, w.y1, 1) := Link(r, was, w.m, 1)]
  {
    PairFacts(r, son[..], w.m, w.y0, w.y1);
    var pair0 := son[pair];
    son[ptr1] := pair0;
    son[ptr0] := son[pair + 1];
  }

  /** Visits one node. `done` says that it agrees with the current suffix throughout, and the search is over. */
  method VisitNode(buf: seq<Byte>, cur: nat, lenLimit: Word, curMatch: Word, pos: Word, son: array<Word>,
                   cyclicBufferPos: nat, cyclicBufferSize: Word, ptr0: nat, ptr1: nat, len0: nat, len1: nat,
                   maxLen: nat, d: seq<Match>,
                   ghost r: Ring, ghost w: Walk, ghost final: seq<nat>, ghost total: seq<Match>)
    returns (done: bool, next: Word, to0: nat, to1: nat, lenTo0: nat, lenTo1: nat, best: nat, distances: seq<Match>,
             ghost v: Walk)
    requires r == Ring(pos, cyclicBufferPos, cyclicBufferSize, cur - pos) && RingOk(r) && curMatch > 0
    requires Progress(buf, r, lenLimit, son[..], w, final, total) && w.m > Low(r) && w.rounds > 0
    requires InRing(r, w.y0) && InRing(r, w.y1)
    requires ptr1 == Hole(r, w.y0, 0) && ptr0 == Hole(r, w.y1, 1)
    requires len0 == w.len0 && len1 == w.len1 && maxLen == w.best && curMatch == w.m && d == w.found
    modifies son
    ensures done ==> son[..] == final && distances == total && Lcp(buf, At(r, curMatch), cur, lenLimit) == lenLimit
    ensures done ==> InRing(r, curMatch) && curMatch < pos
    ensures !done ==>
      && InRing(r, v.y0) && InRing(r, v.y1) && v.rounds == w.rounds - 1 && next < curMatch
      && to1 == Hole(r, v.y0, 0) && to0 == Hole(r, v.y1, 1)
      && lenTo0 == v.len0 && lenTo1 == v.len1 && best == v.best && next == v.m && distances == v.found
      && Progress(buf, r, lenLimit, son[..], v, final, total)
  {
    hide *;
    OlderThanCurrent(buf, r, lenLimit, son[..], w, final, total);
    ghost var was: seq<nat> := son[..];
    NodeHere(r, curMatch);
    var delta := pos - curMatch;
    var pair := 2 * (cyclicBufferPos - delta + (if cyclicBufferPos < delta then cyclicBufferSize else 0));
    var pb := cur - delta;
    var dist := delta - 1;
    assert pb == At(r, w.m) && cur == Cur(r);
    NodeFacts(buf, r, lenLimit, was, w, final, total, pb, cur);
    ReportedIs(r, w, Lcp(buf, pb, cur, lenLimit), dist);
    WalkFacts(r, lenLimit, was, w, Lcp(buf, pb, cur, lenLimit), true);
    WalkFacts(r, lenLimit, was, w, Lcp(buf, pb, cur, lenLimit), false);
    var start := if len0 < len1 then len0 else len1;
    var len := Compare(buf, pb, cur, start, lenLimit);
    done, v, next, to0, to1, lenTo0, lenTo1 := false, w, curMatch, ptr0, ptr1, len0, len1;
    best, distances := maxLen, d;
    if maxLen < len {
      best := len;
      distances := distances + [Match(len, dist)];
      if len == lenLimit {
        PassOn(son, pair, ptr0, ptr1, r, lenLimit, w);
        done := true;
        return;
      }
    }
    var less := buf[pb + len] < buf[cur + len];
    ghost var linked: seq<nat> := Linked(r, was, w, less);
    v := Visited(r, was, w, len, less);
    next, to0, to1, lenTo0, lenTo1 :=
      Hang(son, less, curMatch, pair, ptr0, ptr1, len, len0, len1, r, lenLimit, w, v, linked);
    OlderThanCurrent(buf, r, lenLimit, linked, v, final, total);
  }

  lemma SearchStart(text: seq<Byte>, r: Ring, n: nat, son: seq<nat>, m: nat, rounds: nat, best: nat, d: seq<Match>)
    returns (w: Walk, final: seq<nat>, total: seq<Match>)
    requires Searchable(text, r, n, son, m) && best < n
    ensures RingOk(r) && InRing(r, r.pos) && Low(r) == if r.pos < r.cbs then 0 else r.pos - r.cbs
    ensures Falling(TreeAt(r, son, m), Cur(r)) && Cur(r) == r.pos + r.base
    ensures w == Walk(m, r.pos, r.pos, 0, 0, rounds, best, d)
    ensures final == Descend(text, r, n, son, m, r.pos, r.pos, rounds)
    ensures total == d + Matches(text, TreeAt(r, son, m), Cur(r), n, rounds, best)
    ensures Progress(text, r, n, son, w, final, total)
    ensures Hole(r, r.pos, 0) == 2 * r.cyc && Hole(r, r.pos, 1) == 2 * r.cyc + 1
  {
    StartHoles(r);
    ProgressStarts(text, r, n, son, m, rounds, best, d);
    hide Descend, Matches, TreeAt, Progress, Hole, Falling;
    w := Walk(m, r.pos, r.pos, 0, 0, rounds, best, d);
    final := Descend(text, r, n, son, m, r.pos, r.pos, rounds);
    total := d + Matches(text, TreeAt(r, son, m), Cur(r), n, rounds, best);
  }

  /** Inserts the current position into the tree below `head` and appends the matches longer than
      `best` to `d`. The two pointers walk down the two inner borders of the split tree. */
  method GetMatchesSpec1(buf: seq<Byte>, cur: nat, lenLimit: Word, head: Word, pos: Word, son: array<Word>,
                         cyclicBufferPos: nat, cyclicBufferSize: Word, cut: Word, d: seq<Match>, best: Word)
    returns (distances: seq<Match>)
    requires Searchable(buf, Ring(pos, cyclicBufferPos, cyclicBufferSize, cur - pos), lenLimit, son[..], head)
    requires best < lenLimit
    modifies son
    ensures var r := Ring(pos, cyclicBufferPos, cyclicBufferSize, cur - pos);
      && Falling(TreeAt(r, old(son[..]), head), cur)
      && son[..] == Descend(buf, r, lenLimit, old(son[..]), head, pos, pos, Rounds(cut))
      && distances == d + Matches(buf, TreeAt(r, old(son[..]), head), cur, lenLimit, Rounds(cut), best)
  {
    hide *;
    ghost var r := Ring(pos, cyclicBufferPos, cyclicBufferSize, cur - pos);
    ghost var w, final, total := SearchStart(buf, r, lenLimit, son[..], head, Rounds(cut), best, d);
    CountDown(cut);
    distances := d;
    var ptr0: nat, ptr1: nat, len0: nat, len1: nat := 2 * cyclicBufferPos + 1, 2 * cyclicBufferPos, 0, 0;
    var cutValue: Word, curMatch: Word, maxLen: nat := cut, head, best;
    var cmCheck := if pos < cyclicBufferSize then 0 else pos - cyclicBufferSize;
    var more := cmCheck < curMatch;
    while more
      invariant InRing(r, w.y0) && InRing(r, w.y1)
      invariant len0 == w.len0 && len1 == w.len1 && maxLen == w.best && curMatch == w.m && distances == w.found
      invariant ptr1 == Hole(r, w.y0, 0) && ptr0 == Hole(r, w.y1, 1)
      invariant Progress(buf, r, lenLimit, son[..], w, final, total)
      invariant if more then w.rounds == Rounds(cutValue) && 0 <= cmCheck < curMatch
                else w.rounds == 0 || curMatch <= cmCheck
      decreases w.rounds, more
    {
      CountDown(cutValue);
      var done: bool;
      done, curMatch, ptr0, ptr1, len0, len1, maxLen, distances, w :=
        VisitNode(buf, cur, lenLimit, curMatch, pos, son, cyclicBufferPos, cyclicBufferSize, ptr0, ptr1, len0, len1,
                  maxLen, distances, r, w, final, total);
      if done { return; }
      cutValue := Count(cutValue);
      more := cutValue != 0 && cmCheck < curMatch;
    }
    ProgressEnds(buf, r, lenLimit, son[..], w, final, total);
    son[ptr1] := 0;
    son[ptr0] := 0;
  }

  /** The same walk when the report is not wanted. */
  method SkipMatchesSpec(buf: seq<Byte>, cur: nat, lenLimit: Word, head: Word, pos: Word, son: array<Word>,
                         cyclicBufferPos: nat, cyclicBufferSize: Word, cut: Word)
    requires Searchable(buf, Ring(pos, cyclicBufferPos, cyclicBufferSize, cur - pos), lenLimit, son[..], head)
    requires lenLimit > 0
    modifies son
    ensures son[..] == Descend(buf, Ring(pos, cyclicBufferPos, cyclicBufferSize, cur - pos), lenLimit, old(son[..]),
                               head, pos, pos, Rounds(cut))
  {
    hide *;
    ghost var r := Ring(pos, cyclicBufferPos, cyclicBufferSize, cur - pos);
    ghost var w, final, total := SearchStart(buf, r, lenLimit, son[..], head, Rounds(cut), 0, []);
    CountDown(cut);
    var ptr0: nat, ptr1: nat, len0: nat, len1: nat := 2 * cyclicBufferPos + 1, 2 * cyclicBufferPos, 0, 0;
    var cutValue: Word, curMatch: Word, best: nat, found: seq<Match> := cut, head, 0, [];
    var cmCheck := if pos < cyclicBufferSize then 0 else pos - cyclicBufferSize;
    var more := cmCheck < curMatch;
    while more
      invariant InRing(r, w.y0) && InRing(r, w.y1)
      invariant len0 == w.len0 && len1 == w.len1 && best == w.best && curMatch == w.m && found == w.found
      invariant ptr1 == Hole(r, w.y0, 0) && ptr0 == Hole(r, w.y1, 1)
      invariant Progress(buf, r, lenLimit, son[..], w, final, total)
      invariant if more then w.rounds == Rounds(cutValue) && 0 <= cmCheck < curMatch
                else w.rounds == 0 || curMatch <= cmCheck
      decreases w.rounds, more
    {
      CountDown(cutValue);
      var done: bool;
      done, curMatch, ptr0, ptr1, len0, len1, best, found, w :=
        VisitNode(buf, cur, lenLimit, curMatch, pos, son, cyclicBufferPos, cyclicBufferSize, ptr0, ptr1, len0, len1,
                  best, found, r, w, final, total);
      if done { return; }
      cutValue := Count(cutValue);
      more := cutValue != 0 && cmCheck < curMatch;
    }
    ProgressEnds(buf, r, lenLimit, son[..], w, final, total);
    son[ptr1] := 0;
    son[ptr0] := 0;
  }
}
