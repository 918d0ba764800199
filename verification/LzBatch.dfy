/** The batched tree search: many positions in one loop, with a short cut for runs in which consecutive
    positions match at the same distance. It leaves the same array and the same report as the plain loop. */
module LzBatch {
  import opened Arith
  import opened BitModel
  import opened LzTree
  import opened LzSon
  import opened LzSearch

  /** The output words of one position: a count, then length and distance of each match. */
  function Words(ms: seq<Match>): (w: seq<nat>)
    ensures |w| == 1 + 2 * |ms|
  {
    [2 * |ms|] + Flat(ms)
  }

  function Flat(ms: seq<Match>): (w: seq<nat>)
    ensures |w| == 2 * |ms|
  {
    if ms == [] then [] else [ms[0].len, ms[0].dist] + Flat(ms[1..])
  }

  /** One position further, inside the cyclic buffer. */
  function Forward(r: Ring): Ring { Ring(r.pos + 1, r.cyc + 1, r.cbs, r.base) }

  /** The head of the tree, `delta` before the current position; farther than the start means none. */
  function Head(r: Ring, delta: nat): nat { Minus(r.pos, delta) }

  ghost predicate StepReady(text: seq<Byte>, r: Ring, n: nat, son: seq<nat>, delta: nat) {
    && delta > 0
    && Searchable(text, r, n, son, Head(r, delta))
    && (r.pos < r.cbs ==> delta <= r.pos <= r.cyc + 1)
  }

  ghost function StepSon(text: seq<Byte>, r: Ring, n: nat, son: seq<nat>, delta: nat, rounds: nat): seq<nat>
    requires StepReady(text, r, n, son, delta)
  {
    Descend(text, r, n, son, Head(r, delta), r.pos, r.pos, rounds)
  }

  ghost function StepMatches(text: seq<Byte>, r: Ring, n: nat, son: seq<nat>, delta: nat, rounds: nat,
                             best: nat): seq<Match>
    requires StepReady(text, r, n, son, delta)
  {
    TreeAtFalls(r, son, Head(r, delta), Cur(r));
    Matches(text, TreeAt(r, son, Head(r, delta)), Cur(r), n, rounds, best)
  }

  /** Each distance, when its turn comes, leads to a well-formed tree. */
  ghost predicate BatchReady(text: seq<Byte>, r: Ring, n: nat, son: seq<nat>, hashes: seq<nat>, i: nat, rounds: nat)
    decreases |hashes| - i
  {
    i < |hashes| ==>
      && StepReady(text, r, n, son, hashes[i])
      && BatchReady(text, Forward(r), n, StepSon(text, r, n, son, hashes[i], rounds), hashes, i + 1, rounds)
  }

  datatype Batched = Batched(son: seq<nat>, out: seq<nat>, end: nat)

  /** The plain loop: one search per position, until the distances or the room for output run out. */
  ghost function Batch(text: seq<Byte>, r: Ring, n: nat, son: seq<nat>, hashes: seq<nat>, i: nat, rounds: nat,
                       best: nat, out: seq<nat>, limit: nat): Batched
    requires BatchReady(text, r, n, son, hashes, i, rounds) && i <= |hashes|
    decreases |hashes| - i
  {
    if i == |hashes| || |out| >= limit then Batched(son, out, i) else
    Batch(text, Forward(r), n, StepSon(text, r, n, son, hashes[i], rounds), hashes, i + 1, rounds, best,
          out + Words(StepMatches(text, r, n, son, hashes[i], rounds, best)), limit)
  }

  lemma BatchStep(text: seq<Byte>, r: Ring, n: nat, son: seq<nat>, hashes: seq<nat>, i: nat, rounds: nat, best: nat,
                  out: seq<nat>, limit: nat)
    requires BatchReady(text, r, n, son, hashes, i, rounds) && i < |hashes| && |out| < limit
    ensures StepReady(text, r, n, son, hashes[i])
    ensures var next := StepSon(text, r, n, son, hashes[i], rounds);
      && BatchReady(text, Forward(r), n, next, hashes, i + 1, rounds)
      && Batch(text, r, n, son, hashes, i, rounds, best, out, limit)
         == Batch(text, Forward(r), n, next, hashes, i + 1, rounds, best,
                  out + Words(StepMatches(text, r, n, son, hashes[i], rounds, best)), limit)
  {}

  lemma BatchEnd(text: seq<Byte>, r: Ring, n: nat, son: seq<nat>, hashes: seq<nat>, i: nat, rounds: nat, best: nat,
                 out: seq<nat>, limit: nat)
    requires BatchReady(text, r, n, son, hashes, i, rounds) && i <= |hashes| && (i == |hashes| || |out| >= limit)
    ensures Batch(text, r, n, son, hashes, i, rounds, best, out, limit) == Batched(son, out, i)
  {}

  method SearchOne(buf: seq<Byte>, cur: nat, lenLimit: Word, pos: Word, son: array<Word>, cyclicBufferPos: nat,
                   cyclicBufferSize: Word, cut: Word, best: Word, delta: Word, ghost r: Ring)
    returns (ms: seq<Match>)
    requires r == Ring(pos, cyclicBufferPos, cyclicBufferSize, cur - pos) && best < lenLimit
    requires StepReady(buf, r, lenLimit, son[..], delta)
    modifies son
    ensures son[..] == StepSon(buf, r, lenLimit, old(son[..]), delta, Rounds(cut))
    ensures ms == StepMatches(buf, r, lenLimit, old(son[..]), delta, Rounds(cut), best)
  {
    hide Descend, Matches, Searchable, TreeAt;
    var head := if delta > pos then 0 else pos - delta;
    ms := GetMatchesSpec1(buf, cur, lenLimit, head, pos, son, cyclicBufferPos, cyclicBufferSize, cut, [], best);
  }

  lemma ForwardIs(r: Ring)
    ensures Forward(r) == Ring(r.pos + 1, r.cyc + 1, r.cbs, r.base)
  {}

  /** The loop as written without the short cut. */
  method SearchEach(buf: seq<Byte>, cur0: nat, lenLimit: Word, pos0: Word, son: array<Word>, cyclicBufferPos0: nat,
                    cyclicBufferSize: Word, cut: Word, best: Word, hashes: seq<Word>, d: seq<nat>, limit: nat,
                    ghost r: Ring)
    returns (out: seq<nat>, end: nat)
    requires best < lenLimit && pos0 + |hashes| < 0x1_0000_0000
    requires r == Ring(pos0, cyclicBufferPos0, cyclicBufferSize, cur0 - pos0)
    requires BatchReady(buf, r, lenLimit, son[..], hashes, 0, Rounds(cut))
    modifies son
    ensures Batched(son[..], out, end) == Batch(buf, r, lenLimit, old(son[..]), hashes, 0, Rounds(cut), best, d, limit)
  {
    hide *;
    ghost var final := Batch(buf, r, lenLimit, son[..], hashes, 0, Rounds(cut), best, d, limit);
    out, end := d, 0;
    var pos: Word, cur, cyclicBufferPos := pos0, cur0, cyclicBufferPos0;
    ghost var q := r;
    while end < |hashes| && |out| < limit
      invariant end <= |hashes| && pos == pos0 + end && cur - pos == cur0 - pos0
      invariant q == Ring(pos, cyclicBufferPos, cyclicBufferSize, r.base)
      invariant BatchReady(buf, q, lenLimit, son[..], hashes, end, Rounds(cut))
      invariant Batch(buf, q, lenLimit, son[..], hashes, end, Rounds(cut), best, out, limit) == final
      decreases |hashes| - end
    {
      var delta := hashes[end];
      BatchStep(buf, q, lenLimit, son[..], hashes, end, Rounds(cut), best, out, limit);
      var ms := SearchOne(buf, cur, lenLimit, pos, son, cyclicBufferPos, cyclicBufferSize, cut, best, delta, q);
      out := out + Words(ms);
      ForwardIs(q);
      q := Forward(q);
      pos, cur, cyclicBufferPos, end := pos + 1, cur + 1, cyclicBufferPos + 1, end + 1;
    }
    BatchEnd(buf, q, lenLimit, son[..], hashes, end, Rounds(cut), best, out, limit);
  }

  /** The part of the window that can hold a reference: before the cyclic buffer is full, less of it. */
  function WindowSize(pos: Word, cyclicBufferSize: Word): Word {
    if pos < cyclicBufferSize then pos else cyclicBufferSize
  }

  /** The tree iterations of one position, in distances. `at` is the distance of a match of full length, 0
      if there is none; `ok` would be false for links that do not fall. */
  method DeltaSearch(buf: seq<Byte>, cur: nat, lenLimit: Word, pos: Word, son: array<Word>, cyclicBufferPos: nat,
                     cyclicBufferSize: Word, cut: Word, best: Word, delta0: Word, ghost r: Ring)
    returns (ok: bool, at: Word, ms: seq<Match>)
    requires r == Ring(pos, cyclicBufferPos, cyclicBufferSize, cur - pos) && best < lenLimit
    requires StepReady(buf, r, lenLimit, son[..], delta0) && delta0 < WindowSize(pos, cyclicBufferSize)
    modifies son
    ensures ok
    ensures son[..] == StepSon(buf, r, lenLimit, old(son[..]), delta0, Rounds(cut))
    ensures ms == StepMatches(buf, r, lenLimit, old(son[..]), delta0, Rounds(cut), best)
    ensures at != 0 ==>
      at < WindowSize(pos, cyclicBufferSize) && FullMatch(buf, cur, lenLimit, at)
  {
    hide *;
    ok, at, ms := true, 0, [];
    DeltaStart(buf, r, lenLimit, son[..], delta0);
    var cbs := WindowSize(pos, cyclicBufferSize);
    ghost var w, final, total := SearchStart(buf, r, lenLimit, son[..], Head(r, delta0), Rounds(cut), best, []);
    StepIs(buf, r, lenLimit, son[..], delta0, Rounds(cut), best);
    var delta: Word := delta0;
    var ptr0: nat, ptr1: nat, len0: nat, len1: nat := 2 * cyclicBufferPos + 1, 2 * cyclicBufferPos, 0, 0;
    var cutValue: Word, maxLen: nat := cut, best;
    CountDown(cut);
    while true
      invariant 0 < delta < cbs && pos - delta == w.m && w.rounds == Rounds(cutValue) > 0
      invariant InRing(r, w.y0) && InRing(r, w.y1)
      invariant len0 == w.len0 && len1 == w.len1 && maxLen == w.best && ms == w.found
      invariant ptr1 == Hole(r, w.y0, 0) && ptr0 == Hole(r, w.y1, 1)
      invariant Progress(buf, r, lenLimit, son[..], w, final, total)
      decreases w.rounds
    {
      CountDown(cutValue);
      var curMatch: Word := pos - delta;
      WindowLow(r, delta);
      var done: bool, next: Word;
      done, next, ptr0, ptr1, len0, len1, maxLen, ms, w :=
        VisitNode(buf, cur, lenLimit, curMatch, pos, son, cyclicBufferPos, cyclicBufferSize, ptr0, ptr1, len0, len1,
                  maxLen, ms, r, w, final, total);
      if done {
        FullMatchHere(buf, r, lenLimit, curMatch, delta);
        return true, delta, ms;
      }
      if next >= curMatch {
        ok := false;
        return;
      }
      delta := pos - next;
      cutValue := Count(cutValue);
      CountDown(cutValue);
      if cutValue == 0 || delta >= cbs {
        WindowLow(r, delta);
        ProgressEnds(buf, r, lenLimit, son[..], w, final, total);
        son[ptr1] := 0;
        son[ptr0] := 0;
        return true, 0, ms;
      }
    }
  }

  /** The byte sequences at the current position and `at` before it agree on all `n` bytes. */
  ghost predicate FullMatch(buf: seq<Byte>, cur: nat, n: nat, at: nat) {
    at <= cur && cur + n <= |buf| && Agree(buf, cur - at, cur, n)
  }

  lemma FullMatchHere(buf: seq<Byte>, r: Ring, n: nat, m: nat, delta: nat)
    requires RingOk(r) && InRing(r, m) && Cur(r) + n <= |buf| && m + delta == r.pos
    requires Lcp(buf, At(r, m), Cur(r), n) == n
    ensures FullMatch(buf, Cur(r), n, delta)
  {
    LcpAgrees(buf, At(r, m), Cur(r), n);
  }

  lemma WindowLow(r: Ring, delta: nat)
    requires RingOk(r) && delta <= r.pos
    requires r.pos < 0x1_0000_0000 && r.cbs < 0x1_0000_0000
    ensures delta < WindowSize(r.pos, r.cbs) <==> r.pos - delta > Low(r)
  {}

  lemma DeltaStart(buf: seq<Byte>, r: Ring, n: nat, son: seq<nat>, delta: nat)
    requires r.pos < 0x1_0000_0000 && r.cbs < 0x1_0000_0000
    requires StepReady(buf, r, n, son, delta) && delta < WindowSize(r.pos, r.cbs)
    ensures RingOk(r) && Cur(r) == r.pos + r.base && Cur(r) + n <= |buf| && 0 < delta <= r.pos
      && Head(r, delta) == r.pos - delta && Searchable(buf, r, n, son, Head(r, delta))
  {}

  lemma StepIs(text: seq<Byte>, r: Ring, n: nat, son: seq<nat>, delta: nat, rounds: nat, best: nat)
    requires StepReady(text, r, n, son, delta)
    ensures Falling(TreeAt(r, son, Head(r, delta)), Cur(r))
    ensures StepSon(text, r, n, son, delta, rounds) == Descend(text, r, n, son, Head(r, delta), r.pos, r.pos, rounds)
    ensures StepMatches(text, r, n, son, delta, rounds, best)
         == Matches(text, TreeAt(r, son, Head(r, delta)), Cur(r), n, rounds, best)
  {
    TreeAtFalls(r, son, Head(r, delta), Cur(r));
  }

  /** A position whose tree head agrees throughout takes over the links of that head. */
  lemma LongStep(text: seq<Byte>, r: Ring, n: nat, son: seq<nat>, delta: nat, rounds: nat, best: nat)
    requires r.pos < 0x1_0000_0000 && r.cbs < 0x1_0000_0000
    requires StepReady(text, r, n, son, delta) && delta < WindowSize(r.pos, r.cbs)
    requires FullMatch(text, Cur(r), n, delta) && best < n && rounds > 0
    ensures var dest := 2 * r.cyc;
      var src := 2 * (r.cyc - delta + (if r.cyc < delta then r.cbs else 0));
      && 0 <= src && src + 1 < |son| && dest + 1 < |son|
      && StepSon(text, r, n, son, delta, rounds) == son[dest := son[src]][dest + 1 := son[src + 1]]
    ensures StepMatches(text, r, n, son, delta, rounds, best) == [Match(n, delta - 1)]
  {
    var m := Head(r, delta);
    var t := TreeAt(r, son, m);
    assert InRing(r, m) && LinksFall(r, son, m) && m + r.base == Cur(r) - delta;
    StartHoles(r);
    LcpIs(text, m + r.base, Cur(r), n, n);
    TreeAtFalls(r, son, m, Cur(r));
    assert t.Node? && t.pos == m + r.base;
    hide Lcp, LcpFrom, Agree, Hole, Sorted, Apart, Falling;
  }

  lemma EmptyStep(text: seq<Byte>, r: Ring, n: nat, son: seq<nat>, delta: nat, rounds: nat, best: nat)
    requires r.pos < 0x1_0000_0000 && r.cbs < 0x1_0000_0000
    requires StepReady(text, r, n, son, delta) && delta >= WindowSize(r.pos, r.cbs)
    ensures 2 * r.cyc + 1 < |son|
    ensures StepSon(text, r, n, son, delta, rounds) == son[2 * r.cyc := 0][2 * r.cyc + 1 := 0]
    ensures StepMatches(text, r, n, son, delta, rounds, best) == []
  {
    StartHoles(r);
    hide Hole;
  }

  lemma WordsOf(n: nat, dist: nat)
    ensures Words([]) == [0] && Words([Match(n, dist)]) == [2, n, dist]
  {
    assert Flat([Match(n, dist)]) == [n, dist] + Flat([]);
  }

  /** The match goes on by one byte: the next position and the one `at` before it agree as well. */
  lemma FullMatchGoesOn(buf: seq<Byte>, cur: nat, n: nat, at: nat)
    requires FullMatch(buf, cur, n, at) && n > 0 && cur + 1 + n <= |buf| && buf[cur + n - at] == buf[cur + n]
    ensures FullMatch(buf, cur + 1, n, at)
  {
    AgreeExtend(buf, cur - at, cur, n);
    assert buf[cur - at + 1..cur - at + 1 + n] == buf[cur - at..cur - at + n + 1][1..];
    assert buf[cur + 1..cur + 1 + n] == buf[cur..cur + n + 1][1..];
  }

  lemma ReadyFacts(text: seq<Byte>, r: Ring, n: nat, son: seq<nat>, delta: nat)
    requires StepReady(text, r, n, son, delta)
    ensures RingOk(r) && Cur(r) == r.pos + r.base && Cur(r) + n <= |text| && delta > 0
    ensures r.pos < r.cbs ==> delta <= r.pos
  {}

  /** The batched search. Output, tree array and end position are those of the plain loop, and the
      checks for broken links never fire. */
  method GetMatchesSpecN2(buf: seq<Byte>, cur0: nat, lenLimit: Word, pos0: Word, son: array<Word>,
                          cyclicBufferPos0: nat, cyclicBufferSize: Word, cut: Word, best: Word, hashes: seq<Word>,
                          d: seq<nat>, limit: nat, ghost r: Ring)
    returns (ok: bool, out: seq<nat>, end: nat)
    requires best < lenLimit && pos0 + |hashes| < 0x1_0000_0000 && |d| < limit
    requires r == Ring(pos0, cyclicBufferPos0, cyclicBufferSize, cur0 - pos0)
    requires BatchReady(buf, r, lenLimit, son[..], hashes, 0, Rounds(cut))
    modifies son
    ensures ok
    ensures Batched(son[..], out, end) == Batch(buf, r, lenLimit, old(son[..]), hashes, 0, Rounds(cut), best, d, limit)
  {
    hide *;
    ghost var final := Batch(buf, r, lenLimit, son[..], hashes, 0, Rounds(cut), best, d, limit);
    ok, out, end := true, d, 0;
    var pos: Word, cur, cyclicBufferPos := pos0, cur0, cyclicBufferPos0;
    ghost var q := r;
    while end < |hashes| && |out| < limit
      invariant ok && end <= |hashes| && pos == pos0 + end && cur - pos == cur0 - pos0
      invariant q == Ring(pos, cyclicBufferPos, cyclicBufferSize, r.base)
      invariant BatchReady(buf, q, lenLimit, son[..], hashes, end, Rounds(cut))
      invariant Batch(buf, q, lenLimit, son[..], hashes, end, Rounds(cut), best, out, limit) == final
      decreases |hashes| - end
    {
      var delta := hashes[end];
      BatchStep(buf, q, lenLimit, son[..], hashes, end, Rounds(cut), best, out, limit);
      ReadyFacts(buf, q, lenLimit, son[..], delta);
      if delta == 0 || (pos < cyclicBufferSize && delta > pos) {
        ok := false;
        return;
      }
      var at: Word := 0;
      if delta >= WindowSize(pos, cyclicBufferSize) {
        EmptyStep(buf, q, lenLimit, son[..], delta, Rounds(cut), best);
        WordsOf(0, 0);
        out := out + [0];
        son[2 * cyclicBufferPos] := 0;
        son[2 * cyclicBufferPos + 1] := 0;
      } else {
        var fine, ms;
        fine, at, ms :=
          DeltaSearch(buf, cur, lenLimit, pos, son, cyclicBufferPos, cyclicBufferSize, cut, best, delta, q);
        if !fine {
          ok := false;
          return;
        }
        out := out + Words(ms);
      }
      ForwardIs(q);
      q := Forward(q);
      if at != 0 {
        pos, cur, cyclicBufferPos, end, out, q :=
          RepeatLong(buf, cur, lenLimit, pos, son, cyclicBufferPos, cyclicBufferSize, cut, best, hashes, end, out,
                     limit, at, q, final);
      }
      pos, cur, cyclicBufferPos, end := pos + 1, cur + 1, cyclicBufferPos + 1, end + 1;
    }
    BatchEnd(buf, q, lenLimit, son[..], hashes, end, Rounds(cut), best, out, limit);
  }

  /** After a match of full length at distance `at`: as long as the next distance is the same and the match
      goes on, the next position takes the links of the node `at` before it. */
  method RepeatLong(buf: seq<Byte>, cur0: nat, lenLimit: Word, pos0: Word, son: array<Word>, cyclicBufferPos0: nat,
                    cyclicBufferSize: Word, cut: Word, best: Word, hashes: seq<Word>, i: nat, d: seq<nat>, limit: nat,
                    at: Word, ghost r: Ring, ghost final: Batched)
    returns (pos: Word, cur: nat, cyclicBufferPos: nat, end: nat, out: seq<nat>, ghost q: Ring)
    requires i < |hashes| && pos0 + |hashes| - i < 0x1_0000_0000 && best < lenLimit && cur0 - pos0 == r.base
    requires r == Ring(pos0 + 1, cyclicBufferPos0 + 1, cyclicBufferSize, r.base)
    requires 0 < at < WindowSize(pos0, cyclicBufferSize) && FullMatch(buf, cur0, lenLimit, at)
    requires BatchReady(buf, r, lenLimit, son[..], hashes, i + 1, Rounds(cut))
    requires Batch(buf, r, lenLimit, son[..], hashes, i + 1, Rounds(cut), best, d, limit) == final
    modifies son
    ensures i <= end < |hashes| && pos == pos0 + (end - i) && cur - pos == cur0 - pos0
    ensures q == Ring(pos + 1, cyclicBufferPos + 1, cyclicBufferSize, r.base)
    ensures BatchReady(buf, q, lenLimit, son[..], hashes, end + 1, Rounds(cut))
    ensures Batch(buf, q, lenLimit, son[..], hashes, end + 1, Rounds(cut), best, out, limit) == final
  {
    hide *;
    pos, cur, cyclicBufferPos, end, out, q := pos0, cur0, cyclicBufferPos0, i, d, r;
    FullMatchInside(buf, cur, lenLimit, at);
    while end + 1 != |hashes| && hashes[end + 1] == at && |out| < limit
      invariant i <= end < |hashes| && pos == pos0 + (end - i) && cur - pos == cur0 - pos0
      invariant q == Ring(pos + 1, cyclicBufferPos + 1, cyclicBufferSize, r.base)
      invariant at < WindowSize(pos, cyclicBufferSize) && FullMatch(buf, cur, lenLimit, at)
      invariant at <= cur && cur + lenLimit <= |buf|
      invariant BatchReady(buf, q, lenLimit, son[..], hashes, end + 1, Rounds(cut))
      invariant Batch(buf, q, lenLimit, son[..], hashes, end + 1, Rounds(cut), best, out, limit) == final
      decreases |hashes| - end
    {
      BatchStep(buf, q, lenLimit, son[..], hashes, end + 1, Rounds(cut), best, out, limit);
      ReadyFacts(buf, q, lenLimit, son[..], at);
      if buf[cur + lenLimit - at] != buf[cur + lenLimit] { break; }
      FullMatchGoesOn(buf, cur, lenLimit, at);
      WindowGrows(pos, cyclicBufferSize);
      CountDown(cut);
      LongStep(buf, q, lenLimit, son[..], at, Rounds(cut), best);
      var dist := at - 1;
      WordsOf(lenLimit, dist);
      out := out + [2, lenLimit, dist];
      cur, cyclicBufferPos := cur + 1, cyclicBufferPos + 1;
      var dest := 2 * cyclicBufferPos;
      var src := 2 * (cyclicBufferPos - at + (if cyclicBufferPos < at then cyclicBufferSize else 0));
      var p0, p1 := son[src], son[src + 1];
      son[dest] := p0;
      son[dest + 1] := p1;
      ForwardIs(q);
      q := Forward(q);
      pos, end := pos + 1, end + 1;
    }
  }

  lemma FullMatchInside(buf: seq<Byte>, cur: nat, n: nat, at: nat)
    requires FullMatch(buf, cur, n, at)
    ensures at <= cur && cur + n <= |buf|
  {}

  lemma WindowGrows(pos: Word, cbs: Word)
    requires pos + 1 < 0x1_0000_0000
    ensures WindowSize(pos, cbs) <= WindowSize(pos + 1, cbs)
  {}
}
