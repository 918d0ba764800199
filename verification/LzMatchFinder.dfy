/** The match finder object: a position in the input, a hash table and the trees below its heads. */
module LzMatchFinder {
  import opened Arith
  import opened BitModel
  import opened LzTree
  import opened LzSon
  import opened LzHash
  import opened LzForest
  import opened LzReport
  import opened LzNormal
  import opened LzSearch

  const NUM_HASH_BYTES := 4

  function Min(a: nat, b: nat): nat { if a < b then a else b }

  /** The difference of two 32-bit counters. */
  function Gap(a: Word, b: Word): Word {
    if a >= b then a - b else a - b + WORD
  }

  function Bump(a: Word): Word { if a == WORD - 1 then 0 else a + 1 }

  /** Sizes fixed when the finder is created: the input, the cyclic buffer, the longest match, and the
      look-ahead below which more input is read. */
  datatype Config = Config(size: nat, cbs: Word, matchMaxLen: Word, keepSizeAfter: Word)

  predicate ConfigOk(g: Config) {
    2 <= g.cbs && NUM_HASH_BYTES <= g.keepSizeAfter < WORD - 1 && g.matchMaxLen <= g.keepSizeAfter
  }

  /** The moving part of the position: `left` steps remain until the limits are computed again. */
  datatype Cursor = Cursor(buffer: nat, pos: Word, cyc: nat, avail: nat, left: nat, lenLimit: nat, rem: nat)

  /** The limits are computed ahead for several steps; they are never stale. */
  predicate CursorOk(g: Config, c: Cursor) {
    && InputOk(g, c)
    && c.lenLimit == Min(g.matchMaxLen, g.size - c.buffer)
    && c.cyc < g.cbs
    && (c.buffer < g.size ==> c.left >= 1)
    && LimitOk(g, c)
    && (c.pos == 0 ==> c.avail < NUM_HASH_BYTES)
  }

  predicate InputOk(g: Config, c: Cursor) {
    && c.buffer + c.avail + c.rem == g.size
    && (c.rem > 0 ==> c.avail > g.keepSizeAfter)
    && c.avail < WORD
  }

  predicate LimitOk(g: Config, c: Cursor) {
    && c.pos + c.left <= WORD
    && c.cyc + c.left <= g.cbs
    && (c.avail > g.keepSizeAfter ==> c.left <= c.avail - g.keepSizeAfter)
    && (g.matchMaxLen <= c.avail <= g.keepSizeAfter ==> c.left <= c.avail - g.matchMaxLen + 1)
    && (c.avail < g.matchMaxLen ==> c.left <= 1)
  }

  /** A step that does not reach the limit keeps the limits valid, without looking at them. */
  lemma StepWithinLimit(g: Config, c: Cursor)
    requires ConfigOk(g) && CursorOk(g, c) && c.buffer < g.size && c.left > 1
    ensures c.pos + 1 < WORD && c.cyc + 1 < g.cbs && c.avail > 0 && c.lenLimit == g.matchMaxLen
    ensures CursorOk(g, Cursor(c.buffer + 1, c.pos + 1, c.cyc + 1, c.avail - 1, c.left - 1, c.lenLimit, c.rem))
  {}

  class MatchFinder {
    const data: seq<Byte>
    const hs: Hasher
    const historySize: Word
    const cyclicBufferSize: Word
    const matchMaxLen: Word
    const keepSizeAfter: Word
    const cutValue: Word
    const hash: array<Word>
    const son: array<Word>
    var buffer: nat
    var pos: Word
    var posLimit: Word
    var streamPos: Word
    var lenLimit: Word
    var cyclicBufferPos: nat
    var streamEndWasReached: bool
    var directInputRem: nat

    ghost predicate Fixed() {
      && ConfigOk(Settings())
      && cyclicBufferSize == historySize + 1
      && hs.size > 0
      && son.Length == 2 * cyclicBufferSize
      && hash.Length == FIX4_HASH_SIZE + hs.size
      && son != hash
    }

    ghost function Settings(): Config {
      Config(|data|, cyclicBufferSize, matchMaxLen, keepSizeAfter)
    }

    function Avail(): Word
      reads `streamPos, `pos
    {
      Gap(streamPos, pos)
    }

    ghost function Position(): Cursor
      reads this
    {
      Cursor(buffer, pos, cyclicBufferPos, Avail(), Gap(posLimit, pos), lenLimit, directInputRem)
    }

    /** The searches are long enough never to be cut off. */
    predicate Full() { Rounds(cutValue) >= cyclicBufferSize }

    ghost function Forest(top: nat): Finder
      reads `pos, `buffer, `cyclicBufferPos, `lenLimit, son, hash
    {
      Finder(hs, data, Ring(pos, cyclicBufferPos, cyclicBufferSize, buffer - pos), son[..], hash[..], top, lenLimit)
    }

    /** Once fewer than four bytes can match, nothing is searched any more and the tables are left alone. */
    ghost predicate Valid()
      reads this, son, hash
    {
      && Fixed()
      && CursorOk(Settings(), Position())
      && (directInputRem == 0 <==> streamEndWasReached)
      && (lenLimit >= NUM_HASH_BYTES ==> ForestOk(Forest(pos), Full()))
    }

    method ReadBlock()
      requires buffer + Avail() + directInputRem == |data| && (streamEndWasReached ==> directInputRem == 0)
      modifies `streamPos, `directInputRem, `streamEndWasReached
      ensures buffer + Avail() + directInputRem == |data|
      ensures streamEndWasReached <==> directInputRem == 0
      ensures directInputRem > 0 ==> Avail() == WORD - 1
      ensures old(directInputRem) == 0 ==> Avail() == old(Avail())
      ensures Avail() >= old(Avail())
    {
      if streamEndWasReached { return; }
      var curSize: nat := 0xFFFF_FFFF - Avail();
      if curSize > directInputRem { curSize := directInputRem; }
      streamPos := if streamPos + curSize >= WORD then streamPos + curSize - WORD else streamPos + curSize;
      directInputRem := directInputRem - curSize;
      if directInputRem == 0 { streamEndWasReached := true; }
    }

    method SetLimits()
      requires Fixed() && InputOk(Settings(), Position()) && cyclicBufferPos < cyclicBufferSize
      requires pos == 0 ==> Avail() < NUM_HASH_BYTES
      modifies `lenLimit, `posLimit
      ensures CursorOk(Settings(), Position())
    {
      var n: Word := if pos == 0 then 0xFFFF_FFFF else WORD - pos;
      var k: Word := cyclicBufferSize - cyclicBufferPos;
      if k < n { n := k; }
      k := Avail();
      var mm := matchMaxLen;
      if k > keepSizeAfter {
        k := k - keepSizeAfter;
      } else if k >= mm {
        k := k - mm + 1;
      } else {
        mm := k;
        if k != 0 { k := 1; }
      }
      lenLimit := mm;
      if k < n { n := k; }
      posLimit := if pos + n >= WORD then pos + n - WORD else pos + n;
      assert Gap(posLimit, pos) == n;
    }

    /** Saturating subtraction from every reference of a table. */
    static method Normalize3(subValue: Word, items: array<Word>)
      modifies items
      ensures Saturated(old(items[..]), items[..], subValue)
    {
      var i := 0;
      while i < items.Length
        invariant 0 <= i <= items.Length
        invariant forall k | 0 <= k < i :: items[k] == Saturate(old(items[k]), subValue)
        invariant forall k | i <= k < items.Length :: items[k] == old(items[k])
      {
        var v := items[i];
        if v < subValue { v := subValue; }
        items[i] := v - subValue;
        i := i + 1;
      }
    }

    /** The object stands one step after `f`: the counters have moved, the limits are not computed yet. */
    ghost predicate Stepped(f: Finder)
      reads this, son, hash
    {
      && buffer <= |data|
      && f.n == Min(matchMaxLen, |data| - buffer + 1)
      && (f.n >= NUM_HASH_BYTES ==> ForestOk(f, Full()) && Follows(f))
    }

    ghost predicate Moved()
      reads this
    {
      && Fixed()
      && buffer + Avail() + directInputRem == |data|
      && (directInputRem > 0 ==> Avail() >= keepSizeAfter)
      && (directInputRem == 0 <==> streamEndWasReached)
      && 1 <= cyclicBufferPos <= cyclicBufferSize
    }

    ghost predicate Follows(f: Finder)
      reads this, son, hash
    {
      && f.hs == hs && f.data == data && f.son == son[..] && f.heads == hash[..]
      && f.r.cbs == cyclicBufferSize && f.top == f.r.pos + 1
      && f.r.pos + 1 == (if pos == 0 then WORD else pos)
      && f.r.cyc + 1 == cyclicBufferPos
      && f.r.pos + f.r.base + 1 == buffer
    }

    /** Brings the position back below 2^32. */
    method Normalize()
      requires Moved() && pos == 0
      modifies `pos, `streamPos, hash, son
      ensures pos == cyclicBufferSize && Avail() == old(Avail())
      ensures Saturated(old(son[..]), son[..], WORD - cyclicBufferSize)
      ensures Saturated(old(hash[..]), hash[..], WORD - cyclicBufferSize)
    {
      var subValue: Word := WORD - historySize - 1;
      pos := Gap(pos, subValue);
      streamPos := Gap(streamPos, subValue);
      Normalize3(subValue, hash);
      Normalize3(subValue, son);
    }

    /** The forest `q` is the one in the arrays, at the counters as they stand before they wrap. */
    ghost predicate Carries(q: Finder)
      reads `pos, `buffer, `cyclicBufferPos, son, hash
    {
      && q.hs == hs && q.data == data && q.son == son[..] && q.heads == hash[..]
      && q.r.cbs == cyclicBufferSize
      && q.r.pos == q.top == (if pos == 0 then WORD else pos)
      && q.r.base == buffer - q.r.pos
      && q.r.cyc == (if cyclicBufferPos == cyclicBufferSize then 0 else cyclicBufferPos)
    }

    lemma StepForest(f: Finder, n: nat)
      requires Moved() && Stepped(f) && 4 <= n <= f.n && buffer + n <= |data|
      ensures ForestOk(Advanced(f, n), Full()) && Carries(Advanced(f, n)) && Advanced(f, n).n == n
    {
      AdvanceKeeps(f, n, Full());
    }

    method ReadMore()
      requires Moved()
      modifies `streamPos, `directInputRem, `streamEndWasReached
      ensures Moved() && (directInputRem > 0 ==> Avail() > keepSizeAfter)
    {
      if keepSizeAfter == Avail() {
        ReadBlock();
      }
    }

    method NormalizeIfWrapped(ghost g: Finder, ghost n: nat) returns (ghost q: Finder)
      requires Moved() && n <= Avail()
      requires n >= NUM_HASH_BYTES ==> ForestOk(g, Full()) && Carries(g) && g.n == n
      modifies `pos, `streamPos, hash, son
      ensures Moved() && Avail() == old(Avail()) && (pos == 0 ==> Avail() < NUM_HASH_BYTES)
      ensures n >= NUM_HASH_BYTES ==> ForestOk(q, Full()) && Carries(q) && q.n == n
      ensures n >= NUM_HASH_BYTES ==> q == g || q == LoweredBy(g, Low(g.r))
    {
      hide ForestOk, Saturated, Shaped, Before;
      q := g;
      if pos == 0 && Avail() >= NUM_HASH_BYTES {
        Normalize();
        if n >= NUM_HASH_BYTES {
          q := NormalizedForest(g, WORD - cyclicBufferSize, son[..], hash[..], Full());
        }
      }
    }

    /** Called when a limit is reached: reads on, normalises, wraps the cyclic buffer, sets new limits. */
    method CheckLimits(ghost f: Finder)
      requires Moved() && Stepped(f)
      modifies this, hash, son
      ensures Valid() && buffer == old(buffer)
      ensures lenLimit >= NUM_HASH_BYTES ==> Comes(f, Forest(pos), lenLimit)
    {
      ghost var n := Min(matchMaxLen, |data| - buffer);
      if n >= NUM_HASH_BYTES { StepForest(f, n); }
      hide ForestOk, Advanced, Stepped, Carries, Forest;
      ReadMore();
      ghost var q := NormalizeIfWrapped(Advanced(f, n), n);
      WrapCyclic(q, n);
      SetLimits();
      if lenLimit >= NUM_HASH_BYTES { Settle(q); }
    }

    method WrapCyclic(ghost q: Finder, ghost n: nat)
      requires Moved() && (n >= NUM_HASH_BYTES ==> Carries(q))
      modifies `cyclicBufferPos
      ensures cyclicBufferPos < cyclicBufferSize && (n >= NUM_HASH_BYTES ==> Carries(q))
    {
      if cyclicBufferPos == cyclicBufferSize {
        cyclicBufferPos := 0;
      }
    }

    lemma Settle(q: Finder)
      requires Carries(q) && pos != 0 && cyclicBufferPos < cyclicBufferSize && q.n == lenLimit
      ensures Forest(pos) == q
    {}

    /** The object between two calls, whatever its arrays hold. */
    ghost predicate Placed()
      reads this
    {
      && Fixed()
      && CursorOk(Settings(), Position())
      && (directInputRem == 0 <==> streamEndWasReached)
    }

    /** One step forward, after the current position has been entered (giving the forest `f`). */
    method MovePos(ghost f: Finder)
      requires Placed() && buffer < |data| && f == Forest(pos + 1)
      requires lenLimit >= NUM_HASH_BYTES ==> ForestOk(f, Full())
      modifies this, hash, son
      ensures Valid() && buffer == old(buffer) + 1
      ensures lenLimit >= NUM_HASH_BYTES ==> Comes(f, Forest(pos), lenLimit)
    {
      hide ForestOk;
      ghost var g, c := Settings(), Position();
      if Gap(posLimit, pos) > 1 {
        StepWithinLimit(g, c);
        if lenLimit >= NUM_HASH_BYTES { AdvanceKeeps(f, lenLimit, Full()); }
      }
      cyclicBufferPos := cyclicBufferPos + 1;
      buffer := buffer + 1;
      pos := Bump(pos);
      if pos == posLimit {
        CheckLimits(f);
      } else {
        assert Position() == Cursor(c.buffer + 1, c.pos + 1, c.cyc + 1, c.avail - 1, c.left - 1, c.lenLimit, c.rem);
        if lenLimit >= NUM_HASH_BYTES { assert Forest(pos) == Advanced(f, lenLimit); }
      }
    }

    /** Reads the three heads for the current bytes and puts the current position in their place. */
    method ReplaceHeads() returns (d2: Word, d3: Word, curMatch: Word)
      requires Placed() && lenLimit >= NUM_HASH_BYTES && ForestOk(Forest(pos), Full())
      modifies hash
      ensures var f := old(Forest(pos));
        && Searching(f)
        && d2 == Distance(f, false) && d3 == Distance(f, true) && curMatch == f.heads[CurHash(f)]
        && hash[..] == Entered(f, Rounds(cutValue)).heads
    {
      ghost var f := Forest(pos);
      assert Searching(f);
      hide ForestOk, H2, H3, H4, Descend;
      var h2 := H2(hs, data, buffer);
      var h3 := H3(hs, data, buffer);
      var hv := H4(hs, data, buffer);
      assert Cur(f.r) == buffer;
      d2 := pos - hash[h2];
      d3 := pos - hash[h3];
      curMatch := hash[hv];
      hash[h2] := pos;
      hash[h3] := pos;
      hash[hv] := pos;
    }

    /** The state in which the trees can be searched. */
    lemma SearchableNow(f: Finder)
      requires Valid() && lenLimit >= NUM_HASH_BYTES && f == Forest(pos)
      ensures Searching(f) && ForestOk(f, Full()) && ForestOk(f, false)
      ensures cyclicBufferSize == f.r.cbs && pos == f.r.pos && buffer == Cur(f.r) && lenLimit == f.n && data == f.data
      ensures f.r == Ring(pos, cyclicBufferPos, cyclicBufferSize, buffer - pos)
      ensures Searchable(data, f.r, lenLimit, f.son, f.heads[CurHash(f)]) && Placed()
      ensures f.son == son[..] && f.heads == hash[..] && f.hs == hs && son != hash
      ensures Before(f) && Shaped(f) && lenLimit > 0 && f.r.cbs == cyclicBufferSize
      ensures Falling(Bucket(f, CurHash(f)), Cur(f.r))
        && Bucket(f, CurHash(f)) == TreeAt(f.r, f.son, f.heads[CurHash(f)])
      ensures HeadBest(f) <= f.n
    {
      assert BucketOk(f, CurHash(f));
      TreeInWindow(f);
      hide BucketOk, Remembered, EntryOk;
      HeadIsTrue(f);
    }

    /** The search proper: the report, and the current position in every table. */
    method ReportAndEnter(ghost f: Finder) returns (distances: seq<Match>)
      requires Valid() && lenLimit >= NUM_HASH_BYTES && f == Forest(pos)
      modifies hash, son
      ensures Searching(f) && Falling(Bucket(f, CurHash(f)), Cur(f.r)) && distances == Report(f, Rounds(cutValue))
      ensures Forest(pos + 1) == Entered(f, Rounds(cutValue))
    {
      hide *;
      SearchableNow(f);
      var d2, d3, curMatch := ReplaceHeads();
      var mmm := if pos < cyclicBufferSize then pos else cyclicBufferSize;
      assert mmm == Min(f.r.pos, f.r.cbs) by { MinIs(pos, cyclicBufferSize); }
      var maxLen;
      distances, maxLen := HeadMatches(data, buffer, lenLimit, d2, d3, mmm, f);
      if maxLen == lenLimit {
        SkipMatchesSpec(data, buffer, lenLimit, curMatch, pos, son, cyclicBufferPos, cyclicBufferSize, cutValue);
      } else {
        distances := GetMatchesSpec1(data, buffer, lenLimit, curMatch, pos, son, cyclicBufferPos, cyclicBufferSize,
                                     cutValue, distances, maxLen);
      }
      ReportIs(f, Rounds(cutValue));
      ForestIsEntered(f);
    }

    lemma ForestIsEntered(f: Finder)
      requires Searching(f) && f.r == Ring(pos, cyclicBufferPos, cyclicBufferSize, buffer - pos)
      requires f.hs == hs && f.data == data && f.n == lenLimit
      requires son[..] == Descend(data, f.r, lenLimit, f.son, f.heads[CurHash(f)], pos, pos, Rounds(cutValue))
      requires hash[..] == Entered(f, Rounds(cutValue)).heads
      ensures Forest(pos + 1) == Entered(f, Rounds(cutValue))
    {
      hide Descend, H2, H3, H4;
    }

    method EnterOnly(ghost f: Finder)
      requires Valid() && lenLimit >= NUM_HASH_BYTES && f == Forest(pos)
      modifies hash, son
      ensures Searching(f) && Forest(pos + 1) == Entered(f, Rounds(cutValue))
    {
      hide *;
      SearchableNow(f);
      var d2, d3, curMatch := ReplaceHeads();
      SkipMatchesSpec(data, buffer, lenLimit, curMatch, pos, son, cyclicBufferPos, cyclicBufferSize, cutValue);
      ForestIsEntered(f);
    }

    /** Reports the matches of the current position and enters it. */
    method Bt4GetMatches() returns (distances: seq<Match>)
      requires Valid() && buffer < |data|
      modifies this, hash, son
      ensures Valid() && buffer == old(buffer) + 1
      ensures old(lenLimit) < NUM_HASH_BYTES ==> distances == []
      ensures old(lenLimit) >= NUM_HASH_BYTES ==>
        && Searching(old(Forest(pos))) && ForestOk(old(Forest(pos)), Full())
        && Falling(Bucket(old(Forest(pos)), CurHash(old(Forest(pos)))), Cur(old(Forest(pos)).r))
        && distances == Report(old(Forest(pos)), Rounds(cutValue))
        && AllTrue(data, Window(old(Forest(pos))), old(buffer), old(lenLimit), 1, distances)
      ensures old(lenLimit) >= NUM_HASH_BYTES && lenLimit >= NUM_HASH_BYTES ==>
        && Searching(old(Forest(pos)))
        && Comes(Entered(old(Forest(pos)), Rounds(cutValue)), Forest(pos), lenLimit)
    {
      hide *;
      distances := [];
      ghost var f := Forest(pos);
      if lenLimit < NUM_HASH_BYTES {
        PlacedNow();
        MovePos(Forest(pos + 1));
        return;
      }
      SearchableNow(f);
      PlacedNow();
      ReportIsTrue(f, Rounds(cutValue));
      EnterKeeps(f, Rounds(cutValue), Full());
      distances := ReportAndEnter(f);
      MovePos(Forest(pos + 1));
    }

    lemma PlacedNow()
      requires Valid()
      ensures Placed() && (Full() ==> Rounds(cutValue) >= cyclicBufferSize)
    {}

    /** Enters `num` positions without reporting their matches. */
    method Bt4Skip(num: Word)
      requires Valid() && 0 < num && buffer + num <= |data|
      modifies this, hash, son
      ensures Valid() && buffer == old(buffer) + num
    {
      var left := num;
      while left != 0
        invariant Valid() && buffer + left == old(buffer) + num
      {
        SkipOne();
        left := left - 1;
      }
    }

    method SkipOne()
      requires Valid() && buffer < |data|
      modifies this, hash, son
      ensures Valid() && buffer == old(buffer) + 1
      ensures old(lenLimit) >= NUM_HASH_BYTES && lenLimit >= NUM_HASH_BYTES ==>
        && Searching(old(Forest(pos)))
        && Comes(Entered(old(Forest(pos)), Rounds(cutValue)), Forest(pos), lenLimit)
    {
      hide *;
      ghost var f := Forest(pos);
      PlacedNow();
      if lenLimit < NUM_HASH_BYTES {
        MovePos(Forest(pos + 1));
        return;
      }
      SearchableNow(f);
      EnterKeeps(f, Rounds(cutValue), Full());
      EnterOnly(f);
      MovePos(Forest(pos + 1));
    }

    /** A finder over a whole input held in memory. */
    constructor (data: seq<Byte>, hs: Hasher, historySize: Word, matchMaxLen: Word, keepSizeAfter: Word, cutValue: Word)
      requires 1 <= historySize < WORD - 1 && hs.size > 0
      requires NUM_HASH_BYTES <= keepSizeAfter < WORD - 1 && matchMaxLen <= keepSizeAfter
      ensures Valid() && buffer == 0 && fresh(hash) && fresh(son)
      ensures this.data == data && this.hs == hs && this.historySize == historySize
      ensures this.matchMaxLen == matchMaxLen && this.keepSizeAfter == keepSizeAfter && this.cutValue == cutValue
    {
      this.data, this.hs, this.historySize, this.cyclicBufferSize := data, hs, historySize, historySize + 1;
      this.matchMaxLen, this.keepSizeAfter, this.cutValue := matchMaxLen, keepSizeAfter, cutValue;
      hash := new Word[FIX4_HASH_SIZE + hs.size](i => 0);
      son := new Word[2 * (historySize + 1)];
      buffer, pos, streamPos, streamEndWasReached, directInputRem := 0, 1, 1, false, |data|;
      cyclicBufferPos, lenLimit, posLimit := 1, 0, 1;
      new;
      ReadBlock();
      SetLimits();
      if lenLimit >= NUM_HASH_BYTES { EmptyForest(Forest(pos), Full()); }
    }
  }

  lemma MinIs(a: nat, b: nat)
    ensures Min(a, b) == if a < b then a else b
  {}

  lemma ReportIs(f: Finder, rounds: nat)
    requires Searching(f) && Falling(Bucket(f, CurHash(f)), Cur(f.r))
    ensures Report(f, rounds)
         == HeadReport(f)
            + (if HeadBest(f) == f.n then []
               else Matches(f.data, TreeAt(f.r, f.son, f.heads[CurHash(f)]), Cur(f.r), f.n, rounds, HeadBest(f)))
  {}

  lemma EmptyForest(f: Finder, full: bool)
    requires Shaped(f) && Before(f) && f.r.pos == 1 && f.r.base == -1
    requires forall h | 0 <= h < |f.heads| :: f.heads[h] == 0
    ensures ForestOk(f, full)
  {}

  lemma DistancePositive(f: Finder, three: bool)
    requires Searching(f)
    ensures Distance(f, three) > 0
  {}

  ghost predicate HeadSeen(f: Finder, three: bool, d: nat, dist: nat)
    requires Searching(f)
  {
    && (d < Min(f.r.pos, f.r.cbs) <==> Ref(f, three) > Low(f.r))
    && (Ref(f, three) > Low(f.r) ==>
          && Entry(f, three) == Cur(f.r) - d
          && Entry(f, three) + f.n <= |f.data|
          && (Usable(f, three) <==> f.data[Cur(f.r) - d] == f.data[Cur(f.r)]))
    && (Usable(f, three) ==>
          && Agree(f.data, Entry(f, three), Cur(f.r), if three || ThirdByteToo(f) then 3 else 2)
          && EntryMatch(f, three) == Match(Lcp(f.data, Entry(f, three), Cur(f.r), f.n), dist)
          && (!three && !ThirdByteToo(f) ==> EntryMatch(f, false) == Match(2, dist))
          && (!three ==> (ThirdByteToo(f) <==> f.data[Cur(f.r) - d + 2] == f.data[Cur(f.r) + 2])))
  }

  /** What the code sees through the distance `d` of a short-table entry; `dist` is `d - 1`. */
  lemma HeadLook(f: Finder, three: bool, d: nat, dist: nat)
    requires Searching(f) && ForestOk(f, false) && d == Distance(f, three) && dist == d - 1
    ensures HeadSeen(f, three, d, dist)
  {
    HeadInside(f, three, d);
    if Usable(f, three) { HeadAgrees(f, three, dist); }
    hide ForestOk, Shaped, Lcp, Agree, Window, TrueMatch, EntryMatch, Ref;
  }

  lemma HeadInside(f: Finder, three: bool, d: nat)
    requires Searching(f) && d == Distance(f, three)
    ensures d < Min(f.r.pos, f.r.cbs) <==> Ref(f, three) > Low(f.r)
    ensures Ref(f, three) > Low(f.r) ==> Entry(f, three) + f.n <= |f.data| && Entry(f, three) == Cur(f.r) - d
  {}

  lemma HeadAgrees(f: Finder, three: bool, dist: nat)
    requires Searching(f) && ForestOk(f, false) && Usable(f, three) && dist == Distance(f, three) - 1
    ensures EntryMatch(f, three) == Match(Lcp(f.data, Entry(f, three), Cur(f.r), f.n), dist)
    ensures Agree(f.data, Entry(f, three), Cur(f.r), if three || ThirdByteToo(f) then 3 else 2)
    ensures !three && !ThirdByteToo(f) ==> EntryMatch(f, false) == Match(2, dist)
  {
    EntryAgrees(f, three);
    EntryMatchFacts(f, three);
    hide ForestOk, Lcp, Window, TrueMatch;
    if !three && ThirdByteToo(f) { AgreeExtend(f.data, Entry(f, three), Cur(f.r), 2); }
  }

  lemma HeadCases(f: Finder)
    requires Searching(f)
    ensures var a, b := Usable(f, false), Usable(f, true);
      if a && ThirdByteToo(f) then
        HeadReport(f) == [EntryMatch(f, false)] && HeadBest(f) == EntryMatch(f, false).len
      else if b then
        && HeadReport(f) == (if a then [EntryMatch(f, false)] else []) + [EntryMatch(f, true)]
        && HeadBest(f) == EntryMatch(f, true).len
      else
        HeadReport(f) == (if a then [EntryMatch(f, false)] else []) && HeadBest(f) == 3
  {
    hide Usable, ThirdByteToo, EntryMatch;
  }

  /** The entry is in the window and its first byte is right; by the hash, so are one or two more. */
  method FirstByte(data: seq<Byte>, cur: nat, d: Word, mmm: Word, ghost f: Finder, ghost three: bool) returns (ok: bool)
    requires Searching(f) && ForestOk(f, false) && f.data == data && cur == Cur(f.r)
    requires d == Distance(f, three) && mmm == Min(f.r.pos, f.r.cbs)
    ensures ok == Usable(f, three) && d > 0
  {
    DistancePositive(f, three);
    HeadLook(f, three, d, d - 1);
    hide Shaped, ForestOk, Ref, Usable;
    ok := d < mmm && data[cur - d] == data[cur];
  }

  method ThirdByteOf(data: seq<Byte>, cur: nat, d: Word, ghost f: Finder) returns (ok: bool)
    requires Searching(f) && ForestOk(f, false) && f.data == data && cur == Cur(f.r)
    requires d == Distance(f, false) && Usable(f, false)
    ensures ok == ThirdByteToo(f)
    ensures !ok ==> EntryMatch(f, false) == Match(2, d - 1)
  {
    DistancePositive(f, false);
    HeadLook(f, false, d, d - 1);
    hide ForestOk, Ref, Usable, ThirdByteToo, EntryMatch, Agree;
    ok := data[cur - d + 2] == data[cur + 2];
  }

  /** Extends a match already known on three bytes. */
  method UpdateMaxLen(data: seq<Byte>, cur: nat, lenLimit: Word, d: Word, ghost f: Finder, ghost three: bool)
    returns (maxLen: Word)
    requires Searching(f) && ForestOk(f, false) && f.data == data && cur == Cur(f.r) && f.n == lenLimit
    requires d == Distance(f, three) && Usable(f, three) && (three || ThirdByteToo(f))
    ensures Match(maxLen, d - 1) == EntryMatch(f, three)
  {
    DistancePositive(f, three);
    HeadLook(f, three, d, d - 1);
    assert 4 <= lenLimit && cur + lenLimit <= |data|;
    hide ForestOk, Ref, Usable, ThirdByteToo, EntryMatch, Agree, Lcp, Shaped;
    var pb := cur - d;
    maxLen := Compare(data, pb, cur, 3, lenLimit);
  }

  /** The matches of the two short tables, and the length the tree has to exceed. */
  method HeadMatches(data: seq<Byte>, cur: nat, lenLimit: Word, d2: Word, d3: Word, mmm: Word, ghost f: Finder)
    returns (distances: seq<Match>, maxLen: Word)
    requires Searching(f) && ForestOk(f, false) && f.data == data && f.n == lenLimit && cur == Cur(f.r)
    requires d2 == Distance(f, false) && d3 == Distance(f, true) && mmm == Min(f.r.pos, f.r.cbs)
    ensures distances == HeadReport(f) && maxLen == HeadBest(f)
  {
    hide *;
    HeadCases(f);
    maxLen := 3;
    distances := [];
    var d := d2;
    ghost var three := false;
    var two := FirstByte(data, cur, d2, mmm, f, false);
    var third := FirstByte(data, cur, d3, mmm, f, true);
    if two {
      var same := ThirdByteOf(data, cur, d2, f);
      if !same {
        distances := [Match(2, d2 - 1)];
        if third {
          d, three := d3, true;
        } else {
          return;
        }
      }
    } else if third {
      d, three := d3, true;
    } else {
      return;
    }
    maxLen := UpdateMaxLen(data, cur, lenLimit, d, f, three);
    distances := distances + [Match(maxLen, d - 1)];
  }

  lemma NormalizedForest(g: Finder, sub: nat, son: seq<nat>, heads: seq<nat>, full: bool) returns (q: Finder)
    requires ForestOk(g, full) && g.top == g.r.pos && g.r.pos - sub == g.r.cbs
    requires Saturated(g.son, son, sub) && Saturated(g.heads, heads, sub)
    ensures ForestOk(q, full) && q.hs == g.hs && q.data == g.data && q.son == son && q.heads == heads && q.n == g.n
    ensures q.r.cbs == g.r.cbs && q.r.cyc == g.r.cyc && q.r.pos == g.r.pos - sub == q.top && q.r.base == g.r.base + sub
    ensures sub == Low(g.r) && q == LoweredBy(g, Low(g.r))
  {
    assert son == SaturateAll(g.son, sub) && heads == SaturateAll(g.heads, sub);
    q := Normalized(g, sub, son, heads);
    NormalizeKeeps(g, sub, son, heads, full);
  }
}
