/** The distances that the hash thread hands to the tree search, and why every batch of them is well formed: the
    batched search equals the plain loop in every reachable state. */
module LzHeads {
  import opened Arith
  import opened BitModel
  import opened LzTree
  import opened LzSon
  import opened LzHash
  import opened LzForest
  import opened LzReport
  import opened LzNormal
  import opened LzSearch
  import opened LzBatch
  import LzMatchFinder

  /** Positions of the two threads are normalized before they pass this one. */
  const MAX_VAL_FOR_NORMALIZE := 0xFFFF_FFFF

  // ----- the distances -----

  ghost predicate TableOk(hs: Hasher, heads: seq<nat>, pos: nat) {
    && hs.size > 0 && |heads| == FIX4_HASH_SIZE + hs.size
    && forall i | FIX4_HASH_SIZE <= i < |heads| :: heads[i] < pos
  }

  /** The distance from each of `count` positions to the last one before it with the same hash; farther than the
      start of the stream when there is none. */
  ghost function Deltas(hs: Hasher, data: seq<Byte>, heads: seq<nat>, pos: nat, cur: nat, count: nat): (ds: seq<nat>)
    requires TableOk(hs, heads, pos) && (count > 0 ==> cur + count + 3 <= |data|)
    ensures |ds| == count
    decreases count
  {
    if count == 0 then [] else
    var h := H4(hs, data, cur);
    [pos - heads[h]] + Deltas(hs, data, heads[h := pos], pos + 1, cur + 1, count - 1)
  }

  ghost function TableAfter(hs: Hasher, data: seq<Byte>, heads: seq<nat>, pos: nat, cur: nat, count: nat): (t: seq<nat>)
    requires TableOk(hs, heads, pos) && (count > 0 ==> cur + count + 3 <= |data|)
    ensures |t| == |heads|
    decreases count
  {
    if count == 0 then heads else
    TableAfter(hs, data, heads[H4(hs, data, cur) := pos], pos + 1, cur + 1, count - 1)
  }

  /** Fills a block of distances and enters the positions into the table. */
  method GetHeads4(hs: Hasher, data: seq<Byte>, pos0: Word, hash: array<Word>, cur0: nat, num: nat)
    returns (heads: seq<Word>)
    requires TableOk(hs, hash[..], pos0) && (num > 0 ==> cur0 + num + 3 <= |data|) && pos0 + num < WORD
    modifies hash
    ensures heads == Deltas(hs, data, old(hash[..]), pos0, cur0, num)
    ensures hash[..] == TableAfter(hs, data, old(hash[..]), pos0, cur0, num)
  {
    hide H4;
    heads := [];
    var pos: Word, cur: nat, left: nat := pos0, cur0, num;
    ghost var all, last := Deltas(hs, data, hash[..], pos, cur, num), TableAfter(hs, data, hash[..], pos, cur, num);
    while left > 0
      invariant TableOk(hs, hash[..], pos) && (left > 0 ==> cur + left + 3 <= |data|) && pos + left < WORD
      invariant heads + Deltas(hs, data, hash[..], pos, cur, left) == all
      invariant TableAfter(hs, data, hash[..], pos, cur, left) == last
    {
      var value := H4(hs, data, cur);
      ghost var rest := Deltas(hs, data, hash[..][value := pos], pos + 1, cur + 1, left - 1);
      assert heads + ([pos - hash[value]] + rest) == heads + [pos - hash[value]] + rest;
      heads := heads + [pos - hash[value]];
      hash[value] := pos;
      pos, cur, left := pos + 1, cur + 1, left - 1;
    }
  }

  // ----- the table of the hash thread -----

  /** The hash table of one thread and the position of that thread. The two threads count positions from starts of
      their own, because each of them normalizes when its own position is about to overflow. */
  datatype Heads = Heads(table: seq<nat>, pos: nat)

  ghost function LoweredTable(table: seq<nat>, sub: nat): (t: seq<nat>)
    ensures |t| == |table|
  {
    seq(|table|, i requires 0 <= i < |table| => if i < FIX4_HASH_SIZE then table[i] else Saturate(table[i], sub))
  }

  ghost function LoweredHeads(a: Heads, sub: nat): Heads
    requires sub <= a.pos
  {
    Heads(LoweredTable(a.table, sub), a.pos - sub)
  }

  /** What the hash thread counts from when it fills a block of `num` distances. */
  ghost function BlockHeads(a: Heads, cbs: nat, num: nat): Heads {
    if a.pos + num > MAX_VAL_FOR_NORMALIZE && cbs <= a.pos then LoweredHeads(a, a.pos - cbs) else a
  }

  /** One block of the hash thread, with the normalization before it. */
  method HashBlock(hs: Hasher, data: seq<Byte>, pos0: Word, hash: array<Word>, cur: nat, num: nat,
                   cyclicBufferSize: Word)
    returns (heads: seq<Word>, pos: Word)
    requires TableOk(hs, hash[..], pos0) && (num > 0 ==> cur + num + 3 <= |data|)
    requires 0 < cyclicBufferSize && cyclicBufferSize + num <= MAX_VAL_FOR_NORMALIZE
    modifies hash
    ensures var a := BlockHeads(Heads(old(hash[..]), pos0), cyclicBufferSize, num);
      && TableOk(hs, a.table, a.pos) && pos == a.pos + num
      && heads == Deltas(hs, data, a.table, a.pos, cur, num)
      && hash[..] == TableAfter(hs, data, a.table, a.pos, cur, num)
  {
    hide Deltas, TableAfter;
    pos := pos0;
    if pos > MAX_VAL_FOR_NORMALIZE - num {
      var subValue: Word := pos - cyclicBufferSize;
      pos := pos - subValue;
      var i := FIX4_HASH_SIZE;
      while i < hash.Length
        invariant FIX4_HASH_SIZE <= i <= hash.Length
        invariant forall k | FIX4_HASH_SIZE <= k < i :: hash[k] == Saturate(old(hash[k]), subValue)
        invariant forall k | 0 <= k < hash.Length && !(FIX4_HASH_SIZE <= k < i) :: hash[k] == old(hash[k])
      {
        var v := hash[i];
        if v < subValue { v := subValue; }
        hash[i] := v - subValue;
        i := i + 1;
      }
      assert hash[..] == LoweredTable(old(hash[..]), subValue);
    }
    heads := GetHeads4(hs, data, pos, hash, cur, num);
    pos := pos + num;
  }

  /** An entry of the hash thread for one that the tree thread would have: of the same distance inside the window,
      and out of the window outside it. */
  ghost predicate SameDistance(r: Ring, m: nat, pos: nat, e: nat) {
    if m > Low(r) then pos - e == r.pos - m else pos - e >= if r.pos < r.cbs then r.pos else r.cbs
  }

  /** The table `a` leads to the trees of `f`, wherever its positions are counted from. */
  ghost predicate Alike(f: Finder, a: Heads) {
    && TableOk(f.hs, a.table, a.pos) && |a.table| == |f.heads| && (f.r.pos < f.r.cbs ==> a.pos == f.r.pos)
    && forall i | FIX4_HASH_SIZE <= i < |a.table| :: SameDistance(f.r, f.heads[i], a.pos, a.table[i])
  }

  /** A table with the references of the trees themselves. */
  lemma AlikeAtFirst(f: Finder)
    requires Shaped(f) && Before(f)
    ensures Alike(f, Heads(f.heads, f.r.pos))
  {}

  ghost function NextHeads(f: Finder, a: Heads): Heads
    requires Shaped(f) && |a.table| == |f.heads|
  {
    Heads(a.table[CurHash(f) := a.pos], a.pos + 1)
  }

  /** Entering a position on both sides. */
  lemma EntryKeepsAlike(f: Finder, a: Heads, rounds: nat, n: nat)
    requires Shaped(f) && Before(f) && Alike(f, a)
    ensures Alike(Advanced(Entered(f, rounds), n), NextHeads(f, a))
  {
    hide H2, H3, H4, Descend;
    var g, b := Advanced(Entered(f, rounds), n), NextHeads(f, a);
    forall i | FIX4_HASH_SIZE <= i < |b.table| ensures SameDistance(g.r, g.heads[i], b.pos, b.table[i]) {
      assert SameDistance(f.r, f.heads[i], a.pos, a.table[i]);
    }
  }

  /** The hash thread normalizes. It cannot be about to before the cyclic buffer has been filled once. */
  lemma LoweredTableKeepsAlike(f: Finder, a: Heads, sub: nat)
    requires Shaped(f) && Alike(f, a) && sub + f.r.cbs <= a.pos
    ensures Alike(f, LoweredHeads(a, sub))
  {
    var b := LoweredHeads(a, sub);
    forall i | FIX4_HASH_SIZE <= i < |b.table| ensures SameDistance(f.r, f.heads[i], b.pos, b.table[i]) {
      assert SameDistance(f.r, f.heads[i], a.pos, a.table[i]);
    }
  }

  /** The tree thread normalizes. */
  lemma LoweredTreesKeepAlike(f: Finder, a: Heads, sub: nat)
    requires Shaped(f) && Before(f) && Alike(f, a) && sub <= Low(f.r)
    ensures Alike(LoweredBy(f, sub), a)
  {
    var g := LoweredBy(f, sub);
    forall i | FIX4_HASH_SIZE <= i < |a.table| ensures SameDistance(g.r, g.heads[i], a.pos, a.table[i]) {
      assert SameDistance(f.r, f.heads[i], a.pos, a.table[i]);
    }
  }

  // ----- runs of both threads over the same positions -----

  /** What happens to the trees and the table at one position: it is entered, with `n` bytes to compare from then on,
      or one of the two threads has normalized before it. */
  datatype Move = Entry(rounds: nat, n: nat) | TableLowered(sub: nat) | TreesLowered(sub: nat)

  ghost predicate CanMove(f: Finder, a: Heads, m: Move) {
    match m
    case Entry(rounds, n) => RingOk(f.r) && 4 <= n <= f.n && Cur(f.r) + 1 + n <= |f.data|
    case TableLowered(sub) => sub + f.r.cbs <= a.pos
    case TreesLowered(sub) => sub <= Low(f.r)
  }

  ghost predicate Agreeing(f: Finder, a: Heads) { ForestOk(f, false) && Before(f) && Alike(f, a) }

  ghost function FinderAfter(f: Finder, a: Heads, m: Move): Finder
    requires Agreeing(f, a) && CanMove(f, a, m)
  {
    match m
    case Entry(rounds, n) => Advanced(Entered(f, rounds), n)
    case TableLowered(sub) => f
    case TreesLowered(sub) => LoweredBy(f, sub)
  }

  ghost function HeadsAfter(f: Finder, a: Heads, m: Move): Heads
    requires Agreeing(f, a) && CanMove(f, a, m)
  {
    match m
    case Entry(rounds, n) => NextHeads(f, a)
    case TableLowered(sub) => LoweredHeads(a, sub)
    case TreesLowered(sub) => a
  }

  lemma AgreeingShaped(f: Finder, a: Heads)
    requires Agreeing(f, a)
    ensures Shaped(f) && Before(f) && Alike(f, a) && ForestOk(f, false) && |a.table| == |f.heads|
  {}

  lemma MoveKeeps(f: Finder, a: Heads, m: Move)
    requires Agreeing(f, a) && CanMove(f, a, m)
    ensures Agreeing(FinderAfter(f, a, m), HeadsAfter(f, a, m))
  {
    hide Entered, ForestOk, Alike, Shaped;
    AgreeingShaped(f, a);
    match m
    case Entry(rounds, n) =>
      EntryKeepsAlike(f, a, rounds, n);
      EnterKeeps(f, rounds, false);
      EnteredSame(f, rounds);
      AdvanceKeeps(Entered(f, rounds), n, false);
    case TableLowered(sub) => LoweredTableKeepsAlike(f, a, sub);
    case TreesLowered(sub) =>
      LoweredTreesKeepAlike(f, a, sub);
      NormalizeKeeps(f, sub, LoweredBy(f, sub).son, LoweredBy(f, sub).heads, false);
  }

  /** `g` and `b` are what any number of moves makes of `f` and `a`. */
  ghost predicate Moves(f: Finder, a: Heads, ms: seq<Move>, g: Finder, b: Heads)
    decreases |ms|
  {
    if ms == [] then g == f && b == a
    else
      Agreeing(f, a) && CanMove(f, a, ms[0])
      && Moves(FinderAfter(f, a, ms[0]), HeadsAfter(f, a, ms[0]), ms[1..], g, b)
  }

  /** Whenever the two threads normalize, the distances of one lead to the trees of the other. */
  lemma {:induction false} RunStaysAlike(f: Finder, a: Heads, ms: seq<Move>, g: Finder, b: Heads)
    requires Agreeing(f, a) && Moves(f, a, ms, g, b)
    ensures Agreeing(g, b)
    decreases |ms|
  {
    hide Agreeing, CanMove, FinderAfter, HeadsAfter;
    if ms != [] {
      MoveKeeps(f, a, ms[0]);
      RunStaysAlike(FinderAfter(f, a, ms[0]), HeadsAfter(f, a, ms[0]), ms[1..], g, b);
    }
  }

  // ----- every batch is well formed -----

  /** The batch at hand: as many distances as the cyclic buffer and the text have room for. */
  ghost predicate Fits(f: Finder, count: nat) {
    && ForestOk(f, false) && Before(f)
    && f.r.cyc + count <= f.r.cbs && (count > 0 ==> Cur(f.r) + count - 1 + f.n <= |f.data|)
  }

  /** Between two calls the limits of a match finder leave room for all the steps up to the next check, and its own
      hash table leads to its trees. */
  lemma ValidFits(m: LzMatchFinder.MatchFinder, count: nat)
    requires m.Valid() && m.lenLimit >= LzMatchFinder.NUM_HASH_BYTES && count <= LzMatchFinder.Gap(m.posLimit, m.pos)
    ensures Fits(m.Forest(m.pos), count) && Alike(m.Forest(m.pos), Heads(m.hash[..], m.pos))
  {
    assert ForestOk(m.Forest(m.pos), m.Full());
    AlikeAtFirst(m.Forest(m.pos));
  }

  ghost function DeltasOf(f: Finder, a: Heads, count: nat): (ds: seq<nat>)
    requires Fits(f, count) && Alike(f, a)
    ensures |ds| == count
  {
    Deltas(f.hs, f.data, a.table, a.pos, Cur(f.r), count)
  }

  lemma {:induction false} DeltasPrefix(hs: Hasher, data: seq<Byte>, t: seq<nat>, pos: nat, cur: nat, count: nat,
                                        k: nat)
    requires TableOk(hs, t, pos) && k <= count && (count > 0 ==> cur + count + 3 <= |data|)
    ensures Deltas(hs, data, t, pos, cur, count)[..k] == Deltas(hs, data, t, pos, cur, k)
    decreases count
  {
    if k > 0 {
      var h := H4(hs, data, cur);
      hide H4;
      DeltasPrefix(hs, data, t[h := pos], pos + 1, cur + 1, count - 1, k - 1);
    }
  }

  /** The number of positions entered. */
  ghost function Entries(ms: seq<Move>): nat {
    if ms == [] then 0 else (if ms[0].Entry? then 1 else 0) + Entries(ms[1..])
  }

  ghost predicate TableStays(ms: seq<Move>) { forall i | 0 <= i < |ms| :: !ms[i].TableLowered? }

  /** The distances that are left of a block after a move of the tree thread. */
  lemma BlockAfter(f: Finder, a: Heads, m: Move, num: nat)
    requires Agreeing(f, a) && CanMove(f, a, m) && !m.TableLowered? && (m.Entry? ==> num > 0)
    requires num > 0 ==> Cur(f.r) + num + 3 <= |f.data|
    ensures var g, b, left := FinderAfter(f, a, m), HeadsAfter(f, a, m), if m.Entry? then num - 1 else num;
      && RingOk(g.r) && TableOk(g.hs, b.table, b.pos) && (left > 0 ==> Cur(g.r) + left + 3 <= |g.data|)
      && Deltas(f.hs, f.data, a.table, a.pos, Cur(f.r), num)[num - left..]
         == Deltas(g.hs, g.data, b.table, b.pos, Cur(g.r), left)
  {
    hide ForestOk, H4, Entered, Alike, Agreeing, Shaped;
    AgreeingShaped(f, a);
    AlikeTable(f, a);
    MoveKeeps(f, a, m);
    AgreeingShaped(FinderAfter(f, a, m), HeadsAfter(f, a, m));
    ShapedRing(f);
    ShapedRing(FinderAfter(f, a, m));
    if m.Entry? {
      EntryKeepsAlike(f, a, m.rounds, m.n);
      AlikeTable(Advanced(Entered(f, m.rounds), m.n), NextHeads(f, a));
      EnteredSame(f, m.rounds);
    }
  }

  lemma ShapedRing(f: Finder)
    requires Shaped(f)
    ensures RingOk(f.r)
  {}

  lemma AlikeTable(f: Finder, a: Heads)
    requires Alike(f, a)
    ensures TableOk(f.hs, a.table, a.pos)
  {}

  lemma MovesStep(f: Finder, a: Heads, ms: seq<Move>, g: Finder, b: Heads)
    requires Moves(f, a, ms, g, b) && TableStays(ms)
    ensures ms == [] ==> g == f && b == a && Entries(ms) == 0
    ensures ms != [] ==>
      && Agreeing(f, a) && CanMove(f, a, ms[0]) && !ms[0].TableLowered? && TableStays(ms[1..])
      && Moves(FinderAfter(f, a, ms[0]), HeadsAfter(f, a, ms[0]), ms[1..], g, b)
      && Entries(ms) == Entries(ms[1..]) + if ms[0].Entry? then 1 else 0
  {
    hide Agreeing, CanMove, FinderAfter, HeadsAfter;
  }

  /** A block of `num` distances, filled at `f` and `a`, may be taken in pieces: however often the tree thread has
      normalized since, the next `count` of them, from the `at`-th on, are the distances that its trees need. */
  lemma {:induction false} PieceOfBlock(f: Finder, a: Heads, ms: seq<Move>, g: Finder, b: Heads, num: nat, at: nat,
                                        count: nat)
    requires Agreeing(f, a) && Moves(f, a, ms, g, b) && TableStays(ms) && at == Entries(ms)
    requires RingOk(f.r) && TableOk(f.hs, a.table, a.pos) && (num > 0 ==> Cur(f.r) + num + 3 <= |f.data|)
    requires at + count <= num && Fits(g, count) && Alike(g, b)
    ensures Deltas(f.hs, f.data, a.table, a.pos, Cur(f.r), num)[at..at + count] == DeltasOf(g, b, count)
    decreases |ms|
  {
    hide *;
    MovesStep(f, a, ms, g, b);
    var block := Deltas(f.hs, f.data, a.table, a.pos, Cur(f.r), num);
    if ms == [] {
      DeltasPrefix(f.hs, f.data, a.table, a.pos, Cur(f.r), num, count);
      DeltasAre(g, b, count);
    } else {
      var m, rest := ms[0], ms[1..];
      MoveKeeps(f, a, m);
      BlockAfter(f, a, m, num);
      var skip := if m.Entry? then 1 else 0;
      PieceOfBlock(FinderAfter(f, a, m), HeadsAfter(f, a, m), rest, g, b, num - skip, at - skip, count);
      assert block[at..at + count] == block[skip..][at - skip..at - skip + count];
    }
  }

  lemma DeltasAre(f: Finder, a: Heads, count: nat)
    requires Fits(f, count) && Alike(f, a)
    ensures RingOk(f.r) && TableOk(f.hs, a.table, a.pos) && (count > 0 ==> Cur(f.r) + count + 3 <= |f.data|)
    ensures DeltasOf(f, a, count) == Deltas(f.hs, f.data, a.table, a.pos, Cur(f.r), count)
  {}

  ghost function Stepped(f: Finder, rounds: nat): Finder
    requires Shaped(f) && Before(f)
  {
    Advanced(Entered(f, rounds), f.n)
  }

  /** One position further there is still room for the rest of the batch. */
  lemma FitsNext(f: Finder, count: nat, rounds: nat)
    requires Fits(f, count) && count > 1
    ensures Shaped(f) && Before(f)
    ensures var g := Stepped(f, rounds);
      Fits(g, count - 1) && g.r == Forward(f.r) && g.data == f.data && g.n == f.n
  {
    EnterKeeps(f, rounds, false);
    var e := Entered(f, rounds);
    EnteredSame(f, rounds);
    hide Descend, BucketOk, EntryOk, Remembered, H2, H3, H4;
    AdvanceKeeps(e, f.n, false);
  }

  /** The other distances of the batch are those of the next position. */
  lemma DeltasNext(f: Finder, a: Heads, count: nat, rounds: nat)
    requires Fits(f, count) && Alike(f, a) && count > 1
    ensures Shaped(f) && Before(f) && Fits(Stepped(f, rounds), count - 1) && |a.table| == |f.heads|
    ensures Alike(Stepped(f, rounds), NextHeads(f, a))
    ensures DeltasOf(f, a, count)[1..] == DeltasOf(Stepped(f, rounds), NextHeads(f, a), count - 1)
  {
    FitsNext(f, count, rounds);
    EntryKeepsAlike(f, a, rounds, f.n);
    EnteredSame(f, rounds);
    hide Descend, BucketOk, EntryOk, Remembered, H4, Entered;
  }

  /** Out of the window, any reference is the empty tree. */
  lemma OutsideIsEmpty(text: seq<Byte>, r: Ring, n: nat, son: seq<nat>, m: nat, k: nat, rounds: nat)
    requires Ready(text, r, n, son, m, r.pos, r.pos) && Ready(text, r, n, son, k, r.pos, r.pos)
    requires m <= Low(r) && k <= Low(r)
    ensures Descend(text, r, n, son, m, r.pos, r.pos, rounds) == Descend(text, r, n, son, k, r.pos, r.pos, rounds)
    ensures m <= r.pos && TreeAt(r, son, m) == Leaf && k <= r.pos && TreeAt(r, son, k) == Leaf
  {}

  lemma FirstDelta(f: Finder, a: Heads, count: nat)
    requires Fits(f, count) && Alike(f, a) && count > 0
    ensures Shaped(f) && Before(f) && RingOk(f.r) && CurHash(f) < |a.table| == |f.heads|
    ensures DeltasOf(f, a, count)[0] == a.pos - a.table[CurHash(f)] > 0
    ensures SameDistance(f.r, f.heads[CurHash(f)], a.pos, a.table[CurHash(f)])
    ensures f.r.pos < f.r.cbs ==> a.pos == f.r.pos == f.r.cyc
    ensures Ready(f.data, f.r, f.n, f.son, f.heads[CurHash(f)], f.r.pos, f.r.pos)
    ensures Searchable(f.data, f.r, f.n, f.son, f.heads[CurHash(f)])
  {
    assert BucketOk(f, CurHash(f));
    hide H4, EntryOk, Remembered;
  }

  lemma EnteredSon(f: Finder, rounds: nat)
    requires Shaped(f) && Before(f)
    ensures Ready(f.data, f.r, f.n, f.son, f.heads[CurHash(f)], f.r.pos, f.r.pos)
    ensures Entered(f, rounds).son
         == Descend(f.data, f.r, f.n, f.son, f.heads[CurHash(f)], f.r.pos, f.r.pos, rounds)
  {
    hide Descend, H2, H3, H4;
  }

  /** The first distance leads to the tree of the current hash. */
  lemma FirstReady(f: Finder, a: Heads, count: nat, rounds: nat)
    requires Fits(f, count) && Alike(f, a) && count > 0
    ensures var delta := DeltasOf(f, a, count)[0];
      && StepReady(f.data, f.r, f.n, f.son, delta)
      && (Head(f.r, delta) == f.heads[CurHash(f)] || (Head(f.r, delta) <= Low(f.r) && f.heads[CurHash(f)] <= Low(f.r)))
      && StepSon(f.data, f.r, f.n, f.son, delta, rounds) == Entered(f, rounds).son
  {
    hide ForestOk, Fits, Alike, Shaped, DeltasOf, Descend, CurHash, TreeAt, Entered, Falls;
    FirstDelta(f, a, count);
    EnteredSon(f, rounds);
    if f.heads[CurHash(f)] <= Low(f.r) {
      OutsideIsEmpty(f.data, f.r, f.n, f.son, Head(f.r, DeltasOf(f, a, count)[0]), f.heads[CurHash(f)], rounds);
    }
  }

  /** In every reachable state the distances of the hash thread make a well-formed batch. */
  lemma {:induction false} ReachableIsReady(f: Finder, a: Heads, hashes: seq<nat>, i: nat, rounds: nat)
    requires i <= |hashes| && Fits(f, |hashes| - i) && Alike(f, a) && hashes[i..] == DeltasOf(f, a, |hashes| - i)
    ensures BatchReady(f.data, f.r, f.n, f.son, hashes, i, rounds)
    decreases |hashes| - i
  {
    if i < |hashes| {
      var count := |hashes| - i;
      FirstReady(f, a, count, rounds);
      assert hashes[i] == hashes[i..][0];
      if count > 1 {
        FitsNext(f, count, rounds);
        DeltasNext(f, a, count, rounds);
        assert hashes[i + 1..] == hashes[i..][1..];
        ReachableIsReady(Stepped(f, rounds), NextHeads(f, a), hashes, i + 1, rounds);
      }
      hide Fits, Descend, Entered, DeltasOf;
    }
  }

  // ----- what a batch does to the finder -----

  /** The tree array after `k` positions of a batch. */
  ghost function SonAfter(f: Finder, count: nat, rounds: nat, k: nat): seq<nat>
    requires Fits(f, count) && k <= count
    decreases k
  {
    if k == 0 then f.son
    else if k == 1 then Entered(f, rounds).son
    else
      FitsNext(f, count, rounds);
      SonAfter(Stepped(f, rounds), count - 1, rounds, k - 1)
  }

  /** The output of one position: the matches of the tree of its hash that are longer than `best`. */
  ghost function FirstWords(f: Finder, count: nat, rounds: nat, best: nat): seq<nat>
    requires Fits(f, count) && count > 0
  {
    TreeInWindow(f);
    Words(Matches(f.data, Bucket(f, CurHash(f)), Cur(f.r), f.n, rounds, best))
  }

  /** The output of `k` positions. */
  ghost function OutAfter(f: Finder, count: nat, rounds: nat, best: nat, k: nat): seq<nat>
    requires Fits(f, count) && k <= count
    decreases k
  {
    if k == 0 then [] else
    if k == 1 then FirstWords(f, count, rounds, best)
    else
      FitsNext(f, count, rounds);
      FirstWords(f, count, rounds, best) + OutAfter(Stepped(f, rounds), count - 1, rounds, best, k - 1)
  }

  lemma FirstMatches(f: Finder, a: Heads, count: nat, rounds: nat, best: nat)
    requires Fits(f, count) && Alike(f, a) && count > 0
    ensures StepReady(f.data, f.r, f.n, f.son, DeltasOf(f, a, count)[0])
    ensures Words(StepMatches(f.data, f.r, f.n, f.son, DeltasOf(f, a, count)[0], rounds, best))
         == FirstWords(f, count, rounds, best)
  {
    FirstReady(f, a, count, rounds);
    TreeInWindow(f);
    hide Deltas, Matches, BucketOk, EntryOk, Remembered, H2, H3, H4, Entered, Window;
  }

  /** The plain loop over a batch enters its positions one after the other and writes the matches of each. */
  lemma {:induction false} BatchIsWalk(f: Finder, a: Heads, hashes: seq<nat>, i: nat, rounds: nat, best: nat,
                                       out: seq<nat>, limit: nat)
    requires i <= |hashes| && Fits(f, |hashes| - i) && Alike(f, a) && hashes[i..] == DeltasOf(f, a, |hashes| - i)
    ensures BatchReady(f.data, f.r, f.n, f.son, hashes, i, rounds)
    ensures var b := Batch(f.data, f.r, f.n, f.son, hashes, i, rounds, best, out, limit);
      && i <= b.end <= |hashes| && (b.end < |hashes| ==> |b.out| >= limit)
      && b.son == SonAfter(f, |hashes| - i, rounds, b.end - i)
      && b.out == out + OutAfter(f, |hashes| - i, rounds, best, b.end - i)
    decreases |hashes| - i
  {
    hide *;
    var count := |hashes| - i;
    ReachableIsReady(f, a, hashes, i, rounds);
    if i == |hashes| || |out| >= limit {
      BatchEnd(f.data, f.r, f.n, f.son, hashes, i, rounds, best, out, limit);
      WalkNone(f, count, rounds, best, out);
    } else {
      assert hashes[i] == hashes[i..][0];
      FirstReady(f, a, count, rounds);
      FirstMatches(f, a, count, rounds, best);
      BatchStep(f.data, f.r, f.n, f.son, hashes, i, rounds, best, out, limit);
      var first := FirstWords(f, count, rounds, best);
      if count > 1 {
        FitsNext(f, count, rounds);
        DeltasNext(f, a, count, rounds);
        SteppedSon(f, rounds);
        assert hashes[i + 1..] == hashes[i..][1..];
        BatchIsWalk(Stepped(f, rounds), NextHeads(f, a), hashes, i + 1, rounds, best, out + first, limit);
        var b := Batch(f.data, f.r, f.n, f.son, hashes, i, rounds, best, out, limit);
        WalkMore(f, count, rounds, best, b.end - i - 1, b.end - i, out);
      } else {
        BatchEnd(f.data, Forward(f.r), f.n, StepSon(f.data, f.r, f.n, f.son, hashes[i], rounds), hashes, i + 1, rounds,
                 best, out + first, limit);
        WalkFirst(f, count, rounds, best);
      }
    }
  }

  lemma WalkNone(f: Finder, count: nat, rounds: nat, best: nat, out: seq<nat>)
    requires Fits(f, count)
    ensures SonAfter(f, count, rounds, 0) == f.son && out + OutAfter(f, count, rounds, best, 0) == out
  {}

  lemma WalkFirst(f: Finder, count: nat, rounds: nat, best: nat)
    requires Fits(f, count) && count > 0
    ensures Shaped(f) && Before(f) && SonAfter(f, count, rounds, 1) == Entered(f, rounds).son
    ensures OutAfter(f, count, rounds, best, 1) == FirstWords(f, count, rounds, best)
  {
    hide Matches, Words, Entered, FirstWords;
  }

  lemma WalkMore(f: Finder, count: nat, rounds: nat, best: nat, k: nat, more: nat, out: seq<nat>)
    requires Fits(f, count) && count > 1 && more == k + 1 <= count
    ensures Shaped(f) && Before(f) && Fits(Stepped(f, rounds), count - 1)
    ensures SonAfter(f, count, rounds, more) == SonAfter(Stepped(f, rounds), count - 1, rounds, k)
    ensures var first := FirstWords(f, count, rounds, best);
      out + OutAfter(f, count, rounds, best, more)
        == (out + first) + OutAfter(Stepped(f, rounds), count - 1, rounds, best, k)
  {
    hide Matches, Words, Entered, Stepped, Bucket, FirstWords, Fits, ForestOk, Shaped, Before, Forward;
    FitsNext(f, count, rounds);
    SteppedSon(f, rounds);
    Joined(out, FirstWords(f, count, rounds, best), OutAfter(Stepped(f, rounds), count - 1, rounds, best, k));
  }

  lemma Joined(a: seq<nat>, b: seq<nat>, c: seq<nat>)
    ensures a + (b + c) == (a + b) + c && (c == [] ==> b + c == b)
  {}

  lemma SteppedSon(f: Finder, rounds: nat)
    requires Shaped(f) && Before(f)
    ensures Stepped(f, rounds).son == Entered(f, rounds).son
  {
    hide Entered;
  }

  /** The batched search in any reachable state: it enters the positions of the batch into the trees one after the
      other and writes the matches of each, exactly as the plain loop does, and never reports a failure. */
  method BtSearch(buf: seq<Byte>, cur: nat, lenLimit: Word, pos: Word, son: array<Word>, cyclicBufferPos: nat,
                  cyclicBufferSize: Word, cut: Word, best: Word, hashes: seq<Word>, d: seq<nat>, limit: nat,
                  ghost f: Finder, ghost a: Heads)
    returns (ok: bool, out: seq<nat>, end: nat)
    requires f.data == buf && f.n == lenLimit && f.son == son[..]
    requires f.r == Ring(pos, cyclicBufferPos, cyclicBufferSize, cur - pos)
    requires best < lenLimit && pos + |hashes| < 0x1_0000_0000 && |d| < limit
    requires Fits(f, |hashes|) && Alike(f, a) && hashes == DeltasOf(f, a, |hashes|)
    modifies son
    ensures ok && end <= |hashes| && (end < |hashes| ==> |out| >= limit)
    ensures son[..] == SonAfter(f, |hashes|, Rounds(cut), end)
    ensures out == d + OutAfter(f, |hashes|, Rounds(cut), best, end)
  {
    hide *;
    assert hashes[0..] == hashes;
    ReachableIsReady(f, a, hashes, 0, Rounds(cut));
    BatchIsWalk(f, a, hashes, 0, Rounds(cut), best, d, limit);
    ok, out, end := GetMatchesSpecN2(buf, cur, lenLimit, pos, son, cyclicBufferPos, cyclicBufferSize, cut, best, hashes,
                                     d, limit, f.r);
  }

  /** The plain loop in the same state, with the same outcome. */
  method PlainSearch(buf: seq<Byte>, cur: nat, lenLimit: Word, pos: Word, son: array<Word>, cyclicBufferPos: nat,
                     cyclicBufferSize: Word, cut: Word, best: Word, hashes: seq<Word>, d: seq<nat>, limit: nat,
                     ghost f: Finder, ghost a: Heads)
    returns (out: seq<nat>, end: nat)
    requires f.data == buf && f.n == lenLimit && f.son == son[..]
    requires f.r == Ring(pos, cyclicBufferPos, cyclicBufferSize, cur - pos)
    requires best < lenLimit && pos + |hashes| < 0x1_0000_0000 && |d| < limit
    requires Fits(f, |hashes|) && Alike(f, a) && hashes == DeltasOf(f, a, |hashes|)
    modifies son
    ensures end <= |hashes| && (end < |hashes| ==> |out| >= limit)
    ensures son[..] == SonAfter(f, |hashes|, Rounds(cut), end)
    ensures out == d + OutAfter(f, |hashes|, Rounds(cut), best, end)
  {
    hide *;
    assert hashes[0..] == hashes;
    ReachableIsReady(f, a, hashes, 0, Rounds(cut));
    BatchIsWalk(f, a, hashes, 0, Rounds(cut), best, d, limit);
    out, end := SearchEach(buf, cur, lenLimit, pos, son, cyclicBufferPos, cyclicBufferSize, cut, best, hashes, d, limit,
                           f.r);
  }
}
