/** The hash table and the trees below its heads: what every step of the match finder keeps. */
module LzForest {
  import opened Arith
  import opened BitModel
  import opened LzTree
  import opened LzSon
  import opened LzHash

  datatype Hasher = Hasher(crc: CrcTable, size: nat)

  function H2(hs: Hasher, data: seq<Byte>, x: nat): (h: nat)
    requires x + 4 <= |data|
    ensures h < HASH2_SIZE
  {
    Hash2(hs.crc, data[x], data[x + 1])
  }

  function H3(hs: Hasher, data: seq<Byte>, x: nat): (h: nat)
    requires x + 4 <= |data|
    ensures FIX3_HASH_SIZE <= h < FIX4_HASH_SIZE
  {
    FIX3_HASH_SIZE + Hash3(hs.crc, data[x], data[x + 1], data[x + 2])
  }

  function H4(hs: Hasher, data: seq<Byte>, x: nat): (h: nat)
    requires x + 4 <= |data| && hs.size > 0
    ensures FIX4_HASH_SIZE <= h < FIX4_HASH_SIZE + hs.size
  {
    FIX4_HASH_SIZE + Hash4(hs.crc, hs.size, data[x], data[x + 1], data[x + 2], data[x + 3])
  }

  /** The finder stands at ring `r`, has seen every position below reference `top`, and compares `n` bytes. Until the
      cyclic buffer has been filled once, its index is the position. */
  datatype Finder = Finder(hs: Hasher, data: seq<Byte>, r: Ring, son: seq<nat>, heads: seq<nat>, top: nat, n: nat)

  ghost predicate Shaped(f: Finder) {
    && f.hs.size > 0
    && |f.heads| == FIX4_HASH_SIZE + f.hs.size
    && Falls(f.r, f.son, f.top)
    && (f.top == f.r.pos || f.top == f.r.pos + 1)
    && 4 <= f.n && Cur(f.r) + f.n <= |f.data|
    && (f.r.pos < f.r.cbs ==> f.r.base == -1 && f.r.cyc == f.r.pos)
    && forall i | 0 <= i < |f.heads| :: f.heads[i] < f.top
  }

  ghost function Bucket(f: Finder, h: nat): Tree
    requires Shaped(f) && FIX4_HASH_SIZE <= h < |f.heads|
  {
    TreeAt(f.r, f.son, f.heads[h])
  }

  predicate Hashed(hs: Hasher, data: seq<Byte>, xs: set<nat>, h: nat)
    requires hs.size > 0
  {
    forall x | x in xs :: x + 4 <= |data| && H4(hs, data, x) == h
  }

  /** The tree of a bucket: a search tree without repetition over suffixes with that hash. */
  ghost predicate BucketOk(f: Finder, h: nat)
    requires Shaped(f) && FIX4_HASH_SIZE <= h < |f.heads|
  {
    var t := Bucket(f, h);
    && Sorted(f.data, t, f.n)
    && Apart(t)
    && Hashed(f.hs, f.data, Nodes(t), h)
  }

  /** An entry of the two- and three-byte tables that is still in the window has the hash of its index. */
  ghost predicate EntryOk(f: Finder, h: nat)
    requires Shaped(f) && h < FIX4_HASH_SIZE
  {
    var m := f.heads[h];
    m > Low(f.r) ==>
      0 <= m + f.r.base && m + f.r.base + 4 <= |f.data|
      && h == if h < FIX3_HASH_SIZE then H2(f.hs, f.data, m + f.r.base) else H3(f.hs, f.data, m + f.r.base)
  }

  /** A position seen is not newer than the entries for its hashes, and, if the searches are `full`, a
      suffix as good is in its tree. */
  ghost predicate Remembered(f: Finder, x: nat, full: bool)
    requires Shaped(f) && x + 4 <= |f.data|
  {
    && f.heads[H2(f.hs, f.data, x)] + f.r.base >= x
    && f.heads[H3(f.hs, f.data, x)] + f.r.base >= x
    && (full ==> Covered(f.data, Bucket(f, H4(f.hs, f.data, x)), x, f.n))
  }

  predicate Seen(f: Finder, x: nat) {
    Low(f.r) + f.r.base < x < f.top + f.r.base
  }

  ghost predicate ForestOk(f: Finder, full: bool) {
    && Shaped(f)
    && (forall h | FIX4_HASH_SIZE <= h < |f.heads| :: BucketOk(f, h))
    && (forall h | 0 <= h < FIX4_HASH_SIZE :: EntryOk(f, h))
    && (forall x: nat | Seen(f, x) && x + 4 <= |f.data| :: Remembered(f, x, full))
  }

  ghost predicate Before(f: Finder) { f.top == f.r.pos }

  /** The finder after the current position has been entered everywhere. */
  ghost function Entered(f: Finder, rounds: nat): Finder
    requires Shaped(f) && Before(f)
  {
    var c := Cur(f.r);
    var h := H4(f.hs, f.data, c);
    Finder(f.hs, f.data, f.r, Descend(f.data, f.r, f.n, f.son, f.heads[h], f.r.pos, f.r.pos, rounds),
           f.heads[H2(f.hs, f.data, c) := f.r.pos][H3(f.hs, f.data, c) := f.r.pos][h := f.r.pos],
           f.r.pos + 1, f.n)
  }

  ghost function CurHash(f: Finder): nat
    requires Shaped(f)
  {
    H4(f.hs, f.data, Cur(f.r))
  }

  lemma BucketsApart(f: Finder, g: nat, h: nat)
    requires Shaped(f) && FIX4_HASH_SIZE <= g < |f.heads| && FIX4_HASH_SIZE <= h < |f.heads| && g != h
    requires BucketOk(f, g) && BucketOk(f, h)
    ensures Nodes(Bucket(f, g)) !! Nodes(Bucket(f, h))
  {
    hide Bucket, Sorted, Apart, H4;
  }

  /** What entering the current position does to the trees. */
  lemma EnteredBuckets(f: Finder, rounds: nat)
    requires ForestOk(f, false) && Before(f)
    ensures Shaped(Entered(f, rounds)) && Falling(Bucket(f, CurHash(f)), Cur(f.r))
    ensures Bucket(Entered(f, rounds), CurHash(f)) == Insert(f.data, Bucket(f, CurHash(f)), Cur(f.r), f.n, rounds)
    ensures forall h | FIX4_HASH_SIZE <= h < |f.heads| && h != CurHash(f) ::
      Bucket(Entered(f, rounds), h) == Bucket(f, h)
  {
    var h0 := CurHash(f);
    var g := Entered(f, rounds);
    assert BucketOk(f, h0);
    hide H2, H3, H4, Insert, TreeAt, Descend, Sorted, BucketOk, EntryOk, Remembered;
    DescendInserts(f.data, f.r, f.n, f.son, f.heads[h0], rounds);
    forall h | FIX4_HASH_SIZE <= h < |f.heads| && h != h0 ensures Bucket(g, h) == Bucket(f, h) {
      assert BucketOk(f, h);
      BucketsApart(f, h, h0);
      assert TreeAt(f.r, g.son, f.heads[h]) == TreeAt(f.r, f.son, f.heads[h]);
    }
  }

  /** A tree of the window has fewer nodes than the cyclic buffer has slots. */
  lemma BucketIsSmall(f: Finder, h: nat)
    requires Shaped(f) && Before(f) && FIX4_HASH_SIZE <= h < |f.heads|
    ensures |Nodes(Bucket(f, h))| < f.r.cbs
  {
    TreeAtFalls(f.r, f.son, f.heads[h], Cur(f.r));
    hide TreeAt;
    CountBetween(Nodes(Bucket(f, h)), Low(f.r) + f.r.base, Cur(f.r));
  }

  lemma {:induction false} CountBetween(xs: set<nat>, lo: int, hi: int)
    requires lo < hi && forall x | x in xs :: lo < x < hi
    ensures |xs| < hi - lo
    decreases hi - lo
  {
    if xs != {} {
      if hi - 1 in xs {
        assert xs == (xs - {hi - 1}) + {hi - 1};
      }
      CountBetween(xs - {hi - 1}, lo, hi - 1);
    }
  }

  /** Entering the current position keeps all the trees, the tables and the memory of what was seen. */
  lemma EnterKeeps(f: Finder, rounds: nat, full: bool)
    requires ForestOk(f, full) && Before(f) && (full ==> rounds >= f.r.cbs)
    ensures ForestOk(Entered(f, rounds), full)
  {
    var g := Entered(f, rounds);
    EnteredBuckets(f, rounds);
    forall h | FIX4_HASH_SIZE <= h < |g.heads| ensures BucketOk(g, h) { EnteredBucketOk(f, rounds, h); }
    forall h | 0 <= h < FIX4_HASH_SIZE ensures EntryOk(g, h) { EnteredEntryOk(f, rounds, h); }
    forall x: nat | Seen(g, x) && x + 4 <= |g.data| ensures Remembered(g, x, full) {
      EnteredRemembered(f, rounds, full, x);
    }
  }

  lemma EnteredBucketOk(f: Finder, rounds: nat, h: nat)
    requires ForestOk(f, false) && Before(f) && FIX4_HASH_SIZE <= h < |f.heads|
    ensures Shaped(Entered(f, rounds)) && BucketOk(Entered(f, rounds), h)
  {
    EnteredBuckets(f, rounds);
    assert BucketOk(f, h) && BucketOk(f, CurHash(f));
    hide Bucket, Entered, H4, Sorted, Apart, Insert;
    InsertKeepsTree(f.data, Bucket(f, CurHash(f)), Cur(f.r), f.n, rounds);
    EnteredSame(f, rounds);
  }

  lemma EnteredSame(f: Finder, rounds: nat)
    requires Shaped(f) && Before(f)
    ensures var g := Entered(f, rounds);
      g.hs == f.hs && g.data == f.data && g.r == f.r && g.n == f.n && |g.heads| == |f.heads| && g.top == f.r.pos + 1
  {}

  lemma EnteredEntryOk(f: Finder, rounds: nat, h: nat)
    requires ForestOk(f, false) && Before(f) && h < FIX4_HASH_SIZE && Shaped(Entered(f, rounds))
    ensures EntryOk(Entered(f, rounds), h)
  {
    hide H2, H3, H4, Descend, BucketOk, Remembered;
    assert EntryOk(f, h);
  }

  lemma EnteredHeads(f: Finder, rounds: nat, h: nat)
    requires Shaped(f) && Before(f) && h < |f.heads|
    ensures Entered(f, rounds).heads[h] == f.heads[h] || Entered(f, rounds).heads[h] == f.r.pos
    ensures h == H2(f.hs, f.data, Cur(f.r)) || h == H3(f.hs, f.data, Cur(f.r)) || h == H4(f.hs, f.data, Cur(f.r)) ==>
      Entered(f, rounds).heads[h] == f.r.pos
  {}

  lemma EnteredRemembered(f: Finder, rounds: nat, full: bool, x: nat)
    requires ForestOk(f, full) && Before(f) && (full ==> rounds >= f.r.cbs) && Shaped(Entered(f, rounds))
    requires Seen(Entered(f, rounds), x) && x + 4 <= |f.data|
    ensures Remembered(Entered(f, rounds), x, full)
  {
    EnteredSame(f, rounds);
    EnteredHeads(f, rounds, H2(f.hs, f.data, x));
    EnteredHeads(f, rounds, H3(f.hs, f.data, x));
    assert x < Cur(f.r) ==> Remembered(f, x, full);
    hide Bucket, Entered, H2, H3, H4, BucketOk, EntryOk, Covered;
    if full { EnteredCovers(f, rounds, x); }
  }

  lemma EnteredCovers(f: Finder, rounds: nat, x: nat)
    requires ForestOk(f, true) && Before(f) && rounds >= f.r.cbs && Shaped(Entered(f, rounds))
    requires Seen(Entered(f, rounds), x) && x + 4 <= |f.data|
    ensures Covered(f.data, Bucket(Entered(f, rounds), H4(f.hs, f.data, x)), x, f.n)
  {
    EnteredBuckets(f, rounds);
    EnteredSame(f, rounds);
    assert BucketOk(f, CurHash(f));
    assert x < Cur(f.r) ==> Remembered(f, x, true);
    BucketIsSmall(f, CurHash(f));
    var t, c := Bucket(f, CurHash(f)), Cur(f.r);
    assert x <= c && (x == c ==> H4(f.hs, f.data, x) == CurHash(f));
    assert x < c ==> Covered(f.data, Bucket(f, H4(f.hs, f.data, x)), x, f.n);
    hide *;
    SmallTreesAreReached(f.data, t, c, f.n, rounds);
    InsertCovers(f.data, t, c, f.n, rounds, x);
  }

  // ----- the window moves on -----

  /** The finder one position further, comparing `n` bytes from now on. */
  ghost function Advanced(f: Finder, n: nat): Finder {
    Finder(f.hs, f.data, Next(f.r), f.son, f.heads, f.top, n)
  }

  /** The last position of the stream out of the window, and the first one not seen yet. */
  ghost function Horizon(r: Ring): int { Low(r) + r.base }

  ghost function After(r: Ring): nat
    requires RingOk(r)
  {
    Cur(r) + 1
  }

  lemma AdvancedShaped(f: Finder, n: nat, h: nat)
    requires Shaped(f) && f.top == f.r.pos + 1 && 4 <= n && Cur(f.r) + 1 + n <= |f.data|
    ensures Shaped(Advanced(f, n)) && Before(Advanced(f, n))
    ensures FIX4_HASH_SIZE <= h < |f.heads| ==>
      Bucket(Advanced(f, n), h) == Prune(Bucket(f, h), Horizon(Next(f.r)))
  {
    NextPrunes(f.r, f.son, f.r.pos);
    if FIX4_HASH_SIZE <= h < |f.heads| { NextPrunes(f.r, f.son, f.heads[h]); }
  }

  /** A step of the window keeps everything, for the same or fewer bytes. */
  lemma AdvanceKeeps(f: Finder, n: nat, full: bool)
    requires ForestOk(f, full) && f.top == f.r.pos + 1 && 4 <= n <= f.n && Cur(f.r) + 1 + n <= |f.data|
    ensures ForestOk(Advanced(f, n), full) && Before(Advanced(f, n))
  {
    AdvancedShaped(f, n, 0);
    var g := Advanced(f, n);
    forall h | FIX4_HASH_SIZE <= h < |g.heads| ensures BucketOk(g, h) { AdvancedBucketOk(f, n, h); }
    forall h | 0 <= h < FIX4_HASH_SIZE ensures EntryOk(g, h) {
      assert EntryOk(f, h);
    }
    forall x: nat | Seen(g, x) && x + 4 <= |g.data| ensures Remembered(g, x, full) {
      AdvancedRemembered(f, n, full, x);
    }
  }

  lemma AdvancedBucketOk(f: Finder, n: nat, h: nat)
    requires ForestOk(f, false) && f.top == f.r.pos + 1 && 4 <= n <= f.n && Cur(f.r) + 1 + n <= |f.data|
    requires FIX4_HASH_SIZE <= h < |f.heads|
    ensures Shaped(Advanced(f, n)) && BucketOk(Advanced(f, n), h)
  {
    var low := Horizon(Next(f.r));
    BucketFacts(f, h);
    AdvancedShaped(f, n, h);
    hide Prune, Shaped, Bucket, Horizon, After, H4, Falling, Sorted, Apart, Hashed;
    PruneKeeps(f.data, Bucket(f, h), f.n, After(f.r), low);
    SortedShrinks(f.data, Prune(Bucket(f, h), low), f.n, n);
    FewerHashed(f.hs, f.data, Nodes(Bucket(f, h)), Nodes(Prune(Bucket(f, h), low)), h);
  }

  lemma BucketFacts(f: Finder, h: nat)
    requires ForestOk(f, false) && f.top == f.r.pos + 1 && FIX4_HASH_SIZE <= h < |f.heads|
    ensures BucketOk(f, h) && Falling(Bucket(f, h), After(f.r))
  {
    TreeAtFalls(f.r, f.son, f.heads[h], Cur(f.r) + 1);
  }

  lemma FewerHashed(hs: Hasher, data: seq<Byte>, xs: set<nat>, ys: set<nat>, h: nat)
    requires hs.size > 0 && Hashed(hs, data, xs, h) && ys <= xs
    ensures Hashed(hs, data, ys, h)
  {}

  lemma AdvancedRemembered(f: Finder, n: nat, full: bool, x: nat)
    requires ForestOk(f, full) && f.top == f.r.pos + 1 && 4 <= n <= f.n && Cur(f.r) + 1 + n <= |f.data|
    requires Seen(Advanced(f, n), x) && x + 4 <= |f.data|
    ensures Shaped(Advanced(f, n)) && Remembered(Advanced(f, n), x, full)
  {
    var h := H4(f.hs, f.data, x);
    assert Remembered(f, x, full);
    BucketFacts(f, h);
    AdvancedShaped(f, n, h);
    var low := Horizon(Next(f.r));
    hide Prune, Shaped, Bucket, Horizon, After, H2, H3, H4, Falling, Sorted, Apart, Hashed, Covered;
    if full {
      PruneCovers(f.data, Bucket(f, h), x, f.n, After(f.r), low);
      CoveredShrinks(f.data, Prune(Bucket(f, h), low), x, f.n, n);
    }
  }

  // ----- normalisation -----

  ghost function Normalized(f: Finder, sub: nat, son: seq<nat>, heads: seq<nat>): Finder
    requires sub <= f.r.pos
  {
    Finder(f.hs, f.data, Rebased(f.r, sub), son, heads, f.r.pos - sub, f.n)
  }

  ghost predicate Normalizes(f: Finder, sub: nat, son: seq<nat>, heads: seq<nat>) {
    Shaped(f) && Before(f) && sub <= Low(f.r) && Saturated(f.son, son, sub) && Saturated(f.heads, heads, sub)
  }

  /** Normalisation leaves the forest as it is: the same trees, over the same positions of the stream. */
  lemma NormalizeKeeps(f: Finder, sub: nat, son: seq<nat>, heads: seq<nat>, full: bool)
    requires ForestOk(f, full) && Normalizes(f, sub, son, heads)
    ensures var g := Normalized(f, sub, son, heads);
      && ForestOk(g, full) && Before(g) && Cur(g.r) == Cur(f.r)
      && forall h | FIX4_HASH_SIZE <= h < |f.heads| :: Bucket(g, h) == Bucket(f, h)
  {
    var g := Normalized(f, sub, son, heads);
    NormalizedShaped(f, sub, son, heads);
    hide Normalized, TreeAt, Sorted, Apart, Hashed, EntryOk, Remembered, Bucket;
    forall h | FIX4_HASH_SIZE <= h < |g.heads| ensures BucketOk(g, h) { assert BucketOk(f, h); }
    forall h | 0 <= h < FIX4_HASH_SIZE ensures EntryOk(g, h) { NormalizedEntryOk(f, sub, son, heads, full, h); }
    forall x: nat | Seen(g, x) && x + 4 <= |g.data| ensures Remembered(g, x, full) {
      NormalizedRemembered(f, sub, son, heads, full, x);
    }
  }

  lemma NormalizedShaped(f: Finder, sub: nat, son: seq<nat>, heads: seq<nat>)
    requires Normalizes(f, sub, son, heads)
    ensures var g := Normalized(f, sub, son, heads);
      && Shaped(g) && Before(g) && Cur(g.r) == Cur(f.r) && g.data == f.data && g.n == f.n && g.hs == f.hs
      && |g.heads| == |f.heads|
      && forall h | FIX4_HASH_SIZE <= h < |f.heads| :: Bucket(g, h) == Bucket(f, h)
  {
    var g := Normalized(f, sub, son, heads);
    NormalizeKeepsTrees(f.r, f.son, son, sub, f.r.pos - 1);
    forall h | FIX4_HASH_SIZE <= h < |f.heads| ensures Bucket(g, h) == Bucket(f, h) {
      NormalizeKeepsTrees(f.r, f.son, son, sub, f.heads[h]);
    }
  }

  lemma NormalizedEntryOk(f: Finder, sub: nat, son: seq<nat>, heads: seq<nat>, full: bool, h: nat)
    requires ForestOk(f, full) && Normalizes(f, sub, son, heads) && h < FIX4_HASH_SIZE
    requires Shaped(Normalized(f, sub, son, heads))
    ensures EntryOk(Normalized(f, sub, son, heads), h)
  {
    assert EntryOk(f, h);
    hide TreeAt, H2, H3, BucketOk, Remembered, Falls;
  }

  lemma NormalizedRemembered(f: Finder, sub: nat, son: seq<nat>, heads: seq<nat>, full: bool, x: nat)
    requires ForestOk(f, full) && Normalizes(f, sub, son, heads)
    requires Shaped(Normalized(f, sub, son, heads)) && Seen(Normalized(f, sub, son, heads), x) && x + 4 <= |f.data|
    ensures Remembered(Normalized(f, sub, son, heads), x, full)
  {
    NormalizedShaped(f, sub, son, heads);
    assert Remembered(f, x, full);
    hide TreeAt, H2, H3, H4, BucketOk, EntryOk, Falls, Bucket, Covered;
  }
}
