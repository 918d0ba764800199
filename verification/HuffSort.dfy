/** The symbols in the order of their frequencies: one bucket for each small frequency and one for all large
    ones, which is sorted afterwards; unused symbols come last. */
module HuffSort {
  import opened Lists
  import opened BitModel
  import opened HuffWord
  import opened WordSort

  const NUM_COUNTERS := 208

  function Bucket(f: nat): (k: nat)
    ensures k < NUM_COUNTERS
  {
    if f >= 207 then 207 else f
  }

  /** How many of the first `n` symbols belong to bucket `k`. */
  function InBucket(freqs: seq<nat>, k: nat, n: nat): (c: nat)
    requires n <= |freqs|
    ensures c <= n
  {
    if n == 0 then 0 else InBucket(freqs, k, n - 1) + if Bucket(freqs[n - 1]) == k then 1 else 0
  }

  lemma {:induction false} InBucketGrows(freqs: seq<nat>, k: nat, i: nat, n: nat)
    requires i <= n <= |freqs|
    ensures InBucket(freqs, k, i) <= InBucket(freqs, k, n)
    ensures i < n && Bucket(freqs[i]) == k ==> InBucket(freqs, k, i) < InBucket(freqs, k, n)
    decreases n
  {
    if i < n { InBucketGrows(freqs, k, i, n - 1); }
  }

  /** How many symbols belong to the buckets 1 to `k - 1`. */
  function Below(freqs: seq<nat>, k: nat): nat
    requires k >= 1
  {
    if k == 1 then 0 else Below(freqs, k - 1) + InBucket(freqs, k - 1, |freqs|)
  }

  /** Where bucket `k` starts; the unused symbols are behind all others. */
  function StartOf(freqs: seq<nat>, k: nat): nat {
    if k == 0 then Below(freqs, NUM_COUNTERS) else Below(freqs, k)
  }

  function EndOf(freqs: seq<nat>, k: nat): nat { StartOf(freqs, k) + InBucket(freqs, k, |freqs|) }

  lemma {:induction false} BelowGrows(freqs: seq<nat>, k: nat, j: nat)
    requires 1 <= k <= j
    ensures Below(freqs, k) <= Below(freqs, j)
    ensures k < j ==> Below(freqs, k) + InBucket(freqs, k, |freqs|) <= Below(freqs, j)
    decreases j
  {
    if k < j { BelowGrows(freqs, k, j - 1); }
  }

  lemma BelowStep(freqs: seq<nat>, k: nat)
    requires k >= 1
    ensures Below(freqs, k + 1) == Below(freqs, k) + InBucket(freqs, k, |freqs|)
  {}

  // ----- all buckets together hold all symbols -----

  /** How many of the first `n` symbols belong to buckets 1 to `k - 1`. */
  function BelowIn(freqs: seq<nat>, k: nat, n: nat): nat
    requires k >= 1 && n <= |freqs|
  {
    if k == 1 then 0 else BelowIn(freqs, k - 1, n) + InBucket(freqs, k - 1, n)
  }

  lemma {:induction false} OneMoreBelow(freqs: seq<nat>, k: nat, n: nat)
    requires k >= 1 && n < |freqs|
    ensures BelowIn(freqs, k, n + 1) ==
      BelowIn(freqs, k, n) + if 1 <= Bucket(freqs[n]) < k then 1 else 0
    decreases k
  {
    if k > 1 { OneMoreBelow(freqs, k - 1, n); }
  }

  lemma {:induction false} BelowInIsBelow(freqs: seq<nat>, k: nat)
    requires k >= 1
    ensures BelowIn(freqs, k, |freqs|) == Below(freqs, k)
    decreases k
  {
    if k > 1 { BelowInIsBelow(freqs, k - 1); }
  }

  lemma {:induction false} NoneBelowAtStart(freqs: seq<nat>, k: nat)
    requires k >= 1
    ensures BelowIn(freqs, k, 0) == 0
    decreases k
  {
    if k > 1 { NoneBelowAtStart(freqs, k - 1); }
  }

  lemma {:induction false} AllBuckets(freqs: seq<nat>, n: nat)
    requires n <= |freqs|
    ensures BelowIn(freqs, NUM_COUNTERS, n) + InBucket(freqs, 0, n) == n
  {
    if n == 0 {
      NoneBelowAtStart(freqs, NUM_COUNTERS);
    } else {
      AllBuckets(freqs, n - 1);
      OneMoreBelow(freqs, NUM_COUNTERS, n - 1);
    }
  }

  lemma BucketsFill(freqs: seq<nat>)
    ensures EndOf(freqs, 0) == |freqs|
  {
    AllBuckets(freqs, |freqs|);
    BelowInIsBelow(freqs, NUM_COUNTERS);
  }

  /** Buckets do not overlap, and lie in the order of frequencies. */
  lemma BucketsApart(freqs: seq<nat>, j: nat, k: nat)
    requires j < NUM_COUNTERS && k < NUM_COUNTERS && j != 0 && (k == 0 || j < k)
    ensures EndOf(freqs, j) <= StartOf(freqs, k)
  {
    BelowGrows(freqs, j, if k == 0 then NUM_COUNTERS else k);
  }

  lemma BucketInside(freqs: seq<nat>, k: nat)
    requires k < NUM_COUNTERS
    ensures EndOf(freqs, k) <= |freqs|
  {
    BucketsFill(freqs);
    if k != 0 { BucketsApart(freqs, k, 0); }
  }

  /** Every place belongs to a bucket. */
  lemma {:induction false} PlaceBelow(freqs: seq<nat>, x: nat, k: nat) returns (j: nat)
    requires k >= 1 && x < Below(freqs, k)
    ensures 1 <= j < k && StartOf(freqs, j) <= x < EndOf(freqs, j)
    decreases k
  {
    if x < Below(freqs, k - 1) { j := PlaceBelow(freqs, x, k - 1); } else { j := k - 1; }
  }

  lemma PlaceOf(freqs: seq<nat>, x: nat) returns (j: nat)
    requires x < |freqs|
    ensures j < NUM_COUNTERS && StartOf(freqs, j) <= x < EndOf(freqs, j)
    ensures j == 0 <==> x >= Below(freqs, NUM_COUNTERS)
  {
    BucketsFill(freqs);
    if x < Below(freqs, NUM_COUNTERS) { j := PlaceBelow(freqs, x, NUM_COUNTERS); } else { j := 0; }
  }

  // ----- the list of symbols -----

  ghost predicate FreqsOk(freqs: seq<nat>) {
    |freqs| <= MAX_SYMBOLS && forall i :: 0 <= i < |freqs| ==> freqs[i] < MAX_FREQ
  }

  /** Place `x` of the work array holds symbol `perm[x]`. */
  ghost predicate Holds(freqs: seq<nat>, p: seq<Word>, perm: seq<nat>, x: nat)
    requires FreqsOk(freqs) && x < |p| && x < |perm|
  {
    perm[x] < |freqs| && p[x] == Pack(perm[x], freqs[perm[x]])
  }

  /** Every symbol is in the work array once. */
  ghost predicate Listed(freqs: seq<nat>, p: seq<Word>, perm: seq<nat>) {
    && FreqsOk(freqs) && |perm| == |freqs| <= |p| && Distinct(perm)
    && forall x :: 0 <= x < |freqs| ==> Holds(freqs, p, perm, x)
  }

  /** The places of a range hold frequencies of at least `least`. */
  ghost predicate Least(freqs: seq<nat>, perm: seq<nat>, lo: nat, hi: nat, least: nat) {
    forall x :: lo <= x < hi && x < |perm| && perm[x] < |freqs| ==> freqs[perm[x]] >= least
  }

  ghost predicate WordsSorted(p: seq<Word>, lo: nat, hi: nat) {
    forall x, y :: lo <= x <= y < hi && y < |p| ==> p[x] <= p[y]
  }

  /** The symbols of a part of the work array that has been sorted, with the words. */
  ghost function Resorted(perm: seq<nat>, p: seq<Word>, lo: nat, hi: nat): (r: seq<nat>)
    requires lo <= hi <= |perm| <= |p|
    ensures |r| == |perm|
    ensures forall x | 0 <= x < |perm| :: r[x] == if lo <= x < hi then Sym(p[x]) as nat else perm[x]
  {
    seq(|perm|, x requires 0 <= x < |perm| => if lo <= x < hi then Sym(p[x]) else perm[x])
  }

  /** A sorted word was at another place before. */
  lemma WordFrom(freqs: seq<nat>, p0: seq<Word>, perm0: seq<nat>, p: seq<Word>, lo: nat, hi: nat, x: nat)
    returns (y: nat)
    requires Listed(freqs, p0, perm0) && lo <= x < hi <= |freqs| && |p| == |p0|
    requires multiset(p[lo..hi]) == multiset(p0[lo..hi])
    ensures lo <= y < hi && p[x] == p0[y] && Sym(p[x]) == perm0[y] && Holds(freqs, p0, perm0, y)
  {
    hide Pack, Sym, Distinct;
    assert p[lo..hi][x - lo] in multiset(p0[lo..hi]);
    var i :| 0 <= i < hi - lo && p0[lo..hi][i] == p[x];
    y := lo + i;
    assert Holds(freqs, p0, perm0, y);
    Packed(perm0[y], freqs[perm0[y]]);
  }

  lemma WordsDiffer(freqs: seq<nat>, p: seq<Word>, perm: seq<nat>, lo: nat, hi: nat)
    requires Listed(freqs, p, perm) && lo <= hi <= |freqs|
    ensures Distinct(p[lo..hi])
  {
    hide Pack;
    forall x, y | 0 <= x < y < hi - lo ensures p[lo..hi][x] != p[lo..hi][y] {
      assert Holds(freqs, p, perm, lo + x) && Holds(freqs, p, perm, lo + y);
      Packed(perm[lo + x], freqs[perm[lo + x]]);
      Packed(perm[lo + y], freqs[perm[lo + y]]);
    }
  }

  lemma ResortedListed(freqs: seq<nat>, p0: seq<Word>, perm0: seq<nat>, p: seq<Word>, lo: nat, hi: nat, least: nat)
    requires Listed(freqs, p0, perm0) && lo <= hi <= |freqs| && |p| == |p0| && Least(freqs, perm0, lo, hi, least)
    requires multiset(p[lo..hi]) == multiset(p0[lo..hi])
    requires forall x | 0 <= x < |p| && !(lo <= x < hi) :: p[x] == p0[x]
    ensures Listed(freqs, p, Resorted(perm0, p, lo, hi)) && Least(freqs, Resorted(perm0, p, lo, hi), lo, hi, least)
  {
    hide Pack, Sym;
    var perm := Resorted(perm0, p, lo, hi);
    forall x | 0 <= x < |freqs|
      ensures Holds(freqs, p, perm, x) && (lo <= x < hi ==> freqs[perm[x]] >= least)
    {
      assert Holds(freqs, p0, perm0, x);
      if lo <= x < hi { var y := WordFrom(freqs, p0, perm0, p, lo, hi, x); }
    }
    WordsDiffer(freqs, p0, perm0, lo, hi);
    StaysDistinct(p0[lo..hi], p[lo..hi]);
    forall x: nat, y: nat | x < y < |perm| ensures perm[x] != perm[y] {
      PlacesDiffer(freqs, p0, perm0, p, lo, hi, x, y);
    }
  }

  lemma PlacesDiffer(freqs: seq<nat>, p0: seq<Word>, perm0: seq<nat>, p: seq<Word>, lo: nat, hi: nat, x: nat, y: nat)
    requires Listed(freqs, p0, perm0) && lo <= hi <= |freqs| && |p| == |p0| && x < y < |perm0|
    requires multiset(p[lo..hi]) == multiset(p0[lo..hi]) && Distinct(p[lo..hi])
    ensures Resorted(perm0, p, lo, hi)[x] != Resorted(perm0, p, lo, hi)[y]
  {
    hide Pack, Sym;
    var x', y' := x, y;
    if lo <= x < hi { x' := WordFrom(freqs, p0, perm0, p, lo, hi, x); }
    if lo <= y < hi { y' := WordFrom(freqs, p0, perm0, p, lo, hi, y); }
    if lo <= x < hi && lo <= y < hi {
      assert p[lo..hi][x - lo] != p[lo..hi][y - lo];
    }
    assert x' != y';
  }

  /** Sorts a part of the work array. */
  method SortRange(freqs: seq<nat>, p: array<Word>, lo: nat, hi: nat, ghost least: nat, ghost perm0: seq<nat>)
    returns (ghost perm: seq<nat>)
    requires Listed(freqs, p[..], perm0) && lo <= hi <= |freqs| && Least(freqs, perm0, lo, hi, least)
    modifies p
    ensures Listed(freqs, p[..], perm) && Least(freqs, perm, lo, hi, least) && WordsSorted(p[..], lo, hi)
    ensures forall x :: 0 <= x < |freqs| && !(lo <= x < hi) ==> perm[x] == perm0[x]
    ensures forall x :: |freqs| <= x < p.Length ==> p[x] == old(p[x])
  {
    hide Pack, Sym, Distinct, Least, Holds;
    ghost var p0 := p[..];
    HeapSort(p, lo, hi - lo);
    SortedPart(p0, p[..], lo, hi);
    ResortedListed(freqs, p0, perm0, p[..], lo, hi, least);
    perm := Resorted(perm0, p[..], lo, hi);
  }

  lemma SortedPart(p0: seq<Word>, p: seq<Word>, lo: nat, hi: nat)
    requires lo <= hi <= |p| == |p0| && p[..lo] == p0[..lo] && p[hi..] == p0[hi..]
    requires Sorted(p[lo..hi])
    ensures WordsSorted(p, lo, hi) && forall x | 0 <= x < |p| && !(lo <= x < hi) :: p[x] == p0[x]
  {
    forall x | 0 <= x < |p| && !(lo <= x < hi) ensures p[x] == p0[x] {
      if x < lo { assert p[..lo][x] == p0[..lo][x]; } else { assert p[hi..][x - hi] == p0[hi..][x - hi]; }
    }
    forall x, y | lo <= x < y < hi ensures p[x] <= p[y] { assert p[lo..hi][x - lo] <= p[lo..hi][y - lo]; }
  }

  // ----- counting -----

  method CountFreqs(freqs: seq<nat>, counters: array<nat>)
    requires counters.Length == NUM_COUNTERS
    modifies counters
    ensures forall k: nat :: k < NUM_COUNTERS ==> counters[k] == InBucket(freqs, k, |freqs|)
  {
    for i := 0 to NUM_COUNTERS
      invariant forall k :: 0 <= k < i ==> counters[k] == 0
    {
      counters[i] := 0;
    }
    var i := |freqs|;
    while i > 0
      invariant 0 <= i <= |freqs|
      invariant forall k: nat :: k < NUM_COUNTERS ==> counters[k] + InBucket(freqs, k, i) == InBucket(freqs, k, |freqs|)
    {
      i := i - 1;
      var k := Bucket(freqs[i]);
      counters[k] := counters[k] + 1;
    }
  }

  lemma FirstTwo(freqs: seq<nat>)
    ensures Below(freqs, 1) == 0 && Below(freqs, 2) == InBucket(freqs, 1, |freqs|)
  {
    BelowStep(freqs, 1);
  }

  lemma TwoSteps(freqs: seq<nat>, i: nat, j: nat, next: nat)
    requires 1 <= i && j == i + 1 && next == i + 2
    ensures Below(freqs, j) == Below(freqs, i) + InBucket(freqs, i, |freqs|)
    ensures Below(freqs, next) == Below(freqs, j) + InBucket(freqs, j, |freqs|)
  {
    BelowStep(freqs, i);
    BelowStep(freqs, j);
  }

  /** From the sizes of the buckets to their starts; `num` symbols are used. */
  method StartBuckets(freqs: seq<nat>, counters: array<nat>) returns (num: nat)
    requires counters.Length == NUM_COUNTERS
    requires forall k: nat :: k < NUM_COUNTERS ==> counters[k] == InBucket(freqs, k, |freqs|)
    modifies counters
    ensures forall k: nat :: k < NUM_COUNTERS ==> counters[k] == StartOf(freqs, k)
    ensures num == Below(freqs, NUM_COUNTERS)
  {
    hide InBucket, Bucket, Below;
    num := counters[1];
    counters[1] := 0;
    FirstTwo(freqs);
    var i := 2;
    ghost var half := 1;
    while i != NUM_COUNTERS
      invariant 2 <= i <= NUM_COUNTERS && i == 2 * half
      invariant num == Below(freqs, i)
      invariant forall k: nat :: 1 <= k < i ==> counters[k] == Below(freqs, k)
      invariant forall k: nat :: i <= k < NUM_COUNTERS ==> counters[k] == InBucket(freqs, k, |freqs|)
    {
      var j, next := i + 1, i + 2;
      var c0, c1 := counters[i], counters[j];
      TwoSteps(freqs, i, j, next);
      counters[i] := num;
      num := num + c0;
      counters[j] := num;
      num := num + c1;
      i := next;
      half := half + 1;
    }
    counters[0] := num;
  }

  /** Place `x`, in the part of bucket `k` that has been filled with symbols below `n`, is right. */
  ghost predicate Filled(freqs: seq<nat>, p: seq<Word>, perm: seq<nat>, k: nat, n: nat, x: nat)
    requires FreqsOk(freqs) && x < |p| && x < |perm|
  {
    Holds(freqs, p, perm, x) && Bucket(freqs[perm[x]]) == k && perm[x] < n
  }

  ghost predicate BucketFilled(freqs: seq<nat>, p: seq<Word>, perm: seq<nat>, k: nat, n: nat)
    requires FreqsOk(freqs) && n <= |freqs| <= |p| && |perm| == |freqs| && k < NUM_COUNTERS
  {
    BucketInside(freqs, k);
    InBucketGrows(freqs, k, n, |freqs|);
    && (forall x ::
        StartOf(freqs, k) <= x < StartOf(freqs, k) + InBucket(freqs, k, n)
        ==> Filled(freqs, p, perm, k, n, x))
    && (forall x, y :: StartOf(freqs, k) <= x < y < StartOf(freqs, k) + InBucket(freqs, k, n) ==> perm[x] < perm[y])
  }

  /** The place for symbol `i`, which is outside the other buckets. */
  lemma NextPlace(freqs: seq<nat>, i: nat, at: nat, k: nat)
    requires i < |freqs| && k < NUM_COUNTERS
    requires at == StartOf(freqs, Bucket(freqs[i])) + InBucket(freqs, Bucket(freqs[i]), i)
    ensures at < |freqs|
    ensures k != Bucket(freqs[i]) ==> at < StartOf(freqs, k) || at >= EndOf(freqs, k)
  {
    var b := Bucket(freqs[i]);
    BucketInside(freqs, b);
    InBucketGrows(freqs, b, i, |freqs|);
    if k != b {
      if k != 0 && (b == 0 || k < b) { BucketsApart(freqs, k, b); } else { BucketsApart(freqs, b, k); }
    }
  }

  /** Puts symbol `i` into its bucket. */
  lemma FillOne(freqs: seq<nat>, p: seq<Word>, perm: seq<nat>, i: nat, at: nat, k: nat, next: nat)
    requires FreqsOk(freqs) && i < |freqs| <= |p| && |perm| == |freqs| && k < NUM_COUNTERS && next == i + 1
    requires at == StartOf(freqs, Bucket(freqs[i])) + InBucket(freqs, Bucket(freqs[i]), i)
    requires BucketFilled(freqs, p, perm, k, i)
    ensures at < |freqs| && freqs[i] < MAX_FREQ
    ensures BucketFilled(freqs, p[at := Pack(i, freqs[i])], perm[at := i], k, next)
  {
    NextPlace(freqs, i, at, k);
    CountNext(freqs, i);
    InBucketGrows(freqs, k, next, |freqs|);
    BucketInside(freqs, k);
    hide Pack, StartOf, InBucket, Bucket;
    var q, r := p[at := Pack(i, freqs[i])], perm[at := i];
    forall x | StartOf(freqs, k) <= x < StartOf(freqs, k) + InBucket(freqs, k, next)
      ensures Filled(freqs, q, r, k, next, x)
    {
      if x != at { assert Filled(freqs, p, perm, k, i, x); }
    }
    forall x, y | StartOf(freqs, k) <= x < y < StartOf(freqs, k) + InBucket(freqs, k, next)
      ensures r[x] < r[y]
    {
      assert Filled(freqs, q, r, k, next, x) && Filled(freqs, q, r, k, next, y);
      if y == at { assert Filled(freqs, p, perm, k, i, x); }
    }
  }

  lemma FillAll(freqs: seq<nat>, p: seq<Word>, perm: seq<nat>, i: nat, at: nat, next: nat)
    requires FreqsOk(freqs) && i < |freqs| <= |p| && |perm| == |freqs| && next == i + 1
    requires at == StartOf(freqs, Bucket(freqs[i])) + InBucket(freqs, Bucket(freqs[i]), i)
    requires forall k: nat :: k < NUM_COUNTERS ==> BucketFilled(freqs, p, perm, k, i)
    ensures at < |freqs| && freqs[i] < MAX_FREQ
    ensures var q, r := p[at := Pack(i, freqs[i])], perm[at := i];
      forall k: nat :: k < NUM_COUNTERS ==> BucketFilled(freqs, q, r, k, next)
  {
    NextPlace(freqs, i, at, 0);
    var q, r := p[at := Pack(i, freqs[i])], perm[at := i];
    forall k: nat | k < NUM_COUNTERS
      ensures BucketFilled(freqs, q, r, k, next)
    {
      FillOne(freqs, p, perm, i, at, k, next);
    }
  }

  method Distribute(freqs: seq<nat>, p: array<Word>, counters: array<nat>) returns (ghost perm: seq<nat>)
    requires FreqsOk(freqs) && |freqs| <= p.Length && counters.Length == NUM_COUNTERS
      && p as object != counters as object
    requires forall k: nat :: k < NUM_COUNTERS ==> counters[k] == StartOf(freqs, k)
    modifies p, counters
    ensures |perm| == |freqs|
    ensures forall k: nat :: k < NUM_COUNTERS ==> counters[k] == EndOf(freqs, k)
    ensures forall k: nat :: k < NUM_COUNTERS ==> BucketFilled(freqs, p[..], perm, k, |freqs|)
    ensures forall x :: |freqs| <= x < p.Length ==> p[x] == old(p[x])
  {
    hide StartOf, InBucket, Pack, BucketFilled;
    perm := seq(|freqs|, i => 0);
    NoneFilled(freqs, p[..], perm);
    for i := 0 to |freqs|
      invariant |perm| == |freqs|
      invariant forall k: nat :: k < NUM_COUNTERS ==> counters[k] == StartOf(freqs, k) + InBucket(freqs, k, i)
      invariant forall k: nat :: k < NUM_COUNTERS ==> BucketFilled(freqs, p[..], perm, k, i)
      invariant forall x :: |freqs| <= x < p.Length ==> p[x] == old(p[x])
    {
      var b := Bucket(freqs[i]);
      var at := counters[b];
      FillAll(freqs, p[..], perm, i, at, i + 1);
      CountNext(freqs, i);
      ghost var before := p[..];
      p[at] := Pack(i, freqs[i]);
      assert p[..] == before[at := Pack(i, freqs[i])];
      perm := perm[at := i];
      counters[b] := at + 1;
    }
  }

  lemma NoneFilled(freqs: seq<nat>, p: seq<Word>, perm: seq<nat>)
    requires FreqsOk(freqs) && |freqs| <= |p| && |perm| == |freqs|
    ensures forall k: nat :: k < NUM_COUNTERS ==> BucketFilled(freqs, p, perm, k, 0)
    ensures forall k: nat :: k < NUM_COUNTERS ==> InBucket(freqs, k, 0) == 0
  {}

  lemma CountNext(freqs: seq<nat>, i: nat)
    requires i < |freqs|
    ensures forall k: nat :: k < NUM_COUNTERS ==>
      InBucket(freqs, k, i + 1) == InBucket(freqs, k, i) + if k == Bucket(freqs[i]) then 1 else 0
  {}

  /** When all buckets are full, every symbol is listed once. */
  lemma AllFilled(freqs: seq<nat>, p: seq<Word>, perm: seq<nat>)
    requires FreqsOk(freqs) && |freqs| <= |p| && |perm| == |freqs|
    requires forall k: nat :: k < NUM_COUNTERS ==> BucketFilled(freqs, p, perm, k, |freqs|)
    ensures Listed(freqs, p, perm)
  {
    hide Pack, StartOf, InBucket;
    forall x | 0 <= x < |freqs|
      ensures Holds(freqs, p, perm, x)
    {
      var k := PlaceOf(freqs, x);
      assert BucketFilled(freqs, p, perm, k, |freqs|);
      assert Filled(freqs, p, perm, k, |freqs|, x);
    }
    forall x, y | 0 <= x < y < |freqs|
      ensures perm[x] != perm[y]
    {
      var j := PlaceOf(freqs, x);
      var k := PlaceOf(freqs, y);
      assert BucketFilled(freqs, p, perm, j, |freqs|) && BucketFilled(freqs, p, perm, k, |freqs|);
      assert Filled(freqs, p, perm, j, |freqs|, x) && Filled(freqs, p, perm, k, |freqs|, y);
    }
  }

  /** The used symbols come first, with rising frequencies. */
  ghost predicate InOrder(freqs: seq<nat>, perm: seq<nat>, num: nat) {
    && num <= |freqs| == |perm| && (forall x :: 0 <= x < |freqs| ==> perm[x] < |freqs|)
    && (forall x :: 0 <= x < num ==> freqs[perm[x]] > 0)
    && (forall x :: num <= x < |freqs| ==> freqs[perm[x]] == 0)
    && (forall x, y :: 0 <= x <= y < num ==> freqs[perm[x]] <= freqs[perm[y]])
  }

  /** In a full bucket for a small frequency there is only that frequency. */
  lemma SmallFreq(freqs: seq<nat>, p: seq<Word>, perm: seq<nat>, x: nat) returns (k: nat)
    requires Listed(freqs, p, perm) && x < |freqs|
    requires forall k: nat :: k < NUM_COUNTERS ==> BucketFilled(freqs, p, perm, k, |freqs|)
    ensures k < NUM_COUNTERS && StartOf(freqs, k) <= x < EndOf(freqs, k)
      && (k == 0 <==> x >= Below(freqs, NUM_COUNTERS))
    ensures perm[x] < |freqs| && Bucket(freqs[perm[x]]) == k && (k < 207 ==> freqs[perm[x]] == k)
  {
    hide Pack, StartOf, InBucket;
    k := PlaceOf(freqs, x);
    assert BucketFilled(freqs, p, perm, k, |freqs|);
    assert Filled(freqs, p, perm, k, |freqs|, x);
  }

  lemma LastBucket(freqs: seq<nat>, p: seq<Word>, perm: seq<nat>)
    requires Listed(freqs, p, perm)
    requires forall k: nat :: k < NUM_COUNTERS ==> BucketFilled(freqs, p, perm, k, |freqs|)
    ensures StartOf(freqs, 207) == EndOf(freqs, 206) <= EndOf(freqs, 207) == Below(freqs, NUM_COUNTERS) <= |freqs|
    ensures Least(freqs, perm, StartOf(freqs, 207), EndOf(freqs, 207), 207)
  {
    BelowStep(freqs, 206);
    BelowStep(freqs, 207);
    BucketInside(freqs, 207);
    var s, e := StartOf(freqs, 207), EndOf(freqs, 207);
    forall x | s <= x < e
      ensures x < |freqs| && perm[x] < |freqs| && freqs[perm[x]] >= 207
    {
      BucketAt(freqs, p, perm, 207, x);
    }
  }

  lemma BucketAt(freqs: seq<nat>, p: seq<Word>, perm: seq<nat>, k: nat, x: nat)
    requires FreqsOk(freqs) && |freqs| <= |p| && |perm| == |freqs| && k < NUM_COUNTERS
    requires BucketFilled(freqs, p, perm, k, |freqs|) && StartOf(freqs, k) <= x < EndOf(freqs, k)
    ensures x < |freqs| && perm[x] < |freqs| && Bucket(freqs[perm[x]]) == k
  {
    hide StartOf, InBucket, Pack;
    BucketInside(freqs, k);
    assert Filled(freqs, p, perm, k, |freqs|, x);
  }

  lemma SortedAll(freqs: seq<nat>, p: seq<Word>, perm: seq<nat>, q: seq<Word>, r: seq<nat>, s: nat, e: nat)
    requires Listed(freqs, p, perm) && Listed(freqs, q, r)
    requires forall k: nat :: k < NUM_COUNTERS ==> BucketFilled(freqs, p, perm, k, |freqs|)
    requires s == StartOf(freqs, 207) && e == EndOf(freqs, 207) == Below(freqs, NUM_COUNTERS)
    requires Least(freqs, r, s, e, 207) && WordsSorted(q, s, e)
    requires forall x :: 0 <= x < |freqs| && !(s <= x < e) ==> r[x] == perm[x]
    ensures InOrder(freqs, r, e)
  {
    hide Pack, StartOf, InBucket, Below, BucketFilled, Distinct, Holds, Least, WordsSorted;
    BucketInside(freqs, 207);
    forall x: nat | x < |freqs|
      ensures r[x] < |freqs|
      ensures x < e ==> freqs[r[x]] > 0
      ensures x >= e ==> freqs[r[x]] == 0
    {
      UsedFirst(freqs, p, perm, q, r, s, e, x);
    }
    forall x: nat, y: nat | x <= y < e
      ensures freqs[r[x]] <= freqs[r[y]]
    {
      SortedPair(freqs, p, perm, q, r, s, e, x, y);
    }
  }

  lemma UsedFirst(freqs: seq<nat>, p: seq<Word>, perm: seq<nat>, q: seq<Word>, r: seq<nat>, s: nat, e: nat, x: nat)
    requires Listed(freqs, p, perm) && Listed(freqs, q, r) && x < |freqs|
    requires forall k: nat :: k < NUM_COUNTERS ==> BucketFilled(freqs, p, perm, k, |freqs|)
    requires s == StartOf(freqs, 207) && e == EndOf(freqs, 207) == Below(freqs, NUM_COUNTERS)
    requires Least(freqs, r, s, e, 207)
    requires forall x :: 0 <= x < |freqs| && !(s <= x < e) ==> r[x] == perm[x]
    ensures r[x] < |freqs| && (x < e ==> freqs[r[x]] > 0) && (x >= e ==> freqs[r[x]] == 0)
  {
    hide Pack, StartOf, InBucket, Below, BucketFilled, Distinct;
    assert Holds(freqs, q, r, x);
    if !(s <= x < e) { var k := SmallFreq(freqs, p, perm, x); }
  }

  lemma SortedPair(freqs: seq<nat>, p: seq<Word>, perm: seq<nat>, q: seq<Word>, r: seq<nat>, s: nat, e: nat, x: nat,
                   y: nat)
    requires Listed(freqs, p, perm) && Listed(freqs, q, r) && x <= y < e <= |freqs|
    requires forall k: nat :: k < NUM_COUNTERS ==> BucketFilled(freqs, p, perm, k, |freqs|)
    requires s == StartOf(freqs, 207) && e == EndOf(freqs, 207) == Below(freqs, NUM_COUNTERS)
    requires Least(freqs, r, s, e, 207) && WordsSorted(q, s, e)
    requires forall x :: 0 <= x < |freqs| && !(s <= x < e) ==> r[x] == perm[x]
    ensures r[x] < |freqs| && r[y] < |freqs| && freqs[r[x]] <= freqs[r[y]]
  {
    hide StartOf, InBucket, Below, BucketFilled, Distinct, Pack;
    assert Holds(freqs, q, r, x) && Holds(freqs, q, r, y);
    if s <= x {
      assert q[x] <= q[y];
      WordOrder(q[x], q[y]);
      Packed(r[x], freqs[r[x]]);
      Packed(r[y], freqs[r[y]]);
    } else {
      var j := SmallFreq(freqs, p, perm, x);
      SmallBefore(freqs, j, x);
      if y < s {
        var k := SmallFreq(freqs, p, perm, y);
        SmallBefore(freqs, k, y);
        if k < j { BucketsApart(freqs, k, j); }
      }
    }
  }

  lemma SmallBefore(freqs: seq<nat>, k: nat, x: nat)
    requires k < NUM_COUNTERS && StartOf(freqs, k) <= x < EndOf(freqs, k) && x < StartOf(freqs, 207)
    ensures 1 <= k < 207
  {
    BucketsApart(freqs, 207, 0);
  }

  /** Lists the symbols in the order of their frequencies; `num` of them are used. */
  method SortByFreq(freqs: seq<nat>, p: array<Word>) returns (num: nat, ghost perm: seq<nat>)
    requires FreqsOk(freqs) && |freqs| <= p.Length
    modifies p
    ensures Listed(freqs, p[..], perm) && InOrder(freqs, perm, num)
    ensures forall x :: |freqs| <= x < p.Length ==> p[x] == old(p[x])
  {
    hide Pack, StartOf, InBucket, Below, Distinct, BucketFilled, InOrder, Least, WordsSorted, Holds;
    var counters := new nat[NUM_COUNTERS];
    CountFreqs(freqs, counters);
    num := StartBuckets(freqs, counters);
    perm := Distribute(freqs, p, counters);
    AllFilled(freqs, p[..], perm);
    LastBucket(freqs, p[..], perm);
    ghost var was, before := p[..], perm;
    perm := SortRange(freqs, p, counters[206], counters[207], 207, perm);
    SortedAll(freqs, was, before, p[..], perm, counters[206], counters[207]);
  }
}
