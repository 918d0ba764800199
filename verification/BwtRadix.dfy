/** The first sorting step: rotations by their first two bytes, with one counter for each pair. */
module BwtRadix {
  import opened BitModel
  import opened Lists
  import opened BwtOrder
  import opened BwtGroups
  import opened BwtMarks

  // ----- counting -----

  /** How many of the first `m` keys are `v`. */
  function CountOf(ks: seq<nat>, v: nat, m: nat): (c: nat)
    requires m <= |ks|
    ensures c <= m
  {
    if m == 0 then 0 else CountOf(ks, v, m - 1) + (if ks[m - 1] == v then 1 else 0)
  }

  /** How many keys are below `v`. */
  function CountBelow(ks: seq<nat>, v: nat): (c: nat) {
    if v == 0 then 0 else CountBelow(ks, v - 1) + CountOf(ks, v - 1, |ks|)
  }

  lemma {:induction false} BelowGrows(ks: seq<nat>, v: nat, w: nat)
    requires v <= w
    ensures CountBelow(ks, v) <= CountBelow(ks, w)
    decreases w
  {
    if v < w { BelowGrows(ks, v, w - 1); }
  }

  lemma {:induction false} CountGrows(ks: seq<nat>, v: nat, i: nat, m: nat)
    requires i < m <= |ks| && ks[i] == v
    ensures CountOf(ks, v, i) < CountOf(ks, v, m)
    decreases m
  {
    if i + 1 < m { CountGrows(ks, v, i, m - 1); }
  }

  /** Taking the keys one more at a time. */
  function BelowOf(ks: seq<nat>, v: nat, m: nat): nat
    requires m <= |ks|
  {
    if v == 0 then 0 else BelowOf(ks, v - 1, m) + CountOf(ks, v - 1, m)
  }

  lemma {:induction false} BelowStep(ks: seq<nat>, v: nat, m: nat)
    requires 0 < m <= |ks|
    ensures BelowOf(ks, v, m) == BelowOf(ks, v, m - 1) + (if ks[m - 1] < v then 1 else 0)
  {
    if v > 0 { BelowStep(ks, v - 1, m); }
  }

  lemma {:induction false} NoneBelow(ks: seq<nat>, v: nat)
    ensures BelowOf(ks, v, 0) == 0
  {
    if v > 0 { NoneBelow(ks, v - 1); }
  }

  lemma {:induction false} AtMostAll(ks: seq<nat>, v: nat, m: nat)
    requires m <= |ks|
    ensures BelowOf(ks, v, m) <= m
    ensures (forall i | 0 <= i < m :: ks[i] < v) ==> BelowOf(ks, v, m) == m
    decreases m
  {
    if m == 0 {
      NoneBelow(ks, v);
    } else {
      BelowStep(ks, v, m);
      AtMostAll(ks, v, m - 1);
    }
  }

  lemma {:induction false} BelowIs(ks: seq<nat>, v: nat)
    ensures CountBelow(ks, v) == BelowOf(ks, v, |ks|)
  {
    if v > 0 { BelowIs(ks, v - 1); }
  }

  lemma BelowAll(ks: seq<nat>, v: nat)
    ensures CountBelow(ks, v) <= |ks|
    ensures (forall i | 0 <= i < |ks| :: ks[i] < v) ==> CountBelow(ks, v) == |ks|
  {
    BelowIs(ks, v);
    AtMostAll(ks, v, |ks|);
  }

  // ----- places -----

  /** The place of rotation `x`: behind all smaller keys, and behind equal ones of earlier rotations. */
  function Place(ks: seq<nat>, x: nat): (p: nat)
    requires x < |ks|
  {
    CountBelow(ks, ks[x]) + CountOf(ks, ks[x], x)
  }

  lemma PlaceInBucket(ks: seq<nat>, x: nat)
    requires x < |ks|
    ensures CountBelow(ks, ks[x]) <= Place(ks, x) < CountBelow(ks, ks[x] + 1) <= |ks|
  {
    CountGrows(ks, ks[x], x, |ks|);
    BelowAll(ks, ks[x] + 1);
  }

  lemma BucketsApart(ks: seq<nat>, x: nat, y: nat)
    requires x < |ks| && y < |ks| && ks[x] < ks[y]
    ensures CountBelow(ks, ks[x] + 1) <= CountBelow(ks, ks[y])
  {
    BelowGrows(ks, ks[x] + 1, ks[y]);
  }

  lemma PlacesDiffer(ks: seq<nat>, x: nat, y: nat)
    requires x < y < |ks|
    ensures Place(ks, x) != Place(ks, y)
  {
    PlaceInBucket(ks, x);
    PlaceInBucket(ks, y);
    if ks[x] == ks[y] {
      CountGrows(ks, ks[x], x, y);
    } else if ks[x] < ks[y] {
      BucketsApart(ks, x, y);
    } else {
      BucketsApart(ks, y, x);
    }
  }

  ghost function Places(ks: seq<nat>): (ps: seq<nat>)
    ensures |ps| == |ks| && forall x | 0 <= x < |ks| :: ps[x] == Place(ks, x)
  {
    seq(|ks|, x requires 0 <= x < |ks| => Place(ks, x))
  }

  lemma PlacesArePerm(ks: seq<nat>)
    ensures Perm(Places(ks), |ks|)
  {
    var ps := Places(ks);
    forall x | 0 <= x < |ks| ensures ps[x] < |ks| { PlaceInBucket(ks, x); }
    forall x, y | 0 <= x < y < |ks| ensures ps[x] != ps[y] { PlacesDiffer(ks, x, y); }
  }

  // ----- the keys of a block -----

  function Key(d: seq<Byte>, x: nat): (k: nat)
    requires x < |d|
    ensures k < 0x1_0000
  {
    var high: nat := d[x];
    high * 0x100 + d[Skip(|d|, x, 1)]
  }

  ghost function Keys(d: seq<Byte>): (ks: seq<nat>)
    ensures |ks| == |d| && forall x | 0 <= x < |d| :: ks[x] == Key(d, x)
  {
    seq(|d|, x requires 0 <= x < |d| => Key(d, x))
  }

  lemma KeyTells(d: seq<Byte>, x: nat, y: nat)
    requires x < |d| && y < |d|
    ensures Key(d, x) == Key(d, y) ==> Same(d, x, y, 2)
    ensures Key(d, x) < Key(d, y) ==> Less(d, x, y, |d|)
  {
    var x1, y1 := Skip(|d|, x, 1), Skip(|d|, y, 1);
    assert Same(d, x1, y1, 1) <==> d[x1] == d[y1] by { assert Same(d, Skip(|d|, x1, 1), Skip(|d|, y1, 1), 0); }
    if Key(d, x) < Key(d, y) {
      assert Less(d, x1, y1, 1) <==> d[x1] < d[y1];
      assert Less(d, x, y, 2);
      OneRound(d, x, y, 2);
    }
  }

  /** What the first step leaves: rotations at their places, groups numbered by the start of their bucket. */
  ghost predicate Bucketed(d: seq<Byte>, perm: seq<nat>, grp: seq<nat>) {
    && |perm| == |d| == |grp|
    && forall x | 0 <= x < |d| :: Place(Keys(d), x) < |d| && perm[Place(Keys(d), x)] == x
         && grp[x] == CountBelow(Keys(d), Key(d, x))
  }

  lemma WhoIsAt(d: seq<Byte>, perm: seq<nat>, grp: seq<nat>, p: nat) returns (x: nat)
    requires Bucketed(d, perm, grp) && p < |d|
    ensures x < |d| && Place(Keys(d), x) == p && perm[p] == x
    ensures grp[x] <= p < CountBelow(Keys(d), Key(d, x) + 1) <= |d|
  {
    PlacesArePerm(Keys(d));
    x := HasPlace(Places(Keys(d)), |d|, p);
    PlaceInBucket(Keys(d), x);
  }

  lemma BucketedSized(d: seq<Byte>, perm: seq<nat>, grp: seq<nat>)
    requires Bucketed(d, perm, grp)
    ensures Sized(|d|, perm, grp)
  {
    hide Key, CountBelow, CountOf, Place;
    forall p | 0 <= p < |d| ensures perm[p] < |d| { var x := WhoIsAt(d, perm, grp, p); }
    forall p, q | 0 <= p < q < |d| ensures perm[p] != perm[q] {
      var x := WhoIsAt(d, perm, grp, p);
      var y := WhoIsAt(d, perm, grp, q);
    }
    forall x | 0 <= x < |d| ensures grp[x] < |d| {
      var y := WhoIsAt(d, perm, grp, Place(Keys(d), x));
    }
  }

  /** Two rotations of which one's place is inside the other's bucket have the same key. */
  lemma SameBucket(d: seq<Byte>, x: nat, y: nat)
    requires x < |d| && y < |d|
    requires CountBelow(Keys(d), Key(d, x)) <= Place(Keys(d), y) < CountBelow(Keys(d), Key(d, x) + 1)
    ensures Key(d, x) == Key(d, y)
  {
    hide Key;
    PlaceInBucket(Keys(d), y);
    if Key(d, x) < Key(d, y) {
      BucketsApart(Keys(d), x, y);
    } else if Key(d, y) < Key(d, x) {
      BucketsApart(Keys(d), y, x);
    }
  }

  lemma BucketedBlocks(d: seq<Byte>, perm: seq<nat>, grp: seq<nat>)
    requires Bucketed(d, perm, grp)
    ensures Sized(|d|, perm, grp) && Blocks(Starts(|d|, perm, grp))
  {
    BucketedSized(d, perm, grp);
    hide Key, CountBelow, CountOf, Place;
    var f := Starts(|d|, perm, grp);
    forall p | 0 <= p < |d| ensures f[p] <= p && forall r | f[p] <= r <= p :: f[r] == f[p] {
      var x := WhoIsAt(d, perm, grp, p);
      forall r | f[p] <= r <= p ensures f[r] == f[p] {
        var y := WhoIsAt(d, perm, grp, r);
        SameBucket(d, x, y);
      }
    }
  }

  /** Equal numbers mean equal keys, and smaller ones smaller keys. */
  lemma NumbersTell(d: seq<Byte>, perm: seq<nat>, grp: seq<nat>, x: nat, y: nat)
    requires Bucketed(d, perm, grp) && x < |d| && y < |d|
    ensures grp[x] == grp[y] ==> Key(d, x) == Key(d, y)
    ensures grp[x] < grp[y] ==> Key(d, x) < Key(d, y)
  {
    hide Key;
    PlaceInBucket(Keys(d), x);
    PlaceInBucket(Keys(d), y);
    if Key(d, x) < Key(d, y) {
      BucketsApart(Keys(d), x, y);
    } else if Key(d, y) < Key(d, x) {
      BucketsApart(Keys(d), y, x);
    }
  }

  lemma BucketedOrder(d: seq<Byte>, perm: seq<nat>, grp: seq<nat>)
    requires Bucketed(d, perm, grp)
    ensures Ranked(d, grp) && Deep(d, grp, 2)
  {
    hide Key, CountBelow, CountOf, Place, Same, Less;
    forall x: nat, y: nat | x < |d| && y < |d|
      ensures grp[x] == grp[y] ==> Same(d, x, y, 2)
      ensures grp[x] < grp[y] ==> Less(d, x, y, |d|)
    {
      NumbersTell(d, perm, grp, x, y);
      KeyTells(d, x, y);
    }
  }

  /** After the first step the rotations are sorted by two bytes. */
  lemma BucketedState(d: seq<Byte>, perm: seq<nat>, grp: seq<nat>)
    requires Bucketed(d, perm, grp)
    ensures State(d, 2, grp, perm, grp)
  {
    hide Bucketed, Blocks, Ranked, Deep, State, Sized;
    BucketedBlocks(d, perm, grp);
    BucketedOrder(d, perm, grp);
    StartsPass(d, 2, perm, grp);
  }

  lemma BelowNext(ks: seq<nat>, v: nat)
    ensures CountBelow(ks, v + 1) == CountBelow(ks, v) + CountOf(ks, v, |ks|) <= |ks|
    ensures CountBelow(ks, v) <= |ks|
  {
    BelowAll(ks, v);
    BelowAll(ks, v + 1);
  }

  lemma PlaceIs(ks: seq<nat>, x: nat)
    requires x < |ks|
    ensures Place(ks, x) == CountBelow(ks, ks[x]) + CountOf(ks, ks[x], x)
  {}

  lemma BelowZero(ks: seq<nat>)
    ensures CountBelow(ks, 0) == 0
  {}

  lemma CountNext(ks: seq<nat>, x: nat)
    requires x < |ks|
    ensures forall v: nat :: CountOf(ks, v, x + 1) == CountOf(ks, v, x) + (if v == ks[x] then 1 else 0)
  {}

  lemma CountZero(ks: seq<nat>)
    ensures forall v: nat :: CountOf(ks, v, 0) == 0
  {}

  // ----- the loops -----

  method CountKeys(d: seq<Byte>, counters: array<Word>)
    requires 0 < |d| <= 0x10_0000 && counters.Length == 0x1_0000
    modifies counters
    ensures forall v: nat | v < 0x1_0000 :: counters[v] == CountOf(Keys(d), v, |d|)
  {
    for i := 0 to 0x1_0000
      invariant forall v: nat | v < i :: counters[v] == 0
    {
      counters[i] := 0;
    }
    var n := |d|;
    for i := 0 to n
      invariant forall v: nat | v < 0x1_0000 :: counters[v] == CountOf(Keys(d), v, i)
    {
      var k := Key(d, i);
      assert CountOf(Keys(d), k, i) <= i;
      counters[k] := counters[k] + 1;
    }
  }

  method StartBuckets(d: seq<Byte>, counters: array<Word>)
    requires 0 < |d| <= 0x10_0000 && counters.Length == 0x1_0000
    requires forall v: nat | v < 0x1_0000 :: counters[v] == CountOf(Keys(d), v, |d|)
    modifies counters
    ensures forall v: nat | v < 0x1_0000 :: counters[v] == CountBelow(Keys(d), v)
  {
    hide *;
    var sum: nat := 0;
    BelowZero(Keys(d));
    for i := 0 to 0x1_0000
      invariant sum == CountBelow(Keys(d), i)
      invariant forall v: nat | v < i :: counters[v] == CountBelow(Keys(d), v)
      invariant forall v: nat | i <= v < 0x1_0000 :: counters[v] == CountOf(Keys(d), v, |d|)
    {
      BelowNext(Keys(d), i);
      var groupSize := counters[i];
      counters[i] := sum;
      sum := sum + groupSize;
    }
  }

  method NumberGroups(d: seq<Byte>, counters: array<Word>, groups: array<Word>)
    requires 0 < |d| <= 0x10_0000 && counters.Length == 0x1_0000 && groups.Length == |d| && groups != counters
    requires forall v: nat | v < 0x1_0000 :: counters[v] == CountBelow(Keys(d), v)
    modifies groups
    ensures forall x: nat | x < |d| :: groups[x] == CountBelow(Keys(d), Key(d, x))
  {
    var n := |d|;
    for i := 0 to n
      invariant forall x: nat | x < i :: groups[x] == CountBelow(Keys(d), Key(d, x))
    {
      groups[i] := counters[Key(d, i)];
    }
  }

  method PlaceIndices(d: seq<Byte>, counters: array<Word>, indices: array<Word>)
    requires 0 < |d| <= 0x10_0000 && counters.Length == 0x1_0000 && indices.Length == |d| && indices != counters
    requires forall v: nat | v < 0x1_0000 :: counters[v] == CountBelow(Keys(d), v)
    modifies counters, indices
    ensures forall x: nat | x < |d| :: Place(Keys(d), x) < |d| && indices[Place(Keys(d), x)] == x
    ensures forall v: nat | v < 0x1_0000 :: counters[v] == CountBelow(Keys(d), v + 1)
  {
    hide *;
    ghost var ks := Keys(d);
    CountZero(ks);
    for i := 0 to |d|
      invariant forall v: nat | v < 0x1_0000 :: counters[v] == CountBelow(ks, v) + CountOf(ks, v, i)
      invariant forall x: nat | x < i :: Place(ks, x) < |d| && indices[Place(ks, x)] == x
    {
      var c := counters[Key(d, i)];
      PlaceInBucket(ks, i);
      PlaceIs(ks, i);
      CountNext(ks, i);
      forall x: nat | x < i ensures Place(ks, x) != c { PlacesDiffer(ks, x, i); }
      indices[c] := i;
      counters[Key(d, i)] := c + 1;
    }
    forall v: nat ensures CountBelow(ks, v + 1) == CountBelow(ks, v) + CountOf(ks, v, |ks|) { BelowNext(ks, v); }
  }
}
