/** The order of the rotations of a block, compared cyclically and without end. */
module BwtOrder {
  import opened BitModel

  /** The place `k` behind `i`, for at most one round. */
  function Skip(n: nat, i: nat, k: nat): (r: nat)
    requires i < n && k <= n
    ensures r < n
  {
    if i + k >= n then i + k - n else i + k
  }

  /** The rotations that start at `i` and `j` agree on `k` bytes. */
  ghost predicate Same(d: seq<Byte>, i: nat, j: nat, k: nat)
    requires i < |d| && j < |d|
    decreases k
  {
    k == 0 || (d[i] == d[j] && Same(d, Skip(|d|, i, 1), Skip(|d|, j, 1), k - 1))
  }

  /** The rotation at `i` is smaller than the one at `j`, and `k` bytes show it. */
  ghost predicate Less(d: seq<Byte>, i: nat, j: nat, k: nat)
    requires i < |d| && j < |d|
    decreases k
  {
    k > 0 && (d[i] < d[j] || (d[i] == d[j] && Less(d, Skip(|d|, i, 1), Skip(|d|, j, 1), k - 1)))
  }

  lemma SkipOn(n: nat, i: nat, h: nat)
    requires i < n && 0 < h <= n
    ensures Skip(n, Skip(n, i, 1), h - 1) == Skip(n, i, h)
  {}

  lemma {:induction false} SplitSame(d: seq<Byte>, i: nat, j: nat, h: nat, k: nat)
    requires i < |d| && j < |d| && h <= |d|
    ensures Same(d, i, j, h + k) <==> Same(d, i, j, h) && Same(d, Skip(|d|, i, h), Skip(|d|, j, h), k)
    decreases h
  {
    if h > 0 {
      SkipOn(|d|, i, h);
      SkipOn(|d|, j, h);
      SplitSame(d, Skip(|d|, i, 1), Skip(|d|, j, 1), h - 1, k);
    }
  }

  lemma {:induction false} SplitLess(d: seq<Byte>, i: nat, j: nat, h: nat, k: nat)
    requires i < |d| && j < |d| && h <= |d|
    ensures Less(d, i, j, h + k) <==>
      Less(d, i, j, h) || (Same(d, i, j, h) && Less(d, Skip(|d|, i, h), Skip(|d|, j, h), k))
    decreases h
  {
    if h > 0 {
      SkipOn(|d|, i, h);
      SkipOn(|d|, j, h);
      SplitLess(d, Skip(|d|, i, 1), Skip(|d|, j, 1), h - 1, k);
    }
  }

  /** One round decides: rotations that agree all round agree for ever. */
  lemma {:induction false} OneRound(d: seq<Byte>, i: nat, j: nat, k: nat)
    requires i < |d| && j < |d| && Less(d, i, j, k)
    ensures Less(d, i, j, |d|)
    decreases k
  {
    if k <= |d| {
      SplitLess(d, i, j, k, |d| - k);
    } else {
      SplitLess(d, i, j, |d|, k - |d|);
      if !Less(d, i, j, |d|) { OneRound(d, i, j, k - |d|); }
    }
  }

  /** An order found `h` bytes behind two rotations that agree so far is their own order. */
  lemma LessBehind(d: seq<Byte>, i: nat, j: nat, h: nat)
    requires i < |d| && j < |d| && h <= |d|
    requires Same(d, i, j, h) && Less(d, Skip(|d|, i, h), Skip(|d|, j, h), |d|)
    ensures Less(d, i, j, |d|)
  {
    SplitLess(d, i, j, h, |d|);
    OneRound(d, i, j, h + |d|);
  }

  // ----- as sequences -----

  function Rotation(d: seq<Byte>, i: nat): (r: seq<Byte>)
    requires i < |d|
    ensures |r| == |d|
  {
    d[i..] + d[..i]
  }

  lemma RotationAt(d: seq<Byte>, i: nat, k: nat)
    requires i < |d| && k < |d|
    ensures Rotation(d, i)[k] == d[Skip(|d|, i, k)]
  {}

  /** Lexicographic order of sequences of equal length. */
  ghost predicate NotAbove(a: seq<Byte>, b: seq<Byte>) {
    |a| == |b| && (a == b || exists k :: 0 <= k < |a| && a[..k] == b[..k] && a[k] < b[k])
  }

  lemma {:induction false} SameAt(d: seq<Byte>, i: nat, j: nat, h: nat, k: nat)
    requires i < |d| && j < |d| && k < h <= |d| && Same(d, i, j, h)
    ensures Rotation(d, i)[k] == Rotation(d, j)[k]
  {
    RotationAt(d, i, k);
    RotationAt(d, j, k);
    SplitSame(d, i, j, k, h - k);
  }

  lemma SamePrefix(d: seq<Byte>, i: nat, j: nat, h: nat)
    requires i < |d| && j < |d| && h <= |d| && Same(d, i, j, h)
    ensures Rotation(d, i)[..h] == Rotation(d, j)[..h]
  {
    forall k | 0 <= k < h ensures Rotation(d, i)[k] == Rotation(d, j)[k] { SameAt(d, i, j, h, k); }
  }

  /** Where the two rotations first differ. */
  lemma {:induction false} FirstDifference(d: seq<Byte>, i: nat, j: nat, k: nat) returns (h: nat)
    requires i < |d| && j < |d| && k <= |d| && Less(d, i, j, k)
    ensures h < k && Same(d, i, j, h) && d[Skip(|d|, i, h)] < d[Skip(|d|, j, h)]
    decreases k
  {
    if d[i] < d[j] {
      h := 0;
    } else {
      var g := FirstDifference(d, Skip(|d|, i, 1), Skip(|d|, j, 1), k - 1);
      h := g + 1;
      SkipOn(|d|, i, h);
      SkipOn(|d|, j, h);
    }
  }

  lemma OrderIsLexicographic(d: seq<Byte>, i: nat, j: nat)
    requires i < |d| && j < |d| && (Less(d, i, j, |d|) || Same(d, i, j, |d|))
    ensures NotAbove(Rotation(d, i), Rotation(d, j))
  {
    if Same(d, i, j, |d|) {
      SamePrefix(d, i, j, |d|);
      assert Rotation(d, i)[..|d|] == Rotation(d, i);
    } else {
      var h := FirstDifference(d, i, j, |d|);
      SamePrefix(d, i, j, h);
      RotationAt(d, i, h);
      RotationAt(d, j, h);
    }
  }
}
