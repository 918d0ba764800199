/** Heap sort in place. The tree has an extra root: place 0 is the parent of place 1, and place `k` that of places
    `2 * k` and `2 * k + 1`. */
module WordSort {
  import opened BitModel
  import opened Lists

  // ----- heaps -----

  /** From place `i` on, up to place `last`, no item is larger than its parent. */
  ghost predicate Heap(v: seq<nat>, i: nat, last: nat) {
    last < |v| && forall j: nat | 1 <= j <= last && j / 2 >= i :: v[j / 2] >= v[j]
  }

  /** A heap but for place `k`, which is a hole for `temp`: what is above the hole is not smaller than `temp` and not
      smaller than what is below the hole. */
  ghost predicate Sifting(v: seq<nat>, i: nat, last: nat, k: nat, temp: nat) {
    && i <= k <= last < |v|
    && (forall j: nat | 1 <= j <= last && j / 2 >= i && j / 2 != k && j != k :: v[j / 2] >= v[j])
    && (k >= 1 && k / 2 >= i ==>
          v[k / 2] >= temp && forall j: nat | 1 <= j <= last && j / 2 == k && j != k :: v[k / 2] >= v[j])
  }

  /** The hole moves down to the larger child. */
  lemma SiftStep(v: seq<nat>, i: nat, last: nat, k: nat, temp: nat, s: nat)
    requires Sifting(v, i, last, k, temp) && k >= 1 && k < s <= last && s / 2 == k && temp <= v[s]
    requires forall j: nat | 1 <= j <= last && j / 2 == k :: v[j] <= v[s]
    ensures Sifting(v[k := v[s]], i, last, s, temp)
  {
    var w := v[k := v[s]];
    forall j: nat | 1 <= j <= last && j / 2 >= i && j / 2 != s && j != s ensures w[j / 2] >= w[j] {
      if j == k { assert j / 2 != k; }
    }
  }

  /** The hole is filled. */
  lemma SiftEnd(v: seq<nat>, i: nat, last: nat, k: nat, temp: nat)
    requires Sifting(v, i, last, k, temp) && k >= 1
    requires forall j: nat | 1 <= j <= last && j / 2 == k :: v[j] <= temp
    ensures Heap(v[k := temp], i, last)
  {
    var w := v[k := temp];
    forall j: nat | 1 <= j <= last && j / 2 >= i ensures w[j / 2] >= w[j] {
      if j == k { assert j / 2 != k; }
    }
  }

  /** The root of a heap is largest. */
  lemma {:induction false} RootIsLargest(v: seq<nat>, last: nat, j: nat)
    requires Heap(v, 0, last) && j <= last
    ensures v[0] >= v[j]
    decreases j
  {
    if j > 0 { RootIsLargest(v, last, j / 2); }
  }

  /** Below place 1 the larger of its children is largest. */
  lemma {:induction false} ChildIsLargest(v: seq<nat>, last: nat, j: nat)
    requires Heap(v, 0, last) && 2 <= j <= last && last >= 3
    ensures v[if v[2] < v[3] then 3 else 2] >= v[j]
    decreases j
  {
    if j > 3 { ChildIsLargest(v, last, j / 2); }
  }

  // ----- exchanges -----

  lemma Exchanged(v: seq<nat>, i: nat, j: nat)
    requires i < |v| && j < |v|
    ensures multiset(v[i := v[j]][j := v[i]]) == multiset(v)
  {}

  /** Moving an item into the hole moves the hole. */
  lemma MoveHole(v: seq<nat>, k: nat, s: nat, temp: nat)
    requires k < |v| && s < |v| && k != s
    ensures multiset(v[k := v[s]][s := temp]) == multiset(v[k := temp])
  {
    var u := v[k := temp];
    Exchanged(u, k, s);
    assert u[k := u[s]][s := u[k]] == v[k := v[s]][s := temp];
  }

  /** The root goes to the end, its successors move up, and the last item is to be put below. */
  lemma PopRoot(v: seq<nat>, last: nat, k: nat)
    requires 1 < k < last < |v|
    ensures multiset(v[last := v[0]][0 := v[1]][1 := v[k]][k := v[last]]) == multiset(v)
  {
    var a := v[0 := v[last]][last := v[0]];
    Exchanged(v, 0, last);
    var b := a[0 := a[1]][1 := a[0]];
    Exchanged(a, 0, 1);
    var c := b[1 := b[k]][k := b[1]];
    Exchanged(b, 1, k);
    assert c == v[last := v[0]][0 := v[1]][1 := v[k]][k := v[last]];
  }

  // ----- the loops -----

  /** The part of the array that is sorted. */
  ghost function Part(p: array<Word>, lo: nat, n: nat): (v: seq<Word>)
    requires lo + n <= p.Length
    reads p
    ensures |v| == n && forall k | 0 <= k < n :: v[k] == p[lo + k]
  {
    p[lo..lo + n]
  }

  method Put(p: array<Word>, lo: nat, n: nat, k: nat, w: Word)
    requires lo + n <= p.Length && k < n
    modifies p
    ensures Part(p, lo, n) == old(Part(p, lo, n))[k := w]
    ensures p[..lo] == old(p[..lo]) && p[lo + n..] == old(p[lo + n..])
  {
    p[lo + k] := w;
  }

  /** Puts `temp` into the tree of which place `k0` is free. */
  method SiftDown(p: array<Word>, lo: nat, n: nat, k0: nat, last: nat, temp: Word, ghost i: nat)
    requires lo + n <= p.Length && 1 <= k0 && Sifting(Part(p, lo, n), i, last, k0, temp)
    modifies p
    ensures last < n && Heap(Part(p, lo, n), i, last)
    ensures multiset(Part(p, lo, n)) == multiset(old(Part(p, lo, n))[k0 := temp])
    ensures forall j | last < j < n :: Part(p, lo, n)[j] == old(Part(p, lo, n))[j]
    ensures p[..lo] == old(p[..lo]) && p[lo + n..] == old(p[lo + n..])
  {
    ghost var m, v0 := multiset(Part(p, lo, n)[k0 := temp]), Part(p, lo, n);
    var k := k0;
    var more := true;
    while more
      invariant 1 <= k && Sifting(Part(p, lo, n), i, last, k, temp)
      invariant multiset(Part(p, lo, n)[k := temp]) == m
      invariant forall j | last < j < n :: Part(p, lo, n)[j] == v0[j]
      invariant p[..lo] == old(p[..lo]) && p[lo + n..] == old(p[lo + n..])
      invariant !more ==> forall j: nat | 1 <= j <= last && j / 2 == k :: Part(p, lo, n)[j] <= temp
      decreases last - k, more
    {
      ghost var v := Part(p, lo, n);
      more, k := SiftOne(p, lo, n, k, last, temp, i);
    }
    SiftEnd(Part(p, lo, n), i, last, k, temp);
    Put(p, lo, n, k, temp);
  }

  lemma ChildrenOf(k: nat, last: nat)
    requires k >= 1
    ensures forall j: nat | j / 2 == k :: j == 2 * k || j == 2 * k + 1
    ensures 2 * k / 2 == k && (2 * k + 1) / 2 == k
  {}

  lemma SiftingFits(v: seq<nat>, i: nat, last: nat, k: nat, temp: nat)
    requires Sifting(v, i, last, k, temp)
    ensures i <= k <= last < |v|
  {}

  /** The larger child moves up into the hole. */
  method MoveUp(p: array<Word>, lo: nat, n: nat, k: nat, s: nat, last: nat, temp: Word, ghost i: nat)
    requires lo + n <= p.Length && 1 <= k < s <= last < n && s / 2 == k
    requires Sifting(Part(p, lo, n), i, last, k, temp) && temp <= p[lo + s]
    requires forall j: nat | 1 <= j <= last && j / 2 == k :: Part(p, lo, n)[j] <= p[lo + s]
    modifies p
    ensures Sifting(Part(p, lo, n), i, last, s, temp)
    ensures multiset(Part(p, lo, n)[s := temp]) == multiset(old(Part(p, lo, n))[k := temp])
    ensures forall j | last < j < n :: Part(p, lo, n)[j] == old(Part(p, lo, n))[j]
    ensures p[..lo] == old(p[..lo]) && p[lo + n..] == old(p[lo + n..])
  {
    hide Sifting;
    ghost var v := Part(p, lo, n);
    assert v[s] == p[lo + s];
    SiftStep(v, i, last, k, temp, s);
    MoveHole(v, k, s, temp);
    Put(p, lo, n, k, p[lo + s]);
  }

  /** One place further down. */
  method SiftOne(p: array<Word>, lo: nat, n: nat, k0: nat, last: nat, temp: Word, ghost i: nat)
    returns (more: bool, k: nat)
    requires lo + n <= p.Length && 1 <= k0 && Sifting(Part(p, lo, n), i, last, k0, temp)
    modifies p
    ensures k0 <= k && (more ==> k0 < k) && Sifting(Part(p, lo, n), i, last, k, temp)
    ensures multiset(Part(p, lo, n)[k := temp]) == multiset(old(Part(p, lo, n))[k0 := temp])
    ensures forall j | last < j < n :: Part(p, lo, n)[j] == old(Part(p, lo, n))[j]
    ensures p[..lo] == old(p[..lo]) && p[lo + n..] == old(p[lo + n..])
    ensures !more ==> forall j: nat | 1 <= j <= last && j / 2 == k :: Part(p, lo, n)[j] <= temp
  {
    hide Sifting;
    SiftingFits(Part(p, lo, n), i, last, k0, temp);
    ChildrenOf(k0, last);
    k := k0;
    var s := 2 * k;
    more := s < last;
    if s > last { return; }
    if s < last && p[lo + s] < p[lo + s + 1] { s := s + 1; }
    if temp >= p[lo + s] {
      more := false;
      return;
    }
    MoveUp(p, lo, n, k, s, last, temp, i);
    ChildrenOf(s, last);
    k := s;
  }

  // ----- the two stages -----

  lemma HoleIs(v: seq<nat>, i: nat, last: nat)
    requires i + 1 < |v| && i <= last < |v| && Heap(v, i + 1, last)
    ensures Sifting(v, i, last, i, v[i]) && v[i := v[i]] == v
  {}

  lemma NoHeap(v: seq<nat>, i: nat, last: nat)
    requires last < |v| && last < 2 * i
    ensures Heap(v, i, last)
  {}

  /** Makes a heap. */
  method MakeHeap(p: array<Word>, lo: nat, n: nat)
    requires lo + n <= p.Length && n >= 3
    modifies p
    ensures Heap(Part(p, lo, n), 0, n - 1) && multiset(Part(p, lo, n)) == multiset(old(Part(p, lo, n)))
    ensures p[..lo] == old(p[..lo]) && p[lo + n..] == old(p[lo + n..])
  {
    hide *;
    var last := n - 1;
    var i: nat := last / 2;
    NoHeap(Part(p, lo, n), i + 1, last);
    while i > 0
      invariant i <= last / 2 && Heap(Part(p, lo, n), i + 1, last)
      invariant multiset(Part(p, lo, n)) == multiset(old(Part(p, lo, n)))
      invariant p[..lo] == old(p[..lo]) && p[lo + n..] == old(p[lo + n..])
    {
      HoleIs(Part(p, lo, n), i, last);
      SiftDown(p, lo, n, i, last, p[lo + i], i);
      i := i - 1;
    }
    FixRoot(p, lo, n);
  }

  /** The extra root. */
  method FixRoot(p: array<Word>, lo: nat, n: nat)
    requires lo + n <= p.Length && n >= 3 && Heap(Part(p, lo, n), 1, n - 1)
    modifies p
    ensures Heap(Part(p, lo, n), 0, n - 1) && multiset(Part(p, lo, n)) == multiset(old(Part(p, lo, n)))
    ensures p[..lo] == old(p[..lo]) && p[lo + n..] == old(p[lo + n..])
  {
    hide Heap, Sifting;
    var temp, a1 := p[lo], p[lo + 1];
    ghost var v := Part(p, lo, n);
    if temp < a1 {
      RootHole(v, n - 1, temp);
      MoveHole(v, 0, 1, temp);
      assert v[0 := temp] == v;
      Put(p, lo, n, 0, a1);
      SiftDown(p, lo, n, 1, n - 1, temp, 0);
    } else {
      RootFits(v, n - 1);
    }
  }

  lemma RootHole(v: seq<nat>, last: nat, temp: nat)
    requires Heap(v, 1, last) && last >= 1 && v[1] >= temp
    ensures Sifting(v[0 := v[1]], 0, last, 1, temp)
  {
    var w := v[0 := v[1]];
    forall j: nat | 1 <= j <= last && j / 2 != 1 && j != 1 ensures w[j / 2] >= w[j] { assert j / 2 >= 1; }
    forall j: nat | 1 <= j <= last && j / 2 == 0 ensures j == 1 {}
  }

  lemma RootFits(v: seq<nat>, last: nat)
    requires Heap(v, 1, last) && last >= 1 && v[0] >= v[1]
    ensures Heap(v, 0, last)
  {}

  /** In stage two: a heap up to place `last`, and behind it the largest items in order. */
  ghost predicate Half(v: seq<nat>, last: nat) {
    && Heap(v, 0, last)
    && (forall p, q | last < p < q < |v| :: v[p] <= v[q])
    && (forall p, q | 0 <= p <= last < q < |v| :: v[p] <= v[q])
  }

  /** Taking the root out of the heap leaves a hole below place 1. */
  lemma PopHole(v: seq<nat>, last: nat, k: nat, w: seq<nat>)
    requires Heap(v, 0, last) && last >= 4 && k == (if v[2] < v[3] then 3 else 2)
    requires w == v[last := v[0]][0 := v[1]][1 := v[k]]
    ensures Sifting(w, 0, last - 1, k, v[last])
  {
    ChildIsLargest(v, last, last);
    ChildrenOf(1, last);
    forall j: nat | 1 <= j <= last - 1 && j / 2 != k && j != k ensures w[j / 2] >= w[j] {
      if j == 1 { assert v[k / 2] >= v[k]; }
      if j / 2 == 1 { ChildIsLargest(v, last, j); }
    }
    forall j: nat | 1 <= j <= last - 1 && j / 2 == k ensures w[1] >= w[j] {
      assert j != k && v[j / 2] >= v[j];
    }
  }

  /** What is left of the heap stays below what has been taken out of it. */
  lemma PoppedHalf(v: seq<nat>, last: nat, k: nat, w: seq<nat>, z: seq<nat>)
    requires Half(v, last) && last >= 4 && k == (if v[2] < v[3] then 3 else 2)
    requires w == v[last := v[0]][0 := v[1]][1 := v[k]]
    requires |z| == |v| && Heap(z, 0, last - 1) && forall j | last - 1 < j < |v| :: z[j] == w[j]
    requires multiset(z) == multiset(v)
    ensures Half(z, last - 1)
  {
    var rest := [v[0]] + v[last + 1..];
    forall j | 0 <= j < |rest| ensures z[last..][j] == rest[j] {
      assert z[last + j] == w[last + j];
    }
    assert z[last..] == rest;
    Remaining(v, z, last);
    forall p | 0 <= p <= last ensures v[p] <= v[0] { RootIsLargest(v, last, p); }
    forall p | 0 <= p < last ensures z[p] <= v[0] {
      assert z[..last][p] == z[p] && z[p] in multiset(z[..last]);
      assert z[p] in multiset(v[..last + 1]);
      assert z[p] in v[..last + 1];
    }
    forall p, q | 0 <= p <= last - 1 < q < |z| ensures z[p] <= z[q] {
      if q > last { assert v[0] <= v[q]; }
    }
    forall p, q | last - 1 < p < q < |z| ensures z[p] <= z[q] {
      if p == last { assert v[0] <= v[q]; }
    }
  }

  lemma Remaining(v: seq<nat>, z: seq<nat>, last: nat)
    requires last < |v| == |z| && multiset(z) == multiset(v) && z[last..] == [v[0]] + v[last + 1..]
    ensures multiset(z[..last]) + multiset{v[0]} == multiset(v[..last + 1])
  {
    assert v == v[..last + 1] + v[last + 1..];
    assert z == z[..last] + ([v[0]] + v[last + 1..]);
    var a: multiset<nat>, b: multiset<nat>, c: multiset<nat> :=
      multiset(v[..last + 1]), multiset(z[..last]), multiset(v[last + 1..]);
    assert a + c == multiset(v) == multiset(z) == (b + multiset{v[0]}) + c;
    Cancel(a, b + multiset{v[0]}, c);
  }

  lemma Cancel(a: multiset<nat>, b: multiset<nat>, c: multiset<nat>)
    requires a + c == b + c
    ensures a == b
  {
    forall x: nat ensures a[x] == b[x] { assert (a + c)[x] == (b + c)[x]; }
  }

  lemma HeapAlone(v: seq<nat>, last: nat)
    requires Heap(v, 0, last) && last + 1 == |v|
    ensures Half(v, last)
  {}

  /** Takes one item out of the heap. */
  method PopOne(p: array<Word>, lo: nat, n: nat, last: nat)
    requires lo + n <= p.Length && 4 <= last < n && Half(Part(p, lo, n), last)
    modifies p
    ensures Half(Part(p, lo, n), last - 1) && multiset(Part(p, lo, n)) == multiset(old(Part(p, lo, n)))
    ensures p[..lo] == old(p[..lo]) && p[lo + n..] == old(p[lo + n..])
  {
    hide *;
    ghost var v := Part(p, lo, n);
    assert v[last] == p[lo + last] && v[2] == p[lo + 2] && v[3] == p[lo + 3];
    var temp := p[lo + last];
    var k := if p[lo + 2] < p[lo + 3] then 3 else 2;
    HalfIsHeap(v, last);
    TakeRoot(p, lo, n, last, k);
    ghost var w := Part(p, lo, n);
    PopHole(v, last, k, w);
    PopRoot(v, last, k);
    SiftDown(p, lo, n, k, last - 1, temp, 0);
    PoppedHalf(v, last, k, w, Part(p, lo, n));
  }

  lemma HalfIsHeap(v: seq<nat>, last: nat)
    requires Half(v, last)
    ensures Heap(v, 0, last)
  {}

  /** The root goes to the end, and its successors move up. */
  method TakeRoot(p: array<Word>, lo: nat, n: nat, last: nat, k: nat)
    requires lo + n <= p.Length && 1 < k < last < n
    modifies p
    ensures var v := old(Part(p, lo, n)); Part(p, lo, n) == v[last := v[0]][0 := v[1]][1 := v[k]]
    ensures p[..lo] == old(p[..lo]) && p[lo + n..] == old(p[lo + n..])
  {
    hide *;
    ghost var v := Part(p, lo, n);
    assert v[0] == p[lo + 0];
    Put(p, lo, n, last, p[lo + 0]);
    assert p[lo + 1] == Part(p, lo, n)[1] == v[1];
    Put(p, lo, n, 0, p[lo + 1]);
    assert p[lo + k] == Part(p, lo, n)[k] == v[k];
    Put(p, lo, n, 1, p[lo + k]);
  }

  /** The last four items. */
  method LastFour(p: array<Word>, lo: nat, n: nat)
    requires lo + n <= p.Length && 4 <= n && Half(Part(p, lo, n), 3)
    modifies p
    ensures Sorted(Part(p, lo, n)) && multiset(Part(p, lo, n)) == multiset(old(Part(p, lo, n)))
    ensures p[..lo] == old(p[..lo]) && p[lo + n..] == old(p[lo + n..])
  {
    ghost var v := Part(p, lo, n);
    var a2, a3 := p[lo + 2], p[lo + 3];
    var k := if a2 < a3 then 1 else 0;
    Put(p, lo, n, 2, p[lo + 1]);
    Put(p, lo, n, 3, p[lo]);
    Put(p, lo, n, k, a3);
    Put(p, lo, n, 1 - k, a2);
    FourExchanged(v, Part(p, lo, n), k);
  }

  lemma FourExchanged(v: seq<nat>, w: seq<nat>, k: nat)
    requires |v| >= 4 && Half(v, 3) && k == (if v[2] < v[3] then 1 else 0)
    requires w == v[2 := v[1]][3 := v[0]][k := v[3]][1 - k := v[2]]
    ensures Sorted(w) && multiset(w) == multiset(v)
  {
    hide Half, Sorted;
    FourInOrder(v);
    FourRise(v, w, k);
    FourSwaps(v, w, k);
  }

  lemma FourSwaps(v: seq<nat>, w: seq<nat>, k: nat)
    requires |v| >= 4 && k < 2 && w == v[2 := v[1]][3 := v[0]][k := v[3]][1 - k := v[2]]
    ensures multiset(w) == multiset(v)
  {
    var a := v[0 := v[3]][3 := v[0]];
    Exchanged(v, 0, 3);
    var b := a[1 := a[2]][2 := a[1]];
    Exchanged(a, 1, 2);
    var c := b[0 := b[1]][1 := b[0]];
    Exchanged(b, 0, 1);
    hide *;
    if k == 0 { SameFour(w, b); } else { SameFour(w, c); }
  }

  lemma SameFour(w: seq<nat>, b: seq<nat>)
    requires |w| == |b| >= 4 && w[0] == b[0] && w[1] == b[1] && w[2] == b[2] && w[3] == b[3] && w[4..] == b[4..]
    ensures w == b
  {
    forall j | 4 <= j < |w| ensures w[j] == b[j] { assert w[4..][j - 4] == b[4..][j - 4]; }
  }

  lemma FourInOrder(v: seq<nat>)
    requires |v| >= 4 && Half(v, 3)
    ensures v[0] >= v[1] >= v[2] && v[1] >= v[3]
    ensures forall p, q | 4 <= p < q < |v| :: v[p] <= v[q]
    ensures forall p, q | 0 <= p < 4 <= q < |v| :: v[p] <= v[q]
  {
    assert v[1 / 2] >= v[1] && v[2 / 2] >= v[2] && v[3 / 2] >= v[3];
  }

  lemma FourRise(v: seq<nat>, w: seq<nat>, k: nat)
    requires |v| >= 4 && v[0] >= v[1] >= v[2] && v[1] >= v[3] && k == (if v[2] < v[3] then 1 else 0)
    requires forall p, q | 4 <= p < q < |v| :: v[p] <= v[q]
    requires forall p, q | 0 <= p < 4 <= q < |v| :: v[p] <= v[q]
    requires w == v[2 := v[1]][3 := v[0]][k := v[3]][1 - k := v[2]]
    ensures Sorted(w)
  {
    assert w[0] <= w[1] <= w[2] <= w[3] && |w| == |v|;
    forall p, q | 0 <= p < q < |w| ensures w[p] <= w[q] {
      if q >= 4 {
        assert w[q] == v[q];
        if p < 4 { assert w[p] == v[if p == 2 then 1 else if p == 3 then 0 else if p == k then 3 else 2]; }
      }
    }
  }

  /** Sorts the `n` items from place `lo` on. */
  method HeapSort(p: array<Word>, lo: nat, n: nat)
    requires lo + n <= p.Length
    modifies p
    ensures Sorted(Part(p, lo, n)) && multiset(Part(p, lo, n)) == multiset(old(Part(p, lo, n)))
    ensures p[..lo] == old(p[..lo]) && p[lo + n..] == old(p[lo + n..])
  {
    if n < 2 { return; }
    if n == 2 {
      SortTwo(p, lo);
      return;
    }
    MakeHeap(p, lo, n);
    if n == 3 {
      SwapEnds(p, lo);
      return;
    }
    var last := n - 1;
    HeapAlone(Part(p, lo, n), last);
    hide Heap, Half, Sorted;
    while last != 3
      invariant 3 <= last < n && Half(Part(p, lo, n), last)
      invariant multiset(Part(p, lo, n)) == multiset(old(Part(p, lo, n)))
      invariant p[..lo] == old(p[..lo]) && p[lo + n..] == old(p[lo + n..])
    {
      PopOne(p, lo, n, last);
      last := last - 1;
    }
    LastFour(p, lo, n);
  }

  method SortTwo(p: array<Word>, lo: nat)
    requires lo + 2 <= p.Length
    modifies p
    ensures Sorted(Part(p, lo, 2)) && multiset(Part(p, lo, 2)) == multiset(old(Part(p, lo, 2)))
    ensures p[..lo] == old(p[..lo]) && p[lo + 2..] == old(p[lo + 2..])
  {
    hide *;
    ghost var v := Part(p, lo, 2);
    var a0, a1 := p[lo], p[lo + 1];
    assert v[0] == p[lo + 0] && v[1] == p[lo + 1];
    var k := if a1 < a0 then 1 else 0;
    Put(p, lo, 2, k, a0);
    Put(p, lo, 2, 1 - k, a1);
    TwoSorted(v, Part(p, lo, 2), k);
  }

  lemma TwoSorted(v: seq<nat>, w: seq<nat>, k: nat)
    requires |v| == 2 && k == (if v[1] < v[0] then 1 else 0) && w == v[k := v[0]][1 - k := v[1]]
    ensures Sorted(w) && multiset(w) == multiset(v)
  {
    if k == 0 {
      assert w == v;
    } else {
      Exchanged(v, 0, 1);
    }
  }

  /** Three items in a heap are in the opposite order. */
  method SwapEnds(p: array<Word>, lo: nat)
    requires lo + 3 <= p.Length && Heap(Part(p, lo, 3), 0, 2)
    modifies p
    ensures Sorted(Part(p, lo, 3)) && multiset(Part(p, lo, 3)) == multiset(old(Part(p, lo, 3)))
    ensures p[..lo] == old(p[..lo]) && p[lo + 3..] == old(p[lo + 3..])
  {
    hide *;
    ghost var v := Part(p, lo, 3);
    assert v[0] == p[lo + 0] && v[2] == p[lo + 2];
    var a0 := p[lo];
    Put(p, lo, 3, 0, p[lo + 2]);
    Put(p, lo, 3, 2, a0);
    EndsSwapped(v, Part(p, lo, 3));
  }

  lemma EndsSwapped(v: seq<nat>, w: seq<nat>)
    requires |v| == 3 && Heap(v, 0, 2) && w == v[0 := v[2]][2 := v[0]]
    ensures Sorted(w) && multiset(w) == multiset(v)
  {
    assert v[1 / 2] >= v[1] && v[2 / 2] >= v[2];
    Exchanged(v, 0, 2);
  }
}
