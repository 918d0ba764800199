/** The two-queue merge inside the work array: place `i` holds leaf `i` until it has been taken, then the weight
    of node `i`, then the parent of node `i`. */
module HuffBuild {
  import opened BitModel
  import opened Lists
  import opened HuffCost
  import opened HuffTree
  import opened HuffLevels
  import opened HuffWord

  // ----- weights stay below the total -----

  lemma SumOfItems(w: seq<nat>, q: Queues)
    requires TwoLeft(w, q)
    ensures QueuesOk(w, Merge(w, q)) && Sum(Items(w, Merge(w, q))) == Sum(Items(w, q))
  {
    TakenSum(w, q);
    var r, sum := Merge(w, q), MergeSum(w, q);
    hide Sum, Front, Next, NodeFirst, MergeSum;
    SliceSplit(w, q.l, r.l);
    SliceSplit(q.made, q.k, r.k);
    SliceAppend(q.made, r.k, sum);
    var a0, a, b0, b := w[q.l..r.l], w[r.l..], q.made[q.k..r.k], q.made[r.k..];
    SumAppend(a0 + a, b0 + b);
    SumAppend(a0, a);
    SumAppend(b0, b);
    SumAppend(a, b + [sum]);
    SumAppend(b, [sum]);
    SumOfTwo(sum, sum);
  }

  lemma {:induction false} SumKept(w: seq<nat>, e: nat)
    requires e < |w|
    ensures Sum(Items(w, After(w, e))) == Sum(w)
  {
    hide Sum, Merge, Items;
    if e == 0 {
      AtStart(w);
    } else {
      SumKept(w, e - 1);
      MergeStep(w, e - 1);
      SumOfItems(w, After(w, e - 1));
    }
  }

  lemma MadeBelowTotal(w: seq<nat>, e: nat, i: nat)
    requires i < e < |w|
    ensures After(w, e).made[i] <= Sum(w)
  {
    hide After, Sum;
    var j := i + 1;
    AfterGrows(w, j, e);
    SumKept(w, j);
    var q := After(w, j);
    assert q.k < j;
    assert Items(w, q)[|w| - q.l + i - q.k] == q.made[i];
    ElementBelowSum(Items(w, q), |w| - q.l + i - q.k);
    assert q.made[i] == After(w, e).made[..j][i];
  }

  // ----- the work array during the merges -----

  ghost predicate LeavesFrom(w: seq<nat>, p: seq<Word>, l: nat)
    requires |w| <= |p|
  {
    forall i: nat :: l <= i < |w| ==> Hi(p[i]) == w[i]
  }

  ghost predicate NodesHold(w: seq<nat>, p: seq<Word>, b: nat, e: nat)
    requires e < |w| <= |p|
  {
    forall i: nat :: b < i < e ==> Hi(p[i]) == After(w, e).made[i]
  }

  ghost predicate ParentsHold(w: seq<nat>, p: seq<Word>, b: nat)
    requires b < |w| <= |p|
  {
    b + 2 <= |w| && forall i: nat :: i < b ==> Hi(p[i]) == Parent(w, i)
  }

  ghost predicate InputOk(w: seq<nat>, p: seq<Word>) {
    3 <= |w| <= |p| && |w| <= MAX_SYMBOLS && Sum(w) < MAX_FREQ && Sorted(w)
  }

  /** `e` nodes have been made and there are leaves left; `fb` is the word of node `b`, the first that is left,
      and `f` the weight of the first leaf that is left. */
  ghost predicate Merging(w: seq<nat>, p: seq<Word>, e: nat, l: nat, b: nat, fb: Word, f: Word) {
    && InputOk(w, p) && 0 < e < |w| && After(w, e).l == l < |w| && After(w, e).k == b < e
    && ParentsHold(w, p, b) && NodesHold(w, p, b, e) && LeavesFrom(w, p, l)
    && Sym(fb) == Sym(p[b]) && Hi(fb) == After(w, e).made[b] && f == Pack(0, w[l])
  }

  /** `e` nodes have been made and all leaves have been taken. */
  ghost predicate LeavesTaken(w: seq<nat>, p: seq<Word>, e: nat, b: nat) {
    && InputOk(w, p) && 0 < e < |w| && After(w, e).l == |w| && After(w, e).k == b
    && ParentsHold(w, p, b)
  }

  /** The symbols stay where they are, and nothing behind the leaves changes. */
  ghost predicate SameSymbols(p: seq<Word>, q: seq<Word>, num: nat) {
    |p| == |q| && num <= |p|
    && (forall i: nat :: i < num ==> Sym(p[i]) == Sym(q[i])) && (forall i: nat :: num <= i < |p| ==> p[i] == q[i])
  }

  /** What one merge changes in the work array. */
  ghost predicate Changed(p: seq<Word>, q: seq<Word>, b: nat, b': nat, e: nat) {
    |p| == |q| && forall i: nat :: i < |p| && !(b <= i < b') && i != e ==> q[i] == p[i]
  }

  lemma MergedParents(w: seq<nat>, p: seq<Word>, e: nat, q: seq<Word>)
    requires InputOk(w, p) && 0 < e && e + 1 < |w| && After(w, e).k < e
    requires ParentsHold(w, p, After(w, e).k)
    requires Changed(p, q, After(w, e).k, After(w, e + 1).k, e)
    requires forall i: nat :: After(w, e).k <= i < After(w, e + 1).k ==> Hi(q[i]) == e
    ensures ParentsHold(w, q, After(w, e + 1).k)
  {
    var b, b' := After(w, e).k, After(w, e + 1).k;
    AfterGrows(w, e + 1, |w| - 1);
    AllTaken(w);
    hide After;
    forall i: nat | i < b'
      ensures Hi(q[i]) == Parent(w, i)
    {
      if i >= b { ParentIs(w, i, e); }
    }
  }

  lemma MergedNodes(w: seq<nat>, p: seq<Word>, e: nat, q: seq<Word>, next: nat)
    requires InputOk(w, p) && 0 < e && next == e + 1 < |w| && NodesHold(w, p, After(w, e).k, e)
    requires Changed(p, q, After(w, e).k, After(w, next).k, e)
    requires Hi(q[e]) == MergeSum(w, After(w, e))
    ensures NodesHold(w, q, After(w, next).k, next)
    ensures After(w, next).k <= e
    ensures After(w, e).k < After(w, next).k < e ==> Hi(p[After(w, next).k]) == After(w, next).made[After(w, next).k]
  {
    MergeStep(w, e);
    hide After, Merge, MergeSum;
  }

  lemma MergedLeaves(w: seq<nat>, p: seq<Word>, e: nat, q: seq<Word>, next: nat)
    requires InputOk(w, p) && 0 < e && next == e + 1 < |w| && LeavesFrom(w, p, After(w, e).l)
    requires Changed(p, q, After(w, e).k, After(w, next).k, e)
    ensures LeavesFrom(w, q, After(w, next).l)
  {
    MergeStep(w, e);
    hide Merge, MergeSum;
  }

  // ----- one merge -----

  /** What the code knows at the start of a merge. */
  lemma FirstChoice(w: seq<nat>, p: seq<Word>, e: nat, l: nat, b: nat, fb: Word, f: Word)
    requires Merging(w, p, e, l, b, fb, f)
    ensures var q := After(w, e);
      && TwoLeft(w, q) && e + 1 < |w| && q.l == l && q.k == b && |q.made| == e
      && (fb < f <==> NodeFirst(w, q))
      && Sym(fb) == Sym(p[b]) && Hi(fb) == q.made[b] && f == Pack(0, w[l]) && Hi(f) == w[l] && Sym(f) == 0
      && (forall i: nat :: i < e ==> q.made[i] < MAX_FREQ) && (forall i: nat :: i < |w| ==> w[i] < MAX_FREQ)
      && MergeSum(w, q) < MAX_FREQ && b < e < |w| <= MAX_SYMBOLS && |w| <= |p| && l < |w|
  {
    var q := After(w, e);
    AllWeightsFit(w, e);
    Packed(0, w[l]);
    Smaller(fb, f);
    MergeStep(w, e);
    MadeBelowTotal(w, e + 1, e);
  }

  lemma AllWeightsFit(w: seq<nat>, e: nat)
    requires Sum(w) < MAX_FREQ && e < |w|
    ensures forall i: nat :: i < e ==> After(w, e).made[i] < MAX_FREQ
    ensures forall i: nat :: i < |w| ==> w[i] < MAX_FREQ
  {
    hide After, Sum;
    forall i: nat | i < e ensures After(w, e).made[i] < MAX_FREQ { MadeBelowTotal(w, e, i); }
    forall i: nat | i < |w| ensures w[i] < MAX_FREQ { ElementBelowSum(w, i); }
  }

  /** The outcome of a merge: the loop goes on, or all leaves have been taken. */
  lemma MergeDone(w: seq<nat>, p: seq<Word>, e: nat, l: nat, b: nat, fb: Word, f: Word,
                  q: seq<Word>, l': nat, b': nat, fb': Word, f': Word)
    requires Merging(w, p, e, l, b, fb, f) && e + 1 < |w|
    requires var r := After(w, e + 1); r.l == l' && r.k == b'
    requires SameSymbols(p, q, |w|) && Changed(p, q, b, b', e)
    requires forall i: nat :: b <= i < b' ==> Hi(q[i]) == e
    ensures l' == |w| ==> LeavesTaken(w, q, e + 1, b')
    ensures (l' < |w| && Hi(q[e]) == MergeSum(w, After(w, e)) && f' == FreqBits(q[l'])
      && (if b' == b < e then fb' == fb else fb' == q[b'])) ==>
      Merging(w, q, e + 1, l', b', fb', f')
  {
    var next := e + 1;
    MergeStep(w, e);
    MergedParents(w, p, e, q);
    if l' < |w| && Hi(q[e]) == MergeSum(w, After(w, e)) && f' == FreqBits(q[l'])
      && (if b' == b < e then fb' == fb else fb' == q[b']) {
      MergedNodes(w, p, e, q, next);
      MergedLeaves(w, p, e, q, next);
      Unpacked(q[l']);
      hide After, Merge, MergeSum, LeavesFrom, ParentsHold, InputOk;
      LeafAt(w, q, l');
      KeptNode(w, e, next, b');
    }
  }

  lemma LeafAt(w: seq<nat>, q: seq<Word>, l: nat)
    requires l < |w| <= |q| && LeavesFrom(w, q, l)
    ensures Hi(q[l]) == w[l]
  {}

  lemma KeptNode(w: seq<nat>, e: nat, next: nat, i: nat)
    requires next == e + 1 < |w|
    ensures After(w, next).made[e] == MergeSum(w, After(w, e))
    ensures i < e ==> After(w, next).made[i] == After(w, e).made[i]
  {
    MergeStep(w, e);
    hide Merge, MergeSum;
  }

  /** The second choice of a merge, with a node and a leaf left. */
  lemma SecondChoice(w: seq<nat>, q: Queues, word: Word, f: Word)
    requires QueuesOk(w, q) && q.l < |w| && q.k < |q.made| && Hi(word) == q.made[q.k] && Hi(f) == w[q.l] && Sym(f) == 0
    ensures word < f <==> NodeFirst(w, q)
  {
    Smaller(word, f);
  }

  lemma AfterIs(w: seq<nat>, e: nat)
    requires e + 1 < |w|
    ensures var q := After(w, e); TwoLeft(w, q) && After(w, e + 1) == Merge(w, q)
  {}

  lemma NodeWord(w: seq<nat>, p: seq<Word>, e: nat, l: nat, b: nat, fb: Word, f: Word, i: nat)
    requires Merging(w, p, e, l, b, fb, f) && b < i < e
    ensures Hi(p[i]) == After(w, e).made[i]
  {}

  lemma LeafWord(w: seq<nat>, p: seq<Word>, e: nat, l: nat, b: nat, fb: Word, f: Word, i: nat)
    requires Merging(w, p, e, l, b, fb, f) && l <= i < |w|
    ensures Hi(p[i]) == w[i] && Hi(FreqBits(p[i])) == w[i] && Sym(FreqBits(p[i])) == 0
  {
    Unpacked(p[i]);
    Packed(0, Hi(p[i]));
  }

  /** The first child has been taken, another item is the next one of its queue, and both queues go on. */
  ghost predicate FirstTaken(w: seq<nat>, p0: seq<Word>, p: seq<Word>, e: nat, b0: nat, fb0: Word,
                             l: nat, b: nat, fb: Word, f: Word, sum: Word) {
    && e + 1 < |w| <= |p| && TwoLeft(w, After(w, e)) && e < MAX_SYMBOLS
    && var q := After(w, e);
       var m := Next(w, q);
       && b0 == q.k && m.l == l < |w| && m.k == b < e == |q.made|
       && SameSymbols(p0, p, |w|) && (forall i: nat :: i < |p| && !(b0 <= i < b) ==> p[i] == p0[i])
       && (forall i: nat :: b0 <= i < b ==> Hi(p[i]) == e)
       && Hi(fb) == q.made[b] && Sym(fb) == Sym(p[b]) && (if b == b0 then fb == fb0 else fb == p[b])
       && f == FreqBits(p[l]) && Hi(f) == w[l] && Sym(f) == 0
       && Hi(sum) == Front(w, q) && Sym(sum) == 0
       && MergeSum(w, q) < MAX_FREQ
  }

  lemma TopBits(x: Word)
    ensures Sym(FreqBits(x)) == 0 && Hi(FreqBits(x)) == Hi(x)
  {
    Unpacked(x);
    Packed(0, Hi(x));
  }

  /** Takes the first child. `stop` when that settles the second child too: the only one left of its queue. */
  method FirstChild(ghost w: seq<nat>, p: array<Word>, num: nat, e: nat, l0: nat, b0: nat, fb0: Word, f0: Word)
    returns (stop: bool, done: bool, l: nat, b: nat, fb: Word, f: Word, sum: Word)
    requires Merging(w, p[..], e, l0, b0, fb0, f0) && num == |w|
    modifies p
    ensures !stop ==> FirstTaken(w, old(p[..]), p[..], e, b0, fb0, l, b, fb, f, sum)
    ensures stop ==> SameSymbols(old(p[..]), p[..], num) && e + 1 < num
    ensures stop ==> if done then LeavesTaken(w, p[..], e + 1, b) else Merging(w, p[..], e + 1, l, b, fb, f)
  {
    hide Merging, LeavesTaken, After, Pack, Sym, Hi, FreqBits;
    FirstChoice(w, p[..], e, l0, b0, fb0, f0);
    AfterIs(w, e);
    ghost var q := After(w, e);
    ghost var p0 := p[..];
    stop, done, l, b, fb, f, sum := false, false, l0, b0, fb0, f0, 0;
    Packed(Sym(fb), e);
    if fb < f {
      sum := FreqBits(fb);
      TopBits(fb);
      p[b] := Pack(Sym(fb), e);
      b := b + 1;
      fb := p[b];
      LeafWord(w, p0, e, l0, b0, fb0, f0, l);
      if b == e {
        stop := true;
        l := l + 1;
        if l == num {
          done := true;
        } else {
          LeafWord(w, p0, e, l0, b0, fb0, f0, l);
          JoinedWord(fb, fb0, f);
          Packed(Sym(fb), MergeSum(w, q));
          sum := sum + f;
          fb := Sym(fb) + sum;
          p[e] := fb;
          f := FreqBits(p[l]);
        }
        MergeDone(w, p0, e, l0, b0, fb0, f0, p[..], l, b, fb, f);
      } else {
        NodeWord(w, p0, e, l0, b0, fb0, f0, b);
        FirstLeaf(w, p0, e, l0, b0, fb0, f0);
      }
    } else {
      l := l + 1;
      if l == num {
        p[b] := Pack(Sym(fb), e);
        b := b + 1;
        stop, done := true, true;
        MergeDone(w, p0, e, l0, b0, fb0, f0, p[..], l, b, fb, f);
      } else {
        LeafWord(w, p0, e, l0, b0, fb0, f0, l);
        sum := f;
        f := FreqBits(p[l]);
      }
    }
  }

  lemma FirstLeaf(w: seq<nat>, p: seq<Word>, e: nat, l: nat, b: nat, fb: Word, f: Word)
    requires Merging(w, p, e, l, b, fb, f)
    ensures f == FreqBits(p[l])
  {
    Unpacked(p[l]);
  }

  /** Takes the second child of node `e`. */
  method SecondChild(ghost w: seq<nat>, p: array<Word>, num: nat, e: nat, ghost l0: nat, ghost b0: nat, ghost fb0: Word,
                     ghost f0: Word, l1: nat, b1: nat, fb1: Word, f1: Word, sum1: Word, ghost p0: seq<Word>)
    returns (done: bool, l: nat, b: nat, fb: Word, f: Word)
    requires Merging(w, p0, e, l0, b0, fb0, f0) && num == |w|
    requires FirstTaken(w, p0, p[..], e, b0, fb0, l1, b1, fb1, f1, sum1)
    modifies p
    ensures SameSymbols(p0, p[..], num) && e + 1 < num
    ensures if done then LeavesTaken(w, p[..], e + 1, b) else Merging(w, p[..], e + 1, l, b, fb, f)
  {
    hide Merging, LeavesTaken, After, Pack, Sym, Hi, FreqBits, NodeFirst;
    AfterIs(w, e);
    done, l, b, fb, f := false, l1, b1, fb1, f1;
    var sum := sum1;
    ghost var q := After(w, e);
    SecondChoice(w, Next(w, q), fb, f);
    Packed(Sym(fb), e);
    Packed(Sym(p[e]), MergeSum(w, q));
    if fb < f {
      JoinedWord(p[e], fb, sum);
      sum := FreqBits(sum + fb);
      p[b] := Pack(Sym(fb), e);
      b := b + 1;
      p[e] := Sym(p[e]) + sum;
      fb := p[b];
    } else {
      JoinedWord(p[e], sum, f);
      l := l + 1;
      if l == num {
        done := true;
      } else {
        sum := sum + f;
        f := FreqBits(p[l]);
        p[e] := Sym(p[e]) + sum;
      }
    }
    MergeDone(w, p0, e, l0, b0, fb0, f0, p[..], l, b, fb, f);
  }

  /** Node `e` gets its two children: each is the smaller one of the next node and the next leaf. `done` when the
      last leaf has been taken. */
  method MergeOne(ghost w: seq<nat>, p: array<Word>, num: nat, e: nat, l0: nat, b0: nat, fb0: Word, f0: Word)
    returns (done: bool, l: nat, b: nat, fb: Word, f: Word)
    requires Merging(w, p[..], e, l0, b0, fb0, f0) && num == |w|
    modifies p
    ensures SameSymbols(old(p[..]), p[..], num) && e + 1 < num
    ensures if done then LeavesTaken(w, p[..], e + 1, b) else Merging(w, p[..], e + 1, l, b, fb, f)
  {
    hide *;
    ghost var p0 := p[..];
    var stop, sum;
    stop, done, l, b, fb, f, sum := FirstChild(w, p, num, e, l0, b0, fb0, f0);
    if !stop {
      done, l, b, fb, f := SecondChild(w, p, num, e, l0, b0, fb0, f0, l, b, fb, f, sum, p0);
    }
  }

  lemma SymbolsStay(a: seq<Word>, b: seq<Word>, c: seq<Word>, num: nat)
    requires SameSymbols(a, b, num) && SameSymbols(b, c, num)
    ensures SameSymbols(a, c, num)
  {}

  /** The first node takes the two smallest leaves. */
  lemma FirstMerge(w: seq<nat>, p: seq<Word>, fb: Word, f: Word)
    requires InputOk(w, p) && LeavesFrom(w, p, 0) && w[0] + w[1] < MAX_FREQ
    requires fb == Pack(Sym(p[0]), w[0] + w[1]) && f == FreqBits(p[2])
    ensures Merging(w, p, 1, 2, 0, fb, f)
  {
    Packed(Sym(p[0]), w[0] + w[1]);
    Unpacked(p[2]);
    assert After(w, 0) == Queues(0, 0, []);
    assert Next(w, After(w, 0)) == Queues(1, 0, []);
    assert After(w, 1) == Queues(2, 0, [w[0] + w[1]]);
  }

  lemma TotalOfTwo(w: seq<nat>)
    requires |w| >= 2
    ensures w[0] + w[1] <= Sum(w)
  {
    assert Sum(w) == w[0] + Sum(w[1..]);
    ElementBelowSum(w[1..], 0);
  }

  /** Merges until the last leaf has been taken. `e` nodes have been made, and the parents of the first `b` are
      known. */
  method Build(ghost w: seq<nat>, p: array<Word>, num: nat) returns (b: nat, ghost e: nat)
    requires InputOk(w, p[..]) && num == |w| && LeavesFrom(w, p[..], 0)
    modifies p
    ensures SameSymbols(old(p[..]), p[..], num) && LeavesTaken(w, p[..], e, b)
  {
    TotalOfTwo(w);
    hide Merging, LeavesTaken, After, Pack, Sym, Hi, FreqBits;
    LeafAt(w, p[..], 0);
    LeafAt(w, p[..], 1);
    TopBits(p[1]);
    JoinedWord(p[0], p[0], FreqBits(p[1]));
    Unpacked(p[0]);
    var fb: Word := FreqBits(p[1]) + p[0];
    var f := FreqBits(p[2]);
    var l := 2;
    b, e := 0, 1;
    FirstMerge(w, p[..], fb, f);
    var done := false;
    var node := 1;
    while !done
      invariant SameSymbols(old(p[..]), p[..], num) && node == e <= num
      invariant if done then LeavesTaken(w, p[..], e, b) else Merging(w, p[..], e, l, b, fb, f)
      decreases num - e, !done
    {
      ghost var before := p[..];
      done, l, b, fb, f := MergeOne(w, p, num, node, l, b, fb, f);
      SymbolsStay(old(p[..]), before, p[..], num);
      node := node + 1;
      e := e + 1;
    }
  }
}
