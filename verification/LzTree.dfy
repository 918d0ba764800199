/** Search trees over the suffixes of a text: the abstract form of the binary-tree match finder.
    A node is the start of a suffix. Inserting a suffix splits the tree of its bucket into the
    smaller and the larger suffixes and reports the matches met on the way down. */
module LzTree {
  import opened BitModel

  // ----- suffixes compared on their first n bytes -----

  predicate Agree(text: seq<Byte>, a: nat, b: nat, k: nat) {
    a + k <= |text| && b + k <= |text| && text[a..a + k] == text[b..b + k]
  }

  /** The first index from `k` on, below `n`, at which the suffixes differ, or `n`. */
  function LcpFrom(text: seq<Byte>, a: nat, b: nat, k: nat, n: nat): (len: nat)
    requires k <= n && a + n <= |text| && b + n <= |text|
    ensures k <= len <= n
    ensures len < n ==> text[a + len] != text[b + len]
    decreases n - k
  {
    if k < n && text[a + k] == text[b + k] then LcpFrom(text, a, b, k + 1, n) else k
  }

  function Lcp(text: seq<Byte>, a: nat, b: nat, n: nat): (len: nat)
    requires a + n <= |text| && b + n <= |text|
    ensures len <= n
    ensures len < n ==> text[a + len] != text[b + len]
  {
    LcpFrom(text, a, b, 0, n)
  }

  /** The suffix at `a` comes strictly before the one at `b` within `n` bytes. */
  predicate Below(text: seq<Byte>, a: nat, b: nat, n: nat)
    requires a + n <= |text| && b + n <= |text|
  {
    var k := Lcp(text, a, b, n);
    k < n && text[a + k] < text[b + k]
  }

  predicate NotAbove(text: seq<Byte>, a: nat, b: nat, n: nat)
    requires a + n <= |text| && b + n <= |text|
  {
    var k := Lcp(text, a, b, n);
    k == n || text[a + k] < text[b + k]
  }

  lemma AgreeAt(text: seq<Byte>, a: nat, b: nat, k: nat, i: nat)
    requires Agree(text, a, b, k) && i < k
    ensures text[a + i] == text[b + i]
  {
    assert text[a..a + k][i] == text[b..b + k][i];
  }

  lemma AgreeShrink(text: seq<Byte>, a: nat, b: nat, k: nat, j: nat)
    requires Agree(text, a, b, k) && j <= k
    ensures Agree(text, a, b, j)
  {
    assert text[a..a + j] == text[a..a + k][..j];
    assert text[b..b + j] == text[b..b + k][..j];
  }

  lemma AgreeExtend(text: seq<Byte>, a: nat, b: nat, k: nat)
    requires Agree(text, a, b, k) && a + k < |text| && b + k < |text| && text[a + k] == text[b + k]
    ensures Agree(text, a, b, k + 1)
  {
    assert text[a..a + k + 1] == text[a..a + k] + [text[a + k]];
    assert text[b..b + k + 1] == text[b..b + k] + [text[b + k]];
  }

  lemma AgreeTransitive(text: seq<Byte>, a: nat, b: nat, c: nat, k: nat)
    requires Agree(text, a, b, k) && Agree(text, b, c, k)
    ensures Agree(text, a, c, k)
    ensures Agree(text, b, a, k)
  {}

  lemma {:induction false} LcpFromAgrees(text: seq<Byte>, a: nat, b: nat, k: nat, n: nat)
    requires k <= n && a + n <= |text| && b + n <= |text| && Agree(text, a, b, k)
    ensures Agree(text, a, b, LcpFrom(text, a, b, k, n))
    decreases n - k
  {
    if k < n && text[a + k] == text[b + k] {
      AgreeExtend(text, a, b, k);
      LcpFromAgrees(text, a, b, k + 1, n);
    }
  }

  /** The longest common prefix is the one agreement that cannot be extended. */
  lemma LcpIs(text: seq<Byte>, a: nat, b: nat, n: nat, k: nat)
    requires k <= n && a + n <= |text| && b + n <= |text| && Agree(text, a, b, k)
    requires k == n || text[a + k] != text[b + k]
    ensures Lcp(text, a, b, n) == k
  {
    hide Agree, LcpFrom;
    var l: nat := Lcp(text, a, b, n);
    LcpFromAgrees(text, a, b, 0, n);
    if l < k { AgreeAt(text, a, b, k, l); }
    if k < l { AgreeAt(text, a, b, l, k); }
  }

  lemma LcpAgrees(text: seq<Byte>, a: nat, b: nat, n: nat)
    requires a + n <= |text| && b + n <= |text|
    ensures Agree(text, a, b, Lcp(text, a, b, n))
  {
    LcpFromAgrees(text, a, b, 0, n);
  }

  /** Comparison may start at any length known to agree. */
  lemma LcpSkips(text: seq<Byte>, a: nat, b: nat, k: nat, n: nat)
    requires k <= n && a + n <= |text| && b + n <= |text| && Agree(text, a, b, k)
    ensures LcpFrom(text, a, b, k, n) == Lcp(text, a, b, n)
  {
    LcpFromAgrees(text, a, b, k, n);
    LcpIs(text, a, b, n, LcpFrom(text, a, b, k, n));
  }

  lemma LcpSym(text: seq<Byte>, a: nat, b: nat, n: nat)
    requires a + n <= |text| && b + n <= |text|
    ensures Lcp(text, a, b, n) == Lcp(text, b, a, n)
  {
    LcpAgrees(text, a, b, n);
    LcpIs(text, b, a, n, Lcp(text, a, b, n));
  }

  /** Every pair of suffixes is ordered one way or the other, or agrees throughout. */
  lemma Trichotomy(text: seq<Byte>, a: nat, b: nat, n: nat)
    requires a + n <= |text| && b + n <= |text|
    ensures Below(text, a, b, n) || Below(text, b, a, n) || Lcp(text, a, b, n) == n
    ensures !(Below(text, a, b, n) && Below(text, b, a, n))
  {
    LcpSym(text, a, b, n);
  }

  /** Prefixes of three suffixes: the two closest to each other bound the third agreement. */
  lemma LcpOfThree(text: seq<Byte>, a: nat, b: nat, c: nat, n: nat)
    requires a + n <= |text| && b + n <= |text| && c + n <= |text|
    ensures Lcp(text, a, b, n) < Lcp(text, b, c, n) ==> Lcp(text, a, c, n) == Lcp(text, a, b, n)
    ensures Lcp(text, b, c, n) < Lcp(text, a, b, n) ==> Lcp(text, a, c, n) == Lcp(text, b, c, n)
    ensures Lcp(text, a, b, n) == Lcp(text, b, c, n) ==> Lcp(text, a, c, n) >= Lcp(text, a, b, n)
  {
    hide Agree, Lcp, LcpFrom;
    var x, y := Lcp(text, a, b, n), Lcp(text, b, c, n);
    var k := if x < y then x else y;
    LcpAgrees(text, a, b, n);
    LcpAgrees(text, b, c, n);
    AgreeShrink(text, a, b, x, k);
    AgreeShrink(text, b, c, y, k);
    AgreeTransitive(text, a, b, c, k);
    if x < y {
      AgreeAt(text, b, c, y, x);
      LcpIs(text, a, c, n, k);
    } else if y < x {
      AgreeAt(text, a, b, x, y);
      LcpIs(text, a, c, n, k);
    } else {
      var z := Lcp(text, a, c, n);
      if z < k { AgreeAt(text, a, c, k, z); }
    }
  }

  lemma NotAboveTransitive(text: seq<Byte>, a: nat, b: nat, c: nat, n: nat)
    requires a + n <= |text| && b + n <= |text| && c + n <= |text|
    requires NotAbove(text, a, b, n) && NotAbove(text, b, c, n)
    ensures NotAbove(text, a, c, n)
  {
    hide Agree, Lcp, LcpFrom;
    var x, y, z := Lcp(text, a, b, n), Lcp(text, b, c, n), Lcp(text, a, c, n);
    LcpOfThree(text, a, b, c, n);
    LcpAgrees(text, a, b, n);
    LcpAgrees(text, b, c, n);
    if x < y { AgreeAt(text, b, c, y, x); }
    if y < x { AgreeAt(text, a, b, x, y); }
    if x == y && z > x { LcpAgrees(text, a, c, n); AgreeAt(text, a, c, z, x); }
  }

  /** Whatever lies between two suffixes shares what both share with a third. */
  lemma BetweenAgrees(text: seq<Byte>, lo: nat, x: nat, hi: nat, c: nat, m: nat, n: nat)
    requires m <= n && lo + n <= |text| && x + n <= |text| && hi + n <= |text| && c + n <= |text|
    requires NotAbove(text, lo, x, n) && NotAbove(text, x, hi, n)
    requires Agree(text, lo, c, m) && Agree(text, hi, c, m)
    ensures Agree(text, x, c, m)
  {
    hide Agree, Lcp, LcpFrom;
    var p: nat, q: nat := Lcp(text, lo, x, n), Lcp(text, x, hi, n);
    LcpAgrees(text, lo, x, n);
    LcpAgrees(text, x, hi, n);
    if p >= m {
      AgreeShrink(text, lo, x, p, m);
      AgreeTransitive(text, lo, x, lo, m);
      AgreeTransitive(text, x, lo, c, m);
    } else if q >= m {
      AgreeShrink(text, x, hi, q, m);
      AgreeTransitive(text, x, hi, c, m);
    } else {
      AgreeAt(text, lo, c, m, p);
      AgreeAt(text, hi, c, m, p);
      AgreeAt(text, lo, c, m, q);
      AgreeAt(text, hi, c, m, q);
      if p < q { AgreeAt(text, x, hi, q, p); }
      if q < p { AgreeAt(text, lo, x, p, q); }
      assert false;
    }
  }

  /** A suffix beyond `y`, seen from `c`, shares no more with `c` than `y` does. */
  lemma FartherSharesLess(text: seq<Byte>, x: nat, y: nat, c: nat, n: nat)
    requires x + n <= |text| && y + n <= |text| && c + n <= |text|
    requires (NotAbove(text, x, y, n) && Below(text, y, c, n)) || (NotAbove(text, y, x, n) && Below(text, c, y, n))
    ensures Lcp(text, x, c, n) <= Lcp(text, y, c, n)
  {
    hide Agree, Lcp, LcpFrom;
    var p, q, z := Lcp(text, x, y, n), Lcp(text, y, c, n), Lcp(text, x, c, n);
    LcpSym(text, x, y, n);
    LcpSym(text, c, y, n);
    LcpOfThree(text, x, y, c, n);
    if p == q && z > q {
      LcpAgrees(text, x, c, n);
      AgreeAt(text, x, c, z, q);
      assert false;
    }
  }

  lemma NotAboveShrinks(text: seq<Byte>, a: nat, b: nat, n: nat, m: nat)
    requires m <= n && a + n <= |text| && b + n <= |text| && NotAbove(text, a, b, n)
    ensures NotAbove(text, a, b, m)
  {
    var k := Lcp(text, a, b, n);
    LcpAgrees(text, a, b, n);
    if k < m {
      LcpIs(text, a, b, m, k);
    } else {
      AgreeShrink(text, a, b, k, m);
      LcpIs(text, a, b, m, m);
    }
  }

  // ----- trees -----

  datatype Tree = Leaf | Node(pos: nat, left: Tree, right: Tree)

  /** A match of the current suffix: `dist` is one less than the distance, as LZMA counts it. */
  datatype Match = Match(len: nat, dist: nat)

  function Nodes(t: Tree): set<nat> {
    if t.Leaf? then {} else {t.pos} + Nodes(t.left) + Nodes(t.right)
  }

  /** Positions fall from parent to child: below a node there are only older suffixes. */
  predicate Falling(t: Tree, bound: nat) {
    t.Node? ==> t.pos < bound && Falling(t.left, t.pos) && Falling(t.right, t.pos)
  }

  /** No suffix occurs twice. */
  predicate Apart(t: Tree) {
    t.Node? ==> Nodes(t.left) !! Nodes(t.right) && Apart(t.left) && Apart(t.right)
  }

  predicate AllUpTo(text: seq<Byte>, xs: set<nat>, y: nat, n: nat)
    requires y + n <= |text|
  {
    forall x | x in xs :: x + n <= |text| && NotAbove(text, x, y, n)
  }

  predicate AllFrom(text: seq<Byte>, xs: set<nat>, y: nat, n: nat)
    requires y + n <= |text|
  {
    forall x | x in xs :: x + n <= |text| && NotAbove(text, y, x, n)
  }

  /** A search tree on the first `n` bytes of the suffixes. */
  predicate Sorted(text: seq<Byte>, t: Tree, n: nat) {
    t.Node? ==>
      && t.pos + n <= |text|
      && AllUpTo(text, Nodes(t.left), t.pos, n)
      && AllFrom(text, Nodes(t.right), t.pos, n)
      && Sorted(text, t.left, n)
      && Sorted(text, t.right, n)
  }

  datatype Halves = Halves(small: Tree, large: Tree)

  /** The suffixes before and after `cur`. A suffix that agrees with `cur` on all `n` bytes is
      dropped, as `cur` takes its place; what lies deeper than `rounds` nodes is dropped too. */
  function Split(text: seq<Byte>, t: Tree, cur: nat, n: nat, rounds: nat): Halves
    requires Falling(t, cur) && cur + n <= |text|
    decreases t
  {
    if t.Leaf? || rounds == 0 then Halves(Leaf, Leaf) else
    FallingWeakens(t.left, t.pos, cur);
    FallingWeakens(t.right, t.pos, cur);
    if Lcp(text, t.pos, cur, n) == n then Halves(t.left, t.right)
    else if Below(text, t.pos, cur, n) then
      var h := Split(text, t.right, cur, n, rounds - 1);
      Halves(Node(t.pos, t.left, h.small), h.large)
    else
      var h := Split(text, t.left, cur, n, rounds - 1);
      Halves(h.small, Node(t.pos, h.large, t.right))
  }

  /** The matches longer than `best` met on the way down, each longer than the one before. */
  function Matches(text: seq<Byte>, t: Tree, cur: nat, n: nat, rounds: nat, best: nat): seq<Match>
    requires Falling(t, cur) && cur + n <= |text|
    decreases t
  {
    if t.Leaf? || rounds == 0 then [] else
    FallingWeakens(t.left, t.pos, cur);
    FallingWeakens(t.right, t.pos, cur);
    var len := Lcp(text, t.pos, cur, n);
    (if len > best then [Match(len, cur - t.pos - 1)] else [])
      + (if len == n then []
         else Matches(text, if Below(text, t.pos, cur, n) then t.right else t.left, cur, n, rounds - 1,
                      if len > best then len else best))
  }

  /** The search ends before `rounds` nodes have been compared. */
  predicate Reached(text: seq<Byte>, t: Tree, cur: nat, n: nat, rounds: nat)
    requires Falling(t, cur) && cur + n <= |text|
    decreases t
  {
    t.Leaf? || (
      && rounds > 0
      && (FallingWeakens(t.left, t.pos, cur);
          FallingWeakens(t.right, t.pos, cur);
          Lcp(text, t.pos, cur, n) == n
          || Reached(text, if Below(text, t.pos, cur, n) then t.right else t.left, cur, n, rounds - 1)))
  }

  function Insert(text: seq<Byte>, t: Tree, cur: nat, n: nat, rounds: nat): Tree
    requires Falling(t, cur) && cur + n <= |text|
  {
    var h := Split(text, t, cur, n, rounds);
    Node(cur, h.small, h.large)
  }

  lemma {:induction false} FallingWeakens(t: Tree, a: nat, b: nat)
    requires Falling(t, a) && a <= b
    ensures Falling(t, b)
  {}

  lemma {:induction false} FallingBounds(t: Tree, bound: nat)
    requires Falling(t, bound)
    ensures forall x | x in Nodes(t) :: x < bound
  {
    if t.Node? {
      FallingBounds(t.left, t.pos);
      FallingBounds(t.right, t.pos);
    }
  }

  // ----- what insertion keeps -----

  /** Insertion loses at most the replaced suffix and those beyond the last round. */
  lemma {:induction false} SplitNodes(text: seq<Byte>, t: Tree, cur: nat, n: nat, rounds: nat)
    requires Falling(t, cur) && cur + n <= |text|
    ensures var h := Split(text, t, cur, n, rounds);
      && Nodes(h.small) + Nodes(h.large) <= Nodes(t)
      && (Reached(text, t, cur, n, rounds) ==>
            forall x | x in Nodes(t) ::
              x in Nodes(h.small) + Nodes(h.large) || (x + n <= |text| && Lcp(text, x, cur, n) == n))
  {
    hide Lcp, Below;
    if t.Node? && rounds > 0 {
      FallingWeakens(t.left, t.pos, cur);
      FallingWeakens(t.right, t.pos, cur);
      if Lcp(text, t.pos, cur, n) == n {
      } else if Below(text, t.pos, cur, n) {
        SplitNodes(text, t.right, cur, n, rounds - 1);
      } else {
        SplitNodes(text, t.left, cur, n, rounds - 1);
      }
    }
  }

  lemma {:induction false} SplitFalls(text: seq<Byte>, t: Tree, cur: nat, n: nat, rounds: nat, bound: nat)
    requires Falling(t, cur) && cur + n <= |text| && Falling(t, bound)
    ensures var h := Split(text, t, cur, n, rounds); Falling(h.small, bound) && Falling(h.large, bound)
  {
    if t.Node? && rounds > 0 {
      FallingWeakens(t.left, t.pos, cur);
      FallingWeakens(t.right, t.pos, cur);
      FallingWeakens(t.left, t.pos, bound);
      FallingWeakens(t.right, t.pos, bound);
      if Lcp(text, t.pos, cur, n) == n {
      } else if Below(text, t.pos, cur, n) {
        SplitFalls(text, t.right, cur, n, rounds - 1, t.pos);
        SplitFalls(text, t.right, cur, n, rounds - 1, bound);
      } else {
        SplitFalls(text, t.left, cur, n, rounds - 1, t.pos);
        SplitFalls(text, t.left, cur, n, rounds - 1, bound);
      }
    }
  }

  lemma {:induction false} SplitApart(text: seq<Byte>, t: Tree, cur: nat, n: nat, rounds: nat)
    requires Falling(t, cur) && cur + n <= |text| && Apart(t)
    ensures var h := Split(text, t, cur, n, rounds);
      Nodes(h.small) !! Nodes(h.large) && Apart(h.small) && Apart(h.large)
  {
    hide Lcp, Below;
    if t.Node? && rounds > 0 {
      FallingWeakens(t.left, t.pos, cur);
      FallingWeakens(t.right, t.pos, cur);
      FallingBounds(t.left, t.pos);
      FallingBounds(t.right, t.pos);
      if Lcp(text, t.pos, cur, n) == n {
      } else if Below(text, t.pos, cur, n) {
        SplitNodes(text, t.right, cur, n, rounds - 1);
        SplitApart(text, t.right, cur, n, rounds - 1);
        var h := Split(text, t.right, cur, n, rounds - 1);
        assert Apart(Node(t.pos, t.left, h.small));
      } else {
        SplitNodes(text, t.left, cur, n, rounds - 1);
        SplitApart(text, t.left, cur, n, rounds - 1);
        var h := Split(text, t.left, cur, n, rounds - 1);
        assert Apart(Node(t.pos, h.large, t.right));
      }
    }
  }

  /** Both halves are search trees, on their own sides of `cur`. */
  lemma {:induction false} SplitSorts(text: seq<Byte>, t: Tree, cur: nat, n: nat, rounds: nat)
    requires Falling(t, cur) && cur + n <= |text| && Sorted(text, t, n)
    ensures var h := Split(text, t, cur, n, rounds);
      && Sorted(text, h.small, n) && Sorted(text, h.large, n)
      && AllUpTo(text, Nodes(h.small), cur, n) && AllFrom(text, Nodes(h.large), cur, n)
  {
    hide Lcp, Below, NotAbove, AllUpTo, AllFrom;
    Empty(text, cur, n);
    if t.Node? && rounds > 0 {
      FallingWeakens(t.left, t.pos, cur);
      FallingWeakens(t.right, t.pos, cur);
      SmallerStaySmall(text, t, cur, n);
      LargerStayLarge(text, t, cur, n);
      if Lcp(text, t.pos, cur, n) == n {
      } else if Below(text, t.pos, cur, n) {
        SplitSorts(text, t.right, cur, n, rounds - 1);
        SplitNodes(text, t.right, cur, n, rounds - 1);
        var h := Split(text, t.right, cur, n, rounds - 1);
        FewerStay(text, Nodes(t.right), Nodes(h.small), t.pos, n);
        assert Nodes(Node(t.pos, t.left, h.small)) == {t.pos} + Nodes(t.left) + Nodes(h.small);
        JoinUpTo(text, t.pos, Nodes(t.left), Nodes(h.small), cur, n);
      } else {
        SplitSorts(text, t.left, cur, n, rounds - 1);
        SplitNodes(text, t.left, cur, n, rounds - 1);
        var h := Split(text, t.left, cur, n, rounds - 1);
        FewerStay(text, Nodes(t.left), Nodes(h.large), t.pos, n);
        assert Nodes(Node(t.pos, h.large, t.right)) == {t.pos} + Nodes(h.large) + Nodes(t.right);
        JoinFrom(text, t.pos, Nodes(h.large), Nodes(t.right), cur, n);
      }
    }
  }

  lemma Empty(text: seq<Byte>, cur: nat, n: nat)
    requires cur + n <= |text|
    ensures AllUpTo(text, {}, cur, n) && AllFrom(text, {}, cur, n)
  {}

  lemma FewerStay(text: seq<Byte>, xs: set<nat>, ys: set<nat>, y: nat, n: nat)
    requires y + n <= |text| && ys <= xs
    ensures AllUpTo(text, xs, y, n) ==> AllUpTo(text, ys, y, n)
    ensures AllFrom(text, xs, y, n) ==> AllFrom(text, ys, y, n)
  {}

  lemma JoinUpTo(text: seq<Byte>, x: nat, xs: set<nat>, ys: set<nat>, y: nat, n: nat)
    requires y + n <= |text| && x + n <= |text| && NotAbove(text, x, y, n)
    requires AllUpTo(text, xs, y, n) && AllUpTo(text, ys, y, n)
    ensures AllUpTo(text, {x} + xs + ys, y, n)
  {}

  lemma JoinFrom(text: seq<Byte>, x: nat, xs: set<nat>, ys: set<nat>, y: nat, n: nat)
    requires y + n <= |text| && x + n <= |text| && NotAbove(text, y, x, n)
    requires AllFrom(text, xs, y, n) && AllFrom(text, ys, y, n)
    ensures AllFrom(text, {x} + xs + ys, y, n)
  {}

  lemma SmallerStaySmall(text: seq<Byte>, t: Tree, cur: nat, n: nat)
    requires t.Node? && cur + n <= |text| && Sorted(text, t, n)
    ensures Below(text, t.pos, cur, n) ==> NotAbove(text, t.pos, cur, n)
    ensures NotAbove(text, t.pos, cur, n) ==> AllUpTo(text, Nodes(t.left), cur, n)
  {
    if NotAbove(text, t.pos, cur, n) {
      forall x | x in Nodes(t.left) ensures x + n <= |text| && NotAbove(text, x, cur, n) {
        NotAboveTransitive(text, x, t.pos, cur, n);
      }
    }
  }

  lemma LargerStayLarge(text: seq<Byte>, t: Tree, cur: nat, n: nat)
    requires t.Node? && cur + n <= |text| && Sorted(text, t, n)
    ensures !Below(text, t.pos, cur, n) || Lcp(text, t.pos, cur, n) == n ==>
      NotAbove(text, cur, t.pos, n) && AllFrom(text, Nodes(t.right), cur, n)
    ensures Lcp(text, t.pos, cur, n) == n ==> NotAbove(text, t.pos, cur, n) && NotAbove(text, cur, t.pos, n)
  {
    LcpSym(text, t.pos, cur, n);
    if !Below(text, t.pos, cur, n) {
      assert NotAbove(text, cur, t.pos, n);
      forall x | x in Nodes(t.right) ensures x + n <= |text| && NotAbove(text, cur, x, n) {
        NotAboveTransitive(text, cur, t.pos, x, n);
      }
    }
  }

  /** Inserting a suffix keeps the search order, the fall of positions and the uniqueness of nodes. */
  lemma InsertKeepsTree(text: seq<Byte>, t: Tree, cur: nat, n: nat, rounds: nat)
    requires Falling(t, cur) && cur + n <= |text| && Sorted(text, t, n) && Apart(t)
    ensures var u := Insert(text, t, cur, n, rounds);
      && Sorted(text, u, n) && Falling(u, cur + 1) && Apart(u)
      && Nodes(u) <= Nodes(t) + {cur}
      && (Reached(text, t, cur, n, rounds) ==>
            forall x | x in Nodes(t) :: x in Nodes(u) || (x + n <= |text| && Lcp(text, x, cur, n) == n))
  {
    SplitNodes(text, t, cur, n, rounds);
    SplitFalls(text, t, cur, n, rounds, cur);
    SplitApart(text, t, cur, n, rounds);
    SplitSorts(text, t, cur, n, rounds);
  }

  // ----- what the search reports -----

  predicate Rising(ms: seq<Match>) {
    forall i, j | 0 <= i < j < |ms| :: ms[i].len < ms[j].len && ms[i].dist < ms[j].dist
  }

  predicate TrueMatch(text: seq<Byte>, xs: set<nat>, cur: nat, n: nat, m: Match)
    requires cur + n <= |text|
  {
    m.dist < cur && cur - m.dist - 1 in xs && Lcp(text, cur - m.dist - 1, cur, n) == m.len
  }

  predicate AllTrue(text: seq<Byte>, xs: set<nat>, cur: nat, n: nat, best: nat, ms: seq<Match>)
    requires cur + n <= |text|
  {
    Rising(ms) && forall i | 0 <= i < |ms| :: ms[i].len > best && TrueMatch(text, xs, cur, n, ms[i])
  }

  /** Every report is a node of the tree with exactly the reported length in common with the current
      suffix, and each is longer and farther than the one before. */
  lemma {:induction false} MatchesAreTrue(text: seq<Byte>, t: Tree, cur: nat, n: nat, rounds: nat, best: nat)
    requires Falling(t, cur) && cur + n <= |text|
    ensures AllTrue(text, Nodes(t), cur, n, best, Matches(text, t, cur, n, rounds, best))
  {
    hide Lcp, Below, AllTrue;
    NoneAreTrue(text, Nodes(t), cur, n, best);
    if t.Node? && rounds > 0 {
      FallingWeakens(t.left, t.pos, cur);
      FallingWeakens(t.right, t.pos, cur);
      var len := Lcp(text, t.pos, cur, n);
      var next := if Below(text, t.pos, cur, n) then t.right else t.left;
      var best' := if len > best then len else best;
      if len != n { MatchesAreTrue(text, next, cur, n, rounds - 1, best'); }
      FallingBounds(next, t.pos);
      var rest := if len == n then [] else Matches(text, next, cur, n, rounds - 1, best');
      NoneAreTrue(text, Nodes(next), cur, n, best');
      MoreAreTrue(text, t.pos, Nodes(next), Nodes(t), cur, n, best, rest);
      assert Matches(text, t, cur, n, rounds, best)
          == (if len > best then [Match(len, cur - t.pos - 1)] else []) + rest;
    }
  }

  lemma NoneAreTrue(text: seq<Byte>, xs: set<nat>, cur: nat, n: nat, best: nat)
    requires cur + n <= |text|
    ensures AllTrue(text, xs, cur, n, best, [])
  {}

  lemma MoreAreTrue(text: seq<Byte>, x: nat, xs: set<nat>, ys: set<nat>, cur: nat, n: nat, best: nat, rest: seq<Match>)
    requires cur + n <= |text| && x < cur && x in ys && xs <= ys
    requires forall y | y in xs :: y < x
    requires AllTrue(text, xs, cur, n, if Lcp(text, x, cur, n) > best then Lcp(text, x, cur, n) else best, rest)
    ensures var len := Lcp(text, x, cur, n);
      AllTrue(text, ys, cur, n, best, (if len > best then [Match(len, cur - x - 1)] else []) + rest)
  {
    hide Lcp;
    var len := Lcp(text, x, cur, n);
    forall i | 0 <= i < |rest| ensures TrueMatch(text, ys, cur, n, rest[i]) && rest[i].dist > cur - x - 1 {
      assert TrueMatch(text, xs, cur, n, rest[i]);
    }
    if len > best {
      assert TrueMatch(text, ys, cur, n, Match(len, cur - x - 1));
    } else {
      assert [] + rest == rest;
    }
  }

  predicate Dominated(ms: seq<Match>, len: nat, dist: nat) {
    exists i :: 0 <= i < |ms| && ms[i].len >= len && ms[i].dist <= dist
  }

  /** The reports are Pareto optimal: unless the search is cut off, no node of the tree gives a match
      longer than `best` that is both longer and nearer than every report. */
  lemma {:induction false} MatchesDominate(text: seq<Byte>, t: Tree, cur: nat, n: nat, rounds: nat, best: nat, x: nat)
    requires Falling(t, cur) && cur + n <= |text| && Sorted(text, t, n)
    requires Reached(text, t, cur, n, rounds) && x in Nodes(t)
    ensures x < cur
    ensures Lcp(text, x, cur, n) > best ==>
      Dominated(Matches(text, t, cur, n, rounds, best), Lcp(text, x, cur, n), cur - x - 1)
  {
    hide Lcp, Below, AllUpTo, AllFrom, Dominated;
    FallingWeakens(t.left, t.pos, cur);
    FallingWeakens(t.right, t.pos, cur);
    FallingBounds(t.left, t.pos);
    FallingBounds(t.right, t.pos);
    var len := Lcp(text, t.pos, cur, n);
    var next := if Below(text, t.pos, cur, n) then t.right else t.left;
    if x == t.pos {
      NearestDominates(text, t, cur, n, rounds, best, x);
    } else if x !in Nodes(next) || len == n {
      OtherSideSharesLess(text, t, cur, n, x);
      NearestDominates(text, t, cur, n, rounds, best, x);
    } else {
      MatchesDominate(text, next, cur, n, rounds - 1, if len > best then len else best, x);
      DeeperDominates(text, t, cur, n, rounds, best, x);
    }
  }

  lemma NearestDominates(text: seq<Byte>, t: Tree, cur: nat, n: nat, rounds: nat, best: nat, x: nat)
    requires Falling(t, cur) && cur + n <= |text| && t.Node? && rounds > 0
    requires x <= t.pos && Lcp(text, x, cur, n) <= Lcp(text, t.pos, cur, n)
    ensures Lcp(text, x, cur, n) > best ==>
      Dominated(Matches(text, t, cur, n, rounds, best), Lcp(text, x, cur, n), cur - x - 1)
  {
    hide Lcp, Below;
    var len := Lcp(text, t.pos, cur, n);
    if len > best {
      FallingWeakens(t.left, t.pos, cur);
      FallingWeakens(t.right, t.pos, cur);
      var next := if Below(text, t.pos, cur, n) then t.right else t.left;
      var rest := if len == n then [] else Matches(text, next, cur, n, rounds - 1, len);
      HeadDominates(Match(len, cur - t.pos - 1), rest, Lcp(text, x, cur, n), cur - x - 1);
    }
  }

  lemma DeeperDominates(text: seq<Byte>, t: Tree, cur: nat, n: nat, rounds: nat, best: nat, x: nat)
    requires Falling(t, cur) && cur + n <= |text| && t.Node? && rounds > 0 && Lcp(text, t.pos, cur, n) != n
    requires Falling(t.left, cur) && Falling(t.right, cur) && x <= t.pos && x + n <= |text|
    requires var len := Lcp(text, t.pos, cur, n);
      var best' := if len > best then len else best;
      Lcp(text, x, cur, n) > best' ==>
        Dominated(Matches(text, if Below(text, t.pos, cur, n) then t.right else t.left, cur, n, rounds - 1, best'),
                  Lcp(text, x, cur, n), cur - x - 1)
    ensures Lcp(text, x, cur, n) > best ==>
      Dominated(Matches(text, t, cur, n, rounds, best), Lcp(text, x, cur, n), cur - x - 1)
  {
    hide Lcp, Below, Dominated;
    var len := Lcp(text, t.pos, cur, n);
    var best' := if len > best then len else best;
    var l := Lcp(text, x, cur, n);
    if l > best && l <= best' {
      NearestDominates(text, t, cur, n, rounds, best, x);
    } else if l > best {
      var next := if Below(text, t.pos, cur, n) then t.right else t.left;
      var rest := Matches(text, next, cur, n, rounds - 1, best');
      StillDominated(if len > best then [Match(len, cur - t.pos - 1)] else [], rest, l, cur - x - 1);
    }
  }

  lemma HeadDominates(m: Match, rest: seq<Match>, len: nat, dist: nat)
    requires m.len >= len && m.dist <= dist
    ensures Dominated([m] + rest, len, dist)
  {
    assert ([m] + rest)[0] == m;
  }

  lemma StillDominated(first: seq<Match>, rest: seq<Match>, len: nat, dist: nat)
    requires Dominated(rest, len, dist)
    ensures Dominated(first + rest, len, dist)
  {
    var i :| 0 <= i < |rest| && rest[i].len >= len && rest[i].dist <= dist;
    assert (first + rest)[|first| + i] == rest[i];
  }

  lemma OtherSideSharesLess(text: seq<Byte>, t: Tree, cur: nat, n: nat, x: nat)
    requires t.Node? && Falling(t, cur) && cur + n <= |text| && Sorted(text, t, n)
    requires x in Nodes(t) && x != t.pos
    requires x !in Nodes(if Below(text, t.pos, cur, n) then t.right else t.left) || Lcp(text, t.pos, cur, n) == n
    ensures x + n <= |text| && Lcp(text, x, cur, n) <= Lcp(text, t.pos, cur, n)
  {
    if Lcp(text, t.pos, cur, n) != n {
      Trichotomy(text, t.pos, cur, n);
      LcpSym(text, t.pos, cur, n);
      FartherSharesLess(text, x, t.pos, cur, n);
    }
  }

  /** A search over a tree of at most `rounds` nodes is never cut off. */
  lemma {:induction false} SmallTreesAreReached(text: seq<Byte>, t: Tree, cur: nat, n: nat, rounds: nat)
    requires Falling(t, cur) && cur + n <= |text| && |Nodes(t)| <= rounds
    ensures Reached(text, t, cur, n, rounds)
  {
    if t.Node? {
      FallingWeakens(t.left, t.pos, cur);
      FallingWeakens(t.right, t.pos, cur);
      FallingBounds(t.left, t.pos);
      FallingBounds(t.right, t.pos);
      var next := if Below(text, t.pos, cur, n) then t.right else t.left;
      Subset(Nodes(next), Nodes(t) - {t.pos});
      if Lcp(text, t.pos, cur, n) != n { SmallTreesAreReached(text, next, cur, n, rounds - 1); }
    }
  }

  lemma {:induction false} Subset(a: set<nat>, b: set<nat>)
    requires a <= b
    ensures |a| <= |b|
  {
    if a != {} {
      var x :| x in a;
      Subset(a - {x}, b - {x});
    }
  }

  // ----- the window and the history -----

  /** The tree without the suffixes up to `low`, which are at the bottom of their branches. */
  function Prune(t: Tree, low: int): Tree {
    if t.Leaf? || t.pos <= low then Leaf else Node(t.pos, Prune(t.left, low), Prune(t.right, low))
  }

  lemma {:induction false} PruneKeeps(text: seq<Byte>, t: Tree, n: nat, bound: nat, low: int)
    requires Falling(t, bound) && Sorted(text, t, n) && Apart(t)
    ensures var p := Prune(t, low); Falling(p, bound) && Sorted(text, p, n) && Apart(p)
    ensures forall x | x in Nodes(t) :: x in Nodes(Prune(t, low)) || x <= low
    ensures Nodes(Prune(t, low)) <= Nodes(t)
  {
    hide Below, NotAbove;
    if t.Node? {
      PruneKeeps(text, t.left, n, t.pos, low);
      PruneKeeps(text, t.right, n, t.pos, low);
      FallingBounds(t.left, t.pos);
      FallingBounds(t.right, t.pos);
    }
  }

  lemma {:induction false} SortedShrinks(text: seq<Byte>, t: Tree, n: nat, m: nat)
    requires Sorted(text, t, n) && m <= n
    ensures Sorted(text, t, m)
  {
    if t.Node? {
      SortedShrinks(text, t.left, n, m);
      SortedShrinks(text, t.right, n, m);
      hide NotAbove;
      forall x | x in Nodes(t.left) ensures x + m <= |text| && NotAbove(text, x, t.pos, m) {
        NotAboveShrinks(text, x, t.pos, n, m);
      }
      forall x | x in Nodes(t.right) ensures x + m <= |text| && NotAbove(text, t.pos, x, m) {
        NotAboveShrinks(text, t.pos, x, n, m);
      }
    }
  }

  /** A node of `t` at or after `x` has the same first `n` bytes as `x`, and so is as good a match. */
  predicate Covered(text: seq<Byte>, t: Tree, x: nat, n: nat) {
    exists y :: y in Nodes(t) && Replaces(text, y, x, n)
  }

  predicate Replaces(text: seq<Byte>, y: nat, x: nat, n: nat) {
    y >= x && Agree(text, x, y, n)
  }

  lemma CoveredShrinks(text: seq<Byte>, t: Tree, x: nat, n: nat, m: nat)
    requires Covered(text, t, x, n) && m <= n
    ensures Covered(text, t, x, m)
  {
    var y :| y in Nodes(t) && Replaces(text, y, x, n);
    AgreeShrink(text, x, y, n, m);
    assert Replaces(text, y, x, m);
  }

  lemma PruneCovers(text: seq<Byte>, t: Tree, x: nat, n: nat, bound: nat, low: int)
    requires Covered(text, t, x, n) && x > low && Falling(t, bound) && Sorted(text, t, n) && Apart(t)
    ensures Covered(text, Prune(t, low), x, n)
  {
    var y :| y in Nodes(t) && Replaces(text, y, x, n);
    PruneKeeps(text, t, n, bound, low);
    assert y in Nodes(Prune(t, low));
  }

  /** Unless the search is cut off, insertion keeps every suffix covered: the one it drops is replaced by
      the current one. */
  lemma InsertCovers(text: seq<Byte>, t: Tree, cur: nat, n: nat, rounds: nat, x: nat)
    requires Falling(t, cur) && cur + n <= |text| && Sorted(text, t, n) && Apart(t)
    requires Reached(text, t, cur, n, rounds)
    ensures Covered(text, t, x, n) ==> Covered(text, Insert(text, t, cur, n, rounds), x, n)
    ensures Covered(text, Insert(text, t, cur, n, rounds), cur, n)
  {
    var u := Insert(text, t, cur, n, rounds);
    InsertKeepsTree(text, t, cur, n, rounds);
    FallingBounds(t, cur);
    assert cur in Nodes(u) && Replaces(text, cur, cur, n);
    if Covered(text, t, x, n) {
      var y :| y in Nodes(t) && Replaces(text, y, x, n);
      if y !in Nodes(u) {
        LcpAgrees(text, y, cur, n);
        AgreeTransitive(text, x, y, cur, n);
        assert Replaces(text, cur, x, n);
      }
    }
  }

  /** The reports dominate every covered suffix, whether or not it is still in the tree. */
  lemma CoveredDominated(text: seq<Byte>, t: Tree, cur: nat, n: nat, rounds: nat, best: nat, x: nat)
    requires Falling(t, cur) && cur + n <= |text| && Sorted(text, t, n)
    requires Reached(text, t, cur, n, rounds) && Covered(text, t, x, n)
    ensures x < cur
    ensures Lcp(text, x, cur, n) > best ==>
      Dominated(Matches(text, t, cur, n, rounds, best), Lcp(text, x, cur, n), cur - x - 1)
  {
    var y :| y in Nodes(t) && Replaces(text, y, x, n);
    MatchesDominate(text, t, cur, n, rounds, best, y);
    LcpIs(text, x, y, n, n);
    LcpOfThree(text, x, y, cur, n);
    hide Lcp, Matches;
    var l := Lcp(text, y, cur, n);
    if l > best {
      var ms := Matches(text, t, cur, n, rounds, best);
      var i :| 0 <= i < |ms| && ms[i].len >= l && ms[i].dist <= cur - y - 1;
      assert ms[i].dist <= cur - x - 1;
    }
  }
}
