/** The `son` array of the binary-tree match finder: two references per slot of a cyclic buffer.
    `TreeAt` reads the search tree below a reference; `Descend` is the in-place insertion, and
    `DescendInserts` shows that what it leaves in the array is the inserted tree. */
module LzSon {
  import opened Arith
  import opened BitModel
  import opened LzTree

  /** Where the finder stands. References are positions counted from a start that normalisation moves:
      reference `m` names the byte `m + base` of the stream; 0 is the empty reference. */
  datatype Ring = Ring(pos: nat, cyc: nat, cbs: nat, base: int)

  predicate RingOk(r: Ring) {
    r.cyc < r.cbs && r.pos > 0 && r.base >= -1
  }

  /** References up to this one have left the window (or are empty). */
  function Low(r: Ring): nat { Minus(r.pos, r.cbs) }

  predicate InRing(r: Ring, m: nat) { Low(r) < m <= r.pos }

  function Cur(r: Ring): nat
    requires RingOk(r)
  {
    r.pos + r.base
  }

  /** The slot of one of the last `cbs` positions. */
  function Slot(r: Ring, m: nat): (s: nat)
    requires RingOk(r) && InRing(r, m)
    ensures s < r.cbs
  {
    r.cyc - (r.pos - m) + (if r.cyc < r.pos - m then r.cbs else 0)
  }

  lemma SlotsDiffer(r: Ring, a: nat, b: nat)
    requires RingOk(r) && InRing(r, a) && InRing(r, b)
    ensures Slot(r, a) == Slot(r, b) <==> a == b
  {}

  /** Link 0 leads to the suffixes before a node, link 1 to those after it. */
  type Side = b: nat | b < 2

  predicate Shape(r: Ring, son: seq<nat>) { RingOk(r) && |son| == 2 * r.cbs }

  function Link(r: Ring, son: seq<nat>, m: nat, b: Side): nat
    requires Shape(r, son) && InRing(r, m)
  {
    son[2 * Slot(r, m) + b]
  }

  ghost predicate LinksFall(r: Ring, son: seq<nat>, m: nat)
    requires Shape(r, son) && InRing(r, m)
  {
    Link(r, son, m, 0) < m && Link(r, son, m, 1) < m
  }

  /** Every reference of the window below `top` leads to older positions only. */
  ghost predicate Falls(r: Ring, son: seq<nat>, top: nat) {
    Shape(r, son) && top <= r.pos + 1 && forall m | Low(r) < m < top :: LinksFall(r, son, m)
  }

  /** The tree below reference `m`; references out of the window are empty. */
  ghost function TreeAt(r: Ring, son: seq<nat>, m: nat): (t: Tree)
    requires m <= r.pos && Falls(r, son, m + 1)
    decreases m
  {
    if m <= Low(r) then Leaf else
    assert LinksFall(r, son, m);
    Node(m + r.base, TreeAt(r, son, Link(r, son, m, 0)), TreeAt(r, son, Link(r, son, m, 1)))
  }

  lemma {:induction false} TreeAtFalls(r: Ring, son: seq<nat>, m: nat, bound: nat)
    requires m <= r.pos && Falls(r, son, m + 1) && m + r.base < bound
    ensures Falling(TreeAt(r, son, m), bound)
    ensures forall x | x in Nodes(TreeAt(r, son, m)) :: Low(r) + r.base < x <= m + r.base
    decreases m
  {
    if m > Low(r) {
      assert LinksFall(r, son, m);
      TreeAtFalls(r, son, Link(r, son, m, 0), m + r.base);
      TreeAtFalls(r, son, Link(r, son, m, 1), m + r.base);
    }
  }

  ghost predicate SamePair(r: Ring, a: seq<nat>, b: seq<nat>, m: nat)
    requires Shape(r, a) && Shape(r, b) && InRing(r, m)
  {
    Link(r, a, m, 0) == Link(r, b, m, 0) && Link(r, a, m, 1) == Link(r, b, m, 1)
  }

  ghost predicate SameNodes(r: Ring, a: seq<nat>, b: seq<nat>, t: Tree)
    requires Shape(r, a) && Shape(r, b)
  {
    forall x: nat | InRing(r, x) && x + r.base in Nodes(t) :: SamePair(r, a, b, x)
  }

  /** A tree depends on the links of its own nodes only. */
  lemma {:induction false} TreeAtFrame(r: Ring, a: seq<nat>, b: seq<nat>, m: nat)
    requires m <= r.pos && Falls(r, a, m + 1) && Falls(r, b, m + 1)
    requires SameNodes(r, a, b, TreeAt(r, a, m))
    ensures TreeAt(r, b, m) == TreeAt(r, a, m)
    decreases m
  {
    if m > Low(r) {
      assert LinksFall(r, a, m);
      assert SamePair(r, a, b, m);
      TreeAtFrame(r, a, b, Link(r, a, m, 0));
      TreeAtFrame(r, a, b, Link(r, a, m, 1));
    }
  }

  // ----- insertion in place -----

  /** The link that waits for the suffixes on side `b` of the current one: link `b` of the new node, or
      the far link of the last node found on that side. */
  ghost function Hole(r: Ring, y: nat, b: Side): (i: nat)
    requires RingOk(r) && InRing(r, y)
    ensures i < 2 * r.cbs
  {
    2 * Slot(r, y) + (if y == r.pos then b else 1 - b)
  }

  ghost predicate Ready(text: seq<Byte>, r: Ring, n: nat, son: seq<nat>, m: nat, y0: nat, y1: nat) {
    && Falls(r, son, r.pos)
    && Cur(r) + n <= |text|
    && Owners(r, m, y0, y1)
  }

  ghost predicate Owners(r: Ring, m: nat, y0: nat, y1: nat) {
    RingOk(r) && InRing(r, y0) && InRing(r, y1) && m < y0 && m < y1 && (y0 == y1 ==> y0 == r.pos)
  }

  /** The array after inserting the current position into the tree below `m`. Link `Hole(y0, 0)` waits
      for the smaller suffixes and `Hole(y1, 1)` for the larger ones. */
  ghost function Descend(text: seq<Byte>, r: Ring, n: nat, son: seq<nat>, m: nat, y0: nat, y1: nat,
                         rounds: nat): (s: seq<nat>)
    requires Ready(text, r, n, son, m, y0, y1)
    ensures |s| == |son|
    decreases m
  {
    if m <= Low(r) || rounds == 0 then son[Hole(r, y0, 0) := 0][Hole(r, y1, 1) := 0] else
    assert LinksFall(r, son, m);
    var left, right := Link(r, son, m, 0), Link(r, son, m, 1);
    if Lcp(text, m + r.base, Cur(r), n) == n then son[Hole(r, y0, 0) := left][Hole(r, y1, 1) := right]
    else if Below(text, m + r.base, Cur(r), n) then
      WriteFalls(r, son, y0, 0, m);
      Descend(text, r, n, son[Hole(r, y0, 0) := m], right, m, y1, rounds - 1)
    else
      WriteFalls(r, son, y1, 1, m);
      Descend(text, r, n, son[Hole(r, y1, 1) := m], left, y0, m, rounds - 1)
  }

  ghost predicate OthersSame(r: Ring, a: seq<nat>, b: seq<nat>, y: nat)
    requires Shape(r, a) && Shape(r, b)
  {
    forall x: nat | InRing(r, x) && x != y :: SamePair(r, a, b, x)
  }

  lemma WriteFalls(r: Ring, son: seq<nat>, y: nat, b: Side, v: nat)
    requires Falls(r, son, r.pos) && InRing(r, y) && v < y
    ensures Falls(r, son[Hole(r, y, b) := v], r.pos)
    ensures OthersSame(r, son, son[Hole(r, y, b) := v], y)
    ensures forall m: nat | m < y :: TreeAt(r, son[Hole(r, y, b) := v], m) == TreeAt(r, son, m)
  {
    var s := son[Hole(r, y, b) := v];
    forall x: nat | InRing(r, x) && x != y ensures SamePair(r, son, s, x) {
      SlotsDiffer(r, x, y);
    }
    forall m | Low(r) < m < r.pos ensures LinksFall(r, s, m) {
      assert LinksFall(r, son, m);
      if m != y { assert SamePair(r, son, s, m); }
    }
    hide Link;
    forall m: nat | m < y ensures TreeAt(r, s, m) == TreeAt(r, son, m) {
      TreeAtFalls(r, son, m, y + r.base);
      TreeAtFrame(r, son, s, m);
    }
  }

  ghost predicate InHole(r: Ring, x: nat, b: Side, y0: nat, y1: nat)
    requires RingOk(r) && InRing(r, x) && InRing(r, y0) && InRing(r, y1)
  {
    2 * Slot(r, x) + b == Hole(r, y0, 0) || 2 * Slot(r, x) + b == Hole(r, y1, 1)
  }

  /** Every link of `x` but the two holes is as before. */
  ghost predicate Kept(r: Ring, son: seq<nat>, s: seq<nat>, x: nat, y0: nat, y1: nat)
    requires Shape(r, son) && Shape(r, s) && InRing(r, x) && InRing(r, y0) && InRing(r, y1)
  {
    forall b: Side | b in {0, 1} :: InHole(r, x, b, y0, y1) || Link(r, s, x, b) == Link(r, son, x, b)
  }

  ghost predicate Outside(r: Ring, son: seq<nat>, xs: set<nat>, s: seq<nat>, y0: nat, y1: nat)
    requires Shape(r, son) && Shape(r, s) && InRing(r, y0) && InRing(r, y1)
  {
    forall x: nat | InRing(r, x) && x + r.base !in xs :: Kept(r, son, s, x, y0, y1)
  }

  /** The tree that hangs in a hole. */
  ghost predicate Hangs(r: Ring, s: seq<nat>, y: nat, b: Side, t: Tree)
    requires Falls(r, s, r.pos) && InRing(r, y)
  {
    s[Hole(r, y, b)] < y && TreeAt(r, s, s[Hole(r, y, b)]) == t
  }

  /** What `Descend` leaves behind: the two holes hold the two halves of the split tree, and no other
      link outside the tree has changed. */
  ghost predicate Holds(r: Ring, son: seq<nat>, t: Tree, s: seq<nat>, y0: nat, y1: nat, h: Halves)
    requires Falls(r, son, r.pos) && InRing(r, y0) && InRing(r, y1)
  {
    Falls(r, s, r.pos) && Hangs(r, s, y0, 0, h.small) && Hangs(r, s, y1, 1, h.large)
      && Outside(r, son, Nodes(t), s, y0, y1)
  }

  lemma HolesOf(r: Ring, x: nat, b: Side, y0: nat, y1: nat)
    requires RingOk(r) && InRing(r, x) && InRing(r, y0) && InRing(r, y1)
    ensures InHole(r, x, b, y0, y1) <==>
      (x == y0 && b == (if x == r.pos then 0 else 1)) || (x == y1 && b == (if x == r.pos then 1 else 0))
  {
    SlotsDiffer(r, x, y0);
    SlotsDiffer(r, x, y1);
  }

  lemma HoleLink(r: Ring, s: seq<nat>, y: nat, b: Side)
    requires Shape(r, s) && InRing(r, y)
    ensures s[Hole(r, y, b)] == Link(r, s, y, if y == r.pos then b else 1 - b)
  {}

  ghost function Hung(r: Ring, son: seq<nat>, m: nat, y0: nat, y1: nat, b: Side): (s: seq<nat>)
    requires Shape(r, son) && InRing(r, y0) && InRing(r, y1)
    ensures Shape(r, s)
  {
    if b == 0 then son[Hole(r, y0, 0) := m] else son[Hole(r, y1, 1) := m]
  }

  /** Node `m` has been hung on side `b`, and the search below its other link has ended in `s`. */
  ghost predicate Stepped(r: Ring, son: seq<nat>, m: nat, y0: nat, y1: nat, b: Side, s: seq<nat>, h: Halves) {
    && Falls(r, son, r.pos)
    && Owners(r, m, y0, y1)
    && InRing(r, m)
    && LinksFall(r, son, m)
    && Apart(TreeAt(r, son, m))
    && Shape(r, s)
    && Falls(r, Hung(r, son, m, y0, y1, b), r.pos)
    && Holds(r, Hung(r, son, m, y0, y1, b), TreeAt(r, son, Link(r, son, m, 1 - b)), s,
             if b == 0 then m else y0, if b == 0 then y1 else m, h)
  }

  lemma HungLinks(r: Ring, son: seq<nat>, m: nat, y0: nat, y1: nat, b: Side, x: nat, c: Side)
    requires Shape(r, son) && InRing(r, y0) && InRing(r, y1) && InRing(r, x)
    ensures var y := if b == 0 then y0 else y1;
      Link(r, Hung(r, son, m, y0, y1, b), x, c)
        == if x == y && c == (if x == r.pos then b else 1 - b) then m else Link(r, son, x, c)
  {
    SlotsDiffer(r, x, y0);
    SlotsDiffer(r, x, y1);
  }

  lemma SteppedLinks(r: Ring, son: seq<nat>, m: nat, y0: nat, y1: nat, b: Side, s: seq<nat>, h: Halves)
    requires Stepped(r, son, m, y0, y1, b, s, h)
    ensures s[if b == 0 then Hole(r, y0, 0) else Hole(r, y1, 1)] == m
    ensures Link(r, s, m, b) == Link(r, son, m, b)
    ensures Link(r, s, m, 1 - b) < m
  {
    var y := if b == 0 then y0 else y1;
    var c: Side := if y == r.pos then b else 1 - b;
    var s1 := Hung(r, son, m, y0, y1, b);
    TreeAtFalls(r, son, Link(r, son, m, 1 - b), m + r.base);
    hide Hole, Slot, Hung, Link, TreeAt;
    HungLinks(r, son, m, y0, y1, b, y, c);
    HungLinks(r, son, m, y0, y1, b, m, b);
    HolesOf(r, y, c, if b == 0 then m else y0, if b == 0 then y1 else m);
    HolesOf(r, m, b, if b == 0 then m else y0, if b == 0 then y1 else m);
    HoleLink(r, s, y, b);
    HoleLink(r, s, m, b);
    assert Kept(r, s1, s, y, if b == 0 then m else y0, if b == 0 then y1 else m);
    assert Kept(r, s1, s, m, if b == 0 then m else y0, if b == 0 then y1 else m);
  }

  /** A node that is not in the way of a hole keeps its links. */
  lemma KeptThrough(r: Ring, son: seq<nat>, m: nat, y0: nat, y1: nat, b: Side, s: seq<nat>, x: nat)
    requires Shape(r, son) && Shape(r, s) && InRing(r, x) && InRing(r, m) && InRing(r, y0) && InRing(r, y1) && x != m
    requires Kept(r, Hung(r, son, m, y0, y1, b), s, x, if b == 0 then m else y0, if b == 0 then y1 else m)
    ensures Kept(r, son, s, x, y0, y1)
  {
    hide Hole, Slot, Hung, Link;
    forall c: Side ensures InHole(r, x, c, y0, y1) || Link(r, s, x, c) == Link(r, son, x, c) {
      HungLinks(r, son, m, y0, y1, b, x, c);
      HolesOf(r, x, c, y0, y1);
      HolesOf(r, x, c, if b == 0 then m else y0, if b == 0 then y1 else m);
    }
  }

  lemma InnerNodes(r: Ring, son: seq<nat>, m: nat, b: Side)
    requires m <= r.pos && Falls(r, son, m + 1) && InRing(r, m) && LinksFall(r, son, m)
    ensures {m + r.base} + Nodes(TreeAt(r, son, Link(r, son, m, b))) <= Nodes(TreeAt(r, son, m))
    ensures forall x | x in Nodes(TreeAt(r, son, Link(r, son, m, b))) :: x < m + r.base
    ensures Apart(TreeAt(r, son, m)) ==>
      Nodes(TreeAt(r, son, Link(r, son, m, b))) !! Nodes(TreeAt(r, son, Link(r, son, m, 1 - b)))
  {
    TreeAtFalls(r, son, Link(r, son, m, b), m + r.base);
    hide Link;
    var t := TreeAt(r, son, m);
    assert t == Node(m + r.base, TreeAt(r, son, Link(r, son, m, 0)), TreeAt(r, son, Link(r, son, m, 1)));
    hide TreeAt;
    if b == 0 {} else {}
  }

  lemma SteppedFrame(r: Ring, son: seq<nat>, m: nat, y0: nat, y1: nat, b: Side, s: seq<nat>, h: Halves)
    requires Stepped(r, son, m, y0, y1, b, s, h)
    ensures TreeAt(r, s, Link(r, son, m, b)) == TreeAt(r, son, Link(r, son, m, b))
  {
    hide Hole, Slot, Link, Hung, Kept, TreeAt, Nodes, Apart;
    var kept := Link(r, son, m, b);
    InnerNodes(r, son, m, b);
    assert Falls(r, s, r.pos);
    FrameThrough(r, son, Nodes(TreeAt(r, son, Link(r, son, m, 1 - b))), TreeAt(r, son, kept), m, y0, y1, b, s);
    LinksOlder(r, son, m);
    TreeAtFrame(r, son, s, kept);
  }

  /** The nodes of a subtree apart from the one searched keep both links. */
  lemma FrameThrough(r: Ring, son: seq<nat>, xs: set<nat>, t: Tree, m: nat, y0: nat, y1: nat, b: Side, s: seq<nat>)
    requires Shape(r, son) && Shape(r, s) && InRing(r, m) && InRing(r, y0) && InRing(r, y1) && m < y0 && m < y1
    requires Outside(r, Hung(r, son, m, y0, y1, b), xs, s, if b == 0 then m else y0, if b == 0 then y1 else m)
    requires Nodes(t) !! xs && forall x | x in Nodes(t) :: x < m + r.base
    ensures SameNodes(r, son, s, t)
  {
    hide Kept, Hung, Slot, Hole, Link;
    forall x: nat | InRing(r, x) && x + r.base in Nodes(t) ensures SamePair(r, son, s, x) {
      KeptThrough(r, son, m, y0, y1, b, s, x);
      HolesOf(r, x, 0, y0, y1);
      HolesOf(r, x, 1, y0, y1);
      KeptSame(r, son, s, x, y0, y1);
    }
  }

  lemma KeptSame(r: Ring, son: seq<nat>, s: seq<nat>, x: nat, y0: nat, y1: nat)
    requires Shape(r, son) && Shape(r, s) && InRing(r, x) && InRing(r, y0) && InRing(r, y1)
    requires Kept(r, son, s, x, y0, y1) && !InHole(r, x, 0, y0, y1) && !InHole(r, x, 1, y0, y1)
    ensures SamePair(r, son, s, x)
  {}

  /** The split of the tree at `m` from the split `h` of its subtree on the far side from `b`. */
  ghost function Grown(r: Ring, son: seq<nat>, m: nat, b: Side, h: Halves): Halves
    requires Falls(r, son, m + 1) && InRing(r, m) && LinksFall(r, son, m)
  {
    if b == 0 then Halves(Node(m + r.base, TreeAt(r, son, Link(r, son, m, 0)), h.small), h.large)
    else Halves(h.small, Node(m + r.base, h.large, TreeAt(r, son, Link(r, son, m, 1))))
  }

  lemma SteppedHangs(r: Ring, son: seq<nat>, m: nat, y0: nat, y1: nat, b: Side, s: seq<nat>, h: Halves)
    requires Stepped(r, son, m, y0, y1, b, s, h)
    ensures Falls(r, s, r.pos)
    ensures Hangs(r, s, y0, 0, Grown(r, son, m, b, h).small) && Hangs(r, s, y1, 1, Grown(r, son, m, b, h).large)
  {
    hide Slot, Link, Hung, Apart, Outside;
    SteppedLinks(r, son, m, y0, y1, b, s, h);
    SteppedFrame(r, son, m, y0, y1, b, s, h);
    HoleLink(r, s, m, 0);
    HoleLink(r, s, m, 1);
    hide Hole;
    assert LinksFall(r, s, m);
  }

  lemma SteppedHolds(r: Ring, son: seq<nat>, m: nat, y0: nat, y1: nat, b: Side, s: seq<nat>, h: Halves)
    requires Stepped(r, son, m, y0, y1, b, s, h)
    ensures Holds(r, son, TreeAt(r, son, m), s, y0, y1, Grown(r, son, m, b, h))
  {
    SteppedHangs(r, son, m, y0, y1, b, s, h);
    hide Slot, Link, Hole, Hung, Apart, Hangs, Grown, Holds;
    SteppedOutside(r, son, m, y0, y1, b, s, h);
    HoldsFrom(r, son, TreeAt(r, son, m), s, y0, y1, Grown(r, son, m, b, h));
  }

  lemma SteppedOutside(r: Ring, son: seq<nat>, m: nat, y0: nat, y1: nat, b: Side, s: seq<nat>, h: Halves)
    requires Stepped(r, son, m, y0, y1, b, s, h)
    ensures Outside(r, son, Nodes(TreeAt(r, son, m)), s, y0, y1)
  {
    hide Hole, Slot, Link, Hung, Kept, TreeAt, Nodes, Apart;
    InnerNodes(r, son, m, 1 - b);
    OutsideThrough(r, son, Nodes(TreeAt(r, son, Link(r, son, m, 1 - b))), Nodes(TreeAt(r, son, m)), m, y0, y1, b, s);
  }

  lemma OutsideThrough(r: Ring, son: seq<nat>, xs: set<nat>, ys: set<nat>, m: nat, y0: nat, y1: nat, b: Side,
                       s: seq<nat>)
    requires Shape(r, son) && Shape(r, s) && InRing(r, m) && InRing(r, y0) && InRing(r, y1)
    requires Outside(r, Hung(r, son, m, y0, y1, b), xs, s, if b == 0 then m else y0, if b == 0 then y1 else m)
    requires {m + r.base} + xs <= ys
    ensures Outside(r, son, ys, s, y0, y1)
  {
    hide Kept, Hung;
    forall x: nat | InRing(r, x) && x + r.base !in ys ensures Kept(r, son, s, x, y0, y1) {
      assert x + r.base !in xs;
      KeptThrough(r, son, m, y0, y1, b, s, x);
    }
  }

  lemma HoldsFrom(r: Ring, son: seq<nat>, t: Tree, s: seq<nat>, y0: nat, y1: nat, h: Halves)
    requires Falls(r, son, r.pos) && InRing(r, y0) && InRing(r, y1)
    requires Falls(r, s, r.pos) && Hangs(r, s, y0, 0, h.small) && Hangs(r, s, y1, 1, h.large)
    requires Outside(r, son, Nodes(t), s, y0, y1)
    ensures Holds(r, son, t, s, y0, y1, h)
  {}

  /** Filling both holes at once, with trees below older references. */
  lemma EndHolds(r: Ring, son: seq<nat>, t: Tree, v0: nat, v1: nat, y0: nat, y1: nat)
    requires Falls(r, son, r.pos) && Owners(r, v0, y0, y1) && Owners(r, v1, y0, y1)
    ensures Holds(r, son, t, son[Hole(r, y0, 0) := v0][Hole(r, y1, 1) := v1], y0, y1,
                  Halves(TreeAt(r, son, v0), TreeAt(r, son, v1)))
  {
    var s1 := son[Hole(r, y0, 0) := v0];
    var s := s1[Hole(r, y1, 1) := v1];
    SlotsDiffer(r, y0, y1);
    assert s[Hole(r, y0, 0)] == v0 && s[Hole(r, y1, 1)] == v1;
    hide Slot, Link, Hole;
    WriteFalls(r, son, y0, 0, v0);
    WriteFalls(r, s1, y1, 1, v1);
    EndOutside(r, son, Nodes(t), v0, v1, y0, y1);
  }

  lemma EndOutside(r: Ring, son: seq<nat>, xs: set<nat>, v0: nat, v1: nat, y0: nat, y1: nat)
    requires Shape(r, son) && Owners(r, v0, y0, y1) && Owners(r, v1, y0, y1)
    ensures Outside(r, son, xs, son[Hole(r, y0, 0) := v0][Hole(r, y1, 1) := v1], y0, y1)
  {
    var s := son[Hole(r, y0, 0) := v0][Hole(r, y1, 1) := v1];
    forall x: nat | InRing(r, x) ensures Kept(r, son, s, x, y0, y1) {
      hide Slot;
      SlotsDiffer(r, x, y0);
      SlotsDiffer(r, x, y1);
    }
  }

  lemma HungReady(text: seq<Byte>, r: Ring, n: nat, son: seq<nat>, m: nat, y0: nat, y1: nat, b: Side)
    requires Ready(text, r, n, son, m, y0, y1) && InRing(r, m)
    ensures LinksFall(r, son, m)
    ensures Ready(text, r, n, Hung(r, son, m, y0, y1, b), Link(r, son, m, 1 - b),
                  if b == 0 then m else y0, if b == 0 then y1 else m)
    ensures TreeAt(r, Hung(r, son, m, y0, y1, b), Link(r, son, m, 1 - b)) == TreeAt(r, son, Link(r, son, m, 1 - b))
  {
    assert LinksFall(r, son, m);
    WriteFalls(r, son, if b == 0 then y0 else y1, b, m);
  }

  lemma {:induction false} DescendHolds(text: seq<Byte>, r: Ring, n: nat, son: seq<nat>, m: nat, y0: nat, y1: nat,
                                        rounds: nat)
    requires Ready(text, r, n, son, m, y0, y1) && Apart(TreeAt(r, son, m))
    ensures Falling(TreeAt(r, son, m), Cur(r))
    ensures Holds(r, son, TreeAt(r, son, m), Descend(text, r, n, son, m, y0, y1, rounds), y0, y1,
                  Split(text, TreeAt(r, son, m), Cur(r), n, rounds))
    decreases m
  {
    hide Lcp, Below, Slot, Hole, Link, Holds, LinksFall;
    TreeAtFalls(r, son, m, Cur(r));
    if m <= Low(r) || rounds == 0 {
      EndHolds(r, son, TreeAt(r, son, m), 0, 0, y0, y1);
    } else {
      HungReady(text, r, n, son, m, y0, y1, 0);
      LinksOlder(r, son, m);
      if Lcp(text, m + r.base, Cur(r), n) == n {
        EndHolds(r, son, TreeAt(r, son, m), Link(r, son, m, 0), Link(r, son, m, 1), y0, y1);
      } else {
        var b: Side := if Below(text, m + r.base, Cur(r), n) then 0 else 1;
        HungReady(text, r, n, son, m, y0, y1, b);
        DescendHolds(text, r, n, Hung(r, son, m, y0, y1, b), Link(r, son, m, 1 - b),
                     if b == 0 then m else y0, if b == 0 then y1 else m, rounds - 1);
        StepHolds(text, r, n, son, m, y0, y1, b, rounds);
      }
    }
  }

  lemma LinksOlder(r: Ring, son: seq<nat>, m: nat)
    requires Shape(r, son) && InRing(r, m) && LinksFall(r, son, m)
    ensures Link(r, son, m, 0) < m && Link(r, son, m, 1) < m
  {}

  lemma StepHolds(text: seq<Byte>, r: Ring, n: nat, son: seq<nat>, m: nat, y0: nat, y1: nat, b: Side, rounds: nat)
    requires Ready(text, r, n, son, m, y0, y1) && InRing(r, m) && Apart(TreeAt(r, son, m)) && rounds > 0
    requires Falling(TreeAt(r, son, m), Cur(r)) && Lcp(text, m + r.base, Cur(r), n) != n
    requires b == (if Below(text, m + r.base, Cur(r), n) then 0 else 1)
    requires var s1 := Hung(r, son, m, y0, y1, b);
      var next := Link(r, son, m, 1 - b);
      var z0, z1 := if b == 0 then m else y0, if b == 0 then y1 else m;
      Ready(text, r, n, s1, next, z0, z1) && Falling(TreeAt(r, s1, next), Cur(r))
      && Holds(r, s1, TreeAt(r, s1, next), Descend(text, r, n, s1, next, z0, z1, rounds - 1), z0, z1,
               Split(text, TreeAt(r, s1, next), Cur(r), n, rounds - 1))
    ensures Holds(r, son, TreeAt(r, son, m), Descend(text, r, n, son, m, y0, y1, rounds), y0, y1,
                  Split(text, TreeAt(r, son, m), Cur(r), n, rounds))
  {
    hide Lcp, Below, Slot, Hole, Holds;
    HungReady(text, r, n, son, m, y0, y1, b);
    var s1 := Hung(r, son, m, y0, y1, b);
    var next := Link(r, son, m, 1 - b);
    var z0, z1 := if b == 0 then m else y0, if b == 0 then y1 else m;
    var s := Descend(text, r, n, s1, next, z0, z1, rounds - 1);
    var h := Split(text, TreeAt(r, s1, next), Cur(r), n, rounds - 1);
    assert s == Descend(text, r, n, son, m, y0, y1, rounds);
    assert Grown(r, son, m, b, h) == Split(text, TreeAt(r, son, m), Cur(r), n, rounds);
    SteppedHolds(r, son, m, y0, y1, b, s, h);
  }

  /** Inserting in place builds the inserted tree at the current position, and leaves every tree without
      common nodes alone. */
  lemma DescendInserts(text: seq<Byte>, r: Ring, n: nat, son: seq<nat>, m: nat, rounds: nat)
    requires Ready(text, r, n, son, m, r.pos, r.pos) && Apart(TreeAt(r, son, m))
    ensures Falling(TreeAt(r, son, m), Cur(r))
    ensures var s := Descend(text, r, n, son, m, r.pos, r.pos, rounds);
      && Falls(r, s, r.pos + 1)
      && TreeAt(r, s, r.pos) == Insert(text, TreeAt(r, son, m), Cur(r), n, rounds)
      && OthersKept(r, son, s, m)
  {
    DescendHolds(text, r, n, son, m, r.pos, r.pos, rounds);
    var s := Descend(text, r, n, son, m, r.pos, r.pos, rounds);
    var h := Split(text, TreeAt(r, son, m), Cur(r), n, rounds);
    OutsideKeepsOthers(r, son, s, m);
    RootOf(r, s, h);
  }

  lemma RootOf(r: Ring, s: seq<nat>, h: Halves)
    requires Falls(r, s, r.pos) && Hangs(r, s, r.pos, 0, h.small) && Hangs(r, s, r.pos, 1, h.large)
    ensures Falls(r, s, r.pos + 1) && TreeAt(r, s, r.pos) == Node(Cur(r), h.small, h.large)
  {
    HoleLink(r, s, r.pos, 0);
    HoleLink(r, s, r.pos, 1);
    hide Slot, Hole, Link;
    assert LinksFall(r, s, r.pos);
  }

  lemma OutsideKeepsOthers(r: Ring, son: seq<nat>, s: seq<nat>, m: nat)
    requires Falls(r, son, r.pos) && Falls(r, s, r.pos) && m < r.pos
    requires Outside(r, son, Nodes(TreeAt(r, son, m)), s, r.pos, r.pos)
    ensures OthersKept(r, son, s, m)
  {
    forall k: nat | k < r.pos && Nodes(TreeAt(r, son, k)) !! Nodes(TreeAt(r, son, m))
      ensures TreeAt(r, s, k) == TreeAt(r, son, k)
    {
      DisjointKept(r, son, s, Nodes(TreeAt(r, son, m)), k);
    }
  }

  ghost predicate OthersKept(r: Ring, son: seq<nat>, s: seq<nat>, m: nat)
    requires Falls(r, son, r.pos) && Falls(r, s, r.pos) && m < r.pos
  {
    forall k: nat | k < r.pos && Nodes(TreeAt(r, son, k)) !! Nodes(TreeAt(r, son, m)) ::
      TreeAt(r, s, k) == TreeAt(r, son, k)
  }

  lemma DisjointKept(r: Ring, son: seq<nat>, s: seq<nat>, xs: set<nat>, k: nat)
    requires Falls(r, son, r.pos) && Falls(r, s, r.pos) && k < r.pos && Outside(r, son, xs, s, r.pos, r.pos)
    requires Nodes(TreeAt(r, son, k)) !! xs
    ensures TreeAt(r, s, k) == TreeAt(r, son, k)
  {
    TreeAtFalls(r, son, k, Cur(r));
    forall x: nat | InRing(r, x) && x + r.base in Nodes(TreeAt(r, son, k)) ensures SamePair(r, son, s, x) {
      hide Slot, Hole, TreeAt;
      assert Kept(r, son, s, x, r.pos, r.pos);
      HolesOf(r, x, 0, r.pos, r.pos);
      HolesOf(r, x, 1, r.pos, r.pos);
    }
    TreeAtFrame(r, son, s, k);
  }

  // ----- the window moves on -----

  function Next(r: Ring): Ring {
    Ring(r.pos + 1, if r.cyc + 1 == r.cbs then 0 else r.cyc + 1, r.cbs, r.base)
  }

  lemma NextSlot(r: Ring, m: nat)
    requires RingOk(r) && InRing(Next(r), m) && m <= r.pos
    ensures InRing(r, m) && Slot(Next(r), m) == Slot(r, m)
  {}

  /** A step of the window cuts from every tree the suffixes that leave the window. */
  lemma {:induction false} NextPrunes(r: Ring, son: seq<nat>, m: nat)
    requires m <= r.pos && Falls(r, son, m + 1)
    ensures Falls(Next(r), son, m + 1)
    ensures TreeAt(Next(r), son, m) == Prune(TreeAt(r, son, m), Low(Next(r)) + r.base)
    decreases m
  {
    hide Slot;
    forall x | Low(Next(r)) < x < m + 1 ensures LinksFall(Next(r), son, x) {
      NextSlot(r, x);
      assert LinksFall(r, son, x);
    }
    if m > Low(Next(r)) {
      assert LinksFall(r, son, m);
      NextSlot(r, m);
      NextPrunes(r, son, Link(r, son, m, 0));
      NextPrunes(r, son, Link(r, son, m, 1));
    }
  }

  // ----- normalisation -----

  function Saturate(v: nat, sub: nat): nat { if v < sub then 0 else v - sub }

  function Rebased(r: Ring, sub: nat): Ring
    requires sub <= r.pos
  {
    Ring(r.pos - sub, r.cyc, r.cbs, r.base + sub)
  }

  ghost predicate Saturated(a: seq<nat>, b: seq<nat>, sub: nat) {
    |a| == |b| && forall i | 0 <= i < |a| :: b[i] == Saturate(a[i], sub)
  }

  lemma NormalLinks(r: Ring, a: seq<nat>, b: seq<nat>, sub: nat, m: nat)
    requires Shape(r, a) && InRing(r, m) && sub <= Low(r) && Saturated(a, b, sub)
    ensures Shape(Rebased(r, sub), b) && InRing(Rebased(r, sub), m - sub)
    ensures Link(Rebased(r, sub), b, m - sub, 0) == Saturate(Link(r, a, m, 0), sub)
    ensures Link(Rebased(r, sub), b, m - sub, 1) == Saturate(Link(r, a, m, 1), sub)
  {}

  /** Normalisation is unobservable: after subtracting `sub` from the position and, saturating, from every
      reference, the references name the same trees of the stream. It takes `sub` no larger than `Low`,
      so that every reference cut to 0 had left the window. */
  lemma {:induction false} NormalizeKeepsTrees(r: Ring, a: seq<nat>, b: seq<nat>, sub: nat, m: nat)
    requires m <= r.pos && Falls(r, a, m + 1) && sub <= Low(r) && Saturated(a, b, sub)
    ensures RingOk(Rebased(r, sub)) && Cur(Rebased(r, sub)) == Cur(r)
    ensures Falls(Rebased(r, sub), b, Saturate(m, sub) + 1)
    ensures TreeAt(Rebased(r, sub), b, Saturate(m, sub)) == TreeAt(r, a, m)
    decreases m
  {
    var q := Rebased(r, sub);
    assert Low(q) == Low(r) - sub;
    forall x | Low(q) < x < Saturate(m, sub) + 1 ensures LinksFall(q, b, x) {
      assert LinksFall(r, a, x + sub);
      NormalLinks(r, a, b, sub, x + sub);
    }
    hide Slot, Link;
    if m > Low(r) {
      assert LinksFall(r, a, m);
      NormalLinks(r, a, b, sub, m);
      NormalizeKeepsTrees(r, a, b, sub, Link(r, a, m, 0));
      NormalizeKeepsTrees(r, a, b, sub, Link(r, a, m, 1));
    }
  }

  /** With the code's own `sub`, exactly the references that left the window become empty. */
  lemma NormalizeEmptiesTheOld(r: Ring, m: nat)
    requires RingOk(r) && m <= r.pos
    ensures Saturate(m, Low(r)) == 0 <==> m <= Low(r)
    ensures Low(Rebased(r, Low(r))) == 0
  {}
}
