/** Sorting by doubling: what the groups of rotations are at any time, and what refining one group keeps. */
module BwtGroups {
  import opened BitModel
  import opened Lists
  import opened BwtOrder

  ghost predicate Perm(perm: seq<nat>, n: nat) { |perm| == n && Distinct(perm) && Inside(perm, n) }

  /** The rotations in the order of their places, and the group number of each rotation. */
  ghost predicate Sized(n: nat, perm: seq<nat>, grp: seq<nat>) {
    Perm(perm, n) && |grp| == n && Inside(grp, n)
  }

  /** The group number at each place. */
  ghost function Starts(n: nat, perm: seq<nat>, grp: seq<nat>): (f: seq<nat>)
    requires Sized(n, perm, grp)
    ensures |f| == n && forall p | 0 <= p < n :: f[p] == grp[perm[p]]
  {
    seq(n, p requires 0 <= p < n => grp[perm[p]])
  }

  /** Every group lies together, and is numbered by its first place. */
  ghost predicate Blocks(f: seq<nat>) {
    forall p | 0 <= p < |f| :: f[p] <= p && forall r | f[p] <= r <= p :: f[r] == f[p]
  }

  /** The groups are in the order of the rotations. */
  ghost predicate Ranked(d: seq<Byte>, grp: seq<nat>)
    requires |grp| == |d|
  {
    forall x, y | 0 <= x < |d| && 0 <= y < |d| && grp[x] < grp[y] :: Less(d, x, y, |d|)
  }

  /** Rotations of one group agree on `h` bytes. */
  ghost predicate Deep(d: seq<Byte>, g: seq<nat>, h: nat)
    requires |g| == |d|
  {
    forall x, y | 0 <= x < |d| && 0 <= y < |d| && g[x] == g[y] :: Same(d, x, y, h)
  }

  /** The groups have come from those of `g0` by splitting. */
  ghost predicate Finer(f: seq<nat>, g0: seq<nat>, grp: seq<nat>) {
    && |f| == |g0| == |grp| && Inside(g0, |g0|)
    && (forall x | 0 <= x < |grp| :: g0[x] <= grp[x] && f[g0[x]] == g0[x])
    && (forall x, y | 0 <= x < |grp| && 0 <= y < |grp| && g0[x] < g0[y] :: grp[x] < g0[y])
  }

  /** In the pass that started with the groups `g0`, which had been sorted by `h` bytes. */
  ghost predicate State(d: seq<Byte>, h: nat, g0: seq<nat>, perm: seq<nat>, grp: seq<nat>) {
    && Sized(|d|, perm, grp)
    && var f := Starts(|d|, perm, grp);
       Blocks(f) && Ranked(d, grp) && Finer(f, g0, grp) && Deep(d, g0, h)
  }

  /** The places from `s` to `e` are one group. */
  ghost predicate Segment(f: seq<nat>, s: nat, e: nat) {
    s < e <= |f| && (forall p | s <= p < e :: f[p] == s) && (e < |f| ==> f[e] == e)
  }

  lemma HasPlace(perm: seq<nat>, n: nat, x: nat) returns (p: nat)
    requires Perm(perm, n) && x < n
    ensures p < n && perm[p] == x
  {
    AllListed(perm, n, x);
    p :| 0 <= p < n && perm[p] == x;
  }

  // ----- refining one group -----

  /** The group at `s` is put into a new order and split, by the groups that its rotations have `h` bytes on. */
  ghost predicate Refines(n: nat, h: nat, perm: seq<nat>, grp: seq<nat>, s: nat, e: nat, perm': seq<nat>,
                          grp': seq<nat>)
  {
    && Sized(n, perm, grp) && Sized(n, perm', grp') && h <= n
    && var f, f' := Starts(n, perm, grp), Starts(n, perm', grp');
    && Segment(f, s, e)
    && (forall p | 0 <= p < s || e <= p < n :: perm'[p] == perm[p])
    && (forall p | s <= p < e :: grp[perm'[p]] == s)
    && (forall x | 0 <= x < n && grp[x] != s :: grp'[x] == grp[x])
    && (forall p | s <= p < e :: s <= f'[p] <= p && forall r | f'[p] <= r <= p :: f'[r] == f'[p])
    && (forall p, q | s <= p < e && s <= q < e && f'[p] < f'[q] ::
          grp[Skip(n, perm'[p], h)] < grp[Skip(n, perm'[q], h)])
  }

  /** No group starts inside another one. */
  lemma NotBetween(n: nat, perm: seq<nat>, grp: seq<nat>, s: nat, e: nat, x: nat)
    requires Sized(n, perm, grp) && Blocks(Starts(n, perm, grp)) && Segment(Starts(n, perm, grp), s, e) && x < n
    ensures grp[x] <= s || e <= grp[x]
  {
    var p := HasPlace(perm, n, x);
    var f := Starts(n, perm, grp);
    assert f[p] == grp[x] && f[f[p]] == f[p];
  }

  /** The places outside the segment belong to other groups, on their own side of it. */
  lemma OtherPlaces(f: seq<nat>, s: nat, e: nat, p: nat)
    requires Blocks(f) && Segment(f, s, e) && p < |f|
    ensures p < s ==> f[p] < s
    ensures e <= p ==> e <= f[p] <= p
  {}

  /** The members of the group have their places in the new segment. */
  lemma Member(n: nat, h: nat, perm: seq<nat>, grp: seq<nat>, s: nat, e: nat, perm': seq<nat>, grp': seq<nat>, x: nat)
    returns (p: nat)
    requires Refines(n, h, perm, grp, s, e, perm', grp') && Blocks(Starts(n, perm, grp)) && x < n && grp[x] == s
    ensures s <= p < e && perm'[p] == x && grp'[x] == Starts(n, perm', grp')[p] && s <= grp'[x] < e
  {
    p := HasPlace(perm', n, x);
    OtherPlaces(Starts(n, perm, grp), s, e, p);
  }

  lemma RefinedBlocks(n: nat, h: nat, perm: seq<nat>, grp: seq<nat>, s: nat, e: nat, perm': seq<nat>, grp': seq<nat>)
    requires Refines(n, h, perm, grp, s, e, perm', grp') && Blocks(Starts(n, perm, grp))
    ensures Blocks(Starts(n, perm', grp'))
    ensures forall p | 0 <= p < s || e <= p < n :: Starts(n, perm', grp')[p] == Starts(n, perm, grp)[p]
    ensures Starts(n, perm', grp')[s] == s
  {
    var f, f' := Starts(n, perm, grp), Starts(n, perm', grp');
    forall p | 0 <= p < s || e <= p < n ensures f'[p] == f[p] { OtherPlaces(f, s, e, p); }
    forall p | 0 <= p < n ensures f'[p] <= p && forall r | f'[p] <= r <= p :: f'[r] == f'[p] {
      if p < s || e <= p { OtherPlaces(f, s, e, p); }
    }
  }

  lemma RefinedRanked(d: seq<Byte>, h: nat, g0: seq<nat>, perm: seq<nat>, grp: seq<nat>, s: nat, e: nat,
                      perm': seq<nat>, grp': seq<nat>)
    requires State(d, h, g0, perm, grp) && Refines(|d|, h, perm, grp, s, e, perm', grp')
    ensures Ranked(d, grp')
  {
    hide Less, Same;
    forall x, y | 0 <= x < |d| && 0 <= y < |d| && grp'[x] < grp'[y] ensures Less(d, x, y, |d|) {
      NotBetween(|d|, perm, grp, s, e, x);
      NotBetween(|d|, perm, grp, s, e, y);
      if grp[x] == s {
        var p := Member(|d|, h, perm, grp, s, e, perm', grp', x);
        if grp[y] == s {
          var q := Member(|d|, h, perm, grp, s, e, perm', grp', y);
          assert g0[x] == g0[y];
          LessBehind(d, x, y, h);
        }
      } else if grp[y] == s {
        var q := Member(|d|, h, perm, grp, s, e, perm', grp', y);
      }
    }
  }

  lemma MemberStays(n: nat, h: nat, perm: seq<nat>, grp: seq<nat>, s: nat, e: nat, perm': seq<nat>, grp': seq<nat>,
                    x: nat)
    requires Refines(n, h, perm, grp, s, e, perm', grp') && Blocks(Starts(n, perm, grp)) && x < n
    ensures grp[x] <= grp'[x] && if grp[x] == s then grp'[x] < e else grp'[x] == grp[x]
  {
    if grp[x] == s { var p := Member(n, h, perm, grp, s, e, perm', grp', x); }
  }

  lemma RefinedFiner(n: nat, h: nat, g0: seq<nat>, perm: seq<nat>, grp: seq<nat>, s: nat, e: nat,
                     perm': seq<nat>, grp': seq<nat>)
    requires Refines(n, h, perm, grp, s, e, perm', grp') && Blocks(Starts(n, perm, grp))
    requires Finer(Starts(n, perm, grp), g0, grp)
    ensures Finer(Starts(n, perm', grp'), g0, grp')
  {
    RefinedBlocks(n, h, perm, grp, s, e, perm', grp');
    var f, f' := Starts(n, perm, grp), Starts(n, perm', grp');
    forall x | 0 <= x < n ensures g0[x] <= grp'[x] && f'[g0[x]] == g0[x] {
      MemberStays(n, h, perm, grp, s, e, perm', grp', x);
      if s <= g0[x] < e { assert f[g0[x]] == s; }
    }
    forall x, y | 0 <= x < n && 0 <= y < n && g0[x] < g0[y] ensures grp'[x] < g0[y] {
      MemberStays(n, h, perm, grp, s, e, perm', grp', x);
      assert f[g0[y]] == g0[y];
    }
  }

  /** Refining a group keeps the order of all groups, and only splits them. */
  lemma Refined(d: seq<Byte>, h: nat, g0: seq<nat>, perm: seq<nat>, grp: seq<nat>, s: nat, e: nat,
                perm': seq<nat>, grp': seq<nat>)
    requires State(d, h, g0, perm, grp) && Refines(|d|, h, perm, grp, s, e, perm', grp')
    ensures State(d, h, g0, perm', grp')
    ensures Starts(|d|, perm', grp')[s] == s
    ensures forall x | 0 <= x < |d| :: grp[x] <= grp'[x]
  {
    hide Less, Same;
    RefinedBlocks(|d|, h, perm, grp, s, e, perm', grp');
    RefinedRanked(d, h, g0, perm, grp, s, e, perm', grp');
    RefinedFiner(|d|, h, g0, perm, grp, s, e, perm', grp');
    forall x | 0 <= x < |d| ensures grp[x] <= grp'[x] { MemberStays(|d|, h, perm, grp, s, e, perm', grp', x); }
  }

  // ----- the sorted depth -----

  /** Between places `a` and `b`, the groups agree on `k` bytes. */
  ghost predicate DeepIn(d: seq<Byte>, perm: seq<nat>, f: seq<nat>, a: nat, b: nat, k: nat)
    requires Perm(perm, |d|) && |f| == |d|
  {
    a <= b <= |d| && forall p, q | a <= p < b && a <= q < b && f[p] == f[q] :: Same(d, perm[p], perm[q], k)
  }

  /** Rotations whose keys, `h` bytes on, have always been in one group agree on twice as many bytes. */
  lemma Doubled(d: seq<Byte>, h: nat, g0: seq<nat>, perm: seq<nat>, grp: seq<nat>, x: nat, y: nat)
    requires State(d, h, g0, perm, grp) && h <= |d| && x < |d| && y < |d| && g0[x] == g0[y]
    requires g0[Skip(|d|, x, h)] == g0[Skip(|d|, y, h)]
    ensures Same(d, x, y, 2 * h)
  {
    hide Less, Same;
    SplitSame(d, x, y, h, h);
  }

  /** Equal groups have always been equal. */
  lemma EqualBefore(f: seq<nat>, g0: seq<nat>, grp: seq<nat>, x: nat, y: nat)
    requires Finer(f, g0, grp) && x < |grp| && y < |grp| && grp[x] == grp[y]
    ensures g0[x] == g0[y]
  {}

  /** A pass starts with the groups that there are. */
  lemma StartsPass(d: seq<Byte>, h: nat, perm: seq<nat>, grp: seq<nat>)
    requires Sized(|d|, perm, grp) && Blocks(Starts(|d|, perm, grp)) && Ranked(d, grp) && Deep(d, grp, h)
    ensures State(d, h, grp, perm, grp)
  {
    hide Less, Same;
    var f := Starts(|d|, perm, grp);
    forall x | 0 <= x < |d| ensures f[grp[x]] == grp[x] {
      var p := HasPlace(perm, |d|, x);
      assert f[f[p]] == f[p];
    }
  }

  /** After a pass the next one can start, with twice as many bytes. */
  lemma NextPass(d: seq<Byte>, h: nat, g0: seq<nat>, perm: seq<nat>, grp: seq<nat>)
    requires State(d, h, g0, perm, grp) && DeepIn(d, perm, Starts(|d|, perm, grp), 0, |d|, 2 * h)
    ensures State(d, 2 * h, grp, perm, grp)
  {
    hide Less, Same;
    var f := Starts(|d|, perm, grp);
    forall x, y | 0 <= x < |d| && 0 <= y < |d| && grp[x] == grp[y] ensures Same(d, x, y, 2 * h) {
      var p := HasPlace(perm, |d|, x);
      var q := HasPlace(perm, |d|, y);
      assert f[p] == f[q];
    }
    StartsPass(d, 2 * h, perm, grp);
  }

  // ----- the result -----

  /** The rotations are in order. */
  ghost predicate InOrder(d: seq<Byte>, perm: seq<nat>) {
    && Perm(perm, |d|)
    && forall p, q | 0 <= p < q < |d| :: NotAbove(Rotation(d, perm[p]), Rotation(d, perm[q]))
  }

  /** At the end, because all groups are single or all bytes have been compared. */
  lemma EndsInOrder(d: seq<Byte>, h: nat, g0: seq<nat>, perm: seq<nat>, grp: seq<nat>)
    requires State(d, h, g0, perm, grp)
    requires (forall p | 0 <= p < |d| :: Starts(|d|, perm, grp)[p] == p) || (g0 == grp && h >= |d|)
    ensures InOrder(d, perm)
  {
    hide Less, Same, NotAbove;
    var f := Starts(|d|, perm, grp);
    forall p, q | 0 <= p < q < |d| ensures NotAbove(Rotation(d, perm[p]), Rotation(d, perm[q])) {
      if f[p] == f[q] {
        SplitSame(d, perm[p], perm[q], |d|, h - |d|);
      }
      OrderIsLexicographic(d, perm[p], perm[q]);
    }
  }
}
