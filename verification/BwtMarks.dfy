/** Twenty bits of index and twelve bits of marks in one word: how the sizes of groups are kept in the list of
    indices itself, and how single groups are joined to runs. */
module BwtMarks {
  import opened Arith
  import opened BitModel

  const INDEX := 0x10_0000
  const EXTRA := 0x400
  const BIG := 0x4000_0000
  const OPEN := 0x8000_0000

  function Index(w: Word): (i: Word)
    ensures i < INDEX
  {
    w % INDEX
  }

  function Extra(w: Word): (x: nat)
    ensures x < EXTRA
  {
    w / INDEX % EXTRA
  }

  predicate Big(w: Word) { w / BIG % 2 == 1 }

  predicate Open(w: Word) { w >= OPEN }

  /** A word without marks. */
  predicate Clean(w: Word) { w < INDEX }

  ghost predicate CleanIn(ws: seq<Word>, a: nat, b: nat) {
    a <= b <= |ws| && forall p | a <= p < b :: Clean(ws[p])
  }

  /** The indices alone. */
  ghost function Indices(ws: seq<Word>): (perm: seq<nat>)
    ensures |perm| == |ws| && forall p | 0 <= p < |ws| :: perm[p] == Index(ws[p])
  {
    seq(|ws|, p requires 0 <= p < |ws| => Index(ws[p]) as nat)
  }

  /** The group that is marked at place `a`; large sizes go on in the next word. */
  function SizeAt(ws: seq<Word>, a: nat): (m: nat)
    requires a < |ws|
    ensures m >= 1
  {
    1 + Extra(ws[a]) + (if Big(ws[a]) && a + 1 < |ws| then ws[a + 1] / INDEX * EXTRA else 0)
  }

  /** The marks of one group of size `m`: `open` if it has still to be sorted, otherwise a run of sorted places. */
  ghost predicate Group(ws: seq<Word>, a: nat, m: nat, open: bool) {
    && m >= 1 && a + m <= |ws| && SizeAt(ws, a) == m && Open(ws[a]) == open
    && (Big(ws[a]) ==> m > 1) && (m > 1 && !Big(ws[a]) ==> Clean(ws[a + 1]))
    && forall p | a + 2 <= p < a + m :: Clean(ws[p])
  }

  lemma MarkedWord(w: Word, size: nat, big: nat, open: nat)
    requires Clean(w) && size < EXTRA && big < 2 && open < 2
    ensures var v := w + size * INDEX + big * BIG + open * OPEN;
      v < WORD && Index(v) == w && Extra(v) == size && (Big(v) <==> big == 1) && (Open(v) <==> open == 1)
  {
    var v := w + size * INDEX + big * BIG + open * OPEN;
    DivUnique(v, size + EXTRA * (big + 2 * open), INDEX);
    DivUnique(size + EXTRA * (big + 2 * open), big + 2 * open, EXTRA);
    DivUnique(v, big + 2 * open, BIG);
  }

  lemma SecondWord(w: Word, x: nat)
    requires Clean(w) && x < 4 * EXTRA
    ensures w + x * INDEX < WORD && Index(w + x * INDEX) == w && (w + x * INDEX) / INDEX == x
  {
    DivUnique(w + x * INDEX, x, INDEX);
  }

  lemma SizeParts(size: nat)
    requires size < INDEX
    ensures size % EXTRA < EXTRA && size / EXTRA < EXTRA && size == size % EXTRA + size / EXTRA * EXTRA
  {}

  lemma CleanWord(w: Word)
    requires Clean(w)
    ensures Index(w) == w && Extra(w) == 0 && !Big(w) && !Open(w)
  {}

  /** Marks a group that has still to be sorted; a single place needs no mark. */
  method SetGroupSize(p: array<Word>, at: nat, size: nat)
    requires 1 <= size <= 0x10_0000 && at + size <= p.Length && CleanIn(p[..], at, at + size)
    modifies p
    ensures Group(p[..], at, size, size > 1) && Indices(p[..]) == Indices(old(p[..]))
    ensures forall x | 0 <= x < p.Length && (x < at || at + size <= x) :: p[x] == old(p[x])
  {
    hide Index, Extra, Big, Open;
    CleanWord(p[at]);
    var rest := size - 1;
    if rest == 0 { return; }
    CleanWord(p[at + 1]);
    SizeParts(rest);
    var big := if rest >= EXTRA then 1 else 0;
    MarkedWord(p[at], rest % EXTRA, big, 1);
    SecondWord(p[at + 1], rest / EXTRA);
    p[at] := p[at] + rest % EXTRA * INDEX + big * BIG + OPEN;
    if rest >= EXTRA {
      p[at + 1] := p[at + 1] + rest / EXTRA * INDEX;
    }
    assert Indices(p[..]) == Indices(old(p[..]));
  }

  /** Marks a run of sorted places. */
  method SetFinishedGroupSize(p: array<Word>, at: nat, size: nat)
    requires 1 <= size <= 0x10_0000 && at + size <= p.Length && CleanIn(p[..], at, at + size)
    modifies p
    ensures Group(p[..], at, size, false) && Indices(p[..]) == Indices(old(p[..]))
    ensures forall x | 0 <= x < p.Length && (x < at || at + size <= x) :: p[x] == old(p[x])
  {
    hide Index, Extra, Big, Open;
    CleanWord(p[at]);
    var rest := size - 1;
    SizeParts(rest);
    var big := if size > EXTRA then 1 else 0;
    MarkedWord(p[at], rest % EXTRA, big, 0);
    if size > 1 {
      CleanWord(p[at + 1]);
      SecondWord(p[at + 1], rest / EXTRA);
    }
    p[at] := p[at] + rest % EXTRA * INDEX + big * BIG;
    if size > EXTRA {
      p[at + 1] := p[at + 1] + rest / EXTRA * INDEX;
    }
    assert Indices(p[..]) == Indices(old(p[..]));
  }

  lemma Cleaned(w: Word)
    ensures Clean(Index(w)) && Index(Index(w)) == Index(w)
  {}

  /** Reads the marks of a group and takes them away. */
  method TakeMarks(p: array<Word>, at: nat, ghost m: nat, ghost open: bool) returns (size: nat, finished: bool)
    requires Group(p[..], at, m, open)
    modifies p
    ensures size == m && finished == !open && CleanIn(p[..], at, at + m) && Indices(p[..]) == Indices(old(p[..]))
    ensures forall x | 0 <= x < p.Length && (x < at || at + m <= x) :: p[x] == old(p[x])
  {
    hide Index, Extra, Big, Open;
    size, finished := Extra(p[at]), !Open(p[at]);
    Cleaned(p[at]);
    if Big(p[at]) {
      size := size + p[at + 1] / INDEX * EXTRA;
      Cleaned(p[at + 1]);
      p[at + 1] := Index(p[at + 1]);
    }
    p[at] := Index(p[at]);
    size := size + 1;
    assert Indices(p[..]) == Indices(old(p[..]));
  }

  // ----- a list of groups -----

  /** From `a` to `e` there are groups, marked one behind the other. `f` has the group number of each place, and
      counts places from `base`. */
  ghost predicate Marked(ws: seq<Word>, f: seq<nat>, base: nat, a: nat, e: nat)
    decreases e - a
  {
    && a <= e <= |ws| && e <= |f|
    && (a < e ==>
          var m, open := SizeAt(ws, a), Open(ws[a]);
          && Group(ws, a, m, open) && a + m <= e && (open ==> m > 1) && Numbered(f, base, a, m, open)
          && Marked(ws, f, base, a + m, e))
  }

  /** The places of an open group have its number, those of a run their own. */
  ghost predicate Numbered(f: seq<nat>, base: nat, a: nat, m: nat, open: bool) {
    a + m <= |f| && forall p | a <= p < a + m :: f[p] == if open then base + a else base + p
  }

  lemma OneMarked(ws: seq<Word>, f: seq<nat>, base: nat, a: nat, m: nat, open: bool, e: nat)
    requires Group(ws, a, m, open) && Numbered(f, base, a, m, open) && (open ==> m > 1) && e == a + m
    ensures Marked(ws, f, base, a, e)
  {
    assert Marked(ws, f, base, e, e);
  }

  lemma {:induction false} JoinMarked(ws: seq<Word>, f: seq<nat>, base: nat, a: nat, b: nat, e: nat)
    requires Marked(ws, f, base, a, b) && Marked(ws, f, base, b, e)
    ensures Marked(ws, f, base, a, e)
    decreases b - a
  {
    if a < b { JoinMarked(ws, f, base, a + SizeAt(ws, a), b, e); }
  }

  /** The marks may be in another list, at other places. */
  lemma {:induction false} MoveMarked(ws: seq<Word>, f: seq<nat>, base: nat, a: nat, e: nat,
                                      vs: seq<Word>, g: seq<nat>, base': nat, k: nat, a': nat, e': nat)
    requires Marked(ws, f, base, a, e) && a' == a + k && e' == e + k <= |vs| && e' <= |g| && base == base' + k
    requires forall p | a <= p < e :: vs[p + k] == ws[p] && g[p + k] == f[p]
    ensures Marked(vs, g, base', a', e')
    decreases e - a
  {
    if a < e {
      var m := SizeAt(ws, a);
      assert vs[a + k] == ws[a];
      if m > 1 { assert vs[a + 1 + k] == ws[a + 1]; }
      forall p | a' + 2 <= p < a' + m ensures Clean(vs[p]) { assert vs[p - k + k] == ws[p - k]; }
      forall p | a' <= p < a' + m ensures g[p] == if Open(ws[a]) then base' + a' else base' + p {
        assert g[p - k + k] == f[p - k];
      }
      MoveMarked(ws, f, base, a + m, e, vs, g, base', k, a' + m, e');
    }
  }

  lemma KeepMarked(ws: seq<Word>, f: seq<nat>, vs: seq<Word>, g: seq<nat>, base: nat, a: nat, e: nat)
    requires Marked(ws, f, base, a, e) && e <= |vs| && e <= |g|
    requires forall p | a <= p < e :: vs[p] == ws[p] && g[p] == f[p]
    ensures Marked(vs, g, base, a, e)
  {
    MoveMarked(ws, f, base, a, e, vs, g, base, 0, a, e);
  }

  /** Where a group begins, its number is its place. */
  lemma {:induction false} StartsItself(ws: seq<Word>, f: seq<nat>, a: nat, e: nat)
    requires Marked(ws, f, 0, a, e)
    ensures a < e ==> f[a] == a
    ensures forall p | a <= p < e :: a <= f[p] <= p
    decreases e - a
  {
    if a < e { StartsItself(ws, f, a + SizeAt(ws, a), e); }
  }
}
