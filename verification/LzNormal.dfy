/** Normalisation cannot be observed: a finder whose positions are lowered whenever they get near 2^32 gives the
    same reports, on every run, as one that counts without bound. */
module LzNormal {
  import opened Arith
  import opened BitModel
  import opened LzTree
  import opened LzSon
  import opened LzHash
  import opened LzForest
  import opened LzReport

  // ----- a lowered array -----

  function SaturateAll(a: seq<nat>, sub: nat): (b: seq<nat>)
    ensures |b| == |a| && forall i | 0 <= i < |a| :: b[i] == Saturate(a[i], sub)
  {
    seq(|a|, i requires 0 <= i < |a| => Saturate(a[i], sub))
  }

  lemma SaturatedWrite(a: seq<nat>, b: seq<nat>, sub: nat, i: nat, v: nat, w: nat)
    requires Saturated(a, b, sub) && i < |a| && w == Saturate(v, sub)
    ensures Saturated(a[i := v], b[i := w], sub)
  {}

  lemma SaturatedTwice(a: seq<nat>, b: seq<nat>, c: seq<nat>, s: nat, t: nat)
    requires Saturated(a, b, s) && Saturated(b, c, t)
    ensures Saturated(a, c, s + t)
  {}

  lemma HoleRebased(r: Ring, sub: nat, y: nat, b: Side)
    requires RingOk(r) && InRing(r, y) && sub <= Low(r)
    ensures sub < y && RingOk(Rebased(r, sub)) && InRing(Rebased(r, sub), y - sub)
    ensures Hole(Rebased(r, sub), y - sub, b) == Hole(r, y, b)
  {}

  lemma ReadyRebased(text: seq<Byte>, r: Ring, n: nat, a: seq<nat>, b: seq<nat>, sub: nat, m: nat, y0: nat, y1: nat)
    requires Ready(text, r, n, a, m, y0, y1) && sub <= Low(r) && Saturated(a, b, sub)
    ensures sub < y0 && sub < y1
    ensures Ready(text, Rebased(r, sub), n, b, Saturate(m, sub), y0 - sub, y1 - sub)
    ensures RingOk(r) && InRing(r, y0) && InRing(r, y1) && |a| == 2 * r.cbs == |b|
  {
    NormalizeKeepsTrees(r, a, b, sub, r.pos - 1);
  }

  /** One search leaves the lowered array of what the other leaves. */
  lemma {:induction false} DescendLowered(text: seq<Byte>, r: Ring, n: nat, a: seq<nat>, b: seq<nat>, sub: nat,
                                          m: nat, y0: nat, y1: nat, rounds: nat)
    requires Ready(text, r, n, a, m, y0, y1) && sub <= Low(r) && Saturated(a, b, sub)
    ensures sub < y0 && sub < y1
    ensures Ready(text, Rebased(r, sub), n, b, Saturate(m, sub), y0 - sub, y1 - sub)
    ensures Saturated(Descend(text, r, n, a, m, y0, y1, rounds),
                      Descend(text, Rebased(r, sub), n, b, Saturate(m, sub), y0 - sub, y1 - sub, rounds), sub)
    decreases m
  {
    hide Slot, Link, Hole, Lcp, Below, Falls, Saturated;
    ReadyRebased(text, r, n, a, b, sub, m, y0, y1);
    var q := Rebased(r, sub);
    HoleRebased(r, sub, y0, 0);
    HoleRebased(r, sub, y1, 1);
    var i, j := Hole(r, y0, 0), Hole(r, y1, 1);
    if m <= Low(r) || rounds == 0 {
      SaturatedWrite(a, b, sub, i, 0, 0);
      SaturatedWrite(a[i := 0], b[i := 0], sub, j, 0, 0);
    } else {
      ReadyLinks(text, r, n, a, m, y0, y1);
      NormalLinks(r, a, b, sub, m);
      var left, right := Link(r, a, m, 0), Link(r, a, m, 1);
      var l, s := Saturate(left, sub), Saturate(right, sub);
      var k := m - sub;
      if Lcp(text, m + r.base, Cur(r), n) == n {
        SaturatedWrite(a, b, sub, i, left, l);
        SaturatedWrite(a[i := left], b[i := l], sub, j, right, s);
      } else if Below(text, m + r.base, Cur(r), n) {
        WriteFalls(r, a, y0, 0, m);
        SaturatedWrite(a, b, sub, i, m, k);
        DescendLowered(text, r, n, a[i := m], b[i := k], sub, right, m, y1, rounds - 1);
      } else {
        WriteFalls(r, a, y1, 1, m);
        SaturatedWrite(a, b, sub, j, m, k);
        DescendLowered(text, r, n, a[j := m], b[j := k], sub, left, y0, m, rounds - 1);
      }
    }
  }

  lemma ReadyLinks(text: seq<Byte>, r: Ring, n: nat, a: seq<nat>, m: nat, y0: nat, y1: nat)
    requires Ready(text, r, n, a, m, y0, y1) && m > Low(r)
    ensures InRing(r, m) && Shape(r, a) && LinksFall(r, a, m)
  {}

  // ----- a lowered finder -----

  /** `g` is `f` with all its positions and references lowered by `sub`; references that had left the window
      may have become empty. */
  ghost predicate Lowered(f: Finder, g: Finder, sub: nat) {
    && sub <= Low(f.r) && sub <= f.top && g.r == Rebased(f.r, sub) && g.top == f.top - sub
    && g.hs == f.hs && g.data == f.data && g.n == f.n
    && Saturated(f.son, g.son, sub) && Saturated(f.heads, g.heads, sub)
  }

  lemma NotLowered(f: Finder)
    ensures Lowered(f, f, 0)
  {}

  lemma LoweredShaped(f: Finder, g: Finder, sub: nat)
    requires Lowered(f, g, sub) && Shaped(f) && RingOk(f.r)
    ensures Shaped(g) && RingOk(g.r) && Cur(g.r) == Cur(f.r) && Low(g.r) == Low(f.r) - sub && |g.heads| == |f.heads|
    ensures Before(f) <==> Before(g)
  {
    NormalizeKeepsTrees(f.r, f.son, g.son, sub, f.top - 1);
  }

  lemma LoweredBucket(f: Finder, g: Finder, sub: nat, h: nat)
    requires Lowered(f, g, sub) && Shaped(f) && Shaped(g) && FIX4_HASH_SIZE <= h < |f.heads| == |g.heads|
    ensures Bucket(g, h) == Bucket(f, h)
  {
    NormalizeKeepsTrees(f.r, f.son, g.son, sub, f.heads[h]);
  }

  /** A reference of the short tables is as usable as before, and names the same position. */
  lemma LoweredEntry(f: Finder, g: Finder, sub: nat, three: bool)
    requires Lowered(f, g, sub) && Searching(f) && Searching(g) && Cur(g.r) == Cur(f.r)
    ensures Ref(g, three) == Saturate(Ref(f, three), sub)
    ensures Ref(f, three) > Low(f.r) <==> Ref(g, three) > Low(g.r)
    ensures Ref(f, three) > Low(f.r) ==> Entry(g, three) == Entry(f, three)
  {
    hide H2, H3, Falls;
  }

  lemma LoweredMatch(f: Finder, g: Finder, sub: nat, three: bool)
    requires Lowered(f, g, sub) && Searching(f) && Searching(g) && Cur(g.r) == Cur(f.r)
    ensures Usable(g, three) <==> Usable(f, three)
    ensures Usable(f, three) ==> EntryMatch(g, three) == EntryMatch(f, three)
    ensures Usable(f, false) ==> (ThirdByteToo(g) <==> ThirdByteToo(f))
  {
    hide Ref, Entry, Lcp, Shaped;
    LoweredEntry(f, g, sub, three);
    LoweredEntry(f, g, sub, false);
  }

  lemma LoweredHeads(f: Finder, g: Finder, sub: nat)
    requires Lowered(f, g, sub) && Searching(f) && Searching(g) && Cur(g.r) == Cur(f.r)
    ensures HeadReport(g) == HeadReport(f) && HeadBest(g) == HeadBest(f)
  {
    hide Lowered, Searching, Usable, EntryMatch, ThirdByteToo, Ref, Entry;
    LoweredMatch(f, g, sub, false);
    LoweredMatch(f, g, sub, true);
  }

  lemma LoweredTree(f: Finder, g: Finder, sub: nat, rounds: nat)
    requires Lowered(f, g, sub) && Searching(f) && Searching(g) && Cur(g.r) == Cur(f.r) && HeadBest(g) == HeadBest(f)
    requires Falling(Bucket(f, CurHash(f)), Cur(f.r)) && Bucket(g, CurHash(f)) == Bucket(f, CurHash(f))
    ensures CurHash(g) == CurHash(f) && TreeReport(g, rounds) == TreeReport(f, rounds)
  {
    hide Bucket, H4, Matches, HeadBest, Shaped, Falling;
  }

  /** The report at a lowered state is the report at the state itself. */
  lemma LoweredReport(f: Finder, g: Finder, sub: nat, rounds: nat)
    requires Lowered(f, g, sub) && ForestOk(f, false) && Searching(f)
    ensures Searching(g) && Falling(Bucket(f, CurHash(f)), Cur(f.r)) && Falling(Bucket(g, CurHash(g)), Cur(g.r))
    ensures Report(g, rounds) == Report(f, rounds)
  {
    hide Bucket, H4, TreeReport, HeadReport, HeadBest, Falling, BucketOk, EntryOk, Remembered;
    LoweredShaped(f, g, sub);
    LoweredHeads(f, g, sub);
    LoweredBucket(f, g, sub, CurHash(f));
    TreeInWindow(f);
    LoweredTree(f, g, sub, rounds);
  }

  /** Entering the current position. */
  lemma LoweredEnter(f: Finder, g: Finder, sub: nat, rounds: nat)
    requires Lowered(f, g, sub) && ForestOk(f, false) && Searching(f)
    ensures Searching(g) && Lowered(Entered(f, rounds), Entered(g, rounds), sub)
  {
    hide H2, H3, H4, Descend, BucketOk, EntryOk, Remembered, Falls;
    LoweredShaped(f, g, sub);
    var c := Cur(f.r);
    var h := H4(f.hs, f.data, c);
    EnterReady(f, h);
    DescendLowered(f.data, f.r, f.n, f.son, g.son, sub, f.heads[h], f.r.pos, f.r.pos, rounds);
  }

  lemma EnterReady(f: Finder, h: nat)
    requires Searching(f) && FIX4_HASH_SIZE <= h < |f.heads|
    ensures Ready(f.data, f.r, f.n, f.son, f.heads[h], f.r.pos, f.r.pos)
  {}

  lemma LoweredAdvance(f: Finder, g: Finder, sub: nat, n: nat)
    requires Lowered(f, g, sub)
    ensures Lowered(Advanced(f, n), Advanced(g, n), sub)
  {}

  // ----- runs -----

  /** What happens to a finder: a search at the current position followed by a step to the next one, where `n` bytes
      will be compared; or a normalisation. */
  datatype Event = Search(rounds: nat, n: nat) | Normalize(sub: nat)

  ghost function LoweredBy(f: Finder, sub: nat): Finder
    requires sub <= f.r.pos
  {
    Normalized(f, sub, SaturateAll(f.son, sub), SaturateAll(f.heads, sub))
  }

  ghost function Searched(f: Finder, e: Event): Finder
    requires Searching(f) && e.Search?
  {
    Advanced(Entered(f, e.rounds), e.n)
  }

  /** The steps stay inside the data and compare no more bytes than before, and a normalisation takes no more than the
      code's own amount. */
  ghost predicate Legal(f: Finder, es: seq<Event>)
    decreases |es|
  {
    es != [] ==>
      && Searching(f)
      && var e := es[0];
         if e.Search? then 4 <= e.n <= f.n && Cur(f.r) + 1 + e.n <= |f.data| && Legal(Searched(f, e), es[1..])
         else e.sub <= Low(f.r) && Legal(LoweredBy(f, e.sub), es[1..])
  }

  /** The reports of a run, one for each search. */
  ghost function Reports(f: Finder, es: seq<Event>): seq<seq<Match>>
    requires ForestOk(f, false) && Legal(f, es)
    decreases |es|
  {
    if es == [] then [] else
    EventKeeps(f, es[0], es[1..]);
    var e := es[0];
    if e.Search? then
      TreeInWindow(f);
      [Report(f, e.rounds)] + Reports(Searched(f, e), es[1..])
    else Reports(LoweredBy(f, e.sub), es[1..])
  }

  lemma EventKeeps(f: Finder, e: Event, rest: seq<Event>)
    requires ForestOk(f, false) && Legal(f, [e] + rest)
    ensures Searching(f)
    ensures e.Search? ==> ForestOk(Searched(f, e), false)
    ensures e.Normalize? ==> e.sub <= f.r.pos && ForestOk(LoweredBy(f, e.sub), false)
  {
    hide ForestOk, Shaped, Entered;
    assert ([e] + rest)[0] == e;
    match e
    case Search(rounds, n) =>
      EnterKeeps(f, rounds, false);
      EnteredTop(f, rounds);
      AdvanceKeeps(Entered(f, rounds), n, false);
    case Normalize(sub) =>
      NormalizesIs(f, sub);
      NormalizeKeeps(f, sub, SaturateAll(f.son, sub), SaturateAll(f.heads, sub), false);
  }

  lemma EnteredTop(f: Finder, rounds: nat)
    requires Searching(f)
    ensures var g := Entered(f, rounds); g.top == f.r.pos + 1 && g.r == f.r && g.n == f.n && g.data == f.data
  {}

  lemma NormalizesIs(f: Finder, sub: nat)
    requires Searching(f) && sub <= Low(f.r)
    ensures sub <= f.r.pos && Normalizes(f, sub, SaturateAll(f.son, sub), SaturateAll(f.heads, sub))
  {}

  /** The run without its normalisations. */
  function Searches(es: seq<Event>): seq<Event> {
    if es == [] then []
    else if es[0].Search? then [es[0]] + Searches(es[1..])
    else Searches(es[1..])
  }

  lemma LoweredAgain(f: Finder, g: Finder, sub: nat, t: nat)
    requires Lowered(f, g, sub) && Searching(f) && t <= Low(g.r)
    ensures t <= g.r.pos && Lowered(f, LoweredBy(g, t), sub + t)
  {
    LoweredShaped(f, g, sub);
    SaturatedTwice(f.son, g.son, SaturateAll(g.son, t), sub, t);
    SaturatedTwice(f.heads, g.heads, SaturateAll(g.heads, t), sub, t);
    hide Falls;
  }

  lemma SearchedStep(f: Finder, e: Event)
    requires ForestOk(f, false) && Searching(f) && e.Search? && 4 <= e.n <= f.n && Cur(f.r) + 1 + e.n <= |f.data|
    ensures ForestOk(Searched(f, e), false) && Searching(Searched(f, e))
  {
    hide ForestOk, Entered;
    EnterKeeps(f, e.rounds, false);
    EnteredTop(f, e.rounds);
    AdvanceKeeps(Entered(f, e.rounds), e.n, false);
    ForestSearches(Searched(f, e));
  }

  lemma ForestSearches(f: Finder)
    requires ForestOk(f, false) && Before(f)
    ensures Searching(f)
  {}

  lemma SearchesHead(e: Event, rest: seq<Event>)
    ensures e.Search? ==> Searches([e] + rest) == [e] + Searches(rest)
    ensures e.Normalize? ==> Searches([e] + rest) == Searches(rest)
  {
    assert ([e] + rest)[1..] == rest;
  }

  lemma LegalHead(f: Finder, e: Event, rest: seq<Event>)
    requires Searching(f)
    ensures Legal(f, [e] + rest) <==>
      if e.Search? then 4 <= e.n <= f.n && Cur(f.r) + 1 + e.n <= |f.data| && Legal(Searched(f, e), rest)
      else e.sub <= Low(f.r) && Legal(LoweredBy(f, e.sub), rest)
  {
    assert ([e] + rest)[1..] == rest;
  }

  lemma ReportsHead(f: Finder, e: Event, rest: seq<Event>)
    requires ForestOk(f, false) && Searching(f) && Legal(f, [e] + rest)
    ensures e.Search? ==>
      && ForestOk(Searched(f, e), false) && Legal(Searched(f, e), rest) && Falling(Bucket(f, CurHash(f)), Cur(f.r))
      && Reports(f, [e] + rest) == [Report(f, e.rounds)] + Reports(Searched(f, e), rest)
    ensures e.Normalize? ==>
      && e.sub <= f.r.pos && ForestOk(LoweredBy(f, e.sub), false) && Legal(LoweredBy(f, e.sub), rest)
      && Reports(f, [e] + rest) == Reports(LoweredBy(f, e.sub), rest)
  {
    hide ForestOk, Shaped, Entered, Report, Bucket, LoweredBy, Searched;
    EventKeeps(f, e, rest);
    LegalHead(f, e, rest);
    TreeInWindow(f);
    var es := [e] + rest;
    assert es[0] == e && es[1..] == rest;
  }

  /** From a state and a lowering of it: the finder that never normalises gives the same reports. */
  lemma {:induction false} UnboundedAgrees(f: Finder, g: Finder, sub: nat, es: seq<Event>)
    requires Lowered(f, g, sub) && ForestOk(f, false) && ForestOk(g, false) && Searching(f) && Legal(g, es)
    ensures Legal(f, Searches(es)) && Reports(f, Searches(es)) == Reports(g, es)
    decreases |es|
  {
    hide *;
    if es == [] {
      NoReports(f, g, es);
    } else {
      var e, rest := es[0], es[1..];
      assert es == [e] + rest;
      LoweredSearching(f, g, sub);
      LegalHead(g, e, rest);
      ReportsHead(g, e, rest);
      SearchesHead(e, rest);
      match e
      case Search(rounds, n) =>
        SameFrame(f, g, sub);
        SearchedStep(f, e);
        LoweredStep(f, g, sub, e);
        UnboundedAgrees(Searched(f, e), Searched(g, e), sub, rest);
        LegalHead(f, e, Searches(rest));
        ReportsHead(f, e, Searches(rest));
        LoweredReport(f, g, sub, rounds);
      case Normalize(t) =>
        LoweredAgain(f, g, sub, t);
        UnboundedAgrees(f, LoweredBy(g, t), sub + t, rest);
    }
  }

  lemma NoReports(f: Finder, g: Finder, es: seq<Event>)
    requires ForestOk(f, false) && ForestOk(g, false) && es == []
    ensures Legal(f, es) && Legal(g, es) && Searches(es) == es && Reports(f, es) == [] == Reports(g, es)
  {}

  lemma LoweredSearching(f: Finder, g: Finder, sub: nat)
    requires Lowered(f, g, sub) && Searching(f)
    ensures Searching(g)
  {
    LoweredShaped(f, g, sub);
  }

  lemma SameFrame(f: Finder, g: Finder, sub: nat)
    requires Lowered(f, g, sub) && Searching(f) && Searching(g)
    ensures g.n == f.n && Cur(g.r) == Cur(f.r) && g.data == f.data
  {}

  lemma LoweredStep(f: Finder, g: Finder, sub: nat, e: Event)
    requires Lowered(f, g, sub) && ForestOk(f, false) && Searching(f) && Searching(g) && e.Search?
    ensures Lowered(Searched(f, e), Searched(g, e), sub)
  {
    hide Lowered, Entered, Advanced, ForestOk;
    LoweredEnter(f, g, sub, e.rounds);
    LoweredAdvance(Entered(f, e.rounds), Entered(g, e.rounds), sub, e.n);
  }

  /** Normalisation is unobservable: on every run, with normalisations anywhere in it, the reports are those of the run
      without them, in which positions grow without bound. */
  lemma NormalizationUnobservable(f: Finder, es: seq<Event>)
    requires ForestOk(f, false) && Searching(f) && Legal(f, es)
    ensures Legal(f, Searches(es)) && Reports(f, es) == Reports(f, Searches(es))
  {
    hide Reports, ForestOk, Legal;
    NotLowered(f);
    UnboundedAgrees(f, f, 0, es);
  }

  // ----- the steps of the finder object are such events -----

  /** `q` is the finder one step after `f` has been entered, normalised by everything that has left the window or not
      at all. */
  ghost predicate Comes(f: Finder, q: Finder, n: nat) {
    var g := Advanced(f, n);
    q == g || q == LoweredBy(g, Low(g.r))
  }

  /** Normalising by as much as the code does empties exactly the references that have left the window. */
  lemma OnlyTheOldBecomeEmpty(f: Finder, i: nat)
    requires Searching(f)
    ensures var g := LoweredBy(f, Low(f.r));
      && (i < |f.heads| ==> (g.heads[i] == 0 <==> f.heads[i] <= Low(f.r)))
      && (i < |f.son| && f.son[i] <= f.r.pos ==> (g.son[i] == 0 <==> f.son[i] <= Low(f.r)))
  {
    if i < |f.heads| { NormalizeEmptiesTheOld(f.r, f.heads[i]); }
    if i < |f.son| && f.son[i] <= f.r.pos { NormalizeEmptiesTheOld(f.r, f.son[i]); }
    hide Saturate;
  }

  /** The events of one step. */
  ghost function EventsOf(f: Finder, q: Finder, rounds: nat, n: nat): seq<Event>
    requires Searching(f)
  {
    var e := Search(rounds, n);
    if q == Searched(f, e) then [e] else [e, Normalize(Low(Searched(f, e).r))]
  }

  /** What one step reports, and everything after it, is part of one run. */
  lemma StepsAreEvents(f: Finder, q: Finder, rounds: nat, n: nat, rest: seq<Event>)
    requires ForestOk(f, false) && Searching(f) && 4 <= n <= f.n && Cur(f.r) + 1 + n <= |f.data|
    requires Comes(Entered(f, rounds), q, n)
    ensures ForestOk(q, false) && Searching(q)
    ensures Legal(q, rest) ==>
      && Legal(f, EventsOf(f, q, rounds, n) + rest) && Falling(Bucket(f, CurHash(f)), Cur(f.r))
      && Reports(f, EventsOf(f, q, rounds, n) + rest) == [Report(f, rounds)] + Reports(q, rest)
      && Searches(EventsOf(f, q, rounds, n) + rest) == [Search(rounds, n)] + Searches(rest)
  {
    hide ForestOk, Legal, Reports, Report, Bucket, Entered, Advanced, LoweredBy, Shaped, Before;
    var e := Search(rounds, n);
    var g := Searched(f, e);
    SearchedStep(f, e);
    SearchesHead(e, rest);
    if q == g {
      if Legal(q, rest) {
        LegalHead(f, e, rest);
        ReportsHead(f, e, rest);
      }
    } else {
      var t := Normalize(Low(g.r));
      LowerKeeps(g, Low(g.r));
      if Legal(q, rest) {
        LegalHead(g, t, rest);
        ReportsHead(g, t, rest);
        LegalHead(f, e, [t] + rest);
        ReportsHead(f, e, [t] + rest);
        SearchesHead(t, rest);
        SearchesHead(e, [t] + rest);
        assert [e, t] + rest == [e] + ([t] + rest);
      }
    }
  }

  lemma LowerKeeps(f: Finder, sub: nat)
    requires ForestOk(f, false) && Searching(f) && sub <= Low(f.r)
    ensures sub <= f.r.pos && ForestOk(LoweredBy(f, sub), false) && Searching(LoweredBy(f, sub))
  {
    hide ForestOk;
    NormalizesIs(f, sub);
    NormalizeKeeps(f, sub, SaturateAll(f.son, sub), SaturateAll(f.heads, sub), false);
    ForestSearches(LoweredBy(f, sub));
  }
}
