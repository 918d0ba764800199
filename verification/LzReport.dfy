/** What one call of the four-byte finder reports: matches from the two- and three-byte tables, then the
    longer ones from the tree. */
module LzReport {
  import opened Arith
  import opened BitModel
  import opened LzTree
  import opened LzSon
  import opened LzHash
  import opened LzForest

  ghost predicate Searching(f: Finder) { Shaped(f) && Before(f) && RingOk(f.r) }

  /** The reference in a short table for the current position. */
  ghost function Ref(f: Finder, three: bool): nat
    requires Searching(f)
  {
    f.heads[if three then H3(f.hs, f.data, Cur(f.r)) else H2(f.hs, f.data, Cur(f.r))]
  }

  ghost function Distance(f: Finder, three: bool): nat
    requires Searching(f)
  {
    f.r.pos - Ref(f, three)
  }

  /** The entry is in the window and its first byte is the current one. */
  ghost predicate Usable(f: Finder, three: bool)
    requires Searching(f)
  {
    Ref(f, three) > Low(f.r) && f.data[Entry(f, three)] == f.data[Cur(f.r)]
  }

  ghost function Entry(f: Finder, three: bool): (x: nat)
    requires Searching(f) && Ref(f, three) > Low(f.r)
    ensures x < Cur(f.r)
  {
    Ref(f, three) + f.r.base
  }

  ghost function EntryMatch(f: Finder, three: bool): Match
    requires Searching(f) && Ref(f, three) > Low(f.r)
  {
    Match(Lcp(f.data, Entry(f, three), Cur(f.r), f.n), Cur(f.r) - Entry(f, three) - 1)
  }

  ghost predicate ThirdByteToo(f: Finder)
    requires Searching(f) && Ref(f, false) > Low(f.r)
  {
    f.data[Entry(f, false) + 2] == f.data[Cur(f.r) + 2]
  }

  /** The matches of the short tables. */
  ghost function HeadReport(f: Finder): seq<Match>
    requires Searching(f)
  {
    (if Usable(f, false) then [EntryMatch(f, false)] else [])
      + (if Usable(f, true) && !(Usable(f, false) && ThirdByteToo(f)) then [EntryMatch(f, true)] else [])
  }

  /** The length that the tree search has to exceed. */
  ghost function HeadBest(f: Finder): nat
    requires Searching(f)
  {
    if Usable(f, false) && ThirdByteToo(f) then EntryMatch(f, false).len
    else if Usable(f, true) then EntryMatch(f, true).len
    else 3
  }

  /** The matches of the tree, which is not asked when a head match is as long as can be. */
  ghost function TreeReport(f: Finder, rounds: nat): seq<Match>
    requires Searching(f) && Falling(Bucket(f, CurHash(f)), Cur(f.r))
  {
    if HeadBest(f) == f.n then [] else Matches(f.data, Bucket(f, CurHash(f)), Cur(f.r), f.n, rounds, HeadBest(f))
  }

  ghost function Report(f: Finder, rounds: nat): seq<Match>
    requires Searching(f) && Falling(Bucket(f, CurHash(f)), Cur(f.r))
  {
    HeadReport(f) + TreeReport(f, rounds)
  }

  /** The positions a match may start at: those closer than the size of the cyclic buffer. */
  ghost function Window(f: Finder): set<nat>
    requires Searching(f)
  {
    set x: nat | x < Cur(f.r) && Seen(f, x)
  }

  /** The window is the history: every earlier position at a distance below the size of the buffer. */
  lemma WindowIsHistory(f: Finder, x: nat)
    requires Searching(f)
    ensures x in Window(f) <==> 0 < Cur(f.r) - x < f.r.cbs
  {}

  lemma FourBytesAgree(data: seq<Byte>, a: nat, b: nat, k: nat)
    requires Agree(data, a, b, k) && k >= 2
    ensures data[a] == data[b] && data[a + 1] == data[b + 1]
    ensures k >= 3 ==> data[a + 2] == data[b + 2]
    ensures k >= 4 ==> data[a + 3] == data[b + 3]
  {
    AgreeAt(data, a, b, k, 0);
    AgreeAt(data, a, b, k, 1);
    if k >= 3 { AgreeAt(data, a, b, k, 2); }
    if k >= 4 { AgreeAt(data, a, b, k, 3); }
  }

  lemma HashesAgree(hs: Hasher, data: seq<Byte>, x: nat, c: nat, k: nat)
    requires x + 4 <= |data| && c + 4 <= |data| && hs.size > 0 && Agree(data, x, c, k) && k >= 2
    ensures data[x] == data[c] && H2(hs, data, x) == H2(hs, data, c)
    ensures k >= 3 ==> H3(hs, data, x) == H3(hs, data, c)
    ensures k >= 4 ==> H4(hs, data, x) == H4(hs, data, c)
  {
    FourBytesAgree(data, x, c, k);
    hide Hash2, Hash3, Hash4, Xor;
  }

  /** Equal hashes after an equal first byte mean two or three equal bytes. */
  lemma HashesTell(hs: Hasher, data: seq<Byte>, x: nat, c: nat)
    requires x + 4 <= |data| && c + 4 <= |data| && data[x] == data[c]
    ensures H2(hs, data, x) == H2(hs, data, c) ==> Agree(data, x, c, 2)
    ensures H3(hs, data, x) == H3(hs, data, c) ==> Agree(data, x, c, 3)
  {
    hide Hash2, Hash3, Xor;
    if H2(hs, data, x) == H2(hs, data, c) {
      Hash2Injective(hs.crc, data[c], data[x + 1], data[c + 1]);
      assert data[x..x + 2] == data[c..c + 2];
    }
    if H3(hs, data, x) == H3(hs, data, c) {
      Hash3Injective(hs.crc, data[c], data[x + 1], data[x + 2], data[c + 1], data[c + 2]);
      assert data[x..x + 3] == data[c..c + 3];
    }
  }

  /** A usable entry really agrees on its two or three bytes. */
  lemma EntryAgrees(f: Finder, three: bool)
    requires Searching(f) && ForestOk(f, false) && Usable(f, three)
    ensures Entry(f, three) in Window(f) && Entry(f, three) + f.n <= |f.data|
    ensures Agree(f.data, Entry(f, three), Cur(f.r), if three then 3 else 2)
  {
    hide TreeAt, BucketOk, Remembered, Falls, H2, H3, Agree;
    assert EntryOk(f, if three then H3(f.hs, f.data, Cur(f.r)) else H2(f.hs, f.data, Cur(f.r)));
    HashesTell(f.hs, f.data, Entry(f, three), Cur(f.r));
  }

  /** The short tables hold the latest position with a hash, so no position that agrees is nearer. */
  lemma EntryNearest(f: Finder, three: bool, x: nat)
    requires Searching(f) && ForestOk(f, false) && x in Window(f)
    requires x + 4 <= |f.data| && Agree(f.data, x, Cur(f.r), if three then 3 else 2)
    ensures Ref(f, three) > Low(f.r) && Entry(f, three) >= x
  {
    HashesAgree(f.hs, f.data, x, Cur(f.r), if three then 3 else 2);
    hide TreeAt, BucketOk, EntryOk, Falls, H2, H3, H4;
    assert Remembered(f, x, false);
  }

  lemma EntryMatchFacts(f: Finder, three: bool)
    requires Searching(f) && ForestOk(f, false) && Usable(f, three)
    ensures TrueMatch(f.data, Window(f), Cur(f.r), f.n, EntryMatch(f, three))
    ensures EntryMatch(f, three).len >= (if three then 3 else 2)
    ensures !three ==> (EntryMatch(f, three).len >= 3 <==> ThirdByteToo(f))
  {
    hide TreeAt, BucketOk, EntryOk, Remembered, Falls, H2, H3, Lcp, Agree;
    EntryAgrees(f, three);
    var x, c := Entry(f, three), Cur(f.r);
    LongerThan(f.data, x, c, f.n, if three then 3 else 2);
    if !three { ThirdByte(f.data, x, c, f.n); }
    assert c - EntryMatch(f, three).dist - 1 == x;
  }

  lemma LongerThan(data: seq<Byte>, x: nat, c: nat, n: nat, k: nat)
    requires x + n <= |data| && c + n <= |data| && k <= n && Agree(data, x, c, k)
    ensures Lcp(data, x, c, n) >= k
  {
    hide Agree;
    LcpAgrees(data, x, c, n);
    if Lcp(data, x, c, n) < k { AgreeAt(data, x, c, k, Lcp(data, x, c, n)); }
  }

  lemma ThirdByte(data: seq<Byte>, x: nat, c: nat, n: nat)
    requires x + n <= |data| && c + n <= |data| && 4 <= n && Agree(data, x, c, 2)
    ensures Lcp(data, x, c, n) >= 3 <==> data[x + 2] == data[c + 2]
  {
    hide Agree, Lcp;
    LcpAgrees(data, x, c, n);
    LongerThan(data, x, c, n, 2);
    if Lcp(data, x, c, n) >= 3 {
      AgreeAt(data, x, c, Lcp(data, x, c, n), 2);
    }
  }

  /** The report of the short tables is true and rising, and no longer than the length it passes on. */
  lemma HeadIsTrue(f: Finder)
    requires Searching(f) && ForestOk(f, false)
    ensures AllTrue(f.data, Window(f), Cur(f.r), f.n, 1, HeadReport(f))
    ensures 3 <= HeadBest(f) <= f.n
    ensures forall i | 0 <= i < |HeadReport(f)| :: HeadReport(f)[i].len <= HeadBest(f)
  {
    var two, three := Usable(f, false), Usable(f, true);
    if two { EntryMatchFacts(f, false); }
    if three { EntryMatchFacts(f, true); }
    if two && three && !ThirdByteToo(f) {
      EntryAgrees(f, true);
      var x := Entry(f, true);
      AgreeShrink(f.data, x, Cur(f.r), 3, 2);
      EntryNearest(f, false, x);
      assert Entry(f, false) != x;
    }
    hide ForestOk, Ref, Usable, Shaped, TrueMatch, ThirdByteToo, Window;
  }

  /** A position of the window that agrees on more than `HeadBest` bytes is farther than the head report. */
  lemma HeadIsNearer(f: Finder, x: nat, i: nat)
    requires Searching(f) && ForestOk(f, false) && x in Window(f) && x + f.n <= |f.data| && i < |HeadReport(f)|
    requires Lcp(f.data, x, Cur(f.r), f.n) > HeadBest(f)
    ensures HeadReport(f)[i].dist < Cur(f.r) - x - 1
  {
    HeadIsTrue(f);
    var three := i == 1 || !Usable(f, false);
    assert Usable(f, three) && HeadReport(f)[i] == EntryMatch(f, three);
    LcpAgrees(f.data, x, Cur(f.r), f.n);
    AgreeShrink(f.data, x, Cur(f.r), Lcp(f.data, x, Cur(f.r), f.n), if three then 3 else 2);
    EntryNearest(f, three, x);
    assert Entry(f, three) != x;
  }

  lemma TreeInWindow(f: Finder)
    requires Searching(f) && ForestOk(f, false)
    ensures Falling(Bucket(f, CurHash(f)), Cur(f.r)) && Nodes(Bucket(f, CurHash(f))) <= Window(f)
  {
    TreeAtFalls(f.r, f.son, f.heads[CurHash(f)], Cur(f.r));
  }

  /** Every report is a true match of exactly its length inside the window, and lengths and distances rise
      strictly, across the short tables and the tree. */
  lemma ReportIsTrue(f: Finder, rounds: nat)
    requires Searching(f) && ForestOk(f, false)
    ensures Falling(Bucket(f, CurHash(f)), Cur(f.r))
    ensures AllTrue(f.data, Window(f), Cur(f.r), f.n, 1, Report(f, rounds))
  {
    TreeInWindow(f);
    HeadIsTrue(f);
    TreeIsTrue(f, rounds);
    hide TreeReport, Bucket, HeadReport, HeadBest, Window, AllTrue;
    forall i, j | 0 <= i < |HeadReport(f)| && 0 <= j < |TreeReport(f, rounds)|
      ensures HeadReport(f)[i].dist < TreeReport(f, rounds)[j].dist
    {
      TreeIsFarther(f, rounds, i, j);
    }
    JoinTrue(f.data, Nodes(Bucket(f, CurHash(f))), Window(f), Cur(f.r), f.n, HeadBest(f), HeadReport(f),
             TreeReport(f, rounds));
  }

  lemma TreeIsTrue(f: Finder, rounds: nat)
    requires Searching(f) && Falling(Bucket(f, CurHash(f)), Cur(f.r))
    ensures AllTrue(f.data, Nodes(Bucket(f, CurHash(f))), Cur(f.r), f.n, HeadBest(f), TreeReport(f, rounds))
  {
    hide Bucket;
    MatchesAreTrue(f.data, Bucket(f, CurHash(f)), Cur(f.r), f.n, rounds, HeadBest(f));
    NoneAreTrue(f.data, Nodes(Bucket(f, CurHash(f))), Cur(f.r), f.n, HeadBest(f));
  }

  lemma TreeIsFarther(f: Finder, rounds: nat, i: nat, j: nat)
    requires Searching(f) && ForestOk(f, false) && Falling(Bucket(f, CurHash(f)), Cur(f.r))
    requires i < |HeadReport(f)| && j < |TreeReport(f, rounds)|
    ensures HeadReport(f)[i].dist < TreeReport(f, rounds)[j].dist
  {
    TreeInWindow(f);
    TreeIsTrue(f, rounds);
    var m := TreeReport(f, rounds)[j];
    var x := Cur(f.r) - m.dist - 1;
    assert BucketOk(f, CurHash(f));
    assert TrueMatch(f.data, Nodes(Bucket(f, CurHash(f))), Cur(f.r), f.n, m);
    hide Bucket, HeadReport, HeadBest, TreeReport, Window;
    assert x in Window(f) && x + f.n <= |f.data|;
    HeadIsNearer(f, x, i);
  }

  lemma JoinTrue(data: seq<Byte>, xs: set<nat>, ys: set<nat>, c: nat, n: nat, best: nat, hs: seq<Match>, ms: seq<Match>)
    requires c + n <= |data| && xs <= ys && best >= 1
    requires AllTrue(data, ys, c, n, 1, hs) && (forall i | 0 <= i < |hs| :: hs[i].len <= best)
    requires AllTrue(data, xs, c, n, best, ms)
    requires forall i, j | 0 <= i < |hs| && 0 <= j < |ms| :: hs[i].dist < ms[j].dist
    ensures AllTrue(data, ys, c, n, 1, hs + ms)
  {
    hide Lcp;
    var all := hs + ms;
    forall i | 0 <= i < |all| ensures all[i].len > 1 && TrueMatch(data, ys, c, n, all[i]) {
      if i < |hs| {
        assert TrueMatch(data, ys, c, n, hs[i]);
      } else {
        assert TrueMatch(data, xs, c, n, ms[i - |hs|]);
      }
    }
    forall i, j | 0 <= i < j < |all| ensures all[i].len < all[j].len && all[i].dist < all[j].dist {
      if i < |hs| <= j {
        assert all[i] == hs[i] && all[j] == ms[j - |hs|];
      } else if |hs| <= i {
        assert all[i] == ms[i - |hs|] && all[j] == ms[j - |hs|];
      } else {
        assert all[i] == hs[i] && all[j] == hs[j];
      }
    }
  }

  /** The finder misses nothing: with enough rounds, every earlier position within the history that agrees
      with the current one on at least four bytes is matched by a report as long and as near, or better. */
  lemma ReportDominates(f: Finder, rounds: nat, x: nat)
    requires Searching(f) && ForestOk(f, true) && rounds >= f.r.cbs
    requires 0 < Cur(f.r) - x < f.r.cbs && Lcp(f.data, x, Cur(f.r), f.n) >= 4
    ensures Falling(Bucket(f, CurHash(f)), Cur(f.r))
    ensures Dominated(Report(f, rounds), Lcp(f.data, x, Cur(f.r), f.n), Cur(f.r) - x - 1)
  {
    WindowIsHistory(f, x);
    TreeInWindow(f);
    HeadIsTrue(f);
    var c, l := Cur(f.r), Lcp(f.data, x, Cur(f.r), f.n);
    LcpAgrees(f.data, x, c, f.n);
    if l <= HeadBest(f) {
      HeadDominates4(f, x);
      FirstDominates(HeadReport(f), TreeReport(f, rounds), l, c - x - 1);
    } else {
      TreeDominates(f, rounds, x);
      StillDominated(HeadReport(f), TreeReport(f, rounds), l, c - x - 1);
    }
  }

  lemma FirstDominates(first: seq<Match>, rest: seq<Match>, len: nat, dist: nat)
    requires Dominated(first, len, dist)
    ensures Dominated(first + rest, len, dist)
  {
    var i :| 0 <= i < |first| && first[i].len >= len && first[i].dist <= dist;
    assert (first + rest)[i] == first[i];
  }

  /** When the short tables already give at least the length, their entry is at least as near. */
  lemma HeadDominates4(f: Finder, x: nat)
    requires Searching(f) && ForestOk(f, false) && x in Window(f) && x + f.n <= |f.data|
    requires 4 <= Lcp(f.data, x, Cur(f.r), f.n) <= HeadBest(f)
    ensures Dominated(HeadReport(f), Lcp(f.data, x, Cur(f.r), f.n), Cur(f.r) - x - 1)
  {
    var l := Lcp(f.data, x, Cur(f.r), f.n);
    LcpAgrees(f.data, x, Cur(f.r), f.n);
    AgreeShrink(f.data, x, Cur(f.r), l, 3);
    AgreeShrink(f.data, x, Cur(f.r), l, 2);
    EntryNearest(f, false, x);
    EntryNearest(f, true, x);
    hide Lcp, ForestOk, Shaped, Ref;
    var i := if Usable(f, false) && !ThirdByteToo(f) then 1 else 0;
    assert HeadReport(f)[i].len == HeadBest(f) && HeadReport(f)[i].dist <= Cur(f.r) - x - 1;
  }

  lemma TreeDominates(f: Finder, rounds: nat, x: nat)
    requires Searching(f) && ForestOk(f, true) && rounds >= f.r.cbs && 3 <= HeadBest(f)
    requires x in Window(f) && x + f.n <= |f.data| && Lcp(f.data, x, Cur(f.r), f.n) > HeadBest(f)
    ensures Falling(Bucket(f, CurHash(f)), Cur(f.r))
    ensures Dominated(Matches(f.data, Bucket(f, CurHash(f)), Cur(f.r), f.n, rounds, HeadBest(f)),
                      Lcp(f.data, x, Cur(f.r), f.n), Cur(f.r) - x - 1)
  {
    TreeKnows(f, x);
    hide *;
    SmallTreesAreReached(f.data, Bucket(f, CurHash(f)), Cur(f.r), f.n, rounds);
    CoveredDominated(f.data, Bucket(f, CurHash(f)), Cur(f.r), f.n, rounds, HeadBest(f), x);
  }

  /** The tree of the current bucket has every position that agrees on four bytes, or one as good. */
  lemma TreeKnows(f: Finder, x: nat)
    requires Searching(f) && ForestOk(f, true)
    requires x in Window(f) && x + f.n <= |f.data| && Lcp(f.data, x, Cur(f.r), f.n) >= 4
    ensures Falling(Bucket(f, CurHash(f)), Cur(f.r)) && Sorted(f.data, Bucket(f, CurHash(f)), f.n)
    ensures Covered(f.data, Bucket(f, CurHash(f)), x, f.n) && |Nodes(Bucket(f, CurHash(f)))| < f.r.cbs
  {
    TreeInWindow(f);
    BucketIsSmall(f, CurHash(f));
    LcpAgrees(f.data, x, Cur(f.r), f.n);
    HashesAgree(f.hs, f.data, x, Cur(f.r), Lcp(f.data, x, Cur(f.r), f.n));
    hide H2, H3, H4, Falls, Lcp, Agree, Bucket, Falling, Covered, Sorted, EntryOk;
    assert BucketOk(f, CurHash(f)) && Remembered(f, x, true);
  }
}
