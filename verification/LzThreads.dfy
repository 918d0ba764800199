/** The three threads of the multithreaded finder and the two rings of blocks between them: a protocol of semaphores,
    events and locks, as a state machine over its atomic steps. */
module LzThreads {
  import opened Arith

  // ----- one ring with its writer and its reader -----

  /** Where the writer of a ring is: waiting for a start, for a free block, about to look at the stop flag, writing a
      block, or on its way out. */
  datatype Writer = Idle | Waiting | Got | Writing | Stopping

  /** Where the reader is: outside of any call, giving its block back, waiting for a block, waiting for the lock, or
      stopping the writer: about to set the stop flag, about to release the semaphore, waiting for the writer. */
  datatype Reader = Out | Freeing | Fetching | Entering | Leaving | Releasing | Joining

  datatype Lock = Open | ByReader | ByMover

  /** `processed` and `index` are the block counters of reader and writer. `ring` has, for each slot, the number of
      the block that is in it, or -1 while it is being written. `ready` holds from the initialisation to the start. */
  datatype Sync = Sync(n: nat, free: nat, filled: nat, needStart: bool, ready: bool, stop: bool, canStart: bool,
                       wasStopped: bool, lock: Lock, processed: nat, index: nat, ring: seq<int>, writer: Writer,
                       reader: Reader)

  /** The slot of a block. */
  function Slot(n: nat, k: nat): (i: nat)
    requires n > 0
    ensures i < n
  {
    k % n
  }

  // ----- steps of the reader -----

  function Start(s: Sync): Sync {
    s.(processed := 1, needStart := false, ready := false, stop := false, wasStopped := false, canStart := true,
       reader := Fetching)
  }

  function Unlock(s: Sync): Sync { s.(lock := Open, reader := Freeing) }

  function Release(s: Sync): Sync { s.(processed := s.processed + 1, free := s.free + 1, reader := Fetching) }

  function Fetch(s: Sync): Sync
    requires s.filled > 0
  {
    s.(filled := s.filled - 1, reader := Entering)
  }

  function Enter(s: Sync): Sync { s.(lock := ByReader, reader := Out) }

  function Leave(s: Sync): Sync { s.(lock := if s.lock == ByReader then Open else s.lock, reader := Leaving) }

  function SetStop(s: Sync): Sync { s.(stop := true, reader := Releasing) }

  function StopRelease(s: Sync): Sync { s.(free := s.free + 1, reader := Joining) }

  function Join(s: Sync): Sync { s.(wasStopped := false, needStart := true, reader := Out) }

  function Init(s: Sync): Sync { s.(free := s.n, filled := 0, ready := true) }

  // ----- steps of the writer -----

  function Begin(s: Sync): Sync { s.(canStart := false, index := 0, writer := Waiting) }

  function Take(s: Sync): Sync
    requires s.free > 0
  {
    s.(free := s.free - 1, writer := Got)
  }

  function Quit(s: Sync): Sync { s.(writer := Stopping) }

  /** Puts `v` into the slot of block `k`. */
  function Put(s: Sync, k: int, v: int): seq<int> {
    if k >= 0 && 0 < s.n && Slot(s.n, k) < |s.ring| then s.ring[Slot(s.n, k) := v] else s.ring
  }

  function Write(s: Sync): Sync { s.(index := s.index + 1, ring := Put(s, s.index, -1), writer := Writing) }

  function Fill(s: Sync): Sync {
    s.(filled := s.filled + 1, ring := Put(s, s.index - 1, s.index - 1), writer := Waiting)
  }

  function Stopped(s: Sync): Sync { s.(wasStopped := true, writer := Idle) }

  // ----- what every step keeps -----

  /** The blocks that have been written completely. */
  function Written(s: Sync): int { if s.writer == Writing then s.index - 1 else s.index }

  /** The blocks that have been fetched. */
  function Fetched(s: Sync): int { if s.reader == Fetching then s.processed - 1 else s.processed }

  /** The first block that has not been given back. */
  function First(s: Sync): int { if s.reader == Joining then s.processed else s.processed - 1 }

  function AtWriter(s: Sync): nat { if s.writer == Got || s.writer == Writing then 1 else 0 }

  function AtReader(s: Sync): nat { if s.reader == Fetching || s.reader == Joining then 0 else 1 }

  /** Every block is free, filled, at the writer or at the reader. One is lost when the writer quits. */
  ghost predicate Counted(s: Sync) {
    && s.free + s.filled + AtWriter(s) + AtReader(s) <= s.n
    && (!s.stop || s.writer == Waiting || s.writer == Got || s.writer == Writing ==>
          s.free + s.filled + AtWriter(s) + AtReader(s) == s.n)
  }

  /** The blocks that have been written and not given back are in their slots. */
  ghost predicate InPlace(s: Sync) {
    s.n == |s.ring| > 0 && forall k: nat | First(s) <= k < Written(s) :: s.ring[Slot(s.n, k)] == k
  }

  ghost predicate Running(s: Sync) {
    && s.processed > 0 && (s.writer == Writing ==> s.index > 0)
    && Counted(s) && s.filled == Written(s) - Fetched(s) && InPlace(s)
    && (s.stop <==> s.reader == Releasing || s.reader == Joining)
    && (s.writer == Stopping ==> s.stop)
    && (s.writer == Idle <==> s.wasStopped) && (s.wasStopped ==> s.stop)
    && (s.reader == Joining && (s.writer == Waiting || s.writer == Writing) ==> s.free > 0)
  }

  /** Before the writer has begun, its counter is that of the last run. */
  ghost predicate Starting(s: Sync) {
    && s.processed == 1 && s.reader == Fetching && s.writer == Idle && !s.wasStopped && !s.stop
    && s.free == s.n && s.filled == 0
  }

  ghost predicate SyncOk(s: Sync) {
    && s.n == |s.ring| > 0 && s.free <= s.n && s.filled <= s.n
    && (s.needStart ==> s.reader == Out && s.writer == Idle && !s.canStart && !s.wasStopped)
    && (s.ready ==> s.needStart && s.free == s.n && s.filled == 0)
    && (!s.needStart ==> if s.canStart then Starting(s) else Running(s))
  }

  lemma ReaderKeeps(s: Sync)
    requires SyncOk(s)
    ensures s.needStart && s.ready ==> SyncOk(Start(s))
    ensures s.needStart ==> SyncOk(Init(s))
    ensures !s.needStart && s.reader == Out ==> SyncOk(Unlock(s)) && SyncOk(Leave(s))
    ensures !s.needStart && s.reader == Freeing ==> SyncOk(Release(s))
    ensures s.reader == Fetching && s.filled > 0 ==> SyncOk(Fetch(s))
    ensures s.reader == Entering ==> SyncOk(Enter(s))
    ensures s.reader == Leaving ==> SyncOk(SetStop(s))
    ensures s.reader == Releasing ==> SyncOk(StopRelease(s))
    ensures s.reader == Joining && s.wasStopped ==> SyncOk(Join(s))
  {
    hide Slot;
  }

  /** Blocks fewer than `n` apart have different slots. */
  lemma SlotsDiffer(n: nat, j: nat, k: nat)
    requires n > 0 && j < k < j + n
    ensures Slot(n, j) != Slot(n, k)
  {
    if j % n == k % n { SameRemainder(j, k, n); }
  }

  lemma SameRemainder(j: nat, k: nat, n: nat)
    requires n > 0 && j < k && j % n == k % n
    ensures k >= j + n
  {
    assert j == n * (j / n) + j % n && k == n * (k / n) + k % n;
    if k / n <= j / n { MulMono(k / n, j / n, n); } else { MulMono(j / n + 1, k / n, n); }
  }

  /** The block that is written next lies in no slot that the reader still needs. */
  lemma WriteKeeps(s: Sync)
    requires SyncOk(s) && s.writer == Got && !s.stop
    ensures SyncOk(Write(s))
  {
    assert Written(s) - First(s) < s.n;
    forall k: nat | First(s) <= k < Written(s) ensures Slot(s.n, k) != Slot(s.n, s.index) {
      SlotsDiffer(s.n, k, s.index);
    }
  }

  lemma FillKeeps(s: Sync)
    requires SyncOk(s) && s.writer == Writing
    ensures s.index > 0 && SyncOk(Fill(s))
  {
    hide Slot;
    var w: nat, t := s.index - 1, Fill(s);
    assert w - First(s) < s.n;
    forall k: nat | First(s) <= k < w ensures Slot(s.n, k) != Slot(s.n, w) { SlotsDiffer(s.n, k, w); }
    assert InPlace(t) by {
      forall k: nat | First(t) <= k < Written(t) ensures t.ring[Slot(t.n, k)] == k {
        if k < w { assert s.ring[Slot(s.n, k)] == k; }
      }
    }
  }

  lemma WriterKeeps(s: Sync)
    requires SyncOk(s)
    ensures s.writer == Idle && s.canStart ==> SyncOk(Begin(s))
    ensures s.writer == Waiting && s.free > 0 ==> SyncOk(Take(s))
    ensures s.writer == Got && s.stop ==> SyncOk(Quit(s))
    ensures s.writer == Stopping ==> SyncOk(Stopped(s))
  {
    hide Slot;
  }

  // ----- three threads -----

  /** Where the tree thread is while it fills a block: before it takes the lock of the hash ring, at work, or done. */
  datatype Filling = None | Locking | Working | Done

  /** How many locks the hash thread holds to move the window. */
  datatype Moving = Steady | OneLock | BothLocks

  /** How many positions of the stream a block may cover, how many blocks the rings have, and how many bytes before
      the position of the coder are to stay in the window. */
  datatype Limits = Limits(hashBlocks: nat, btBlocks: nat, hashCap: nat, btCap: nat, history: nat)

  /** The positions that one ring and the other have room for. */
  function Lead(l: Limits): nat { l.hashBlocks * l.hashCap + l.btBlocks * l.btCap }

  /** The positions covered by each complete block of this run; how many positions the tree thread and the coder have
      gone through; the position of the stream at which the window begins; and the pointers of the three threads, as
      offsets in the window. */
  datatype Places = Places(hashSizes: seq<nat>, btSizes: seq<nat>, pos: nat, lzPos: nat, origin: int,
                           mfBuffer: int, buffer: int, pointerToCurPos: int)

  /** The hash thread writes `hash`, which the tree thread reads; the tree thread writes `bt`, which the coder reads. */
  datatype System = System(hash: Sync, bt: Sync, filling: Filling, moving: Moving, at: Places, limits: Limits)

  /** The positions covered by the first `k` blocks. */
  function Total(sizes: seq<nat>, k: nat): nat
    requires k <= |sizes|
  {
    if k == 0 then 0 else Total(sizes, k - 1) + sizes[k - 1]
  }

  function All(sizes: seq<nat>): nat { Total(sizes, |sizes|) }

  /** The block that the reader holds ends at or behind this position. */
  predicate InBlock(s: Sync, sizes: seq<nat>, pos: nat) {
    s.processed <= |sizes| && pos <= Total(sizes, s.processed)
  }

  /** The reader has used up its block. */
  predicate UsedUp(s: Sync, sizes: seq<nat>, pos: nat) {
    s.processed <= |sizes| && pos == Total(sizes, s.processed)
  }

  /** The steps of the coder, `L`, of the tree thread, `T`, and of the hash thread, `H`. In `LWork` and `TWork` a
      reader goes through positions of its block, `HFill` completes a block of so many positions, and `HMove` moves
      the window. */
  datatype Action =
    | LInit | LStart | LWork(count: nat) | LUnlock | LRelease | LFetch | LEnter
    | LLeave | LSetStop | LStopRelease | LJoin
    | TBegin | TTake | TQuit | TWrite | TLock | TStart | TWork(count: nat) | TUnlock | TRelease | TFetch | TEnter
    | TDone | TFill | TLeave | TSetStop | TStopRelease | TJoin | TStopped
    | HBegin | HTake | HQuit | HWrite | HFill(count: nat) | HStopped | HLockOne | HLockTwo | HMove(shift: nat)

  // ----- positions -----

  ghost predicate Capped(sizes: seq<nat>, cap: nat) { forall i | 0 <= i < |sizes| :: sizes[i] <= cap }

  lemma {:induction false} TotalOfBeginning(sizes: seq<nat>, x: nat, k: nat)
    requires k <= |sizes|
    ensures Total(sizes + [x], k) == Total(sizes, k)
    decreases k
  {
    if k > 0 { TotalOfBeginning(sizes, x, k - 1); }
  }

  lemma AllOfMore(sizes: seq<nat>, x: nat)
    ensures All(sizes + [x]) == All(sizes) + x
  {
    TotalOfBeginning(sizes, x, |sizes|);
  }

  lemma {:induction false} TotalGap(sizes: seq<nat>, cap: nat, j: nat, k: nat)
    requires Capped(sizes, cap) && j <= k <= |sizes|
    ensures Total(sizes, j) <= Total(sizes, k) <= Total(sizes, j) + Times(k - j, cap)
    decreases k
  {
    if j < k {
      TotalGap(sizes, cap, j, k - 1);
      MulSucc(k - 1 - j, cap);
    }
  }

  /** How far the reader has come: at the start of its block before it has the lock, at its end when it gives it
      back, and in between while it reads. */
  ghost predicate Reached(s: Sync, sizes: seq<nat>, pos: nat) {
    && 1 <= s.processed <= |sizes| + 1
    && if s.reader == Fetching then pos == Total(sizes, s.processed - 1)
       else
         && s.processed <= |sizes|
         && Total(sizes, s.processed - 1) <= pos <= Total(sizes, s.processed)
         && (s.reader == Entering ==> pos == Total(sizes, s.processed - 1))
         && (s.reader == Freeing ==> pos == Total(sizes, s.processed))
  }

  /** `sizes` are the positions covered by each block written in this run, and the reader has reached `pos`. */
  ghost predicate Reads(s: Sync, sizes: seq<nat>, pos: nat) {
    && (s.ready || s.canStart ==> sizes == [] && pos == 0)
    && (s.needStart || s.canStart || |sizes| == Written(s))
    && (!s.needStart ==> Reached(s, sizes, pos))
  }

  lemma ReaderReads(s: Sync, sizes: seq<nat>, pos: nat)
    requires SyncOk(s) && Reads(s, sizes, pos)
    ensures s.needStart && s.ready ==> Reads(Start(s), sizes, pos)
    ensures s.needStart ==> Reads(Init(s), [], 0)
    ensures !s.needStart && s.reader == Out && UsedUp(s, sizes, pos) ==> Reads(Unlock(s), sizes, pos)
    ensures !s.needStart && s.reader == Out ==> Reads(Leave(s), sizes, pos)
    ensures !s.needStart && s.reader == Freeing ==> Reads(Release(s), sizes, pos)
    ensures s.reader == Fetching && s.filled > 0 ==> Reads(Fetch(s), sizes, pos)
    ensures s.reader == Entering ==> Reads(Enter(s), sizes, pos)
    ensures s.reader == Leaving ==> Reads(SetStop(s), sizes, pos)
    ensures s.reader == Releasing ==> Reads(StopRelease(s), sizes, pos)
    ensures s.reader == Joining && s.wasStopped ==> Reads(Join(s), sizes, pos)
  {
    hide Slot, InPlace;
  }

  lemma WriterReads(s: Sync, sizes: seq<nat>, pos: nat)
    requires SyncOk(s) && Reads(s, sizes, pos)
    ensures s.writer == Idle && s.canStart ==> Reads(Begin(s), sizes, pos)
    ensures s.writer == Waiting && s.free > 0 ==> Reads(Take(s), sizes, pos)
    ensures s.writer == Got && s.stop ==> Reads(Quit(s), sizes, pos)
    ensures s.writer == Got && !s.stop ==> Reads(Write(s), sizes, pos)
    ensures s.writer == Stopping ==> Reads(Stopped(s), sizes, pos)
  {
    hide Slot, InPlace, Put;
  }

  lemma FillReads(s: Sync, sizes: seq<nat>, pos: nat, x: nat)
    requires SyncOk(s) && Reads(s, sizes, pos) && s.writer == Writing
    ensures Reads(Fill(s), sizes + [x], pos)
  {
    hide Slot, InPlace, Put;
    if !s.needStart {
      TotalOfBeginning(sizes, x, s.processed - 1);
      if s.processed <= |sizes| { TotalOfBeginning(sizes, x, s.processed); }
    }
  }

  /** While the writer has not been told to stop, the reader is no farther behind than the blocks have room for. */
  lemma ReaderNear(s: Sync, sizes: seq<nat>, pos: nat, cap: nat)
    requires SyncOk(s) && Reads(s, sizes, pos) && Capped(sizes, cap) && !s.needStart && !s.stop
    ensures s.n > 0 && pos <= All(sizes)
    ensures All(sizes) <= pos + Times(if s.writer == Writing then s.n - 1 else s.n, cap)
  {
    hide Slot, InPlace, Total;
    TotalGap(sizes, cap, s.processed - 1, |sizes|);
    if s.processed <= |sizes| { TotalGap(sizes, cap, s.processed, |sizes|); }
    MulMono(|sizes| - (s.processed - 1), if s.writer == Writing then s.n - 1 else s.n, cap);
  }

  predicate Calling(y: System) { y.bt.writer == Writing && y.filling == Working }

  /** When a thread can take a step. Blocks are given back only when they have been used up; the tree thread stops
      before its own block is full; and the window is moved only when enough bytes lie before the hash thread. */
  predicate Can(y: System, a: Action) {
    var h, b, p := y.hash, y.bt, y.at;
    match a
    case LInit => b.needStart
    case LStart => b.reader == Out && b.needStart && b.ready
    case LWork(count) => b.reader == Out && !b.needStart && InBlock(b, p.btSizes, p.lzPos + count)
    case LUnlock => b.reader == Out && !b.needStart && UsedUp(b, p.btSizes, p.lzPos)
    case LRelease => b.reader == Freeing
    case LFetch => b.reader == Fetching && b.filled > 0
    case LEnter => b.reader == Entering && b.lock == Open
    case LLeave => b.reader == Out && !b.needStart
    case LSetStop => b.reader == Leaving
    case LStopRelease => b.reader == Releasing
    case LJoin => b.reader == Joining && b.wasStopped
    case TBegin => b.writer == Idle && b.canStart
    case TTake => b.writer == Waiting && b.free > 0
    case TQuit => b.writer == Got && b.stop
    case TWrite => b.writer == Got && !b.stop
    case TLock => b.writer == Writing && y.filling == Locking && (h.needStart || h.lock == Open)
    case TStart => Calling(y) && h.reader == Out && h.needStart
    case TWork(count) =>
      && Calling(y) && h.reader == Out && !h.needStart
      && InBlock(h, p.hashSizes, p.pos + count) && p.pos + count <= All(p.btSizes) + y.limits.btCap
    case TUnlock => Calling(y) && h.reader == Out && !h.needStart && UsedUp(h, p.hashSizes, p.pos)
    case TRelease => Calling(y) && h.reader == Freeing
    case TFetch => Calling(y) && h.reader == Fetching && h.filled > 0
    case TEnter => Calling(y) && h.reader == Entering && h.lock == Open
    case TDone => Calling(y) && h.reader == Out && !h.needStart
    case TFill => b.writer == Writing && y.filling == Done
    case TLeave => b.writer == Stopping && h.reader == Out && !h.needStart
    case TSetStop => b.writer == Stopping && h.reader == Leaving
    case TStopRelease => b.writer == Stopping && h.reader == Releasing
    case TJoin => b.writer == Stopping && h.reader == Joining && h.wasStopped
    case TStopped => b.writer == Stopping && h.reader == Out && h.needStart
    case HBegin => h.writer == Idle && h.canStart
    case HTake => h.writer == Waiting && y.moving == Steady && h.free > 0
    case HQuit => h.writer == Got && h.stop
    case HWrite => h.writer == Got && !h.stop
    case HFill(count) => h.writer == Writing && count <= y.limits.hashCap
    case HStopped => h.writer == Stopping
    case HLockOne =>
      h.writer == Waiting && y.moving == Steady && b.lock == Open && p.mfBuffer >= y.limits.history + Lead(y.limits)
    case HLockTwo => y.moving == OneLock && h.lock == Open
    case HMove(shift) => y.moving == BothLocks && shift + y.limits.history + Lead(y.limits) <= p.mfBuffer
  }

  ghost predicate SystemOk(y: System) {
    && SyncOk(y.hash) && SyncOk(y.bt)
    && (y.bt.needStart ==> y.hash.needStart && (y.bt.ready ==> y.hash.ready))
    && (y.bt.canStart ==> y.hash.needStart && y.hash.ready)
    && (!y.bt.needStart && y.hash.needStart && y.bt.writer != Stopping && y.bt.writer != Idle ==> y.hash.ready)
    && (!y.bt.needStart && y.bt.wasStopped ==> y.hash.needStart)
    && (y.bt.writer == Writing <==> y.filling != None)
    && (y.filling == Done ==> !y.hash.needStart)
    && (y.hash.reader != Out ==>
          if y.hash.reader == Leaving || y.hash.reader == Releasing || y.hash.reader == Joining
          then y.bt.writer == Stopping else Calling(y))
    && (y.bt.lock == ByReader <==> y.bt.reader == Out && !y.bt.needStart)
    && (y.hash.lock == ByReader <==> Calling(y) && y.hash.reader == Out && !y.hash.needStart)
    && (y.bt.lock == ByMover <==> y.moving != Steady) && (y.hash.lock == ByMover <==> y.moving == BothLocks)
    && (y.moving != Steady ==>
          y.hash.writer == Waiting && y.at.mfBuffer >= y.limits.history + Lead(y.limits))
  }

  function After(y: System, a: Action): System
    requires Can(y, a)
  {
    var h, b, p := y.hash, y.bt, y.at;
    match a
    case LInit => y.(hash := Init(h), bt := Init(b), at := Places([], [], 0, 0, 0, 0, 0, 0))
    case LStart => y.(bt := Start(b))
    case LWork(count) => y.(at := p.(lzPos := p.lzPos + count, pointerToCurPos := p.pointerToCurPos + count))
    case LUnlock => y.(bt := Unlock(b))
    case LRelease => y.(bt := Release(b))
    case LFetch => y.(bt := Fetch(b))
    case LEnter => y.(bt := Enter(b))
    case LLeave => y.(bt := Leave(b))
    case LSetStop => y.(bt := SetStop(b))
    case LStopRelease => y.(bt := StopRelease(b))
    case LJoin => y.(bt := Join(b))
    case TBegin => y.(bt := Begin(b))
    case TTake => y.(bt := Take(b))
    case TQuit => y.(bt := Quit(b))
    case TWrite => y.(bt := Write(b), filling := Locking)
    case TLock => y.(hash := if h.needStart then h else h.(lock := ByReader), filling := Working)
    case TStart => y.(hash := Start(h))
    case TWork(count) => y.(at := p.(pos := p.pos + count, buffer := p.buffer + count))
    case TUnlock => y.(hash := Unlock(h))
    case TRelease => y.(hash := Release(h))
    case TFetch => y.(hash := Fetch(h))
    case TEnter => y.(hash := Enter(h))
    case TDone => y.(hash := h.(lock := Open), filling := Done)
    case TFill =>
      y.(bt := Fill(b), filling := None, at := p.(btSizes := p.btSizes + [Minus(p.pos, All(p.btSizes))]))
    case TLeave => y.(hash := Leave(h))
    case TSetStop => y.(hash := SetStop(h))
    case TStopRelease => y.(hash := StopRelease(h))
    case TJoin => y.(hash := Join(h))
    case TStopped => y.(bt := Stopped(b))
    case HBegin => y.(hash := Begin(h))
    case HTake => y.(hash := Take(h))
    case HQuit => y.(hash := Quit(h))
    case HWrite => y.(hash := Write(h))
    case HFill(count) =>
      y.(hash := Fill(h), at := p.(hashSizes := p.hashSizes + [count], mfBuffer := p.mfBuffer + count))
    case HStopped => y.(hash := Stopped(h))
    case HLockOne => y.(bt := b.(lock := ByMover), moving := OneLock)
    case HLockTwo => y.(hash := h.(lock := ByMover), moving := BothLocks)
    case HMove(shift) =>
      y.(hash := h.(lock := Open), bt := b.(lock := Open), moving := Steady,
         at := p.(origin := p.origin + shift, mfBuffer := p.mfBuffer - shift, buffer := p.buffer - shift,
                  pointerToCurPos := p.pointerToCurPos - shift))
  }

  /** The places of the three threads: both readers are inside the blocks of their rings; the tree thread is as far
      ahead of its complete blocks as its unfinished one has room for; the pointers name the bytes at the positions of
      their threads, wherever the window has been moved to; and a window that has been moved keeps the history. */
  ghost predicate PlacesOk(y: System) {
    var h, b, p, l := y.hash, y.bt, y.at, y.limits;
    && h.n == l.hashBlocks && b.n == l.btBlocks && Capped(p.hashSizes, l.hashCap) && Capped(p.btSizes, l.btCap)
    && Reads(h, p.hashSizes, p.pos) && Reads(b, p.btSizes, p.lzPos)
    && All(p.btSizes) <= p.pos <= All(p.btSizes) + (if b.writer == Writing then l.btCap else 0)
    && PointersOk(p) && (p.origin == 0 || 0 < p.origin <= All(p.hashSizes) - l.history - Lead(l))
  }

  ghost predicate PointersOk(p: Places) {
    && p.origin + p.mfBuffer == All(p.hashSizes) && p.origin + p.buffer == p.pos
    && p.origin + p.pointerToCurPos == p.lzPos
  }

  /** Changing hands, the lock says nothing about blocks. */
  lemma LockKeeps(s: Sync, l: Lock)
    requires SyncOk(s)
    ensures SyncOk(s.(lock := l))
  {
    hide Slot;
  }

  lemma SyncFacts(s: Sync)
    requires SyncOk(s)
    ensures s.n == |s.ring| > 0 && s.free <= s.n && s.filled <= s.n
    ensures s.needStart ==> s.reader == Out && s.writer == Idle && !s.canStart && !s.wasStopped
    ensures s.ready ==> s.needStart
    ensures s.canStart ==> !s.needStart && s.writer == Idle && s.reader == Fetching && !s.stop && !s.wasStopped
    ensures !s.needStart && !s.canStart ==> (s.writer == Idle <==> s.wasStopped)
    ensures !s.needStart ==> (s.stop <==> s.reader == Releasing || s.reader == Joining)
    ensures s.writer == Stopping ==> s.stop
    ensures s.writer == Writing ==> s.index > 0
    ensures s.wasStopped ==> s.stop && s.writer == Idle && !s.needStart
  {
    hide Slot;
  }

  lemma WritesKeep(s: Sync)
    requires SyncOk(s)
    ensures s.writer == Got && !s.stop ==> SyncOk(Write(s))
    ensures s.writer == Writing ==> s.index > 0 && SyncOk(Fill(s))
  {
    if s.writer == Got && !s.stop { WriteKeeps(s); }
    if s.writer == Writing { FillKeeps(s); }
  }

  predicate OfCoder(a: Action) {
    a.LInit? || a.LStart? || a.LWork? || a.LUnlock? || a.LRelease? || a.LFetch? || a.LEnter? || a.LLeave?
    || a.LSetStop? || a.LStopRelease? || a.LJoin?
  }

  predicate OfHash(a: Action) {
    a.HBegin? || a.HTake? || a.HQuit? || a.HWrite? || a.HFill? || a.HStopped? || a.HLockOne? || a.HLockTwo?
    || a.HMove?
  }

  /** The steps of the tree thread as writer of its ring. */
  predicate OfWriter(a: Action) {
    a.TBegin? || a.TTake? || a.TQuit? || a.TWrite? || a.TFill? || a.TStopped?
  }

  lemma CoderKeeps(y: System, a: Action)
    requires SystemOk(y) && Can(y, a) && OfCoder(a)
    ensures SystemOk(After(y, a))
  {
    hide SyncOk, Slot;
    SyncFacts(y.hash);
    SyncFacts(y.bt);
    ReaderKeeps(y.hash);
    ReaderKeeps(y.bt);
  }

  lemma WriterStepKeeps(y: System, a: Action)
    requires SystemOk(y) && Can(y, a) && OfWriter(a)
    ensures SystemOk(After(y, a))
  {
    hide SyncOk, Slot;
    SyncFacts(y.hash);
    SyncFacts(y.bt);
    WriterKeeps(y.bt);
    WritesKeep(y.bt);
  }

  lemma TreeKeeps(y: System, a: Action)
    requires SystemOk(y) && Can(y, a) && !OfCoder(a) && !OfHash(a) && !OfWriter(a)
    ensures SystemOk(After(y, a))
  {
    hide SyncOk, Slot;
    SyncFacts(y.hash);
    SyncFacts(y.bt);
    ReaderKeeps(y.hash);
    LockKeeps(y.hash, ByReader);
    LockKeeps(y.hash, Open);
  }

  predicate OfMover(a: Action) { a.HLockOne? || a.HLockTwo? || a.HMove? }

  /** The steps of the hash thread as writer of its ring, but for the one that completes a block. */
  lemma HashSteps(y: System, a: Action)
    requires Can(y, a) && OfHash(a) && !OfMover(a) && !a.HFill?
    ensures var h, next := y.hash, After(y, a).hash;
      && After(y, a) == y.(hash := next)
      && ((h.writer == Idle && h.canStart && next == Begin(h))
          || (h.writer == Waiting && y.moving == Steady && h.free > 0 && next == Take(h))
          || (h.writer == Got && h.stop && next == Quit(h)) || (h.writer == Got && !h.stop && next == Write(h))
          || (h.writer == Stopping && next == Stopped(h)))
  {
    hide Begin, Take, Quit, Write, Stopped, Lead, InBlock, UsedUp, All, Calling;
  }

  lemma HashKeeps(y: System, a: Action)
    requires SystemOk(y) && Can(y, a) && OfHash(a) && !OfMover(a) && !a.HFill?
    ensures SystemOk(After(y, a))
  {
    hide SyncOk, Slot, Can, After, OfHash, OfMover, Put, Lead;
    SyncFacts(y.hash);
    SyncFacts(y.bt);
    HashSteps(y, a);
    WriterKeeps(y.hash);
    WritesKeep(y.hash);
  }

  lemma FillStep(y: System, a: Action)
    requires Can(y, a) && a.HFill?
    ensures var z := After(y, a);
      && y.hash.writer == Writing && a.count <= y.limits.hashCap
      && z == y.(hash := Fill(y.hash),
                 at := y.at.(hashSizes := y.at.hashSizes + [a.count], mfBuffer := y.at.mfBuffer + a.count))
  {
    hide Fill, Lead, InBlock, UsedUp, All, Calling;
  }

  lemma FillStepKeeps(y: System, a: Action)
    requires SystemOk(y) && Can(y, a) && a.HFill?
    ensures SystemOk(After(y, a))
  {
    hide SyncOk, Slot, Can, After, Put, Lead;
    SyncFacts(y.hash);
    SyncFacts(y.bt);
    FillStep(y, a);
    WritesKeep(y.hash);
  }

  lemma MoverKeeps(y: System, a: Action)
    requires SystemOk(y) && Can(y, a) && OfMover(a)
    ensures SystemOk(After(y, a))
  {
    hide SyncOk, Slot;
    SyncFacts(y.hash);
    SyncFacts(y.bt);
    LockKeeps(y.hash, ByMover);
    LockKeeps(y.hash, Open);
    LockKeeps(y.bt, ByMover);
    LockKeeps(y.bt, Open);
  }

  /** Whatever thread takes the next step. */
  lemma StepKeeps(y: System, a: Action)
    requires SystemOk(y) && Can(y, a)
    ensures SystemOk(After(y, a))
  {
    hide SystemOk, Can;
    if OfCoder(a) {
      CoderKeeps(y, a);
    } else if OfMover(a) {
      MoverKeeps(y, a);
    } else if a.HFill? {
      FillStepKeeps(y, a);
    } else if OfHash(a) {
      HashKeeps(y, a);
    } else if OfWriter(a) {
      WriterStepKeeps(y, a);
    } else {
      TreeKeeps(y, a);
    }
  }

  lemma NoBlocks(cap: nat)
    ensures All([]) == 0 && Capped([], cap)
  {}

  lemma CappedMore(sizes: seq<nat>, x: nat, cap: nat)
    requires Capped(sizes, cap) && x <= cap
    ensures Capped(sizes + [x], cap)
  {}

  lemma LockReads(s: Sync, l: Lock, sizes: seq<nat>, pos: nat)
    requires Reads(s, sizes, pos)
    ensures Reads(s.(lock := l), sizes, pos)
  {}

  lemma WorkReads(s: Sync, sizes: seq<nat>, pos: nat, next: nat)
    requires Reads(s, sizes, pos) && s.reader == Out && !s.needStart && !s.ready && !s.canStart
    requires pos <= next && InBlock(s, sizes, next)
    ensures Reads(s, sizes, next)
  {}

  lemma SystemSync(y: System)
    requires SystemOk(y)
    ensures SyncOk(y.hash) && SyncOk(y.bt)
  {}

  lemma InitPlaces(y: System)
    requires SystemOk(y) && PlacesOk(y) && Can(y, LInit)
    ensures PlacesOk(After(y, LInit))
  {
    hide SyncOk, Slot, Lead, Total, All, Reads, Capped, InBlock, UsedUp;
    SyncFacts(y.hash);
    SyncFacts(y.bt);
    ReaderReads(y.hash, y.at.hashSizes, y.at.pos);
    ReaderReads(y.bt, y.at.btSizes, y.at.lzPos);
    NoBlocks(y.limits.hashCap);
    NoBlocks(y.limits.btCap);
  }

  lemma CoderPlaces(y: System, a: Action)
    requires SystemOk(y) && PlacesOk(y) && Can(y, a) && OfCoder(a) && !a.LInit?
    ensures PlacesOk(After(y, a))
  {
    hide SystemOk, SyncOk, Slot, Lead, Total, All, Reads, Capped, InBlock, UsedUp;
    SystemSync(y);
    SyncFacts(y.bt);
    ReaderReads(y.bt, y.at.btSizes, y.at.lzPos);
    if a.LWork? { WorkReads(y.bt, y.at.btSizes, y.at.lzPos, y.at.lzPos + a.count); }
  }

  lemma TreePlaces(y: System, a: Action)
    requires SystemOk(y) && PlacesOk(y) && Can(y, a) && !OfCoder(a) && !OfHash(a)
    ensures PlacesOk(After(y, a))
  {
    hide SyncOk, Slot, Lead, Total, All, Reads, Capped, InBlock, UsedUp, Put;
    SyncFacts(y.hash);
    SyncFacts(y.bt);
    ReaderReads(y.hash, y.at.hashSizes, y.at.pos);
    WriterReads(y.bt, y.at.btSizes, y.at.lzPos);
    LockReads(y.hash, Open, y.at.hashSizes, y.at.pos);
    LockReads(y.hash, ByReader, y.at.hashSizes, y.at.pos);
    if a.TWork? { WorkReads(y.hash, y.at.hashSizes, y.at.pos, y.at.pos + a.count); }
    if a.TFill? {
      var x := y.at.pos - All(y.at.btSizes);
      FillReads(y.bt, y.at.btSizes, y.at.lzPos, x);
      AllOfMore(y.at.btSizes, x);
      CappedMore(y.at.btSizes, x, y.limits.btCap);
    }
  }

  /** A step that changes nothing but the counters of the hash ring. */
  lemma OtherHash(y: System, h: Sync)
    requires PlacesOk(y) && h.n == y.hash.n && Reads(h, y.at.hashSizes, y.at.pos)
    ensures PlacesOk(y.(hash := h))
  {
    hide Reads, Lead, All, Capped, PointersOk;
  }

  lemma HashPlaces(y: System, a: Action)
    requires SystemOk(y) && PlacesOk(y) && Can(y, a) && OfHash(a) && !OfMover(a) && !a.HFill?
    ensures PlacesOk(After(y, a))
  {
    hide SystemOk, PlacesOk, SyncOk, Reads, Can, After, OfHash, OfMover, Put;
    SystemSync(y);
    PlacesRead(y);
    WriterReads(y.hash, y.at.hashSizes, y.at.pos);
    HashSteps(y, a);
    OtherHash(y, After(y, a).hash);
  }

  lemma PlacesRead(y: System)
    requires PlacesOk(y)
    ensures Reads(y.hash, y.at.hashSizes, y.at.pos) && Reads(y.bt, y.at.btSizes, y.at.lzPos)
  {}

  lemma FillPlaces(y: System, a: Action)
    requires SystemOk(y) && PlacesOk(y) && Can(y, a) && a.HFill?
    ensures PlacesOk(After(y, a))
  {
    hide SystemOk, SyncOk, Lead, Total, All, Reads, Capped, InBlock, UsedUp, Put, Can, After;
    SystemSync(y);
    FillStep(y, a);
    FillReads(y.hash, y.at.hashSizes, y.at.pos, a.count);
    AllOfMore(y.at.hashSizes, a.count);
    CappedMore(y.at.hashSizes, a.count, y.limits.hashCap);
  }

  lemma MoverPlaces(y: System, a: Action)
    requires PlacesOk(y) && Can(y, a) && OfMover(a)
    ensures PlacesOk(After(y, a))
  {
    hide SystemOk, SyncOk, Slot, Lead, Total, All, Reads, Capped, InBlock, UsedUp, Put;
    LockReads(y.hash, Open, y.at.hashSizes, y.at.pos);
    LockReads(y.hash, ByMover, y.at.hashSizes, y.at.pos);
    LockReads(y.bt, Open, y.at.btSizes, y.at.lzPos);
    LockReads(y.bt, ByMover, y.at.btSizes, y.at.lzPos);
  }

  lemma PlacesKept(y: System, a: Action)
    requires SystemOk(y) && PlacesOk(y) && Can(y, a)
    ensures PlacesOk(After(y, a))
  {
    hide SystemOk, Can, PlacesOk, After;
    if a.LInit? {
      InitPlaces(y);
    } else if OfCoder(a) {
      CoderPlaces(y, a);
    } else if OfMover(a) {
      MoverPlaces(y, a);
    } else if a.HFill? {
      FillPlaces(y, a);
    } else if OfHash(a) {
      HashPlaces(y, a);
    } else {
      TreePlaces(y, a);
    }
  }

  // ----- runs -----

  /** A ring before its first use. */
  function Unused(n: nat): Sync {
    Sync(n, 0, 0, true, false, false, false, false, Open, 0, 0, seq(n, i => -1), Idle, Out)
  }

  function Begun(l: Limits): System {
    System(Unused(l.hashBlocks), Unused(l.btBlocks), None, Steady, Places([], [], 0, 0, 0, 0, 0, 0), l)
  }

  /** A run: any interleaving of the three threads. */
  ghost predicate Run(y: System, steps: seq<Action>, z: System)
    decreases |steps|
  {
    if steps == [] then y == z
    else Can(y, steps[0]) && Run(After(y, steps[0]), steps[1..], z)
  }

  lemma {:induction false} RunKeeps(y: System, steps: seq<Action>, z: System)
    requires SystemOk(y) && PlacesOk(y) && Run(y, steps, z)
    ensures SystemOk(z) && PlacesOk(z) && z.limits == y.limits
    decreases |steps|
  {
    hide SystemOk, Can, After, PlacesOk;
    if steps != [] {
      StepKeeps(y, steps[0]);
      PlacesKept(y, steps[0]);
      SameLimits(y, steps[0]);
      RunKeeps(After(y, steps[0]), steps[1..], z);
    }
  }

  lemma SameLimits(y: System, a: Action)
    requires Can(y, a)
    ensures After(y, a).limits == y.limits
  {}

  lemma BegunOk(l: Limits)
    requires l.hashBlocks > 0 && l.btBlocks > 0
    ensures SystemOk(Begun(l)) && PlacesOk(Begun(l))
  {}

  /** The reader holds a block: it has been fetched and not given back. */
  predicate Holds(s: Sync) { !s.needStart && (s.reader == Entering || s.reader == Out || s.reader == Freeing) }

  /** The reader finds in its slot the block of its number, complete; the block that is being written, if any, is in
      another slot; the writer is at most `n` blocks ahead; and no semaphore is above its maximum. */
  ghost predicate RingSafe(s: Sync) {
    && s.n == |s.ring| > 0 && s.free <= s.n && s.filled <= s.n
    && (Holds(s) ==> s.processed > 0 && s.ring[Slot(s.n, s.processed - 1)] == s.processed - 1)
    && (Holds(s) && s.writer == Writing ==>
          s.index > 0 && Slot(s.n, s.index - 1) != Slot(s.n, s.processed - 1))
    && (Holds(s) ==> s.processed <= s.index <= s.processed - 1 + s.n)
  }

  lemma SyncSafe(s: Sync)
    requires SyncOk(s)
    ensures RingSafe(s)
  {
    if Holds(s) {
      assert Running(s) && First(s) == s.processed - 1 < Written(s);
      if s.writer == Writing { SlotsDiffer(s.n, s.processed - 1, s.index - 1); }
      hide Slot;
    }
  }

  /** The window is moved only while nobody reads: neither ring has a block that is being read. */
  ghost predicate MoveSafe(y: System) {
    y.moving == BothLocks ==>
      !(y.bt.reader == Out && !y.bt.needStart) && !(Calling(y) && y.hash.reader == Out && !y.hash.needStart)
  }

  /** Locks are left only by those who entered them, and entered only by those who have not. */
  ghost predicate LocksMatch(y: System) {
    && (Can(y, LUnlock) ==> y.bt.lock == ByReader) && (Can(y, LEnter) ==> y.bt.lock == Open)
    && (Can(y, TUnlock) || Can(y, TDone) ==> y.hash.lock == ByReader)
    && (Can(y, TLock) || Can(y, TEnter) || Can(y, TLeave) ==> y.hash.lock != ByReader)
    && (Can(y, TStart) ==> y.hash.ready)
  }

  /** In every interleaving of the three threads: both rings are safe, the window is moved safely, and when the
      coder has stopped, both other threads have come to rest. */
  lemma EveryRunIsSafe(l: Limits, steps: seq<Action>, z: System)
    requires l.hashBlocks > 0 && l.btBlocks > 0 && Run(Begun(l), steps, z)
    ensures RingSafe(z.hash) && RingSafe(z.bt) && MoveSafe(z) && LocksMatch(z)
    ensures z.bt.needStart ==> z.bt.writer == Idle && z.hash.writer == Idle && z.hash.needStart
  {
    hide SystemOk, PlacesOk, Run, RingSafe, MoveSafe, LocksMatch;
    BegunOk(l);
    RunKeeps(Begun(l), steps, z);
    OkIsSafe(z);
    OkLocks(z);
  }

  lemma OkIsSafe(z: System)
    requires SystemOk(z)
    ensures RingSafe(z.hash) && RingSafe(z.bt) && MoveSafe(z)
    ensures z.bt.needStart ==> z.bt.writer == Idle && z.hash.writer == Idle && z.hash.needStart
  {
    hide SyncOk, RingSafe;
    SyncSafe(z.hash);
    SyncSafe(z.bt);
    SyncFacts(z.hash);
    SyncFacts(z.bt);
  }

  lemma OkLocks(z: System)
    requires SystemOk(z)
    ensures LocksMatch(z)
  {
    hide SyncOk;
    SyncFacts(z.hash);
    SyncFacts(z.bt);
  }

  /** While the coder has a run going, no thread is more than the room of the rings ahead of it, and the window,
      wherever it has been moved to, still begins `history` bytes before the coder, or at the start of the stream. */
  ghost predicate WindowSafe(y: System) {
    var p, l := y.at, y.limits;
    !y.bt.needStart && !y.bt.stop ==>
      && p.lzPos <= p.pos <= All(p.hashSizes) <= p.lzPos + Lead(l)
      && (p.origin == 0 || 0 < p.origin <= p.lzPos - l.history)
  }

  /** In every interleaving: each pointer names the byte at the position of its thread, whenever the window has been
      moved, and the window keeps what the coder and the tree thread may still read. */
  lemma EveryRunKeepsWindow(l: Limits, steps: seq<Action>, z: System)
    requires l.hashBlocks > 0 && l.btBlocks > 0 && Run(Begun(l), steps, z)
    ensures PointersOk(z.at) && WindowSafe(z) && z.limits == l
  {
    hide SystemOk, PlacesOk, Run, PointersOk, WindowSafe;
    BegunOk(l);
    RunKeeps(Begun(l), steps, z);
    OkWindow(z);
  }

  lemma OkWindow(z: System)
    requires SystemOk(z) && PlacesOk(z)
    ensures PointersOk(z.at) && WindowSafe(z)
  {
    hide SyncOk, Total;
    SyncFacts(z.hash);
    SyncFacts(z.bt);
    var p, l := z.at, z.limits;
    if !z.bt.needStart && !z.bt.stop {
      ReaderNear(z.bt, p.btSizes, p.lzPos, l.btCap);
      MulSucc(l.btBlocks - 1, l.btCap);
      if z.hash.needStart { NoBlocks(l.hashCap); } else { ReaderNear(z.hash, p.hashSizes, p.pos, l.hashCap); }
      assert Times(l.hashBlocks, l.hashCap) + Times(l.btBlocks, l.btCap) == Lead(l);
    }
  }

  // ----- no deadlock -----

  /** A thread waits for a semaphore or an event only while its partner can do something about it. */
  lemma WaitingFacts(s: Sync)
    requires SyncOk(s) && !s.needStart
    ensures s.reader == Fetching && s.filled == 0 && s.writer == Waiting ==> s.free > 0
    ensures s.reader == Fetching && s.filled == 0 && s.writer == Idle ==> s.canStart
    ensures s.reader == Fetching ==> s.writer != Stopping
    ensures s.reader == Joining && s.writer == Waiting ==> s.free > 0
    ensures s.reader == Joining && s.writer == Idle ==> s.wasStopped
  {
    hide Slot;
  }

  /** What the hash thread can do when the tree thread waits for it. */
  lemma HashCan(y: System) returns (a: Action)
    requires SystemOk(y) && !y.hash.needStart
    requires (y.hash.reader == Fetching && y.hash.filled == 0) || (y.hash.reader == Joining && !y.hash.wasStopped)
    ensures Can(y, a)
  {
    hide SyncOk;
    WaitingFacts(y.hash);
    SyncFacts(y.hash);
    match y.hash.writer
    case Idle => a := HBegin;
    case Waiting =>
      a := if y.moving == Steady then HTake else if y.moving == OneLock then HLockTwo else HMove(0);
    case Got => a := if y.hash.stop then HQuit else HWrite;
    case Writing => a := HFill(0);
    case Stopping => a := HStopped;
  }

  /** What the tree thread or the hash thread can do while a block is being filled. */
  lemma FillingCan(y: System) returns (a: Action)
    requires SystemOk(y) && y.bt.writer == Writing
    ensures Can(y, a)
  {
    hide SyncOk;
    SyncFacts(y.hash);
    SyncFacts(y.bt);
    match y.filling
    case Done => a := TFill;
    case Locking => a := if y.hash.needStart || y.hash.lock == Open then TLock else HMove(0);
    case Working =>
      match y.hash.reader
      case Out => a := if y.hash.needStart then TStart else TDone;
      case Freeing => a := TRelease;
      case Fetching => if y.hash.filled > 0 { a := TFetch; } else { a := HashCan(y); }
      case Entering => a := if y.hash.lock == Open then TEnter else HMove(0);
  }

  /** What the tree thread or the hash thread can do while the tree thread is stopping. */
  lemma StoppingCan(y: System) returns (a: Action)
    requires SystemOk(y) && y.bt.writer == Stopping
    ensures Can(y, a)
  {
    hide SyncOk;
    SyncFacts(y.hash);
    match y.hash.reader
    case Out => a := if y.hash.needStart then TStopped else TLeave;
    case Leaving => a := TSetStop;
    case Releasing => a := TStopRelease;
    case Joining => if y.hash.wasStopped { a := TJoin; } else { a := HashCan(y); }
  }

  /** While the coder waits inside a call, some thread can always take a step. */
  lemma NoDeadlock(y: System) returns (a: Action)
    requires SystemOk(y) && y.bt.reader != Out
    ensures Can(y, a)
  {
    hide SyncOk;
    SyncFacts(y.bt);
    match y.bt.reader
    case Freeing => a := LRelease;
    case Leaving => a := LSetStop;
    case Releasing => a := LStopRelease;
    case Entering =>
      a := if y.bt.lock == Open then LEnter else if y.moving == BothLocks then HMove(0)
           else if y.hash.lock == Open then HLockTwo else TDone;
    case Fetching =>
      WaitingFacts(y.bt);
      if y.bt.filled > 0 {
        a := LFetch;
      } else {
        match y.bt.writer
        case Idle => a := TBegin;
        case Waiting => a := TTake;
        case Got => a := if y.bt.stop then TQuit else TWrite;
        case Writing => a := FillingCan(y);
      }
    case Joining =>
      WaitingFacts(y.bt);
      match y.bt.writer
      case Idle => a := LJoin;
      case Waiting => a := TTake;
      case Got => a := if y.bt.stop then TQuit else TWrite;
      case Writing => a := FillingCan(y);
      case Stopping => a := StoppingCan(y);
  }

  /** No interleaving gets stuck: whenever the coder is inside a call, some thread can take a step. */
  lemma NoRunDeadlocks(l: Limits, steps: seq<Action>, z: System) returns (a: Action)
    requires l.hashBlocks > 0 && l.btBlocks > 0 && Run(Begun(l), steps, z) && z.bt.reader != Out
    ensures Can(z, a)
  {
    hide SystemOk, PlacesOk, Run, Can;
    BegunOk(l);
    RunKeeps(Begun(l), steps, z);
    a := NoDeadlock(z);
  }
}
