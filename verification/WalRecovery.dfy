/**
 * Runs of a WAL store with crashes at any point of any operation: the store keeps refining
 * the flat log, and a crash takes it back to the log as of its last flush.
 */
module WalRecovery {
  import opened Common
  import opened FlatLog
  import opened WalDisk
  import opened WalStoreSpec

  /** Where a crash strikes: between operations, after part of an append, or between fsyncs. */
  datatype Point =
    | Idle
    | DuringAppend(lsn: u64, written: seq<byte>)
    | DuringFlush(synced: set<nat>)

  datatype Op =
    | AppendOp(lsn: u64, data: seq<byte>)
    | FlushOp
    | RecycleOp(horizon: Lsn)
    | CrashOp(point: Point, after: Disk)

  /** The promised log, and the promised log as of the last flush. */
  datatype Promise = Promise(log: Log, saved: Log)

  function DiskAt(st: Store, point: Point): Disk
    requires st.segSize > 0
  {
    match point
    case Idle => st.disk
    case DuringAppend(lsn, written) =>
      var r := AppendStore(st, lsn, written);
      if r.Ok? then r.value.disk else st.disk
    case DuringFlush(synced) => Sync(st.disk, synced * st.dirty)
  }

  function Step(st: Store, op: Op): (st': Store)
    requires st.segSize > 0
    ensures st'.segSize == st.segSize
  {
    match op
    case AppendOp(lsn, data) => var r := AppendStore(st, lsn, data); if r.Ok? then r.value else st
    case FlushOp => var r := FlushStore(st); if r.Ok? then r.value else st
    case RecycleOp(horizon) => RecycleStore(st, horizon)
    case CrashOp(_, after) => var r := Open(st.segSize, st.ringCapacity, after); if r.Ok? then r.value else st
  }

  function Promised(pr: Promise, segSize: nat, op: Op): Promise
    requires segSize > 0
  {
    match op
    case AppendOp(lsn, data) => var r := Append(pr.log, lsn, data); if r.Ok? then pr.(log := r.value) else pr
    case FlushOp => Promise(Flush(pr.log), Flush(pr.log))
    case RecycleOp(horizon) => pr.(log := Recycle(pr.log, segSize, horizon))
    case CrashOp(_, _) => pr.(log := pr.saved)
  }

  /** No segment was recycled since the last flush. */
  ghost predicate Unrecycled(pr: Promise) {
    pr.saved == EMPTY || pr.saved.start == pr.log.start
  }

  ghost predicate Legal(st: Store, pr: Promise, op: Op)
    requires st.segSize > 0
  {
    match op
    case AppendOp(lsn, data) => lsn + |data| < 0x1_0000_0000_0000_0000
    case FlushOp => true
    case RecycleOp(horizon) => horizon <= st.flush
    case CrashOp(point, after) =>
      && Unrecycled(pr)
      && (point.DuringAppend? ==> point.lsn + |point.written| < 0x1_0000_0000_0000_0000)
      && CrashTo(DiskAt(st, point), after, st.segSize)
  }

  // ---- The invariant ----

  /** `saved` is the flushed part of `log`, with the floor it had at the last flush. */
  ghost predicate SavedOk(pr: Promise) {
    && pr.log.Valid() && pr.saved.Valid() && pr.saved.flushed == pr.saved.End()
    && (|| (pr.saved == EMPTY && pr.log.flushed == pr.log.start == pr.log.origin)
        || (&& pr.saved.origin == pr.log.origin && pr.saved.flushed == pr.log.flushed && pr.saved.start <= pr.log.start
            && pr.saved.bytes == pr.log.bytes[..pr.log.flushed - pr.log.origin]))
  }

  ghost predicate MetaOk(d: Disk, saved: Log) {
    var m := ReadMeta(d.meta);
    m.Ok? && (if m.value.Some? then m.value.value else (0, 0)) == (saved.start, saved.flushed)
  }

  /** Segments recycled since the last flush are gone. */
  ghost predicate RecycledGone(st: Store, pr: Promise)
    requires st.segSize > 0
  {
    pr.saved != EMPTY && pr.saved.start < pr.log.start ==>
      && SegOf(st.segSize, pr.saved.start) < SegOf(st.segSize, pr.log.start)
      && forall i :: SegOf(st.segSize, pr.saved.start) <= i < SegOf(st.segSize, pr.log.start) ==> i !in st.disk.cached
  }

  ghost predicate Keeps(st: Store, pr: Promise) {
    Refines(st, pr.log) && SavedOk(pr) && MetaOk(st.disk, pr.saved) && RecycledGone(st, pr)
  }

  lemma FreshKeeps(segSize: nat, ringCapacity: nat)
    requires segSize > 0
    ensures Open(segSize, ringCapacity, Disk(map[], map[], None)).Ok?
    ensures Keeps(Open(segSize, ringCapacity, Disk(map[], map[], None)).value, Promise(EMPTY, EMPTY))
  {
  }

  // ---- Each step keeps it ----

  lemma {:induction false} WrittenTouched(segs: Segments, size: nat, pos: Lsn, data: seq<byte>, i: nat)
    requires size > 0 && i < SegOf(size, pos)
    ensures i in WriteSegments(segs, size, pos, data) ==> i in segs
    decreases |data|
  {
    if data != [] {
      var k := Fits(size, pos, |data|);
      SegMonotone(size, pos, pos + k);
      hide SegOf, OffOf, WriteFile;
      WrittenTouched(WriteChunk(segs, size, pos, data[..k]), size, pos + k, data[k..], i);
    }
  }

  lemma AppendFrame(st: Store, lsn: u64, data: seq<byte>, i: nat)
    requires st.segSize > 0 && st.start <= st.write
    ensures var st' := Step(st, AppendOp(lsn, data));
            && st'.segSize == st.segSize && st'.disk.meta == st.disk.meta
            && (i < SegOf(st.segSize, st.start) && i !in st.disk.cached ==> i !in st'.disk.cached)
  {
    SegMonotone(st.segSize, st.start, st.write);
    hide SegOf, WriteSegments, Touched, Last;
    if i < SegOf(st.segSize, st.write) {
      WrittenTouched(st.disk.cached, st.segSize, st.write, data, i);
    }
  }

  lemma SavedAfterAppend(pr: Promise, lsn: Lsn, data: seq<byte>)
    requires SavedOk(pr) && Append(pr.log, lsn, data).Ok?
    ensures var log' := Append(pr.log, lsn, data).value;
            SavedOk(pr.(log := log')) && (pr.saved == EMPTY || log'.start == pr.log.start)
  {
  }

  lemma AppendKeeps(st: Store, pr: Promise, lsn: u64, data: seq<byte>)
    requires Keeps(st, pr) && lsn + |data| < 0x1_0000_0000_0000_0000
    ensures Keeps(Step(st, AppendOp(lsn, data)), Promised(pr, st.segSize, AppendOp(lsn, data)))
  {
    hide ReadMeta, SegOf, AppendStore, DiskOk, FrontiersOk, Append, SavedOk, Open, FlushStore, RecycleStore;
    RefinesFacts(st, pr.log);
    AppendRefines(st, pr.log, lsn, data);
    var op := AppendOp(lsn, data);
    var st', pr' := Step(st, op), Promised(pr, st.segSize, op);
    AppendFrame(st, lsn, data, 0);
    if Append(pr.log, lsn, data).Ok? {
      SavedAfterAppend(pr, lsn, data);
    }
    forall i | SegOf(st.segSize, pr.saved.start) <= i < SegOf(st.segSize, pr.log.start) && i !in st.disk.cached
      ensures i !in st'.disk.cached
    {
      AppendFrame(st, lsn, data, i);
    }
  }

  lemma RefinesFacts(st: Store, log: Log)
    requires Refines(st, log)
    ensures st.segSize > 0 && log.Valid() && log.End() < 0x1_0000_0000_0000_0000
    ensures st.start == log.start && st.write == log.End() && st.flush == log.flushed
  {
  }

  lemma FlushKeeps(st: Store, pr: Promise)
    requires Keeps(st, pr)
    ensures Keeps(Step(st, FlushOp), Promised(pr, st.segSize, FlushOp))
  {
    hide ReadMeta, SegOf, DiskOk, EncodeMeta, Sync, Open, AppendStore, RecycleStore;
    RefinesFacts(st, pr.log);
    FlushRefines(st, pr.log);
    FlushAcknowledges(st);
    assert pr.log.bytes[..|pr.log.bytes|] == pr.log.bytes;
  }

  lemma RecycleKeeps(st: Store, pr: Promise, horizon: Lsn)
    requires Keeps(st, pr) && horizon <= st.flush
    ensures Keeps(Step(st, RecycleOp(horizon)), Promised(pr, st.segSize, RecycleOp(horizon)))
  {
    hide ReadMeta, DiskOk, EncodeMeta, Sync, Open, AppendStore, FlushStore, SegOf, PosOf;
    RefinesFacts(st, pr.log);
    RecycleRefines(st, pr.log, horizon);
    RecycleFloor(st, pr.log, horizon);
  }

  lemma RecycleFloor(st: Store, log: Log, horizon: Lsn)
    requires st.segSize > 0 && st.start == log.start
    ensures var lo, hi := SegOf(st.segSize, log.start), SegOf(st.segSize, horizon);
            var log' := Recycle(log, st.segSize, horizon);
            if lo < hi then SegOf(st.segSize, log'.start) == hi && log'.start == PosOf(st.segSize, hi, 0)
              && log' == log.(start := log'.start)
            else log' == log
  {
    SegRoundTrip(st.segSize, SegOf(st.segSize, horizon), 0);
  }

  // ---- Crashes ----

  /** Whatever an operation was doing, flushed bytes are on disk, both cached and stable. */
  lemma FlushedOnDisk(st: Store, pr: Promise, point: Point, p: Lsn)
    requires Keeps(st, pr) && pr.log.start <= p < pr.log.flushed
    requires point.DuringAppend? ==> point.lsn + |point.written| < 0x1_0000_0000_0000_0000
    ensures var b := Some(pr.log.bytes[p - pr.log.origin]);
            ByteAt(DiskAt(st, point).cached, st.segSize, p) == ByteAt(DiskAt(st, point).stable, st.segSize, p) == b
  {
    hide ByteAt, SegOf, AppendStore, Sync, ReadMeta;
    if point.DuringAppend? {
      AppendRefines(st, pr.log, point.lsn, point.written);
      AppendFrame(st, point.lsn, point.written, 0);
    } else if point.DuringFlush? {
      SyncEffect(st.disk, point.synced * st.dirty, st.segSize, p);
      SyncKeepsCached(st.disk, point.synced * st.dirty);
    }
  }

  lemma MetaAt(st: Store, point: Point)
    requires st.segSize > 0
    ensures DiskAt(st, point).meta == st.disk.meta
  {
  }

  lemma CrashHolds(st: Store, pr: Promise, point: Point, after: Disk)
    requires Keeps(st, pr) && Legal(st, pr, CrashOp(point, after))
    ensures Holds(after.cached, st.segSize, pr.saved, pr.saved.start, pr.saved.flushed)
  {
    hide ByteAt, DiskAt, MetaOk, RecycledGone, Refines;
    RefinesFacts(st, pr.log);
    forall p: Lsn | pr.saved.start <= p < pr.saved.flushed
      ensures ByteAt(after.cached, st.segSize, p) == Some(pr.saved.bytes[p - pr.saved.origin])
    {
      FlushedOnDisk(st, pr, point, p);
    }
  }

  lemma RefinesReopened(st: Store, saved: Log)
    requires st.segSize > 0 && saved.Valid() && saved.flushed == saved.End() < 0x1_0000_0000_0000_0000
    requires st.disk.stable == st.disk.cached && Holds(st.disk.cached, st.segSize, saved, saved.start, saved.flushed)
    requires st == Store(st.segSize, st.ringCapacity, saved.start, saved.flushed, saved.flushed, [], saved.flushed,
             None, {}, st.disk)
    ensures Refines(st, saved)
  {
  }

  /**
   * Crash recovery: whenever nothing was recycled since the last flush, reopening after a
   * crash gives back the log as of that flush, with appending resumed at its end.
   */
  lemma CrashKeeps(st: Store, pr: Promise, point: Point, after: Disk)
    requires Keeps(st, pr) && Legal(st, pr, CrashOp(point, after))
    ensures Open(st.segSize, st.ringCapacity, after).Ok?
    ensures var st' := Step(st, CrashOp(point, after));
            && Keeps(st', Promise(pr.saved, pr.saved))
            && st'.start == pr.saved.start && st'.write == st'.flush == pr.saved.flushed
  {
    hide ByteAt, SegOf, AppendStore, Sync, ReadMeta, FlushStore, RecycleStore, DiskAt, Refines;
    RefinesFacts(st, pr.log);
    MetaAt(st, point);
    CrashHolds(st, pr, point, after);
    RefinesReopened(Open(st.segSize, st.ringCapacity, after).value, pr.saved);
    assert pr.saved.bytes[..|pr.saved.bytes|] == pr.saved.bytes;
  }

  /**
   * What a crash leaves of an opened store is its log cut at the durable frontier, whatever
   * had been written past it.
   */
  lemma SavedIsCrashed(st: Store, pr: Promise, unflushed: seq<byte>)
    requires Keeps(st, pr) && Unrecycled(pr) && pr.saved != EMPTY
    ensures pr.saved == FlatLog.Crash(pr.log) == FlatLog.Crash(pr.log.(bytes := pr.log.bytes + unflushed))
  {
    hide Refines, RecycledGone, MetaOk;
    var n := pr.log.flushed - pr.log.origin;
    assert (pr.log.bytes + unflushed)[..n] == pr.log.bytes[..n];
  }

  // ---- Runs ----

  ghost function Run(st: Store, ops: seq<Op>): Store
    requires st.segSize > 0
    decreases |ops|
  {
    if ops == [] then st else Run(Step(st, ops[0]), ops[1..])
  }

  ghost function PromisedRun(pr: Promise, segSize: nat, ops: seq<Op>): Promise
    requires segSize > 0
    decreases |ops|
  {
    if ops == [] then pr else PromisedRun(Promised(pr, segSize, ops[0]), segSize, ops[1..])
  }

  ghost predicate LegalRun(st: Store, pr: Promise, ops: seq<Op>)
    requires st.segSize > 0
    decreases |ops|
  {
    ops != [] ==> Legal(st, pr, ops[0]) && LegalRun(Step(st, ops[0]), Promised(pr, st.segSize, ops[0]), ops[1..])
  }

  lemma StepKeeps(st: Store, pr: Promise, op: Op)
    requires Keeps(st, pr) && Legal(st, pr, op)
    ensures Keeps(Step(st, op), Promised(pr, st.segSize, op))
  {
    if op.AppendOp? {
      AppendKeeps(st, pr, op.lsn, op.data);
    } else if op.FlushOp? {
      FlushKeeps(st, pr);
    } else if op.RecycleOp? {
      RecycleKeeps(st, pr, op.horizon);
    } else {
      CrashKeeps(st, pr, op.point, op.after);
    }
  }

  lemma {:induction false} RunKeeps(st: Store, pr: Promise, ops: seq<Op>)
    requires Keeps(st, pr) && LegalRun(st, pr, ops)
    ensures Keeps(Run(st, ops), PromisedRun(pr, st.segSize, ops))
    decreases |ops|
  {
    RefinesFacts(st, pr.log);
    hide Keeps, Step, Promised, Legal;
    if ops != [] {
      StepKeeps(st, pr, ops[0]);
      RunKeeps(Step(st, ops[0]), Promised(pr, st.segSize, ops[0]), ops[1..]);
    }
  }

  /**
   * Over every run of appends, flushes, recycling up to the durable frontier and crashes,
   * the store is the flat log: every read gives its bytes, or the same error, and the ring
   * always ends at the write frontier.
   */
  lemma StoreIsFlatLog(segSize: nat, ringCapacity: nat, ops: seq<Op>, lsn: Lsn, n: nat)
    requires segSize > 0
    requires LegalRun(Open(segSize, ringCapacity, Disk(map[], map[], None)).value, Promise(EMPTY, EMPTY), ops)
    ensures var st := Run(Open(segSize, ringCapacity, Disk(map[], map[], None)).value, ops);
            var log := PromisedRun(Promise(EMPTY, EMPTY), segSize, ops).log;
            && st.segSize > 0 && log.Valid() && st.ringStart + |st.ring| == st.write && |st.ring| <= st.ringCapacity
            && st.start == log.start && st.write == log.End() && st.flush == log.flushed
            && ReadAt(st, lsn, n) == Read(log, lsn, n)
  {
    FreshKeeps(segSize, ringCapacity);
    var first := Open(segSize, ringCapacity, Disk(map[], map[], None)).value;
    RunKeeps(first, Promise(EMPTY, EMPTY), ops);
    hide LegalRun, Run, PromisedRun, DiskOk, ReadAt, Read;
    ReadRefines(Run(first, ops), PromisedRun(Promise(EMPTY, EMPTY), segSize, ops).log, lsn, n);
  }

  /**
   * The condition on recycling is exact: every crash of an idle store recovers the log as
   * of its last flush if and only if no segment was recycled since then.
   */
  lemma RecoversIffUnrecycled(st: Store, pr: Promise)
    requires Keeps(st, pr)
    ensures (forall after :: CrashTo(st.disk, after, st.segSize) ==>
               Open(st.segSize, st.ringCapacity, after).Ok?
                 && Refines(Open(st.segSize, st.ringCapacity, after).value, pr.saved))
        <==> Unrecycled(pr)
  {
    if Unrecycled(pr) {
      forall after | CrashTo(st.disk, after, st.segSize)
        ensures Open(st.segSize, st.ringCapacity, after).Ok?
        ensures Refines(Open(st.segSize, st.ringCapacity, after).value, pr.saved)
      {
        CrashKeeps(st, pr, Idle, after);
      }
    } else {
      RecycledIsLost(st, pr);
    }
  }

  lemma RecycledIsLost(st: Store, pr: Promise)
    requires Keeps(st, pr) && !Unrecycled(pr)
    ensures exists after :: CrashTo(st.disk, after, st.segSize) && Open(st.segSize, st.ringCapacity, after).Ok?
              && !Refines(Open(st.segSize, st.ringCapacity, after).value, pr.saved)
  {
    var after := Disk(st.disk.cached, st.disk.cached, st.disk.meta);
    assert CrashTo(st.disk, after, st.segSize);
    assert ByteAt(after.cached, st.segSize, pr.saved.start).None?;
    hide ByteAt, SegOf, ReadMeta;
  }
}
