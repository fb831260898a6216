/**
 * The WAL store as a value: frontiers, ring cache, dirty segments and disk. It refines the
 * flat log under append, flush, read and recycling.
 */
module WalStoreSpec {
  import opened Common
  import opened FlatLog
  import opened WalDisk

  datatype Store = Store(
    segSize: nat, ringCapacity: nat,
    start: Lsn, write: Lsn, flush: Lsn,
    ring: seq<byte>, ringStart: Lsn,
    open: Option<nat>, dirty: set<nat>, disk: Disk)

  // ---- Operations ----

  function Open(segSize: nat, ringCapacity: nat, disk: Disk): Result<Store, StorageError> {
    var meta :- ReadMeta(disk.meta);
    var (start, flush) := if meta.Some? then meta.value else (0, 0);
    Ok(Store(segSize, ringCapacity, start, flush, flush, [], flush, None, {}, disk))
  }

  /** The last `n` elements, or all of them. */
  function Last(s: seq<byte>, n: nat): seq<byte> {
    if |s| <= n then s else s[|s| - n..]
  }

  function SeedStore(st: Store, lsn: Lsn): Store {
    if st.write == 0 && st.start == 0 then st.(start := lsn, write := lsn, flush := lsn, ringStart := lsn) else st
  }

  function AppendStore(st: Store, lsn: Lsn, data: seq<byte>): Result<Store, StorageError>
    requires st.segSize > 0
  {
    var s := SeedStore(st, lsn);
    if lsn != s.write then Err(NonContiguous(s.write, lsn))
    else if data == [] then Ok(s)
    else
      var ring := Last(s.ring + data, s.ringCapacity);
      Ok(s.(write := s.write + |data|,
            disk := s.disk.(cached := WriteSegments(s.disk.cached, s.segSize, s.write, data)),
            open := Some(SegOf(s.segSize, s.write + |data| - 1)),
            dirty := s.dirty + Touched(s.segSize, s.write, |data|),
            ring := ring,
            ringStart := s.ringStart + (|s.ring + data| - |ring|)))
  }

  /**
   * fsync every dirty segment, then record the frontier in the metadata file. Only the
   * segment whose handle is still open can be synced after its file is gone.
   */
  function FlushStore(st: Store): Result<Store, StorageError> {
    if exists i :: i in st.dirty && Some(i) != st.open && i !in st.disk.cached then Err(Io)
    else
      Ok(st.(disk := Sync(st.disk, st.dirty).(meta := Some(EncodeMeta(st.start, st.write))),
             dirty := {}, flush := st.write))
  }

  /** Read from segment files; a missing or short file is an I/O error. */
  function ReadDisk(segs: Segments, size: nat, lsn: Lsn, n: nat): Result<seq<byte>, StorageError>
    requires size > 0
    decreases n
  {
    if n == 0 then Ok([])
    else
      var i, off, k := SegOf(size, lsn), OffOf(size, lsn), Fits(size, lsn, n);
      if i !in segs || off + k > |segs[i]| then Err(Io)
      else
        var rest :- ReadDisk(segs, size, lsn + k, n - k);
        Ok(segs[i][off..off + k] + rest)
  }

  function ReadAt(st: Store, lsn: Lsn, n: nat): Result<seq<byte>, StorageError>
    requires st.segSize > 0 && st.ringStart + |st.ring| == st.write
  {
    if lsn < st.start || lsn + n > st.write then Err(OutOfRange(lsn, lsn + n, st.start, st.write))
    else if lsn >= st.ringStart && st.ring != [] then Ok(st.ring[lsn - st.ringStart..][..n])
    else ReadDisk(st.disk.cached, st.segSize, lsn, n)
  }

  function Without(segs: Segments, lo: nat, hi: nat): Segments {
    map i | i in segs && !(lo <= i < hi) :: segs[i]
  }

  /** Remove whole segment files below `horizon` and advance the retained floor. */
  function RecycleStore(st: Store, horizon: Lsn): Store
    requires st.segSize > 0
  {
    var lo, hi := SegOf(st.segSize, st.start), SegOf(st.segSize, horizon);
    if lo >= hi then st
    else st.(start := PosOf(st.segSize, hi, 0),
             disk := st.disk.(cached := Without(st.disk.cached, lo, hi)))
  }

  // ---- The refinement relation ----

  ghost predicate FrontiersOk(st: Store, log: Log) {
    && st.segSize > 0 && log.Valid() && log.End() < 0x1_0000_0000_0000_0000
    && st.start == log.start && st.write == log.End() && st.flush == log.flushed
    && |st.ring| <= st.ringCapacity && st.ringStart + |st.ring| == st.write
    && log.origin <= st.ringStart && st.ring == log.bytes[st.ringStart - log.origin..]
  }

  ghost predicate DiskOk(st: Store, log: Log)
    requires FrontiersOk(st, log)
  {
    && Holds(st.disk.cached, st.segSize, log, log.start, log.End())
    && Holds(st.disk.stable, st.segSize, log, log.start, log.flushed)
    && (forall p: Lsn :: log.start <= p < log.End() && SegOf(st.segSize, p) !in st.dirty ==>
          ByteAt(st.disk.stable, st.segSize, p) == Some(log.bytes[p - log.origin]))
    && (st.flush == st.write ==> st.dirty == {})
    && (forall i :: i in st.dirty ==> i in st.disk.cached && SegOf(st.segSize, st.flush) <= i)
  }

  ghost predicate Refines(st: Store, log: Log) {
    FrontiersOk(st, log) && DiskOk(st, log)
  }

  // ---- Each operation refines the flat log ----

  lemma SeedRefines(st: Store, log: Log, lsn: u64)
    requires Refines(st, log)
    ensures Refines(SeedStore(st, lsn), Seeded(log, lsn))
  {
  }

  lemma LastSuffix(s: seq<byte>, data: seq<byte>, ring: seq<byte>, k: nat, cap: nat)
    requires k <= |s| && ring == s[k..]
    ensures var r := Last(ring + data, cap);
            |r| <= cap && |r| <= |ring + data| && r == (s + data)[k + (|ring + data| - |r|)..]
  {
    assert (s + data)[k..] == ring + data;
  }

  lemma AppendFrontiers(st: Store, log: Log, data: seq<byte>)
    requires Refines(st, log) && data != [] && log.End() + |data| < 0x1_0000_0000_0000_0000
    ensures FrontiersOk(AppendStore(st, st.write, data).value, log.(bytes := log.bytes + data))
  {
    hide ByteAt, SegOf, DiskOk;
    LastSuffix(log.bytes, data, st.ring, st.ringStart - log.origin, st.ringCapacity);
  }

  /** The written bytes land behind the old ones, wherever segment boundaries fall. */
  lemma WriteExtends(segs: Segments, size: nat, log: Log, data: seq<byte>)
    requires size > 0 && log.Valid() && Holds(segs, size, log, log.start, log.End())
    ensures var segs', log' := WriteSegments(segs, size, log.End(), data), log.(bytes := log.bytes + data);
            Holds(segs', size, log', log.start, log'.End())
  {
    hide ByteAt, WriteSegments;
    var segs', log' := WriteSegments(segs, size, log.End(), data), log.(bytes := log.bytes + data);
    forall p: Lsn | log.start <= p < log'.End()
      ensures ByteAt(segs', size, p) == Some(log'.bytes[p - log.origin])
    {
      WriteEffect(segs, size, log.End(), data, p);
    }
  }

  lemma AppendClean(st: Store, log: Log, data: seq<byte>, p: Lsn)
    requires FrontiersOk(st, log) && DiskOk(st, log)
    requires log.start <= p < log.End() + |data|
             && SegOf(st.segSize, p) !in st.dirty + Touched(st.segSize, st.write, |data|)
    ensures p < log.End() && ByteAt(st.disk.stable, st.segSize, p) == Some(log.bytes[p - log.origin])
  {
    hide SegOf, ByteAt, Touched;
    if p >= log.End() {
      InTouched(st.segSize, st.write, |data|, p);
    }
  }

  lemma AppendDirty(st: Store, log: Log, data: seq<byte>, i: nat)
    requires FrontiersOk(st, log) && DiskOk(st, log)
    requires i in st.dirty + Touched(st.segSize, st.write, |data|)
    ensures i in WriteSegments(st.disk.cached, st.segSize, st.write, data) && SegOf(st.segSize, st.flush) <= i
  {
    hide SegOf, ByteAt, Touched, WriteSegments;
    TouchedWritten(st.disk.cached, st.segSize, st.write, data, i);
    SegMonotone(st.segSize, st.flush, st.write);
  }

  lemma AppendDisk(st: Store, log: Log, data: seq<byte>)
    requires Refines(st, log) && data != [] && log.End() + |data| < 0x1_0000_0000_0000_0000
    ensures var log' := log.(bytes := log.bytes + data);
            FrontiersOk(AppendStore(st, st.write, data).value, log')
              && DiskOk(AppendStore(st, st.write, data).value, log')
  {
    hide ByteAt, SegOf, WriteSegments, Last, Touched;
    AppendFrontiers(st, log, data);
    var st', log' := AppendStore(st, st.write, data).value, log.(bytes := log.bytes + data);
    WriteExtends(st.disk.cached, st.segSize, log, data);
    forall p: Lsn | log'.start <= p < log'.End() && SegOf(st.segSize, p) !in st'.dirty
      ensures ByteAt(st.disk.stable, st.segSize, p) == Some(log'.bytes[p - log'.origin])
    {
      AppendClean(st, log, data, p);
    }
    forall i | i in st'.dirty ensures i in st'.disk.cached && SegOf(st.segSize, st.flush) <= i {
      AppendDirty(st, log, data, i);
    }
  }

  lemma SeedFacts(st: Store, log: Log, lsn: Lsn)
    requires FrontiersOk(st, log)
    ensures SeedStore(SeedStore(st, lsn), SeedStore(st, lsn).write) == SeedStore(st, lsn)
    ensures SeedStore(st, lsn).write == Seeded(log, lsn).End()
  {
  }

  lemma AppendRefines(st: Store, log: Log, lsn: u64, data: seq<byte>)
    requires Refines(st, log) && lsn + |data| < 0x1_0000_0000_0000_0000
    ensures var r, spec := AppendStore(st, lsn, data), Append(log, lsn, data);
            if r.Err? then spec == Err(r.error) else spec.Ok? && Refines(r.value, spec.value)
  {
    SeedRefines(st, log, lsn);
    SeedFacts(st, log, lsn);
    hide SeedStore, Seeded, FrontiersOk, DiskOk, SegOf, WriteSegments, Last, Touched;
    var s, l := SeedStore(st, lsn), Seeded(log, lsn);
    if lsn == s.write {
      if data == [] {
        assert l.bytes + [] == l.bytes;
      } else {
        AppendDisk(s, l, data);
        assert AppendStore(s, s.write, data) == AppendStore(st, lsn, data);
      }
    }
  }

  // ---- Flush ----

  lemma SyncEffect(d: Disk, which: set<nat>, size: nat, p: Lsn)
    requires size > 0
    ensures SegOf(size, p) in which && SegOf(size, p) in d.cached ==>
              ByteAt(Sync(d, which).stable, size, p) == ByteAt(d.cached, size, p)
    ensures SegOf(size, p) !in which || SegOf(size, p) !in d.cached ==>
              ByteAt(Sync(d, which).stable, size, p) == ByteAt(d.stable, size, p)
  {
  }

  /** Flushing makes every retained byte durable. */
  lemma FlushRefines(st: Store, log: Log)
    requires Refines(st, log)
    ensures FlushStore(st).Ok? && Refines(FlushStore(st).value, Flush(log))
  {
    hide ByteAt, SegOf, EncodeMeta, Sync;
    var st', log' := FlushStore(st).value, Flush(log);
    SyncKeepsCached(st.disk, st.dirty);
    forall p: Lsn | log'.start <= p < log'.End()
      ensures ByteAt(st'.disk.stable, st.segSize, p) == Some(log'.bytes[p - log'.origin])
    {
      SyncEffect(st.disk, st.dirty, st.segSize, p);
    }
  }

  lemma FlushAcknowledges(st: Store)
    requires FlushStore(st).Ok? && st.start < 0x1_0000_0000_0000_0000 && st.write < 0x1_0000_0000_0000_0000
    ensures ReadMeta(FlushStore(st).value.disk.meta) == Ok(Some((st.start, st.write)))
  {
    MetaRoundTrip(st.start, st.write);
    hide ReadMeta, EncodeMeta, Sync;
  }

  lemma SyncKeepsCached(d: Disk, which: set<nat>)
    ensures Sync(d, which).cached == d.cached && Sync(d, which).meta == d.meta
  {
  }

  // ---- Read ----

  lemma {:induction false} ReadDiskMeaning(segs: Segments, size: nat, log: Log, lo: Lsn, hi: Lsn, lsn: Lsn, n: nat)
    requires size > 0 && log.origin <= lo <= lsn && lsn + n <= hi <= log.End()
    requires Holds(segs, size, log, lo, hi)
    ensures ReadDisk(segs, size, lsn, n) == Ok(log.bytes[lsn - log.origin..][..n])
    decreases n
  {
    if n > 0 {
      var i, off, k := SegOf(size, lsn), OffOf(size, lsn), Fits(size, lsn, n);
      ChunkMeaning(segs, size, log, lo, hi, lsn, k);
      hide ByteAt, SegOf, OffOf, Holds;
      ReadDiskMeaning(segs, size, log, lo, hi, lsn + k, n - k);
      var s := log.bytes[lsn - log.origin..];
      assert s[k..] == log.bytes[lsn + k - log.origin..];
      assert s[..n] == s[..k] + s[k..][..n - k];
    }
  }

  lemma ChunkByte(segs: Segments, size: nat, log: Log, lo: Lsn, hi: Lsn, lsn: Lsn, j: nat)
    requires size > 0 && log.origin <= lo <= lsn && lsn + j < hi <= log.End() && OffOf(size, lsn) + j < size
    requires Holds(segs, size, log, lo, hi)
    ensures var i, off := SegOf(size, lsn), OffOf(size, lsn);
            i in segs && off + j < |segs[i]| && segs[i][off + j] == log.bytes[lsn - log.origin + j]
  {
    SameSegment(size, lsn, j);
    hide SegOf, OffOf;
    assert ByteAt(segs, size, lsn + j) == Some(log.bytes[lsn + j - log.origin]);
  }

  lemma ChunkMeaning(segs: Segments, size: nat, log: Log, lo: Lsn, hi: Lsn, lsn: Lsn, k: nat)
    requires size > 0 && log.origin <= lo <= lsn && lsn + k <= hi <= log.End() && 0 < k && OffOf(size, lsn) + k <= size
    requires Holds(segs, size, log, lo, hi)
    ensures var i, off := SegOf(size, lsn), OffOf(size, lsn);
            i in segs && off + k <= |segs[i]| && segs[i][off..off + k] == log.bytes[lsn - log.origin..][..k]
  {
    hide SegOf, OffOf, Holds;
    ChunkByte(segs, size, log, lo, hi, lsn, k - 1);
    var i, off := SegOf(size, lsn), OffOf(size, lsn);
    var got, want := segs[i][off..off + k], log.bytes[lsn - log.origin..][..k];
    forall j | 0 <= j < k ensures got[j] == want[j] {
      ChunkByte(segs, size, log, lo, hi, lsn, j);
    }
  }

  /** Reads from ring or disk give exactly the appended bytes, or the same range error. */
  lemma ReadRefines(st: Store, log: Log, lsn: Lsn, n: nat)
    requires Refines(st, log)
    ensures ReadAt(st, lsn, n) == Read(log, lsn, n)
  {
    hide ByteAt, SegOf, ReadDisk;
    if log.start <= lsn && lsn + n <= log.End() {
      ReadDiskMeaning(st.disk.cached, st.segSize, log, log.start, log.End(), lsn, n);
      assert lsn >= st.ringStart && st.ring != [] ==> log.bytes[lsn - log.origin..] == st.ring[lsn - st.ringStart..];
    }
  }

  // ---- Recycling ----

  lemma BoundaryBelow(size: nat, horizon: Lsn)
    requires size > 0
    ensures PosOf(size, SegOf(size, horizon), 0) <= horizon
  {
  }

  lemma AboveBoundary(size: nat, i: nat, p: Lsn)
    requires size > 0 && PosOf(size, i, 0) <= p
    ensures i <= SegOf(size, p)
  {
    SegRoundTrip(size, i, 0);
    SegMonotone(size, PosOf(size, i, 0), p);
  }

  lemma BelowBoundary(size: nat, p: Lsn, i: nat)
    requires size > 0 && SegOf(size, p) < i
    ensures p < PosOf(size, i, 0)
  {
    if PosOf(size, i, 0) <= p {
      AboveBoundary(size, i, p);
    }
  }

  lemma KeptSegment(segs: Segments, size: nat, lo: nat, hi: nat, p: Lsn)
    requires size > 0 && hi <= SegOf(size, p)
    ensures ByteAt(Without(segs, lo, hi), size, p) == ByteAt(segs, size, p)
  {
  }

  lemma RecycleDisk(st: Store, log: Log, horizon: Lsn)
    requires FrontiersOk(st, log) && DiskOk(st, log) && horizon <= st.flush
    requires SegOf(st.segSize, st.start) < SegOf(st.segSize, horizon)
    ensures var st', log' := RecycleStore(st, horizon), Recycle(log, st.segSize, horizon);
            FrontiersOk(st', log') && DiskOk(st', log') && log.start <= log'.start
  {
    var lo, hi := SegOf(st.segSize, st.start), SegOf(st.segSize, horizon);
    BoundaryBelow(st.segSize, horizon);
    BelowBoundary(st.segSize, st.start, hi);
    SegMonotone(st.segSize, horizon, st.flush);
    var st', log' := RecycleStore(st, horizon), Recycle(log, st.segSize, horizon);
    assert st'.start == log'.start;
    hide SegOf, PosOf, ByteAt, Recycle, Without;
    forall p: Lsn | log'.start <= p < log'.End()
      ensures ByteAt(st'.disk.cached, st.segSize, p) == Some(log'.bytes[p - log'.origin])
    {
      AboveBoundary(st.segSize, hi, p);
      KeptSegment(st.disk.cached, st.segSize, lo, hi, p);
    }
  }

  /** Recycling up to a horizon that is already durable drops only bytes below the new floor. */
  lemma RecycleRefines(st: Store, log: Log, horizon: Lsn)
    requires Refines(st, log) && horizon <= st.flush
    ensures Refines(RecycleStore(st, horizon), Recycle(log, st.segSize, horizon))
    ensures log.start <= Recycle(log, st.segSize, horizon).start
  {
    if SegOf(st.segSize, st.start) < SegOf(st.segSize, horizon) {
      RecycleDisk(st, log, horizon);
      hide DiskOk, FrontiersOk;
    }
  }
}
