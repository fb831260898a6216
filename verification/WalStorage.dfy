/** The segmented WAL store of a safekeeper, as it is updated in place. */
module WalStorage {
  import opened Common
  import opened FlatLog
  import opened WalDisk
  import opened WalStoreSpec

  lemma WriteStep(segs: Segments, size: nat, pos: Lsn, data: seq<byte>)
    requires size > 0 && data != []
    ensures var k := Fits(size, pos, |data|);
            && Touched(size, pos, |data|) == {SegOf(size, pos)} + Touched(size, pos + k, |data| - k)
            && WriteSegments(segs, size, pos, data) ==
              WriteSegments(WriteChunk(segs, size, pos, data[..k]), size, pos + k, data[k..])
  {
  }

  lemma WriteNone(segs: Segments, size: nat, pos: Lsn)
    requires size > 0
    ensures Touched(size, pos, 0) == {} && WriteSegments(segs, size, pos, []) == segs
  {
  }

  /** The result of a read whose first bytes are already known. */
  function Behind(known: seq<byte>, rest: Result<seq<byte>, StorageError>): Result<seq<byte>, StorageError> {
    if rest.Ok? then Ok(known + rest.value) else rest
  }

  lemma NothingBehind(rest: Result<seq<byte>, StorageError>)
    ensures Behind([], rest) == rest
  {
    assert rest.Ok? ==> [] + rest.value == rest.value;
  }

  lemma BehindBoth(a: seq<byte>, b: seq<byte>, rest: Result<seq<byte>, StorageError>)
    ensures Behind(a, Behind(b, rest)) == Behind(a + b, rest)
  {
    if rest.Ok? {
      assert a + (b + rest.value) == (a + b) + rest.value;
    }
  }

  lemma BehindError(a: seq<byte>)
    ensures Behind(a, Err(Io)) == Err(Io)
  {
  }

  lemma BehindAll(a: seq<byte>)
    ensures Behind(a, Ok([])) == Ok(a)
  {
    assert a + [] == a;
  }

  lemma ReadStep(segs: Segments, size: nat, lsn: Lsn, n: nat)
    requires size > 0 && n > 0
    requires var i, off, k := SegOf(size, lsn), OffOf(size, lsn), Fits(size, lsn, n); i in segs && off + k <= |segs[i]|
    ensures var i, off, k := SegOf(size, lsn), OffOf(size, lsn), Fits(size, lsn, n);
            ReadDisk(segs, size, lsn, n) == Behind(segs[i][off..off + k], ReadDisk(segs, size, lsn + k, n - k))
  {
  }

  class Storage {
    const segSize: nat
    const ringCapacity: nat
    var startLsn: Lsn
    var writeLsn: Lsn
    var flushLsn: Lsn
    var ring: seq<byte>
    var ringStart: Lsn
    var openSeg: Option<nat>
    var dirty: set<nat>
    var disk: Disk

    ghost function Value(): Store
      reads this
    {
      Store(segSize, ringCapacity, startLsn, writeLsn, flushLsn, ring, ringStart, openSeg, dirty, disk)
    }

    constructor (segSize: nat, ringCapacity: nat, disk: Disk)
      requires segSize > 0 && ReadMeta(disk.meta).Ok?
      ensures Open(segSize, ringCapacity, disk) == Ok(Value())
    {
      var meta := ReadMeta(disk.meta).value;
      var lsns := if meta.Some? then meta.value else (0, 0);
      this.segSize, this.ringCapacity, this.disk := segSize, ringCapacity, disk;
      startLsn, writeLsn, flushLsn := lsns.0, lsns.1, lsns.1;
      ring, ringStart := [], lsns.1;
      openSeg, dirty := None, {};
    }

    method Append(lsn: Lsn, data: seq<byte>) returns (r: Result<(), StorageError>)
      requires segSize > 0
      modifies this
      ensures var spec := AppendStore(old(Value()), lsn, data);
              if spec.Ok? then r == Ok(()) && Value() == spec.value else r == Err(spec.error) && Value() == old(Value())
    {
      if writeLsn == 0 && startLsn == 0 {
        startLsn, writeLsn, flushLsn, ringStart := lsn, lsn, lsn, lsn;
      }
      if lsn != writeLsn {
        return Err(NonContiguous(writeLsn, lsn));
      }
      if data == [] {
        return Ok(());
      }
      WriteAll(data);
      ring := ring + data;
      EvictRing();
      hide SegOf, Last, Touched, WriteSegments;
      return Ok(());
    }

    /** Drop the oldest cached bytes past the ring's capacity. */
    method EvictRing()
      modifies this`ring, this`ringStart
      ensures ring == Last(old(ring), ringCapacity)
      ensures ringStart == old(ringStart) + (|old(ring)| - |ring|)
    {
      while |ring| > ringCapacity
        invariant |ring| <= |old(ring)| && Last(ring, ringCapacity) == Last(old(ring), ringCapacity)
        invariant ringStart == old(ringStart) + (|old(ring)| - |ring|)
      {
        ring := ring[1..];
        ringStart := ringStart + 1;
      }
    }

    /** The segment-by-segment write loop. */
    method WriteAll(data: seq<byte>)
      requires segSize > 0 && data != []
      modifies this`writeLsn, this`disk, this`openSeg, this`dirty
      ensures writeLsn == old(writeLsn) + |data|
      ensures openSeg == Some(SegOf(segSize, old(writeLsn) + |data| - 1))
      ensures dirty == old(dirty) + Touched(segSize, old(writeLsn), |data|)
      ensures disk == old(disk).(cached := WriteSegments(old(disk).cached, segSize, old(writeLsn), data))
    {
      hide SegOf, OffOf, WriteFile, WriteSegments, Touched;
      var written := 0;
      assert data[0..] == data;
      while written < |data|
        invariant written <= |data| && writeLsn == old(writeLsn) + written
        invariant written > 0 ==> openSeg == Some(SegOf(segSize, writeLsn - 1))
        invariant dirty + Touched(segSize, writeLsn, |data| - written) ==
                  old(dirty) + Touched(segSize, old(writeLsn), |data|)
        invariant disk == old(disk).(cached := disk.cached)
        invariant WriteSegments(disk.cached, segSize, writeLsn, data[written..])
               == WriteSegments(old(disk).cached, segSize, old(writeLsn), data)
      {
        var index, offset := SegOf(segSize, writeLsn), OffOf(segSize, writeLsn);
        var n := Fits(segSize, writeLsn, |data| - written);
        SameSegment(segSize, writeLsn, n - 1);
        WriteStep(disk.cached, segSize, writeLsn, data[written..]);
        ghost var chunked := WriteChunk(disk.cached, segSize, writeLsn, data[written..written + n]);
        AppendSegment(index);
        assert data[written..][..n] == data[written..written + n];
        assert data[written..][n..] == data[written + n..];
        disk := disk.(cached := disk.cached[index :=
          WriteFile(disk.cached[index], offset, data[written..written + n])]);
        assert disk.cached == chunked;
        dirty := dirty + {index};
        writeLsn := writeLsn + n;
        written := written + n;
      }
      assert data[written..] == [];
      WriteNone(disk.cached, segSize, writeLsn);
    }

    /** Make `index` the open segment, creating its file when absent. */
    method AppendSegment(index: nat)
      modifies this`disk, this`openSeg
      ensures openSeg == Some(index)
      ensures disk == old(disk).(cached := disk.cached)
      ensures var was := old(disk).cached;
              disk.cached == was[index := if index in was then was[index] else Zeros(segSize)]
    {
      if index !in disk.cached {
        disk := disk.(cached := disk.cached[index := Zeros(segSize)]);
      }
      openSeg := Some(index);
    }

    method Flush() returns (r: Result<Lsn, StorageError>)
      modifies this
      ensures var spec := FlushStore(old(Value()));
              if spec.Ok? then r == Ok(flushLsn) && Value() == spec.value
              else && r == Err(spec.error)
                   && exists synced :: synced <= old(dirty) && Value() == old(Value()).(disk := Sync(old(disk), synced))
    {
      hide EncodeMeta, Sync;
      var todo := dirty;
      ghost var synced: set<nat> := {};
      SyncNone(disk);
      while todo != {}
        invariant synced + todo == dirty && unchanged(this`startLsn) && unchanged(this`writeLsn)
                  && unchanged(this`flushLsn)
        invariant unchanged(this`ring) && unchanged(this`ringStart) && unchanged(this`openSeg) && unchanged(this`dirty)
        invariant disk == Sync(old(disk), synced) && disk.cached == old(disk).cached
        invariant forall i :: i in synced ==> openSeg == Some(i) || i in disk.cached
      {
        var index :| index in todo;
        if openSeg != Some(index) && index !in disk.cached {
          return Err(Io);
        }
        SyncMore(old(disk), synced, index);
        disk := Sync(disk, {index});
        todo, synced := todo - {index}, synced + {index};
      }
      assert synced == dirty;
      dirty := {};
      flushLsn := writeLsn;
      disk := disk.(meta := Some(EncodeMeta(startLsn, flushLsn)));
      return Ok(flushLsn);
    }

    /** Fill `buf` with the bytes at `lsn`, from the ring when it reaches back that far. */
    method ReadInto(lsn: Lsn, buf: array<byte>) returns (r: Result<(), StorageError>)
      requires segSize > 0 && ringStart + |ring| == writeLsn
      modifies buf
      ensures var spec := ReadAt(Value(), lsn, buf.Length);
              if spec.Ok? then r == Ok(()) && buf[..] == spec.value else r == Err(spec.error)
    {
      var end := lsn + buf.Length;
      if lsn < startLsn || end > writeLsn {
        return Err(OutOfRange(lsn, end, startLsn, writeLsn));
      }
      if lsn >= ringStart && end <= writeLsn && ring != [] {
        var off := lsn - ringStart;
        for i := 0 to buf.Length
          invariant buf[..i] == ring[off..][..i]
        {
          buf[i] := ring[off + i];
        }
        assert buf[..] == buf[..buf.Length];
        return Ok(());
      }
      r := ReadSegments(lsn, buf);
    }

    /** The segment-by-segment read loop. */
    method ReadSegments(lsn: Lsn, buf: array<byte>) returns (r: Result<(), StorageError>)
      requires segSize > 0
      modifies buf
      ensures var spec := ReadDisk(disk.cached, segSize, lsn, buf.Length);
              if spec.Ok? then r == Ok(()) && buf[..] == spec.value else r == Err(spec.error)
    {
      hide SegOf, OffOf, Behind;
      var done := 0;
      NothingBehind(ReadDisk(disk.cached, segSize, lsn, buf.Length));
      while done < buf.Length
        invariant done <= buf.Length
        invariant ReadDisk(disk.cached, segSize, lsn, buf.Length)
               == Behind(buf[..done], ReadDisk(disk.cached, segSize, lsn + done, buf.Length - done))
      {
        var index, offset := SegOf(segSize, lsn + done), OffOf(segSize, lsn + done);
        var n := Fits(segSize, lsn + done, buf.Length - done);
        if index !in disk.cached || offset + n > |disk.cached[index]| {
          BehindError(buf[..done]);
          return Err(Io);
        }
        var file := disk.cached[index];
        ghost var before := buf[..done];
        CopyInto(buf, done, file[offset..offset + n]);
        ReadStep(disk.cached, segSize, lsn + done, buf.Length - done);
        BehindBoth(before, file[offset..offset + n],
          ReadDisk(disk.cached, segSize, lsn + done + n, buf.Length - done - n));
        done := done + n;
      }
      BehindAll(buf[..]);
      assert buf[..] == buf[..done];
      return Ok(());
    }

    /** Remove the segment files wholly below `horizon` and raise the floor; count them. */
    method RemoveSegmentsBefore(horizon: Lsn) returns (removed: nat)
      requires segSize > 0
      modifies this`startLsn, this`disk
      ensures Value() == RecycleStore(old(Value()), horizon)
      ensures removed == |old(disk).cached| - |disk.cached|
    {
      hide SegOf, PosOf, Without;
      var horizonSeg, lo := SegOf(segSize, horizon), SegOf(segSize, startLsn);
      var index, floor := lo, startLsn;
      removed := 0;
      WithoutNone(disk.cached, lo);
      while index < horizonSeg
        invariant lo <= index <= Max(lo, horizonSeg)
        invariant startLsn == old(startLsn) && floor == if index == lo then startLsn else PosOf(segSize, index, 0)
        invariant disk == old(disk).(cached := Without(old(disk).cached, lo, index))
        invariant removed == |old(disk).cached| - |disk.cached|
      {
        WithoutMore(old(disk).cached, lo, index);
        if index in disk.cached {
          disk := disk.(cached := disk.cached - {index});
          removed := removed + 1;
        }
        index := index + 1;
        floor := PosOf(segSize, index, 0);
      }
      if lo < horizonSeg {
        BelowBoundary(segSize, startLsn, horizonSeg);
      }
      if floor > startLsn {
        startLsn := floor;
      }
    }
  }

  lemma WithoutNone(segs: Segments, lo: nat)
    ensures Without(segs, lo, lo) == segs
  {
  }

  lemma WithoutMore(segs: Segments, lo: nat, hi: nat)
    requires lo <= hi
    ensures var kept := Without(segs, lo, hi);
            && Without(segs, lo, hi + 1) == (if hi in kept then kept - {hi} else kept)
            && (hi in kept ==> |kept - {hi}| == |kept| - 1)
  {
    var kept := Without(segs, lo, hi);
    if hi in kept {
      assert kept.Keys == (kept - {hi}).Keys + {hi};
    }
  }

  /** Open the store on a disk; only an unreadable metadata file stops it. */
  method OpenStorage(segSize: nat, ringCapacity: nat, disk: Disk) returns (r: Result<Storage, StorageError>)
    requires segSize > 0
    ensures var spec := Open(segSize, ringCapacity, disk);
            if spec.Err? then r == Err(spec.error) else r.Ok? && fresh(r.value) && r.value.Value() == spec.value
  {
    var meta := ReadMeta(disk.meta);
    if meta.Err? {
      return Err(meta.error);
    }
    var s := new Storage(segSize, ringCapacity, disk);
    return Ok(s);
  }

  /** Copy `chunk` into `buf` at `at`. */
  method CopyInto(buf: array<byte>, at: nat, chunk: seq<byte>)
    requires at + |chunk| <= buf.Length
    modifies buf
    ensures buf[..at + |chunk|] == old(buf[..at]) + chunk
  {
    for i := 0 to |chunk|
      invariant buf[..at + i] == old(buf[..at]) + chunk[..i]
    {
      buf[at + i] := chunk[i];
    }
  }

  lemma SyncNone(d: Disk)
    ensures Sync(d, {}) == d
  {
  }

  lemma SyncMore(d: Disk, which: set<nat>, i: nat)
    ensures Sync(Sync(d, which), {i}) == Sync(d, which + {i})
    ensures Sync(d, which + {i}).cached == d.cached
  {
  }
}
