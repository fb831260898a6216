/** Segment files and the metadata file of a WAL store, with fsync and crashes. */
module WalDisk {
  import opened Common
  import opened Bytes
  import opened FlatLog

  type Segments = map<nat, seq<byte>>

  // ---- Positions and segments ----

  function SegOf(size: nat, p: Lsn): nat
    requires size > 0
  {
    p / size
  }

  function OffOf(size: nat, p: Lsn): (o: nat)
    requires size > 0
    ensures o < size
  {
    p % size
  }

  /** The position of byte `off` of segment `i`. */
  function PosOf(size: nat, i: nat, off: nat): Lsn {
    i * size + off
  }

  lemma PosRoundTrip(size: nat, p: Lsn)
    requires size > 0
    ensures PosOf(size, SegOf(size, p), OffOf(size, p)) == p
  {
  }

  lemma SegRoundTrip(size: nat, i: nat, off: nat)
    requires off < size
    ensures SegOf(size, PosOf(size, i, off)) == i && OffOf(size, PosOf(size, i, off)) == off
  {
    var p := PosOf(size, i, off);
    DivUnique(size, p / size, p % size, i, off);
  }

  lemma DivUnique(size: nat, q: int, r: nat, i: int, off: nat)
    requires q * size + r == i * size + off && r < size && off < size
    ensures q == i && r == off
  {
    assert (q - i) * size == q * size - i * size;
    MulGrows(q - i, size);
  }

  lemma MulGrows(d: int, size: nat)
    ensures d >= 1 ==> d * size >= size
    ensures d <= -1 ==> d * size + size <= 0
    ensures d == 0 ==> d * size == 0
  {
  }

  lemma MulMonotone(a: nat, b: nat, size: nat)
    ensures a <= b ==> a * size <= b * size
  {
  }

  /** Positions in one segment are ordered by offset; later segments hold later positions. */
  lemma SegMonotone(size: nat, p: Lsn, q: Lsn)
    requires size > 0 && p <= q
    ensures SegOf(size, p) <= SegOf(size, q)
    ensures SegOf(size, p) == SegOf(size, q) ==> q - p == OffOf(size, q) - OffOf(size, p)
  {
    PosRoundTrip(size, p);
    PosRoundTrip(size, q);
    MulMonotone(SegOf(size, q) + 1, SegOf(size, p), size);
  }

  // ---- Segment files ----

  /** The byte stored for position `p`, if its segment file has one. */
  function ByteAt(segs: Segments, size: nat, p: Lsn): Option<byte>
    requires size > 0
  {
    var i, o := SegOf(size, p), OffOf(size, p);
    if i in segs && o < |segs[i]| then Some(segs[i][o]) else None
  }

  /** How many of `n` bytes at `pos` fit in the segment of `pos`. */
  function Fits(size: nat, pos: Lsn, n: nat): (k: nat)
    requires size > 0
    ensures k <= n && (n > 0 ==> k > 0) && OffOf(size, pos) + k <= size
  {
    Min(size - OffOf(size, pos), n)
  }

  /** The segments a write of `n` bytes at `pos` goes to. */
  function Touched(size: nat, pos: Lsn, n: nat): set<nat>
    requires size > 0
    decreases n
  {
    if n == 0 then {}
    else
      var k := Fits(size, pos, n);
      {SegOf(size, pos)} + Touched(size, pos + k, n - k)
  }

  /** Overwrite a file from `off` on, zero-filling any gap before `off`. */
  function WriteFile(content: seq<byte>, off: nat, chunk: seq<byte>): seq<byte> {
    seq(Max(|content|, off + |chunk|), k requires 0 <= k < Max(|content|, off + |chunk|) =>
      if off <= k < off + |chunk| then chunk[k - off] else if k < |content| then content[k] else 0)
  }

  /** Write bytes that fit in one segment; a new segment file is first extended with zeros. */
  function WriteChunk(segs: Segments, size: nat, pos: Lsn, chunk: seq<byte>): Segments
    requires size > 0
  {
    var i := SegOf(size, pos);
    var content := if i in segs then segs[i] else Zeros(size);
    segs[i := WriteFile(content, OffOf(size, pos), chunk)]
  }

  /** Write `data` at `pos`, segment by segment. */
  function WriteSegments(segs: Segments, size: nat, pos: Lsn, data: seq<byte>): Segments
    requires size > 0
    decreases |data|
  {
    if data == [] then segs
    else
      var k := Fits(size, pos, |data|);
      WriteSegments(WriteChunk(segs, size, pos, data[..k]), size, pos + k, data[k..])
  }

  lemma SameSegment(size: nat, p: Lsn, k: nat)
    requires size > 0 && OffOf(size, p) + k < size
    ensures SegOf(size, p + k) == SegOf(size, p) && OffOf(size, p + k) == OffOf(size, p) + k
  {
    PosRoundTrip(size, p);
    SegRoundTrip(size, SegOf(size, p), OffOf(size, p) + k);
  }

  lemma ChunkEffect(segs: Segments, size: nat, pos: Lsn, chunk: seq<byte>, p: Lsn)
    requires size > 0 && OffOf(size, pos) + |chunk| <= size
    ensures pos <= p < pos + |chunk| ==> ByteAt(WriteChunk(segs, size, pos, chunk), size, p) == Some(chunk[p - pos])
    ensures !(pos <= p < pos + |chunk|) && ByteAt(segs, size, p).Some? ==>
              ByteAt(WriteChunk(segs, size, pos, chunk), size, p) == ByteAt(segs, size, p)
  {
    if pos <= p < pos + |chunk| {
      SameSegment(size, pos, p - pos);
    } else if p >= pos {
      SegMonotone(size, pos, p);
    } else {
      SegMonotone(size, p, pos);
    }
    hide SegOf, OffOf;
  }

  /** What a write does to each position: new bytes in range, everything else kept. */
  lemma {:induction false} WriteEffect(segs: Segments, size: nat, pos: Lsn, data: seq<byte>, p: Lsn)
    requires size > 0
    ensures pos <= p < pos + |data| ==> ByteAt(WriteSegments(segs, size, pos, data), size, p) == Some(data[p - pos])
    ensures !(pos <= p < pos + |data|) && ByteAt(segs, size, p).Some? ==>
              ByteAt(WriteSegments(segs, size, pos, data), size, p) == ByteAt(segs, size, p)
    decreases |data|
  {
    hide ByteAt, WriteChunk, OffOf;
    if data != [] {
      var k := Fits(size, pos, |data|);
      ChunkEffect(segs, size, pos, data[..k], p);
      WriteEffect(WriteChunk(segs, size, pos, data[..k]), size, pos + k, data[k..], p);
    }
  }

  /** Every position written to lies in a touched segment. */
  lemma {:induction false} InTouched(size: nat, pos: Lsn, n: nat, p: Lsn)
    requires size > 0 && pos <= p < pos + n
    ensures SegOf(size, p) in Touched(size, pos, n)
    decreases n
  {
    var k := Fits(size, pos, n);
    if p < pos + k {
      SameSegment(size, pos, p - pos);
    } else {
      InTouched(size, pos + k, n - k, p);
    }
  }

  /** Touched segments exist after the write and lie at or above the position written. */
  lemma {:induction false} TouchedWritten(segs: Segments, size: nat, pos: Lsn, data: seq<byte>, i: nat)
    requires size > 0
    ensures i in segs ==> i in WriteSegments(segs, size, pos, data)
    ensures i in Touched(size, pos, |data|) ==> i in WriteSegments(segs, size, pos, data) && SegOf(size, pos) <= i
    decreases |data|
  {
    if data != [] {
      var k := Fits(size, pos, |data|);
      SegMonotone(size, pos, pos + k);
      hide SegOf, OffOf, WriteFile;
      TouchedWritten(WriteChunk(segs, size, pos, data[..k]), size, pos + k, data[k..], i);
    }
  }

  // ---- The disk ----

  /** `cached` is what reads see; `stable` is each file as of its last fsync. */
  datatype Disk = Disk(cached: Segments, stable: Segments, meta: Option<seq<byte>>)

  const META_MAGIC: u32 := 0x534B_4D31

  function EncodeMeta(start: Lsn, flush: Lsn): seq<byte> {
    Be(META_MAGIC, 4) + Be(start, 8) + Be(flush, 8)
  }

  function ReadMeta(meta: Option<seq<byte>>): Result<Option<(Lsn, Lsn)>, StorageError> {
    if meta.None? then Ok(None)
    else
      var m := meta.value;
      if |m| != 20 || FromBe(m[..4]) != META_MAGIC then Err(CorruptMeta)
      else Ok(Some((FromBe(m[4..12]), FromBe(m[12..]))))
  }

  lemma MetaRoundTrip(start: u64, flush: u64)
    ensures ReadMeta(Some(EncodeMeta(start, flush))) == Ok(Some((start, flush)))
  {
    Spans();
    BeRoundTrip(META_MAGIC, 4);
    BeRoundTrip(start, 8);
    BeRoundTrip(flush, 8);
    var m := EncodeMeta(start, flush);
    assert m[..4] == Be(META_MAGIC, 4) && m[4..12] == Be(start, 8) && m[12..] == Be(flush, 8);
  }

  /** fsync the segment files in `which`. */
  function Sync(d: Disk, which: set<nat>): Disk {
    d.(stable := map i | i in d.stable.Keys + (which * d.cached.Keys) ::
         if i in which && i in d.cached then d.cached[i] else d.stable[i])
  }

  /**
   * A crash keeps the metadata file and every byte that was not written since its file was
   * last synced; any other byte, and any other file, may come back as anything.
   */
  ghost predicate CrashTo(d: Disk, d': Disk, size: nat)
    requires size > 0
  {
    && d'.meta == d.meta && d'.stable == d'.cached
    && forall p: Lsn :: ByteAt(d.stable, size, p).Some? && ByteAt(d.stable, size, p) == ByteAt(d.cached, size, p) ==>
         ByteAt(d'.cached, size, p) == ByteAt(d.stable, size, p)
  }

  /** `segs` holds the bytes of `log` from `lo` up to `hi`. */
  ghost predicate Holds(segs: Segments, size: nat, log: Log, lo: Lsn, hi: Lsn)
    requires size > 0 && log.origin <= lo && hi <= log.End()
  {
    forall p: Lsn :: lo <= p < hi ==> ByteAt(segs, size, p) == Some(log.bytes[p - log.origin])
  }
}
