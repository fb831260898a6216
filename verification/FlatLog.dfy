/** The log a WAL store promises: bytes by LSN, a retained floor and a durable frontier. */
module FlatLog {
  import opened Common

  datatype StorageError =
    | NonContiguous(expected: Lsn, got: Lsn)
    | OutOfRange(first: Lsn, end: Lsn, lo: Lsn, hi: Lsn)
    | CorruptMeta
    | Io

  /** `bytes[i]` is the byte at `origin + i`. Bytes below `start` may be gone. */
  datatype Log = Log(origin: Lsn, bytes: seq<byte>, start: Lsn, flushed: Lsn) {
    function End(): Lsn {
      origin + |bytes|
    }

    ghost predicate Valid() {
      origin <= start <= flushed <= End()
    }
  }

  const EMPTY := Log(0, [], 0, 0)

  /** An empty store at LSN 0 takes its origin from the first append. */
  function Seeded(l: Log, lsn: Lsn): Log {
    if l.End() == 0 && l.start == 0 then Log(lsn, [], lsn, lsn) else l
  }

  function Append(l: Log, lsn: Lsn, data: seq<byte>): Result<Log, StorageError> {
    var s := Seeded(l, lsn);
    if lsn != s.End() then Err(NonContiguous(s.End(), lsn)) else Ok(s.(bytes := s.bytes + data))
  }

  function Flush(l: Log): Log {
    l.(flushed := l.End())
  }

  function Read(l: Log, lsn: Lsn, n: nat): Result<seq<byte>, StorageError>
    requires l.Valid()
  {
    if lsn < l.start || lsn + n > l.End() then Err(OutOfRange(lsn, lsn + n, l.start, l.End()))
    else Ok(l.bytes[lsn - l.origin..][..n])
  }

  /** A crash loses exactly what was appended after the last flush. */
  function Crash(l: Log): Log {
    if l.origin <= l.flushed <= l.End() then l.(bytes := l.bytes[..l.flushed - l.origin]) else l
  }

  /** Dropping whole segments below `horizon` moves the retained floor to a segment boundary. */
  function Recycle(l: Log, segSize: nat, horizon: Lsn): Log
    requires segSize > 0
  {
    if l.start / segSize < horizon / segSize then l.(start := (horizon / segSize) * segSize) else l
  }
}
