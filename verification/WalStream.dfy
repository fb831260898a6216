/**
 * Framing a raw WAL byte stream into records. `Poll` is one call of the incremental
 * decoder as a function of its position and buffered bytes.
 */
module WalStream {
  import opened Common
  import opened Bytes
  import opened WalErrors

  const BLOCK: nat := PAGE_SIZE
  const RECORD_HEADER: nat := 24
  const SHORT_HEADER: nat := 24
  const LONG_HEADER: nat := 40
  const PAGE_MAGIC: nat := 0xD113

  /** Segment size and whether page magics are validated. */
  datatype Config = Config(segSize: nat, checkMagic: bool) {
    ghost predicate Valid() { segSize > 0 }

    function HeaderSize(lsn: Lsn): (h: nat)
      requires segSize > 0
      ensures h == LONG_HEADER || h == SHORT_HEADER
    {
      if lsn % segSize == 0 then LONG_HEADER else SHORT_HEADER
    }

    /** Whether the page header starting `bytes` passes validation. */
    function CheckHeader(bytes: seq<byte>): Option<WalDecodeError>
      requires |bytes| >= 2
    {
      var magic := FromLe(bytes[..2]);
      if checkMagic && magic != PAGE_MAGIC then Some(BadPageMagic(magic, PAGE_MAGIC)) else None
    }
  }

  datatype Collected = More | Fail(error: WalDecodeError) | Got(payload: seq<byte>, raw: nat, start: Lsn)

  predicate AtPageStart(lsn: Lsn) {
    lsn % BLOCK == 0
  }

  /** The next run of bytes on the way to `n` payload bytes: a page header, or payload up to the page end. */
  function PieceLen(cfg: Config, lsn: Lsn, n: nat): (k: nat)
    requires cfg.Valid() && n > 0
    ensures k > 0
    ensures AtPageStart(lsn) ==> k == cfg.HeaderSize(lsn) && !AtPageStart(lsn + k)
    ensures !AtPageStart(lsn) ==> k <= n && (k < n ==> AtPageStart(lsn + k))
  {
    if AtPageStart(lsn) then cfg.HeaderSize(lsn) else Min(n, BLOCK - lsn % BLOCK)
  }

  /** Take `n` payload bytes from the front of `buf`, which sits at `lsn`, skipping page headers. */
  function Collect(cfg: Config, lsn: Lsn, buf: seq<byte>, n: nat): (c: Collected)
    requires cfg.Valid()
    ensures c.Got? ==> |c.payload| == n <= c.raw <= |buf|
    ensures c.Got? ==> c.start == if n > 0 && AtPageStart(lsn) then lsn + cfg.HeaderSize(lsn) else lsn
    decreases n, if AtPageStart(lsn) then 1 else 0
  {
    if n == 0 then Got([], 0, lsn)
    else
      var k := PieceLen(cfg, lsn, n);
      if k > |buf| then More
      else if AtPageStart(lsn) then
        var bad := cfg.CheckHeader(buf);
        if bad.Some? then Fail(bad.value)
        else match Collect(cfg, lsn + k, buf[k..], n)
          case Got(p, raw, start) => Got(p, raw + k, start)
          case other => other
      else match Collect(cfg, lsn + k, buf[k..], n - k)
        case Got(p, raw, _) => Got(buf[..k] + p, raw + k, lsn)
        case other => other
  }

  /** A collected result that follows `k` raw bytes carrying payload `p`. */
  function After(c: Collected, k: nat, p: seq<byte>, start: Option<Lsn>): Collected {
    if c.Got? then Got(p + c.payload, c.raw + k, if start.Some? then start.value else c.start) else c
  }

  lemma CollectEnds(cfg: Config, lsn: Lsn, buf: seq<byte>, n: nat)
    requires cfg.Valid()
    ensures n == 0 ==> Collect(cfg, lsn, buf, n) == Got([], 0, lsn)
    ensures n > 0 && PieceLen(cfg, lsn, n) > |buf| ==> Collect(cfg, lsn, buf, n) == More
    ensures n > 0 && AtPageStart(lsn) && PieceLen(cfg, lsn, n) <= |buf| && cfg.CheckHeader(buf).Some? ==>
              Collect(cfg, lsn, buf, n) == Fail(cfg.CheckHeader(buf).value)
  {
  }

  lemma CollectHeader(cfg: Config, lsn: Lsn, header: seq<byte>, rest: seq<byte>, n: nat)
    requires cfg.Valid() && AtPageStart(lsn) && n > 0
    requires |header| == cfg.HeaderSize(lsn) && cfg.CheckHeader(header).None?
    ensures Collect(cfg, lsn, header + rest, n) == After(Collect(cfg, lsn + |header|, rest, n), |header|, [], None)
  {
    hide Config.HeaderSize, AtPageStart, FromLe, PieceLen;
    assert (header + rest)[..2] == header[..2] && (header + rest)[|header|..] == rest;
    var c := Collect(cfg, lsn + |header|, rest, n);
    assert c.Got? ==> [] + c.payload == c.payload;
  }

  lemma CollectChunk(cfg: Config, lsn: Lsn, chunk: seq<byte>, rest: seq<byte>, n: nat)
    requires cfg.Valid() && !AtPageStart(lsn) && n > 0 && |chunk| == PieceLen(cfg, lsn, n)
    ensures Collect(cfg, lsn, chunk + rest, n) ==
            After(Collect(cfg, lsn + |chunk|, rest, n - |chunk|), |chunk|, chunk, Some(lsn))
  {
    hide Config.HeaderSize, AtPageStart, PieceLen;
    assert (chunk + rest)[..|chunk|] == chunk && (chunk + rest)[|chunk|..] == rest;
  }

  datatype Polled =
    | Pending(lsn: Lsn, buf: seq<byte>)
    | Failed(error: WalDecodeError, lsn: Lsn, buf: seq<byte>)
    | Record(at: Lsn, bytes: seq<byte>, lsn: Lsn, buf: seq<byte>)

  predicate Aligned(lsn: Lsn) {
    lsn % 8 == 0
  }

  /** Bytes from `lsn` to the next 8-byte boundary. */
  function Pad(lsn: Lsn): (p: nat)
    ensures p < 8 && Aligned(lsn + p) && (Aligned(lsn) ==> p == 0)
  {
    if lsn % 8 == 0 then 0 else 8 - lsn % 8
  }

  /** The start of the page after the one holding `lsn`. */
  function NextPage(lsn: Lsn): (l: Lsn)
    ensures lsn < l <= lsn + BLOCK && AtPageStart(l) && Aligned(l)
  {
    (lsn / BLOCK + 1) * BLOCK
  }

  /** One `poll_decode` call: the outcome with the position and buffer it leaves behind. */
  function Poll(cfg: Config, lsn: Lsn, buf: seq<byte>): (r: Polled)
    requires cfg.Valid()
    ensures r.lsn + |r.buf| == lsn + |buf|
    ensures r.Record? ==> |r.buf| < |buf|
  {
    if Pad(lsn) > |buf| then Pending(lsn, buf) else PollAligned(cfg, lsn + Pad(lsn), buf[Pad(lsn)..])
  }

  function PollAligned(cfg: Config, lsn: Lsn, buf: seq<byte>): (r: Polled)
    requires cfg.Valid() && Aligned(lsn)
    ensures r.lsn + |r.buf| == lsn + |buf|
    ensures r.Record? ==> |r.buf| < |buf|
    decreases |buf|
  {
    hide Config.HeaderSize, Collect, FromLe, NextPage, Aligned, AtPageStart;
    match Collect(cfg, lsn, buf, 4)
    case More => Pending(lsn, buf)
    case Fail(e) => Failed(e, lsn, buf)
    case Got(lenBytes, _, recLsn) =>
      var totLen := FromLe(lenBytes);
      if totLen < RECORD_HEADER then
        var skip := NextPage(recLsn) - lsn;
        if skip > |buf| then Pending(lsn, buf) else PollAligned(cfg, NextPage(recLsn), buf[skip..])
      else
        match Collect(cfg, lsn, buf, totLen)
        case More => Pending(lsn, buf)
        case Fail(e) => Failed(e, lsn, buf)
        case Got(rec, raw, at) => Record(at, rec, lsn + raw, buf[raw..])
  }
}
