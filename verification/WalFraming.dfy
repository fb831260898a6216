/**
 * The framing inverse: a specification writer lays records out on WAL pages, and the
 * decoder gives back exactly those records at their start LSNs.
 */
module WalFraming {
  import opened Common
  import opened Bytes
  import opened WalStream
  import opened WalChunking

  /** Page header contents by LSN; only the length and the magic are constrained. */
  type Headers = Lsn -> seq<byte>

  ghost predicate GoodHeaders(cfg: Config, hdr: Headers)
    requires cfg.Valid()
  {
    forall l: Lsn :: AtPageStart(l) ==> |hdr(l)| == cfg.HeaderSize(l) && FromLe(hdr(l)[..2]) == PAGE_MAGIC
  }

  /** Lay payload bytes out from `lsn`, writing a header at every page start. */
  function Lay(cfg: Config, hdr: Headers, lsn: Lsn, data: seq<byte>): seq<byte>
    requires cfg.Valid()
    decreases |data|, if AtPageStart(lsn) then 1 else 0
  {
    if data == [] then []
    else
      var k := PieceLen(cfg, lsn, |data|);
      if AtPageStart(lsn) then hdr(lsn) + Lay(cfg, hdr, lsn + k, data)
      else data[..k] + Lay(cfg, hdr, lsn + k, data[k..])
  }

  /** A stream is a list of records and of page tails left as zeros. */
  datatype Item = Rec(bytes: seq<byte>) | ZeroTail

  ghost predicate WellFormed(item: Item) {
    item.Rec? ==> RECORD_HEADER <= |item.bytes| && FromLe(item.bytes[..4]) == |item.bytes|
  }

  /** Payload bytes left on the page holding `lsn`, after a header if it starts the page. */
  function Room(cfg: Config, lsn: Lsn): nat
    requires cfg.Valid()
  {
    if AtPageStart(lsn) then BLOCK - cfg.HeaderSize(lsn) else BLOCK - lsn % BLOCK
  }

  function Body(cfg: Config, hdr: Headers, lsn: Lsn, item: Item): seq<byte>
    requires cfg.Valid()
  {
    Lay(cfg, hdr, lsn, if item.Rec? then item.bytes else Zeros(Room(cfg, lsn)))
  }

  /** The stream: every item starts on an 8-byte boundary, after zero padding. */
  function Frame(cfg: Config, hdr: Headers, lsn: Lsn, items: seq<Item>): seq<byte>
    requires cfg.Valid()
    decreases |items|
  {
    if items == [] then []
    else
      var body := Body(cfg, hdr, lsn + Pad(lsn), items[0]);
      Zeros(Pad(lsn)) + body + Frame(cfg, hdr, lsn + Pad(lsn) + |body|, items[1..])
  }

  /** The records with the LSN of their first byte, past any page header in front of it. */
  function Placed(cfg: Config, hdr: Headers, lsn: Lsn, items: seq<Item>): seq<Framed>
    requires cfg.Valid()
    decreases |items|
  {
    if items == [] then []
    else
      var l := lsn + Pad(lsn);
      var rest := Placed(cfg, hdr, l + |Body(cfg, hdr, l, items[0])|, items[1..]);
      if items[0].ZeroTail? then rest
      else [(if AtPageStart(l) then l + cfg.HeaderSize(l) else l, items[0].bytes)] + rest
  }

  /** Collecting `n` bytes from laid-out data, whatever follows it, gives its first `n` bytes. */
  ghost predicate CollectsLaid(cfg: Config, hdr: Headers, lsn: Lsn, data: seq<byte>, rest: seq<byte>, n: nat)
    requires cfg.Valid() && n <= |data|
  {
    var c := Collect(cfg, lsn, Lay(cfg, hdr, lsn, data) + rest, n);
    c.Got? && c.payload == data[..n] && (n == |data| ==> c.raw == |Lay(cfg, hdr, lsn, data)|)
  }

  lemma LaidAtPageStart(cfg: Config, hdr: Headers, lsn: Lsn, data: seq<byte>, rest: seq<byte>, n: nat)
    requires cfg.Valid() && GoodHeaders(cfg, hdr) && 0 < n <= |data| && AtPageStart(lsn)
    requires CollectsLaid(cfg, hdr, lsn + cfg.HeaderSize(lsn), data, rest, n)
    ensures CollectsLaid(cfg, hdr, lsn, data, rest, n)
  {
    hide Config.HeaderSize, PieceLen, Collect, AtPageStart, FromLe;
    var tail := Lay(cfg, hdr, lsn + cfg.HeaderSize(lsn), data);
    assert Lay(cfg, hdr, lsn, data) == hdr(lsn) + tail;
    hide Config.HeaderSize, Collect, Lay, FromLe;
    CollectHeader(cfg, lsn, hdr(lsn), tail + rest, n);
    assert Lay(cfg, hdr, lsn, data) + rest == hdr(lsn) + (tail + rest);
  }

  lemma LaidLongRun(cfg: Config, hdr: Headers, lsn: Lsn, data: seq<byte>, rest: seq<byte>, n: nat)
    requires cfg.Valid() && 0 < n <= |data| && !AtPageStart(lsn)
    requires PieceLen(cfg, lsn, |data|) < n
    requires var k := PieceLen(cfg, lsn, |data|); CollectsLaid(cfg, hdr, lsn + k, data[k..], rest, n - k)
    ensures CollectsLaid(cfg, hdr, lsn, data, rest, n)
  {
    hide Config.HeaderSize, AtPageStart, PieceLen, Collect;
    var k := PieceLen(cfg, lsn, |data|);
    var tail := Lay(cfg, hdr, lsn + k, data[k..]);
    assert Lay(cfg, hdr, lsn, data) == data[..k] + tail;
    PieceLenShorter(cfg, lsn, |data|, n);
    hide Config.HeaderSize, Collect, Lay, AtPageStart, PieceLen;
    CollectChunk(cfg, lsn, data[..k], tail + rest, n);
    assert Lay(cfg, hdr, lsn, data) + rest == data[..k] + (tail + rest);
    assert data[..n] == data[..k] + data[k..][..n - k];
  }

  lemma LaidShortRun(cfg: Config, hdr: Headers, lsn: Lsn, data: seq<byte>, rest: seq<byte>, n: nat)
    requires cfg.Valid() && 0 < n <= |data| && !AtPageStart(lsn)
    requires n <= PieceLen(cfg, lsn, |data|)
    ensures CollectsLaid(cfg, hdr, lsn, data, rest, n)
  {
  }

  lemma {:induction false} CollectLaid(cfg: Config, hdr: Headers, lsn: Lsn, data: seq<byte>, rest: seq<byte>, n: nat)
    requires cfg.Valid() && GoodHeaders(cfg, hdr) && 0 < n <= |data|
    ensures CollectsLaid(cfg, hdr, lsn, data, rest, n)
    decreases |data|, if AtPageStart(lsn) then 1 else 0
  {
    hide Config.HeaderSize, CollectsLaid, AtPageStart, PieceLen;
    var k := PieceLen(cfg, lsn, |data|);
    if AtPageStart(lsn) {
      CollectLaid(cfg, hdr, lsn + k, data, rest, n);
      LaidAtPageStart(cfg, hdr, lsn, data, rest, n);
    } else if n <= k {
      LaidShortRun(cfg, hdr, lsn, data, rest, n);
    } else {
      CollectLaid(cfg, hdr, lsn + k, data[k..], rest, n - k);
      LaidLongRun(cfg, hdr, lsn, data, rest, n);
    }
  }

  lemma PieceLenShorter(cfg: Config, lsn: Lsn, m: nat, n: nat)
    requires cfg.Valid() && 0 < n <= m && !AtPageStart(lsn)
    ensures PieceLen(cfg, lsn, n) == Min(n, PieceLen(cfg, lsn, m))
  {
  }

  /** Payload that exactly fills the page is one run, after a header at a page start. */
  lemma LayToPageEnd(cfg: Config, hdr: Headers, lsn: Lsn, data: seq<byte>)
    requires cfg.Valid() && !AtPageStart(lsn) && |data| == BLOCK - lsn % BLOCK
    ensures Lay(cfg, hdr, lsn, data) == data
  {
  }

  /** On a zero tail the body runs exactly to the next page. */
  lemma ZeroTailLength(cfg: Config, hdr: Headers, lsn: Lsn)
    requires cfg.Valid() && GoodHeaders(cfg, hdr) && Aligned(lsn)
    ensures Room(cfg, lsn) >= 4
    ensures lsn + |Body(cfg, hdr, lsn, ZeroTail)| ==
            NextPage(if AtPageStart(lsn) then lsn + cfg.HeaderSize(lsn) else lsn)
  {
    var room := Room(cfg, lsn);
    var l := if AtPageStart(lsn) then lsn + cfg.HeaderSize(lsn) else lsn;
    RoomToPageEnd(cfg, lsn, l);
    hide Config.HeaderSize, FromLe, NextPage;
    LayToPageEnd(cfg, hdr, l, Zeros(room));
  }

  lemma RoomToPageEnd(cfg: Config, lsn: Lsn, l: Lsn)
    requires cfg.Valid() && Aligned(lsn) && l == if AtPageStart(lsn) then lsn + cfg.HeaderSize(lsn) else lsn
    ensures !AtPageStart(l) && BLOCK - l % BLOCK == Room(cfg, lsn) >= 4 && NextPage(l) == l + Room(cfg, lsn)
  {
    var q, r := l / BLOCK, l % BLOCK;
    assert l == q * BLOCK + r;
    if AtPageStart(lsn) {
      assert lsn == (lsn / BLOCK) * BLOCK;
      assert r == cfg.HeaderSize(lsn);
    } else {
      assert lsn % BLOCK == lsn - BLOCK * (lsn / BLOCK) && lsn % 8 == 0;
      assert r % 8 == 0;
    }
  }

  /** One item: a poll over it emits the record, or skips the zero tail and goes on. */
  lemma PollItem(cfg: Config, hdr: Headers, lsn: Lsn, item: Item, rest: seq<byte>)
    requires cfg.Valid() && GoodHeaders(cfg, hdr) && Aligned(lsn) && WellFormed(item)
    ensures var body := Body(cfg, hdr, lsn, item);
            var at := if AtPageStart(lsn) then lsn + cfg.HeaderSize(lsn) else lsn;
            if item.Rec? then PollAligned(cfg, lsn, body + rest) == Record(at, item.bytes, lsn + |body|, rest)
            else Aligned(lsn + |body|) && PollAligned(cfg, lsn, body + rest) == PollAligned(cfg, lsn + |body|, rest)
  {
    hide Config.HeaderSize, AtPageStart, Aligned, Collect, FromLe, Lay, NextPage;
    var body := Body(cfg, hdr, lsn, item);
    assert (body + rest)[|body|..] == rest;
    if item.Rec? {
      CollectLaid(cfg, hdr, lsn, item.bytes, rest, 4);
      CollectLaid(cfg, hdr, lsn, item.bytes, rest, |item.bytes|);
      assert item.bytes[..|item.bytes|] == item.bytes;
    } else {
      ZeroTailLength(cfg, hdr, lsn);
      var zeros := Zeros(Room(cfg, lsn));
      CollectLaid(cfg, hdr, lsn, zeros, rest, 4);
      assert zeros[..4] == Zeros(4);
      ZerosAreZero(4);
    }
  }

  /** Draining a framed stream emits its records, then whatever follows the stream. */
  ghost predicate Inverts(cfg: Config, hdr: Headers, lsn: Lsn, items: seq<Item>, rest: seq<byte>)
    requires cfg.Valid()
  {
    var stream := Frame(cfg, hdr, lsn, items);
    var after := Drain(cfg, lsn + |stream|, rest);
    Drain(cfg, lsn, stream + rest) == Drained(Placed(cfg, hdr, lsn, items) + after.records, after.stop)
  }

  lemma InvertsOneMore(cfg: Config, hdr: Headers, lsn: Lsn, items: seq<Item>, rest: seq<byte>)
    requires cfg.Valid() && GoodHeaders(cfg, hdr) && items != [] && WellFormed(items[0])
    requires Inverts(cfg, hdr, lsn + Pad(lsn) + |Body(cfg, hdr, lsn + Pad(lsn), items[0])|, items[1..], rest)
    ensures Inverts(cfg, hdr, lsn, items, rest)
  {
    hide Config.HeaderSize, AtPageStart, Aligned, Pad, Body, Poll, Drain, Zeros, FromLe;
    var l := lsn + Pad(lsn);
    var body := Body(cfg, hdr, l, items[0]);
    var tail := Frame(cfg, hdr, l + |body|, items[1..]);
    var placed := Placed(cfg, hdr, l + |body|, items[1..]);
    var at := if AtPageStart(l) then l + cfg.HeaderSize(l) else l;
    var stream, all := Frame(cfg, hdr, lsn, items), Placed(cfg, hdr, lsn, items);
    assert stream == Zeros(Pad(lsn)) + body + tail;
    assert all == if items[0].ZeroTail? then placed else [(at, items[0].bytes)] + placed;
    PollFramed(cfg, hdr, lsn, items[0], tail + rest);
    Regroup(Zeros(Pad(lsn)), body, tail, rest);
    var after := Drain(cfg, lsn + |stream|, rest);
    assert lsn + |stream| == l + |body| + |tail|;
    hide Frame, Placed;
    if items[0].ZeroTail? {
      DrainSame(cfg, lsn, stream + rest, l + |body|, tail + rest);
    } else {
      DrainRecord(cfg, lsn, stream + rest, at, items[0].bytes, l + |body|, tail + rest);
      Regroup([], [(at, items[0].bytes)], placed, after.records);
    }
  }

  /** The framing inverse, with any bytes following the framed stream. */
  lemma {:induction false} FramingInverse(cfg: Config, hdr: Headers, lsn: Lsn, items: seq<Item>, rest: seq<byte>)
    requires cfg.Valid() && GoodHeaders(cfg, hdr) && forall i :: 0 <= i < |items| ==> WellFormed(items[i])
    ensures Inverts(cfg, hdr, lsn, items, rest)
    decreases |items|
  {
    hide Config.HeaderSize, AtPageStart, Body, Pad, Poll, GoodHeaders;
    if items == [] {
      assert [] + rest == rest && [] + Drain(cfg, lsn, rest).records == Drain(cfg, lsn, rest).records;
    } else {
      hide Inverts;
      FramingInverse(cfg, hdr, lsn + Pad(lsn) + |Body(cfg, hdr, lsn + Pad(lsn), items[0])|, items[1..], rest);
      InvertsOneMore(cfg, hdr, lsn, items, rest);
    }
  }

  lemma Regroup<T>(a: seq<T>, b: seq<T>, c: seq<T>, d: seq<T>)
    ensures a + b + c + d == a + b + (c + d)
    ensures [] + b + c == b + c && [] + b + (c + d) == b + (c + d)
  {
  }

  lemma PollFramed(cfg: Config, hdr: Headers, lsn: Lsn, item: Item, rest: seq<byte>)
    requires cfg.Valid() && GoodHeaders(cfg, hdr) && WellFormed(item)
    ensures var l := lsn + Pad(lsn);
            var body := Body(cfg, hdr, l, item);
            var at := if AtPageStart(l) then l + cfg.HeaderSize(l) else l;
            Poll(cfg, lsn, Zeros(Pad(lsn)) + body + rest) ==
            if item.Rec? then Record(at, item.bytes, l + |body|, rest) else Poll(cfg, l + |body|, rest)
  {
    hide Config.HeaderSize, PollAligned, Pad, Aligned, AtPageStart, Body;
    var l := lsn + Pad(lsn);
    var body := Body(cfg, hdr, l, item);
    PollItem(cfg, hdr, l, item, rest);
    assert (Zeros(Pad(lsn)) + body + rest)[Pad(lsn)..] == body + rest;
    assert item.ZeroTail? ==> Pad(l + |body|) == 0 && rest[0..] == rest;
  }

  lemma DrainSame(cfg: Config, l1: Lsn, b1: seq<byte>, l2: Lsn, b2: seq<byte>)
    requires cfg.Valid() && Poll(cfg, l1, b1) == Poll(cfg, l2, b2)
    ensures Drain(cfg, l1, b1) == Drain(cfg, l2, b2)
  {
  }

  lemma DrainRecord(cfg: Config, lsn: Lsn, buf: seq<byte>, at: Lsn, bytes: seq<byte>, l: Lsn, b: seq<byte>)
    requires cfg.Valid() && Poll(cfg, lsn, buf) == Record(at, bytes, l, b)
    ensures Drain(cfg, lsn, buf) == Drained([(at, bytes)] + Drain(cfg, l, b).records, Drain(cfg, l, b).stop)
  {
    hide Config.HeaderSize, Poll;
  }

  lemma DrainFramed(cfg: Config, hdr: Headers, start: Lsn, items: seq<Item>)
    requires cfg.Valid() && GoodHeaders(cfg, hdr) && forall i :: 0 <= i < |items| ==> WellFormed(items[i])
    ensures var d := Drain(cfg, start, Frame(cfg, hdr, start, items));
            d.records == Placed(cfg, hdr, start, items) && d.stop.NeedMore? && d.stop.buf == []
  {
    hide Config.HeaderSize, GoodHeaders, Frame, Placed, Drain, WellFormed;
    var stream := Frame(cfg, hdr, start, items);
    FramingInverse(cfg, hdr, start, items, []);
    assert stream + [] == stream;
    DrainNothing(cfg, start + |stream|);
  }

  /** Feeding a framed stream in any chunks, then draining, yields exactly its records. */
  lemma FramedStreamDecodes(cfg: Config, hdr: Headers, start: Lsn, items: seq<Item>, actions: seq<Action>)
    requires cfg.Valid() && GoodHeaders(cfg, hdr) && forall i :: 0 <= i < |items| ==> WellFormed(items[i])
    requires Fed(actions) == Frame(cfg, hdr, start, items)
    ensures var o := Outlook(cfg, Schedule(cfg, start, actions));
            && o.records == Placed(cfg, hdr, start, items)
            && o.stop.NeedMore? && o.stop.buf == []
  {
    hide *;
    ChunkIndependence(cfg, start, actions);
    DrainFramed(cfg, hdr, start, items);
  }
}
