/**
 * The stream decoder is chunk-independent: however the bytes are cut into feeds and
 * whenever the decoder is polled, the records, their LSNs and the first error are those
 * of feeding everything at once. This holds for every byte stream, well-formed or not.
 */
module WalChunking {
  import opened Common
  import opened WalErrors
  import opened WalStream

  // ---- More bytes never change an answer already given ----

  lemma {:induction false} CollectExtends(cfg: Config, lsn: Lsn, buf: seq<byte>, ext: seq<byte>, n: nat)
    requires cfg.Valid()
    ensures !Collect(cfg, lsn, buf, n).More? ==> Collect(cfg, lsn, buf + ext, n) == Collect(cfg, lsn, buf, n)
    decreases n, if AtPageStart(lsn) then 1 else 0
  {
    hide Config.HeaderSize, PieceLen, AtPageStart;
    if n > 0 {
      var k := PieceLen(cfg, lsn, n);
      if k <= |buf| {
        assert (buf + ext)[..k] == buf[..k] && (buf + ext)[k..] == buf[k..] + ext;
        if AtPageStart(lsn) {
          assert (buf + ext)[..2] == buf[..2];
          CollectExtends(cfg, lsn + k, buf[k..], ext, n);
        } else {
          CollectExtends(cfg, lsn + k, buf[k..], ext, n - k);
        }
      }
    }
  }

  function Extend(r: Polled, ext: seq<byte>): Polled {
    match r
    case Pending(lsn, buf) => Pending(lsn, buf + ext)
    case Failed(e, lsn, buf) => Failed(e, lsn, buf + ext)
    case Record(at, bytes, lsn, buf) => Record(at, bytes, lsn, buf + ext)
  }

  /** A pending poll may have advanced, but only over bytes any later poll would skip too. */
  lemma {:induction false} PollAlignedExtends(cfg: Config, lsn: Lsn, buf: seq<byte>, ext: seq<byte>)
    requires cfg.Valid() && Aligned(lsn)
    ensures var r := PollAligned(cfg, lsn, buf);
            if r.Pending? then
              Aligned(r.lsn) && PollAligned(cfg, lsn, buf + ext) == PollAligned(cfg, r.lsn, r.buf + ext)
            else PollAligned(cfg, lsn, buf + ext) == Extend(r, ext)
    decreases |buf|
  {
    hide Config.HeaderSize, Collect, Bytes.FromLe, NextPage, Aligned, AtPageStart;
    CollectExtends(cfg, lsn, buf, ext, 4);
    var len := Collect(cfg, lsn, buf, 4);
    if len.Got? {
      var totLen := Bytes.FromLe(len.payload);
      if totLen < RECORD_HEADER {
        var skip := NextPage(len.start) - lsn;
        if skip <= |buf| {
          assert (buf + ext)[skip..] == buf[skip..] + ext;
          PollAlignedExtends(cfg, NextPage(len.start), buf[skip..], ext);
        }
      } else {
        CollectExtends(cfg, lsn, buf, ext, totLen);
        var rec := Collect(cfg, lsn, buf, totLen);
        if rec.Got? {
          assert (buf + ext)[rec.raw..] == buf[rec.raw..] + ext;
        }
      }
    }
  }

  lemma PollExtends(cfg: Config, lsn: Lsn, buf: seq<byte>, ext: seq<byte>)
    requires cfg.Valid()
    ensures var r := Poll(cfg, lsn, buf);
            Poll(cfg, lsn, buf + ext) == if r.Pending? then Poll(cfg, r.lsn, r.buf + ext) else Extend(r, ext)
  {
    hide Config.HeaderSize, PollAligned, Pad, Aligned;
    var pad := Pad(lsn);
    if pad <= |buf| {
      assert (buf + ext)[pad..] == buf[pad..] + ext;
      PollAlignedExtends(cfg, lsn + pad, buf[pad..], ext);
      var r := PollAligned(cfg, lsn + pad, buf[pad..]);
      assert r.Pending? ==> Pad(r.lsn) == 0 && (r.buf + ext)[0..] == r.buf + ext;
    }
  }

  // ---- Polling until nothing more comes out ----

  type Framed = (Lsn, seq<byte>)

  datatype Stop = NeedMore(lsn: Lsn, buf: seq<byte>) | Broken(error: WalDecodeError)

  datatype Drained = Drained(records: seq<Framed>, stop: Stop)

  function Drain(cfg: Config, lsn: Lsn, buf: seq<byte>): Drained
    requires cfg.Valid()
    decreases |buf|
  {
    match Poll(cfg, lsn, buf)
    case Pending(l, b) => Drained([], NeedMore(l, b))
    case Failed(e, _, _) => Drained([], Broken(e))
    case Record(at, bytes, l, b) =>
      var rest := Drain(cfg, l, b);
      Drained([(at, bytes)] + rest.records, rest.stop)
  }

  lemma DrainNothing(cfg: Config, lsn: Lsn)
    requires cfg.Valid()
    ensures Drain(cfg, lsn, []) == Drained([], NeedMore(lsn, []))
  {
  }

  /** Draining, feeding more and draining again is draining everything. */
  function Resume(cfg: Config, d: Drained, ext: seq<byte>): Drained
    requires cfg.Valid()
  {
    if d.stop.Broken? then d
    else
      var rest := Drain(cfg, d.stop.lsn, d.stop.buf + ext);
      Drained(d.records + rest.records, rest.stop)
  }

  lemma {:induction false} DrainExtends(cfg: Config, lsn: Lsn, buf: seq<byte>, ext: seq<byte>)
    requires cfg.Valid()
    ensures Drain(cfg, lsn, buf + ext) == Resume(cfg, Drain(cfg, lsn, buf), ext)
    decreases |buf|
  {
    PollExtends(cfg, lsn, buf, ext);
    var r := Poll(cfg, lsn, buf);
    match r {
      case Pending(l, b) =>
        var whole := Drain(cfg, lsn, buf + ext);
        assert whole == Drain(cfg, l, b + ext);
        assert [] + whole.records == whole.records;
      case Failed(_, _, _) =>
      case Record(at, bytes, l, b) =>
        DrainExtends(cfg, l, b, ext);
        var d := Drain(cfg, l, b);
        if d.stop.NeedMore? {
          var tail := Drain(cfg, d.stop.lsn, d.stop.buf + ext).records;
          assert [(at, bytes)] + (d.records + tail) == ([(at, bytes)] + d.records) + tail;
        }
    }
  }

  // ---- Arbitrary schedules ----

  datatype Action = Feed(bytes: seq<byte>) | PollOnce

  /** The decoder with everything it has emitted; the first error stops it. */
  datatype Decoder = Decoder(lsn: Lsn, buf: seq<byte>, records: seq<Framed>, failed: Option<WalDecodeError>)

  function Act(cfg: Config, d: Decoder, a: Action): Decoder
    requires cfg.Valid()
  {
    if d.failed.Some? then d
    else match a
      case Feed(bytes) => d.(buf := d.buf + bytes)
      case PollOnce =>
        match Poll(cfg, d.lsn, d.buf)
        case Pending(l, b) => d.(lsn := l, buf := b)
        case Failed(e, l, b) => d.(lsn := l, buf := b, failed := Some(e))
        case Record(at, bytes, l, b) => d.(lsn := l, buf := b, records := d.records + [(at, bytes)])
  }

  function Schedule(cfg: Config, start: Lsn, actions: seq<Action>): Decoder
    requires cfg.Valid()
  {
    if actions == [] then Decoder(start, [], [], None)
    else Act(cfg, Schedule(cfg, start, actions[..|actions| - 1]), actions[|actions| - 1])
  }

  /** All bytes fed by a schedule, in order. */
  function Fed(actions: seq<Action>): seq<byte> {
    if actions == [] then []
    else
      var last := actions[|actions| - 1];
      Fed(actions[..|actions| - 1]) + (if last.Feed? then last.bytes else [])
  }

  /** What a decoder has emitted, followed by what draining it would emit. */
  function Outlook(cfg: Config, d: Decoder): Drained
    requires cfg.Valid()
  {
    if d.failed.Some? then Drained(d.records, Broken(d.failed.value))
    else
      var rest := Drain(cfg, d.lsn, d.buf);
      Drained(d.records + rest.records, rest.stop)
  }

  lemma PollKeepsOutlook(cfg: Config, d: Decoder)
    requires cfg.Valid() && d.failed.None?
    ensures Outlook(cfg, Act(cfg, d, PollOnce)) == Outlook(cfg, d)
  {
    var d' := Act(cfg, d, PollOnce);
    match Poll(cfg, d.lsn, d.buf) {
      case Pending(l, b) =>
        PollExtends(cfg, d.lsn, d.buf, []);
        assert d.buf + [] == d.buf && b + [] == b;
      case Failed(_, _, _) =>
        assert d.records + [] == d.records;
      case Record(at, bytes, l, b) =>
        var rest := Drain(cfg, l, b).records;
        assert (d.records + [(at, bytes)]) + rest == d.records + ([(at, bytes)] + rest);
    }
  }

  lemma FeedExtendsOutlook(cfg: Config, d: Decoder, bytes: seq<byte>)
    requires cfg.Valid() && d.failed.None?
    ensures Outlook(cfg, Act(cfg, d, Feed(bytes))) == Resume(cfg, Outlook(cfg, d), bytes)
  {
    DrainExtends(cfg, d.lsn, d.buf, bytes);
    var rest := Drain(cfg, d.lsn, d.buf);
    if rest.stop.NeedMore? {
      var tail := Drain(cfg, rest.stop.lsn, rest.stop.buf + bytes).records;
      assert d.records + (rest.records + tail) == (d.records + rest.records) + tail;
    }
  }

  /** Chunk independence, with the buffer accounting that makes the receiver's cursor sound. */
  lemma {:induction false} ChunkIndependence(cfg: Config, start: Lsn, actions: seq<Action>)
    requires cfg.Valid()
    ensures Outlook(cfg, Schedule(cfg, start, actions)) == Drain(cfg, start, Fed(actions))
    ensures var d := Schedule(cfg, start, actions); d.failed.None? ==> d.lsn + |d.buf| == start + |Fed(actions)|
  {
    if actions == [] {
      assert [] + Drain(cfg, start, []).records == Drain(cfg, start, []).records;
    } else {
      var before, last := actions[..|actions| - 1], actions[|actions| - 1];
      ChunkIndependence(cfg, start, before);
      var d := Schedule(cfg, start, before);
      match last {
        case PollOnce =>
          assert Fed(actions) == Fed(before);
          if d.failed.None? {
            PollKeepsOutlook(cfg, d);
          }
        case Feed(bytes) =>
          DrainExtends(cfg, start, Fed(before), bytes);
          if d.failed.None? {
            FeedExtendsOutlook(cfg, d, bytes);
          }
      }
    }
  }

  /** Two schedules that feed the same bytes have emitted the same stream, up to undrained input. */
  lemma SameBytesSameStream(cfg: Config, start: Lsn, a: seq<Action>, b: seq<Action>)
    requires cfg.Valid() && Fed(a) == Fed(b)
    ensures var da, db := Schedule(cfg, start, a), Schedule(cfg, start, b);
      && Outlook(cfg, da) == Outlook(cfg, db)
      && (da.failed.Some? && db.failed.Some? ==> da.records == db.records && da.failed == db.failed)
      && (da.failed.Some? ==> db.records <= da.records)
  {
    ChunkIndependence(cfg, start, a);
    ChunkIndependence(cfg, start, b);
  }
}
