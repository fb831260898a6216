/**
 * From the leader's log to the page store: whatever the crashes, losses, polls and chunk
 * sizes, a page server that polls a safekeeper group has ingested exactly an initial run of
 * the records written, each at its own LSN.
 */
module EndToEnd {
  import opened Common
  import Bytes
  import opened WalStream
  import opened WalChunking
  import opened WalFraming
  import WalRecord
  import WalRecordInverse
  import opened ImageRestore
  import opened RepositorySpec
  import opened ConsensusSpec
  import opened SafekeeperSpec
  import opened ReceiverSpec
  import Cluster

  /** `t` polls some node of the group at some point of the run that led to `g`. */
  ghost predicate PollsGroup(g: Cluster.Group, origin: Lsn, t: Turn) {
    exists past, n :: Cluster.Inv(past, origin) && Cluster.Grows(past, g) && n in past.nodes && t.node == past.nodes[n]
  }

  lemma PrefixOfLater(past: Cluster.Group, g: Cluster.Group, origin: Lsn, n: NodeId)
    requires Cluster.Inv(past, origin) && Cluster.Grows(past, g) && n in past.nodes && g.leader in g.nodes
    ensures var log := past.nodes[n].log;
            log.Valid() && log.origin == log.start == origin && log.bytes <= g.nodes[g.leader].log.bytes
  {
  }

  /** A group of safekeepers never leaves a gap, and every node holds a prefix of the leader's bytes. */
  lemma GroupHasNoGap(g: Cluster.Group, origin: Lsn, t: Turn, cursor: Lsn)
    requires Cluster.Inv(g, origin) && PollsGroup(g, origin, t) && origin <= cursor
    ensures g.leader in g.nodes && NoGap(t, cursor, origin, g.nodes[g.leader].log.bytes)
  {
    hide Serve, Cluster.Inv, Cluster.Grows;
    LeaderThere(g, origin);
    var past, n :| Cluster.Inv(past, origin) && Cluster.Grows(past, g) && n in past.nodes && t.node == past.nodes[n];
    PrefixOfLater(past, g, origin, n);
    Cluster.ServeMeaning(past, origin, n, cursor, t.max);
  }

  lemma LeaderThere(g: Cluster.Group, origin: Lsn)
    requires Cluster.Inv(g, origin)
    ensures g.leader in g.nodes
  {
  }

  // ---- Records that decode never stop the receiver ----

  ghost predicate Decodes(bytes: seq<byte>) {
    WalRecord.DecodeWalRecord(0, bytes).Ok?
  }

  ghost predicate AllDecode(recs: seq<Framed>) {
    forall i :: 0 <= i < |recs| ==> Decodes(recs[i].1)
  }

  ghost predicate DecodableItem(item: Item) {
    item.Rec? ==> Decodes(item.bytes)
  }

  lemma DecodesAnywhere(lsn: Lsn, bytes: seq<byte>)
    ensures WalRecord.DecodeWalRecord(lsn, bytes).Ok? <==> Decodes(bytes)
  {
    hide WalRecord.ParseFixed, WalRecord.ParseHeaders, WalRecord.ParseData, Bytes.Take;
  }

  /** A record that decodes is long enough and says its own length. */
  lemma DecodableIsWellFormed(item: Item)
    requires DecodableItem(item)
    ensures WellFormed(item)
  {
    hide WalRecord.ParseHeaders, WalRecord.ParseData;
  }

  /** The specification encoding of any good record decodes. */
  lemma EncodedDecodes(r: WalRecordInverse.RecordSpec)
    requires WalRecordInverse.GoodRecord(r)
    ensures Decodes(WalRecordInverse.Encode(r))
  {
    WalRecordInverse.RecordInverse(0, r);
  }

  lemma {:induction false} PlacedDecode(cfg: Config, hdr: Headers, lsn: Lsn, items: seq<Item>)
    requires cfg.Valid() && forall i :: 0 <= i < |items| ==> DecodableItem(items[i])
    ensures AllDecode(Placed(cfg, hdr, lsn, items))
    decreases |items|
  {
    hide Decodes, WalFraming.Body, Pad, AtPageStart, Config.HeaderSize;
    if items != [] {
      var l := lsn + Pad(lsn);
      PlacedDecode(cfg, hdr, l + |WalFraming.Body(cfg, hdr, l, items[0])|, items[1..]);
      assert DecodableItem(items[0]);
    }
  }

  lemma {:induction false} PumpSucceeds(cfg: Config, foreign: Foreign, at: Cursor, repo: Repo)
    requires cfg.Valid() && Drain(cfg, at.lsn, at.buf).stop.NeedMore? && AllDecode(Drain(cfg, at.lsn, at.buf).records)
    ensures Pump(cfg, foreign, at, repo).error.None?
    decreases |at.buf|
  {
    hide Poll, WalRecord.DecodeWalRecord, Modifications, Ingest;
    var r := Poll(cfg, at.lsn, at.buf);
    if r.Record? {
      var d := Drain(cfg, at.lsn, at.buf);
      assert d.records[0] == (r.at, r.bytes) && d.records[1..] == Drain(cfg, r.lsn, r.buf).records;
      assert Decodes(d.records[0].1);
      DecodesAnywhere(r.at, r.bytes);
      assert IngestRecord(foreign, repo, (r.at, r.bytes)).Ok?;
      assert AllDecode(d.records[1..]);
      PumpSucceeds(cfg, foreign, Cursor(r.lsn, r.buf), IngestRecord(foreign, repo, (r.at, r.bytes)).value);
    }
  }

  /** Decoding a prefix of a stream gives a prefix of its records, and breaks only if the stream does. */
  lemma DrainPrefix(cfg: Config, start: Lsn, bytes: seq<byte>, n: nat)
    requires cfg.Valid() && n <= |bytes|
    ensures Drain(cfg, start, bytes[..n]).records <= Drain(cfg, start, bytes).records
    ensures Drain(cfg, start, bytes).stop.NeedMore? ==> Drain(cfg, start, bytes[..n]).stop.NeedMore?
  {
    DrainExtends(cfg, start, bytes[..n], bytes[n..]);
    assert bytes[..n] + bytes[n..] == bytes;
    hide Drain;
  }

  /** A receiver fed a prefix of a sound stream can take any further part of it. */
  lemma FeedSucceeds(cfg: Config, foreign: Foreign, start: Lsn, all: seq<byte>, fed: seq<byte>, payload: seq<byte>,
      at: Cursor, repo: Repo)
    requires cfg.Valid() && fed + payload <= all && Drain(cfg, start, fed).stop == NeedMore(at.lsn, at.buf)
    requires Drain(cfg, start, all).stop.NeedMore? && AllDecode(Drain(cfg, start, all).records)
    ensures Pump(cfg, foreign, at.(buf := at.buf + payload), repo).error.None?
  {
    hide Drain, Decodes;
    assert all[..|fed + payload|] == fed + payload;
    DrainPrefix(cfg, start, all, |fed + payload|);
    DrainExtends(cfg, start, fed, payload);
    var d, whole := Drain(cfg, start, fed + payload), Drain(cfg, start, all);
    var more := Drain(cfg, at.lsn, at.buf + payload);
    assert d.records == Drain(cfg, start, fed).records + more.records;
    forall i | 0 <= i < |more.records| ensures Decodes(more.records[i].1) {
      assert more.records[i] == whole.records[|Drain(cfg, start, fed).records| + i];
    }
    PumpSucceeds(cfg, foreign, at.(buf := at.buf + payload), repo);
  }

  lemma PollSucceeds(cfg: Config, foreign: Foreign, origin: Lsn, all: seq<byte>, first: Repo, r: Receiver,
      resp: ReadResponse)
    requires cfg.Valid() && AgreesFrom(cfg, foreign, origin, all, origin, first, r)
    requires Drain(cfg, origin, all).stop.NeedMore? && AllDecode(Drain(cfg, origin, all).records)
    requires resp.start == r.cursor && r.cursor - origin + |resp.payload| <= |all|
    requires resp.payload == all[r.cursor - origin..r.cursor - origin + |resp.payload|]
    ensures ReceiverSpec.PollOnce(cfg, foreign, r, resp).1.Ok?
  {
    hide Drain, Pump, IngestAll, AllDecode;
    if resp.payload != [] {
      var fed := all[..r.cursor - origin];
      assert fed == all[origin - origin..r.cursor - origin];
      assert fed + resp.payload == all[..r.cursor - origin + |resp.payload|];
      DrainNothing(cfg, origin);
      var at := if r.decoder.Some? then r.decoder.value else Cursor(resp.start, []);
      FeedSucceeds(cfg, foreign, origin, all, fed, resp.payload, at, r.repo);
    }
  }

  lemma {:induction false} GroupIsSmooth(cfg: Config, foreign: Foreign, g: Cluster.Group, origin: Lsn, all: seq<byte>,
                                         first: Repo, r: Receiver, turns: seq<Turn>)
    requires cfg.Valid() && Cluster.Inv(g, origin) && g.leader in g.nodes && all == g.nodes[g.leader].log.bytes
    requires forall i :: 0 <= i < |turns| ==> PollsGroup(g, origin, turns[i])
    requires Drain(cfg, origin, all).stop.NeedMore? && AllDecode(Drain(cfg, origin, all).records)
    requires AgreesFrom(cfg, foreign, origin, all, origin, first, r)
    ensures Smooth(cfg, foreign, origin, all, r, turns)
    decreases |turns|
  {
    hide Cluster.Inv, PollsGroup, Serve, ReceiverSpec.PollOnce, Drain, AllDecode, Agrees;
    if turns != [] {
      var t := turns[0];
      GroupHasNoGap(g, origin, t, r.cursor);
      ServedFromLog(t, r.cursor, origin, all);
      var resp := Serve(t.node, r.cursor, t.max).value;
      assert resp.payload == [] ==> all[r.cursor - origin..r.cursor - origin] == [];
      PollSucceeds(cfg, foreign, origin, all, first, r, resp);
      OneTurn(cfg, foreign, origin, all, origin, first, r, t);
      GroupIsSmooth(cfg, foreign, g, origin, all, first, TakeTurn(cfg, foreign, r, t), turns[1..]);
    }
  }

  lemma StartAgrees(cfg: Config, foreign: Foreign, origin: Lsn, all: seq<byte>, first: Repo)
    requires cfg.Valid()
    ensures AgreesFrom(cfg, foreign, origin, all, origin, first, Receiver(origin, None, first))
  {
    assert all[origin - origin..origin - origin] == [];
    DrainNothing(cfg, origin);
    hide Drain;
  }

  /** What has been ingested is an initial run of the records written; all of them, at the end of the log. */
  ghost predicate IngestedRun(foreign: Foreign, first: Repo, written: seq<Framed>, n: nat, r: Receiver) {
    n <= |written| && IngestAll(foreign, first, written[..n]) == Ok(r.repo)
  }

  /**
   * Whatever nodes are polled, whenever and in whatever chunks, no poll fails, and what is
   * ingested is an initial run of the records written, all of them at the end of the log.
   */
  lemma WrittenIsIngested(cfg: Config, foreign: Foreign, hdr: Headers, g: Cluster.Group, origin: Lsn, items: seq<Item>,
                          first: Repo, turns: seq<Turn>)
    requires cfg.Valid() && GoodHeaders(cfg, hdr) && forall i :: 0 <= i < |items| ==> DecodableItem(items[i])
    requires Cluster.Inv(g, origin) && g.leader in g.nodes
             && g.nodes[g.leader].log.bytes == Frame(cfg, hdr, origin, items)
    requires forall i :: 0 <= i < |turns| ==> PollsGroup(g, origin, turns[i])
    ensures Smooth(cfg, foreign, origin, g.nodes[g.leader].log.bytes, Receiver(origin, None, first), turns)
    ensures var all := g.nodes[g.leader].log.bytes;
            var r := TakeTurns(cfg, foreign, origin, all, Receiver(origin, None, first), turns);
            var written := Placed(cfg, hdr, origin, items);
            && (exists n :: IngestedRun(foreign, first, written, n, r))
            && (r.cursor == origin + |all| ==> IngestAll(foreign, first, written) == Ok(r.repo))
  {
    hide Smooth, TakeTurns, Frame, Placed, PollsGroup, Cluster.Inv, GoodHeaders, IngestedRun, IngestAll, DecodableItem,
         WellFormed;
    hide Drain, AllDecode, AgreesFrom;
    var all := g.nodes[g.leader].log.bytes;
    forall i | 0 <= i < |items| ensures WellFormed(items[i]) { DecodableIsWellFormed(items[i]); }
    DrainFramed(cfg, hdr, origin, items);
    PlacedDecode(cfg, hdr, origin, items);
    StartAgrees(cfg, foreign, origin, all, first);
    GroupIsSmooth(cfg, foreign, g, origin, all, first, Receiver(origin, None, first), turns);
    ReceivedPrefix(cfg, foreign, origin, all, first, turns);
  }

  /** Polling bytes written from `origin` on ingests an initial run of the records they hold. */
  lemma ReceivedPrefix(cfg: Config, foreign: Foreign, origin: Lsn, all: seq<byte>, first: Repo, turns: seq<Turn>)
    requires cfg.Valid() && Smooth(cfg, foreign, origin, all, Receiver(origin, None, first), turns)
    ensures var r := TakeTurns(cfg, foreign, origin, all, Receiver(origin, None, first), turns);
            var written := Drain(cfg, origin, all).records;
            && (exists n :: IngestedRun(foreign, first, written, n, r))
            && (r.cursor == origin + |all| ==> IngestAll(foreign, first, written) == Ok(r.repo))
  {
    hide Smooth, TakeTurns, Drain, IngestAll;
    ReceiverAgreement(cfg, foreign, origin, all, origin, first, turns);
    var r := TakeTurns(cfg, foreign, origin, all, Receiver(origin, None, first), turns);
    var k := r.cursor - origin;
    DrainPrefix(cfg, origin, all, k);
    var got, written := Drain(cfg, origin, all[..k]).records, Drain(cfg, origin, all).records;
    assert all[0..k] == all[..k] && all[..|all|] == all;
    assert written[..|got|] == got;
    assert IngestedRun(foreign, first, written, |got|, r);
  }
}
