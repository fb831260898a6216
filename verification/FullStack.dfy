/**
 * From the records written to the pages read: once the cursor has passed the end of some of
 * the records, a page read below that point is reconstruction from the records written.
 */
module FullStack {
  import opened Common
  import Bytes
  import opened Pages
  import opened Redo
  import opened RepositorySpec
  import opened WalStream
  import opened WalChunking
  import opened WalFraming
  import opened ReceiverSpec
  import opened WrittenHistory
  import opened EndToEnd
  import ImageRestore
  import WalRecord
  import Cluster

  type Foreign = ImageRestore.Foreign

  // ---- Records as modifications ----

  function ModsOf(foreign: Foreign, rec: Framed): seq<Modification> {
    var d := WalRecord.DecodeWalRecord(rec.0, rec.1);
    if d.Ok? then ImageRestore.Modifications(foreign, d.value, rec.1) else []
  }

  function RecordMods(foreign: Foreign, recs: seq<Framed>): seq<Modification> {
    if recs == [] then [] else ModsOf(foreign, recs[0]) + RecordMods(foreign, recs[1..])
  }

  lemma {:induction false} IngestJoin(r: Repo, a: seq<Modification>, b: seq<Modification>)
    ensures Ingest(r, a + b) == Ingest(Ingest(r, a), b)
    decreases |a|
  {
    hide IngestOne;
    if a == [] {
      assert a + b == b;
    } else {
      assert (a + b)[1..] == a[1..] + b;
      IngestJoin(IngestOne(r, a[0]), a[1..], b);
    }
  }

  lemma {:induction false} RecordModsJoin(foreign: Foreign, a: seq<Framed>, b: seq<Framed>)
    ensures RecordMods(foreign, a + b) == RecordMods(foreign, a) + RecordMods(foreign, b)
    decreases |a|
  {
    hide ModsOf;
    if a == [] {
      assert a + b == b;
    } else {
      assert (a + b)[1..] == a[1..] + b;
      RecordModsJoin(foreign, a[1..], b);
    }
  }

  /** Ingesting records that decode is ingesting their modifications. */
  lemma {:induction false} IngestAllIsMods(foreign: Foreign, repo: Repo, recs: seq<Framed>)
    requires AllDecode(recs)
    ensures IngestAll(foreign, repo, recs) == Ok(Ingest(repo, RecordMods(foreign, recs)))
    decreases |recs|
  {
    hide WalRecord.DecodeWalRecord, ImageRestore.Modifications, Ingest;
    if recs == [] {
      NothingIngested(repo);
    } else {
      assert Decodes(recs[0].1);
      DecodesAnywhere(recs[0].0, recs[0].1);
      assert AllDecode(recs[1..]);
      var next := IngestRecord(foreign, repo, recs[0]).value;
      IngestAllIsMods(foreign, next, recs[1..]);
      IngestJoin(repo, ModsOf(foreign, recs[0]), RecordMods(foreign, recs[1..]));
    }
  }

  lemma NothingIngested(repo: Repo)
    ensures Ingest(repo, []) == repo
  {
  }

  // ---- Each page and LSN is written once ----

  /** No record touches a page twice. */
  ghost predicate OneEach(rec: Framed) {
    var d := WalRecord.DecodeWalRecord(rec.0, rec.1);
    d.Ok? ==> forall i, j :: 0 <= i < j < |d.value.blocks| ==>
      d.value.blocks[i].rel != d.value.blocks[j].rel || d.value.blocks[i].blkno != d.value.blocks[j].blkno
  }

  ghost predicate Climbing(recs: seq<Framed>) {
    forall i, j :: 0 <= i < j < |recs| ==> recs[i].0 < recs[j].0
  }

  ghost predicate ModsFrom(mods: seq<Modification>, lo: Lsn) {
    forall i :: 0 <= i < |mods| ==> lo <= mods[i].lsn
  }

  lemma DecodedLsn(lsn: Lsn, bytes: seq<byte>)
    ensures var d := WalRecord.DecodeWalRecord(lsn, bytes); d.Ok? ==> d.value.lsn == lsn
  {
    hide WalRecord.ParseFixed, WalRecord.ParseHeaders, WalRecord.ParseData, Bytes.Take;
  }

  lemma ModsOfLsn(foreign: Foreign, rec: Framed)
    ensures forall i :: 0 <= i < |ModsOf(foreign, rec)| ==> ModsOf(foreign, rec)[i].lsn == rec.0
  {
    hide WalRecord.DecodeWalRecord;
    DecodedLsn(rec.0, rec.1);
  }

  lemma ModsOfOnce(foreign: Foreign, rec: Framed)
    requires OneEach(rec)
    ensures OnceOnly(ModsOf(foreign, rec))
  {
    hide WalRecord.DecodeWalRecord;
  }

  lemma {:induction false} RecordModsFrom(foreign: Foreign, recs: seq<Framed>, lo: Lsn)
    requires forall i :: 0 <= i < |recs| ==> lo <= recs[i].0
    ensures ModsFrom(RecordMods(foreign, recs), lo)
    decreases |recs|
  {
    hide ModsOf;
    if recs != [] {
      ModsOfLsn(foreign, recs[0]);
      RecordModsFrom(foreign, recs[1..], lo);
    }
  }

  lemma OnceJoin(a: seq<Modification>, b: seq<Modification>)
    requires OnceOnly(a) && OnceOnly(b) && forall i, j :: 0 <= i < |a| && 0 <= j < |b| ==> a[i].lsn < b[j].lsn
    ensures OnceOnly(a + b)
  {
  }

  lemma {:induction false} RecordModsOnce(foreign: Foreign, recs: seq<Framed>)
    requires Climbing(recs) && forall i :: 0 <= i < |recs| ==> OneEach(recs[i])
    ensures OnceOnly(RecordMods(foreign, recs))
    decreases |recs|
  {
    hide ModsOf, OneEach, OnceOnly;
    if recs == [] {
      OnceNone();
    } else {
      ModsOfOnce(foreign, recs[0]);
      ModsOfLsn(foreign, recs[0]);
      RecordModsOnce(foreign, recs[1..]);
      RecordModsFrom(foreign, recs[1..], recs[0].0 + 1);
      OnceJoin(ModsOf(foreign, recs[0]), RecordMods(foreign, recs[1..]));
    }
  }

  lemma OnceNone()
    ensures OnceOnly([])
  {
  }

  // ---- Writes after an LSN do not matter to reads at it ----

  lemma {:induction false} LaterEntry(m: Versions, k: VersionKey, v: PageVersion, page: PageKey, lsn: Lsn)
    requires lsn < k.lsn
    ensures Range(m[k := v], page, lsn) == Range(m, page, lsn)
    decreases lsn
  {
    if lsn > 0 {
      LaterEntry(m, k, v, page, lsn - 1);
    }
  }

  lemma {:induction false} LaterWrites(a: seq<Modification>, b: seq<Modification>, page: PageKey, lsn: Lsn)
    requires ModsFrom(b, lsn + 1)
    ensures Range(WrittenView(a + b), page, lsn) == Range(WrittenView(a), page, lsn)
    decreases |b|
  {
    hide Range, WrittenView;
    if b == [] {
      assert a + b == a;
    } else {
      var init, m := b[..|b| - 1], b[|b| - 1];
      LaterWrites(a, init, page, lsn);
      WrittenSnoc(a + init, m);
      assert a + b == (a + init) + [m];
      LaterEntry(WrittenView(a + init), m.Key(), m.version, page, lsn);
    }
  }

  // ---- Where records are placed ----

  lemma {:induction false} LaidLength(cfg: Config, hdr: Headers, lsn: Lsn, data: seq<byte>)
    requires cfg.Valid() && GoodHeaders(cfg, hdr) && data != []
    ensures |Lay(cfg, hdr, lsn, data)| >= (if AtPageStart(lsn) then cfg.HeaderSize(lsn) else 0) + 1
  {
    hide Config.HeaderSize, AtPageStart, Bytes.FromLe;
    var k := PieceLen(cfg, lsn, |data|);
    if AtPageStart(lsn) {
      AfterHeader(cfg, lsn);
      LaidSome(cfg, hdr, lsn + k, data);
    } else {
      LaidSome(cfg, hdr, lsn, data);
    }
  }

  lemma AfterHeader(cfg: Config, lsn: Lsn)
    requires cfg.Valid() && AtPageStart(lsn)
    ensures !AtPageStart(lsn + cfg.HeaderSize(lsn))
  {
  }

  lemma LaidSome(cfg: Config, hdr: Headers, lsn: Lsn, data: seq<byte>)
    requires cfg.Valid() && data != [] && !AtPageStart(lsn)
    ensures |Lay(cfg, hdr, lsn, data)| >= 1
  {
    hide Config.HeaderSize, AtPageStart;
  }

  /** Records follow one another: from `lsn` on, ascending, and before the end of the frame. */
  lemma {:induction false} PlacedClimbs(cfg: Config, hdr: Headers, lsn: Lsn, items: seq<Item>)
    requires cfg.Valid() && GoodHeaders(cfg, hdr) && forall i :: 0 <= i < |items| ==> WellFormed(items[i])
    ensures Climbing(Placed(cfg, hdr, lsn, items))
    ensures forall i :: 0 <= i < |Placed(cfg, hdr, lsn, items)| ==> lsn <= Placed(cfg, hdr, lsn, items)[i].0
    decreases |items|
  {
    hide Config.HeaderSize, AtPageStart, Pad, WalFraming.Lay, GoodHeaders;
    if items != [] {
      var l := lsn + Pad(lsn);
      var next := l + |WalFraming.Body(cfg, hdr, l, items[0])|;
      PlacedClimbs(cfg, hdr, next, items[1..]);
      if items[0].Rec? {
        assert WellFormed(items[0]);
        LaidLength(cfg, hdr, l, items[0].bytes);
      }
    }
  }

  /** The bytes of the first item with its padding, and the record placed in them. */
  function HeadFrame(cfg: Config, hdr: Headers, lsn: Lsn, item: Item): seq<byte>
    requires cfg.Valid()
  {
    Zeros(Pad(lsn)) + WalFraming.Body(cfg, hdr, lsn + Pad(lsn), item)
  }

  function HeadPlaced(cfg: Config, lsn: Lsn, item: Item): seq<Framed>
    requires cfg.Valid()
  {
    var l := lsn + Pad(lsn);
    if item.ZeroTail? then [] else [(if AtPageStart(l) then l + cfg.HeaderSize(l) else l, item.bytes)]
  }

  lemma FrameCons(cfg: Config, hdr: Headers, lsn: Lsn, item: Item, rest: seq<Item>)
    requires cfg.Valid()
    ensures var head := HeadFrame(cfg, hdr, lsn, item);
            && Frame(cfg, hdr, lsn, [item] + rest) == head + Frame(cfg, hdr, lsn + |head|, rest)
            && Placed(cfg, hdr, lsn, [item] + rest) == HeadPlaced(cfg, lsn, item) + Placed(cfg, hdr, lsn + |head|, rest)
  {
    hide Config.HeaderSize, AtPageStart, Pad, WalFraming.Body;
    assert ([item] + rest)[1..] == rest;
    var next := lsn + |HeadFrame(cfg, hdr, lsn, item)|;
    assert [] + Placed(cfg, hdr, next, rest) == Placed(cfg, hdr, next, rest);
  }

  lemma {:induction false} FrameJoin(cfg: Config, hdr: Headers, lsn: Lsn, a: seq<Item>, b: seq<Item>)
    requires cfg.Valid()
    ensures var end := lsn + |Frame(cfg, hdr, lsn, a)|;
            && Frame(cfg, hdr, lsn, a + b) == Frame(cfg, hdr, lsn, a) + Frame(cfg, hdr, end, b)
            && Placed(cfg, hdr, lsn, a + b) == Placed(cfg, hdr, lsn, a) + Placed(cfg, hdr, end, b)
    decreases |a|
  {
    hide Frame, Placed, HeadFrame, HeadPlaced;
    if a == [] {
      FrameNothing(cfg, hdr, lsn);
      assert a + b == b;
    } else {
      var rest := a[1..];
      var head, first := HeadFrame(cfg, hdr, lsn, a[0]), HeadPlaced(cfg, lsn, a[0]);
      var next := lsn + |head|;
      var end := next + |Frame(cfg, hdr, next, rest)|;
      FrameCons(cfg, hdr, lsn, a[0], rest);
      FrameCons(cfg, hdr, lsn, a[0], rest + b);
      FrameJoin(cfg, hdr, next, rest, b);
      assert a == [a[0]] + rest && a + b == [a[0]] + (rest + b);
      Reassociate(head, Frame(cfg, hdr, next, rest), Frame(cfg, hdr, end, b));
      Reassociate(first, Placed(cfg, hdr, next, rest), Placed(cfg, hdr, end, b));
    }
  }

  lemma FrameNothing(cfg: Config, hdr: Headers, lsn: Lsn)
    requires cfg.Valid()
    ensures Frame(cfg, hdr, lsn, []) == [] && Placed(cfg, hdr, lsn, []) == []
  {
  }

  // ---- Pages ----

  /** A store that ingested all of `early` and some of `late`, all past `lsn`, reads at `lsn` as from both. */
  lemma ReadOfRun(redo: RecordRedo, foreign: Foreign, freezeThreshold: nat, early: seq<Framed>, late: seq<Framed>,
      n: nat, page: PageKey, lsn: Lsn)
    requires Climbing(early + late) && (forall i :: 0 <= i < |early + late| ==> OneEach((early + late)[i]))
    requires n <= |late| && forall i :: 0 <= i < |late| ==> lsn < late[i].0
    ensures var repo := Ingest(EmptyRepo(freezeThreshold), RecordMods(foreign, early + late[..n]));
            GetPageWithBase(redo, repo, page, lsn, None) ==
            ToLookup(Reconstruct(redo, page, Range(WrittenView(RecordMods(foreign, early + late)), page, lsn)))
  {
    hide RecordMods, OneEach, WrittenView, Range, GetPageWithBase, Reconstruct, View, Ingest, ToLookup, WrittenOnce,
         OnceOnly;
    var some := early + late[..n];
    forall i | 0 <= i < |some| ensures some[i] == (early + late)[i] {}
    RecordModsOnce(foreign, some);
    var mods := RecordMods(foreign, some);
    EmptyFollowsNothing(freezeThreshold);
    assert [] + mods == mods;
    IngestWrites(EmptyRepo(freezeThreshold), [], mods);
    ReadIsScan(redo, Ingest(EmptyRepo(freezeThreshold), mods), page, lsn);
    SameBelow(foreign, early, late[..n], page, lsn);
    SameBelow(foreign, early, late, page, lsn);
  }

  lemma EmptyFollowsNothing(freezeThreshold: nat)
    ensures WrittenOnce(EmptyRepo(freezeThreshold)) && View(EmptyRepo(freezeThreshold)) == WrittenView([])
  {
    assert View(EmptyRepo(freezeThreshold)) == map[];
  }

  lemma SameBelow(foreign: Foreign, early: seq<Framed>, late: seq<Framed>, page: PageKey, lsn: Lsn)
    requires forall i :: 0 <= i < |late| ==> lsn < late[i].0
    ensures Range(WrittenView(RecordMods(foreign, early + late)), page, lsn) ==
            Range(WrittenView(RecordMods(foreign, early)), page, lsn)
  {
    hide RecordMods, WrittenView, Range;
    RecordModsJoin(foreign, early, late);
    RecordModsFrom(foreign, late, lsn + 1);
    LaterWrites(RecordMods(foreign, early), RecordMods(foreign, late), page, lsn);
  }

  /** What is received by the time the cursor passes a frame: all its records, and some that come after. */
  lemma ReceivedPast(cfg: Config, hdr: Headers, origin: Lsn, done: seq<Item>, rest: seq<Item>, k: nat) returns (n: nat)
    requires cfg.Valid() && GoodHeaders(cfg, hdr) && forall i :: 0 <= i < |done + rest| ==> WellFormed((done + rest)[i])
    requires |Frame(cfg, hdr, origin, done)| <= k <= |Frame(cfg, hdr, origin, done + rest)|
    ensures var end := origin + |Frame(cfg, hdr, origin, done)|;
            && n <= |Placed(cfg, hdr, end, rest)|
            && Drain(cfg, origin, Frame(cfg, hdr, origin, done + rest)[..k]).records ==
               Placed(cfg, hdr, origin, done) + Placed(cfg, hdr, end, rest)[..n]
  {
    hide Frame, Placed, Drain, GoodHeaders, WellFormed;
    var all, head := Frame(cfg, hdr, origin, done + rest), Frame(cfg, hdr, origin, done);
    var end := origin + |head|;
    FrameJoin(cfg, hdr, origin, done, rest);
    forall i | 0 <= i < |done| ensures WellFormed(done[i]) { assert (done + rest)[i] == done[i]; }
    DrainFramed(cfg, hdr, origin, done + rest);
    DrainFramed(cfg, hdr, origin, done);
    DrainPrefix(cfg, origin, all, k);
    assert all[..k][..|head|] == head;
    DrainPrefix(cfg, origin, all[..k], |head|);
    var got, early, late := Drain(cfg, origin, all[..k]).records, Placed(cfg, hdr, origin, done),
        Placed(cfg, hdr, end, rest);
    n := |got| - |early|;
    Between(early, got, late);
  }

  lemma Between(early: seq<Framed>, got: seq<Framed>, late: seq<Framed>)
    requires early <= got <= early + late
    ensures got == early + late[..|got| - |early|]
  {
  }

  /**
   * The full stack: records framed in the leader's log, polled from any nodes of the group at
   * any time in any chunks, past losses and crashes. Once the cursor has passed the frame of
   * some of them, a page read below that point is reconstruction from the records written.
   */
  lemma PagesFollowRecords(cfg: Config, foreign: Foreign, hdr: Headers, g: Cluster.Group, origin: Lsn,
                           done: seq<Item>, rest: seq<Item>, freezeThreshold: nat, turns: seq<Turn>,
                           redo: RecordRedo, page: PageKey, lsn: Lsn)
    requires cfg.Valid() && GoodHeaders(cfg, hdr)
             && (forall i :: 0 <= i < |done + rest| ==> DecodableItem((done + rest)[i]))
    requires Cluster.Inv(g, origin) && g.leader in g.nodes
             && g.nodes[g.leader].log.bytes == Frame(cfg, hdr, origin, done + rest)
    requires forall i :: 0 <= i < |turns| ==> PollsGroup(g, origin, turns[i])
    requires forall i :: 0 <= i < |Placed(cfg, hdr, origin, done + rest)| ==>
             OneEach(Placed(cfg, hdr, origin, done + rest)[i])
    requires lsn < origin + |Frame(cfg, hdr, origin, done)|
    ensures var all, r0 := g.nodes[g.leader].log.bytes, Receiver(origin, None, EmptyRepo(freezeThreshold));
            && Smooth(cfg, foreign, origin, all, r0, turns)
            && var r := TakeTurns(cfg, foreign, origin, all, r0, turns);
               r.cursor >= origin + |Frame(cfg, hdr, origin, done)| ==>
                 GetPageWithBase(redo, r.repo, page, lsn, None) ==
                 ToLookup(Reconstruct(redo, page,
                   Range(WrittenView(RecordMods(foreign, Placed(cfg, hdr, origin, done + rest))), page, lsn)))
  {
    hide Smooth, TakeTurns, Frame, Placed, PollsGroup, Cluster.Inv, GoodHeaders, IngestAll, DecodableItem, Drain,
         AllDecode;
    hide EmptyRepo, GetPageWithBase, Reconstruct, Range, WrittenView, RecordMods, OneEach, ToLookup, Ingest;
    var first, all := EmptyRepo(freezeThreshold), g.nodes[g.leader].log.bytes;
    WrittenIsIngested(cfg, foreign, hdr, g, origin, done + rest, first, turns);
    ReceiverAgreement(cfg, foreign, origin, all, origin, first, turns);
    var r := TakeTurns(cfg, foreign, origin, all, Receiver(origin, None, first), turns);
    if r.cursor >= origin + |Frame(cfg, hdr, origin, done)| {
      assert all[origin - origin..r.cursor - origin] == all[..r.cursor - origin];
      ReadPast(cfg, foreign, hdr, origin, done, rest, freezeThreshold, r.cursor - origin, redo, page, lsn);
    }
  }

  /** The same, for whatever ingesting the first `k` bytes of the frame gives. */
  lemma ReadPast(cfg: Config, foreign: Foreign, hdr: Headers, origin: Lsn, done: seq<Item>, rest: seq<Item>,
                 freezeThreshold: nat, k: nat, redo: RecordRedo, page: PageKey, lsn: Lsn)
    requires cfg.Valid() && GoodHeaders(cfg, hdr)
             && (forall i :: 0 <= i < |done + rest| ==> DecodableItem((done + rest)[i]))
    requires forall i :: 0 <= i < |Placed(cfg, hdr, origin, done + rest)| ==>
             OneEach(Placed(cfg, hdr, origin, done + rest)[i])
    requires lsn < origin + |Frame(cfg, hdr, origin, done)|
    requires |Frame(cfg, hdr, origin, done)| <= k <= |Frame(cfg, hdr, origin, done + rest)|
    ensures var recs := Drain(cfg, origin, Frame(cfg, hdr, origin, done + rest)[..k]).records;
            var ingested := IngestAll(foreign, EmptyRepo(freezeThreshold), recs);
            && ingested.Ok?
            && GetPageWithBase(redo, ingested.value, page, lsn, None) ==
               ToLookup(Reconstruct(redo, page,
                 Range(WrittenView(RecordMods(foreign, Placed(cfg, hdr, origin, done + rest))), page, lsn)))
  {
    hide Frame, Placed, GoodHeaders, IngestAll, DecodableItem, WellFormed, Drain, AllDecode;
    hide EmptyRepo, GetPageWithBase, Reconstruct, Range, WrittenView, RecordMods, OneEach, ToLookup, Ingest;
    forall i | 0 <= i < |done + rest| ensures WellFormed((done + rest)[i]) { DecodableIsWellFormed((done + rest)[i]); }
    var end := origin + |Frame(cfg, hdr, origin, done)|;
    var n := ReceivedPast(cfg, hdr, origin, done, rest, k);
    var early, late := Placed(cfg, hdr, origin, done), Placed(cfg, hdr, end, rest);
    FrameJoin(cfg, hdr, origin, done, rest);
    PlacedClimbs(cfg, hdr, origin, done + rest);
    RestAfter(cfg, hdr, end, done, rest);
    PlacedDecode(cfg, hdr, origin, done + rest);
    GotDecode(early, late, n);
    IngestAllIsMods(foreign, EmptyRepo(freezeThreshold), early + late[..n]);
    ReadOfRun(redo, foreign, freezeThreshold, early, late, n, page, lsn);
  }

  lemma RestAfter(cfg: Config, hdr: Headers, end: Lsn, done: seq<Item>, rest: seq<Item>)
    requires cfg.Valid() && GoodHeaders(cfg, hdr) && forall i :: 0 <= i < |done + rest| ==> WellFormed((done + rest)[i])
    ensures forall i :: 0 <= i < |Placed(cfg, hdr, end, rest)| ==> end <= Placed(cfg, hdr, end, rest)[i].0
  {
    hide Placed, GoodHeaders, WellFormed;
    forall i | 0 <= i < |rest| ensures WellFormed(rest[i]) { assert (done + rest)[|done| + i] == rest[i]; }
    PlacedClimbs(cfg, hdr, end, rest);
  }

  lemma GotDecode(early: seq<Framed>, late: seq<Framed>, n: nat)
    requires AllDecode(early + late) && n <= |late|
    ensures AllDecode(early + late[..n])
  {
    hide Decodes;
    forall i | 0 <= i < |early + late[..n]| ensures Decodes((early + late[..n])[i].1) {
      assert (early + late[..n])[i] == (early + late)[i];
    }
  }
}
