/**
 * Receiving WAL: polls of a safekeeper feed one long-lived decoder, whose records are
 * ingested into a repository. Any sequence of polls, with any chunk sizes, ingests exactly
 * the records one decoder extracts from the bytes received.
 */
module ReceiverSpec {
  import opened Common
  import opened WalErrors
  import opened WalStream
  import opened WalChunking
  import opened WalRecord
  import opened ImageRestore
  import opened RepositorySpec
  import opened SafekeeperSpec

  datatype Cursor = Cursor(lsn: Lsn, buf: seq<byte>)

  /** `decoder` is absent until the first bytes arrive. */
  datatype Receiver = Receiver(cursor: Lsn, decoder: Option<Cursor>, repo: Repo)

  function IngestRecord(foreign: Foreign, repo: Repo, rec: Framed): Result<Repo, WalDecodeError> {
    var d :- DecodeWalRecord(rec.0, rec.1);
    Ok(Ingest(repo, Modifications(foreign, d, rec.1)))
  }

  function IngestAll(foreign: Foreign, repo: Repo, recs: seq<Framed>): Result<Repo, WalDecodeError>
    decreases |recs|
  {
    if recs == [] then Ok(repo)
    else
      var next :- IngestRecord(foreign, repo, recs[0]);
      IngestAll(foreign, next, recs[1..])
  }

  /** The state of the ingest loop when it stops, the records it ingested, and why it failed if it did. */
  datatype Pumped = Pumped(at: Cursor, repo: Repo, count: nat, error: Option<WalDecodeError>)

  /** Poll and ingest until no complete record is left or something fails. */
  function Pump(cfg: Config, foreign: Foreign, at: Cursor, repo: Repo): Pumped
    requires cfg.Valid()
    decreases |at.buf|
  {
    match Poll(cfg, at.lsn, at.buf)
    case Pending(l, b) => Pumped(Cursor(l, b), repo, 0, None)
    case Failed(e, l, b) => Pumped(Cursor(l, b), repo, 0, Some(e))
    case Record(start, bytes, l, b) =>
      var r := IngestRecord(foreign, repo, (start, bytes));
      if r.Err? then Pumped(Cursor(l, b), repo, 0, Some(r.error))
      else
        var rest := Pump(cfg, foreign, Cursor(l, b), r.value);
        rest.(count := rest.count + 1)
  }

  function PollOnce(cfg: Config, foreign: Foreign, r: Receiver, resp: ReadResponse): (Receiver,
                    Result<nat, WalDecodeError>)
    requires cfg.Valid()
  {
    if resp.payload == [] then (r, Ok(0))
    else
      var at := if r.decoder.Some? && resp.start == r.cursor then r.decoder.value else Cursor(resp.start, []);
      var p := Pump(cfg, foreign, at.(buf := at.buf + resp.payload), r.repo);
      (Receiver(resp.start + |resp.payload|, Some(p.at), p.repo),
       if p.error.Some? then Err(p.error.value) else Ok(p.count))
  }

  // ---- The ingest loop drains the decoder ----

  lemma {:induction false} PumpDrains(cfg: Config, foreign: Foreign, at: Cursor, repo: Repo)
    requires cfg.Valid() && Pump(cfg, foreign, at, repo).error.None?
    ensures var p, d := Pump(cfg, foreign, at, repo), Drain(cfg, at.lsn, at.buf);
            && d.stop == NeedMore(p.at.lsn, p.at.buf) && IngestAll(foreign, repo, d.records) == Ok(p.repo)
            && p.count == |d.records|
    decreases |at.buf|
  {
    hide Poll, IngestRecord;
    var r := Poll(cfg, at.lsn, at.buf);
    if r.Record? {
      PumpDrains(cfg, foreign, Cursor(r.lsn, r.buf), IngestRecord(foreign, repo, (r.at, r.bytes)).value);
    }
  }

  lemma {:induction false} IngestBoth(foreign: Foreign, repo: Repo, a: seq<Framed>, b: seq<Framed>)
    requires IngestAll(foreign, repo, a).Ok?
    ensures IngestAll(foreign, repo, a + b) == IngestAll(foreign, IngestAll(foreign, repo, a).value, b)
    decreases |a|
  {
    hide IngestRecord;
    if a == [] {
      assert a + b == b;
    } else {
      assert (a + b)[1..] == a[1..] + b;
      IngestBoth(foreign, IngestRecord(foreign, repo, a[0]).value, a[1..], b);
    }
  }

  // ---- Agreement ----

  /** The receiver has ingested what one decoder extracts from `fed`, and holds the rest. */
  ghost predicate Agrees(cfg: Config, foreign: Foreign, start: Lsn, first: Repo, fed: seq<byte>, r: Receiver)
    requires cfg.Valid()
  {
    var d := Drain(cfg, start, fed);
    && r.cursor == start + |fed|
    && IngestAll(foreign, first, d.records) == Ok(r.repo)
    && (if r.decoder.Some? then d.stop == NeedMore(r.decoder.value.lsn, r.decoder.value.buf) else fed == [])
    && (r.decoder.Some? ==> r.decoder.value.lsn + |r.decoder.value.buf| == r.cursor)
  }

  lemma FeedAgrees(cfg: Config, foreign: Foreign, start: Lsn, first: Repo, fed: seq<byte>, at: Cursor,
                   repo: Repo, payload: seq<byte>)
    requires cfg.Valid() && at.lsn + |at.buf| == start + |fed|
    requires Drain(cfg, start, fed).stop == NeedMore(at.lsn, at.buf)
    requires IngestAll(foreign, first, Drain(cfg, start, fed).records) == Ok(repo)
    requires Pump(cfg, foreign, at.(buf := at.buf + payload), repo).error.None?
    ensures var p, d := Pump(cfg, foreign, at.(buf := at.buf + payload), repo), Drain(cfg, start, fed + payload);
            && d.stop == NeedMore(p.at.lsn, p.at.buf) && IngestAll(foreign, first, d.records) == Ok(p.repo)
            && p.at.lsn + |p.at.buf| == start + |fed + payload|
  {
    hide Pump, IngestAll, Drain;
    var more := at.(buf := at.buf + payload);
    DrainExtends(cfg, start, fed, payload);
    PumpDrains(cfg, foreign, more, repo);
    IngestBoth(foreign, first, Drain(cfg, start, fed).records, Drain(cfg, more.lsn, more.buf).records);
    StopAccounts(cfg, more.lsn, more.buf);
  }

  lemma PollAgrees(cfg: Config, foreign: Foreign, start: Lsn, first: Repo, fed: seq<byte>, r: Receiver,
                   resp: ReadResponse)
    requires cfg.Valid() && Agrees(cfg, foreign, start, first, fed, r)
    requires resp.start == r.cursor && PollOnce(cfg, foreign, r, resp).1.Ok?
    ensures Agrees(cfg, foreign, start, first, fed + resp.payload, PollOnce(cfg, foreign, r, resp).0)
  {
    hide Pump, IngestAll, Drain;
    if resp.payload == [] {
      assert fed + [] == fed;
    } else {
      DrainNothing(cfg, start);
      var at := if r.decoder.Some? then r.decoder.value else Cursor(resp.start, []);
      FeedAgrees(cfg, foreign, start, first, fed, at, r.repo, resp.payload);
    }
  }

  /** The decoder's position plus what it still holds is where its input ends. */
  lemma {:induction false} StopAccounts(cfg: Config, lsn: Lsn, buf: seq<byte>)
    requires cfg.Valid()
    ensures var s := Drain(cfg, lsn, buf).stop; s.NeedMore? ==> s.lsn + |s.buf| == lsn + |buf|
    decreases |buf|
  {
    var r := Poll(cfg, lsn, buf);
    hide Poll;
    if r.Record? {
      StopAccounts(cfg, r.lsn, r.buf);
    }
  }

  /** After a retention gap the receiver goes on as one started at the gap's end with the same repository. */
  lemma GapStartsOver(cfg: Config, foreign: Foreign, r: Receiver, resp: ReadResponse)
    requires cfg.Valid() && resp.start != r.cursor && resp.payload != []
    ensures PollOnce(cfg, foreign, r, resp) == PollOnce(cfg, foreign, Receiver(resp.start, None, r.repo), resp)
    ensures PollOnce(cfg, foreign, r, resp).1.Ok? ==>
              Agrees(cfg, foreign, resp.start, r.repo, resp.payload, PollOnce(cfg, foreign, r, resp).0)
  {
    hide Pump, IngestAll, Drain;
    var anew := Receiver(resp.start, None, r.repo);
    DrainNothing(cfg, resp.start);
    NothingIngested(foreign, r.repo);
    assert [] + resp.payload == resp.payload;
    if PollOnce(cfg, foreign, anew, resp).1.Ok? {
      PollAgrees(cfg, foreign, resp.start, r.repo, [], anew, resp);
    }
  }

  lemma NothingIngested(foreign: Foreign, repo: Repo)
    ensures IngestAll(foreign, repo, []) == Ok(repo)
  {
  }

  // ---- Polling a safekeeper ----

  /** One poll: the safekeeper as it is then, and the chunk cap asked for. */
  datatype Turn = Turn(node: Node, max: nat)

  /**
   * The safekeeper still retains the cursor, holds a prefix of the bytes `all` from `origin`
   * on, and answers.
   */
  ghost predicate NoGap(t: Turn, cursor: Lsn, origin: Lsn, all: seq<byte>) {
    && t.node.log.Valid() && t.node.log.origin == origin && t.node.log.bytes <= all
    && t.node.log.start <= cursor && Serve(t.node, cursor, t.max).Ok?
  }

  lemma ServedFromLog(t: Turn, cursor: Lsn, origin: Lsn, all: seq<byte>)
    requires NoGap(t, cursor, origin, all)
    ensures var r := Serve(t.node, cursor, t.max).value;
            && r.start == cursor && |r.payload| <= t.max
            && (r.payload != [] ==> origin <= cursor && cursor - origin + |r.payload| <= |all|
                                    && r.payload == all[cursor - origin..cursor - origin + |r.payload|])
  {
  }

  /** The receiver after polling once. */
  function TakeTurn(cfg: Config, foreign: Foreign, r: Receiver, t: Turn): Receiver
    requires cfg.Valid() && t.node.log.Valid() && Serve(t.node, r.cursor, t.max).Ok?
  {
    PollOnce(cfg, foreign, r, Serve(t.node, r.cursor, t.max).value).0
  }

  /** No turn meets a retention gap or an error. */
  ghost predicate Smooth(cfg: Config, foreign: Foreign, origin: Lsn, all: seq<byte>, r: Receiver, turns: seq<Turn>)
    requires cfg.Valid()
    decreases |turns|
  {
    turns != [] ==>
      && NoGap(turns[0], r.cursor, origin, all)
      && PollOnce(cfg, foreign, r, Serve(turns[0].node, r.cursor, turns[0].max).value).1.Ok?
      && Smooth(cfg, foreign, origin, all, TakeTurn(cfg, foreign, r, turns[0]), turns[1..])
  }

  ghost function TakeTurns(cfg: Config, foreign: Foreign, origin: Lsn, all: seq<byte>, r: Receiver,
                           turns: seq<Turn>): Receiver
    requires cfg.Valid() && Smooth(cfg, foreign, origin, all, r, turns)
    decreases |turns|
  {
    if turns == [] then r else TakeTurns(cfg, foreign, origin, all, TakeTurn(cfg, foreign, r, turns[0]), turns[1..])
  }

  ghost predicate AgreesFrom(cfg: Config, foreign: Foreign, origin: Lsn, all: seq<byte>, start: Lsn,
                             first: Repo, r: Receiver)
    requires cfg.Valid()
  {
    origin <= start <= r.cursor <= origin + |all|
      && Agrees(cfg, foreign, start, first, all[start - origin..r.cursor - origin], r)
  }

  lemma PollCursor(cfg: Config, foreign: Foreign, r: Receiver, resp: ReadResponse)
    requires cfg.Valid() && resp.start == r.cursor
    ensures PollOnce(cfg, foreign, r, resp).0.cursor == r.cursor + |resp.payload|
  {
    hide Pump;
  }

  lemma OneTurn(cfg: Config, foreign: Foreign, origin: Lsn, all: seq<byte>, start: Lsn, first: Repo, r: Receiver,
      t: Turn)
    requires cfg.Valid() && AgreesFrom(cfg, foreign, origin, all, start, first, r) && NoGap(t, r.cursor, origin, all)
    requires PollOnce(cfg, foreign, r, Serve(t.node, r.cursor, t.max).value).1.Ok?
    ensures AgreesFrom(cfg, foreign, origin, all, start, first, TakeTurn(cfg, foreign, r, t))
  {
    hide Serve, PollOnce, Agrees;
    ServedFromLog(t, r.cursor, origin, all);
    var resp := Serve(t.node, r.cursor, t.max).value;
    var fed := all[start - origin..r.cursor - origin];
    PollAgrees(cfg, foreign, start, first, fed, r, resp);
    PollCursor(cfg, foreign, r, resp);
    assert fed + resp.payload == all[start - origin..r.cursor + |resp.payload| - origin];
  }

  lemma {:induction false} TurnsAgree(cfg: Config, foreign: Foreign, origin: Lsn, all: seq<byte>,
                                      start: Lsn, first: Repo, r: Receiver, turns: seq<Turn>)
    requires cfg.Valid() && AgreesFrom(cfg, foreign, origin, all, start, first, r)
             && Smooth(cfg, foreign, origin, all, r, turns)
    ensures AgreesFrom(cfg, foreign, origin, all, start, first, TakeTurns(cfg, foreign, origin, all, r, turns))
    decreases |turns|
  {
    hide AgreesFrom, Serve, PollOnce;
    if turns != [] {
      OneTurn(cfg, foreign, origin, all, start, first, r, turns[0]);
      TurnsAgree(cfg, foreign, origin, all, start, first, TakeTurn(cfg, foreign, r, turns[0]), turns[1..]);
    }
  }

  /**
   * Receiver agreement: after any number of polls without a retention gap or an error, the
   * repository is what ingesting the records one decoder finds in [start, cursor) gives,
   * and the decoder accounts for every byte up to the cursor.
   */
  lemma ReceiverAgreement(cfg: Config, foreign: Foreign, origin: Lsn, all: seq<byte>, start: Lsn, first: Repo,
                          turns: seq<Turn>)
    requires cfg.Valid() && origin <= start <= origin + |all|
    requires Smooth(cfg, foreign, origin, all, Receiver(start, None, first), turns)
    ensures var r := TakeTurns(cfg, foreign, origin, all, Receiver(start, None, first), turns);
            && start <= r.cursor <= origin + |all|
            && IngestAll(foreign, first, Drain(cfg, start, all[start - origin..r.cursor - origin]).records) ==
              Ok(r.repo)
            && (r.decoder.Some? ==> r.decoder.value.lsn + |r.decoder.value.buf| == r.cursor)
            && (r.decoder.None? ==> r.cursor == start)
  {
    var r0 := Receiver(start, None, first);
    assert all[start - origin..r0.cursor - origin] == [];
    DrainNothing(cfg, start);
    assert AgreesFrom(cfg, foreign, origin, all, start, first, r0);
    TurnsAgree(cfg, foreign, origin, all, start, first, r0, turns);
    hide Smooth, TakeTurns, Drain, IngestAll;
  }
}
