/**
 * A safekeeper group fed through one leader, with lost, delayed and repeated messages and
 * crashes of any node: logs agree, and what is served is durable on a quorum for good.
 */
module Cluster {
  import opened Common
  import opened FlatLog
  import opened ConsensusSpec
  import opened SafekeeperSpec

  /**
   * `sent` holds every replication request ever sent, `acks` every flush position ever
   * reached by a node; either may be acted on at any later time, repeatedly, or never.
   */
  datatype Group = Group(
    members: seq<NodeId>, leader: NodeId, nodes: map<NodeId, Node>,
    sent: set<AppendRequest>, acks: set<PeerAck>)

  datatype Event =
    | Propose(req: AppendRequest)
    | Deliver(n: NodeId, req: AppendRequest)
    | Record(n: NodeId, ack: PeerAck)
    | Ask(n: NodeId, term: Term, candidate: NodeId)
    | Stand(n: NodeId)
    | Crash(n: NodeId, unflushed: seq<byte>)

  /** Every store opened empty at `origin`. */
  function Initial(members: seq<NodeId>, leader: NodeId, origin: Lsn): Group {
    Group(members, leader, map m | m in members :: Node(Log(origin, [], origin, origin), Fresh(m, members)), {}, {})
  }

  /** A leader records every ack; another node records only its own flushes. */
  predicate Enabled(g: Group, e: Event) {
    match e
    case Propose(_) => g.leader in g.nodes
    case Deliver(n, req) => n in g.nodes && n != g.leader && req in g.sent
    case Record(n, ack) => n in g.nodes && ack in g.acks && (n == g.leader || n == ack.node)
    case Ask(n, _, _) => n in g.nodes
    case Stand(n) => n in g.nodes
    case Crash(n, _) => n in g.nodes
  }

  /** Whether `n` stores a request: its term is current and it continues the log there. */
  predicate Stores(g: Group, n: NodeId, req: AppendRequest)
    requires n in g.nodes
  {
    !Stale(g.nodes[n], req) && StoreWal(g.nodes[n].log, req).Ok?
  }

  /** The new log of one node, in a group that otherwise stays as it is. */
  function WithLog(g: Group, n: NodeId, log: Log): Group
    requires n in g.nodes
  {
    g.(nodes := g.nodes[n := g.nodes[n].(log := log)], acks := g.acks + {PeerAck(n, log.flushed)})
  }

  function WithState(g: Group, n: NodeId, c: State): Group
    requires n in g.nodes
  {
    g.(nodes := g.nodes[n := g.nodes[n].(c := c)])
  }

  /** Bytes written but not flushed are lost, and so is everything kept in memory. */
  function Crashed(g: Group, n: NodeId, unflushed: seq<byte>): Group
    requires n in g.nodes
  {
    var log := g.nodes[n].log;
    g.(nodes := g.nodes[n := Node(FlatLog.Crash(log.(bytes := log.bytes + unflushed)), Fresh(n, g.members))])
  }

  function Step(g: Group, e: Event): Group
    requires Enabled(g, e)
  {
    match e
    case Propose(req) =>
      if Stores(g, g.leader, req)
      then WithLog(g, g.leader, StoreWal(g.nodes[g.leader].log, req).value).(sent := g.sent + {req})
      else g
    case Deliver(n, req) =>
      if Stores(g, n, req) then WithLog(g, n, StoreWal(g.nodes[n].log, req).value) else g
    case Record(n, ack) => WithState(g, n, RecordFlush(g.nodes[n].c, ack.node, ack.lsn))
    case Ask(n, term, candidate) => WithState(g, n, VoteRequest(g.nodes[n].c, term, candidate).0)
    case Stand(n) => WithState(g, n, StartElection(g.nodes[n].c))
    case Crash(n, unflushed) => Crashed(g, n, unflushed)
  }

  ghost predicate Possible(g: Group, events: seq<Event>)
    decreases |events|
  {
    events != [] ==> Enabled(g, events[0]) && Possible(Step(g, events[0]), events[1..])
  }

  ghost function Run(g: Group, events: seq<Event>): Group
    requires Possible(g, events)
    decreases |events|
  {
    if events == [] then g else Run(Step(g, events[0]), events[1..])
  }

  // ---- The invariant ----

  function Flushed(g: Group, n: NodeId): Lsn {
    if n in g.nodes then g.nodes[n].log.flushed else 0
  }

  ghost predicate Shape(g: Group, origin: Lsn) {
    && origin > 0 && g.members != [] && Distinct(g.members) && g.leader in g.nodes
    && (forall n :: n in g.nodes <==> n in g.members)
  }

  /** Whole, flushed, and a prefix of the leader's log. */
  ghost predicate LogOk(g: Group, origin: Lsn, n: NodeId)
    requires g.leader in g.nodes && n in g.nodes
  {
    var log := g.nodes[n].log;
    && log.origin == log.start == origin && log.flushed == log.End()
    && log.bytes <= g.nodes[g.leader].log.bytes
  }

  /** Recorded flush positions are real, and a non-leader records only its own. */
  ghost predicate FlushMapOk(g: Group, n: NodeId)
    requires n in g.nodes
  {
    var c := g.nodes[n].c;
    && c.members == g.members
    && (forall m :: FlushOf(c, m) <= Flushed(g, m))
    && (n != g.leader ==> forall m :: m != n ==> FlushOf(c, m) == 0)
  }

  /** A sent request carries bytes the leader's log holds. */
  ghost predicate SentOk(g: Group, origin: Lsn, req: AppendRequest)
    requires g.leader in g.nodes
  {
    var bytes := g.nodes[g.leader].log.bytes;
    && origin <= req.start && req.start - origin + |req.payload| <= |bytes|
    && bytes[req.start - origin..][..|req.payload|] == req.payload
  }

  ghost predicate Inv(g: Group, origin: Lsn) {
    && Shape(g, origin)
    && (forall n :: n in g.nodes ==> LogOk(g, origin, n))
    && (forall n :: n in g.nodes ==> FlushMapOk(g, n))
    && (forall req :: req in g.sent ==> SentOk(g, origin, req))
    && (forall a :: a in g.acks ==> a.node in g.nodes && a.lsn <= Flushed(g, a.node))
  }

  lemma InitialInv(members: seq<NodeId>, leader: NodeId, origin: Lsn)
    requires origin > 0 && Distinct(members) && leader in members
    ensures Inv(Initial(members, leader, origin), origin)
  {
  }

  // ---- Each event keeps it ----

  /** A longer log for `n`: anything at the leader, elsewhere a prefix of the leader's. */
  ghost predicate Extends(g: Group, origin: Lsn, n: NodeId, log: Log)
    requires g.leader in g.nodes && n in g.nodes
  {
    && log.origin == log.start == origin && log.flushed == log.End() && g.nodes[n].log.bytes <= log.bytes
    && (n != g.leader ==> log.bytes <= g.nodes[g.leader].log.bytes)
  }

  lemma ExtendLogOk(g: Group, origin: Lsn, n: NodeId, log: Log, m: NodeId)
    requires g.leader in g.nodes && n in g.nodes && m in g.nodes && Extends(g, origin, n, log)
    requires LogOk(g, origin, m) && LogOk(g, origin, n)
    ensures LogOk(WithLog(g, n, log), origin, m) && Flushed(g, m) <= Flushed(WithLog(g, n, log), m)
  {
  }

  lemma ExtendFlushMapOk(g: Group, origin: Lsn, n: NodeId, log: Log, m: NodeId)
    requires g.leader in g.nodes && n in g.nodes && m in g.nodes && Extends(g, origin, n, log)
    requires LogOk(g, origin, n) && FlushMapOk(g, m)
    ensures FlushMapOk(WithLog(g, n, log), m)
  {
  }

  lemma ExtendSentOk(g: Group, origin: Lsn, n: NodeId, log: Log, req: AppendRequest)
    requires g.leader in g.nodes && n in g.nodes && Extends(g, origin, n, log) && SentOk(g, origin, req)
    ensures SentOk(WithLog(g, n, log), origin, req)
  {
  }

  lemma SliceOfPrefix(a: seq<byte>, b: seq<byte>, i: nat, n: nat)
    requires a <= b && i + n <= |a|
    ensures a[i..][..n] == b[i..][..n]
  {
  }

  lemma ExtendInv(g: Group, origin: Lsn, n: NodeId, log: Log)
    requires Inv(g, origin) && n in g.nodes && Extends(g, origin, n, log)
    ensures Inv(WithLog(g, n, log), origin)
  {
    hide LogOk, FlushMapOk, SentOk, Extends, Flushed;
    var g' := WithLog(g, n, log);
    forall m | m in g'.nodes
      ensures LogOk(g', origin, m) && FlushMapOk(g', m) && Flushed(g, m) <= Flushed(g', m)
    {
      ExtendLogOk(g, origin, n, log, m);
      ExtendFlushMapOk(g, origin, n, log, m);
    }
    forall req | req in g'.sent ensures SentOk(g', origin, req) {
      ExtendSentOk(g, origin, n, log, req);
    }
    NewFlushed(g, n, log);
  }

  lemma NewFlushed(g: Group, n: NodeId, log: Log)
    requires n in g.nodes
    ensures Flushed(WithLog(g, n, log), n) == log.flushed
  {
  }

  /** A stored request extends the log it is stored in. */
  lemma StoredExtends(g: Group, origin: Lsn, n: NodeId, req: AppendRequest)
    requires Inv(g, origin) && n in g.nodes && Stores(g, n, req) && (n != g.leader ==> req in g.sent)
    ensures Extends(g, origin, n, StoreWal(g.nodes[n].log, req).value)
  {
    assert LogOk(g, origin, n) && LogOk(g, origin, g.leader);
    if n != g.leader {
      assert SentOk(g, origin, req);
      hide Inv, Stores;
      PrefixGrows(g.nodes[n].log.bytes, g.nodes[g.leader].log.bytes, req.payload);
    }
  }

  lemma PrefixGrows(a: seq<byte>, b: seq<byte>, more: seq<byte>)
    requires a <= b && |a| + |more| <= |b| && b[|a|..][..|more|] == more
    ensures a + more <= b
  {
  }

  lemma ProposeInv(g: Group, origin: Lsn, req: AppendRequest)
    requires Inv(g, origin)
    ensures Inv(Step(g, Propose(req)), origin)
  {
    if Stores(g, g.leader, req) {
      StoredExtends(g, origin, g.leader, req);
      var log := StoreWal(g.nodes[g.leader].log, req).value;
      ExtendInv(g, origin, g.leader, log);
      assert SentOk(WithLog(g, g.leader, log), origin, req) by {
        assert LogOk(g, origin, g.leader);
      }
      hide LogOk, FlushMapOk, Flushed;
      SendInv(WithLog(g, g.leader, log), origin, req);
    }
  }

  lemma SendInv(g: Group, origin: Lsn, req: AppendRequest)
    requires Inv(g, origin) && SentOk(g, origin, req)
    ensures Inv(g.(sent := g.sent + {req}), origin)
  {
    var g' := g.(sent := g.sent + {req});
    assert forall n :: n in g.nodes && LogOk(g, origin, n) ==> LogOk(g', origin, n);
    assert forall n :: n in g.nodes && FlushMapOk(g, n) ==> FlushMapOk(g', n);
    assert forall r :: SentOk(g, origin, r) ==> SentOk(g', origin, r);
  }

  /** A new consensus state for `n` whose recorded flushes are real. */
  ghost predicate Truthful(g: Group, n: NodeId, c: State) {
    && c.members == g.members
    && (forall m :: FlushOf(c, m) <= Flushed(g, m))
    && (n != g.leader ==> forall m :: m != n ==> FlushOf(c, m) == 0)
  }

  lemma WithStateNode(g: Group, origin: Lsn, n: NodeId, c: State, m: NodeId)
    requires g.leader in g.nodes && n in g.nodes && m in g.nodes && Truthful(g, n, c)
    requires LogOk(g, origin, m) && FlushMapOk(g, m)
    ensures LogOk(WithState(g, n, c), origin, m) && FlushMapOk(WithState(g, n, c), m)
  {
  }

  lemma WithStateInv(g: Group, origin: Lsn, n: NodeId, c: State)
    requires Inv(g, origin) && n in g.nodes && Truthful(g, n, c)
    ensures Inv(WithState(g, n, c), origin)
  {
    var g' := WithState(g, n, c);
    assert g'.nodes[g.leader].log == g.nodes[g.leader].log;
    forall r | r in g.sent ensures SentOk(g', origin, r) { assert SentOk(g, origin, r); }
    forall a | a in g.acks ensures Flushed(g', a.node) == Flushed(g, a.node) {}
    hide LogOk, FlushMapOk, SentOk, Truthful, Flushed;
    forall m | m in g'.nodes ensures LogOk(g', origin, m) && FlushMapOk(g', m) {
      WithStateNode(g, origin, n, c, m);
    }
  }

  lemma RecordTruthful(g: Group, origin: Lsn, n: NodeId, ack: PeerAck)
    requires Inv(g, origin) && Enabled(g, Record(n, ack))
    ensures Truthful(g, n, RecordFlush(g.nodes[n].c, ack.node, ack.lsn))
  {
    assert FlushMapOk(g, n);
  }

  lemma SameFlushTruthful(g: Group, origin: Lsn, n: NodeId, c: State)
    requires Inv(g, origin) && n in g.nodes && c.flush == g.nodes[n].c.flush && c.members == g.nodes[n].c.members
    ensures Truthful(g, n, c)
  {
  }

  /** Whatever was written but not flushed, a crash keeps the log and forgets the rest. */
  lemma CrashedIs(g: Group, origin: Lsn, n: NodeId, unflushed: seq<byte>)
    requires Inv(g, origin) && n in g.nodes
    ensures Crashed(g, n, unflushed) == WithState(g, n, Fresh(n, g.members))
    ensures Truthful(g, n, Fresh(n, g.members))
  {
  }

  lemma StepInv(g: Group, origin: Lsn, e: Event)
    requires Inv(g, origin) && Enabled(g, e)
    ensures Inv(Step(g, e), origin)
  {
    hide Inv, Truthful, Extends;
    match e
    case Propose(req) => ProposeInv(g, origin, req);
    case Deliver(n, req) =>
      if Stores(g, n, req) {
        StoredExtends(g, origin, n, req);
        ExtendInv(g, origin, n, StoreWal(g.nodes[n].log, req).value);
      }
    case Record(n, ack) =>
      RecordTruthful(g, origin, n, ack);
      WithStateInv(g, origin, n, RecordFlush(g.nodes[n].c, ack.node, ack.lsn));
    case Ask(n, term, candidate) =>
      var c := VoteRequest(g.nodes[n].c, term, candidate).0;
      SameFlushTruthful(g, origin, n, c);
      WithStateInv(g, origin, n, c);
    case Stand(n) =>
      SameFlushTruthful(g, origin, n, StartElection(g.nodes[n].c));
      WithStateInv(g, origin, n, StartElection(g.nodes[n].c));
    case Crash(n, unflushed) =>
      CrashedIs(g, origin, n, unflushed);
      WithStateInv(g, origin, n, Fresh(n, g.members));
  }

  /** A peer's whole replication handler is a delivery followed by recording its own flush. */
  lemma DeliverThenRecord(g: Group, n: NodeId, req: AppendRequest)
    requires Enabled(g, Deliver(n, req)) && Stores(g, n, req) && g.nodes[n].c.node == n
    ensures var g1 := Step(g, Deliver(n, req));
            var own := Record(n, PeerAck(n, g1.nodes[n].log.flushed));
            && Enabled(g1, own)
            && Step(g1, own).nodes == g.nodes[n := Replicate(g.nodes[n], req).0]
  {
  }

  // ---- Nothing flushed is ever lost ----

  /** Every node of `g` is in `g'` with at least the same log. */
  ghost predicate Grows(g: Group, g': Group) {
    && g'.members == g.members && g'.leader == g.leader && g.nodes.Keys == g'.nodes.Keys
    && forall n :: n in g.nodes ==> g.nodes[n].log.bytes <= g'.nodes[n].log.bytes && Flushed(g, n) <= Flushed(g', n)
  }

  lemma ExtendGrows(g: Group, origin: Lsn, n: NodeId, log: Log)
    requires g.leader in g.nodes && n in g.nodes && LogOk(g, origin, n) && Extends(g, origin, n, log)
    ensures Grows(g, WithLog(g, n, log))
  {
  }

  lemma StepGrows(g: Group, origin: Lsn, e: Event)
    requires Inv(g, origin) && Enabled(g, e)
    ensures Grows(g, Step(g, e))
  {
    hide LogOk, FlushMapOk, SentOk, Extends;
    match e
    case Propose(req) =>
      if Stores(g, g.leader, req) {
        StoredExtends(g, origin, g.leader, req);
        ExtendGrows(g, origin, g.leader, StoreWal(g.nodes[g.leader].log, req).value);
      }
    case Deliver(n, req) =>
      if Stores(g, n, req) {
        StoredExtends(g, origin, n, req);
        ExtendGrows(g, origin, n, StoreWal(g.nodes[n].log, req).value);
      }
    case Record(_, _) =>
    case Ask(_, _, _) =>
    case Stand(_) =>
    case Crash(n, unflushed) => CrashedIs(g, origin, n, unflushed);
  }

  lemma {:induction false} RunInv(g: Group, origin: Lsn, events: seq<Event>)
    requires Inv(g, origin) && Possible(g, events)
    ensures Inv(Run(g, events), origin) && Grows(g, Run(g, events))
    decreases |events|
  {
    hide Inv, Enabled, Step;
    if events != [] {
      StepInv(g, origin, events[0]);
      StepGrows(g, origin, events[0]);
      RunInv(Step(g, events[0]), origin, events[1..]);
    }
  }

  // ---- What the group promises ----

  /** Log agreement: in every run, every node's log is a prefix of the leader's. */
  lemma LogsArePrefixes(members: seq<NodeId>, leader: NodeId, origin: Lsn, events: seq<Event>, n: NodeId)
    requires origin > 0 && Distinct(members) && leader in members
    requires Possible(Initial(members, leader, origin), events) && n in members
    ensures var g := Run(Initial(members, leader, origin), events);
            && g.leader == leader && n in g.nodes && leader in g.nodes
            && g.nodes[n].log.origin == origin && g.nodes[n].log.bytes <= g.nodes[leader].log.bytes
  {
    InitialInv(members, leader, origin);
    RunInv(Initial(members, leader, origin), origin, events);
    assert LogOk(Run(Initial(members, leader, origin), events), origin, n);
  }

  /** `q` is a quorum whose members all have `bytes` durably stored at `from`. */
  ghost predicate DurableOn(g: Group, q: set<NodeId>, from: Lsn, bytes: seq<byte>) {
    && |q| >= Quorum(g.members)
    && forall m :: m in q ==> m in g.members && m in g.nodes && DurableAt(g.nodes[m].log, from, bytes)
  }

  ghost predicate DurableAt(log: Log, from: Lsn, bytes: seq<byte>) {
    && log.origin <= from && from + |bytes| <= log.flushed <= log.End()
    && log.bytes[from - log.origin..][..|bytes|] == bytes
  }

  lemma CommitBelowLog(g: Group, origin: Lsn, n: NodeId)
    requires Inv(g, origin) && n in g.nodes
    ensures CommitLsn(g.nodes[n].c) <= g.nodes[n].log.flushed
  {
    var c := g.nodes[n].c;
    var p := CommitLsn(c);
    assert FlushMapOk(g, n) && LogOk(g, origin, n) && LogOk(g, origin, g.leader);
    CommitIsQuorum(c, p);
    hide CommitLsn;
    var m :| m in FlushedTo(c, c.members, p);
    assert LogOk(g, origin, m);
  }

  /** What is served is the leader's bytes from the floor-raised start, as far as committed and asked for. */
  lemma ServeMeaning(g: Group, origin: Lsn, n: NodeId, start: Lsn, max: nat)
    requires Inv(g, origin) && n in g.nodes
    ensures g.nodes[n].log.Valid() && Serve(g.nodes[n], start, max).Ok?
    ensures var r := Serve(g.nodes[n], start, max).value;
            && r.commit == CommitLsn(g.nodes[n].c) && r.start == Max(start, origin)
            && |r.payload| == Min(Max(r.commit - r.start, 0), max)
    ensures var r := Serve(g.nodes[n], start, max).value;
            r.payload != [] ==> DurableAt(g.nodes[g.leader].log, r.start, r.payload)
  {
    assert LogOk(g, origin, n) && LogOk(g, origin, g.leader);
    CommitBelowLog(g, origin, n);
    var r := Serve(g.nodes[n], start, max).value;
    if r.payload != [] {
      SliceOfPrefix(g.nodes[n].log.bytes, g.nodes[g.leader].log.bytes, r.start - origin, |r.payload|);
    }
  }

  /** Every byte served is durable, and the same, on a quorum. */
  lemma ServedIsDurable(g: Group, origin: Lsn, n: NodeId, start: Lsn, max: nat) returns (q: set<NodeId>)
    requires Inv(g, origin) && n in g.nodes
    ensures g.nodes[n].log.Valid() && Serve(g.nodes[n], start, max).Ok?
    ensures var r := Serve(g.nodes[n], start, max).value; r.payload != [] ==> DurableOn(g, q, r.start, r.payload)
  {
    ServeMeaning(g, origin, n, start, max);
    var c := g.nodes[n].c;
    var r := Serve(g.nodes[n], start, max).value;
    q := FlushedTo(c, c.members, r.commit);
    assert FlushMapOk(g, n);
    CommitIsQuorum(c, r.commit);
    hide Serve, CommitLsn;
    if r.payload != [] {
      forall m | m in q ensures m in g.members && m in g.nodes && DurableAt(g.nodes[m].log, r.start, r.payload) {
        assert LogOk(g, origin, m);
        SliceOfPrefix(g.nodes[m].log.bytes, g.nodes[g.leader].log.bytes, r.start - origin, |r.payload|);
      }
    }
  }

  lemma StaysDurableAt(g: Group, g': Group, origin: Lsn, m: NodeId, from: Lsn, bytes: seq<byte>)
    requires Inv(g, origin) && Inv(g', origin) && Grows(g, g') && m in g.nodes && DurableAt(g.nodes[m].log, from, bytes)
    ensures m in g'.nodes && DurableAt(g'.nodes[m].log, from, bytes)
  {
    assert LogOk(g, origin, m) && LogOk(g', origin, m);
    hide Inv;
    SliceOfPrefix(g.nodes[m].log.bytes, g'.nodes[m].log.bytes, from - origin, |bytes|);
  }

  lemma StaysDurable(g: Group, g': Group, origin: Lsn, q: set<NodeId>, from: Lsn, bytes: seq<byte>)
    requires Inv(g, origin) && Inv(g', origin) && Grows(g, g') && DurableOn(g, q, from, bytes)
    ensures DurableOn(g', q, from, bytes)
  {
    hide Inv, DurableAt;
    forall m | m in q ensures m in g'.members && m in g'.nodes && DurableAt(g'.nodes[m].log, from, bytes) {
      StaysDurableAt(g, g', origin, m, from, bytes);
    }
  }

  /** A read at `n` in `g` succeeds, and a quorum holds durably what it serves, there and later in `g'`. */
  ghost predicate ServedDurably(g: Group, g': Group, n: NodeId, start: Lsn, max: nat) {
    && n in g.nodes && g.nodes[n].log.Valid() && Serve(g.nodes[n], start, max).Ok?
    && var r := Serve(g.nodes[n], start, max).value;
       r.payload != [] ==> exists q :: DurableOn(g, q, r.start, r.payload) && DurableOn(g', q, r.start, r.payload)
  }

  /** From a common non-zero origin, whatever is served is durable on a quorum for good. */
  lemma ServedForGood(g: Group, g': Group, origin: Lsn, n: NodeId, start: Lsn, max: nat)
    requires Inv(g, origin) && Inv(g', origin) && Grows(g, g') && n in g.members
    ensures ServedDurably(g, g', n, start, max)
  {
    assert n in g.nodes;
    hide LogOk, FlushMapOk, SentOk, Serve, DurableOn, Grows;
    var q := ServedIsDurable(g, origin, n, start, max);
    var r := Serve(g.nodes[n], start, max).value;
    if r.payload != [] {
      StaysDurable(g, g', origin, q, r.start, r.payload);
    }
  }

  /** The commit position is real: in every run, a quorum has flushed that far, and no quorum is recorded further. */
  lemma CommitIsReal(g: Group, origin: Lsn, n: NodeId, p: Lsn)
    requires Inv(g, origin) && n in g.nodes
    ensures CommitLsn(g.nodes[n].c) >= p <==> |FlushedTo(g.nodes[n].c, g.members, p)| >= Quorum(g.members)
    ensures forall m :: m in FlushedTo(g.nodes[n].c, g.members, p) ==> m in g.nodes && g.nodes[m].log.flushed >= p
  {
    assert FlushMapOk(g, n);
    CommitIsQuorum(g.nodes[n].c, p);
  }
}
