/**
 * An empty store at LSN 0 accepts any start. In every group of two or more opened there,
 * peers can miss the leader's first bytes for good and still make a quorum.
 */
module ZeroOrigin {
  import opened Common
  import opened FlatLog
  import opened ConsensusSpec
  import opened SafekeeperSpec
  import opened Cluster

  const UNSEEDED := Log(0, [], 0, 0)

  function First(s: Lsn, first: seq<byte>): AppendRequest {
    AppendRequest(0, s, first)
  }

  function Second(s: Lsn, first: seq<byte>, second: seq<byte>): AppendRequest {
    AppendRequest(0, s + |first|, second)
  }

  function DeliverAll(peers: seq<NodeId>, req: AppendRequest): seq<Event> {
    if peers == [] then [] else [Deliver(peers[0], req)] + DeliverAll(peers[1..], req)
  }

  function RecordAll(leader: NodeId, ns: seq<NodeId>, end: Lsn): seq<Event> {
    if ns == [] then [] else [Record(leader, PeerAck(ns[0], end))] + RecordAll(leader, ns[1..], end)
  }

  /** The leader stores two runs of bytes, of which the peers see only the second. */
  function Events(leader: NodeId, peers: seq<NodeId>, s: Lsn, first: seq<byte>, second: seq<byte>): seq<Event> {
    [Propose(First(s, first))] + ([Propose(Second(s, first, second))] +
      (DeliverAll(peers, Second(s, first, second)) + RecordAll(leader, [leader] + peers, s + |first| + |second|)))
  }

  // ---- Joining runs ----

  lemma {:induction false} RunJoins(g: Group, a: seq<Event>, b: seq<Event>)
    requires Possible(g, a) && Possible(Run(g, a), b)
    ensures Possible(g, a + b) && Run(g, a + b) == Run(Run(g, a), b)
    decreases |a|
  {
    hide Step, Enabled;
    if a == [] {
      assert a + b == b;
    } else {
      RunJoins(Step(g, a[0]), a[1..], b);
      assert (a + b)[1..] == a[1..] + b;
    }
  }

  lemma Unroll(g: Group, e: Event, rest: seq<Event>)
    requires Enabled(g, e) && Possible(Step(g, e), rest)
    ensures Possible(g, [e] + rest) && Run(g, [e] + rest) == Run(Step(g, e), rest)
  {
    hide Step, Enabled;
    assert ([e] + rest)[1..] == rest;
  }

  lemma NothingHappens(g: Group)
    ensures Possible(g, []) && Run(g, []) == g
  {
  }

  // ---- Each part ----

  lemma FirstAppend(req: AppendRequest)
    ensures StoreWal(UNSEEDED, req) == Ok(Log(req.start, req.payload, req.start, req.start + |req.payload|))
  {
    assert [] + req.payload == req.payload;
  }

  lemma ProposedOne(g: Group, req: AppendRequest, log: Log)
    requires g.leader in g.nodes && g.nodes[g.leader].c.term == 0 && StoreWal(g.nodes[g.leader].log, req) == Ok(log)
    ensures var g' := Step(g, Propose(req));
            && g'.nodes == g.nodes[g.leader := g.nodes[g.leader].(log := log)] && req in g'.sent
            && PeerAck(g.leader, log.flushed) in g'.acks && g'.members == g.members && g'.leader == g.leader
  {
  }

  lemma Proposed(g: Group, s: Lsn, first: seq<byte>, second: seq<byte>)
    requires g.leader in g.nodes && g.nodes[g.leader].log == UNSEEDED && g.nodes[g.leader].c.term == 0 && s > 0
             && first != []
    ensures var r1, r2, end := First(s, first), Second(s, first, second), s + |first| + |second|;
            && Enabled(g, Propose(r1)) && Enabled(Step(g, Propose(r1)), Propose(r2))
            && var g2 := Step(Step(g, Propose(r1)), Propose(r2));
               && g2.nodes == g.nodes[g.leader := g.nodes[g.leader].(log := Log(s, first + second, s, end))]
               && r2 in g2.sent && PeerAck(g.leader, end) in g2.acks && g2.members == g.members && g2.leader == g.leader
  {
    hide Step, StoreWal;
    var r1, r2 := First(s, first), Second(s, first, second);
    var log1, log2 := Log(s, first, s, s + |first|), Log(s, first + second, s, s + |first| + |second|);
    FirstAppend(r1);
    ProposedOne(g, r1, log1);
    SecondAppend(log1, r2);
    ProposedOne(Step(g, Propose(r1)), r2, log2);
  }

  lemma SecondAppend(log: Log, req: AppendRequest)
    requires log.origin == log.start > 0 && req.start == log.End()
    ensures StoreWal(log, req) == Ok(Log(log.origin, log.bytes + req.payload, log.start, log.End() + |req.payload|))
  {
  }

  /** A node at LSN 0 that has seen nothing. */
  predicate Unseeded(g: Group, n: NodeId) {
    n in g.nodes && g.nodes[n].log == UNSEEDED && g.nodes[n].c.term == 0
  }

  lemma Delivered(g: Group, p: NodeId, req: AppendRequest)
    requires Unseeded(g, p) && p != g.leader && req in g.sent && req.term == 0
    ensures var g' := Step(g, Deliver(p, req));
            && g' == g.(nodes := g'.nodes, acks := g'.acks)
            && g'.nodes == g.nodes[p :=
              g.nodes[p].(log := Log(req.start, req.payload, req.start, req.start + |req.payload|))]
            && g'.acks == g.acks + {PeerAck(p, req.start + |req.payload|)}
  {
    FirstAppend(req);
  }

  /** Deliveries touch only the peers, which end with just the request's bytes and acknowledge them. */
  ghost predicate DeliveredTo(g: Group, g': Group, peers: seq<NodeId>, req: AppendRequest) {
    var end := req.start + |req.payload|;
    && g' == g.(nodes := g'.nodes, acks := g'.acks) && g.acks <= g'.acks && g'.nodes.Keys == g.nodes.Keys
    && (forall n :: n in g.nodes && n !in peers ==> g'.nodes[n] == g.nodes[n])
    && (forall p :: p in peers ==> p in g'.nodes && g'.nodes[p].log == Log(req.start, req.payload, req.start, end))
    && (forall p :: p in peers ==> PeerAck(p, end) in g'.acks)
  }

  lemma DeliveredMore(g: Group, g1: Group, g2: Group, peers: seq<NodeId>, req: AppendRequest)
    requires peers != [] && DeliveredTo(g, g1, [peers[0]], req) && DeliveredTo(g1, g2, peers[1..], req)
             && peers[0] !in peers[1..]
    ensures DeliveredTo(g, g2, peers, req)
  {
    assert peers[0] in [peers[0]];
    assert forall p :: p in peers <==> p == peers[0] || p in peers[1..];
  }

  lemma {:induction false} DeliveredAll(g: Group, peers: seq<NodeId>, req: AppendRequest)
    requires Distinct(peers) && req in g.sent && req.term == 0
    requires forall p :: p in peers ==> Unseeded(g, p) && p != g.leader
    ensures Possible(g, DeliverAll(peers, req)) && DeliveredTo(g, Run(g, DeliverAll(peers, req)), peers, req)
    decreases |peers|
  {
    hide Possible, Run, Step;
    if peers == [] {
      NothingHappens(g);
    } else {
      var p, rest := peers[0], peers[1..];
      Delivered(g, p, req);
      var g1 := Step(g, Deliver(p, req));
      forall q | q in rest ensures Unseeded(g1, q) && q != g1.leader { assert q in peers && q != p; }
      assert DeliveredTo(g, g1, [p], req);
      hide DeliveredTo;
      DeliveredAll(g1, rest, req);
      DeliveredMore(g, g1, Run(g1, DeliverAll(rest, req)), peers, req);
      Unroll(g, Deliver(p, req), DeliverAll(rest, req));
    }
  }

  /** Recording touches only the leader's flush positions. */
  ghost predicate RecordedAt(g: Group, g': Group, ns: seq<NodeId>, end: Lsn)
    requires g.leader in g.nodes
  {
    && g'.members == g.members && g'.leader == g.leader && g'.leader in g'.nodes
    && g'.nodes == g.nodes[g.leader := g.nodes[g.leader].(c := g'.nodes[g.leader].c)]
    && g'.nodes[g.leader].c.members == g.nodes[g.leader].c.members
    && (forall m :: FlushOf(g'.nodes[g.leader].c, m) >= FlushOf(g.nodes[g.leader].c, m))
    && (forall m :: m in ns ==> FlushOf(g'.nodes[g.leader].c, m) >= end)
  }

  lemma RecordedOne(g: Group, n: NodeId, end: Lsn)
    requires g.leader in g.nodes && PeerAck(n, end) in g.acks
    ensures Enabled(g, Record(g.leader, PeerAck(n, end)))
    ensures var g' := Step(g, Record(g.leader, PeerAck(n, end))); RecordedAt(g, g', [n], end) && g'.acks == g.acks
  {
  }

  lemma {:induction false} RecordedAll(g: Group, ns: seq<NodeId>, end: Lsn)
    requires g.leader in g.nodes && forall n :: n in ns ==> PeerAck(n, end) in g.acks
    ensures Possible(g, RecordAll(g.leader, ns, end)) && RecordedAt(g, Run(g, RecordAll(g.leader, ns, end)), ns, end)
    decreases |ns|
  {
    hide Possible, Run, FlushOf;
    if ns == [] {
      NothingHappens(g);
    } else {
      RecordedOne(g, ns[0], end);
      var g1 := Step(g, Record(g.leader, PeerAck(ns[0], end)));
      hide Step, Enabled;
      RecordedAll(g1, ns[1..], end);
      Unroll(g, Record(g.leader, PeerAck(ns[0], end)), RecordAll(g.leader, ns[1..], end));
      var c0, c1 := g.nodes[g.leader].c, g1.nodes[g.leader].c;
      assert ns[0] in [ns[0]];
      assert FlushOf(c1, ns[0]) >= end;
    }
  }

  // ---- The whole run ----

  /** The group after the run: the leader has everything, the peers only the second part, the others nothing. */
  ghost predicate Outcome(g: Group, members: seq<NodeId>, leader: NodeId, peers: seq<NodeId>, s: Lsn, first: seq<byte>,
      second: seq<byte>) {
    var end := s + |first| + |second|;
    && g.members == members && leader in g.nodes && g.nodes[leader].log == Log(s, first + second, s, end)
    && g.nodes[leader].c.members == members
    && (forall m :: m in [leader] + peers ==> FlushOf(g.nodes[leader].c, m) >= end)
    && (forall n :: n in g.nodes && n != leader ==> g.nodes[n].log == UNSEEDED || g.nodes[n].log.origin == s + |first|)
  }

  ghost predicate AllAtZero(g: Group, members: seq<NodeId>, leader: NodeId) {
    && g.members == members && g.leader == leader && leader in g.nodes
    && (forall n :: n in g.nodes <==> n in members)
    && (forall n :: n in g.nodes ==> Unseeded(g, n) && g.nodes[n].c.members == members)
  }

  lemma InitiallyAtZero(members: seq<NodeId>, leader: NodeId)
    requires leader in members
    ensures AllAtZero(Initial(members, leader, 0), members, leader)
  {
  }

  lemma OutcomeOf(g0: Group, g2: Group, g3: Group, g4: Group, members: seq<NodeId>, leader: NodeId, peers: seq<NodeId>,
                  s: Lsn, first: seq<byte>, second: seq<byte>)
    requires AllAtZero(g0, members, leader) && s > 0 && first != [] && leader !in peers
    requires g2.nodes == g0.nodes[leader := g0.nodes[leader].(log := Log(s, first + second, s, s + |first| + |second|))]
    requires g2.members == members && g2.leader == leader && DeliveredTo(g2, g3, peers, Second(s, first, second))
    requires leader in g3.nodes && RecordedAt(g3, g4, [leader] + peers, s + |first| + |second|)
    ensures Outcome(g4, members, leader, peers, s, first, second)
  {
    hide FlushOf;
    forall n | n in g4.nodes && n != leader
      ensures g4.nodes[n].log == UNSEEDED || g4.nodes[n].log.origin == s + |first|
    {
      assert n in g0.nodes && g4.nodes[n] == g3.nodes[n];
      assert n !in peers ==> g3.nodes[n] == g2.nodes[n] == g0.nodes[n] && Unseeded(g0, n);
    }
  }

  lemma PeersUnseeded(g0: Group, g2: Group, members: seq<NodeId>, leader: NodeId, peers: seq<NodeId>, log: Log)
    requires AllAtZero(g0, members, leader) && (forall p :: p in peers ==> p in members && p != leader)
    requires g2.nodes == g0.nodes[leader := g0.nodes[leader].(log := log)]
    ensures forall p :: p in peers ==> Unseeded(g2, p)
  {
    forall p | p in peers ensures Unseeded(g2, p) { assert Unseeded(g0, p); }
  }

  lemma Happens(members: seq<NodeId>, leader: NodeId, peers: seq<NodeId>, s: Lsn, first: seq<byte>, second: seq<byte>)
    requires leader in members && Distinct(peers) && (forall p :: p in peers ==> p in members && p != leader)
    requires s > 0 && first != []
    ensures Possible(Initial(members, leader, 0), Events(leader, peers, s, first, second))
    ensures Outcome(Run(Initial(members, leader, 0), Events(leader, peers, s, first, second)), members, leader, peers,
            s, first, second)
  {
    hide Initial, Step, Run, Possible, Enabled, Outcome, DeliverAll, RecordAll;
    var g0 := Initial(members, leader, 0);
    var r1, r2, end := First(s, first), Second(s, first, second), s + |first| + |second|;
    var recording := RecordAll(leader, [leader] + peers, end);
    InitiallyAtZero(members, leader);
    assert Unseeded(g0, leader);
    Proposed(g0, s, first, second);
    var g1 := Step(g0, Propose(r1));
    var g2 := Step(g1, Propose(r2));
    PeersUnseeded(g0, g2, members, leader, peers, Log(s, first + second, s, end));
    hide AllAtZero, Unseeded;
    DeliveredAll(g2, peers, r2);
    var g3 := Run(g2, DeliverAll(peers, r2));
    RecordedAll(g3, [leader] + peers, end);
    OutcomeOf(g0, g2, g3, Run(g3, recording), members, leader, peers, s, first, second);
    RunJoins(g2, DeliverAll(peers, r2), recording);
    Unroll(g1, Propose(r2), DeliverAll(peers, r2) + recording);
    Unroll(g0, Propose(r1), [Propose(r2)] + (DeliverAll(peers, r2) + recording));
  }

  lemma QuorumRecorded(g: Group, members: seq<NodeId>, leader: NodeId, peers: seq<NodeId>, s: Lsn, first: seq<byte>,
      second: seq<byte>)
    requires Outcome(g, members, leader, peers, s, first, second) && Distinct(members) && leader in members
    requires Distinct(peers) && (forall p :: p in peers ==> p in members && p != leader)
             && 1 + |peers| >= Quorum(members)
    ensures CommitLsn(g.nodes[leader].c) >= s + |first| + |second|
  {
    var c, end, ns := g.nodes[leader].c, s + |first| + |second|, [leader] + peers;
    hide CommitLsn, FlushOf;
    CommitIsQuorum(c, end);
    forall i, j | 0 <= i < j < |ns| ensures ns[i] != ns[j] { assert ns[j] in peers; }
    MemberCount(ns);
    forall m | m in MemberSet(ns) ensures m in FlushedTo(c, members, end) { assert m in ns; }
    SubsetSize(MemberSet(ns), FlushedTo(c, members, end));
  }

  lemma OneByteServed(n: Node, s: Lsn, bytes: seq<byte>)
    requires n.log == Log(s, bytes, s, s + |bytes|) && bytes != [] && CommitLsn(n.c) > s
    ensures n.log.Valid() && Serve(n, s, 1).Ok? && Serve(n, s, 1).value.start == s
            && Serve(n, s, 1).value.payload == bytes[..1]
  {
    hide CommitLsn;
  }

  /** Enough peers for a quorum with the leader. */
  lemma PickPeers(members: seq<NodeId>, leader: NodeId) returns (peers: seq<NodeId>)
    requires Distinct(members) && leader in members
    ensures |peers| == Quorum(members) - 1 && Distinct(peers) && forall p :: p in peers ==> p in members && p != leader
  {
    var i :| 0 <= i < |members| && members[i] == leader;
    var others := members[..i] + members[i + 1..];
    forall a, b | 0 <= a < b < |others| ensures others[a] != others[b] {
      assert others[a] == members[if a < i then a else a + 1] && others[b] == members[if b < i then b else b + 1];
    }
    peers := others[..Quorum(members) - 1];
    forall p | p in peers ensures p in members && p != leader {
      var a :| 0 <= a < |others| && others[a] == p;
      assert p == members[if a < i then a else a + 1];
    }
  }

  /** With empty stores at LSN 0, any leader of any group of two or more serves a byte that no quorum holds. */
  lemma ZeroOriginServesUndurable(members: seq<NodeId>, leader: NodeId, peers: seq<NodeId>, s: Lsn, first: seq<byte>,
      second: seq<byte>)
    requires Distinct(members) && leader in members && |members| >= 2 && s > 0 && first != []
    requires Distinct(peers) && (forall p :: p in peers ==> p in members && p != leader)
             && 1 + |peers| >= Quorum(members)
    ensures Possible(Initial(members, leader, 0), Events(leader, peers, s, first, second))
    ensures var g := Run(Initial(members, leader, 0), Events(leader, peers, s, first, second));
            && leader in g.nodes && g.nodes[leader].log.Valid() && Serve(g.nodes[leader], s, 1).Ok?
            && Serve(g.nodes[leader], s, 1).value.start == s && Serve(g.nodes[leader], s, 1).value.payload == first[..1]
            && forall q :: !DurableOn(g, q, s, first[..1])
  {
    hide Possible, Run, Events, Initial, Serve, CommitLsn;
    Happens(members, leader, peers, s, first, second);
    var g := Run(Initial(members, leader, 0), Events(leader, peers, s, first, second));
    QuorumRecorded(g, members, leader, peers, s, first, second);
    OneByteServed(g.nodes[leader], s, first + second);
    assert (first + second)[..1] == first[..1];
    forall q ensures !DurableOn(g, q, s, first[..1]) {
      if DurableOn(g, q, s, first[..1]) {
        forall m | m in q ensures m == leader {
          assert DurableAt(g.nodes[m].log, s, first[..1]);
        }
        SubsetSize(q, {leader});
      }
    }
  }
}
