/** When everything a safekeeper group serves is durable on a quorum: exactly. */
module Durability {
  import opened Common
  import opened FlatLog
  import opened ConsensusSpec
  import opened SafekeeperSpec
  import opened Cluster
  import ZeroOrigin

  // ---- A group of one, from any origin ----

  /** The only member's log is whole and flushed, and its recorded positions and acknowledgements are real. */
  ghost predicate Sole(g: Group) {
    && |g.members| == 1 && g.members[0] == g.leader && g.nodes.Keys == {g.leader}
    && var log := g.nodes[g.leader].log;
       && log.origin == log.start && log.flushed == log.End()
       && g.nodes[g.leader].c.members == g.members
       && (forall m :: FlushOf(g.nodes[g.leader].c, m) <= log.flushed)
       && (forall a :: a in g.acks ==> a.lsn <= log.flushed)
  }

  /** The log grows; once it holds anything it also keeps its origin. */
  ghost predicate SoleGrows(g: Group, g': Group)
    requires g.leader in g.nodes && g'.leader in g'.nodes
  {
    var log, log' := g.nodes[g.leader].log, g'.nodes[g'.leader].log;
    && g'.leader == g.leader && g'.members == g.members && log.flushed <= log'.flushed
    && (log.End() > 0 ==> log'.origin == log.origin && log.bytes <= log'.bytes)
  }

  lemma SoleStores(g: Group, req: AppendRequest)
    requires Sole(g) && Stores(g, g.leader, req)
    ensures var g' := WithLog(g, g.leader, StoreWal(g.nodes[g.leader].log, req).value);
            Sole(g'.(sent := g.sent + {req})) && SoleGrows(g, g'.(sent := g.sent + {req}))
  {
  }

  lemma SoleState(g: Group, c: State)
    requires Sole(g) && c.members == g.members && forall m :: FlushOf(c, m) <= g.nodes[g.leader].log.flushed
    ensures Sole(WithState(g, g.leader, c)) && SoleGrows(g, WithState(g, g.leader, c))
  {
  }

  lemma SoleCrash(g: Group, unflushed: seq<byte>)
    requires Sole(g)
    ensures Crashed(g, g.leader, unflushed) == WithState(g, g.leader, Fresh(g.leader, g.members))
  {
    var log := g.nodes[g.leader].log;
    assert (log.bytes + unflushed)[..|log.bytes|] == log.bytes;
  }

  lemma SoleStep(g: Group, e: Event)
    requires Sole(g) && Enabled(g, e)
    ensures Sole(Step(g, e)) && SoleGrows(g, Step(g, e))
  {
    var c := g.nodes[g.leader].c;
    match e
    case Propose(req) =>
      if Stores(g, g.leader, req) {
        SoleStores(g, req);
      }
    case Deliver(_, _) =>
    case Record(_, ack) =>
      var c' := RecordFlush(c, ack.node, ack.lsn);
      assert forall m :: FlushOf(c', m) <= Max(FlushOf(c, m), ack.lsn);
      SoleState(g, c');
    case Ask(_, term, candidate) =>
      var c' := VoteRequest(c, term, candidate).0;
      assert forall m :: FlushOf(c', m) == FlushOf(c, m);
      SoleState(g, c');
    case Stand(_) =>
      var c' := StartElection(c);
      assert forall m :: FlushOf(c', m) == FlushOf(c, m);
      SoleState(g, c');
    case Crash(_, unflushed) =>
      SoleCrash(g, unflushed);
      SoleState(g, Fresh(g.leader, g.members));
  }

  lemma {:induction false} SoleRun(g: Group, events: seq<Event>)
    requires Sole(g) && Possible(g, events)
    ensures Sole(Run(g, events)) && SoleGrows(g, Run(g, events))
    decreases |events|
  {
    if events != [] {
      SoleStep(g, events[0]);
      SoleRun(Step(g, events[0]), events[1..]);
      hide Step, Enabled;
    }
  }

  lemma SoleCommit(g: Group)
    requires Sole(g)
    ensures CommitLsn(g.nodes[g.leader].c) <= g.nodes[g.leader].log.flushed
  {
    var c := g.nodes[g.leader].c;
    CommitIsQuorum(c, CommitLsn(c));
    hide CommitLsn;
    var m :| m in FlushedTo(c, c.members, CommitLsn(c));
  }

  /** A node whose whole log is flushed serves its own durable bytes. */
  lemma ServesOwn(n: Node, start: Lsn, max: nat)
    requires n.log.origin == n.log.start && n.log.flushed == n.log.End() && CommitLsn(n.c) <= n.log.flushed
    ensures n.log.Valid() && Serve(n, start, max).Ok?
    ensures var r := Serve(n, start, max).value; r.payload != [] ==> DurableAt(n.log, r.start, r.payload)
  {
    hide CommitLsn;
  }

  lemma SoleServes(g: Group, g': Group, start: Lsn, max: nat)
    requires Sole(g) && Sole(g') && SoleGrows(g, g')
    ensures ServedDurably(g, g', g.leader, start, max)
  {
    hide CommitLsn, Serve, FlushOf;
    SoleCommit(g);
    ServesOwn(g.nodes[g.leader], start, max);
    var r := Serve(g.nodes[g.leader], start, max).value;
    if r.payload != [] {
      var log, log' := g.nodes[g.leader].log, g'.nodes[g.leader].log;
      SliceOfPrefix(log.bytes, log'.bytes, r.start - log.origin, |r.payload|);
      assert DurableOn(g, {g.leader}, r.start, r.payload) && DurableOn(g', {g.leader}, r.start, r.payload);
    }
  }

  // ---- All groups ----

  /**
   * Durability: in every run of a group opened at a common non-zero origin, or of a group of
   * one, a read at any node succeeds, and every byte it serves is durable and identical on a
   * quorum then, and on the same quorum after whatever follows.
   */
  lemma QuorumDurability(members: seq<NodeId>, leader: NodeId, origin: Lsn,
                         before: seq<Event>, after: seq<Event>, n: NodeId, start: Lsn, max: nat)
    requires origin > 0 || |members| == 1
    requires Distinct(members) && leader in members && n in members
    requires Possible(Initial(members, leader, origin), before)
    requires Possible(Run(Initial(members, leader, origin), before), after)
    ensures var g := Run(Initial(members, leader, origin), before); ServedDurably(g, Run(g, after), n, start, max)
  {
    var g0 := Initial(members, leader, origin);
    var g := Run(g0, before);
    if origin > 0 {
      InitialInv(members, leader, origin);
      hide Inv, ServedDurably, Initial, Run, Possible;
      RunInv(g0, origin, before);
      RunInv(g, origin, after);
      MembersStay(g0, g, members);
      ServedForGood(g, Run(g, after), origin, n, start, max);
    } else {
      assert Sole(g0);
      hide ServedDurably, Initial, Run, Possible;
      SoleRun(g0, before);
      SoleRun(g, after);
      SoleServes(g, Run(g, after), start, max);
    }
  }

  lemma MembersStay(g0: Group, g: Group, members: seq<NodeId>)
    requires Grows(g0, g) && g0.members == members
    ensures g.members == members
  {
  }

  /** Every read in every run serves only what a quorum holds for good. */
  ghost predicate AlwaysDurable(members: seq<NodeId>, leader: NodeId, origin: Lsn) {
    forall before, after, n, start, max ::
      && n in members
      && Possible(Initial(members, leader, origin), before)
      && Possible(Run(Initial(members, leader, origin), before), after)
      ==> ServedDurably(Run(Initial(members, leader, origin), before),
                        Run(Run(Initial(members, leader, origin), before), after), n, start, max)
  }

  /** The condition is exact: a common non-zero origin, or a group of one. */
  lemma DurableIff(members: seq<NodeId>, leader: NodeId, origin: Lsn)
    requires Distinct(members) && leader in members
    ensures AlwaysDurable(members, leader, origin) <==> origin > 0 || |members| == 1
  {
    hide ServedDurably, Initial, Run, Possible;
    if origin > 0 || |members| == 1 {
      forall before, after, n, start, max | n in members && Possible(Initial(members, leader, origin), before)
        && Possible(Run(Initial(members, leader, origin), before), after)
        ensures ServedDurably(Run(Initial(members, leader, origin), before),
                              Run(Run(Initial(members, leader, origin), before), after), n, start, max)
      {
        QuorumDurability(members, leader, origin, before, after, n, start, max);
      }
    } else {
      NotAlwaysDurable(members, leader);
    }
  }

  lemma NotAlwaysDurable(members: seq<NodeId>, leader: NodeId)
    requires Distinct(members) && leader in members && |members| != 1
    ensures !AlwaysDurable(members, leader, 0)
  {
    hide Initial, Run, Possible, Serve;
    assert |members| >= 2;
    var peers := ZeroOrigin.PickPeers(members, leader);
    ZeroOrigin.ZeroOriginServesUndurable(members, leader, peers, 1, [0], []);
    var events := ZeroOrigin.Events(leader, peers, 1, [0], []);
    hide ZeroOrigin.Events;
    var g := Run(Initial(members, leader, 0), events);
    ZeroOrigin.NothingHappens(g);
    assert [0][..1] == [0];
    assert !ServedDurably(g, Run(g, []), leader, 1, 1);
  }
}
