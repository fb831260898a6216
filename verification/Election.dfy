/**
 * Elections over a network that may lose, delay, reorder and repeat vote requests and
 * grants: no term ever has two leaders, as long as fewer members restart than any two
 * quorums share.
 */
module Election {
  import opened Common
  import opened ConsensusSpec

  datatype Request = Request(term: Term, candidate: NodeId)
  datatype Vote = Vote(voter: NodeId, term: Term, candidate: NodeId)

  /**
   * `requests` and `cast` hold every request ever sent and every vote ever cast, so that a
   * message can arrive at any later time, any number of times, or never. `elected` records
   * every leadership a node has taken up.
   */
  datatype Group = Group(
    members: seq<NodeId>, nodes: map<NodeId, State>,
    requests: set<Request>, cast: set<Vote>, elected: set<Request>)

  datatype Event =
    | Stand(n: NodeId)
    | Ask(n: NodeId, request: Request)
    | Grant(vote: Vote)
    | Restart(n: NodeId)

  function Initial(members: seq<NodeId>): Group {
    Group(members, map m | m in members :: Fresh(m, members), {}, {}, {})
  }

  predicate Enabled(g: Group, e: Event) {
    match e
    case Stand(n) => n in g.nodes
    case Ask(n, request) => n in g.nodes && request in g.requests
    case Grant(vote) => vote in g.cast && vote.candidate in g.nodes
    case Restart(n) => n in g.nodes
  }

  /** Replace a node's state, recording leadership if it now leads. */
  function Update(g: Group, n: NodeId, c: State): Group {
    g.(nodes := g.nodes[n := c],
       elected := if c.role.Leader? then g.elected + {Request(c.term, n)} else g.elected)
  }

  function Step(g: Group, e: Event): Group
    requires Enabled(g, e)
  {
    match e
    case Stand(n) =>
      var c := StartElection(g.nodes[n]);
      Update(g, n, c).(requests := g.requests + {Request(c.term, n)}, cast := g.cast + {Vote(n, c.term, n)})
    case Ask(n, request) =>
      var (c, granted) := VoteRequest(g.nodes[n], request.term, request.candidate);
      var cast := if granted then g.cast + {Vote(n, request.term, request.candidate)} else g.cast;
      Update(g, n, c).(cast := cast)
    case Grant(vote) =>
      Update(g, vote.candidate, VoteGranted(g.nodes[vote.candidate], vote.voter, vote.term))
    case Restart(n) =>
      Update(g, n, Fresh(n, g.members))
  }

  ghost predicate Possible(g: Group, events: seq<Event>)
    decreases |events|
  {
    events != [] ==> Enabled(g, events[0]) && Possible(Step(g, events[0]), events[1..])
  }

  ghost function Run(g: Group, events: seq<Event>): Group
    requires Possible(g, events)
    decreases |events|
  {
    if events == [] then g else Run(Step(g, events[0]), events[1..])
  }

  /** The members that restart at least once. */
  function Restarters(events: seq<Event>): set<NodeId> {
    if events == [] then {}
    else (if events[0].Restart? then {events[0].n} else {}) + Restarters(events[1..])
  }

  // ---- The invariant, for a set of members whose votes may be forgotten ----

  /** A voter has not gone back before a vote it cast, nor changed it within the term. */
  ghost predicate Binding(g: Group, v: Vote) {
    && v.voter in g.nodes
    && g.nodes[v.voter].term >= v.term
    && (g.nodes[v.voter].term == v.term ==> g.nodes[v.voter].votedFor == Some(v.candidate))
  }

  ghost predicate OneVote(g: Group, forgetful: set<NodeId>) {
    forall v, w :: v in g.cast && w in g.cast && v.voter == w.voter && v.term == w.term && v.voter !in forgetful
      ==> v == w
  }

  /** A node counts only votes cast for it in its own term. */
  ghost predicate Counted(g: Group, n: NodeId)
    requires n in g.nodes
  {
    var c := g.nodes[n];
    && c.node == n && c.members == g.members
    && (forall v :: v in c.votes ==> Vote(v, c.term, n) in g.cast)
    && (c.role.Leader? ==> |c.votes| >= Quorum(g.members))
  }

  ghost function Voters(g: Group, r: Request): set<NodeId> {
    set v | v in g.cast && v.term == r.term && v.candidate == r.candidate :: v.voter
  }

  ghost predicate Elected(g: Group, r: Request) {
    r.candidate in g.nodes && |Voters(g, r)| >= Quorum(g.members)
  }

  ghost predicate Safe(g: Group, forgetful: set<NodeId>) {
    && Distinct(g.members)
    && (forall n :: n in g.nodes ==> n in g.members)
    && (forall v :: v in g.cast ==> v.voter in g.nodes && (v.voter !in forgetful ==> Binding(g, v)))
    && OneVote(g, forgetful)
    && (forall n :: n in g.nodes ==> Counted(g, n))
    && (forall r :: r in g.elected ==> Elected(g, r))
  }

  lemma InitialSafe(members: seq<NodeId>, forgetful: set<NodeId>)
    requires Distinct(members)
    ensures Safe(Initial(members), forgetful)
  {
  }

  // ---- Each event keeps it ----

  lemma VotersGrow(g: Group, g': Group, r: Request)
    requires g.cast <= g'.cast
    ensures |Voters(g, r)| <= |Voters(g', r)|
  {
    SubsetSize(Voters(g, r), Voters(g', r));
  }

  /** What a node's step must respect for the group to stay safe. */
  ghost predicate Respects(g: Group, n: NodeId, c: State, cast: set<Vote>, forgetful: set<NodeId>)
    requires n in g.nodes
  {
    var was := g.nodes[n];
    && c.node == n && c.members == g.members
    && g.cast <= cast
    && (forall v :: v in cast - g.cast ==> v.voter == n)
    && (n !in forgetful ==>
          && c.term >= was.term
          && (forall v :: v in cast - g.cast ==> v.term == c.term && c.votedFor == Some(v.candidate))
          && (c.term == was.term && was.votedFor.Some? ==> c.votedFor == was.votedFor))
    && (forall v :: v in c.votes ==> Vote(v, c.term, n) in cast)
    && (c.role.Leader? ==> |c.votes| >= Quorum(g.members))
  }

  lemma UpdateBinding(g: Group, n: NodeId, c: State, cast: set<Vote>, forgetful: set<NodeId>, v: Vote)
    requires Safe(g, forgetful) && n in g.nodes && Respects(g, n, c, cast, forgetful) && v in cast
             && v.voter !in forgetful
    ensures Binding(Update(g, n, c).(cast := cast), v)
  {
  }

  lemma UpdateOneVote(g: Group, n: NodeId, c: State, cast: set<Vote>, forgetful: set<NodeId>)
    requires Safe(g, forgetful) && n in g.nodes && Respects(g, n, c, cast, forgetful)
    ensures OneVote(Update(g, n, c).(cast := cast), forgetful)
  {
  }

  lemma UpdateElected(g: Group, n: NodeId, c: State, cast: set<Vote>, forgetful: set<NodeId>, r: Request)
    requires Safe(g, forgetful) && n in g.nodes && Respects(g, n, c, cast, forgetful) && r in Update(g, n, c).elected
    ensures Elected(Update(g, n, c).(cast := cast), r)
  {
    var g' := Update(g, n, c).(cast := cast);
    if r in g.elected {
      assert Elected(g, r);
      VotersGrow(g, g', r);
    } else {
      forall v | v in c.votes ensures v in Voters(g', r) {
        assert Vote(v, c.term, n) in g'.cast;
      }
      SubsetSize(c.votes, Voters(g', r));
    }
  }

  lemma UpdateSafe(g: Group, n: NodeId, c: State, cast: set<Vote>, forgetful: set<NodeId>)
    requires Safe(g, forgetful) && n in g.nodes && Respects(g, n, c, cast, forgetful)
    ensures Safe(Update(g, n, c).(cast := cast), forgetful)
  {
    var g' := Update(g, n, c).(cast := cast);
    forall v | v in cast && v.voter !in forgetful ensures Binding(g', v) { UpdateBinding(g, n, c, cast, forgetful, v); }
    UpdateOneVote(g, n, c, cast, forgetful);
    forall r | r in g'.elected ensures Elected(g', r) { UpdateElected(g, n, c, cast, forgetful, r); }
    forall m | m in g'.nodes ensures Counted(g', m) { assert m != n ==> Counted(g, m); }
  }

  lemma AskRespects(g: Group, n: NodeId, r: Request, forgetful: set<NodeId>)
    requires n in g.nodes && Counted(g, n)
    ensures var (c, granted) := VoteRequest(g.nodes[n], r.term, r.candidate);
            Respects(g, n, c, if granted then g.cast + {Vote(n, r.term, r.candidate)} else g.cast, forgetful)
  {
  }

  lemma StandRespects(g: Group, n: NodeId, forgetful: set<NodeId>)
    requires n in g.nodes && Counted(g, n)
    ensures var c := StartElection(g.nodes[n]); Respects(g, n, c, g.cast + {Vote(n, c.term, n)}, forgetful)
  {
  }

  lemma GrantRespects(g: Group, v: Vote, forgetful: set<NodeId>)
    requires v in g.cast && v.candidate in g.nodes && Counted(g, v.candidate)
    ensures Respects(g, v.candidate, VoteGranted(g.nodes[v.candidate], v.voter, v.term), g.cast, forgetful)
  {
  }

  lemma RestartRespects(g: Group, n: NodeId, forgetful: set<NodeId>)
    requires n in g.nodes && n in forgetful
    ensures Respects(g, n, Fresh(n, g.members), g.cast, forgetful)
  {
  }

  lemma StepSafe(g: Group, e: Event, forgetful: set<NodeId>)
    requires Safe(g, forgetful) && Enabled(g, e) && (e.Restart? ==> e.n in forgetful)
    ensures Safe(Step(g, e), forgetful)
  {
    var n := if e.Grant? then e.vote.candidate else e.n;
    var g' := Step(g, e);
    assert Counted(g, n);
    hide Safe, Respects, Counted, StartElection, VoteRequest, VoteGranted, Fresh;
    match e {
      case Stand(_) => StandRespects(g, n, forgetful);
      case Ask(_, request) => AskRespects(g, n, request, forgetful);
      case Grant(vote) => GrantRespects(g, vote, forgetful);
      case Restart(_) => RestartRespects(g, n, forgetful);
    }
    UpdateSafe(g, n, g'.nodes[n], g'.cast, forgetful);
    assert g' == Update(g, n, g'.nodes[n]).(cast := g'.cast, requests := g'.requests);
    RequestsIrrelevant(Update(g, n, g'.nodes[n]).(cast := g'.cast), g'.requests, forgetful);
  }

  lemma RequestsIrrelevant(g: Group, requests: set<Request>, forgetful: set<NodeId>)
    requires Safe(g, forgetful)
    ensures Safe(g.(requests := requests), forgetful)
  {
    var g' := g.(requests := requests);
    forall r | r in g.elected ensures Elected(g', r) { assert Elected(g, r) && Voters(g', r) == Voters(g, r); }
  }

  lemma {:induction false} RunSafe(g: Group, events: seq<Event>, forgetful: set<NodeId>)
    requires Safe(g, forgetful) && Possible(g, events) && Restarters(events) <= forgetful
    ensures Safe(Run(g, events), forgetful) && Run(g, events).members == g.members
    decreases |events|
  {
    hide Safe, Enabled;
    if events != [] {
      StepSafe(g, events[0], forgetful);
      RunSafe(Step(g, events[0]), events[1..], forgetful);
    }
  }

  lemma OneLeader(g: Group, forgetful: set<NodeId>, a: Request, b: Request)
    requires Safe(g, forgetful) && a in g.elected && b in g.elected && a.term == b.term
    requires |g.members| <= 1 || |forgetful| < 2 * Quorum(g.members) - |g.members|
    ensures a == b
  {
    assert Elected(g, a) && Elected(g, b);
    if |g.members| > 1 {
      var v := QuorumsMeet(g.members, Voters(g, a), Voters(g, b), forgetful);
      assert Vote(v, a.term, a.candidate) in g.cast && Vote(v, b.term, b.candidate) in g.cast;
    }
  }

  /**
   * Election safety: in every run a term has at most one leader, as long as the members that
   * restart are fewer than any two quorums share, or there is no second member.
   */
  lemma ElectionSafety(members: seq<NodeId>, events: seq<Event>, a: Request, b: Request)
    requires Distinct(members) && Possible(Initial(members), events)
    requires |members| <= 1 || |Restarters(events)| < 2 * Quorum(members) - |members|
    requires a in Run(Initial(members), events).elected && b in Run(Initial(members), events).elected
             && a.term == b.term
    ensures a == b
  {
    var forgetful := Restarters(events);
    InitialSafe(members, forgetful);
    RunSafe(Initial(members), events, forgetful);
    OneLeader(Run(Initial(members), events), forgetful, a, b);
  }
}
