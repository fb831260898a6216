/**
 * Terms and votes are not kept on disk. How many members may restart before a term can
 * have two leaders: exactly fewer than the least overlap of two quorums.
 */
module Restarts {
  import opened Common
  import opened ConsensusSpec
  import opened Election

  /** The voters are asked in turn, each grant arriving before the next request. */
  function Canvassing(x: NodeId, voters: seq<NodeId>): seq<Event> {
    if voters == [] then []
    else [Ask(voters[0], Request(1, x)), Grant(Vote(voters[0], 1, x))] + Canvassing(x, voters[1..])
  }

  function Campaign(x: NodeId, voters: seq<NodeId>): seq<Event> {
    [Stand(x)] + Canvassing(x, voters)
  }

  function RestartAll(ns: seq<NodeId>): seq<Event> {
    if ns == [] then [] else [Restart(ns[0])] + RestartAll(ns[1..])
  }

  // ---- Joining runs ----

  lemma {:induction false} RunJoins(g: Group, a: seq<Event>, b: seq<Event>)
    requires Possible(g, a) && Possible(Run(g, a), b)
    ensures Possible(g, a + b) && Run(g, a + b) == Run(Run(g, a), b)
    decreases |a|
  {
    hide Step, Enabled;
    if a == [] {
      assert a + b == b;
    } else {
      RunJoins(Step(g, a[0]), a[1..], b);
      assert (a + b)[1..] == a[1..] + b;
    }
  }

  lemma RunOne(g: Group, e: Event)
    requires Enabled(g, e)
    ensures Possible(g, [e]) && Run(g, [e]) == Step(g, e)
  {
    hide Step, Enabled;
    assert [e][1..] == [];
    assert Possible(Step(g, e), []);
  }

  lemma RunTwo(g: Group, a: Event, b: Event)
    requires Enabled(g, a) && Enabled(Step(g, a), b)
    ensures Possible(g, [a, b]) && Run(g, [a, b]) == Step(Step(g, a), b)
  {
    hide Step, Enabled;
    RunOne(g, a);
    RunOne(Step(g, a), b);
    RunJoins(g, [a], [b]);
    assert [a] + [b] == [a, b];
  }

  lemma {:induction false} RestartersJoin(a: seq<Event>, b: seq<Event>)
    ensures Restarters(a + b) == Restarters(a) + Restarters(b)
    decreases |a|
  {
    if a == [] {
      assert a + b == b;
    } else {
      RestartersJoin(a[1..], b);
      assert (a + b)[1..] == a[1..] + b;
    }
  }

  lemma {:induction false} CampaignRestartsNone(x: NodeId, voters: seq<NodeId>)
    ensures Restarters(Canvassing(x, voters)) == {} && Restarters(Campaign(x, voters)) == {}
    decreases |voters|
  {
    if voters != [] {
      CampaignRestartsNone(x, voters[1..]);
      var pair := [Ask(voters[0], Request(1, x)), Grant(Vote(voters[0], 1, x))];
      RestartersJoin(pair, Canvassing(x, voters[1..]));
      assert pair[1..] == [Grant(Vote(voters[0], 1, x))] && pair[1..][1..] == [];
    }
    RestartersJoin([Stand(x)], Canvassing(x, voters));
    assert [Stand(x)][1..] == [];
  }

  lemma {:induction false} RestartAllRestarts(ns: seq<NodeId>)
    ensures Restarters(RestartAll(ns)) == MemberSet(ns) && |MemberSet(ns)| <= |ns|
    decreases |ns|
  {
    if ns != [] {
      RestartAllRestarts(ns[1..]);
      RestartersJoin([Restart(ns[0])], RestartAll(ns[1..]));
      assert [Restart(ns[0])][1..] == [];
      assert MemberSet(ns) == {ns[0]} + MemberSet(ns[1..]);
    }
  }

  // ---- A campaign among nodes that remember nothing wins ----

  predicate Forgotten(g: Group, n: NodeId) {
    n in g.nodes && g.nodes[n] == Fresh(n, g.members)
  }

  function Counting(x: NodeId, members: seq<NodeId>, votes: set<NodeId>): State {
    Fresh(x, members).(term := 1, role := Candidate, votedFor := Some(x), votes := votes)
  }

  /** `g'` differs from `g` only in the nodes of `ns`, and has at least the leaderships of `g`. */
  ghost predicate Touches(g: Group, g': Group, ns: set<NodeId>) {
    && g'.members == g.members && g'.nodes.Keys == g.nodes.Keys && g.elected <= g'.elected
    && forall m :: m in g.nodes && m !in ns ==> g'.nodes[m] == g.nodes[m]
  }

  lemma StandForgotten(g: Group, x: NodeId)
    requires Forgotten(g, x) && Quorum(g.members) >= 2
    ensures var g' := Step(g, Stand(x));
            && Touches(g, g', {x}) && g'.nodes[x] == Counting(x, g.members, {x}) && Request(1, x) in g'.requests
  {
  }

  lemma AskForgotten(g: Group, v: NodeId, x: NodeId)
    requires Forgotten(g, v) && Request(1, x) in g.requests
    ensures var g' := Step(g, Ask(v, Request(1, x)));
            && Touches(g, g', {v}) && Vote(v, 1, x) in g'.cast && g'.requests == g.requests
  {
  }

  lemma GrantCounts(g: Group, v: NodeId, x: NodeId, votes: set<NodeId>)
    requires x in g.nodes && g.nodes[x] == Counting(x, g.members, votes) && Vote(v, 1, x) in g.cast
    ensures var g' := Step(g, Grant(Vote(v, 1, x)));
            && Touches(g, g', {x}) && g'.requests == g.requests
            && (if |votes + {v}| >= Quorum(g.members) then Request(1, x) in g'.elected
                else g'.nodes[x] == Counting(x, g.members, votes + {v}))
  {
  }

  lemma {:induction false} CanvassingWins(g: Group, x: NodeId, votes: set<NodeId>, voters: seq<NodeId>)
    requires x in g.nodes && g.nodes[x] == Counting(x, g.members, votes) && Request(1, x) in g.requests
    requires voters != [] && |votes| + |voters| == Quorum(g.members) && Distinct(voters)
    requires forall v :: v in voters ==> Forgotten(g, v) && v != x && v !in votes
    ensures Possible(g, Canvassing(x, voters))
    ensures var g' := Run(g, Canvassing(x, voters));
            Touches(g, g', {x} + MemberSet(voters)) && Request(1, x) in g'.elected
    decreases |voters|
  {
    hide Step, Counting, Fresh, Possible, Run;
    var v, rest := voters[0], voters[1..];
    AskForgotten(g, v, x);
    var g1 := Step(g, Ask(v, Request(1, x)));
    GrantCounts(g1, v, x, votes);
    var g2 := Step(g1, Grant(Vote(v, 1, x)));
    RunTwo(g, Ask(v, Request(1, x)), Grant(Vote(v, 1, x)));
    assert Touches(g, g2, {x} + MemberSet(voters));
    if rest == [] {
      NothingHappens(g2);
    } else {
      forall w | w in rest ensures Forgotten(g2, w) && w != x && w !in votes + {v} {
        assert w in voters && w != v;
      }
      CanvassingWins(g2, x, votes + {v}, rest);
      TouchesMore(g, g2, Run(g2, Canvassing(x, rest)), {x} + MemberSet(rest), {x} + MemberSet(voters));
    }
    RunJoins(g, [Ask(v, Request(1, x)), Grant(Vote(v, 1, x))], Canvassing(x, rest));
  }

  lemma TouchesMore(g: Group, g1: Group, g2: Group, ns: set<NodeId>, ns': set<NodeId>)
    requires Touches(g, g1, ns') && Touches(g1, g2, ns) && ns <= ns'
    ensures Touches(g, g2, ns')
  {
  }

  lemma NothingHappens(g: Group)
    ensures Possible(g, []) && Run(g, []) == g
  {
  }

  lemma CampaignWins(g: Group, x: NodeId, voters: seq<NodeId>)
    requires Forgotten(g, x) && voters != [] && 1 + |voters| == Quorum(g.members) && Distinct(voters)
    requires forall v :: v in voters ==> Forgotten(g, v) && v != x
    ensures Possible(g, Campaign(x, voters))
    ensures var g' := Run(g, Campaign(x, voters));
            Touches(g, g', {x} + MemberSet(voters)) && Request(1, x) in g'.elected
  {
    hide Step, Counting, Fresh, Possible, Run, Canvassing;
    StandForgotten(g, x);
    var g1 := Step(g, Stand(x));
    RunOne(g, Stand(x));
    CanvassingWins(g1, x, {x}, voters);
    RunJoins(g, [Stand(x)], Canvassing(x, voters));
  }

  lemma {:induction false} RestartedForget(g: Group, ns: seq<NodeId>)
    requires forall n :: n in ns ==> n in g.nodes
    ensures Possible(g, RestartAll(ns))
    ensures var g' := Run(g, RestartAll(ns)); Touches(g, g', MemberSet(ns)) && forall n :: n in ns ==> Forgotten(g', n)
    decreases |ns|
  {
    hide Possible, Run, Fresh;
    if ns == [] {
      NothingHappens(g);
    } else {
      var g1 := Step(g, Restart(ns[0]));
      assert Forgotten(g1, ns[0]) && Touches(g, g1, MemberSet(ns));
      RunOne(g, Restart(ns[0]));
      hide Step;
      RestartedForget(g1, ns[1..]);
      RunJoins(g, [Restart(ns[0])], RestartAll(ns[1..]));
    }
  }

  // ---- Two leaders ----

  /** Two overlapping quorums elect in turn; the members they share restart in between. */
  function TwoCampaigns(members: seq<NodeId>): seq<Event>
    requires |members| >= 2
  {
    var n, q := |members|, Quorum(members);
    Campaign(members[0], members[1..q]) + (RestartAll(members[n - q..q]) + SecondCampaign(members))
  }

  lemma Sliced(members: seq<NodeId>, i: nat, j: nat, m: NodeId)
    requires Distinct(members) && i <= j <= |members|
    ensures Distinct(members[i..j])
    ensures m in members[i..j] <==> exists k :: i <= k < j && members[k] == m
  {
    if k :| i <= k < j && members[k] == m {
      assert members[i..j][k - i] == m;
    }
  }

  lemma InitiallyForgotten(members: seq<NodeId>, n: NodeId)
    requires n in members
    ensures Forgotten(Initial(members), n)
  {
  }

  lemma SecondQuorumForgotten(members: seq<NodeId>, g1: Group, g2: Group, m: NodeId)
    requires Distinct(members) && |members| >= 2 && Touches(Initial(members), g1, MemberSet(members[..Quorum(members)]))
    requires Touches(g1, g2, MemberSet(members[|members| - Quorum(members)..Quorum(members)]))
    requires forall n :: n in members[|members| - Quorum(members)..Quorum(members)] ==> Forgotten(g2, n)
    requires m in members[|members| - Quorum(members)..]
    ensures Forgotten(g2, m)
  {
    var n, q := |members|, Quorum(members);
    hide Fresh;
    InitiallyForgotten(members, m);
    Sliced(members, 0, q, m);
    Sliced(members, n - q, q, m);
    if m !in members[n - q..q] {
      assert m !in members[..q];
    }
  }

  lemma FirstLeader(members: seq<NodeId>)
    requires Distinct(members) && |members| >= 2
    ensures var e := Campaign(members[0], members[1..Quorum(members)]);
            && Possible(Initial(members), e)
            && var g := Run(Initial(members), e);
               Touches(Initial(members), g, MemberSet(members[..Quorum(members)]))
                 && Request(1, members[0]) in g.elected
  {
    hide Fresh, Possible, Run, Initial, Campaign;
    var q := Quorum(members);
    var voters := members[1..q];
    forall v | v in voters ensures Forgotten(Initial(members), v) && v != members[0] {
      Sliced(members, 1, q, v);
      InitiallyForgotten(members, v);
    }
    InitiallyForgotten(members, members[0]);
    Sliced(members, 1, q, members[0]);
    InitialMembers(members);
    CampaignWins(Initial(members), members[0], voters);
    assert {members[0]} + MemberSet(voters) == MemberSet(members[..q]);
  }

  lemma InitialMembers(members: seq<NodeId>)
    ensures Initial(members).members == members
  {
  }

  function SecondCampaign(members: seq<NodeId>): seq<Event>
    requires |members| >= 2
  {
    Campaign(members[|members| - 1], members[|members| - Quorum(members)..|members| - 1])
  }

  lemma SecondLeader(members: seq<NodeId>, g2: Group)
    requires Distinct(members) && |members| >= 2 && g2.members == members
    requires forall m :: m in members[|members| - Quorum(members)..] ==> Forgotten(g2, m)
    ensures Possible(g2, SecondCampaign(members))
    ensures var g := Run(g2, SecondCampaign(members));
            g2.elected <= g.elected && Request(1, members[|members| - 1]) in g.elected
  {
    hide Fresh, Possible, Run, Campaign;
    var n, q := |members|, Quorum(members);
    var voters := members[n - q..n - 1];
    forall v | v in voters ensures v in members[n - q..] && v != members[n - 1] { Sliced(members, n - q, n - 1, v); }
    Sliced(members, n - q, n - 1, members[n - 1]);
    assert members[n - q..][q - 1] == members[n - 1];
    CampaignWins(g2, members[n - 1], voters);
  }

  lemma OverlapForgets(members: seq<NodeId>, g1: Group)
    requires Distinct(members) && |members| >= 2 && Touches(Initial(members), g1, MemberSet(members[..Quorum(members)]))
    ensures var e := RestartAll(members[|members| - Quorum(members)..Quorum(members)]);
            && Possible(g1, e)
            && var g2 := Run(g1, e);
               && g2.members == members && g1.elected <= g2.elected
               && forall m :: m in members[|members| - Quorum(members)..] ==> Forgotten(g2, m)
  {
    hide Fresh, Possible, Run, RestartAll;
    var n, q := |members|, Quorum(members);
    var again := members[n - q..q];
    forall m | m in again ensures m in g1.nodes { InitiallyForgotten(members, m); }
    RestartedForget(g1, again);
    var g2 := Run(g1, RestartAll(again));
    var last := members[n - q..];
    forall m | m in last ensures Forgotten(g2, m) { SecondQuorumForgotten(members, g1, g2, m); }
  }

  lemma OverlapRestarts(members: seq<NodeId>)
    requires |members| >= 2
    ensures |Restarters(TwoCampaigns(members))| <= 2 * Quorum(members) - |members|
  {
    hide Restarters, Campaign, RestartAll;
    var n, q := |members|, Quorum(members);
    var first, again := Campaign(members[0], members[1..q]), members[n - q..q];
    RestartersJoin(first, RestartAll(again) + SecondCampaign(members));
    RestartersJoin(RestartAll(again), SecondCampaign(members));
    CampaignRestartsNone(members[0], members[1..q]);
    CampaignRestartsNone(members[n - 1], members[n - q..n - 1]);
    RestartAllRestarts(again);
  }

  /** For every group of two or more, restarting the overlap of two quorums gives a term two leaders. */
  lemma RestartsBreakSafety(members: seq<NodeId>)
    requires Distinct(members) && |members| >= 2
    ensures Possible(Initial(members), TwoCampaigns(members))
    ensures |Restarters(TwoCampaigns(members))| <= 2 * Quorum(members) - |members|
    ensures var g := Run(Initial(members), TwoCampaigns(members));
            && members[0] != members[|members| - 1]
            && Request(1, members[0]) in g.elected && Request(1, members[|members| - 1]) in g.elected
  {
    hide Fresh, Possible, Run, Initial, Campaign, RestartAll, Restarters;
    var n, q := |members|, Quorum(members);
    var first, again := Campaign(members[0], members[1..q]), RestartAll(members[n - q..q]);
    FirstLeader(members);
    var g1 := Run(Initial(members), first);
    OverlapForgets(members, g1);
    SecondLeader(members, Run(g1, again));
    RunJoins(g1, again, SecondCampaign(members));
    RunJoins(Initial(members), first, again + SecondCampaign(members));
    OverlapRestarts(members);
  }

  // ---- The exact condition ----

  ghost predicate OneLeaderPerTerm(g: Group) {
    forall a, b :: a in g.elected && b in g.elected && a.term == b.term ==> a == b
  }

  /** No run in which at most `k` members restart gives any term two leaders. */
  ghost predicate SafeWith(members: seq<NodeId>, k: nat) {
    forall events :: Possible(Initial(members), events) && |Restarters(events)| <= k ==>
      OneLeaderPerTerm(Run(Initial(members), events))
  }

  /**
   * Safety with up to `k` restarting members, exactly: `k` is below the least overlap of two
   * quorums, or there is no second member.
   */
  lemma SafeIffFewRestarts(members: seq<NodeId>, k: nat)
    requires Distinct(members)
    ensures SafeWith(members, k) <==> |members| <= 1 || k < 2 * Quorum(members) - |members|
  {
    hide Possible, Run, Initial, Restarters, Quorum;
    if |members| <= 1 || k < 2 * Quorum(members) - |members| {
      forall events | Possible(Initial(members), events) && |Restarters(events)| <= k
        ensures OneLeaderPerTerm(Run(Initial(members), events))
      {
        var g := Run(Initial(members), events);
        forall a, b | a in g.elected && b in g.elected && a.term == b.term ensures a == b {
          ElectionSafety(members, events, a, b);
        }
      }
    } else {
      RestartsBreakSafety(members);
      hide TwoCampaigns;
      assert !OneLeaderPerTerm(Run(Initial(members), TwoCampaigns(members)));
    }
  }
}
