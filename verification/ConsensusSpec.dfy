/** The quorum state machine of one safekeeper: terms, votes and per-member flush positions. */
module ConsensusSpec {
  import opened Common

  type NodeId = nat
  type Term = nat

  datatype Role = Follower | Candidate | Leader

  datatype State = State(
    node: NodeId, members: seq<NodeId>,
    term: Term, role: Role, votedFor: Option<NodeId>, votes: set<NodeId>,
    flush: map<NodeId, Lsn>)

  function Quorum(members: seq<NodeId>): nat {
    |members| / 2 + 1
  }

  function Fresh(node: NodeId, members: seq<NodeId>): State {
    State(node, members, 0, Follower, None, {}, map m | m in members :: 0)
  }

  // ---- Commit position ----

  function FlushOf(c: State, m: NodeId): Lsn {
    if m in c.flush then c.flush[m] else 0
  }

  function RecordFlush(c: State, node: NodeId, lsn: Lsn): State {
    c.(flush := c.flush[node := Max(FlushOf(c, node), lsn)])
  }

  function Positions(c: State, members: seq<NodeId>): (ps: seq<Lsn>)
    ensures |ps| == |members|
  {
    if members == [] then [] else [FlushOf(c, members[0])] + Positions(c, members[1..])
  }

  predicate Descending(s: seq<Lsn>) {
    forall i, j :: 0 <= i < j < |s| ==> s[i] >= s[j]
  }

  function InsertDescending(x: Lsn, s: seq<Lsn>): seq<Lsn> {
    if s == [] || x >= s[0] then [x] + s else [s[0]] + InsertDescending(x, s[1..])
  }

  function SortDescending(s: seq<Lsn>): seq<Lsn> {
    if s == [] then [] else InsertDescending(s[0], SortDescending(s[1..]))
  }

  /** The quorum-th largest flush position, or 0 when there are too few members. */
  function CommitLsn(c: State): Lsn {
    var sorted := SortDescending(Positions(c, c.members));
    if Quorum(c.members) - 1 < |sorted| then sorted[Quorum(c.members) - 1] else 0
  }

  // ---- Leadership ----

  function ObserveTerm(c: State, term: Term): State {
    if term > c.term then c.(term := term, role := Follower, votedFor := None, votes := {}) else c
  }

  function MaybeLead(c: State): State {
    if c.role.Candidate? && |c.votes| >= Quorum(c.members) then c.(role := Leader) else c
  }

  function StartElection(c: State): State {
    MaybeLead(c.(term := c.term + 1, role := Candidate, votedFor := Some(c.node), votes := {c.node}))
  }

  /** The state after a vote request, and whether the vote is granted. */
  function VoteRequest(c: State, term: Term, candidate: NodeId): (State, bool) {
    var o := ObserveTerm(c, term);
    if term == o.term && (o.votedFor.None? || o.votedFor == Some(candidate))
    then (o.(votedFor := Some(candidate)), true)
    else (o, false)
  }

  function VoteGranted(c: State, from: NodeId, term: Term): State {
    if term == c.term && c.role.Candidate? then MaybeLead(c.(votes := c.votes + {from})) else c
  }

  // ---- The commit position is the quorum's ----

  ghost predicate Distinct(members: seq<NodeId>) {
    forall i, j :: 0 <= i < j < |members| ==> members[i] != members[j]
  }

  /** The members recorded as having flushed at least up to `p`. */
  ghost function FlushedTo(c: State, members: seq<NodeId>, p: Lsn): set<NodeId> {
    set m | m in members && FlushOf(c, m) >= p
  }

  function AtLeast(s: seq<Lsn>, p: Lsn): nat {
    if s == [] then 0 else (if s[0] >= p then 1 else 0) + AtLeast(s[1..], p)
  }

  lemma {:induction false} InsertSorts(x: Lsn, s: seq<Lsn>, p: Lsn)
    requires Descending(s)
    ensures Descending(InsertDescending(x, s)) && |InsertDescending(x, s)| == |s| + 1
    ensures AtLeast(InsertDescending(x, s), p) == AtLeast(s, p) + if x >= p then 1 else 0
    ensures forall y :: y in InsertDescending(x, s) ==> y == x || y in s
  {
    if s == [] || x >= s[0] {
      assert ([x] + s)[1..] == s;
    } else {
      InsertSorts(x, s[1..], p);
      var r := InsertDescending(x, s[1..]);
      assert ([s[0]] + r)[1..] == r;
      assert forall y :: y in r ==> s[0] >= y;
    }
  }

  lemma {:induction false} SortSorts(s: seq<Lsn>, p: Lsn)
    ensures Descending(SortDescending(s)) && |SortDescending(s)| == |s|
    ensures AtLeast(SortDescending(s), p) == AtLeast(s, p)
  {
    if s != [] {
      SortSorts(s[1..], p);
      InsertSorts(s[0], SortDescending(s[1..]), p);
    }
  }

  lemma {:induction false} RankCounts(s: seq<Lsn>, p: Lsn, q: nat)
    requires Descending(s) && 1 <= q <= |s|
    ensures s[q - 1] >= p <==> AtLeast(s, p) >= q
  {
    if s[0] < p {
      NoneAtLeast(s, p);
    } else if q > 1 {
      RankCounts(s[1..], p, q - 1);
    }
  }

  lemma {:induction false} NoneAtLeast(s: seq<Lsn>, p: Lsn)
    requires forall i :: 0 <= i < |s| ==> s[i] < p
    ensures AtLeast(s, p) == 0
  {
    if s != [] {
      NoneAtLeast(s[1..], p);
    }
  }

  lemma {:induction false} PositionsCount(c: State, members: seq<NodeId>, p: Lsn)
    requires Distinct(members)
    ensures AtLeast(Positions(c, members), p) == |FlushedTo(c, members, p)|
  {
    if members != [] {
      PositionsCount(c, members[1..], p);
      var m, rest := members[0], FlushedTo(c, members[1..], p);
      assert m !in members[1..];
      assert FlushedTo(c, members, p) == if FlushOf(c, m) >= p then rest + {m} else rest;
    }
  }

  /** A position is committed exactly when a quorum of members is recorded as flushed to it. */
  lemma CommitIsQuorum(c: State, p: Lsn)
    requires Distinct(c.members) && c.members != []
    ensures CommitLsn(c) >= p <==> |FlushedTo(c, c.members, p)| >= Quorum(c.members)
  {
    var ps := Positions(c, c.members);
    SortSorts(ps, p);
    RankCounts(SortDescending(ps), p, Quorum(c.members));
    PositionsCount(c, c.members, p);
  }

  /** Recording a flush never lowers any member's position nor the commit position. */
  lemma RecordFlushMonotone(c: State, node: NodeId, lsn: Lsn)
    requires Distinct(c.members) && c.members != []
    ensures CommitLsn(c) <= CommitLsn(RecordFlush(c, node, lsn))
    ensures forall m :: FlushOf(c, m) <= FlushOf(RecordFlush(c, node, lsn), m)
  {
    var c', p := RecordFlush(c, node, lsn), CommitLsn(c);
    hide CommitLsn;
    CommitIsQuorum(c, p);
    CommitIsQuorum(c', p);
    SubsetSize(FlushedTo(c, c.members, p), FlushedTo(c', c.members, p));
  }

  ghost function MemberSet(members: seq<NodeId>): set<NodeId> {
    set m | m in members
  }

  lemma {:induction false} MemberCount(members: seq<NodeId>)
    requires Distinct(members)
    ensures |MemberSet(members)| == |members|
  {
    if members != [] {
      MemberCount(members[1..]);
      assert members[0] !in members[1..];
      assert MemberSet(members) == MemberSet(members[1..]) + {members[0]};
    }
  }

  /** Any two quorums share a member, even one outside a set smaller than their least overlap. */
  lemma QuorumsMeet(members: seq<NodeId>, a: set<NodeId>, b: set<NodeId>, except: set<NodeId>) returns (v: NodeId)
    requires Distinct(members) && |a| >= Quorum(members) && |b| >= Quorum(members)
    requires (forall m :: m in a ==> m in members) && (forall m :: m in b ==> m in members)
    requires |except| < 2 * Quorum(members) - |members|
    ensures v in a && v in b && v !in except
  {
    MemberCount(members);
    SubsetSize(a + b, MemberSet(members));
    assert |a + b| == |a| + |b| - |a * b|;
    if a * b - except == {} {
      forall x | x in a * b ensures x in except { assert x !in a * b - except; }
      SubsetSize(a * b, except);
    }
    v :| v in a * b - except;
  }
}
