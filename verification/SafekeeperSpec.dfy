/** What one safekeeper does with each request, over its promised log and consensus state. */
module SafekeeperSpec {
  import opened Common
  import opened FlatLog
  import opened ConsensusSpec

  datatype AppendRequest = AppendRequest(term: Term, start: Lsn, payload: seq<byte>)
  datatype Status = Accepted | StaleTerm
  datatype AppendResponse = AppendResponse(status: Status, term: Term, flush: Lsn, commit: Lsn)
  datatype ReadResponse = ReadResponse(commit: Lsn, start: Lsn, payload: seq<byte>)
  datatype VoteResponse = VoteResponse(granted: bool, term: Term, flush: Lsn)
  datatype PeerAck = PeerAck(node: NodeId, lsn: Lsn)

  datatype Node = Node(log: Log, c: State)

  predicate Stale(n: Node, req: AppendRequest) {
    req.term < n.c.term
  }

  function Refusal(n: Node): AppendResponse {
    AppendResponse(StaleTerm, n.c.term, n.log.flushed, CommitLsn(n.c))
  }

  /** Append and flush under the storage lock. */
  function StoreWal(log: Log, req: AppendRequest): Result<Log, StorageError> {
    var appended :- Append(log, req.start, req.payload);
    Ok(Flush(appended))
  }

  function RecordAcks(c: State, acks: seq<PeerAck>): State
    decreases |acks|
  {
    if acks == [] then c else RecordAcks(RecordFlush(c, acks[0].node, acks[0].lsn), acks[1..])
  }

  /** The acceptor's whole handler. */
  function Replicate(n: Node, req: AppendRequest): (Node, Result<AppendResponse, StorageError>) {
    if Stale(n, req) then (n, Ok(Refusal(n)))
    else
      var log := StoreWal(n.log, req);
      if log.Err? then (n, Err(log.error))
      else
        var n' := Node(log.value, RecordFlush(n.c, n.c.node, log.value.flushed));
        (n', Ok(AppendResponse(Accepted, n.c.term, n'.log.flushed, CommitLsn(n'.c))))
  }

  /** Committed bytes from `start`, at most `max` of them; `start` is raised to the retained floor. */
  function Serve(n: Node, start: Lsn, max: nat): Result<ReadResponse, StorageError>
    requires n.log.Valid()
  {
    var commit, from := CommitLsn(n.c), Max(start, n.log.start);
    var available := Min(Max(commit - from, 0), max);
    if available == 0 then Ok(ReadResponse(commit, from, []))
    else
      var payload :- Read(n.log, from, available);
      Ok(ReadResponse(commit, from, payload))
  }

  function VoteFor(n: Node, term: Term, candidate: NodeId): (Node, VoteResponse) {
    var (c, granted) := VoteRequest(n.c, term, candidate);
    (n.(c := c), VoteResponse(granted, c.term, n.log.flushed))
  }

  // ---- What the answers promise ----

  /**
   * An accepted request is durable in full at the position answered; a refused or failed
   * one changes nothing, and is refused only for an older term.
   */
  lemma AcceptedIsDurable(n: Node, req: AppendRequest)
    requires n.log.Valid()
    ensures var (n', r) := Replicate(n, req);
            && (r.Ok? && r.value.status.Accepted? ==>
                  && req.term >= n.c.term && n'.log.Valid()
                  && r.value.flush == n'.log.flushed == n'.log.End() == req.start + |req.payload|
                  && n'.log.bytes[req.start - n'.log.origin..] == req.payload
                  && FlushOf(n'.c, n.c.node) >= r.value.flush && r.value.commit == CommitLsn(n'.c))
            && (r.Ok? && r.value.status.StaleTerm? <==> req.term < n.c.term)
            && (r.Err? || r.value.status.StaleTerm? ==> n' == n)
  {
  }

  /**
   * After folding acknowledgements in, a member counts as flushed to `p` exactly when it did before
   * or one of them says so.
   */
  lemma {:induction false} AcksAreFolded(c: State, acks: seq<PeerAck>, m: NodeId, p: Lsn)
    ensures FlushOf(RecordAcks(c, acks), m) >= p <==>
            FlushOf(c, m) >= p || exists i :: 0 <= i < |acks| && acks[i].node == m && acks[i].lsn >= p
    decreases |acks|
  {
    if acks != [] {
      var c1, rest := RecordFlush(c, acks[0].node, acks[0].lsn), acks[1..];
      AcksAreFolded(c1, rest, m, p);
      if i :| 0 <= i < |rest| && rest[i].node == m && rest[i].lsn >= p {
        assert acks[i + 1] == rest[i];
      }
      if i :| 0 <= i < |acks| && acks[i].node == m && acks[i].lsn >= p {
        assert i > 0 ==> rest[i - 1] == acks[i];
      }
    }
  }

  /** A node's vote: asking again never changes it, and a granted vote binds it for the term. */
  lemma VoteBinds(n: Node, term: Term, candidate: NodeId, other: NodeId)
    ensures var (n', r) := VoteFor(n, term, candidate);
            && (r.granted <==>
                term >= n.c.term && (term > n.c.term || n.c.votedFor.None? || n.c.votedFor == Some(candidate)))
            && r.term == n'.c.term == Max(n.c.term, term)
            && (r.granted ==> VoteFor(n', term, candidate) == (n', r))
            && (r.granted && other != candidate ==> !VoteFor(n', term, other).1.granted)
  {
  }

  // ---- Standing for election ----

  /** A peer's answer to a vote request; no answer is no grant. */
  datatype Reply = Reply(from: NodeId, granted: bool)

  function Canvass(c: State, term: Term, replies: seq<Reply>): State
    decreases |replies|
  {
    if replies == [] then c
    else Canvass(if replies[0].granted then VoteGranted(c, replies[0].from, term) else c, term, replies[1..])
  }

  function Granters(replies: seq<Reply>): set<NodeId> {
    if replies == [] then {}
    else (if replies[0].granted then {replies[0].from} else {}) + Granters(replies[1..])
  }

  lemma {:induction false} LeaderStays(c: State, term: Term, replies: seq<Reply>)
    requires c.role.Leader?
    ensures Canvass(c, term, replies) == c
    decreases |replies|
  {
    if replies != [] {
      LeaderStays(c, term, replies[1..]);
    }
  }

  /** One more reply: the votes it adds, and leadership once they make a quorum. */
  lemma OneReply(c: State, reply: Reply, rest: set<NodeId>)
    requires c.role.Candidate? && |c.votes| < Quorum(c.members)
    ensures var c1 := if reply.granted then VoteGranted(c, reply.from, c.term) else c;
            && c1.members == c.members && c1.term == c.term
            && c1.votes + rest == c.votes + ((if reply.granted then {reply.from} else {}) + rest)
            && (if |c1.votes| >= Quorum(c.members) then c1.role.Leader? else c1.role.Candidate?)
  {
  }

  lemma {:induction false} CanvassCounts(c: State, replies: seq<Reply>)
    requires c.role.Candidate? && |c.votes| < Quorum(c.members)
    ensures Canvass(c, c.term, replies).role.Leader? <==> |c.votes + Granters(replies)| >= Quorum(c.members)
    decreases |replies|
  {
    hide VoteGranted;
    if replies == [] {
      assert c.votes + {} == c.votes;
    } else {
      var rest := replies[1..];
      var c1 := if replies[0].granted then VoteGranted(c, replies[0].from, c.term) else c;
      OneReply(c, replies[0], Granters(rest));
      if c1.role.Leader? {
        LeaderStays(c1, c.term, rest);
        SubsetSize(c1.votes, c1.votes + Granters(rest));
      } else {
        CanvassCounts(c1, rest);
      }
    }
  }

  /**
   * An election is won exactly when the candidate and the distinct peers that granted make a
   * quorum, in any order of replies.
   */
  lemma ElectionWonIff(c: State, replies: seq<Reply>)
    ensures var s := StartElection(c);
            Canvass(s, s.term, replies).role.Leader? <==> |{c.node} + Granters(replies)| >= Quorum(c.members)
  {
    var s := StartElection(c);
    if s.role.Leader? {
      LeaderStays(s, s.term, replies);
      SubsetSize(s.votes, s.votes + Granters(replies));
    } else {
      CanvassCounts(s, replies);
    }
  }
}
