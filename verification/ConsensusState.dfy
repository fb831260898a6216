/** The consensus state of one safekeeper, as it is updated in place. */
module ConsensusState {
  import opened Common
  import opened ConsensusSpec

  class Consensus {
    const node: NodeId
    const members: seq<NodeId>
    const quorum: nat
    var term: Term
    var role: Role
    var votedFor: Option<NodeId>
    var votes: set<NodeId>
    var flush: map<NodeId, Lsn>

    ghost predicate Valid() {
      quorum == Quorum(members)
    }

    ghost function Value(): State
      reads this
    {
      State(node, members, term, role, votedFor, votes, flush)
    }

    constructor (node: NodeId, members: seq<NodeId>)
      requires node in members
      ensures Valid() && Value() == Fresh(node, members)
    {
      this.node, this.members, quorum := node, members, |members| / 2 + 1;
      term, role, votedFor, votes := 0, Follower, None, {};
      flush := map m | m in members :: 0;
    }

    method Record(node: NodeId, lsn: Lsn)
      modifies this`flush
      ensures Value() == RecordFlush(old(Value()), node, lsn)
    {
      if node !in flush {
        flush := flush[node := 0];
      }
      if lsn > flush[node] {
        flush := flush[node := lsn];
      }
      assert flush == old(flush)[node := Max(FlushOf(old(Value()), node), lsn)];
    }

    /** Commit position: sort the members' flush positions, largest first, and take the quorum-th. */
    method Commit() returns (lsn: Lsn)
      requires Valid()
      ensures lsn == CommitLsn(Value())
    {
      hide SortDescending;
      var positions: seq<Lsn> := [];
      var i := |members|;
      while i > 0
        invariant 0 <= i <= |members| && positions == Positions(Value(), members[i..])
      {
        i := i - 1;
        assert members[i..][1..] == members[i + 1..];
        positions := [if members[i] in flush then flush[members[i]] else 0] + positions;
      }
      assert members[0..] == members;
      var sorted := SortDescending(positions);
      lsn := if quorum - 1 < |sorted| then sorted[quorum - 1] else 0;
    }

    method Observe(term: Term)
      modifies this
      ensures Value() == ObserveTerm(old(Value()), term)
    {
      if term > this.term {
        this.term := term;
        role := Follower;
        votedFor := None;
        votes := {};
      }
    }

    method StartElecting() returns (t: Term)
      requires Valid()
      modifies this
      ensures Value() == StartElection(old(Value())) && t == term
    {
      term := term + 1;
      role := Candidate;
      votedFor := Some(node);
      votes := {};
      votes := votes + {node};
      MaybeBecomeLeader();
      t := term;
    }

    method HandleVoteRequest(term: Term, candidate: NodeId) returns (granted: bool)
      modifies this
      ensures (Value(), granted) == VoteRequest(old(Value()), term, candidate)
    {
      Observe(term);
      if term == this.term && (votedFor.None? || votedFor == Some(candidate)) {
        votedFor := Some(candidate);
        granted := true;
      } else {
        granted := false;
      }
    }

    method HandleVoteGranted(from: NodeId, term: Term)
      requires Valid()
      modifies this
      ensures Value() == VoteGranted(old(Value()), from, term)
    {
      if term == this.term && role == Candidate {
        votes := votes + {from};
        MaybeBecomeLeader();
      }
    }

    method MaybeBecomeLeader()
      requires Valid()
      modifies this`role
      ensures Value() == MaybeLead(old(Value()))
    {
      if role == Candidate && |votes| >= quorum {
        role := Leader;
      }
    }
  }
}
