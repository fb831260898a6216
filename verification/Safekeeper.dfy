/** A safekeeper's request handlers over its WAL store and consensus state. */
module Safekeeper {
  import opened Common
  import opened FlatLog
  import opened ConsensusSpec
  import opened SafekeeperSpec
  import opened WalStoreSpec
  import opened WalDisk
  import opened WalRecovery
  import WalStorage
  import ConsensusState

  /** Between requests nothing is recycled and only an empty store has never been flushed. */
  ghost predicate Settled(pr: Promise) {
    Unrecycled(pr) && (pr.saved == EMPTY ==> pr.log == EMPTY)
  }

  class Server {
    const storage: WalStorage.Storage
    const consensus: ConsensusState.Consensus
    /** The log the store promises, now and as of its last flush. */
    ghost var promise: Promise

    ghost predicate Valid()
      reads this, storage, consensus
    {
      Keeps(storage.Value(), promise) && Settled(promise) && consensus.Valid()
    }

    ghost function State(): Node
      reads this, storage, consensus
    {
      Node(promise.log, consensus.Value())
    }

    constructor (storage: WalStorage.Storage, consensus: ConsensusState.Consensus, ghost promise: Promise)
      requires Keeps(storage.Value(), promise) && Settled(promise) && consensus.Valid()
      ensures Valid() && State() == Node(promise.log, consensus.Value())
      ensures this.storage == storage && this.consensus == consensus && this.promise == promise
    {
      this.storage, this.consensus, this.promise := storage, consensus, promise;
    }

    /** Append and flush; the storage lock is held throughout. */
    method StoreLocked(start: Lsn, payload: seq<byte>) returns (r: Result<Lsn, StorageError>)
      requires Valid() && start + |payload| < 0x1_0000_0000_0000_0000
      modifies this`promise, storage
      ensures Valid()
      ensures var spec := StoreWal(old(promise.log), AppendRequest(0, start, payload));
              if spec.Ok? then r == Ok(promise.log.flushed) && promise == Promise(spec.value, spec.value)
              else r == Err(spec.error) && promise == old(promise)
    {
      hide Keeps, Append, AppendStore, FlushStore, Settled;
      Frontier(storage.Value(), promise);
      AppendAgrees(storage.Value(), promise, start, payload);
      AppendKeeps(storage.Value(), promise, start, payload);
      var appended := storage.Append(start, payload);
      if appended.Err? {
        return Err(appended.error);
      }
      promise := promise.(log := Append(promise.log, start, payload).value);
      FlushAgrees(storage.Value(), promise);
      FlushKeeps(storage.Value(), promise);
      r := storage.Flush();
      promise := Promise(Flush(promise.log), Flush(promise.log));
      Frontier(storage.Value(), promise);
      FlushedSettled(promise);
    }

    method HandleReplicate(req: AppendRequest) returns (r: Result<AppendResponse, StorageError>)
      requires Valid() && req.start + |req.payload| < 0x1_0000_0000_0000_0000
      modifies this`promise, storage, consensus
      ensures Valid() && (State(), r) == Replicate(old(State()), req)
    {
      hide Keeps, CommitLsn;
      Frontier(storage.Value(), promise);
      if req.term < consensus.term {
        var commit := consensus.Commit();
        return Ok(AppendResponse(StaleTerm, consensus.term, storage.flushLsn, commit));
      }
      var term := consensus.term;
      var stored := StoreLocked(req.start, req.payload);
      if stored.Err? {
        return Err(stored.error);
      }
      consensus.Record(consensus.node, stored.value);
      var commit := consensus.Commit();
      return Ok(AppendResponse(Accepted, term, stored.value, commit));
    }

    /** The first half of an append: everything before waiting for the peers. */
    method BeginAppend(req: AppendRequest) returns (refused: Option<AppendResponse>, r: Result<Lsn, StorageError>)
      requires Valid() && req.start + |req.payload| < 0x1_0000_0000_0000_0000
      modifies this`promise, storage, consensus
      ensures Valid()
      ensures refused == if Stale(old(State()), req) then Some(Refusal(old(State()))) else None
      ensures refused.Some? ==> State() == old(State())
      ensures refused.None? ==>
                var (n', resp) := Replicate(old(State()), req);
                State() == n' && (if resp.Ok? then r == Ok(resp.value.flush) else r == Err(resp.error))
    {
      hide Keeps, CommitLsn;
      Frontier(storage.Value(), promise);
      if req.term < consensus.term {
        var commit := consensus.Commit();
        return Some(AppendResponse(StaleTerm, consensus.term, storage.flushLsn, commit)), Ok(storage.flushLsn);
      }
      refused := None;
      r := StoreLocked(req.start, req.payload);
      if r.Ok? {
        consensus.Record(consensus.node, r.value);
      }
    }

    /** The second half of an append: fold the peers' acknowledgements in and answer. */
    method FinishAppend(flush: Lsn, acks: seq<PeerAck>) returns (r: AppendResponse)
      requires Valid()
      modifies consensus
      ensures Valid() && State() == old(State()).(c := RecordAcks(old(consensus.Value()), acks))
      ensures r == AppendResponse(Accepted, consensus.term, flush, CommitLsn(consensus.Value()))
    {
      hide Keeps, CommitLsn;
      for i := 0 to |acks|
        invariant Valid() && RecordAcks(consensus.Value(), acks[i..]) == RecordAcks(old(consensus.Value()), acks)
      {
        consensus.Record(acks[i].node, acks[i].lsn);
        assert acks[i..][1..] == acks[i + 1..];
      }
      var commit := consensus.Commit();
      r := AppendResponse(Accepted, consensus.term, flush, commit);
    }

    /** Serve committed bytes from `start`, raised to the retained floor, at most `max` of them. */
    method HandleRead(start: Lsn, max: nat) returns (r: Result<ReadResponse, StorageError>)
      requires Valid()
      ensures promise.log.Valid() && r == Serve(State(), start, max)
    {
      hide Keeps, CommitLsn, ReadAt, Read;
      Frontier(storage.Value(), promise);
      var commit := consensus.Commit();
      var from := if start >= storage.startLsn then start else storage.startLsn;
      var available := if commit < from then 0 else if commit - from < max then commit - from else max;
      if available == 0 {
        return Ok(ReadResponse(commit, from, []));
      }
      var payload := new byte[available];
      ReadAgrees(storage.Value(), promise, from, available);
      var read := storage.ReadInto(from, payload);
      if read.Err? {
        return Err(read.error);
      }
      r := Ok(ReadResponse(commit, from, payload[..]));
    }

    method HandleVote(term: Term, candidate: NodeId) returns (r: VoteResponse)
      requires Valid()
      modifies consensus
      ensures Valid() && (State(), r) == VoteFor(old(State()), term, candidate)
    {
      hide Keeps, CommitLsn;
      Frontier(storage.Value(), promise);
      var granted := consensus.HandleVoteRequest(term, candidate);
      r := VoteResponse(granted, consensus.term, storage.flushLsn);
    }

    /** Stand for election, given each peer's reply in turn. */
    method RunElection(replies: seq<Reply>) returns (won: bool)
      requires Valid()
      modifies consensus
      ensures Valid() && won == consensus.role.Leader?
      ensures var s := StartElection(old(consensus.Value())); State() == old(State()).(c := Canvass(s, s.term, replies))
    {
      hide Keeps, StartElection, VoteGranted;
      var term := consensus.StartElecting();
      ghost var whole := Canvass(consensus.Value(), term, replies);
      assert replies[0..] == replies;
      for i := 0 to |replies|
        invariant Valid() && promise == old(promise) && Canvass(consensus.Value(), term, replies[i..]) == whole
      {
        assert replies[i..][1..] == replies[i + 1..];
        if replies[i].granted {
          consensus.HandleVoteGranted(replies[i].from, term);
        }
      }
      won := consensus.role == Leader;
    }
  }

  /**
   * Restart a safekeeper on whatever disk a crash during any operation left: its log cut at
   * the durable frontier, and a consensus state that remembers nothing.
   */
  method Reopen(crashed: Server, ghost point: Point, after: Disk) returns (s: Server)
    requires crashed.Valid() && crashed.consensus.node in crashed.consensus.members
    requires Legal(crashed.storage.Value(), crashed.promise, CrashOp(point, after))
    ensures fresh(s) && fresh(s.storage) && fresh(s.consensus) && s.Valid()
    ensures s.State() == Node(FlatLog.Crash(crashed.promise.log),
            Fresh(crashed.consensus.node, crashed.consensus.members))
  {
    hide Keeps, Legal, Open;
    ghost var pr := crashed.promise;
    Frontier(crashed.storage.Value(), pr);
    CrashKeeps(crashed.storage.Value(), pr, point, after);
    if pr.saved != EMPTY {
      SavedIsCrashed(crashed.storage.Value(), pr, []);
    }
    var storage := WalStorage.OpenStorage(crashed.storage.segSize, crashed.storage.ringCapacity, after);
    var consensus := new ConsensusState.Consensus(crashed.consensus.node, crashed.consensus.members);
    s := new Server(storage.value, consensus, Promise(pr.saved, pr.saved));
  }

  lemma Frontier(st: Store, pr: Promise)
    requires Keeps(st, pr)
    ensures st.segSize > 0 && pr.log.Valid() && st.start == pr.log.start && st.flush == pr.log.flushed
    ensures st.ringStart + |st.ring| == st.write
  {
  }

  lemma AppendAgrees(st: Store, pr: Promise, lsn: u64, data: seq<byte>)
    requires Keeps(st, pr) && lsn + |data| < 0x1_0000_0000_0000_0000
    ensures st.segSize > 0
    ensures AppendStore(st, lsn, data).Ok? <==> Append(pr.log, lsn, data).Ok?
    ensures AppendStore(st, lsn, data).Err? ==> Append(pr.log, lsn, data) == Err(AppendStore(st, lsn, data).error)
  {
    hide Refines, AppendStore, Append;
    Frontier(st, pr);
    AppendRefines(st, pr.log, lsn, data);
  }

  lemma FlushAgrees(st: Store, pr: Promise)
    requires Keeps(st, pr)
    ensures FlushStore(st).Ok?
  {
    FlushRefines(st, pr.log);
  }

  lemma ReadAgrees(st: Store, pr: Promise, lsn: Lsn, n: nat)
    requires Keeps(st, pr)
    ensures st.segSize > 0 && pr.log.Valid() && st.ringStart + |st.ring| == st.write
            && ReadAt(st, lsn, n) == Read(pr.log, lsn, n)
  {
    ReadRefines(st, pr.log, lsn, n);
  }

  lemma FlushedSettled(pr: Promise)
    requires pr.saved == pr.log
    ensures Settled(pr)
  {
  }
}
