/**
 * Reads are determined by what was written: in every run of creates, branches, ingests,
 * freezes and collections, pages and sizes follow from the modifications alone.
 */
module WrittenHistory {
  import opened Common
  import opened Pages
  import opened Redo
  import opened RepositorySpec
  import opened TenantSpec
  import opened GcTransparency
  import opened CopyOnWrite
  import opened RelSizes

  // ---- One store ----

  /** Every version `mods` write, under its page and LSN. */
  function WrittenView(mods: seq<Modification>): Versions {
    if mods == [] then map[]
    else
      var m := mods[|mods| - 1];
      WrittenView(mods[..|mods| - 1])[m.Key() := m.version]
  }

  ghost predicate OnceOnly(mods: seq<Modification>) {
    forall i, j :: 0 <= i < j < |mods| ==> mods[i].Key() != mods[j].Key()
  }

  lemma {:induction false} WrittenKeys(mods: seq<Modification>, k: VersionKey)
    ensures k in WrittenView(mods) <==> exists i :: 0 <= i < |mods| && mods[i].Key() == k
  {
    if mods != [] {
      var last := |mods| - 1;
      WrittenKeys(mods[..last], k);
      if i :| 0 <= i < |mods| && mods[i].Key() == k {
        assert i < last ==> mods[..last][i].Key() == k;
      }
    }
  }

  lemma WrittenSnoc(mods: seq<Modification>, m: Modification)
    ensures WrittenView(mods + [m]) == WrittenView(mods)[m.Key() := m.version]
  {
    assert (mods + [m])[..|mods|] == mods;
  }

  /** A store that holds what was written still does after writing more, each version once. */
  lemma {:induction false} IngestWrites(r: Repo, done: seq<Modification>, mods: seq<Modification>)
    requires WrittenOnce(r) && View(r) == WrittenView(done) && OnceOnly(done + mods)
    ensures WrittenOnce(Ingest(r, mods)) && View(Ingest(r, mods)) == WrittenView(done + mods)
    decreases |mods|
  {
    hide View, WrittenOnce, IngestOne, WrittenView;
    if mods == [] {
      assert done + mods == done;
    } else {
      var m, more := mods[0], done + [mods[0]];
      FreshKey(done, mods);
      IngestOneView(r, m);
      WrittenSnoc(done, m);
      assert more + mods[1..] == done + mods;
      IngestWrites(IngestOne(r, m), more, mods[1..]);
    }
  }

  lemma FreshKey(done: seq<Modification>, mods: seq<Modification>)
    requires OnceOnly(done + mods) && mods != []
    ensures mods[0].Key() !in WrittenView(done)
  {
    WrittenKeys(done, mods[0].Key());
    var all := done + mods;
    forall i | 0 <= i < |done| ensures done[i].Key() != mods[0].Key() {
      assert all[i] == done[i] && all[|done|] == mods[0];
    }
  }

  lemma OncePrefix(a: seq<Modification>, b: seq<Modification>)
    requires OnceOnly(a + b)
    ensures OnceOnly(a) && FreshWrites(b, WrittenView(a))
  {
    var all := a + b;
    forall i, j | 0 <= i < j < |a| ensures a[i].Key() != a[j].Key() { assert all[i] == a[i] && all[j] == a[j]; }
    forall i, j | 0 <= i < j < |b| ensures b[i].Key() != b[j].Key() {
      assert all[|a| + i] == b[i] && all[|a| + j] == b[j];
    }
    forall j | 0 <= j < |b| ensures b[j].Key() !in WrittenView(a) {
      WrittenKeys(a, b[j].Key());
      forall i | 0 <= i < |a| ensures a[i].Key() != b[j].Key() {
        assert all[i] == a[i] && all[|a| + j] == b[j];
      }
    }
  }

  // ---- What a run has written to each timeline ----

  type WriteLog = map<TimelineId, seq<Modification>>

  function Logged(w: WriteLog, op: Op): WriteLog {
    match op
    case Create(id) => if id in w then w else w[id := []]
    case Branch(id, parent, _) => if id in w || parent !in w then w else w[id := []]
    case IngestMods(id, mods) => if id in w then w[id := w[id] + mods] else w
    case FreezeMemtable(_) => w
    case CollectGarbage(_) => w
  }

  function Written(ops: seq<Op>): WriteLog {
    if ops == [] then map[] else Logged(Written(ops[..|ops| - 1]), ops[|ops| - 1])
  }

  /** Sizes are tracked from exactly the modifications written, whatever else happens. */
  ghost predicate SizesFollow(t: Tenant, w: WriteLog) {
    t.timelines.Keys == w.Keys && forall id :: id in w ==> t.timelines[id].repo.relSizes == TrackAll(w[id])
  }

  lemma StepSizes(t: Tenant, w: WriteLog, op: Op)
    requires SizesFollow(t, w)
    ensures SizesFollow(Step(t, op), Logged(w, op))
  {
    hide TrackAll, Ingest, Horizon, Compact;
    NoSizes();
    match op
    case Create(_) =>
    case Branch(_, _, _) =>
    case IngestMods(id, mods) =>
      if id in w {
        IngestTracks(t.timelines[id].repo, w[id], mods);
      }
    case FreezeMemtable(_) =>
    case CollectGarbage(h) =>
      forall id | id in w ensures Step(t, op).timelines[id].repo.relSizes == t.timelines[id].repo.relSizes {
        CompactKeepsSizes(t.timelines[id].repo, Horizon(t.timelines, id, h));
      }
  }

  lemma CompactKeepsSizes(r: Repo, horizon: Lsn)
    ensures Compact(r, horizon).relSizes == r.relSizes
  {
  }

  lemma NoSizes()
    ensures TrackAll([]) == map[]
  {
  }

  lemma {:induction false} RunSizes(freezeThreshold: nat, ops: seq<Op>)
    ensures SizesFollow(Run(freezeThreshold, ops), Written(ops))
  {
    if ops != [] {
      RunSizes(freezeThreshold, ops[..|ops| - 1]);
      StepSizes(Run(freezeThreshold, ops[..|ops| - 1]), Written(ops[..|ops| - 1]), ops[|ops| - 1]);
    }
  }

  /** In every run with in-order writes, a relation is as long as the highest block visible from the timeline. */
  lemma RunSizeIsVisible(freezeThreshold: nat, ops: seq<Op>, id: TimelineId, rel: RelTag, lsn: Lsn)
    requires id in Written(ops) && forall i :: i in Written(ops) ==> InOrder(Written(ops)[i])
    ensures var ts := Run(freezeThreshold, ops).timelines;
            && Rooted(ts) && ts.Keys == Written(ops).Keys
            && GetRelSize(ts, id, rel, lsn) == HighBlock(Visible(ts, Written(ops), id, lsn), rel)
  {
    RunRooted(freezeThreshold, ops);
    RunSizes(freezeThreshold, ops);
    var ts, w := Run(freezeThreshold, ops).timelines, Written(ops);
    hide Run, Written, Rooted;
    forall i | i in ts ensures Exact(ts[i].repo.relSizes, w[i]) { TrackAllExact(w[i]); }
    SizeIsFlattened(ts, w, id, rel, lsn);
  }

  // ---- Pages ----

  ghost predicate AllOnce(w: WriteLog) {
    forall id :: id in w ==> OnceOnly(w[id])
  }

  ghost predicate StoreFollows(r: Repo, mods: seq<Modification>) {
    WrittenOnce(r) && View(r) == WrittenView(mods)
  }

  /** Each store holds exactly what was written to it. */
  ghost predicate ViewsFollow(t: Tenant, w: WriteLog) {
    t.timelines.Keys == w.Keys && forall id :: id in w ==> StoreFollows(t.timelines[id].repo, w[id])
  }

  lemma EmptyFollows(freezeThreshold: nat)
    ensures StoreFollows(EmptyRepo(freezeThreshold), [])
  {
    assert View(EmptyRepo(freezeThreshold)) == map[] == WrittenView([]);
  }

  lemma IngestFollows(r: Repo, done: seq<Modification>, mods: seq<Modification>)
    requires StoreFollows(r, done) && OnceOnly(done + mods)
    ensures StoreFollows(Ingest(r, mods), done + mods)
  {
    IngestWrites(r, done, mods);
  }

  lemma FreezeFollows(r: Repo, mods: seq<Modification>)
    requires StoreFollows(r, mods)
    ensures StoreFollows(Freeze(r), mods)
  {
    FreezeKeepsView(r);
  }

  lemma StepViews(t: Tenant, w: WriteLog, op: Op)
    requires ViewsFollow(t, w) && !op.CollectGarbage? && AllOnce(Logged(w, op))
    ensures ViewsFollow(Step(t, op), Logged(w, op))
  {
    hide StoreFollows, Ingest, Freeze, EmptyRepo, OnceOnly;
    EmptyFollows(t.freezeThreshold);
    if op.IngestMods? && op.id in w {
      assert Logged(w, op)[op.id] == w[op.id] + op.mods;
      IngestFollows(t.timelines[op.id].repo, w[op.id], op.mods);
    } else if op.FreezeMemtable? && op.id in w {
      FreezeFollows(t.timelines[op.id].repo, w[op.id]);
    }
  }

  lemma OnceBefore(w: WriteLog, op: Op)
    requires AllOnce(Logged(w, op))
    ensures AllOnce(w)
  {
    forall id | id in w ensures OnceOnly(w[id]) {
      if op.IngestMods? && op.id == id {
        assert Logged(w, op)[id] == w[id] + op.mods;
        OncePrefix(w[id], op.mods);
      } else {
        assert Logged(w, op)[id] == w[id];
      }
    }
  }

  ghost predicate NoGc(ops: seq<Op>) {
    forall i :: 0 <= i < |ops| ==> !ops[i].CollectGarbage?
  }

  lemma {:induction false} RunViews(freezeThreshold: nat, ops: seq<Op>)
    requires NoGc(ops) && AllOnce(Written(ops))
    ensures ViewsFollow(Run(freezeThreshold, ops), Written(ops))
  {
    hide View, WrittenOnce, WrittenView, Step, AllOnce, Logged;
    if ops != [] {
      var before, last := ops[..|ops| - 1], ops[|ops| - 1];
      OnceBefore(Written(before), last);
      RunViews(freezeThreshold, before);
      StepViews(Run(freezeThreshold, before), Written(before), last);
    }
  }

  lemma {:induction false} WithoutGcWrites(ops: seq<Op>)
    ensures NoGc(WithoutGc(ops)) && Written(WithoutGc(ops)) == Written(ops)
  {
    if ops != [] {
      var before, last := ops[..|ops| - 1], ops[|ops| - 1];
      WithoutGcWrites(before);
      if last.CollectGarbage? {
        assert WithoutGc(ops) == WithoutGc(before);
      } else {
        assert WithoutGc(ops)[..|WithoutGc(ops)| - 1] == WithoutGc(before);
      }
    }
  }

  /** No branch point lies below what its parent has already collected. */
  ghost predicate BranchesKept(freezeThreshold: nat, ops: seq<Op>) {
    ops == [] ||
    (var before, last := ops[..|ops| - 1], ops[|ops| - 1];
     && BranchesKept(freezeThreshold, before)
     && (last.Branch? ==> HorizonOf(Collected(freezeThreshold, before), last.parent) <= last.lsn))
  }

  lemma {:induction false} OnceIsLegal(freezeThreshold: nat, ops: seq<Op>)
    requires AllOnce(Written(ops)) && BranchesKept(freezeThreshold, ops)
    ensures Legal(freezeThreshold, ops)
  {
    hide View, WrittenOnce, WrittenView, Run, Collected, OnceOnly, FreshWrites;
    if ops != [] {
      var before, last := ops[..|ops| - 1], ops[|ops| - 1];
      var w := Written(before);
      OnceBefore(w, last);
      OnceIsLegal(freezeThreshold, before);
      WithoutGcWrites(before);
      RunViews(freezeThreshold, WithoutGc(before));
      if last.IngestMods? && last.id in w {
        assert Logged(w, last)[last.id] == w[last.id] + last.mods;
        OncePrefix(w[last.id], last.mods);
      }
    }
  }

  /** The written versions of `page` visible from `id`: the ancestors' up to each branch point, then its own. */
  function PageHistory(ts: Timelines, w: WriteLog, id: TimelineId, page: PageKey, lsn: Lsn): seq<Versioned>
    requires Rooted(ts) && id in ts && ts.Keys == w.Keys
    decreases ts[id].depth
  {
    var a := ts[id].ancestor;
    (if a.None? then [] else PageHistory(ts, w, a.value.parent, page, a.value.lsn)) +
      Range(WrittenView(w[id]), page, lsn)
  }

  lemma {:induction false} FlattenedIsWritten(g: Timelines, n: Tenant, w: WriteLog, id: TimelineId, page: PageKey,
      lsn: Lsn)
    requires ViewsFollow(n, w) && Rooted(g) && Rooted(n.timelines) && g.Keys == n.timelines.Keys && id in g
    requires forall i :: i in g ==> g[i].ancestor == n.timelines[i].ancestor && g[i].depth == n.timelines[i].depth
    ensures Flattened(n.timelines, id, page, lsn) == PageHistory(g, w, id, page, lsn)
    decreases g[id].depth
  {
    hide View, WrittenOnce, WrittenView, Range;
    if g[id].ancestor.Some? {
      FlattenedIsWritten(g, n, w, g[id].ancestor.value.parent, page, g[id].ancestor.value.lsn);
    }
  }

  /** Branches are written at or after their branch points. */
  ghost predicate AboveBranchPoints(ts: Timelines, w: WriteLog) {
    forall id, i :: id in ts && id in w && ts[id].ancestor.Some? && 0 <= i < |w[id]| ==>
      ts[id].ancestor.value.lsn <= w[id][i].lsn
  }

  lemma RunWellWritten(n: Tenant, w: WriteLog)
    requires ViewsFollow(n, w) && AboveBranchPoints(n.timelines, w)
    ensures WellWritten(n.timelines)
  {
    hide View, WrittenOnce, WrittenView;
    forall id, k | id in n.timelines && n.timelines[id].ancestor.Some? && k in View(n.timelines[id].repo)
      ensures n.timelines[id].ancestor.value.lsn <= k.lsn
    {
      WrittenKeys(w[id], k);
    }
  }

  /**
   * In every run where each page and LSN is written once per timeline, branches are written
   * at or after their branch points and no branch point is already collected, a page read at
   * or above the collected horizon is reconstruction from the visible writes: whatever was
   * frozen, compacted or collected, at any branch depth, for any redo backend.
   */
  lemma PageIsWritten(redo: RecordRedo, freezeThreshold: nat, ops: seq<Op>, id: TimelineId, page: PageKey, lsn: Lsn)
    requires AllOnce(Written(ops)) && BranchesKept(freezeThreshold, ops) && id in Written(ops)
    requires AboveBranchPoints(Run(freezeThreshold, ops).timelines, Written(ops))
    requires HorizonOf(Collected(freezeThreshold, ops), id) <= lsn
    ensures var ts := Run(freezeThreshold, ops).timelines;
            && Rooted(ts) && ts.Keys == Written(ops).Keys
            && GetPage(redo, ts, id, page, lsn) ==
              ToLookup(Reconstruct(redo, page, PageHistory(ts, Written(ops), id, page, lsn)))
  {
    OnceIsLegal(freezeThreshold, ops);
    RunSizes(freezeThreshold, ops);
    WithoutGcWrites(ops);
    RunViews(freezeThreshold, WithoutGc(ops));
    RunSim(freezeThreshold, ops);
    var g, n, w := Run(freezeThreshold, ops), Run(freezeThreshold, WithoutGc(ops)), Written(ops);
    SimTopology(g, n, Collected(freezeThreshold, ops));
    hide Run, WithoutGc, Written, Collected, Legal, AllOnce, BranchesKept, View, Rooted, GetPage, Reconstruct, Range;
    GcInvisible(redo, freezeThreshold, ops, id, page, lsn);
    assert AboveBranchPoints(n.timelines, w);
    RunWellWritten(n, w);
    ReadIsFlattened(redo, n.timelines, id, page, lsn);
    FlattenedIsWritten(g.timelines, n, w, id, page, lsn);
  }

  lemma SimTopology(g: Tenant, n: Tenant, hs: map<TimelineId, Lsn>)
    requires Sim(g, n, hs)
    ensures Rooted(g.timelines) && Rooted(n.timelines) && g.timelines.Keys == n.timelines.Keys
    ensures forall i :: i in g.timelines ==>
              g.timelines[i].ancestor == n.timelines[i].ancestor && g.timelines[i].depth == n.timelines[i].depth
  {
    hide RepoSim;
    forall i | i in g.timelines ensures TimelineSim(g.timelines[i], n.timelines[i], HorizonOf(hs, i)) {}
  }
}
