/**
 * Garbage collection is invisible. For every run of create, branch, ingest, freeze and
 * collect, every read at or above the collected horizon of its timeline gives exactly the
 * result (page, absence or error) of the same run with the collections left out.
 */
module GcTransparency {
  import opened Common
  import opened Pages
  import opened Redo
  import opened RepositorySpec
  import opened TenantSpec

  function WithoutGc(ops: seq<Op>): seq<Op> {
    if ops == [] then []
    else
      var last := ops[|ops| - 1];
      WithoutGc(ops[..|ops| - 1]) + (if last.CollectGarbage? then [] else [last])
  }

  function HorizonOf(hs: map<TimelineId, Lsn>, id: TimelineId): Lsn {
    if id in hs then hs[id] else 0
  }

  /** The highest effective horizon each timeline has been collected at during a run. */
  function Collected(freezeThreshold: nat, ops: seq<Op>): map<TimelineId, Lsn> {
    if ops == [] then map[]
    else
      var before, last := ops[..|ops| - 1], ops[|ops| - 1];
      var hs := Collected(freezeThreshold, before);
      if last.CollectGarbage? then RaiseHorizons(Run(freezeThreshold, before), hs, last.horizon) else hs
  }

  function RaiseHorizons(t: Tenant, hs: map<TimelineId, Lsn>, requested: Lsn): map<TimelineId, Lsn> {
    map id | id in t.timelines :: Max(HorizonOf(hs, id), Horizon(t.timelines, id, requested)) as Lsn
  }

  /** The modifications address pairwise different `(page, LSN)` pairs not in `written`. */
  ghost predicate FreshWrites(mods: seq<Modification>, written: Versions) {
    && (forall i :: 0 <= i < |mods| ==> mods[i].Key() !in written)
    && (forall i, j :: 0 <= i < j < |mods| ==> mods[i].Key() != mods[j].Key())
  }

  /** `op` respects the premises in a state whose full history is `full`. */
  ghost predicate Allowed(full: Tenant, hs: map<TimelineId, Lsn>, op: Op) {
    match op
    case IngestMods(id, mods) => id in full.timelines ==> FreshWrites(mods, View(full.timelines[id].repo))
    case Branch(_, parent, lsn) => HorizonOf(hs, parent) <= lsn
    case _ => true
  }

  /** Each `(page, LSN)` is written once per timeline and no branch point is already collected. */
  ghost predicate Legal(freezeThreshold: nat, ops: seq<Op>) {
    ops == [] ||
    (var before := ops[..|ops| - 1];
     && Legal(freezeThreshold, before)
     && Allowed(Run(freezeThreshold, WithoutGc(before)), Collected(freezeThreshold, before), ops[|ops| - 1]))
  }

  // ---- The simulation between the collected and the uncollected store ----

  /** `g` is `n` minus versions strictly below some base that `g` keeps at or before `h`. */
  ghost predicate RepoSim(g: Repo, n: Repo, h: Lsn) {
    && g.memtable == n.memtable && g.relSizes == n.relSizes && g.freezeThreshold == n.freezeThreshold
    && WrittenOnce(g) && WrittenOnce(n)
    && (forall k :: k in View(g) ==> k in View(n) && View(g)[k] == View(n)[k])
    && (forall k :: k in View(n) && k !in View(g) ==> CoveredByBase(View(g), k, h))
  }

  ghost predicate TimelineSim(g: Timeline, n: Timeline, h: Lsn) {
    g.ancestor == n.ancestor && g.depth == n.depth && RepoSim(g.repo, n.repo, h)
  }

  /** No branch point lies below what its parent has collected. */
  ghost predicate Anchored(ts: Timelines, hs: map<TimelineId, Lsn>) {
    forall c :: c in ts && ts[c].ancestor.Some? ==>
      HorizonOf(hs, ts[c].ancestor.value.parent) <= ts[c].ancestor.value.lsn
  }

  ghost predicate Sim(g: Tenant, n: Tenant, hs: map<TimelineId, Lsn>) {
    && g.freezeThreshold == n.freezeThreshold && g.timelines.Keys == n.timelines.Keys
    && Rooted(g.timelines) && Rooted(n.timelines)
    && hs.Keys <= g.timelines.Keys
    && Anchored(g.timelines, hs)
    && (forall id :: id in g.timelines ==> TimelineSim(g.timelines[id], n.timelines[id], HorizonOf(hs, id)))
  }

  lemma SimFreeze(g: Repo, n: Repo, h: Lsn)
    requires RepoSim(g, n, h)
    ensures RepoSim(Freeze(g), Freeze(n), h)
  {
    FreezeKeepsView(g);
    FreezeKeepsView(n);
  }

  lemma SimPut(g: Repo, n: Repo, h: Lsn, m: Modification)
    requires RepoSim(g, n, h) && m.Key() !in View(n)
    ensures RepoSim(Put(g, m), Put(n, m), h)
  {
    PutView(g, m);
    PutView(n, m);
    forall k | k in View(Put(n, m)) && k !in View(Put(g, m))
      ensures CoveredByBase(View(Put(g, m)), k, h)
    {
      assert CoveredByBase(View(g), k, h);
      var b: Lsn :| k.lsn < b <= h && VersionKey(k.page, b) in View(g) && View(g)[VersionKey(k.page, b)].IsBase();
      assert VersionKey(k.page, b) in View(Put(g, m)) && View(Put(g, m))[VersionKey(k.page, b)].IsBase();
    }
  }

  lemma FreshTail(r: Repo, mods: seq<Modification>)
    requires mods != [] && WrittenOnce(r) && FreshWrites(mods, View(r))
    ensures FreshWrites(mods[1..], View(IngestOne(r, mods[0])))
  {
    IngestOneView(r, mods[0]);
    hide IngestOne, View;
    forall i | 0 <= i < |mods[1..]| ensures mods[1..][i].Key() !in View(IngestOne(r, mods[0])) {
      assert mods[i + 1].Key() != mods[0].Key();
    }
  }

  lemma {:induction false} SimIngest(g: Repo, n: Repo, h: Lsn, mods: seq<Modification>)
    requires RepoSim(g, n, h) && FreshWrites(mods, View(n))
    ensures RepoSim(Ingest(g, mods), Ingest(n, mods), h)
    decreases |mods|
  {
    if mods != [] {
      var m := mods[0];
      SimPut(g, n, h, m);
      SimFreeze(Put(g, m), Put(n, m), h);
      FreshTail(n, mods);
      SimIngest(IngestOne(g, m), IngestOne(n, m), h, mods[1..]);
    }
  }

  lemma SimCompact(g: Repo, n: Repo, h: Lsn, horizon: Lsn, h': Lsn)
    requires RepoSim(g, n, h) && h <= h' && horizon <= h'
    ensures RepoSim(Compact(g, horizon), n, h')
  {
    CompactView(g, horizon);
    var c := View(Compact(g, horizon));
    forall k | k in View(n) && k !in c ensures CoveredByBase(c, k, h') {
      if k in View(g) {
        assert CoveredByBase(c, k, horizon);
      } else {
        assert CoveredByBase(View(g), k, h);
        var b: Lsn :| k.lsn < b <= h && VersionKey(k.page, b) in View(g) && View(g)[VersionKey(k.page, b)].IsBase();
        if VersionKey(k.page, b) !in c {
          assert CoveredByBase(c, VersionKey(k.page, b), horizon);
        }
      }
    }
  }

  // ---- Reads of similar stores agree at or above the horizon ----

  lemma {:induction false} RangeAgree(a: Versions, b: Versions, page: PageKey, lo: Lsn,
                                      lsn: Lsn) returns (pa: seq<Versioned>, pb: seq<Versioned>, tail: seq<Versioned>)
    requires lo <= lsn
    requires forall l :: lo <= l <= lsn ==> (VersionKey(page, l) in a <==> VersionKey(page, l) in b)
    requires forall l :: lo <= l <= lsn && VersionKey(page, l) in a ==> a[VersionKey(page, l)] == b[VersionKey(page, l)]
    ensures Range(a, page, lsn) == pa + tail && Range(b, page, lsn) == pb + tail
    ensures VersionKey(page, lo) in a ==> tail != [] && tail[0] == (lo, a[VersionKey(page, lo)])
    ensures lo == 0 ==> pa == pb == []
    decreases lsn
  {
    var top: seq<Versioned> := if VersionKey(page, lsn) in a then [(lsn, a[VersionKey(page, lsn)])] else [];
    if lsn == lo {
      pa := if lsn == 0 then [] else Range(a, page, lsn - 1);
      pb := if lsn == 0 then [] else Range(b, page, lsn - 1);
      tail := top;
    } else {
      pa, pb, tail := RangeAgree(a, b, page, lo, lsn - 1);
      tail := tail + top;
    }
  }

  /** Either nothing of `page` below `lsn` is missing, or both histories share a base and all after it. */
  lemma SimRange(g: Repo, n: Repo, h: Lsn, page: PageKey, lsn: Lsn)
    requires RepoSim(g, n, h) && h <= lsn
    ensures var rg, rn := Range(View(g), page, lsn), Range(View(n), page, lsn);
            rg == rn || exists pg, pn, tail :: rg == pg + tail && rn == pn + tail && LastBase(tail).Some?
  {
    var a, b := View(g), View(n);
    var base := LatestBase(a, page, lsn);
    forall l: Lsn | l <= lsn && VersionKey(page, l) in b && VersionKey(page, l) !in a
      ensures base.Some? && l < base.value
    {
      assert CoveredByBase(a, VersionKey(page, l), h);
    }
    var lo := if base.Some? then base.value else 0;
    var pa, pb, tail := RangeAgree(a, b, page, lo, lsn);
    if base.Some? {
      assert tail[0].1.IsBase();
      assert LastBase(tail).Some?;
    }
  }

  lemma SimRead(redo: RecordRedo, g: Repo, n: Repo, h: Lsn, page: PageKey, lsn: Lsn)
    requires RepoSim(g, n, h) && h <= lsn
    ensures GetPageWithBase(redo, g, page, lsn, None) == GetPageWithBase(redo, n, page, lsn, None)
    ensures GetPageWithBase(redo, g, page, lsn, None) == Ok(NotFound) ==>
              forall base :: GetPageWithBase(redo, g, page, lsn, Some(base)) ==
                GetPageWithBase(redo, n, page, lsn, Some(base))
  {
    ReadIsScan(redo, g, page, lsn);
    ReadIsScan(redo, n, page, lsn);
    SimRange(g, n, h, page, lsn);
    var rg, rn := Range(View(g), page, lsn), Range(View(n), page, lsn);
    if rg == rn {
      forall base
        ensures GetPageWithBase(redo, g, page, lsn, Some(base)) == GetPageWithBase(redo, n, page, lsn, Some(base))
      {
        ReadOverBaseIsScan(redo, g, page, lsn, base);
        ReadOverBaseIsScan(redo, n, page, lsn, base);
      }
    } else {
      var pg, pn, tail :| rg == pg + tail && rn == pn + tail && LastBase(tail).Some?;
      OnlyFromBase(redo, page, pg, tail);
      OnlyFromBase(redo, page, pn, tail);
      ReplaySome(redo, page, None, tail[LastBase(tail).value..]);
    }
  }

  lemma BranchPointCovered(ts: Timelines, hs: map<TimelineId, Lsn>, id: TimelineId)
    requires Anchored(ts, hs) && id in ts && ts[id].ancestor.Some?
    ensures HorizonOf(hs, ts[id].ancestor.value.parent) <= ts[id].ancestor.value.lsn
  {
  }

  /** The read theorem for one pair of similar tenants, at any branch depth. */
  lemma {:induction false} SimGetPage(redo: RecordRedo, g: Tenant, n: Tenant, hs: map<TimelineId, Lsn>,
                                      id: TimelineId, page: PageKey, lsn: Lsn)
    requires Sim(g, n, hs) && id in g.timelines && HorizonOf(hs, id) <= lsn
    ensures GetPage(redo, g.timelines, id, page, lsn) == GetPage(redo, n.timelines, id, page, lsn)
    decreases g.timelines[id].depth
  {
    hide RepoSim, GetPageWithBase, Anchored;
    SimRead(redo, g.timelines[id].repo, n.timelines[id].repo, HorizonOf(hs, id), page, lsn);
    var a := g.timelines[id].ancestor;
    if a.Some? {
      assert HorizonOf(hs, a.value.parent) <= a.value.lsn by { BranchPointCovered(g.timelines, hs, id); }
      SimGetPage(redo, g, n, hs, a.value.parent, page, a.value.lsn);
    }
  }

  lemma {:induction false} SimGetRelSize(g: Tenant, n: Tenant, hs: map<TimelineId, Lsn>, id: TimelineId,
                                         rel: RelTag, lsn: Lsn)
    requires Sim(g, n, hs) && id in g.timelines
    ensures GetRelSize(g.timelines, id, rel, lsn) == GetRelSize(n.timelines, id, rel, lsn)
    decreases g.timelines[id].depth
  {
    var a := g.timelines[id].ancestor;
    if a.Some? {
      SimGetRelSize(g, n, hs, a.value.parent, rel, a.value.lsn);
    }
  }

  // ---- Every step keeps the simulation ----

  lemma SimWithRepo(g: Tenant, n: Tenant, hs: map<TimelineId, Lsn>, id: TimelineId, rg: Repo, rn: Repo)
    requires Sim(g, n, hs) && id in g.timelines && RepoSim(rg, rn, HorizonOf(hs, id))
    ensures Sim(WithRepo(g, id, rg), WithRepo(n, id, rn), hs)
  {
    hide RepoSim;
    var g', n' := WithRepo(g, id, rg), WithRepo(n, id, rn);
    assert Rooted(g'.timelines) && Rooted(n'.timelines);
    assert Anchored(g'.timelines, hs);
    assert g'.timelines.Keys == g.timelines.Keys && n'.timelines.Keys == n.timelines.Keys;
  }

  lemma EmptySim(freezeThreshold: nat, h: Lsn)
    ensures RepoSim(EmptyRepo(freezeThreshold), EmptyRepo(freezeThreshold), h)
  {
  }

  lemma AddRooted(ts: Timelines, id: TimelineId, t: Timeline)
    requires Rooted(ts) && id !in ts
    requires t.ancestor.Some? ==> t.ancestor.value.parent in ts && ts[t.ancestor.value.parent].depth < t.depth
    ensures Rooted(ts[id := t])
  {
  }

  lemma AddKeeps(ts: Timelines, hs: map<TimelineId, Lsn>, id: TimelineId, t: Timeline)
    requires Rooted(ts) && Anchored(ts, hs) && id !in ts
    requires t.ancestor.Some? ==>
      && t.ancestor.value.parent in ts && ts[t.ancestor.value.parent].depth < t.depth
      && HorizonOf(hs, t.ancestor.value.parent) <= t.ancestor.value.lsn
    ensures Rooted(ts[id := t]) && Anchored(ts[id := t], hs)
  {
  }

  lemma SimAdd(g: Tenant, n: Tenant, hs: map<TimelineId, Lsn>, id: TimelineId, t: Timeline)
    requires Sim(g, n, hs) && id !in g.timelines && t.repo == EmptyRepo(g.freezeThreshold)
    requires t.ancestor.Some? ==>
      && t.ancestor.value.parent in g.timelines && g.timelines[t.ancestor.value.parent].depth < t.depth
      && HorizonOf(hs, t.ancestor.value.parent) <= t.ancestor.value.lsn
    ensures Sim(g.(timelines := g.timelines[id := t]), n.(timelines := n.timelines[id := t]), hs)
  {
    var g', n' := g.timelines[id := t], n.timelines[id := t];
    hide RepoSim, EmptyRepo;
    EmptySim(g.freezeThreshold, HorizonOf(hs, id));
    AddKeeps(g.timelines, hs, id, t);
    assert n.timelines[id := t].Keys == n.timelines.Keys + {id};
    assert t.ancestor.Some? ==>
           var p := t.ancestor.value.parent; TimelineSim(g.timelines[p], n.timelines[p], HorizonOf(hs, p));
    AddRooted(n.timelines, id, t);
    hide Rooted, Anchored;
  }

  lemma SimStep(g: Tenant, n: Tenant, hs: map<TimelineId, Lsn>, op: Op)
    requires Sim(g, n, hs) && Allowed(n, hs, op) && !op.CollectGarbage?
    ensures Sim(Step(g, op), Step(n, op), hs)
  {
    hide RepoSim, Ingest, Freeze, View, Rooted, Anchored;
    assert op.id in g.timelines ==> TimelineSim(g.timelines[op.id], n.timelines[op.id], HorizonOf(hs, op.id));
    if op.id in g.timelines {
      var rg, rn := g.timelines[op.id].repo, n.timelines[op.id].repo;
      if op.IngestMods? {
        SimIngest(rg, rn, HorizonOf(hs, op.id), op.mods);
        SimWithRepo(g, n, hs, op.id, Ingest(rg, op.mods), Ingest(rn, op.mods));
      } else if op.FreezeMemtable? {
        SimFreeze(rg, rn, HorizonOf(hs, op.id));
        SimWithRepo(g, n, hs, op.id, Freeze(rg), Freeze(rn));
      }
    } else if op.Create? {
      SimAdd(g, n, hs, op.id, Timeline(EmptyRepo(g.freezeThreshold), None, 0));
    } else if op.Branch? && op.parent in g.timelines {
      assert TimelineSim(g.timelines[op.parent], n.timelines[op.parent], HorizonOf(hs, op.parent));
      SimAdd(g, n, hs, op.id, Timeline(EmptyRepo(g.freezeThreshold), Some(Ancestor(op.parent, op.lsn)),
        g.timelines[op.parent].depth + 1));
    }
  }

  lemma GcKeys(g: Tenant, hs: map<TimelineId, Lsn>, requested: Lsn)
    ensures Gc(g, requested).timelines.Keys == g.timelines.Keys == RaiseHorizons(g, hs, requested).Keys
    ensures Gc(g, requested).freezeThreshold == g.freezeThreshold
    ensures Gc(g, requested) == Step(g, CollectGarbage(requested))
  {
  }

  lemma SimGc(g: Tenant, n: Tenant, hs: map<TimelineId, Lsn>, requested: Lsn)
    requires Sim(g, n, hs)
    ensures Sim(Gc(g, requested), n, RaiseHorizons(g, hs, requested))
  {
    hide RepoSim, Gc, RaiseHorizons, HorizonOf, Rooted, Anchored;
    GcKeys(g, hs, requested);
    StepRooted(g, CollectGarbage(requested));
    GcAnchored(g, hs, requested);
    var ts', hs' := Gc(g, requested).timelines, RaiseHorizons(g, hs, requested);
    forall id | id in ts'
      ensures TimelineSim(ts'[id], n.timelines[id], HorizonOf(hs', id))
    {
      SimGcTimeline(g, hs, requested, id, n.timelines[id]);
    }
  }

  lemma SimGcTimeline(g: Tenant, hs: map<TimelineId, Lsn>, requested: Lsn, id: TimelineId, n: Timeline)
    requires id in g.timelines && TimelineSim(g.timelines[id], n, HorizonOf(hs, id))
    ensures TimelineSim(Gc(g, requested).timelines[id], n, HorizonOf(RaiseHorizons(g, hs, requested), id))
  {
    hide RepoSim, Compact;
    SimCompact(g.timelines[id].repo, n.repo, HorizonOf(hs, id), Horizon(g.timelines, id, requested),
               HorizonOf(RaiseHorizons(g, hs, requested), id));
  }

  lemma GcAnchored(g: Tenant, hs: map<TimelineId, Lsn>, requested: Lsn)
    requires Rooted(g.timelines) && Anchored(g.timelines, hs)
    ensures Anchored(Gc(g, requested).timelines, RaiseHorizons(g, hs, requested))
  {
    hide Compact;
    var ts, ts', hs' := g.timelines, Gc(g, requested).timelines, RaiseHorizons(g, hs, requested);
    forall c | c in ts' && ts'[c].ancestor.Some?
      ensures HorizonOf(hs', ts'[c].ancestor.value.parent) <= ts'[c].ancestor.value.lsn
    {
      assert Pins(ts, c, ts[c].ancestor.value.parent);
    }
  }

  lemma {:induction false} RunSim(freezeThreshold: nat, ops: seq<Op>)
    requires Legal(freezeThreshold, ops)
    ensures Sim(Run(freezeThreshold, ops), Run(freezeThreshold, WithoutGc(ops)), Collected(freezeThreshold, ops))
  {
    if ops != [] {
      hide RepoSim, Step, RaiseHorizons, Allowed, Rooted, TimelineSim;
      var before, last := ops[..|ops| - 1], ops[|ops| - 1];
      RunSim(freezeThreshold, before);
      var g, n := Run(freezeThreshold, before), Run(freezeThreshold, WithoutGc(before));
      var hs := Collected(freezeThreshold, before);
      if last.CollectGarbage? {
        assert WithoutGc(ops) == WithoutGc(before);
        GcKeys(g, hs, last.horizon);
        SimGc(g, n, hs, last.horizon);
      } else {
        assert WithoutGc(ops)[..|WithoutGc(ops)| - 1] == WithoutGc(before);
        SimStep(g, n, hs, last);
      }
    }
  }

  /** The main theorem. */
  lemma GcInvisible(redo: RecordRedo, freezeThreshold: nat, ops: seq<Op>, id: TimelineId, page: PageKey, lsn: Lsn)
    requires Legal(freezeThreshold, ops)
    requires id in Run(freezeThreshold, ops).timelines
    requires HorizonOf(Collected(freezeThreshold, ops), id) <= lsn
    ensures Rooted(Run(freezeThreshold, ops).timelines) && Rooted(Run(freezeThreshold, WithoutGc(ops)).timelines)
    ensures id in Run(freezeThreshold, WithoutGc(ops)).timelines
    ensures GetPage(redo, Run(freezeThreshold, ops).timelines, id, page, lsn) ==
            GetPage(redo, Run(freezeThreshold, WithoutGc(ops)).timelines, id, page, lsn)
    ensures forall rel, at :: GetRelSize(Run(freezeThreshold, ops).timelines, id, rel, at) ==
                              GetRelSize(Run(freezeThreshold, WithoutGc(ops)).timelines, id, rel, at)
  {
    RunSim(freezeThreshold, ops);
    var g, n, hs := Run(freezeThreshold, ops), Run(freezeThreshold, WithoutGc(ops)), Collected(freezeThreshold, ops);
    SimGetPage(redo, g, n, hs, id, page, lsn);
    forall rel, at ensures GetRelSize(g.timelines, id, rel, at) == GetRelSize(n.timelines, id, rel, at) {
      SimGetRelSize(g, n, hs, id, rel, at);
    }
  }
}
