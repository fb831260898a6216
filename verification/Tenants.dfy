/** The tenant as it runs: a map of timelines updated by create, branch and collection. */
module Tenants {
  import opened Common
  import opened Repository
  import RepoSpec = RepositorySpec
  import Spec = TenantSpec

  type TimelineId = Spec.TimelineId

  class Tenant {
    var timelines: Spec.Timelines
    const freezeThreshold: nat

    ghost function State(): Spec.Tenant
      reads this
    {
      Spec.Tenant(timelines, freezeThreshold)
    }

    constructor (freezeThreshold: nat)
      ensures State() == Spec.Tenant(map[], freezeThreshold)
    {
      timelines := map[];
      this.freezeThreshold := freezeThreshold;
    }

    method CreateTimeline(id: TimelineId) returns (r: Result<(), Spec.TenantError>)
      modifies this
      ensures r.Err? ==> Spec.CreateTimeline(old(State()), id) == Err(r.error) && State() == old(State())
      ensures r.Ok? ==> Spec.CreateTimeline(old(State()), id) == Ok(State())
    {
      if id in timelines {
        return Err(Spec.AlreadyExists(id));
      }
      timelines := timelines[id := Spec.Timeline(RepoSpec.EmptyRepo(freezeThreshold), None, 0)];
      return Ok(());
    }

    method BranchTimeline(newId: TimelineId, parentId: TimelineId,
                          ancestorLsn: Lsn) returns (r: Result<(), Spec.TenantError>)
      modifies this
      ensures r.Err? ==>
              Spec.BranchTimeline(old(State()), newId, parentId, ancestorLsn) == Err(r.error) && State() == old(State())
      ensures r.Ok? ==> Spec.BranchTimeline(old(State()), newId, parentId, ancestorLsn) == Ok(State())
    {
      if newId in timelines {
        return Err(Spec.AlreadyExists(newId));
      }
      if parentId !in timelines {
        return Err(Spec.NoSuchParent(parentId));
      }
      var depth := timelines[parentId].depth + 1;
      timelines := timelines[newId :=
        Spec.Timeline(RepoSpec.EmptyRepo(freezeThreshold), Some(Spec.Ancestor(parentId, ancestorLsn)), depth)];
      return Ok(());
    }

    /** Compact every timeline, never past a branch point that a child still reads at. */
    method Gc(requested: Lsn) returns (stats: map<TimelineId, CompactionStats>)
      modifies this
      ensures State() == Spec.Gc(old(State()), requested)
      ensures stats.Keys == timelines.Keys
      ensures forall id :: id in timelines ==>
              DescribesCompaction(stats[id], old(timelines)[id].repo.layers, timelines[id].repo.layers)
    {
      hide Spec.GcTimelines, DescribesCompaction;
      var collected;
      collected, stats := CompactAll(timelines, requested);
      timelines := collected;
    }
  }

  /** The lowest branch point pinned on each parent timeline. */
  method ChildPins(ts: Spec.Timelines) returns (pins: map<TimelineId, Lsn>)
    ensures forall id, requested: Lsn ::
              Spec.Horizon(ts, id, requested) == if id in pins then Min(requested, pins[id]) else requested
  {
    pins := map[];
    var todo := ts.Keys;
    while todo != {}
      invariant todo <= ts.Keys
      invariant forall c :: c in ts && c !in todo && ts[c].ancestor.Some? ==>
                  ts[c].ancestor.value.parent in pins && pins[ts[c].ancestor.value.parent] <= ts[c].ancestor.value.lsn
      invariant forall p :: p in pins ==>
                exists c :: c in ts && Spec.Pins(ts, c, p) && ts[c].ancestor.value.lsn == pins[p]
    {
      var c :| c in todo;
      todo := todo - {c};
      if ts[c].ancestor.Some? {
        var a := ts[c].ancestor.value;
        if a.parent !in pins || a.lsn < pins[a.parent] {
          pins := pins[a.parent := a.lsn];
          assert Spec.Pins(ts, c, a.parent);
        }
      }
    }
    forall id, requested: Lsn
      ensures Spec.Horizon(ts, id, requested) == if id in pins then Min(requested, pins[id]) else requested
    {
      PinIsHorizon(ts, pins, id, requested);
    }
  }

  lemma PinIsHorizon(ts: Spec.Timelines, pins: map<TimelineId, Lsn>, id: TimelineId, requested: Lsn)
    requires forall c :: c in ts && ts[c].ancestor.Some? ==>
               ts[c].ancestor.value.parent in pins && pins[ts[c].ancestor.value.parent] <= ts[c].ancestor.value.lsn
    requires forall p :: p in pins ==> exists c :: c in ts && Spec.Pins(ts, c, p) && ts[c].ancestor.value.lsn == pins[p]
    ensures Spec.Horizon(ts, id, requested) == if id in pins then Min(requested, pins[id]) else requested
  {
  }

  method CompactAll(ts: Spec.Timelines, requested: Lsn) returns (collected: Spec.Timelines,
                    stats: map<TimelineId, CompactionStats>)
    ensures collected == Spec.GcTimelines(ts, requested)
    ensures stats.Keys == collected.Keys == ts.Keys
    ensures forall id :: id in ts ==> DescribesCompaction(stats[id], ts[id].repo.layers, collected[id].repo.layers)
  {
    hide RepoSpec.Compact, Spec.Horizon, DescribesCompaction;
    var pins := ChildPins(ts);
    collected, stats := map[], map[];
    var todo := ts.Keys;
    while todo != {}
      invariant todo <= ts.Keys
      invariant stats.Keys == collected.Keys == ts.Keys - todo
      invariant forall id :: id in collected ==>
                collected[id] == ts[id].(repo := RepoSpec.Compact(ts[id].repo, Spec.Horizon(ts, id, requested)))
      invariant forall id :: id in collected ==>
                DescribesCompaction(stats[id], ts[id].repo.layers, collected[id].repo.layers)
    {
      var id :| id in todo;
      todo := todo - {id};
      var horizon := if id in pins then Min(requested, pins[id]) else requested;
      var repo, s := CompactRepo(ts[id].repo, horizon);
      collected, stats := collected[id := ts[id].(repo := repo)], stats[id := s];
    }
  }
}
