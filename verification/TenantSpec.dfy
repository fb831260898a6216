/**
 * Timelines and tenants as values: copy-on-write reads up the ancestor chain, branching,
 * and branch-aware garbage collection.
 */
module TenantSpec {
  import opened Common
  import opened Pages
  import opened Redo
  import opened RepositorySpec

  /** A 16-byte identifier, as a number. */
  type TimelineId = x: int | 0 <= x < 0x1_0000_0000_0000_0000_0000_0000_0000_0000

  datatype Ancestor = Ancestor(parent: TimelineId, lsn: Lsn)

  /** `depth` is the length of the ancestor chain, finite because parents are created first. */
  datatype Timeline = Timeline(repo: Repo, ancestor: Option<Ancestor>, depth: nat)

  type Timelines = map<TimelineId, Timeline>

  datatype Tenant = Tenant(timelines: Timelines, freezeThreshold: nat)

  datatype TenantError = AlreadyExists(id: TimelineId) | NoSuchParent(parent: TimelineId)

  /** Every branch hangs off an existing, shallower timeline. */
  ghost predicate Rooted(ts: Timelines) {
    forall id :: id in ts && ts[id].ancestor.Some? ==>
      ts[id].ancestor.value.parent in ts && ts[ts[id].ancestor.value.parent].depth < ts[id].depth
  }

  // ---- Reads ----

  function GetPage(redo: RecordRedo, ts: Timelines, id: TimelineId, page: PageKey, lsn: Lsn): Result<Lookup, PageError>
    requires Rooted(ts) && id in ts
    decreases ts[id].depth
  {
    var t := ts[id];
    if t.ancestor.None? then GetPageWithBase(redo, t.repo, page, lsn, None)
    else
      var a := t.ancestor.value;
      ReadOver(redo, t.repo, page, lsn, a.lsn, GetPage(redo, ts, a.parent, page, a.lsn))
  }

  /** Copy-on-write: the branch's own page if it has one, else its versions over the inherited page. */
  function ReadOver(redo: RecordRedo, repo: Repo, page: PageKey, lsn: Lsn, branchPoint: Lsn,
                    parentRead: Result<Lookup, PageError>): Result<Lookup, PageError> {
    var own :- GetPageWithBase(redo, repo, page, lsn, None);
    if own.Found? then Ok(own)
    else
      var inherited :- parentRead;
      if inherited.NotFound? then Ok(NotFound)
      else GetPageWithBase(redo, repo, page, lsn, Some((branchPoint, inherited.page)))
  }

  function GetRelSize(ts: Timelines, id: TimelineId, rel: RelTag, lsn: Lsn): Option<nat>
    requires Rooted(ts) && id in ts
    decreases ts[id].depth
  {
    var t := ts[id];
    var own := LatestSize(t.repo.relSizes, rel, lsn);
    if t.ancestor.None? then own
    else MaxOption(own, GetRelSize(ts, t.ancestor.value.parent, rel, t.ancestor.value.lsn))
  }

  // ---- Operations ----

  function CreateTimeline(t: Tenant, id: TimelineId): Result<Tenant, TenantError> {
    if id in t.timelines then Err(AlreadyExists(id))
    else Ok(t.(timelines := t.timelines[id := Timeline(EmptyRepo(t.freezeThreshold), None, 0)]))
  }

  function BranchTimeline(t: Tenant, newId: TimelineId, parent: TimelineId, lsn: Lsn): Result<Tenant, TenantError> {
    if newId in t.timelines then Err(AlreadyExists(newId))
    else if parent !in t.timelines then Err(NoSuchParent(parent))
    else
      var branch := Timeline(EmptyRepo(t.freezeThreshold), Some(Ancestor(parent, lsn)), t.timelines[parent].depth + 1);
      Ok(t.(timelines := t.timelines[newId := branch]))
  }

  /** Timeline `c` branches directly off `id`. */
  predicate Pins(ts: Timelines, c: TimelineId, id: TimelineId)
    requires c in ts
  {
    ts[c].ancestor.Some? && ts[c].ancestor.value.parent == id
  }

  /** The requested horizon, lowered to the lowest branch point of a direct child. */
  function Horizon(ts: Timelines, id: TimelineId, requested: Lsn): (h: Lsn)
    ensures h <= requested
    ensures forall c :: c in ts && Pins(ts, c, id) ==> h <= ts[c].ancestor.value.lsn
    ensures h == requested || exists c :: c in ts && Pins(ts, c, id) && ts[c].ancestor.value.lsn == h
    decreases requested
  {
    if forall c :: c in ts && Pins(ts, c, id) ==> requested <= ts[c].ancestor.value.lsn then requested
    else Horizon(ts, id, requested - 1)
  }

  /** Compact every timeline at its effective horizon. */
  function GcTimelines(ts: Timelines, requested: Lsn): Timelines {
    map id | id in ts :: ts[id].(repo := Compact(ts[id].repo, Horizon(ts, id, requested)))
  }

  function Gc(t: Tenant, requested: Lsn): Tenant {
    t.(timelines := GcTimelines(t.timelines, requested))
  }

  /** Rewrite one timeline's store; ids never created are ignored. */
  function WithRepo(t: Tenant, id: TimelineId, repo: Repo): Tenant {
    if id in t.timelines then t.(timelines := t.timelines[id := t.timelines[id].(repo := repo)]) else t
  }

  datatype Op =
    | Create(id: TimelineId)
    | Branch(id: TimelineId, parent: TimelineId, lsn: Lsn)
    | IngestMods(id: TimelineId, mods: seq<Modification>)
    | FreezeMemtable(id: TimelineId)
    | CollectGarbage(horizon: Lsn)

  /** One operation of the tenant; a rejected or misaddressed one changes nothing. */
  function Step(t: Tenant, op: Op): Tenant {
    match op
    case Create(id) => (match CreateTimeline(t, id) case Ok(t') => t' case Err(_) => t)
    case Branch(id, parent, lsn) => (match BranchTimeline(t, id, parent, lsn) case Ok(t') => t' case Err(_) => t)
    case IngestMods(id, mods) => if id in t.timelines then WithRepo(t, id, Ingest(t.timelines[id].repo, mods)) else t
    case FreezeMemtable(id) => if id in t.timelines then WithRepo(t, id, Freeze(t.timelines[id].repo)) else t
    case CollectGarbage(h) => Gc(t, h)
  }

  function Run(freezeThreshold: nat, ops: seq<Op>): Tenant {
    if ops == [] then Tenant(map[], freezeThreshold)
    else Step(Run(freezeThreshold, ops[..|ops| - 1]), ops[|ops| - 1])
  }

  lemma RunSnoc(freezeThreshold: nat, ops: seq<Op>, op: Op)
    ensures Run(freezeThreshold, ops + [op]) == Step(Run(freezeThreshold, ops), op)
  {
  }

  lemma StepRooted(t: Tenant, op: Op)
    requires Rooted(t.timelines)
    ensures Rooted(Step(t, op).timelines)
  {
  }

  lemma RunRooted(freezeThreshold: nat, ops: seq<Op>)
    ensures Rooted(Run(freezeThreshold, ops).timelines)
  {
    if ops != [] {
      StepRooted(Run(freezeThreshold, ops[..|ops| - 1]), ops[|ops| - 1]);
    }
  }
}
