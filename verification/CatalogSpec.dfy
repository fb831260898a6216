/**
 * The catalog of timelines: restoring creates exactly the timelines whose ancestry is
 * resolved, whatever the order of the records, and a snapshot restores to the same topology.
 */
module CatalogSpec {
  import opened Common
  import opened RepositorySpec
  import opened TenantSpec
  import opened Ids

  datatype TimelineRecord = TimelineRecord(id: string, ancestor: Option<string>, ancestorLsn: Option<Lsn>)
  datatype TenantRecord = TenantRecord(id: string, timelines: seq<TimelineRecord>)
  datatype Catalog = Catalog(version: nat, tenants: seq<TenantRecord>)

  /** The ancestor a record names, when it parses. */
  function AncestorOf(rec: TimelineRecord): Option<Ancestor> {
    if rec.ancestor.None? then None
    else
      var parent := ParseId(rec.ancestor.value);
      if parent.None? then None
      else Some(Ancestor(parent.value, if rec.ancestorLsn.Some? then rec.ancestorLsn.value else 0))
  }

  // ---- Restoring ----

  /** Create what `rec` asks for if it can be created now; the flag says whether to retry later. */
  function Consider(t: Tenant, rec: TimelineRecord): (Tenant, bool) {
    var id := ParseId(rec.id);
    if id.None? || id.value in t.timelines then (t, false)
    else if rec.ancestor.None? then (Step(t, Create(id.value)), false)
    else
      var a := AncestorOf(rec);
      if a.None? then (t, false)
      else if a.value.parent in t.timelines then (Step(t, Branch(id.value, a.value.parent, a.value.lsn)), false)
      else (t, true)
  }

  /** One pass over the pending records, keeping those to retry. */
  function Pass(t: Tenant, pending: seq<TimelineRecord>): (Tenant, seq<TimelineRecord>)
    decreases |pending|
  {
    if pending == [] then (t, [])
    else
      var (t1, retry) := Consider(t, pending[0]);
      var (t2, rest) := Pass(t1, pending[1..]);
      (t2, if retry then [pending[0]] + rest else rest)
  }

  lemma PassShrinks(t: Tenant, pending: seq<TimelineRecord>)
    ensures |Pass(t, pending).1| <= |pending|
    decreases |pending|
  {
    if pending != [] {
      PassShrinks(Consider(t, pending[0]).0, pending[1..]);
    }
  }

  /** Passes until nothing is pending or a pass makes no progress. */
  function Settle(t: Tenant, pending: seq<TimelineRecord>): (Tenant, seq<TimelineRecord>)
    decreases |pending|
  {
    var (t', rest) := Pass(t, pending);
    PassShrinks(t, pending);
    if rest == [] || |rest| == |pending| then (t', rest) else Settle(t', rest)
  }

  // ---- What should be restored ----

  ghost predicate Names(rec: TimelineRecord, id: TimelineId) {
    ParseId(rec.id) == Some(id) && (rec.ancestor.Some? ==> AncestorOf(rec).Some?)
  }

  /** Following records from `id` upwards reaches a root or one of `base` within `n` branches. */
  ghost predicate ReachesIn(recs: seq<TimelineRecord>, base: set<TimelineId>, id: TimelineId, n: nat)
    decreases n
  {
    || id in base
    || exists rec :: rec in recs && Names(rec, id) &&
         (rec.ancestor.None? || (n > 0 && ReachesIn(recs, base, AncestorOf(rec).value.parent, n - 1)))
  }

  ghost predicate Reaches(recs: seq<TimelineRecord>, base: set<TimelineId>, id: TimelineId) {
    exists n: nat :: ReachesIn(recs, base, id, n)
  }

  /** `id` was created from a record of `recs`, fresh and with the record's ancestor. */
  ghost predicate MadeFrom(recs: seq<TimelineRecord>, t: Tenant, id: TimelineId)
    requires id in t.timelines
  {
    exists rec :: rec in recs && Names(rec, id) && t.timelines[id].ancestor == AncestorOf(rec)
                  && t.timelines[id].repo == EmptyRepo(t.freezeThreshold)
  }

  // ---- Soundness: only reachable timelines are created ----

  ghost predicate Sound(recs: seq<TimelineRecord>, t0: Tenant, t: Tenant) {
    && t.freezeThreshold == t0.freezeThreshold
    && (forall id :: id in t0.timelines ==> id in t.timelines && t.timelines[id] == t0.timelines[id])
    && (forall id :: id in t.timelines ==> Reaches(recs, t0.timelines.Keys, id))
    && (forall id :: id in t.timelines && id !in t0.timelines ==> MadeFrom(recs, t, id))
  }

  lemma SoundStart(recs: seq<TimelineRecord>, t: Tenant)
    ensures Sound(recs, t, t)
  {
    forall id | id in t.timelines ensures Reaches(recs, t.timelines.Keys, id) {
      assert ReachesIn(recs, t.timelines.Keys, id, 0);
    }
  }

  lemma NowReaches(recs: seq<TimelineRecord>, t0: Tenant, t: Tenant, rec: TimelineRecord, id: TimelineId)
    requires Sound(recs, t0, t) && rec in recs && Names(rec, id)
    requires rec.ancestor.None? || AncestorOf(rec).value.parent in t.timelines
    ensures Reaches(recs, t0.timelines.Keys, id)
  {
    if rec.ancestor.None? {
      assert ReachesIn(recs, t0.timelines.Keys, id, 0);
    } else {
      var parent := AncestorOf(rec).value.parent;
      var n: nat :| ReachesIn(recs, t0.timelines.Keys, parent, n);
      assert ReachesIn(recs, t0.timelines.Keys, id, n + 1);
    }
  }

  lemma ConsiderSound(recs: seq<TimelineRecord>, t0: Tenant, t: Tenant, rec: TimelineRecord)
    requires Sound(recs, t0, t) && rec in recs
    ensures Sound(recs, t0, Consider(t, rec).0)
  {
    hide Reaches, ParseId;
    var t' := Consider(t, rec).0;
    if t' != t {
      var id := ParseId(rec.id).value;
      NowReaches(recs, t0, t, rec, id);
      forall i | i in t'.timelines && i !in t0.timelines ensures MadeFrom(recs, t', i) {
        if i != id {
          assert MadeFrom(recs, t, i);
        }
      }
    }
  }

  lemma {:induction false} PassSound(recs: seq<TimelineRecord>, t0: Tenant, t: Tenant, pending: seq<TimelineRecord>)
    requires Sound(recs, t0, t) && forall rec :: rec in pending ==> rec in recs
    ensures Sound(recs, t0, Pass(t, pending).0)
    ensures forall rec :: rec in Pass(t, pending).1 ==> rec in pending
    decreases |pending|
  {
    hide Sound, Consider;
    if pending != [] {
      ConsiderSound(recs, t0, t, pending[0]);
      PassSound(recs, t0, Consider(t, pending[0]).0, pending[1..]);
    }
  }

  lemma {:induction false} SettleSound(recs: seq<TimelineRecord>, t0: Tenant, t: Tenant, pending: seq<TimelineRecord>)
    requires Sound(recs, t0, t) && forall rec :: rec in pending ==> rec in recs
    ensures Sound(recs, t0, Settle(t, pending).0)
    decreases |pending|
  {
    hide Sound, Pass;
    PassSound(recs, t0, t, pending);
    PassShrinks(t, pending);
    var (t', rest) := Pass(t, pending);
    if rest != [] && |rest| != |pending| {
      SettleSound(recs, t0, t', rest);
    }
  }

  // ---- Completeness: nothing that could be created is missing ----

  /** The record's timeline exists, or cannot be created: unparseable, or its parent is missing. */
  ghost predicate Done(t: Tenant, rec: TimelineRecord) {
    forall id :: Names(rec, id) ==>
      id in t.timelines || (rec.ancestor.Some? && AncestorOf(rec).value.parent !in t.timelines)
  }

  ghost predicate Exists(t: Tenant, rec: TimelineRecord) {
    forall id :: Names(rec, id) ==> id in t.timelines
  }

  lemma ConsiderGrows(t: Tenant, rec: TimelineRecord)
    ensures t.timelines.Keys <= Consider(t, rec).0.timelines.Keys
    ensures if Consider(t, rec).1 then Consider(t, rec).0 == t && Done(t, rec) else Exists(Consider(t, rec).0, rec)
  {
    hide ParseId;
  }

  /** A pass leaves pending only what it could not create; without progress it changes nothing. */
  lemma {:induction false} PassCompletes(t: Tenant, pending: seq<TimelineRecord>)
    ensures var (t', rest) := Pass(t, pending);
            && t.timelines.Keys <= t'.timelines.Keys && |rest| <= |pending|
            && (forall rec :: rec in pending ==> rec in rest || Exists(t', rec))
            && (|rest| == |pending| ==> t' == t && rest == pending && forall rec :: rec in pending ==> Done(t, rec))
    decreases |pending|
  {
    hide Consider, Done, Names;
    if pending != [] {
      ConsiderGrows(t, pending[0]);
      PassCompletes(Consider(t, pending[0]).0, pending[1..]);
    }
  }

  lemma {:induction false} SettleCompletes(t: Tenant, pending: seq<TimelineRecord>)
    ensures var t' := Settle(t, pending).0;
            t.timelines.Keys <= t'.timelines.Keys && forall rec :: rec in pending ==> Done(t', rec)
    decreases |pending|
  {
    PassCompletes(t, pending);
    PassShrinks(t, pending);
    var (t', rest) := Pass(t, pending);
    hide Pass, Names;
    if rest != [] && |rest| != |pending| {
      SettleCompletes(t', rest);
    }
  }

  lemma {:induction false} ReachedIsThere(recs: seq<TimelineRecord>, base: set<TimelineId>, t: Tenant,
                                          id: TimelineId, n: nat)
    requires base <= t.timelines.Keys && (forall rec :: rec in recs ==> Done(t, rec)) && ReachesIn(recs, base, id, n)
    ensures id in t.timelines
    decreases n
  {
    hide AncestorOf, ParseId;
    if id !in base {
      var rec :| rec in recs && Names(rec, id) &&
        (rec.ancestor.None? || (n > 0 && ReachesIn(recs, base, AncestorOf(rec).value.parent, n - 1)));
      assert Done(t, rec);
      if rec.ancestor.Some? {
        ReachedIsThere(recs, base, t, AncestorOf(rec).value.parent, n - 1);
      }
    }
  }

  /**
   * Restoring is a least fixpoint: for any records, in any order, and any timelines already
   * there, exactly the timelines that reach a root or an existing timeline exist afterwards;
   * those already there are untouched, and each new one is as one of its records says.
   */
  lemma RestoreIsLeastFixpoint(t: Tenant, recs: seq<TimelineRecord>, id: TimelineId)
    ensures var t' := Settle(t, recs).0;
            && (id in t'.timelines <==> Reaches(recs, t.timelines.Keys, id))
            && (id in t.timelines ==> id in t'.timelines && t'.timelines[id] == t.timelines[id])
            && (id in t'.timelines && id !in t.timelines ==> MadeFrom(recs, t', id))
  {
    SoundStart(recs, t);
    SettleSound(recs, t, t, recs);
    SettleCompletes(t, recs);
    var t' := Settle(t, recs).0;
    hide Settle;
    if Reaches(recs, t.timelines.Keys, id) {
      var n: nat :| ReachesIn(recs, t.timelines.Keys, id, n);
      ReachedIsThere(recs, t.timelines.Keys, t', id, n);
    }
  }

  // ---- Restoring twice ----

  lemma {:induction false} NothingToDo(t: Tenant, pending: seq<TimelineRecord>)
    requires forall rec :: rec in pending ==> Done(t, rec)
    ensures Pass(t, pending).0 == t && forall rec :: rec in Pass(t, pending).1 ==> rec in pending
    decreases |pending|
  {
    hide ParseId;
    if pending != [] {
      assert Done(t, pending[0]);
      assert Consider(t, pending[0]).0 == t;
      NothingToDo(t, pending[1..]);
    }
  }

  lemma {:induction false} SettledStays(t: Tenant, pending: seq<TimelineRecord>)
    requires forall rec :: rec in pending ==> Done(t, rec)
    ensures Settle(t, pending).0 == t
    decreases |pending|
  {
    NothingToDo(t, pending);
    PassShrinks(t, pending);
    var (t', rest) := Pass(t, pending);
    hide Pass, Done;
    if rest != [] && |rest| != |pending| {
      SettledStays(t, rest);
    }
  }

  lemma SettleTwice(t: Tenant, recs: seq<TimelineRecord>)
    ensures Settle(Settle(t, recs).0, recs).0 == Settle(t, recs).0
  {
    SettleCompletes(t, recs);
    hide Settle, Done;
    SettledStays(Settle(t, recs).0, recs);
  }

  // ---- Snapshots ----

  function RecordOf(id: TimelineId, tl: Timeline): TimelineRecord {
    TimelineRecord(PrintId(id),
      if tl.ancestor.Some? then Some(PrintId(tl.ancestor.value.parent)) else None,
      if tl.ancestor.Some? then Some(tl.ancestor.value.lsn) else None)
  }

  /** `recs` holds exactly one kind of record for each timeline. */
  ghost predicate Describes(ts: Timelines, recs: seq<TimelineRecord>) {
    && (forall id :: id in ts ==> RecordOf(id, ts[id]) in recs)
    && (forall rec :: rec in recs ==> exists id :: id in ts && rec == RecordOf(id, ts[id]))
  }

  ghost predicate SameTopology(a: Timelines, b: Timelines) {
    a.Keys == b.Keys && forall id :: id in a ==> a[id].ancestor == b[id].ancestor
  }

  lemma RecordNames(id: TimelineId, tl: Timeline, other: TimelineId)
    ensures AncestorOf(RecordOf(id, tl)) == tl.ancestor
    ensures Names(RecordOf(id, tl), other) <==> other == id
  {
    IdRoundTrip(id);
    if tl.ancestor.Some? {
      IdRoundTrip(tl.ancestor.value.parent);
    }
    hide ParseId, PrintId;
  }

  lemma {:induction false} SnapshotReaches(ts: Timelines, recs: seq<TimelineRecord>, id: TimelineId)
    requires Rooted(ts) && Describes(ts, recs) && id in ts
    ensures ReachesIn(recs, {}, id, ts[id].depth)
    decreases ts[id].depth
  {
    var rec := RecordOf(id, ts[id]);
    RecordNames(id, ts[id], id);
    hide RecordOf, AncestorOf, Names;
    if ts[id].ancestor.Some? {
      var parent := ts[id].ancestor.value.parent;
      SnapshotReaches(ts, recs, parent);
      ReachesFurther(recs, {}, parent, ts[parent].depth, ts[id].depth - 1);
    }
    assert rec in recs;
    RecordRoot(id, ts[id]);
  }

  lemma RecordRoot(id: TimelineId, tl: Timeline)
    ensures RecordOf(id, tl).ancestor.None? <==> tl.ancestor.None?
  {
  }

  lemma {:induction false} ReachesFurther(recs: seq<TimelineRecord>, base: set<TimelineId>, id: TimelineId,
                                          m: nat, n: nat)
    requires m <= n && ReachesIn(recs, base, id, m)
    ensures ReachesIn(recs, base, id, n)
    decreases m
  {
    hide ParseId, AncestorOf;
    if id !in base {
      var rec :| rec in recs && Names(rec, id) &&
        (rec.ancestor.None? || (m > 0 && ReachesIn(recs, base, AncestorOf(rec).value.parent, m - 1)));
      if rec.ancestor.Some? {
        ReachesFurther(recs, base, AncestorOf(rec).value.parent, m - 1, n - 1);
      }
    }
  }

  /** Restoring a snapshot into an empty tenant gives back the same timelines and ancestry. */
  lemma SnapshotRestores(ts: Timelines, recs: seq<TimelineRecord>, freezeThreshold: nat)
    requires Rooted(ts) && Describes(ts, recs)
    ensures SameTopology(Settle(Tenant(map[], freezeThreshold), recs).0.timelines, ts)
  {
    var t := Tenant(map[], freezeThreshold);
    var t' := Settle(t, recs).0;
    assert t.timelines.Keys == {};
    hide Settle, RecordOf, AncestorOf, Names;
    forall id: TimelineId ensures id in t'.timelines <==> id in ts
      ensures id in ts ==> id in t'.timelines && t'.timelines[id].ancestor == ts[id].ancestor
    {
      RestoreIsLeastFixpoint(t, recs, id);
      if id in ts {
        SnapshotReaches(ts, recs, id);
      }
      if id in t'.timelines {
        MadeIsOriginal(ts, recs, t', id);
      }
    }
  }

  lemma MadeIsOriginal(ts: Timelines, recs: seq<TimelineRecord>, t: Tenant, id: TimelineId)
    requires Describes(ts, recs) && id in t.timelines && MadeFrom(recs, t, id)
    ensures id in ts && t.timelines[id].ancestor == ts[id].ancestor
  {
    hide RecordOf, AncestorOf, Names;
    var rec :| rec in recs && Names(rec, id) && t.timelines[id].ancestor == AncestorOf(rec);
    var j :| j in ts && rec == RecordOf(j, ts[j]);
    RecordNames(j, ts[j], id);
  }

  // ---- The whole manager ----

  type TenantId = TimelineId

  datatype Manager = Manager(tenants: map<TenantId, Tenant>, freezeThreshold: nat)

  function GetOrCreate(m: Manager, id: TenantId): Tenant {
    if id in m.tenants then m.tenants[id] else Tenant(map[], m.freezeThreshold)
  }

  /** A tenant whose id does not parse is skipped. */
  function RestoreTenant(m: Manager, rec: TenantRecord): Manager {
    var id := ParseId(rec.id);
    if id.None? then m else m.(tenants := m.tenants[id.value := Settle(GetOrCreate(m, id.value), rec.timelines).0])
  }

  function RestoreAll(m: Manager, recs: seq<TenantRecord>): Manager
    decreases |recs|
  {
    if recs == [] then m else RestoreAll(RestoreTenant(m, recs[0]), recs[1..])
  }

  ghost predicate DistinctTenants(recs: seq<TenantRecord>) {
    forall i, j :: 0 <= i < j < |recs| && ParseId(recs[i].id).Some? ==> ParseId(recs[i].id) != ParseId(recs[j].id)
  }

  ghost predicate Listed(recs: seq<TenantRecord>, id: TenantId) {
    exists i :: 0 <= i < |recs| && ParseId(recs[i].id) == Some(id)
  }

  lemma {:induction false} RestoreAllMeaning(m: Manager, recs: seq<TenantRecord>, i: nat)
    requires DistinctTenants(recs) && i < |recs| && ParseId(recs[i].id).Some?
    ensures var id := ParseId(recs[i].id).value;
            id in RestoreAll(m, recs).tenants
              && RestoreAll(m, recs).tenants[id] == Settle(GetOrCreate(m, id), recs[i].timelines).0
    decreases |recs|
  {
    hide ParseId, Settle;
    var id := ParseId(recs[i].id).value;
    var m1 := RestoreTenant(m, recs[0]);
    if i == 0 {
      assert !Listed(recs[1..], id);
      RestoreAllElsewhere(m1, recs[1..], id);
    } else {
      RestoreAllMeaning(m1, recs[1..], i - 1);
    }
  }

  lemma {:induction false} RestoreAllElsewhere(m: Manager, recs: seq<TenantRecord>, id: TenantId)
    requires !Listed(recs, id)
    ensures id in RestoreAll(m, recs).tenants <==> id in m.tenants
    ensures id in m.tenants ==> RestoreAll(m, recs).tenants[id] == m.tenants[id]
    decreases |recs|
  {
    hide ParseId, Settle;
    if recs != [] {
      assert ParseId(recs[0].id) != Some(id);
      assert forall i :: 0 <= i < |recs[1..]| ==> recs[1..][i] == recs[i + 1];
      RestoreAllElsewhere(RestoreTenant(m, recs[0]), recs[1..], id);
    }
  }

  lemma {:induction false} RestoreAllThreshold(m: Manager, recs: seq<TenantRecord>)
    ensures RestoreAll(m, recs).freezeThreshold == m.freezeThreshold
    decreases |recs|
  {
    if recs != [] {
      RestoreAllThreshold(RestoreTenant(m, recs[0]), recs[1..]);
    }
  }

  /** A second restore of the same catalog changes nothing. */
  lemma RestoreTwice(m: Manager, recs: seq<TenantRecord>)
    requires DistinctTenants(recs)
    ensures RestoreAll(RestoreAll(m, recs), recs) == RestoreAll(m, recs)
  {
    hide ParseId, Settle, RestoreAll;
    var m1 := RestoreAll(m, recs);
    var m2 := RestoreAll(m1, recs);
    RestoreAllThreshold(m, recs);
    RestoreAllThreshold(m1, recs);
    forall id: TenantId ensures id in m2.tenants <==> id in m1.tenants
      ensures id in m1.tenants && id in m2.tenants ==> m2.tenants[id] == m1.tenants[id]
    {
      if Listed(recs, id) {
        var i :| 0 <= i < |recs| && ParseId(recs[i].id) == Some(id);
        RestoreAllMeaning(m, recs, i);
        RestoreAllMeaning(m1, recs, i);
        SettleTwice(GetOrCreate(m, id), recs[i].timelines);
      } else {
        RestoreAllElsewhere(m1, recs, id);
      }
    }
  }

  /** A catalog captures a manager: one record per tenant, each describing its timelines. */
  ghost predicate Captures(m: Manager, recs: seq<TenantRecord>) {
    && DistinctTenants(recs)
    && (forall i :: 0 <= i < |recs| ==> Captured(m, recs[i]))
    && (forall id :: id in m.tenants ==> Listed(recs, id))
  }

  ghost predicate Captured(m: Manager, rec: TenantRecord) {
    exists id :: id in m.tenants && rec.id == PrintId(id) && Describes(m.tenants[id].timelines, rec.timelines)
  }

  ghost predicate SameShape(a: Manager, b: Manager) {
    a.tenants.Keys == b.tenants.Keys && forall id :: id in a.tenants ==>
      SameTopology(a.tenants[id].timelines, b.tenants[id].timelines)
  }

  lemma CapturedId(m: Manager, rec: TenantRecord, id: TenantId)
    requires Captured(m, rec) && ParseId(rec.id) == Some(id)
    ensures id in m.tenants && Describes(m.tenants[id].timelines, rec.timelines)
  {
    hide ParseId, PrintId, Describes;
    var own :| own in m.tenants && rec.id == PrintId(own) && Describes(m.tenants[own].timelines, rec.timelines);
    IdRoundTrip(own);
  }

  lemma TenantSurvives(m: Manager, recs: seq<TenantRecord>, freezeThreshold: nat, id: TenantId)
    requires Captures(m, recs) && (id in m.tenants ==> Rooted(m.tenants[id].timelines))
    ensures var m' := RestoreAll(Manager(map[], freezeThreshold), recs);
            && (id in m'.tenants <==> id in m.tenants)
            && (id in m.tenants ==> id in m'.tenants && SameTopology(m'.tenants[id].timelines, m.tenants[id].timelines))
  {
    hide ParseId, Settle, RestoreAll, SameTopology, Describes, Captured, Rooted, DistinctTenants;
    var m0 := Manager(map[], freezeThreshold);
    if Listed(recs, id) {
      var i :| 0 <= i < |recs| && ParseId(recs[i].id) == Some(id);
      CapturedId(m, recs[i], id);
      RestoreAllMeaning(m0, recs, i);
      SnapshotRestores(m.tenants[id].timelines, recs[i].timelines, freezeThreshold);
    } else {
      RestoreAllElsewhere(m0, recs, id);
    }
  }

  /** Restoring a captured manager into an empty one reproduces every tenant's topology. */
  lemma TopologySurvives(m: Manager, recs: seq<TenantRecord>, freezeThreshold: nat)
    requires Captures(m, recs) && forall id :: id in m.tenants ==> Rooted(m.tenants[id].timelines)
    ensures SameShape(RestoreAll(Manager(map[], freezeThreshold), recs), m)
  {
    hide Captures, RestoreAll, SameTopology, Rooted;
    forall id: TenantId {
      TenantSurvives(m, recs, freezeThreshold, id);
    }
  }
}
