/** Taking and restoring catalogs, as loops over tenants and timelines. */
module Catalogs {
  import opened Common
  import opened TenantSpec
  import opened Ids
  import opened CatalogSpec

  // ---- Restoring ----

  /** One retaining pass over the pending records. */
  method RetainPass(t0: Tenant, pending: seq<TimelineRecord>) returns (t: Tenant, kept: seq<TimelineRecord>)
    ensures (t, kept) == Pass(t0, pending)
  {
    hide ParseId, Step;
    t, kept := t0, [];
    assert pending[0..] == pending && [] + Pass(t0, pending).1 == Pass(t0, pending).1;
    for i := 0 to |pending|
      invariant var rest := Pass(t, pending[i..]); Pass(t0, pending) == (rest.0, kept + rest.1)
    {
      var rec := pending[i];
      assert pending[i..][1..] == pending[i + 1..];
      ghost var after := Pass(Consider(t, rec).0, pending[i + 1..]);
      var id := ParseId(rec.id);
      if id.Some? && id.value !in t.timelines {
        if rec.ancestor.None? {
          t := Step(t, Create(id.value));
        } else {
          var a := AncestorOf(rec);
          if a.Some? {
            if a.value.parent in t.timelines {
              t := Step(t, Branch(id.value, a.value.parent, a.value.lsn));
            } else {
              assert kept + ([rec] + after.1) == (kept + [rec]) + after.1;
              kept := kept + [rec];
            }
          }
        }
      }
    }
    assert kept + [] == kept;
  }

  /** Passes until everything is created or nothing more can be. */
  method RestoreTimelines(t0: Tenant, recs: seq<TimelineRecord>) returns (t: Tenant, orphans: seq<TimelineRecord>)
    ensures (t, orphans) == Settle(t0, recs)
  {
    hide Pass;
    t, orphans := t0, recs;
    while true
      invariant Settle(t, orphans) == Settle(t0, recs)
      decreases |orphans|
    {
      var before := |orphans|;
      PassShrinks(t, orphans);
      t, orphans := RetainPass(t, orphans);
      if orphans == [] || |orphans| == before {
        return;
      }
    }
  }

  // ---- Taking a snapshot ----

  predicate Less(a: string, b: string) {
    b != "" && (a == "" || a[0] < b[0] || (a[0] == b[0] && Less(a[1..], b[1..])))
  }

  function InsertBy<T>(key: T -> string, x: T, s: seq<T>): seq<T> {
    if s == [] || Less(key(x), key(s[0])) then [x] + s else [s[0]] + InsertBy(key, x, s[1..])
  }

  function SortBy<T>(key: T -> string, s: seq<T>): seq<T> {
    if s == [] then [] else InsertBy(key, s[0], SortBy(key, s[1..]))
  }

  ghost predicate InKeyOrder<T>(key: T -> string, s: seq<T>) {
    forall i, j :: 0 <= i < j < |s| ==> Less(key(s[i]), key(s[j]))
  }

  ghost predicate DistinctKeys<T>(key: T -> string, s: seq<T>) {
    forall i, j :: 0 <= i < j < |s| ==> key(s[i]) != key(s[j])
  }

  lemma {:induction false} LessTotal(a: string, b: string)
    ensures a != b ==> Less(a, b) || Less(b, a)
    ensures !(Less(a, b) && Less(b, a)) && !Less(a, a)
  {
    if a != "" && b != "" {
      LessTotal(a[1..], b[1..]);
      LessTotal(a[1..], a[1..]);
      assert a == [a[0]] + a[1..] && b == [b[0]] + b[1..];
    } else if a != "" {
      LessTotal(a[1..], a[1..]);
    }
  }

  lemma {:induction false} LessTransitive(a: string, b: string, c: string)
    requires Less(a, b) && Less(b, c)
    ensures Less(a, c)
  {
    if a != "" && a[0] == b[0] == c[0] {
      LessTransitive(a[1..], b[1..], c[1..]);
    }
  }

  lemma {:induction false} InsertSorts<T(!new)>(key: T -> string, x: T, s: seq<T>)
    requires InKeyOrder(key, s) && forall y :: y in s ==> key(y) != key(x)
    ensures InKeyOrder(key, InsertBy(key, x, s))
    ensures forall y :: y in InsertBy(key, x, s) <==> y == x || y in s
  {
    hide Less;
    if s != [] {
      LessTotal(key(x), key(s[0]));
      if Less(key(x), key(s[0])) {
        forall y | y in s ensures Less(key(x), key(y)) {
          if y != s[0] {
            var j :| 0 <= j < |s| && s[j] == y;
            LessTransitive(key(x), key(s[0]), key(y));
          }
        }
      } else {
        InsertSorts(key, x, s[1..]);
        assert forall y :: y in s <==> y == s[0] || y in s[1..];
        forall y | y in InsertBy(key, x, s[1..]) ensures Less(key(s[0]), key(y)) {
          if y != x {
            var j :| 0 <= j < |s[1..]| && s[1..][j] == y;
            assert s[j + 1] == y;
          }
        }
      }
    }
  }

  lemma {:induction false} SortSorts<T(!new)>(key: T -> string, s: seq<T>)
    requires DistinctKeys(key, s)
    ensures InKeyOrder(key, SortBy(key, s))
    ensures forall y :: y in SortBy(key, s) <==> y in s
  {
    if s != [] {
      SortSorts(key, s[1..]);
      forall y | y in s[1..] ensures key(y) != key(s[0]) {
        var j :| 0 <= j < |s[1..]| && s[1..][j] == y;
        assert s[j + 1] == y;
      }
      InsertSorts(key, s[0], SortBy(key, s[1..]));
      assert forall y :: y in s <==> y == s[0] || y in s[1..];
    }
  }

  const TIMELINE_KEY := (r: TimelineRecord) => r.id
  const TENANT_KEY := (r: TenantRecord) => r.id

  ghost predicate TakenFrom(ts: Timelines, todo: set<TimelineId>, rec: TimelineRecord) {
    exists id: TimelineId :: id in ts && id !in todo && rec == RecordOf(id, ts[id])
  }

  /** One record per timeline, in the order of their printed ids. */
  method SnapshotTimelines(ts: Timelines) returns (recs: seq<TimelineRecord>)
    ensures Describes(ts, recs) && InKeyOrder(TIMELINE_KEY, recs)
  {
    hide PrintId;
    var list: seq<TimelineRecord> := [];
    var todo := ts.Keys;
    while todo != {}
      invariant todo <= ts.Keys
      invariant forall id :: id in ts && id !in todo ==> RecordOf(id, ts[id]) in list
      invariant forall i :: 0 <= i < |list| ==> TakenFrom(ts, todo, list[i])
      invariant DistinctKeys(TIMELINE_KEY, list)
    {
      var id :| id in todo;
      FreshKey(ts, todo, list, id);
      list := list + [RecordOf(id, ts[id])];
      todo := todo - {id};
    }
    recs := SortBy(TIMELINE_KEY, list);
    SortSorts(TIMELINE_KEY, list);
  }

  lemma FreshKey(ts: Timelines, todo: set<TimelineId>, list: seq<TimelineRecord>, id: TimelineId)
    requires id in todo && todo <= ts.Keys
    requires forall i :: 0 <= i < |list| ==> TakenFrom(ts, todo, list[i])
    ensures forall i :: 0 <= i < |list| ==> list[i].id != PrintId(id)
  {
    hide PrintId;
    forall i | 0 <= i < |list| ensures list[i].id != PrintId(id) {
      assert TakenFrom(ts, todo, list[i]);
      var o: TimelineId :| o in ts && o !in todo && list[i] == RecordOf(o, ts[o]);
      PrintInjective(o, id);
    }
  }

  /** `rec` records a tenant of `m` that is not in `todo`. */
  ghost predicate RecordedFrom(m: Manager, todo: set<TenantId>, rec: TenantRecord) {
    exists id: TenantId :: id in m.tenants && id !in todo && rec.id == PrintId(id)
                           && Describes(m.tenants[id].timelines, rec.timelines)
  }

  ghost predicate HasRecord(recs: seq<TenantRecord>, id: TenantId) {
    exists i :: 0 <= i < |recs| && recs[i].id == PrintId(id)
  }

  /** The records taken so far, with the tenants of `todo` still to be recorded. */
  ghost predicate Partly(m: Manager, todo: set<TenantId>, list: seq<TenantRecord>) {
    && todo <= m.tenants.Keys && DistinctKeys(TENANT_KEY, list)
    && (forall rec :: rec in list ==> RecordedFrom(m, todo, rec))
    && (forall id :: id in m.tenants && id !in todo ==> HasRecord(list, id))
  }

  lemma FreshTenantKey(m: Manager, todo: set<TenantId>, rec: TenantRecord, id: TenantId)
    requires id in todo && RecordedFrom(m, todo, rec)
    ensures rec.id != PrintId(id) && RecordedFrom(m, todo - {id}, rec)
  {
    hide PrintId, Describes;
    var o: TenantId :| o in m.tenants && o !in todo && rec.id == PrintId(o)
        && Describes(m.tenants[o].timelines, rec.timelines);
    PrintInjective(o, id);
  }

  lemma HasRecordStill(list: seq<TenantRecord>, rec: TenantRecord, id: TenantId)
    requires HasRecord(list, id) || rec.id == PrintId(id)
    ensures HasRecord(list + [rec], id)
  {
    hide PrintId;
    var list' := list + [rec];
    if HasRecord(list, id) {
      var i :| 0 <= i < |list| && list[i].id == PrintId(id);
      assert list'[i].id == PrintId(id);
    } else {
      assert list'[|list|].id == PrintId(id);
    }
  }

  lemma DistinctStill(list: seq<TenantRecord>, rec: TenantRecord)
    requires DistinctKeys(TENANT_KEY, list) && forall r :: r in list ==> r.id != rec.id
    ensures DistinctKeys(TENANT_KEY, list + [rec])
  {
  }

  lemma RecordNext(m: Manager, todo: set<TenantId>, list: seq<TenantRecord>, id: TenantId, rec: TenantRecord)
    requires Partly(m, todo, list) && id in todo && rec.id == PrintId(id)
             && Describes(m.tenants[id].timelines, rec.timelines)
    ensures Partly(m, todo - {id}, list + [rec])
  {
    assert RecordedFrom(m, todo - {id}, rec);
    hide PrintId, Describes, RecordedFrom, HasRecord, DistinctKeys;
    forall r | r in list ensures r.id != rec.id && RecordedFrom(m, todo - {id}, r) {
      FreshTenantKey(m, todo, r, id);
    }
    DistinctStill(list, rec);
    forall o | o in m.tenants && o !in todo - {id} ensures HasRecord(list + [rec], o) {
      HasRecordStill(list, rec, o);
    }
  }

  lemma RecordedDiffer(m: Manager, a: TenantRecord, b: TenantRecord)
    requires RecordedFrom(m, {}, a) && RecordedFrom(m, {}, b) && a.id != b.id
    ensures ParseId(a.id) != ParseId(b.id)
  {
    hide PrintId, ParseId, Describes;
    var x: TenantId :| x in m.tenants && a.id == PrintId(x);
    var y: TenantId :| y in m.tenants && b.id == PrintId(y);
    IdRoundTrip(x);
    IdRoundTrip(y);
  }

  lemma RecordIsListed(recs: seq<TenantRecord>, id: TenantId)
    requires HasRecord(recs, id)
    ensures Listed(recs, id)
  {
    IdRoundTrip(id);
  }

  lemma SortedCaptures(m: Manager, list: seq<TenantRecord>)
    requires Partly(m, {}, list)
    ensures Captures(m, SortBy(TENANT_KEY, list)) && InKeyOrder(TENANT_KEY, SortBy(TENANT_KEY, list))
  {
    SortSorts(TENANT_KEY, list);
    var recs := SortBy(TENANT_KEY, list);
    hide PrintId, ParseId, Describes, Less, SortBy, HasRecord, RecordedFrom, Listed, Captured;
    forall i, j | 0 <= i < j < |recs| ensures ParseId(recs[i].id) != ParseId(recs[j].id) {
      assert TENANT_KEY(recs[i]) == recs[i].id && TENANT_KEY(recs[j]) == recs[j].id;
      LessTotal(recs[i].id, recs[j].id);
      assert recs[i] in list && recs[j] in list;
      RecordedDiffer(m, recs[i], recs[j]);
    }
    forall i | 0 <= i < |recs| ensures Captured(m, recs[i]) {
      assert recs[i] in list;
      RecordedIsCaptured(m, recs[i]);
    }
    forall id | id in m.tenants ensures Listed(recs, id) {
      SameRecords(list, recs, id);
      RecordIsListed(recs, id);
    }
  }

  lemma RecordedIsCaptured(m: Manager, rec: TenantRecord)
    requires RecordedFrom(m, {}, rec)
    ensures Captured(m, rec)
  {
  }

  lemma SameRecords(list: seq<TenantRecord>, recs: seq<TenantRecord>, id: TenantId)
    requires HasRecord(list, id) && forall y :: y in list ==> y in recs
    ensures HasRecord(recs, id)
  {
    hide PrintId;
    var i :| 0 <= i < |list| && list[i].id == PrintId(id);
    assert list[i] in recs;
  }

  /** The registry of tenants. */
  class TenantManager {
    var tenants: map<TenantId, Tenant>
    const freezeThreshold: nat

    ghost function Value(): Manager
      reads this
    {
      Manager(tenants, freezeThreshold)
    }

    constructor (freezeThreshold: nat)
      ensures Value() == Manager(map[], freezeThreshold)
    {
      tenants := map[];
      this.freezeThreshold := freezeThreshold;
    }

    /** Capture the current topology, in the order of the printed ids. */
    method Snapshot() returns (c: Catalog)
      ensures c.version == 1 && Captures(Value(), c.tenants) && InKeyOrder(TENANT_KEY, c.tenants)
    {
      hide PrintId, Describes, InKeyOrder, Captures, HasRecord, RecordedFrom;
      var list: seq<TenantRecord> := [];
      var todo := tenants.Keys;
      while todo != {}
        invariant Partly(Value(), todo, list)
      {
        var id :| id in todo;
        var timelines := SnapshotTimelines(tenants[id].timelines);
        RecordNext(Value(), todo, list, id, TenantRecord(PrintId(id), timelines));
        list := list + [TenantRecord(PrintId(id), timelines)];
        todo := todo - {id};
      }
      SortedCaptures(Value(), list);
      c := Catalog(1, SortBy(TENANT_KEY, list));
    }

    /** Rebuild tenants and timelines from a catalog. */
    method Restore(c: Catalog)
      modifies this
      ensures Value() == RestoreAll(old(Value()), c.tenants)
    {
      hide Settle, ParseId;
      var recs := c.tenants;
      for i := 0 to |recs|
        invariant RestoreAll(Value(), recs[i..]) == RestoreAll(old(Value()), recs)
      {
        assert recs[i..][1..] == recs[i + 1..];
        var id := ParseId(recs[i].id);
        if id.Some? {
          var tenant := GetOrCreate(Manager(tenants, freezeThreshold), id.value);
          var t, orphans := RestoreTimelines(tenant, recs[i].timelines);
          tenants := tenants[id.value := t];
        }
      }
    }
  }
}
