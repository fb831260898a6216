/**
 * The log-structured repository as a value: a memtable, frozen layers and relation sizes,
 * with ingest, freeze, compaction and reconstruction as functions of that value.
 */
module RepositorySpec {
  import opened Common
  import opened Pages
  import opened Redo

  type Versions = map<VersionKey, PageVersion>

  datatype Layer = Layer(id: nat, entries: Versions)

  datatype Repo = Repo(
    memtable: Versions,
    relSizes: map<(RelTag, Lsn), nat>,
    layers: seq<Layer>,
    uploaded: set<nat>,
    nextLayerId: nat,
    freezeThreshold: nat)

  datatype Lookup = Found(page: Page) | NotFound

  function EmptyRepo(freezeThreshold: nat): Repo {
    Repo(map[], map[], [], {}, 0, freezeThreshold)
  }

  // ---- Ordered scans ----

  /** A `BTreeMap` range scan: the versions of `page` with LSN at most `lsn`, ascending. */
  function Range(m: Versions, page: PageKey, lsn: Lsn): seq<Versioned>
    decreases lsn
  {
    (if lsn == 0 then [] else Range(m, page, lsn - 1)) +
    (if VersionKey(page, lsn) in m then [(lsn, m[VersionKey(page, lsn)])] else [])
  }

  function LayersRange(layers: seq<Layer>, page: PageKey, lsn: Lsn): seq<Versioned> {
    if layers == [] then []
    else LayersRange(layers[..|layers| - 1], page, lsn) + Range(layers[|layers| - 1].entries, page, lsn)
  }

  /** Versions in the order the read path collects them: memtable, then every layer. */
  function Gather(r: Repo, page: PageKey, lsn: Lsn): seq<Versioned> {
    Range(r.memtable, page, lsn) + LayersRange(r.layers, page, lsn)
  }

  /** Insert before the first version at an equal or later LSN, so that sorting is stable. */
  function Insert(v: Versioned, s: seq<Versioned>): seq<Versioned> {
    if s == [] || v.0 <= s[0].0 then [v] + s else [s[0]] + Insert(v, s[1..])
  }

  /** A stable sort by LSN. */
  function StableSort(s: seq<Versioned>): seq<Versioned> {
    if s == [] then [] else Insert(s[0], StableSort(s[1..]))
  }

  // ---- Operations ----

  /** The size entry with the largest LSN at most `lsn`. */
  function LatestSize(sizes: map<(RelTag, Lsn), nat>, rel: RelTag, lsn: Lsn): Option<nat>
    decreases lsn
  {
    if (rel, lsn) in sizes then Some(sizes[(rel, lsn)])
    else if lsn == 0 then None
    else LatestSize(sizes, rel, lsn - 1)
  }

  function TrackSize(sizes: map<(RelTag, Lsn), nat>, m: Modification): map<(RelTag, Lsn), nat> {
    var prior := LatestSize(sizes, m.rel, m.lsn);
    var size := Max(if prior.Some? then prior.value else 0, m.block + 1);
    var slot := if (m.rel, m.lsn) in sizes then sizes[(m.rel, m.lsn)] else 0;
    sizes[(m.rel, m.lsn) := Max(slot, size)]
  }

  function Freeze(r: Repo): Repo {
    if r.memtable == map[] then r
    else r.(memtable := map[],
            layers := r.layers + [Layer(r.nextLayerId, r.memtable)],
            nextLayerId := r.nextLayerId + 1)
  }

  /** Record one modification in the memtable, before any freeze. */
  function Put(r: Repo, m: Modification): Repo {
    r.(relSizes := TrackSize(r.relSizes, m), memtable := r.memtable[m.Key() := m.version])
  }

  function IngestOne(r: Repo, m: Modification): Repo {
    var r' := Put(r, m);
    if |r'.memtable| >= r'.freezeThreshold then Freeze(r') else r'
  }

  function Ingest(r: Repo, mods: seq<Modification>): Repo
    decreases |mods|
  {
    if mods == [] then r else Ingest(IngestOne(r, mods[0]), mods[1..])
  }

  /** Every frozen layer merged, later layers winning. */
  function LayersView(layers: seq<Layer>): Versions {
    if layers == [] then map[] else LayersView(layers[..|layers| - 1]) + layers[|layers| - 1].entries
  }

  /** The latest base of `page` at or before `horizon`. */
  function LatestBase(m: Versions, page: PageKey, horizon: Lsn): (b: Option<Lsn>)
    ensures b.Some? ==> b.value <= horizon && VersionKey(page, b.value) in m && m[VersionKey(page, b.value)].IsBase()
    ensures forall l: Lsn :: (b.None? || b.value < l) && l <= horizon && VersionKey(page, l) in m ==>
              !m[VersionKey(page, l)].IsBase()
    decreases horizon
  {
    var k := VersionKey(page, horizon);
    if k in m && m[k].IsBase() then Some(horizon)
    else if horizon == 0 then None
    else LatestBase(m, page, horizon - 1)
  }

  predicate Retained(m: Versions, k: VersionKey, horizon: Lsn) {
    var b := LatestBase(m, k.page, horizon);
    b.None? || b.value <= k.lsn
  }

  function Prune(m: Versions, horizon: Lsn): Versions {
    map k | k in m && Retained(m, k, horizon) :: m[k]
  }

  function LayerIds(layers: seq<Layer>): set<nat> {
    set i | 0 <= i < |layers| :: layers[i].id
  }

  function Compact(r: Repo, horizon: Lsn): Repo {
    if r.layers == [] then r
    else
      var kept := Prune(LayersView(r.layers), horizon);
      r.(layers := if kept == map[] then [] else [Layer(r.nextLayerId, kept)],
         nextLayerId := if kept == map[] then r.nextLayerId else r.nextLayerId + 1,
         uploaded := r.uploaded - LayerIds(r.layers))
  }

  /** Reconstruct `page` at `lsn`, optionally over a base image inherited at another LSN. */
  function GetPageWithBase(redo: RecordRedo, r: Repo, page: PageKey, lsn: Lsn,
                           base: Option<(Lsn, Page)>): Result<Lookup, PageError> {
    var inherited: seq<Versioned> := if base.Some? then [(base.value.0, Image(base.value.1))] else [];
    ToLookup(Reconstruct(redo, page, StableSort(inherited + Gather(r, page, lsn))))
  }

  function ToLookup(r: Result<Option<Page>, RedoError>): Result<Lookup, PageError> {
    match r
    case Ok(p) => Ok(if p.Some? then Found(p.value) else NotFound)
    case Err(e) => Err(ToPageError(e))
  }

  // ---- The repository as one map of versions ----

  /** All stored versions. Under `WrittenOnce` this is the repository's whole meaning. */
  function View(r: Repo): Versions {
    LayersView(r.layers) + r.memtable
  }

  /** No `(page, LSN)` is stored twice, neither across layers nor in memtable and layer. */
  ghost predicate WrittenOnce(r: Repo) {
    && (forall i, j :: 0 <= i < j < |r.layers| ==> r.layers[i].entries.Keys !! r.layers[j].entries.Keys)
    && (forall i :: 0 <= i < |r.layers| ==> r.memtable.Keys !! r.layers[i].entries.Keys)
  }

  lemma {:induction false} LayersViewKeys(layers: seq<Layer>, k: VersionKey)
    ensures k in LayersView(layers) <==> exists i :: 0 <= i < |layers| && k in layers[i].entries
  {
    if layers != [] {
      var init := layers[..|layers| - 1];
      LayersViewKeys(init, k);
      if k in LayersView(init) {
        var i :| 0 <= i < |init| && k in init[i].entries;
        assert k in layers[i].entries;
      } else if k in layers[|layers| - 1].entries {
      } else if exists i :: 0 <= i < |layers| && k in layers[i].entries {
        var i :| 0 <= i < |layers| && k in layers[i].entries;
        assert k in init[i].entries;
      }
    }
  }

  lemma {:induction false} LayersViewValue(layers: seq<Layer>, i: nat, k: VersionKey)
    requires i < |layers| && k in layers[i].entries
    requires forall a, b :: 0 <= a < b < |layers| ==> layers[a].entries.Keys !! layers[b].entries.Keys
    ensures k in LayersView(layers) && LayersView(layers)[k] == layers[i].entries[k]
  {
    if i < |layers| - 1 {
      var init := layers[..|layers| - 1];
      LayersViewValue(init, i, k);
      assert layers[i].entries.Keys !! layers[|layers| - 1].entries.Keys;
    }
  }

  // ---- Reading is scanning the view ----

  ghost predicate Ascending(s: seq<Versioned>) {
    forall i, j :: 0 <= i < j < |s| ==> s[i].0 < s[j].0
  }

  ghost predicate DistinctLsns(s: seq<Versioned>) {
    forall i, j :: 0 <= i < j < |s| ==> s[i].0 != s[j].0
  }

  /** `s` holds exactly the versions of `page` in `m` up to `lsn`. */
  ghost predicate Lists(s: seq<Versioned>, m: Versions, page: PageKey, lsn: Lsn) {
    forall v: Versioned :: v in s <==> v.0 <= lsn && VersionKey(page, v.0) in m && m[VersionKey(page, v.0)] == v.1
  }

  lemma {:induction false} RangeLists(m: Versions, page: PageKey, lsn: Lsn)
    ensures Lists(Range(m, page, lsn), m, page, lsn)
    ensures Ascending(Range(m, page, lsn))
    decreases lsn
  {
    if lsn > 0 {
      RangeLists(m, page, lsn - 1);
      var prefix := Range(m, page, lsn - 1);
      forall i | 0 <= i < |prefix| ensures prefix[i].0 < lsn {
        assert prefix[i] in prefix;
      }
    }
  }

  /** Ascending listings with the same members are the same list. */
  lemma {:induction false} AscendingUnique(s: seq<Versioned>, t: seq<Versioned>)
    requires Ascending(s) && Ascending(t)
    requires forall x :: x in s <==> x in t
    ensures s == t
  {
    assert s != [] ==> s[0] in t;
    assert t != [] ==> t[0] in s;
    if s != [] && t != [] {
      assert s[0] in t && t[0] in s;
      assert s[0] == t[0];
      TailMembers(s);
      TailMembers(t);
      AscendingUnique(s[1..], t[1..]);
      assert s == [s[0]] + s[1..] && t == [t[0]] + t[1..];
    }
  }

  lemma TailMembers(s: seq<Versioned>)
    requires Ascending(s) && s != []
    ensures forall x :: x in s[1..] <==> x in s && x.0 > s[0].0
  {
  }

  lemma {:induction false} InsertAscending(v: Versioned, s: seq<Versioned>)
    requires Ascending(s) && forall i :: 0 <= i < |s| ==> s[i].0 != v.0
    ensures Ascending(Insert(v, s))
    ensures forall x :: x in Insert(v, s) <==> x == v || x in s
  {
    if s != [] && v.0 > s[0].0 {
      InsertAscending(v, s[1..]);
      var t := Insert(v, s[1..]);
      forall i | 0 <= i < |t| ensures s[0].0 < t[i].0 {
        assert t[i] in t;
      }
      assert s == [s[0]] + s[1..];
    }
  }

  lemma {:induction false} SortAscending(s: seq<Versioned>)
    requires DistinctLsns(s)
    ensures Ascending(StableSort(s))
    ensures forall x :: x in StableSort(s) <==> x in s
  {
    if s != [] {
      SortAscending(s[1..]);
      var t := StableSort(s[1..]);
      forall i | 0 <= i < |t| ensures t[i].0 != s[0].0 {
        assert t[i] in s[1..];
      }
      InsertAscending(s[0], t);
      assert s == [s[0]] + s[1..];
    }
  }

  lemma {:induction false} LayersRangeLists(layers: seq<Layer>, page: PageKey, lsn: Lsn)
    requires forall i, j :: 0 <= i < j < |layers| ==> layers[i].entries.Keys !! layers[j].entries.Keys
    ensures Lists(LayersRange(layers, page, lsn), LayersView(layers), page, lsn)
    ensures DistinctLsns(LayersRange(layers, page, lsn))
  {
    if layers != [] {
      var init, last := layers[..|layers| - 1], layers[|layers| - 1];
      LayersRangeLists(init, page, lsn);
      RangeLists(last.entries, page, lsn);
      forall k | k in LayersView(init) ensures k !in last.entries {
        LayersViewKeys(init, k);
        var i :| 0 <= i < |init| && k in init[i].entries;
        assert layers[i].entries.Keys !! layers[|layers| - 1].entries.Keys;
      }
      ConcatLists(LayersRange(init, page, lsn), LayersView(init), Range(last.entries, page, lsn), last.entries, page,
        lsn);
    }
  }

  lemma ConcatLists(a: seq<Versioned>, ma: Versions, b: seq<Versioned>, mb: Versions, page: PageKey, lsn: Lsn)
    requires Lists(a, ma, page, lsn) && DistinctLsns(a)
    requires Lists(b, mb, page, lsn) && DistinctLsns(b)
    requires ma.Keys !! mb.Keys
    ensures Lists(a + b, ma + mb, page, lsn) && DistinctLsns(a + b)
    ensures Lists(a + b, mb + ma, page, lsn)
  {
  }

  /** Where a version sits (memtable or any layer) never matters to a read. */
  lemma GatherIsScan(r: Repo, page: PageKey, lsn: Lsn)
    requires WrittenOnce(r)
    ensures StableSort(Gather(r, page, lsn)) == Range(View(r), page, lsn)
  {
    RangeLists(r.memtable, page, lsn);
    LayersRangeLists(r.layers, page, lsn);
    forall k | k in r.memtable ensures k !in LayersView(r.layers) {
      LayersViewKeys(r.layers, k);
    }
    ConcatLists(Range(r.memtable, page, lsn), r.memtable, LayersRange(r.layers, page, lsn), LayersView(r.layers), page,
      lsn);
    SortAscending(Gather(r, page, lsn));
    RangeLists(View(r), page, lsn);
    AscendingUnique(StableSort(Gather(r, page, lsn)), Range(View(r), page, lsn));
  }

  /** A read without an inherited base is reconstruction from the view. */
  lemma ReadIsScan(redo: RecordRedo, r: Repo, page: PageKey, lsn: Lsn)
    requires WrittenOnce(r)
    ensures GetPageWithBase(redo, r, page, lsn, None) == ToLookup(Reconstruct(redo, page, Range(View(r), page, lsn)))
  {
    GatherIsScan(r, page, lsn);
    assert [] + Gather(r, page, lsn) == Gather(r, page, lsn);
  }

  /** With an inherited base, the base is merged into the scan at its own LSN. */
  lemma ReadOverBaseIsScan(redo: RecordRedo, r: Repo, page: PageKey, lsn: Lsn, base: (Lsn, Page))
    requires WrittenOnce(r)
    ensures GetPageWithBase(redo, r, page, lsn, Some(base)) ==
            ToLookup(Reconstruct(redo, page, Insert((base.0, Image(base.1)), Range(View(r), page, lsn))))
  {
    GatherIsScan(r, page, lsn);
    var all := [(base.0, Image(base.1))] + Gather(r, page, lsn);
    assert all[1..] == Gather(r, page, lsn);
  }

  // ---- Freezing and ingesting, seen through the view ----

  lemma FreezeKeepsView(r: Repo)
    requires WrittenOnce(r)
    ensures WrittenOnce(Freeze(r)) && View(Freeze(r)) == View(r)
  {
  }

  lemma PutView(r: Repo, m: Modification)
    requires WrittenOnce(r) && m.Key() !in View(r)
    ensures WrittenOnce(Put(r, m)) && View(Put(r, m)) == View(r)[m.Key() := m.version]
  {
    LayersViewKeys(r.layers, m.Key());
    forall i | 0 <= i < |r.layers|
      ensures Put(r, m).memtable.Keys !! r.layers[i].entries.Keys
    {
      assert m.Key() !in r.layers[i].entries.Keys;
      assert Put(r, m).memtable.Keys == r.memtable.Keys + {m.Key()};
    }
  }

  lemma IngestOneView(r: Repo, m: Modification)
    requires WrittenOnce(r) && m.Key() !in View(r)
    ensures WrittenOnce(IngestOne(r, m)) && View(IngestOne(r, m)) == View(r)[m.Key() := m.version]
  {
    PutView(r, m);
    FreezeKeepsView(Put(r, m));
  }

  // ---- Compaction, seen through the view ----

  /**
   * Compaction only forgets: what it drops lies strictly below a base, at or before the
   * horizon, that it keeps; everything else is untouched.
   */
  lemma CompactView(r: Repo, horizon: Lsn)
    requires WrittenOnce(r)
    ensures var c := Compact(r, horizon);
      && WrittenOnce(c) && c.memtable == r.memtable && c.relSizes == r.relSizes
      && c.freezeThreshold == r.freezeThreshold
      && (forall k :: k in View(c) ==> k in View(r) && View(c)[k] == View(r)[k])
      && (forall k :: k in View(r) && k !in View(c) ==> CoveredByBase(View(c), k, horizon))
  {
    if r.layers != [] {
      var c, merged := Compact(r, horizon), LayersView(r.layers);
      var kept := Prune(merged, horizon);
      if kept != map[] {
        assert c.layers[..0] == [];
        assert LayersView(c.layers) == map[] + kept == kept;
      }
      assert LayersView(c.layers) == kept;
      forall k | k in r.memtable ensures k !in merged {
        LayersViewKeys(r.layers, k);
      }
      forall k | k in View(r) && k !in View(c) ensures CoveredByBase(View(c), k, horizon) {
        var b := LatestBase(merged, k.page, horizon).value;
        assert VersionKey(k.page, b) in kept;
        assert View(c)[VersionKey(k.page, b)].IsBase();
      }
    }
  }

  /** Some base of the same page, later than `k` but at or before `horizon`, is stored. */
  ghost predicate CoveredByBase(m: Versions, k: VersionKey, horizon: Lsn) {
    exists b: Lsn :: k.lsn < b <= horizon && VersionKey(k.page, b) in m && m[VersionKey(k.page, b)].IsBase()
  }

  /**
   * Compaction keeps exactly what a read at or after the horizon can need: a frozen version
   * survives if and only if no later base of its page lies at or before the horizon.
   */
  lemma CompactKeepsExactly(r: Repo, horizon: Lsn, k: VersionKey)
    ensures k in LayersView(Compact(r, horizon).layers) <==>
              k in LayersView(r.layers) &&
              forall l: Lsn :: k.lsn < l <= horizon && VersionKey(k.page, l) in LayersView(r.layers) ==>
                !LayersView(r.layers)[VersionKey(k.page, l)].IsBase()
  {
    if r.layers != [] {
      var c, merged := Compact(r, horizon), LayersView(r.layers);
      var b := LatestBase(merged, k.page, horizon);
      var kept := Prune(merged, horizon);
      if kept != map[] {
        assert c.layers[..0] == [];
        assert LayersView(c.layers) == map[] + kept == kept;
      }
      hide LatestBase;
      assert k in LayersView(c.layers) <==> k in kept;
    }
  }
}
