/** The repository as it runs: fields updated in place, loops over layers and entries. */
module Repository {
  import opened Common
  import opened Pages
  import opened Redo
  import opened KeyOrder
  import Spec = RepositorySpec

  type Versions = Spec.Versions

  datatype RedoManager = Native | Postgres(process: RecordRedo) {
    /** The record-apply function this backend implements. */
    function Meaning(): RecordRedo {
      if Native? then NATIVE else process
    }
  }

  datatype CompactionStats = CompactionStats(layersBefore: nat, layersAfter: nat, versionsRemoved: nat,
      removedLayerIds: seq<nat>)

  class Store {
    var memtable: Versions
    var relSizes: map<(RelTag, Lsn), nat>
    var layers: seq<Spec.Layer>
    var uploaded: set<nat>
    var nextLayerId: nat
    const freezeThreshold: nat
    const redo: RedoManager

    ghost function State(): Spec.Repo
      reads this
    {
      Spec.Repo(memtable, relSizes, layers, uploaded, nextLayerId, freezeThreshold)
    }

    constructor (freezeThreshold: nat, redo: RedoManager)
      ensures State() == Spec.EmptyRepo(freezeThreshold) && this.redo == redo
    {
      memtable, relSizes, layers, uploaded, nextLayerId := map[], map[], [], {}, 0;
      this.freezeThreshold := freezeThreshold;
      this.redo := redo;
    }

    method FreezeMemtable()
      modifies this
      ensures State() == Spec.Freeze(old(State()))
    {
      if memtable == map[] {
        return;
      }
      var id := nextLayerId;
      nextLayerId := nextLayerId + 1;
      var entries := memtable;
      memtable := map[];
      layers := layers + [Spec.Layer(id, entries)];
    }

    method Ingest(mods: seq<Modification>)
      modifies this
      ensures State() == Spec.Ingest(old(State()), mods)
    {
      hide Spec.IngestOne;
      assert mods[0..] == mods;
      for i := 0 to |mods|
        invariant Spec.Ingest(old(State()), mods) == Spec.Ingest(State(), mods[i..])
      {
        assert mods[i..][0] == mods[i] && mods[i..][1..] == mods[i + 1..];
        IngestModification(mods[i]);
      }
    }

    /** Track the relation's size, store the version, and freeze a full memtable. */
    method IngestModification(m: Modification)
      modifies this
      ensures State() == Spec.IngestOne(old(State()), m)
    {
      hide Spec.LatestSize;
      var prior := Spec.LatestSize(relSizes, m.rel, m.lsn);
      var size := Max(if prior.Some? then prior.value else 0, m.block + 1);
      var slot := if (m.rel, m.lsn) in relSizes then relSizes[(m.rel, m.lsn)] else 0;
      relSizes := relSizes[(m.rel, m.lsn) := Max(slot, size)];
      memtable := memtable[VersionKey(PageKey(m.rel, m.block), m.lsn) := m.version];
      assert State() == Spec.Put(old(State()), m);
      if |memtable| >= freezeThreshold {
        FreezeMemtable();
      }
    }

    method GetPageWithBase(page: PageKey, lsn: Lsn, base: Option<(Lsn, Page)>)
      returns (r: Result<Spec.Lookup, PageError>)
      ensures r == Spec.GetPageWithBase(redo.Meaning(), State(), page, lsn, base)
    {
      hide Spec.Range, Spec.StableSort, Reconstruct;
      var versions: seq<Versioned> := [];
      if base.Some? {
        versions := [(base.value.0, Image(base.value.1))];
      }
      ghost var inherited := versions;
      versions := versions + Spec.Range(memtable, page, lsn);
      for i := 0 to |layers|
        invariant versions == inherited + Spec.Range(memtable, page, lsn) + Spec.LayersRange(layers[..i], page, lsn)
      {
        versions := versions + Spec.Range(layers[i].entries, page, lsn);
        assert layers[..i + 1][..i] == layers[..i];
      }
      assert layers[..|layers|] == layers;
      assert versions == inherited + Spec.Gather(State(), page, lsn);
      versions := Spec.StableSort(versions);
      var result;
      if redo.Native? {
        result := NativeReconstruct(page, versions);
      } else {
        result := BatchedReconstruct(redo.process, page, versions);
      }
      match result
      case Ok(p) => return Ok(if p.Some? then Spec.Found(p.value) else Spec.NotFound);
      case Err(e) => return Err(ToPageError(e));
    }

    method GetRelSize(rel: RelTag, lsn: Lsn) returns (size: Option<nat>)
      ensures size == Spec.LatestSize(relSizes, rel, lsn)
    {
      var l := lsn;
      while (rel, l) !in relSizes && l > 0
        invariant Spec.LatestSize(relSizes, rel, lsn) == Spec.LatestSize(relSizes, rel, l)
      {
        l := l - 1;
      }
      return if (rel, l) in relSizes then Some(relSizes[(rel, l)]) else None;
    }

    /** Merge every frozen layer into one, dropping what no read at `horizon` or later needs. */
    method Compact(horizon: Lsn) returns (stats: CompactionStats)
      modifies this
      ensures State() == Spec.Compact(old(State()), horizon)
      ensures DescribesCompaction(stats, old(layers), layers)
    {
      hide DescribesCompaction, Spec.Compact;
      var compacted;
      CompactKeepsRest(Spec.Repo(memtable, relSizes, layers, uploaded, nextLayerId, freezeThreshold), horizon);
      compacted, stats := CompactRepo(Spec.Repo(memtable, relSizes, layers, uploaded, nextLayerId, freezeThreshold),
        horizon);
      layers, uploaded, nextLayerId := compacted.layers, compacted.uploaded, compacted.nextLayerId;
    }
  }

  lemma CompactKeepsRest(r: Spec.Repo, horizon: Lsn)
    ensures var c := Spec.Compact(r, horizon);
            c.memtable == r.memtable && c.relSizes == r.relSizes && c.freezeThreshold == r.freezeThreshold
  {
  }

  ghost predicate DescribesCompaction(stats: CompactionStats, before: seq<Spec.Layer>, after: seq<Spec.Layer>) {
    && stats.layersBefore == |before| && stats.layersAfter == |after| <= 1
    && stats.versionsRemoved == |Spec.LayersView(before)| - |Spec.LayersView(after)|
    && |stats.removedLayerIds| == |before|
    && forall i :: 0 <= i < |before| ==> stats.removedLayerIds[i] == before[i].id
  }

  method CompactRepo(r: Spec.Repo, horizon: Lsn) returns (c: Spec.Repo, stats: CompactionStats)
    ensures c == Spec.Compact(r, horizon)
    ensures DescribesCompaction(stats, r.layers, c.layers)
  {
    if r.layers == [] {
      return r, CompactionStats(0, 0, 0, []);
    }
    c, stats := MergeAndPrune(r, horizon);
  }

  method MergeAndPrune(r: Spec.Repo, horizon: Lsn) returns (c: Spec.Repo, stats: CompactionStats)
    requires r.layers != []
    ensures c == Spec.Compact(r, horizon)
    ensures DescribesCompaction(stats, r.layers, c.layers)
  {
    hide Spec.LayersView, Spec.Prune, Spec.LayerIds, Elements, DescribesCompaction;
    var removed := LayerIdList(r.layers);
    var merged := MergeLayers(r.layers);
    var kept := PruneMerged(merged, horizon);
    PruneShrinks(merged, horizon);
    var layers := if kept == map[] then [] else [Spec.Layer(r.nextLayerId, kept)];
    var nextLayerId := if kept == map[] then r.nextLayerId else r.nextLayerId + 1;
    var uploaded := Forget(r.uploaded, removed);
    c := r.(layers := layers, nextLayerId := nextLayerId, uploaded := uploaded);
    stats := CompactionStats(|r.layers|, |layers|, |merged| - |kept|, removed);
    StatsDescribe(stats, r.layers, layers, kept);
  }

  lemma StatsDescribe(stats: CompactionStats, before: seq<Spec.Layer>, after: seq<Spec.Layer>, kept: Versions)
    requires |after| <= 1 && (if after == [] then kept == map[] else after[0].entries == kept)
    requires stats.layersBefore == |before| && stats.layersAfter == |after| && |stats.removedLayerIds| == |before|
    requires stats.versionsRemoved == |Spec.LayersView(before)| - |kept|
    requires forall i :: 0 <= i < |before| ==> stats.removedLayerIds[i] == before[i].id
    ensures DescribesCompaction(stats, before, after)
  {
    SingleLayerView(after, kept);
    hide Spec.LayersView;
  }

  method LayerIdList(layers: seq<Spec.Layer>) returns (ids: seq<nat>)
    ensures |ids| == |layers| && forall i :: 0 <= i < |ids| ==> ids[i] == layers[i].id
    ensures Elements(ids) == Spec.LayerIds(layers)
  {
    ids := seq(|layers|, i requires 0 <= i < |layers| => layers[i].id);
    forall x ensures x in Elements(ids) <==> x in Spec.LayerIds(layers) {
      if x in Spec.LayerIds(layers) {
        var i :| 0 <= i < |layers| && layers[i].id == x;
        assert ids[i] == x;
      }
    }
  }

  function Elements(ids: seq<nat>): set<nat> {
    set j | 0 <= j < |ids| :: ids[j]
  }

  lemma SingleLayerView(layers: seq<Spec.Layer>, kept: Versions)
    requires (layers == [] && kept == map[]) || (|layers| == 1 && layers[0].entries == kept)
    ensures Spec.LayersView(layers) == kept
  {
  }

  method Forget(uploaded: set<nat>, ids: seq<nat>) returns (left: set<nat>)
    ensures left == uploaded - Elements(ids)
  {
    left := uploaded;
    for i := 0 to |ids|
      invariant left == uploaded - Elements(ids[..i])
    {
      left := left - {ids[i]};
      assert Elements(ids[..i + 1]) == Elements(ids[..i]) + {ids[i]} by {
        assert ids[..i + 1][i] == ids[i] && forall j :: 0 <= j < i ==> ids[..i + 1][j] == ids[..i][j];
      }
    }
    assert ids[..|ids|] == ids;
  }

  method PruneMerged(merged: Versions, horizon: Lsn) returns (kept: Versions)
    ensures kept == Spec.Prune(merged, horizon)
  {
    var bases := LatestBases(merged, horizon);
    kept := DropBelow(merged, bases);
    hide Spec.LatestBase;
  }

  lemma PruneShrinks(m: Versions, horizon: Lsn)
    ensures |Spec.Prune(m, horizon)| <= |m|
  {
    SubsetSize(Spec.Prune(m, horizon).Keys, m.Keys);
  }

  method MergeLayers(layers: seq<Spec.Layer>) returns (merged: Versions)
    ensures merged == Spec.LayersView(layers)
  {
    merged := map[];
    for i := 0 to |layers|
      invariant merged == Spec.LayersView(layers[..i])
    {
      merged := merged + layers[i].entries;
      assert layers[..i + 1][..i] == layers[..i];
    }
    assert layers[..|layers|] == layers;
  }

  /** One ascending scan over the merged entries; for each page the latest base wins. */
  method LatestBases(merged: Versions, horizon: Lsn) returns (bases: map<PageKey, Lsn>)
    ensures forall p :: (if p in bases then Some(bases[p]) else None) == Spec.LatestBase(merged, p, horizon)
  {
    hide SortedKeys, Less, Spec.LatestBase;
    bases := map[];
    var keys := SortedKeys(merged.Keys);
    ghost var at: map<PageKey, nat> := map[];
    for i := 0 to |keys|
      invariant forall p :: p in bases ==> p in at && at[p] < i && keys[at[p]] == VersionKey(p, bases[p])
      invariant forall p :: p in bases ==> IsBaseAt(merged, VersionKey(p, bases[p]), horizon)
      invariant forall j :: 0 <= j < i && IsBaseAt(merged, keys[j], horizon) ==>
                  keys[j].page in bases && keys[j].lsn <= bases[keys[j].page]
    {
      var k := keys[i];
      if k.lsn <= horizon && merged[k].IsBase() {
        if k.page in bases {
          assert Less(keys[at[k.page]], keys[i]);
          SamePageByLsn(keys[at[k.page]], keys[i]);
        }
        bases, at := bases[k.page := k.lsn], at[k.page := i];
      }
    }
    BasesAreLatest(merged, horizon, keys, bases);
  }

  predicate IsBaseAt(m: Versions, k: VersionKey, horizon: Lsn) {
    k in m && k.lsn <= horizon && m[k].IsBase()
  }

  lemma BasesAreLatest(merged: Versions, horizon: Lsn, keys: seq<VersionKey>, bases: map<PageKey, Lsn>)
    requires forall k :: k in merged ==> k in keys
    requires forall p :: p in bases ==> IsBaseAt(merged, VersionKey(p, bases[p]), horizon)
    requires forall j :: 0 <= j < |keys| && IsBaseAt(merged, keys[j], horizon) ==>
               keys[j].page in bases && keys[j].lsn <= bases[keys[j].page]
    ensures forall p :: (if p in bases then Some(bases[p]) else None) == Spec.LatestBase(merged, p, horizon)
  {
  }

  method DropBelow(merged: Versions, bases: map<PageKey, Lsn>) returns (kept: Versions)
    ensures kept == map k | k in merged && (k.page in bases ==> bases[k.page] <= k.lsn) :: merged[k]
  {
    hide SortedKeys, Less;
    var keys := SortedKeys(merged.Keys);
    var drop: seq<VersionKey> := [];
    for i := 0 to |keys|
      invariant forall k :: k in drop ==> k.page in bases && k.lsn < bases[k.page]
      invariant forall j :: 0 <= j < i && keys[j].page in bases && keys[j].lsn < bases[keys[j].page] ==> keys[j] in drop
    {
      if keys[i].page in bases && keys[i].lsn < bases[keys[i].page] {
        drop := drop + [keys[i]];
      }
    }
    kept := merged;
    for i := 0 to |drop|
      invariant forall k :: k in kept ==> k in merged && kept[k] == merged[k]
      invariant forall k :: k in merged && k !in drop ==> k in kept
      invariant forall j :: 0 <= j < i ==> drop[j] !in kept
    {
      kept := kept - {drop[i]};
    }
  }
}
