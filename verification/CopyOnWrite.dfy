/**
 * Copy-on-write branching means what it promises: a read on a branch is a read of one
 * flattened history, and writing to a timeline is invisible wherever it should be.
 */
module CopyOnWrite {
  import opened Common
  import opened Pages
  import opened Redo
  import opened RepositorySpec
  import opened TenantSpec
  import opened GcTransparency

  // ---- Reads equal one flattened history ----

  /** The ancestors' versions, each cut at its branch point, then the timeline's own. */
  function Flattened(ts: Timelines, id: TimelineId, page: PageKey, lsn: Lsn): seq<Versioned>
    requires Rooted(ts) && id in ts
    decreases ts[id].depth
  {
    var t := ts[id];
    (if t.ancestor.None? then [] else Flattened(ts, t.ancestor.value.parent, page, t.ancestor.value.lsn)) +
    Range(View(t.repo), page, lsn)
  }

  /** Stores hold each `(page, LSN)` once and branches are written at or after their branch point. */
  ghost predicate WellWritten(ts: Timelines) {
    && (forall id :: id in ts ==> WrittenOnce(ts[id].repo))
    && (forall id, k :: id in ts && ts[id].ancestor.Some? && k in View(ts[id].repo) ==>
      ts[id].ancestor.value.lsn <= k.lsn)
  }

  /** One level: own versions over the inherited page read like own versions after its history. */
  lemma ReadOverHistory(redo: RecordRedo, repo: Repo, page: PageKey, lsn: Lsn, branchPoint: Lsn,
                        inherited: seq<Versioned>)
    requires WrittenOnce(repo) && forall k :: k in View(repo) ==> branchPoint <= k.lsn
    ensures ReadOver(redo, repo, page, lsn, branchPoint, ToLookup(Reconstruct(redo, page, inherited))) ==
            ToLookup(Reconstruct(redo, page, inherited + Range(View(repo), page, lsn)))
  {
    hide GetPageWithBase, View, Range, Reconstruct, WrittenOnce;
    var own := Range(View(repo), page, lsn);
    ReadIsScan(redo, repo, page, lsn);
    ReconstructFinds(redo, page, own);
    if LastBase(own).Some? {
      OnlyFromBase(redo, page, inherited, own);
    } else {
      StagedReconstruct(redo, page, branchPoint, inherited, own);
      var r := Reconstruct(redo, page, inherited);
      if r.Ok? && r.value.Some? {
        ReadOverBaseIsScan(redo, repo, page, lsn, (branchPoint, r.value.value));
        RangeLists(View(repo), page, lsn);
        assert own != [] ==> own[0] in own && VersionKey(page, own[0].0) in View(repo);
      }
    }
  }

  lemma ReconstructFinds(redo: RecordRedo, page: PageKey, vs: seq<Versioned>)
    ensures Reconstruct(redo, page, vs) == Ok(None) <==> LastBase(vs).None?
  {
    if LastBase(vs).Some? {
      ReplaySome(redo, page, None, vs[LastBase(vs).value..]);
    }
  }

  /** At any branch depth and for every redo backend: page, absence and error all agree. */
  lemma {:induction false} ReadIsFlattened(redo: RecordRedo, ts: Timelines, id: TimelineId, page: PageKey, lsn: Lsn)
    requires Rooted(ts) && WellWritten(ts) && id in ts
    ensures GetPage(redo, ts, id, page, lsn) == ToLookup(Reconstruct(redo, page, Flattened(ts, id, page, lsn)))
    decreases ts[id].depth
  {
    hide Range, View, Reconstruct, WrittenOnce, GetPageWithBase, ReadOver, ToLookup;
    var t := ts[id];
    if t.ancestor.None? {
      ReadIsScan(redo, t.repo, page, lsn);
      assert [] + Range(View(t.repo), page, lsn) == Range(View(t.repo), page, lsn);
    } else {
      var a := t.ancestor.value;
      ReadIsFlattened(redo, ts, a.parent, page, a.lsn);
      ReadOverHistory(redo, t.repo, page, lsn, a.lsn, Flattened(ts, a.parent, page, a.lsn));
    }
  }

  // ---- When that history is the state as of the requested LSN ----

  /** The versions a reader at `lsn` should see: nothing on any ancestor later than `lsn`. */
  function AsOf(ts: Timelines, id: TimelineId, page: PageKey, lsn: Lsn): seq<Versioned>
    requires Rooted(ts) && id in ts
    decreases ts[id].depth
  {
    var t := ts[id];
    (if t.ancestor.None? then [] else AsOf(ts, t.ancestor.value.parent, page, Min(lsn, t.ancestor.value.lsn))) +
    Range(View(t.repo), page, lsn)
  }

  /** Branch points do not decrease going down the chain to `id`. */
  ghost predicate Monotone(ts: Timelines, id: TimelineId)
    requires Rooted(ts) && id in ts
    decreases ts[id].depth
  {
    ts[id].ancestor.Some? ==>
      var a := ts[id].ancestor.value;
      && (ts[a.parent].ancestor.Some? ==> ts[a.parent].ancestor.value.lsn <= a.lsn)
      && Monotone(ts, a.parent)
  }

  ghost predicate WrittenBetween(m: Versions, page: PageKey, lo: Lsn, hi: Lsn) {
    exists l: Lsn :: lo < l <= hi && VersionKey(page, l) in m
  }

  /**
   * Some timeline of the chain holds a version of `page` that a read up to `upto` finds,
   * although it is later than the state as of `asOf`.
   */
  ghost predicate Ahead(ts: Timelines, id: TimelineId, page: PageKey, asOf: Lsn, upto: Lsn)
    requires Rooted(ts) && id in ts
    decreases ts[id].depth
  {
    || WrittenBetween(View(ts[id].repo), page, asOf, upto)
    || (ts[id].ancestor.Some? &&
        var a := ts[id].ancestor.value; Ahead(ts, a.parent, page, Min(asOf, a.lsn), a.lsn))
  }

  lemma {:induction false} RangeGrows(m: Versions, page: PageKey, lo: Lsn, hi: Lsn)
    requires lo <= hi
    ensures Range(m, page, lo) <= Range(m, page, hi)
    ensures |Range(m, page, lo)| == |Range(m, page, hi)| <==> !WrittenBetween(m, page, lo, hi)
    decreases hi
  {
    if lo < hi {
      RangeGrows(m, page, lo, hi - 1);
      if VersionKey(page, hi) !in m && WrittenBetween(m, page, lo, hi) {
        assert WrittenBetween(m, page, lo, hi - 1);
      }
    }
  }

  /** A read never misses what exists as of the LSN; it has nothing else exactly if nothing is ahead. */
  lemma {:induction false} CutsCompare(ts: Timelines, id: TimelineId, page: PageKey, asOf: Lsn, upto: Lsn)
    requires Rooted(ts) && id in ts && asOf <= upto
    ensures |AsOf(ts, id, page, asOf)| <= |Flattened(ts, id, page, upto)|
    ensures |AsOf(ts, id, page, asOf)| == |Flattened(ts, id, page, upto)| <==> !Ahead(ts, id, page, asOf, upto)
    ensures !Ahead(ts, id, page, asOf, upto) ==> Flattened(ts, id, page, upto) == AsOf(ts, id, page, asOf)
    decreases ts[id].depth
  {
    hide View, Range, WrittenBetween;
    RangeGrows(View(ts[id].repo), page, asOf, upto);
    if ts[id].ancestor.Some? {
      var a := ts[id].ancestor.value;
      CutsCompare(ts, a.parent, page, Min(asOf, a.lsn), a.lsn);
    }
  }

  /** The flattened history is the history as of the LSN if and only if no version on the chain is ahead of it. */
  lemma AsOfIff(ts: Timelines, id: TimelineId, page: PageKey, lsn: Lsn)
    requires Rooted(ts) && id in ts
    ensures Flattened(ts, id, page, lsn) == AsOf(ts, id, page, lsn) <==> !Ahead(ts, id, page, lsn, lsn)
  {
    CutsCompare(ts, id, page, lsn, lsn);
  }

  lemma {:induction false} MonotoneNotAhead(ts: Timelines, id: TimelineId, page: PageKey, lsn: Lsn)
    requires Rooted(ts) && id in ts && Monotone(ts, id)
    requires ts[id].ancestor.Some? ==> ts[id].ancestor.value.lsn <= lsn
    ensures !Ahead(ts, id, page, lsn, lsn)
    decreases ts[id].depth
  {
    if ts[id].ancestor.Some? {
      MonotoneNotAhead(ts, ts[id].ancestor.value.parent, page, ts[id].ancestor.value.lsn);
    }
  }

  /** At or above the branch point of a chain with non-decreasing branch points, nothing is ever ahead. */
  lemma FlattenedIsAsOf(ts: Timelines, id: TimelineId, page: PageKey, lsn: Lsn)
    requires Rooted(ts) && id in ts && Monotone(ts, id)
    requires ts[id].ancestor.Some? ==> ts[id].ancestor.value.lsn <= lsn
    ensures Flattened(ts, id, page, lsn) == AsOf(ts, id, page, lsn)
  {
    MonotoneNotAhead(ts, id, page, lsn);
    AsOfIff(ts, id, page, lsn);
  }

  ghost predicate NonDecreasing(s: seq<Versioned>) {
    forall i, j :: 0 <= i < j < |s| ==> s[i].0 <= s[j].0
  }

  /** There it is also one linear history: in LSN order and not past `lsn`. */
  lemma {:induction false} FlattenedIsLinear(ts: Timelines, id: TimelineId, page: PageKey, lsn: Lsn)
    requires Rooted(ts) && WellWritten(ts) && id in ts && Monotone(ts, id)
    requires ts[id].ancestor.Some? ==> ts[id].ancestor.value.lsn <= lsn
    ensures NonDecreasing(Flattened(ts, id, page, lsn))
    ensures forall v :: v in Flattened(ts, id, page, lsn) ==> v.0 <= lsn
    decreases ts[id].depth
  {
    hide View, Range, WrittenOnce;
    var t := ts[id];
    var own := Range(View(t.repo), page, lsn);
    RangeLists(View(t.repo), page, lsn);
    if t.ancestor.Some? {
      var a := t.ancestor.value;
      FlattenedIsLinear(ts, a.parent, page, a.lsn);
      var inherited := Flattened(ts, a.parent, page, a.lsn);
      forall i, j | 0 <= i < |inherited| && 0 <= j < |own| ensures inherited[i].0 <= own[j].0 {
        assert inherited[i] in inherited && own[j] in own;
      }
    }
  }

  lemma {:induction false} EmptyScan(m: Versions, page: PageKey, lsn: Lsn)
    requires forall l: Lsn :: l <= lsn ==> VersionKey(page, l) !in m
    ensures Range(m, page, lsn) == []
    decreases lsn
  {
    if lsn > 0 {
      EmptyScan(m, page, lsn - 1);
    }
  }

  lemma {:induction false} OneVersionScan(page: PageKey, at: Lsn, v: PageVersion, lsn: Lsn)
    ensures Range(map[VersionKey(page, at) := v], page, lsn) == if at <= lsn then [(at, v)] else []
    decreases lsn
  {
    if lsn > 0 {
      OneVersionScan(page, at, v, lsn - 1);
    }
  }

  lemma SingleImage(redo: RecordRedo, page: PageKey, lsn: Lsn, image: Page)
    ensures Reconstruct(redo, page, [(lsn, Image(image))]) == Ok(Some(image))
    ensures Reconstruct(redo, page, []) == Ok(None)
  {
    var only: seq<Versioned> := [(lsn, Image(image))];
    assert LastBase(only) == Some(0) && only[0..] == only && |only[1..]| == 0;
    assert ReplayOne(redo, page, None, only[0]) == Ok(image);
    assert Replay(redo, page, Some(image), only[1..]) == Ok(Some(image));
  }

  // ---- Branch isolation ----

  /** The LSN at which the chain from `id` leaves `src`, if `id` descends from it. */
  function BranchPointOff(ts: Timelines, id: TimelineId, src: TimelineId): Option<Lsn>
    requires Rooted(ts) && id in ts
    decreases ts[id].depth
  {
    if ts[id].ancestor.None? then None
    else if ts[id].ancestor.value.parent == src then Some(ts[id].ancestor.value.lsn)
    else BranchPointOff(ts, ts[id].ancestor.value.parent, src)
  }

  /** Whether a read on `id` at `lsn` can reach versions of `src` at or above `m`. */
  ghost predicate Exposed(ts: Timelines, id: TimelineId, lsn: Lsn, src: TimelineId, m: Lsn)
    requires Rooted(ts) && id in ts
  {
    if id == src then m <= lsn
    else BranchPointOff(ts, id, src).Some? && m <= BranchPointOff(ts, id, src).value
  }

  ghost predicate SameVersionsBelow(a: Versions, b: Versions, m: Lsn) {
    && (forall k: VersionKey :: k.lsn < m ==> (k in a <==> k in b))
    && (forall k: VersionKey :: k.lsn < m && k in a ==> a[k] == b[k])
  }

  ghost predicate SameSizesBelow(a: map<(RelTag, Lsn), nat>, b: map<(RelTag, Lsn), nat>, m: Lsn) {
    && (forall rel, l :: l < m ==> ((rel, l) in a <==> (rel, l) in b))
    && (forall rel, l :: l < m && (rel, l) in a ==> a[(rel, l)] == b[(rel, l)])
  }

  /** Two stores that hold the same versions and sizes below `m`. */
  ghost predicate SameBelow(r: Repo, r': Repo, m: Lsn) {
    && WrittenOnce(r) && WrittenOnce(r')
    && SameVersionsBelow(View(r), View(r'), m)
    && SameSizesBelow(r.relSizes, r'.relSizes, m)
  }

  lemma SameBelowReads(redo: RecordRedo, r: Repo, r': Repo, m: Lsn, page: PageKey, lsn: Lsn)
    requires SameBelow(r, r', m) && lsn < m
    ensures forall base :: GetPageWithBase(redo, r, page, lsn, base) == GetPageWithBase(redo, r', page, lsn, base)
    ensures forall rel :: LatestSize(r.relSizes, rel, lsn) == LatestSize(r'.relSizes, rel, lsn)
  {
    var _, _, _ := RangeAgree(View(r), View(r'), page, 0, lsn);
    forall base ensures GetPageWithBase(redo, r, page, lsn, base) == GetPageWithBase(redo, r', page, lsn, base) {
      if base.None? {
        ReadIsScan(redo, r, page, lsn);
        ReadIsScan(redo, r', page, lsn);
      } else {
        ReadOverBaseIsScan(redo, r, page, lsn, base.value);
        ReadOverBaseIsScan(redo, r', page, lsn, base.value);
      }
    }
    forall rel ensures LatestSize(r.relSizes, rel, lsn) == LatestSize(r'.relSizes, rel, lsn) {
      SameSizes(r.relSizes, r'.relSizes, rel, lsn);
    }
  }

  lemma {:induction false} SameSizes(a: map<(RelTag, Lsn), nat>, b: map<(RelTag, Lsn), nat>, rel: RelTag, lsn: Lsn)
    requires forall l :: l <= lsn ==> ((rel, l) in a <==> (rel, l) in b)
    requires forall l :: l <= lsn && (rel, l) in a ==> a[(rel, l)] == b[(rel, l)]
    ensures LatestSize(a, rel, lsn) == LatestSize(b, rel, lsn)
    decreases lsn
  {
    if lsn > 0 {
      SameSizes(a, b, rel, lsn - 1);
    }
  }

  /** Replacing the store of `src` by one that agrees below `m` changes no unexposed read. */
  lemma {:induction false} UnexposedUnchanged(redo: RecordRedo, t: Tenant, src: TimelineId, repo: Repo, m: Lsn,
      id: TimelineId, page: PageKey, lsn: Lsn)
    requires Rooted(t.timelines) && Rooted(WithRepo(t, src, repo).timelines)
    requires src in t.timelines && id in t.timelines && SameBelow(t.timelines[src].repo, repo, m)
    requires !Exposed(t.timelines, id, lsn, src, m)
    ensures GetPage(redo, WithRepo(t, src, repo).timelines, id, page, lsn) == GetPage(redo, t.timelines, id, page, lsn)
    ensures GetRelSize(WithRepo(t, src, repo).timelines, id, page.rel, lsn) ==
            GetRelSize(t.timelines, id, page.rel, lsn)
    decreases t.timelines[id].depth
  {
    hide SameBelow, GetPageWithBase, LatestSize;
    var ts, ts' := t.timelines, WithRepo(t, src, repo).timelines;
    var a := ts[id].ancestor;
    assert ts'[id].ancestor == a && ts'[id].depth == ts[id].depth;
    if id == src {
      SameBelowReads(redo, ts[src].repo, repo, m, page, lsn);
      if a.Some? {
        AncestorsNotBelow(ts, a.value.parent, src);
        UnexposedUnchanged(redo, t, src, repo, m, a.value.parent, page, a.value.lsn);
      }
    } else {
      assert ts'[id] == ts[id];
      if a.Some? {
        if a.value.parent == src {
          assert a.value.lsn < m;
        }
        UnexposedUnchanged(redo, t, src, repo, m, a.value.parent, page, a.value.lsn);
      }
    }
  }

  /** A shallower timeline cannot descend from a deeper one. */
  lemma {:induction false} AncestorsNotBelow(ts: Timelines, id: TimelineId, src: TimelineId)
    requires Rooted(ts) && id in ts && src in ts && ts[id].depth < ts[src].depth
    ensures BranchPointOff(ts, id, src).None?
    decreases ts[id].depth
  {
    if ts[id].ancestor.Some? {
      AncestorsNotBelow(ts, ts[id].ancestor.value.parent, src);
    }
  }

  lemma IngestOneSameBelow(r0: Repo, r: Repo, mod: Modification, m: Lsn)
    requires SameBelow(r0, r, m) && mod.Key() !in View(r) && m <= mod.lsn
    ensures SameBelow(r0, IngestOne(r, mod), m)
  {
    IngestOneView(r, mod);
    assert IngestOne(r, mod).relSizes == TrackSize(r.relSizes, mod);
    hide IngestOne, View, WrittenOnce, SameSizesBelow, SameVersionsBelow, TrackSize;
    TrackSizeSameBelow(r0.relSizes, r.relSizes, mod, m);
    UpdateSameBelow(View(r0), View(r), mod.Key(), mod.version, m);
  }

  lemma TrackSizeSameBelow(a: map<(RelTag, Lsn), nat>, b: map<(RelTag, Lsn), nat>, mod: Modification, m: Lsn)
    requires SameSizesBelow(a, b, m) && m <= mod.lsn
    ensures SameSizesBelow(a, TrackSize(b, mod), m)
  {
  }

  lemma UpdateSameBelow(a: Versions, b: Versions, k: VersionKey, v: PageVersion, m: Lsn)
    requires SameVersionsBelow(a, b, m) && m <= k.lsn
    ensures SameVersionsBelow(a, b[k := v], m)
  {
  }

  lemma {:induction false} IngestSameBelow(r0: Repo, r: Repo, mods: seq<Modification>, m: Lsn)
    requires SameBelow(r0, r, m) && FreshWrites(mods, View(r))
    requires forall i :: 0 <= i < |mods| ==> m <= mods[i].lsn
    ensures SameBelow(r0, Ingest(r, mods), m)
    decreases |mods|
  {
    if mods != [] {
      IngestOneSameBelow(r0, r, mods[0], m);
      FreshTail(r, mods);
      hide IngestOne, View, WrittenOnce, SameVersionsBelow, SameSizesBelow, FreshWrites;
      IngestSameBelow(r0, IngestOne(r, mods[0]), mods[1..], m);
    }
  }

  /**
   * Ingesting at LSNs from `m` on into `src` (freezes included) changes no read on `src`
   * below `m`, none on timelines that do not descend from `src`, and none on descendants
   * that left `src` below `m`.
   */
  lemma BranchIsolation(redo: RecordRedo, t: Tenant, src: TimelineId, mods: seq<Modification>, m: Lsn,
                        id: TimelineId, page: PageKey, lsn: Lsn)
    requires Rooted(t.timelines) && src in t.timelines && id in t.timelines
    requires WrittenOnce(t.timelines[src].repo) && FreshWrites(mods, View(t.timelines[src].repo))
    requires forall i :: 0 <= i < |mods| ==> m <= mods[i].lsn
    requires id == src ==> lsn < m
    requires id != src ==> BranchPointOff(t.timelines, id, src).None? || BranchPointOff(t.timelines, id, src).value < m
    ensures var t' := Step(t, IngestMods(src, mods));
      && Rooted(t'.timelines) && id in t'.timelines
      && GetPage(redo, t'.timelines, id, page, lsn) == GetPage(redo, t.timelines, id, page, lsn)
      && GetRelSize(t'.timelines, id, page.rel, lsn) == GetRelSize(t.timelines, id, page.rel, lsn)
  {
    StepRooted(t, IngestMods(src, mods));
    var repo := t.timelines[src].repo;
    IngestSameBelow(repo, repo, mods, m);
    UnexposedUnchanged(redo, t, src, Ingest(repo, mods), m, id, page, lsn);
  }
}
