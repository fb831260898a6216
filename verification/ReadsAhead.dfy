/** Reads that show the future, in tenants that can really arise. */
module ReadsAhead {
  import opened Common
  import opened Pages
  import opened Redo
  import opened RepositorySpec
  import opened TenantSpec
  import opened CopyOnWrite

  function ImageAt(page: PageKey, image: Page, at: Lsn): Modification {
    Modification(page.rel, page.block, at, Image(image))
  }

  /** A root timeline holding one image of one page. */
  function OneImage(page: PageKey, image: Page, at: Lsn): seq<Op> {
    [Create(0), IngestMods(0, [ImageAt(page, image, at)])]
  }

  function Stored(freezeThreshold: nat, page: PageKey, image: Page, at: Lsn): Repo {
    Ingest(EmptyRepo(freezeThreshold), [ImageAt(page, image, at)])
  }

  lemma StoredView(freezeThreshold: nat, page: PageKey, image: Page, at: Lsn)
    ensures var r := Stored(freezeThreshold, page, image, at);
            WrittenOnce(r) && View(r) == map[VersionKey(page, at) := Image(image)]
  {
    var m, r := ImageAt(page, image, at), EmptyRepo(freezeThreshold);
    assert View(r) == map[];
    IngestOneView(r, m);
    hide View, WrittenOnce, IngestOne;
    assert [m][1..] == [];
    assert Ingest(IngestOne(r, m), []) == IngestOne(r, m);
    assert Stored(freezeThreshold, page, image, at) == IngestOne(r, m);
  }

  function Root(freezeThreshold: nat, page: PageKey, image: Page, at: Lsn): Timeline {
    Timeline(Stored(freezeThreshold, page, image, at), None, 0)
  }

  function Child(freezeThreshold: nat, parent: TimelineId, branchPoint: Lsn, depth: nat): Timeline {
    Timeline(EmptyRepo(freezeThreshold), Some(Ancestor(parent, branchPoint)), depth)
  }

  lemma OneImageRun(freezeThreshold: nat, page: PageKey, image: Page, at: Lsn)
    ensures Run(freezeThreshold, OneImage(page, image, at)) ==
            Tenant(map[0 := Root(freezeThreshold, page, image, at)], freezeThreshold)
  {
    var ingest := IngestMods(0, [ImageAt(page, image, at)]);
    RunSnoc(freezeThreshold, [], Create(0));
    RunSnoc(freezeThreshold, [Create(0)], ingest);
    hide Ingest, Run;
    assert [] + [Create(0)] == [Create(0)] && [Create(0)] + [ingest] == OneImage(page, image, at);
    NoRun(freezeThreshold);
  }

  lemma NoRun(freezeThreshold: nat)
    ensures Run(freezeThreshold, []) == Tenant(map[], freezeThreshold)
  {
  }

  lemma BranchRun(freezeThreshold: nat, ops: seq<Op>, id: TimelineId, parent: TimelineId, branchPoint: Lsn)
    requires var ts := Run(freezeThreshold, ops).timelines; parent in ts && id !in ts
    requires Run(freezeThreshold, ops).freezeThreshold == freezeThreshold
    ensures var t := Run(freezeThreshold, ops);
            Run(freezeThreshold, ops + [Branch(id, parent, branchPoint)]) ==
            t.(timelines := t.timelines[id :=
              Child(freezeThreshold, parent, branchPoint, t.timelines[parent].depth + 1)])
  {
    RunSnoc(freezeThreshold, ops, Branch(id, parent, branchPoint));
  }

  /** A root and its unwritten descendants. */
  ghost predicate Barren(ts: Timelines, freezeThreshold: nat, page: PageKey, image: Page, at: Lsn) {
    && 0 in ts && ts[0] == Root(freezeThreshold, page, image, at)
    && forall id :: id in ts && id != 0 ==> ts[id].repo == EmptyRepo(freezeThreshold)
  }

  lemma BarrenWellWritten(ts: Timelines, freezeThreshold: nat, page: PageKey, image: Page, at: Lsn)
    requires Barren(ts, freezeThreshold, page, image, at)
    ensures WellWritten(ts)
  {
    StoredView(freezeThreshold, page, image, at);
    assert View(EmptyRepo(freezeThreshold)) == map[] && WrittenOnce(EmptyRepo(freezeThreshold));
    hide View, WrittenOnce, Stored;
  }

  lemma RootHistory(ts: Timelines, freezeThreshold: nat, page: PageKey, image: Page, at: Lsn, lsn: Lsn)
    requires Rooted(ts) && Barren(ts, freezeThreshold, page, image, at)
    ensures Flattened(ts, 0, page, lsn) == AsOf(ts, 0, page, lsn) == if at <= lsn then [(at, Image(image))] else []
  {
    StoredView(freezeThreshold, page, image, at);
    hide View, Range, WrittenOnce, Stored;
    OneVersionScan(page, at, Image(image), lsn);
  }

  lemma UnwrittenHistory(ts: Timelines, freezeThreshold: nat, id: TimelineId, page: PageKey, lsn: Lsn)
    requires Rooted(ts) && id in ts && ts[id].ancestor.Some? && ts[id].repo == EmptyRepo(freezeThreshold)
    ensures var a := ts[id].ancestor.value;
            && Flattened(ts, id, page, lsn) == Flattened(ts, a.parent, page, a.lsn)
            && AsOf(ts, id, page, lsn) == AsOf(ts, a.parent, page, Min(lsn, a.lsn))
  {
    assert View(EmptyRepo(freezeThreshold)) == map[];
    hide View, Range;
    EmptyScan(map[], page, lsn);
  }

  // ---- Below the branch point ----

  lemma BelowHistories(ts: Timelines, freezeThreshold: nat, page: PageKey, image: Page, at: Lsn, b: Lsn, lsn: Lsn)
    requires ts == map[0 := Root(freezeThreshold, page, image, at), 1 := Child(freezeThreshold, 0, b, 1)]
             && lsn < at <= b
    ensures Rooted(ts) && Monotone(ts, 1) && WellWritten(ts)
    ensures Flattened(ts, 1, page, lsn) == [(at, Image(image))] && AsOf(ts, 1, page, lsn) == []
  {
    hide View, Range, Stored, EmptyRepo, Flattened, AsOf, WellWritten;
    BarrenWellWritten(ts, freezeThreshold, page, image, at);
    UnwrittenHistory(ts, freezeThreshold, 1, page, lsn);
    RootHistory(ts, freezeThreshold, page, image, at, b);
    RootHistory(ts, freezeThreshold, page, image, at, lsn);
  }

  /**
   * Below the branch point the promise fails, for every such LSN and every image between it
   * and the branch point: the branch answers with the parent's page at the branch point,
   * although nothing exists as of the LSN.
   */
  lemma BelowBranchPointReadsTheFuture(redo: RecordRedo, freezeThreshold: nat, page: PageKey, image: Page, at: Lsn,
      b: Lsn, lsn: Lsn)
    requires lsn < at <= b
    ensures var ts := Run(freezeThreshold, OneImage(page, image, at) + [Branch(1, 0, b)]).timelines;
            && Rooted(ts) && 1 in ts && Monotone(ts, 1) && WellWritten(ts)
            && GetPage(redo, ts, 1, page, lsn) == Ok(Found(image))
            && Reconstruct(redo, page, AsOf(ts, 1, page, lsn)) == Ok(None)
  {
    hide Run, OneImage, Root, Child, GetPage, Flattened, AsOf, Reconstruct, WellWritten, Rooted, Monotone;
    OneImageRun(freezeThreshold, page, image, at);
    RootDepth(freezeThreshold, page, image, at);
    BranchRun(freezeThreshold, OneImage(page, image, at), 1, 0, b);
    var ts := Run(freezeThreshold, OneImage(page, image, at) + [Branch(1, 0, b)]).timelines;
    BelowHistories(ts, freezeThreshold, page, image, at, b, lsn);
    ReadIsFlattened(redo, ts, 1, page, lsn);
    SingleImage(redo, page, at, image);
  }

  lemma RootDepth(freezeThreshold: nat, page: PageKey, image: Page, at: Lsn)
    ensures Root(freezeThreshold, page, image, at).depth == 0
  {
  }

  // ---- At or above the branch point, when branch points decrease down the chain ----

  lemma FallingHistories(ts: Timelines, freezeThreshold: nat, page: PageKey, image: Page, at: Lsn, b1: Lsn, b2: Lsn,
      lsn: Lsn)
    requires ts == map[0 := Root(freezeThreshold, page, image, at),
                       1 := Child(freezeThreshold, 0, b1, 1), 2 := Child(freezeThreshold, 1, b2, 2)]
    requires b2 < at <= b1 && b2 <= lsn
    ensures Rooted(ts) && WellWritten(ts)
    ensures Flattened(ts, 2, page, lsn) == [(at, Image(image))] && AsOf(ts, 2, page, lsn) == []
  {
    hide View, Range, Stored, EmptyRepo, Flattened, AsOf, WellWritten;
    BarrenWellWritten(ts, freezeThreshold, page, image, at);
    UnwrittenHistory(ts, freezeThreshold, 2, page, lsn);
    UnwrittenHistory(ts, freezeThreshold, 1, page, b2);
    RootHistory(ts, freezeThreshold, page, image, at, b1);
    RootHistory(ts, freezeThreshold, page, image, at, b2);
  }

  /**
   * A branch taken below its parent's own branch point reads ahead too, even at or above
   * its branch point: the grandparent is read where the parent left it.
   */
  lemma FallingBranchPointsReadTheFuture(redo: RecordRedo, freezeThreshold: nat, page: PageKey, image: Page,
                                         at: Lsn, b1: Lsn, b2: Lsn, lsn: Lsn)
    requires b2 < at <= b1 && b2 <= lsn
    ensures var ops := OneImage(page, image, at) + [Branch(1, 0, b1)] + [Branch(2, 1, b2)];
            var ts := Run(freezeThreshold, ops).timelines;
            && Rooted(ts) && 2 in ts && WellWritten(ts)
            && GetPage(redo, ts, 2, page, lsn) == Ok(Found(image))
            && Reconstruct(redo, page, AsOf(ts, 2, page, lsn)) == Ok(None)
  {
    hide Run, OneImage, Root, GetPage, Flattened, AsOf, Reconstruct, WellWritten, Rooted;
    OneImageRun(freezeThreshold, page, image, at);
    RootDepth(freezeThreshold, page, image, at);
    BranchRun(freezeThreshold, OneImage(page, image, at), 1, 0, b1);
    BranchRun(freezeThreshold, OneImage(page, image, at) + [Branch(1, 0, b1)], 2, 1, b2);
    var ts := Run(freezeThreshold, OneImage(page, image, at) + [Branch(1, 0, b1)] + [Branch(2, 1, b2)]).timelines;
    FallingHistories(ts, freezeThreshold, page, image, at, b1, b2, lsn);
    ReadIsFlattened(redo, ts, 2, page, lsn);
    SingleImage(redo, page, at, image);
  }
}
