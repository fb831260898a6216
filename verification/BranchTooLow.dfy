/** Why a branch point must not lie below what its parent has already collected. */
module BranchTooLow {
  import opened Common
  import opened Pages
  import opened Redo
  import opened RepositorySpec
  import opened TenantSpec
  import opened GcTransparency
  import opened CopyOnWrite

  function ImageOf(page: PageKey, image: Page, lsn: Lsn): Modification {
    Modification(page.rel, page.block, lsn, Image(image))
  }

  function Key(page: PageKey, lsn: Lsn): VersionKey {
    VersionKey(page, lsn)
  }

  /** A root timeline that holds two images of one page, each frozen into its own layer. */
  function TwoImages(page: PageKey, older: Page, at: Lsn, newer: Page, later: Lsn): seq<Op> {
    [Create(0), IngestMods(0, [ImageOf(page, older, at)]), IngestMods(0, [ImageOf(page, newer, later)])]
  }

  function Layers(page: PageKey, older: Page, at: Lsn, newer: Page, later: Lsn): seq<Layer> {
    [Layer(0, map[Key(page, at) := Image(older)]), Layer(1, map[Key(page, later) := Image(newer)])]
  }

  lemma IngestFreezes(r: Repo, m: Modification)
    requires r.memtable == map[] && r.freezeThreshold == 1
    ensures var r' := Ingest(r, [m]);
            r'.layers == r.layers + [Layer(r.nextLayerId, map[m.Key() := m.version])] && r'.memtable == map[]
            && r'.nextLayerId == r.nextLayerId + 1 && r'.freezeThreshold == 1
  {
  }

  /** The tenant before collection. */
  lemma Stored(page: PageKey, older: Page, at: Lsn, newer: Page, later: Lsn)
    requires at < later
    ensures var t := Run(1, TwoImages(page, older, at, newer, later));
            && t.timelines.Keys == {0} && t.freezeThreshold == 1
            && t.timelines[0].ancestor.None? && t.timelines[0].depth == 0
            && t.timelines[0].repo.layers == Layers(page, older, at, newer, later)
            && t.timelines[0].repo.memtable == map[]
  {
    var m1, m2 := ImageOf(page, older, at), ImageOf(page, newer, later);
    var t0 := Tenant(map[], 1);
    var t1 := Step(t0, Create(0));
    var t2 := Step(t1, IngestMods(0, [m1]));
    var t3 := Step(t2, IngestMods(0, [m2]));
    IngestFreezes(t1.timelines[0].repo, m1);
    IngestFreezes(t2.timelines[0].repo, m2);
    hide Ingest, Step;
    RunSnoc(1, [], Create(0));
    RunSnoc(1, [Create(0)], IngestMods(0, [m1]));
    RunSnoc(1, [Create(0), IngestMods(0, [m1])], IngestMods(0, [m2]));
    assert [] + [Create(0)] == [Create(0)];
    assert [Create(0)] + [IngestMods(0, [m1])] == [Create(0), IngestMods(0, [m1])];
    assert [Create(0), IngestMods(0, [m1])] + [IngestMods(0, [m2])] == TwoImages(page, older, at, newer, later);
  }

  lemma StoredView(r: Repo, page: PageKey, older: Page, at: Lsn, newer: Page, later: Lsn)
    requires at < later && r.layers == Layers(page, older, at, newer, later) && r.memtable == map[]
    ensures WrittenOnce(r) && View(r) == map[Key(page, at) := Image(older), Key(page, later) := Image(newer)]
  {
    var ls := r.layers;
    assert ls[..1] == [ls[0]] && [ls[0]][..0] == [];
    assert LayersView([ls[0]]) == map[] + ls[0].entries == ls[0].entries;
    assert LayersView(ls) == ls[0].entries + ls[1].entries;
  }

  /** Collection drops the older image: the newer one is a base at or before the horizon. */
  lemma CollectedView(r: Repo, page: PageKey, older: Page, at: Lsn, newer: Page, later: Lsn, h: Lsn)
    requires at < later <= h && r.layers == Layers(page, older, at, newer, later) && r.memtable == map[]
    ensures WrittenOnce(Compact(r, h)) && View(Compact(r, h)) == map[Key(page, later) := Image(newer)]
  {
    StoredView(r, page, older, at, newer, later);
    var merged := LayersView(r.layers);
    assert merged == View(r);
    var base := LatestBase(merged, page, h);
    assert Key(page, later) in merged && merged[Key(page, later)].IsBase();
    assert base == Some(later);
    hide LatestBase, LayersView;
    assert Prune(merged, h) == map[Key(page, later) := Image(newer)];
    OneLayerView(Compact(r, h), map[Key(page, later) := Image(newer)]);
  }

  lemma OneLayerView(r: Repo, m: Versions)
    requires |r.layers| == 1 && r.layers[0].entries == m && r.memtable == map[]
    ensures WrittenOnce(r) && View(r) == m
  {
    assert r.layers[..0] == [];
    assert LayersView(r.layers) == map[] + m == m;
  }

  function WithChild(root: Repo, branchPoint: Lsn): Timelines {
    map[0 := Timeline(root, None, 0), 1 := Timeline(EmptyRepo(1), Some(Ancestor(0, branchPoint)), 1)]
  }

  /** An unwritten child reads its root at the branch point. */
  lemma ChildRead(redo: RecordRedo, root: Repo, branchPoint: Lsn, page: PageKey, lsn: Lsn)
    requires WrittenOnce(root)
    ensures Rooted(WithChild(root, branchPoint))
    ensures GetPage(redo, WithChild(root, branchPoint), 1, page, lsn) ==
            ToLookup(Reconstruct(redo, page, Range(View(root), page, branchPoint)))
  {
    var ts := WithChild(root, branchPoint);
    assert View(ts[1].repo) == map[];
    assert WellWritten(ts);
    hide View, Range, WrittenOnce, Reconstruct, GetPage, ToLookup;
    ReadIsFlattened(redo, ts, 1, page, lsn);
    EmptyScan(map[], page, lsn);
    var inherited := Range(View(root), page, branchPoint);
    assert Flattened(ts, 0, page, branchPoint) == [] + inherited == inherited;
    assert Flattened(ts, 1, page, lsn) == inherited + [] == inherited;
  }

  lemma OlderScan(page: PageKey, older: Page, at: Lsn, newer: Page, later: Lsn, b: Lsn)
    requires at <= b < later
    ensures Range(map[Key(page, at) := Image(older), Key(page, later) := Image(newer)], page, b) == [(at, Image(older))]
    ensures Range(map[Key(page, later) := Image(newer)], page, b) == []
    decreases b
  {
    var m := map[Key(page, at) := Image(older), Key(page, later) := Image(newer)];
    EmptyScan(map[Key(page, later) := Image(newer)], page, b);
    if b > at {
      OlderScan(page, older, at, newer, later, b - 1);
    } else if b > 0 {
      EmptyScan(m, page, b - 1);
    }
  }

  lemma ReadsDiffer(redo: RecordRedo, root: Repo, page: PageKey, older: Page, at: Lsn, newer: Page, later: Lsn,
                    h: Lsn, b: Lsn, lsn: Lsn)
    requires at <= b < later <= h && root.layers == Layers(page, older, at, newer, later) && root.memtable == map[]
    ensures Rooted(WithChild(root, b)) && Rooted(WithChild(Compact(root, h), b))
    ensures GetPage(redo, WithChild(Compact(root, h), b), 1, page, lsn) == Ok(NotFound)
    ensures GetPage(redo, WithChild(root, b), 1, page, lsn) == Ok(Found(older))
  {
    hide GetPage, Reconstruct, Compact, View, Range, WrittenOnce, Layers;
    StoredView(root, page, older, at, newer, later);
    CollectedView(root, page, older, at, newer, later, h);
    ChildRead(redo, root, b, page, lsn);
    ChildRead(redo, Compact(root, h), b, page, lsn);
    OlderScan(page, older, at, newer, later, b);
    SingleImage(redo, page, at, older);
  }

  lemma Collecting(t: Tenant, h: Lsn)
    requires t.timelines.Keys == {0} && t.timelines[0].ancestor.None?
    ensures Step(t, CollectGarbage(h)) ==
            t.(timelines := map[0 := t.timelines[0].(repo := Compact(t.timelines[0].repo, h))])
  {
    hide Compact;
    assert Horizon(t.timelines, 0, h) == h;
  }

  lemma Branching(t: Tenant, b: Lsn)
    requires t.timelines.Keys == {0} && t.timelines[0].ancestor.None? && t.timelines[0].depth == 0
             && t.freezeThreshold == 1
    ensures Step(t, Branch(1, 0, b)).timelines == WithChild(t.timelines[0].repo, b)
  {
  }

  lemma {:induction false} WithoutGcSnoc(ops: seq<Op>, op: Op)
    ensures WithoutGc(ops + [op]) == WithoutGc(ops) + (if op.CollectGarbage? then [] else [op])
  {
  }

  lemma NoGcInside(page: PageKey, older: Page, at: Lsn, newer: Page, later: Lsn)
    ensures var ops := TwoImages(page, older, at, newer, later); WithoutGc(ops) == ops
  {
    var c, i, j := Create(0), IngestMods(0, [ImageOf(page, older, at)]), IngestMods(0, [ImageOf(page, newer, later)]);
    WithoutGcSnoc([], c);
    WithoutGcSnoc([c], i);
    WithoutGcSnoc([c, i], j);
    hide WithoutGc;
    assert [] + [c] == [c] && [c] + [i] == [c, i] && [c, i] + [j] == [c, i, j];
    NoOps();
  }

  lemma NoOps()
    ensures WithoutGc([]) == []
  {
  }

  /**
   * For every branch point below a collected base, a page visible without collection is
   * gone from the new branch, at whatever LSN it is read.
   */
  lemma BranchBelowHorizonLosesPage(redo: RecordRedo, page: PageKey, older: Page, at: Lsn, newer: Page, later: Lsn,
                                    h: Lsn, b: Lsn, lsn: Lsn)
    requires at <= b < later <= h
    ensures var ops := TwoImages(page, older, at, newer, later) + [CollectGarbage(h)] + [Branch(1, 0, b)];
            var g, n := Run(1, ops).timelines, Run(1, WithoutGc(ops)).timelines;
            && Rooted(g) && Rooted(n) && 1 in g && 1 in n
            && GetPage(redo, g, 1, page, lsn) == Ok(NotFound)
            && GetPage(redo, n, 1, page, lsn) == Ok(Found(older))
  {
    hide Run, WithoutGc, GetPage, TwoImages, Compact, Layers, Step;
    var ops := TwoImages(page, older, at, newer, later);
    var gc, branch := CollectGarbage(h), Branch(1, 0, b);
    Stored(page, older, at, newer, later);
    var t := Run(1, ops);
    Collecting(t, h);
    Branching(Step(t, gc), b);
    Branching(t, b);
    RunSnoc(1, ops, gc);
    RunSnoc(1, ops + [gc], branch);
    RunSnoc(1, ops, branch);
    NoGcInside(page, older, at, newer, later);
    WithoutGcSnoc(ops, gc);
    WithoutGcSnoc(ops + [gc], branch);
    assert ops + [] == ops;
    ReadsDiffer(redo, t.timelines[0].repo, page, older, at, newer, later, h, b, lsn);
  }
}
