/** The size of a relation fork as of an LSN, and exactly when tracking it step by step is right. */
module RelSizes {
  import opened Common
  import opened Pages
  import opened RepositorySpec
  import opened TenantSpec

  type Sizes = map<(RelTag, Lsn), nat>

  function One(m: Modification, rel: RelTag, lsn: Lsn): Option<nat> {
    if m.rel == rel && m.lsn <= lsn then Some(m.block + 1) else None
  }

  /** One past the highest block of `rel` written at or before `lsn`. */
  function HighWater(mods: seq<Modification>, rel: RelTag, lsn: Lsn): Option<nat> {
    if mods == [] then None else MaxOption(HighWater(mods[..|mods| - 1], rel, lsn), One(mods[|mods| - 1], rel, lsn))
  }

  /** The recorded sizes answer every size question about `mods` correctly. */
  ghost predicate Exact(sizes: Sizes, mods: seq<Modification>) {
    forall rel, lsn :: LatestSize(sizes, rel, lsn) == HighWater(mods, rel, lsn)
  }

  /** No later record of the relation is smaller than the modification calls for. */
  ghost predicate NotOvertaken(sizes: Sizes, m: Modification) {
    forall l: Lsn :: m.lsn < l && (m.rel, l) in sizes ==> sizes[(m.rel, l)] >= m.block + 1
  }

  ghost predicate NoneBetween(sizes: Sizes, rel: RelTag, lo: Lsn, hi: Lsn) {
    forall l: Lsn :: lo < l <= hi ==> (rel, l) !in sizes
  }

  function OrZero(s: Option<nat>): nat {
    if s.Some? then s.value else 0
  }

  // ---- What one modification does to each answer ----

  lemma {:induction false} OtherAnswers(sizes: Sizes, m: Modification, rel: RelTag, lsn: Lsn)
    requires rel != m.rel || lsn < m.lsn
    ensures LatestSize(TrackSize(sizes, m), rel, lsn) == LatestSize(sizes, rel, lsn)
    decreases lsn
  {
    if lsn > 0 {
      OtherAnswers(sizes, m, rel, lsn - 1);
    }
  }

  lemma {:induction false} LaterAnswers(sizes: Sizes, m: Modification, lsn: Lsn)
    requires m.lsn <= lsn
    ensures LatestSize(TrackSize(sizes, m), m.rel, lsn) ==
            if NoneBetween(sizes, m.rel, m.lsn, lsn) then
              Some(Max(OrZero(LatestSize(sizes, m.rel, m.lsn)), m.block + 1))
            else LatestSize(sizes, m.rel, lsn)
    ensures NoneBetween(sizes, m.rel, m.lsn, lsn) ==> LatestSize(sizes, m.rel, lsn) == LatestSize(sizes, m.rel, m.lsn)
    decreases lsn
  {
    if lsn > m.lsn {
      LaterAnswers(sizes, m, lsn - 1);
      assert (m.rel, lsn) !in sizes && NoneBetween(sizes, m.rel, m.lsn, lsn - 1) ==>
             NoneBetween(sizes, m.rel, m.lsn, lsn);
    }
  }

  /** A recorded answer above `lo` comes from a record above `lo`. */
  lemma {:induction false} AnswerFromRecord(sizes: Sizes, rel: RelTag, lo: Lsn, lsn: Lsn) returns (l: Lsn)
    requires !NoneBetween(sizes, rel, lo, lsn)
    ensures lo < l <= lsn && (rel, l) in sizes && LatestSize(sizes, rel, lsn) == Some(sizes[(rel, l)])
    decreases lsn
  {
    if (rel, lsn) in sizes {
      l := lsn;
      assert lo < lsn;
    } else {
      assert !NoneBetween(sizes, rel, lo, lsn - 1);
      l := AnswerFromRecord(sizes, rel, lo, lsn - 1);
    }
  }

  lemma HighWaterSnoc(mods: seq<Modification>, m: Modification, rel: RelTag, lsn: Lsn)
    ensures HighWater(mods + [m], rel, lsn) == MaxOption(HighWater(mods, rel, lsn), One(m, rel, lsn))
  {
  }

  lemma TrackedAnswer(sizes: Sizes, mods: seq<Modification>, m: Modification, rel: RelTag, lsn: Lsn)
    requires Exact(sizes, mods) && NotOvertaken(sizes, m)
    ensures LatestSize(TrackSize(sizes, m), rel, lsn) == HighWater(mods + [m], rel, lsn)
  {
    hide LatestSize, HighWater, TrackSize;
    HighWaterSnoc(mods, m, rel, lsn);
    assert LatestSize(sizes, rel, lsn) == HighWater(mods, rel, lsn);
    if rel != m.rel || lsn < m.lsn {
      OtherAnswers(sizes, m, rel, lsn);
    } else {
      LaterAnswers(sizes, m, lsn);
      if !NoneBetween(sizes, rel, m.lsn, lsn) {
        var l := AnswerFromRecord(sizes, rel, m.lsn, lsn);
      }
    }
  }

  /** Tracking stays exact if and only if the modification is not overtaken. */
  lemma TrackingExactIff(sizes: Sizes, mods: seq<Modification>, m: Modification)
    requires Exact(sizes, mods)
    ensures Exact(TrackSize(sizes, m), mods + [m]) <==> NotOvertaken(sizes, m)
  {
    if NotOvertaken(sizes, m) {
      forall rel, lsn ensures LatestSize(TrackSize(sizes, m), rel, lsn) == HighWater(mods + [m], rel, lsn) {
        TrackedAnswer(sizes, mods, m, rel, lsn);
      }
    } else {
      var l: Lsn :| m.lsn < l && (m.rel, l) in sizes && sizes[(m.rel, l)] < m.block + 1;
      OvertakenAnswer(sizes, mods, m, l);
    }
  }

  lemma OvertakenAnswer(sizes: Sizes, mods: seq<Modification>, m: Modification, l: Lsn)
    requires Exact(sizes, mods) && m.lsn < l && (m.rel, l) in sizes && sizes[(m.rel, l)] < m.block + 1
    ensures LatestSize(TrackSize(sizes, m), m.rel, l) != HighWater(mods + [m], m.rel, l)
  {
  }

  // ---- Ingesting in LSN order ----

  function TrackAll(mods: seq<Modification>): Sizes {
    if mods == [] then map[] else TrackSize(TrackAll(mods[..|mods| - 1]), mods[|mods| - 1])
  }

  /** Within each relation, LSNs do not go back. */
  ghost predicate InOrder(mods: seq<Modification>) {
    forall i, j :: 0 <= i < j < |mods| && mods[i].rel == mods[j].rel ==> mods[i].lsn <= mods[j].lsn
  }

  lemma {:induction false} TrackedKeys(mods: seq<Modification>, rel: RelTag, lsn: Lsn)
    requires (rel, lsn) in TrackAll(mods)
    ensures exists i :: 0 <= i < |mods| && mods[i].rel == rel && mods[i].lsn == lsn
  {
    hide LatestSize;
    var last := |mods| - 1;
    if !(mods[last].rel == rel && mods[last].lsn == lsn) {
      TrackedKeys(mods[..last], rel, lsn);
      var i :| 0 <= i < last && mods[..last][i].rel == rel && mods[..last][i].lsn == lsn;
      assert mods[i].rel == rel;
    }
  }

  lemma {:induction false} TrackAllExact(mods: seq<Modification>)
    requires InOrder(mods)
    ensures Exact(TrackAll(mods), mods)
  {
    if mods == [] {
      forall rel, lsn ensures LatestSize(map[], rel, lsn) == None { NothingTracked(rel, lsn); }
    } else {
      var before, m := mods[..|mods| - 1], mods[|mods| - 1];
      TrackAllExact(before);
      forall l: Lsn | m.lsn < l ensures (m.rel, l) !in TrackAll(before) {
        if (m.rel, l) in TrackAll(before) {
          TrackedKeys(before, m.rel, l);
        }
      }
      TrackingExactIff(TrackAll(before), before, m);
      assert before + [m] == mods;
    }
  }

  lemma {:induction false} NothingTracked(rel: RelTag, lsn: Lsn)
    ensures LatestSize(map[], rel, lsn) == None
    decreases lsn
  {
    if lsn > 0 {
      NothingTracked(rel, lsn - 1);
    }
  }

  lemma {:induction false} IngestTracks(r: Repo, done: seq<Modification>, mods: seq<Modification>)
    requires r.relSizes == TrackAll(done)
    ensures Ingest(r, mods).relSizes == TrackAll(done + mods)
    decreases |mods|
  {
    hide TrackSize;
    if mods == [] {
      assert done + mods == done;
    } else {
      assert (done + [mods[0]])[..|done|] == done;
      IngestTracks(IngestOne(r, mods[0]), done + [mods[0]], mods[1..]);
      assert done + mods == done + [mods[0]] + mods[1..];
    }
  }

  /** The relation-size law: after in-order ingest, every size as of every LSN is the high-water mark. */
  lemma SizeIsHighWater(freezeThreshold: nat, mods: seq<Modification>, rel: RelTag, lsn: Lsn)
    requires InOrder(mods)
    ensures LatestSize(Ingest(EmptyRepo(freezeThreshold), mods).relSizes, rel, lsn) == HighWater(mods, rel, lsn)
  {
    IngestTracks(EmptyRepo(freezeThreshold), [], mods);
    assert [] + mods == mods;
    TrackAllExact(mods);
  }

  // ---- Sizes across branches ----

  function Upto(mods: seq<Modification>, lsn: Lsn): seq<Modification> {
    if mods == [] then []
    else
      var m := mods[|mods| - 1];
      Upto(mods[..|mods| - 1], lsn) + (if m.lsn <= lsn then [m] else [])
  }

  /** One past the highest block of `rel` ever written by `mods`. */
  function HighBlock(mods: seq<Modification>, rel: RelTag): Option<nat> {
    if mods == [] then None
    else
      var m := mods[|mods| - 1];
      MaxOption(HighBlock(mods[..|mods| - 1], rel), if m.rel == rel then Some(m.block + 1) else None)
  }

  /** The writes visible from `id` at `lsn`: the ancestors' up to each branch point, then its own. */
  function Visible(ts: Timelines, written: map<TimelineId, seq<Modification>>, id: TimelineId,
                   lsn: Lsn): seq<Modification>
    requires Rooted(ts) && id in ts && ts.Keys == written.Keys
    decreases ts[id].depth
  {
    var a := ts[id].ancestor;
    (if a.None? then [] else Visible(ts, written, a.value.parent, a.value.lsn)) + Upto(written[id], lsn)
  }

  lemma {:induction false} HighBlockJoin(a: seq<Modification>, b: seq<Modification>, rel: RelTag)
    ensures HighBlock(a + b, rel) == MaxOption(HighBlock(a, rel), HighBlock(b, rel))
  {
    if b == [] {
      assert a + b == a;
    } else {
      var init := b[..|b| - 1];
      HighBlockJoin(a, init, rel);
      assert (a + b)[..|a + b| - 1] == a + init;
    }
  }

  lemma {:induction false} HighWaterIsHighBlock(mods: seq<Modification>, rel: RelTag, lsn: Lsn)
    ensures HighWater(mods, rel, lsn) == HighBlock(Upto(mods, lsn), rel)
  {
    if mods != [] {
      var init, m := mods[..|mods| - 1], mods[|mods| - 1];
      HighWaterIsHighBlock(init, rel, lsn);
      HighBlockJoin(Upto(init, lsn), if m.lsn <= lsn then [m] else [], rel);
    }
  }

  /** At any branch depth, a relation is as long as the highest block visible from there. */
  lemma {:induction false} SizeIsFlattened(ts: Timelines, written: map<TimelineId, seq<Modification>>,
                                           id: TimelineId, rel: RelTag, lsn: Lsn)
    requires Rooted(ts) && id in ts && ts.Keys == written.Keys
    requires forall i :: i in ts ==> Exact(ts[i].repo.relSizes, written[i])
    ensures GetRelSize(ts, id, rel, lsn) == HighBlock(Visible(ts, written, id, lsn), rel)
    decreases ts[id].depth
  {
    hide LatestSize, HighWater, HighBlock, Upto;
    HighWaterIsHighBlock(written[id], rel, lsn);
    assert Exact(ts[id].repo.relSizes, written[id]);
    assert LatestSize(ts[id].repo.relSizes, rel, lsn) == HighWater(written[id], rel, lsn);
    var a := ts[id].ancestor;
    if a.None? {
      assert [] + Upto(written[id], lsn) == Upto(written[id], lsn);
    } else {
      SizeIsFlattened(ts, written, a.value.parent, rel, a.value.lsn);
      HighBlockJoin(Visible(ts, written, a.value.parent, a.value.lsn), Upto(written[id], lsn), rel);
    }
  }
}
