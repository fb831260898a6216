/**
 * WAL redo: turning a page's version history into one page.
 *
 * `Reconstruct` is the reference meaning, one version at a time, over an abstract
 * record-apply function. The native backend is the instance whose record-apply always
 * defers to PostgreSQL; the process backend batches runs of records.
 */
module Redo {
  import opened Common
  import opened Pages

  /** A version together with the LSN it took effect at. */
  type Versioned = (Lsn, PageVersion)

  /** Apply one raw WAL record to a page; `None` means no base image is supplied. */
  type RecordRedo = (PageKey, Option<Page>, Lsn, seq<byte>) -> Result<Page, RedoFault>

  datatype RedoError = ApplyFailed(error: PageError) | Fault(fault: RedoFault)

  /** The native backend: any raw record needs PostgreSQL. */
  const NATIVE: RecordRedo := (key, base, lsn, rec) => Err(NeedsPostgres(lsn))

  function ToPageError(e: RedoError): PageError {
    match e
    case ApplyFailed(p) => p
    case Fault(f) => PageError.Redo(f)
  }

  function BaseOrZero(base: Option<Page>): Page {
    if base.Some? then base.value else Zeros(PAGE_SIZE)
  }

  function ReplayOne(redo: RecordRedo, key: PageKey, cur: Option<Page>, v: Versioned): Result<Page, RedoError> {
    match v.1
    case WalRecord(_, rec) =>
      (match redo(key, cur, v.0, rec)
       case Ok(p) => Ok(p)
       case Err(f) => Err(Fault(f)))
    case _ =>
      match Apply(v.1, BaseOrZero(cur))
      case Ok(p) => Ok(p)
      case Err(e) => Err(ApplyFailed(e))
  }

  /** Replay a history one version at a time, stopping at the first failure. */
  function Replay(redo: RecordRedo, key: PageKey, cur: Option<Page>, vs: seq<Versioned>)
    : Result<Option<Page>, RedoError>
    decreases |vs|
  {
    if vs == [] then Ok(cur)
    else
      var p :- ReplayOne(redo, key, cur, vs[0]);
      Replay(redo, key, Some(p), vs[1..])
  }

  /** Index of the most recent base version. */
  function LastBase(vs: seq<Versioned>): (b: Option<nat>)
    ensures b.Some? ==> b.value < |vs| && vs[b.value].1.IsBase()
    ensures forall i :: (if b.Some? then b.value + 1 else 0) <= i < |vs| ==> !vs[i].1.IsBase()
  {
    if vs == [] then None
    else if vs[|vs| - 1].1.IsBase() then Some(|vs| - 1)
    else LastBase(vs[..|vs| - 1])
  }

  /** The page a history describes: replay from its most recent base; no base, no page. */
  function Reconstruct(redo: RecordRedo, key: PageKey, vs: seq<Versioned>): Result<Option<Page>, RedoError> {
    var b := LastBase(vs);
    if b.None? then Ok(None) else Replay(redo, key, None, vs[b.value..])
  }

  // ---- Laws of the reference meaning ----

  lemma {:induction false} ReplaySplit(redo: RecordRedo, key: PageKey, cur: Option<Page>, a: seq<Versioned>,
                                       b: seq<Versioned>)
    ensures Replay(redo, key, cur, a + b) ==
            (match Replay(redo, key, cur, a)
             case Ok(p) => Replay(redo, key, p, b)
             case Err(e) => Err(e))
    decreases |a|
  {
    if a == [] {
      assert a + b == b;
    } else {
      assert (a + b)[0] == a[0] && (a + b)[1..] == a[1..] + b;
      var r := ReplayOne(redo, key, cur, a[0]);
      if r.Ok? {
        ReplaySplit(redo, key, Some(r.value), a[1..], b);
      }
    }
  }

  /** History before a base is irrelevant: the law garbage collection rests on. */
  lemma {:induction false} LastBaseSplit(a: seq<Versioned>, b: seq<Versioned>)
    ensures LastBase(b).Some? ==> LastBase(a + b) == Some(|a| + LastBase(b).value)
    ensures LastBase(b).None? ==> LastBase(a + b) == LastBase(a)
    decreases |b|
  {
    if b == [] {
      assert a + b == a;
    } else {
      assert (a + b)[..|a + b| - 1] == a + b[..|b| - 1];
      LastBaseSplit(a, b[..|b| - 1]);
    }
  }

  lemma OnlyFromBase(redo: RecordRedo, key: PageKey, a: seq<Versioned>, b: seq<Versioned>)
    requires LastBase(b).Some?
    ensures Reconstruct(redo, key, a + b) == Reconstruct(redo, key, b)
  {
    LastBaseSplit(a, b);
    assert (a + b)[|a| + LastBase(b).value..] == b[LastBase(b).value..];
  }

  /**
   * Reading in two stages is reading once: a page materialized from `a`, presented as a
   * full image and followed by base-free versions `b`, is the page of `a + b`. Failures
   * and absence agree too. The law copy-on-write branching rests on.
   */
  lemma StagedReconstruct(redo: RecordRedo, key: PageKey, lsn: Lsn, a: seq<Versioned>, b: seq<Versioned>)
    requires LastBase(b).None?
    ensures var first := Reconstruct(redo, key, a);
            Reconstruct(redo, key, a + b) ==
            if first.Err? || first.value.None? then first
            else Reconstruct(redo, key, [(lsn, Image(first.value.value))] + b)
  {
    LastBaseSplit(a, b);
    var la := LastBase(a);
    if la.Some? {
      assert (a + b)[la.value..] == a[la.value..] + b;
      ReplaySplit(redo, key, None, a[la.value..], b);
      ReplaySome(redo, key, None, a[la.value..]);
      var r := Reconstruct(redo, key, a);
      if r.Ok? {
        var img: Versioned := (lsn, Image(r.value.value));
        LastBaseSplit([img], b);
        assert LastBase([img]) == Some(0);
        assert ([img] + b)[0..] == [img] + b;
        ReplaySplit(redo, key, None, [img], b);
        assert Replay(redo, key, None, [img]) == Ok(r.value) by {
          assert ReplayOne(redo, key, None, img) == Ok(r.value.value);
          assert |[img][1..]| == 0;
        }
      }
    }
  }

  lemma ReplaySome(redo: RecordRedo, key: PageKey, cur: Option<Page>, vs: seq<Versioned>)
    requires vs != [] || cur.Some?
    ensures Replay(redo, key, cur, vs).Ok? ==> Replay(redo, key, cur, vs).value.Some?
    decreases |vs|
  {
    if vs != [] {
      var r := ReplayOne(redo, key, cur, vs[0]);
      if r.Ok? {
        ReplaySome(redo, key, Some(r.value), vs[1..]);
      }
    }
  }

  /** With no raw record at or after the latest base, every backend agrees. */
  lemma BackendsAgree(redo: RecordRedo, redo': RecordRedo, key: PageKey, vs: seq<Versioned>)
    requires LastBase(vs).Some? ==> forall i :: LastBase(vs).value <= i < |vs| ==> !vs[i].1.WalRecord?
    ensures Reconstruct(redo, key, vs) == Reconstruct(redo', key, vs)
  {
    var b := LastBase(vs);
    if b.Some? {
      ReplayAgrees(redo, redo', key, None, vs[b.value..]);
    }
  }

  lemma {:induction false} ReplayAgrees(redo: RecordRedo, redo': RecordRedo, key: PageKey, cur: Option<Page>,
                                        vs: seq<Versioned>)
    requires forall i :: 0 <= i < |vs| ==> !vs[i].1.WalRecord?
    ensures Replay(redo, key, cur, vs) == Replay(redo', key, cur, vs)
    decreases |vs|
  {
    if vs != [] {
      assert ReplayOne(redo, key, cur, vs[0]) == ReplayOne(redo', key, cur, vs[0]);
      var r := ReplayOne(redo, key, cur, vs[0]);
      if r.Ok? {
        ReplayAgrees(redo, redo', key, Some(r.value), vs[1..]);
      }
    }
  }

  // ---- The native backend ----

  method NativeReconstruct(key: PageKey, versions: seq<Versioned>) returns (r: Result<Option<Page>, RedoError>)
    ensures r == Reconstruct(NATIVE, key, versions)
  {
    var base := LastBase(versions);
    if base.None? {
      return Ok(None);
    }
    var b := base.value;
    var page := new byte[PAGE_SIZE](_ => 0);
    assert page[..] == Zeros(PAGE_SIZE);
    ghost var tail := versions[b..];
    assert tail[0] == versions[b] && tail[1..] == versions[b + 1..];
    if versions[b].1.WalRecord? {
      return Err(Fault(NeedsPostgres(versions[b].0)));
    }
    var applied := ApplyTo(versions[b].1, page);
    if applied.Err? {
      return Err(ApplyFailed(applied.error));
    }
    for i := b + 1 to |versions|
      invariant Reconstruct(NATIVE, key, versions) == Replay(NATIVE, key, Some(page[..]), versions[i..])
    {
      assert versions[i..][0] == versions[i] && versions[i..][1..] == versions[i + 1..];
      if versions[i].1.WalRecord? {
        return Err(Fault(NeedsPostgres(versions[i].0)));
      }
      applied := ApplyTo(versions[i].1, page);
      if applied.Err? {
        return Err(ApplyFailed(applied.error));
      }
    }
    return Ok(Some(page[..]));
  }

  // ---- The process backend: batches runs of raw records ----

  /** The redo process as a fold over the records of one request. */
  function RedoPage(redo: RecordRedo, key: PageKey, base: Option<Page>,
                    records: seq<(Lsn, seq<byte>)>): Result<Page, RedoFault>
    decreases |records|
  {
    if records == [] then Ok(BaseOrZero(base))
    else
      var p :- redo(key, base, records[0].0, records[0].1);
      RedoPage(redo, key, Some(p), records[1..])
  }

  lemma {:induction false} RedoPageSnoc(redo: RecordRedo, key: PageKey, base: Option<Page>,
                                        records: seq<(Lsn, seq<byte>)>, rec: (Lsn, seq<byte>))
    ensures RedoPage(redo, key, base, records + [rec]) ==
            (match RedoPage(redo, key, base, records)
             case Ok(p) => redo(key, if records == [] then base else Some(p), rec.0, rec.1)
             case Err(f) => Err(f))
    decreases |records|
  {
    var all := records + [rec];
    if records == [] {
      assert all[1..] == [];
    } else {
      assert all[0] == records[0] && all[1..] == records[1..] + [rec];
      var r := redo(key, base, records[0].0, records[0].1);
      if r.Ok? {
        RedoPageSnoc(redo, key, Some(r.value), records[1..], rec);
      }
    }
  }

  /** What the batching loop owes: the pending batch, then the rest of the history. */
  ghost function Owed(redo: RecordRedo, key: PageKey, base: Option<Page>, pending: seq<(Lsn, seq<byte>)>,
                      rest: seq<Versioned>): Result<Option<Page>, RedoError>
  {
    match RedoPage(redo, key, base, pending)
    case Ok(p) => Replay(redo, key, if pending == [] then base else Some(p), rest)
    case Err(f) => Err(Fault(f))
  }

  lemma OwedSnoc(redo: RecordRedo, key: PageKey, base: Option<Page>, pending: seq<(Lsn, seq<byte>)>,
                 v: Versioned, rest: seq<Versioned>)
    requires v.1.WalRecord?
    ensures Owed(redo, key, base, pending, [v] + rest) == Owed(redo, key, base, pending + [(v.0, v.1.rec)], rest)
  {
    RedoPageSnoc(redo, key, base, pending, (v.0, v.1.rec));
    assert ([v] + rest)[1..] == rest;
  }

  /** Send the accumulated records to the process and install its answer in `page`. */
  method Flush(redo: RecordRedo, key: PageKey, page: array<byte>, haveBase: bool, pending: seq<(Lsn, seq<byte>)>)
    returns (r: Result<bool, RedoError>)
    requires page.Length == PAGE_SIZE
    modifies page
    ensures var base := if haveBase then Some(old(page[..])) else None;
            var answer := RedoPage(redo, key, base, pending);
            if pending == [] then r == Ok(haveBase) && page[..] == old(page[..])
            else if answer.Ok? then r == Ok(true) && page[..] == answer.value
            else r == Err(Fault(answer.error)) && page[..] == old(page[..])
  {
    if pending == [] {
      return Ok(haveBase);
    }
    var base: Option<Page> := if haveBase then Some(page[..]) else None;
    var result := RedoPage(redo, key, base, pending);
    if result.Err? {
      return Err(Fault(result.error));
    }
    forall i | 0 <= i < PAGE_SIZE { page[i] := result.value[i]; }
    assert page[..] == result.value;
    return Ok(true);
  }

  /** Batching is invisible: the batched backend computes the one-at-a-time meaning. */
  method BatchedReconstruct(redo: RecordRedo, key: PageKey, versions: seq<Versioned>)
    returns (r: Result<Option<Page>, RedoError>)
    ensures r == Reconstruct(redo, key, versions)
  {
    var lastBase := LastBase(versions);
    if lastBase.None? {
      return Ok(None);
    }
    var b := lastBase.value;
    var page := new byte[PAGE_SIZE](_ => 0);
    assert page[..] == Zeros(PAGE_SIZE);
    var haveBase;
    var pending: seq<(Lsn, seq<byte>)> := [];
    ghost var tail := versions[b..];
    assert tail[0] == versions[b] && tail == [versions[b]] + versions[b + 1..];
    if versions[b].1.WalRecord? {
      pending := pending + [(versions[b].0, versions[b].1.rec)];
      haveBase := false;
      OwedSnoc(redo, key, None, [], versions[b], versions[b + 1..]);
    } else {
      var applied := ApplyTo(versions[b].1, page);
      if applied.Err? {
        return Err(ApplyFailed(applied.error));
      }
      haveBase := true;
    }
    for i := b + 1 to |versions|
      invariant pending == [] ==> haveBase
      invariant Reconstruct(redo, key, versions) ==
                Owed(redo, key, if haveBase then Some(page[..]) else None, pending, versions[i..])
    {
      var v := versions[i];
      assert versions[i..] == [v] + versions[i + 1..];
      if v.1.WalRecord? {
        OwedSnoc(redo, key, if haveBase then Some(page[..]) else None, pending, v, versions[i + 1..]);
        pending := pending + [(v.0, v.1.rec)];
      } else {
        var flushed := Flush(redo, key, page, haveBase, pending);
        if flushed.Err? {
          return Err(flushed.error);
        }
        haveBase, pending := flushed.value, [];
        var applied := ApplyTo(v.1, page);
        if applied.Err? {
          return Err(ApplyFailed(applied.error));
        }
      }
    }
    assert versions[|versions|..] == [];
    var flushed := Flush(redo, key, page, haveBase, pending);
    if flushed.Err? {
      return Err(flushed.error);
    }
    return Ok(Some(page[..]));
  }
}
