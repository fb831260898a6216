/** Page addresses, page versions, and applying one version to a page. */
module Pages {
  import opened Common

  datatype Fork = Main | Fsm | VisibilityMap | Init

  function ForkOf(raw: byte): Option<Fork> {
    if raw == 0 then Some(Main) else if raw == 1 then Some(Fsm) else if raw == 2 then Some(VisibilityMap)
    else if raw == 3 then Some(Init) else None
  }

  datatype RelTag = RelTag(spcNode: u32, dbNode: u32, relNode: u32, fork: Fork)

  datatype PageKey = PageKey(rel: RelTag, block: u32)

  /** The index of one stored version: which page, at which LSN. */
  datatype VersionKey = VersionKey(page: PageKey, lsn: Lsn)

  datatype ByteEdit = ByteEdit(offset: u16, data: seq<byte>)

  datatype PageVersion =
    | Image(bytes: seq<byte>)
    | Delta(edits: seq<ByteEdit>)
    | WalRecord(willInit: bool, rec: seq<byte>)
  {
    /** Whether a reconstruction can start here with no prior page. */
    predicate IsBase() {
      Image? || (WalRecord? && willInit)
    }
  }

  /** Failures of the redo backend itself; surfaced as `PageError.Redo`. */
  datatype RedoFault = NeedsPostgres(lsn: Lsn) | ProcessFault(msg: string) | RedoFailed(reason: string)

  datatype PageError =
    | Truncated(what: string)
    | BadImageSize(size: nat)
    | EditOutOfBounds(offset: nat, len: nat)
    | BadVersionTag(tag: byte)
    | NeedsRedo
    | Redo(fault: RedoFault)

  datatype Modification = Modification(rel: RelTag, block: u32, lsn: Lsn, version: PageVersion) {
    function Key(): VersionKey {
      VersionKey(PageKey(rel, block), lsn)
    }
  }

  /** Overwrite `data` into `page` at `offset`. */
  function Patch(page: Page, offset: nat, data: seq<byte>): (p: Page)
    requires offset + |data| <= PAGE_SIZE
    ensures forall i :: 0 <= i < PAGE_SIZE ==>
      p[i] == if offset <= i < offset + |data| then data[i - offset] else page[i]
  {
    page[..offset] + data + page[offset + |data|..]
  }

  /** Apply the edits in order; the first edit past the page end fails. */
  function ApplyEdits(page: Page, edits: seq<ByteEdit>): Result<Page, PageError>
    decreases |edits|
  {
    if edits == [] then Ok(page)
    else
      var e := edits[0];
      if e.offset + |e.data| > PAGE_SIZE then Err(EditOutOfBounds(e.offset, |e.data|))
      else ApplyEdits(Patch(page, e.offset, e.data), edits[1..])
  }

  function Apply(v: PageVersion, page: Page): Result<Page, PageError> {
    match v
    case Image(bytes) => if |bytes| != PAGE_SIZE then Err(BadImageSize(|bytes|)) else Ok(bytes)
    case Delta(edits) => ApplyEdits(page, edits)
    case WalRecord(_, _) => Err(NeedsRedo)
  }

  /** Position of the last edit before `n` that covers byte `i`, if any. */
  function LastWriter(edits: seq<ByteEdit>, n: nat, i: nat): (w: Option<nat>)
    requires n <= |edits|
    ensures w.Some? ==> w.value < n && Covers(edits[w.value], i)
    ensures forall k :: (if w.Some? then w.value + 1 else 0) <= k < n ==> !Covers(edits[k], i)
  {
    if n == 0 then None
    else if Covers(edits[n - 1], i) then Some(n - 1)
    else LastWriter(edits, n - 1, i)
  }

  predicate Covers(e: ByteEdit, i: nat) {
    e.offset <= i < e.offset + |e.data|
  }

  /**
   * What a delta means: it applies exactly when every edit fits in the page, and then
   * each byte is the one written by the last edit covering it, or the old byte.
   */
  lemma {:induction false} DeltaMeaning(page: Page, edits: seq<ByteEdit>)
    ensures ApplyEdits(page, edits).Ok? <==>
              forall k :: 0 <= k < |edits| ==> edits[k].offset + |edits[k].data| <= PAGE_SIZE
    ensures ApplyEdits(page, edits).Ok? ==>
              forall i :: 0 <= i < PAGE_SIZE ==>
                var w := LastWriter(edits, |edits|, i);
                ApplyEdits(page, edits).value[i] ==
                (if w.Some? then edits[w.value].data[i - edits[w.value].offset] else page[i])
    decreases |edits|
  {
    if edits != [] {
      var e, rest := edits[0], edits[1..];
      if e.offset + |e.data| <= PAGE_SIZE {
        DeltaMeaning(Patch(page, e.offset, e.data), rest);
        assert forall k :: 1 <= k < |edits| ==> edits[k] == rest[k - 1];
        forall i: nat | i < PAGE_SIZE
          ensures var w, w' := LastWriter(edits, |edits|, i), LastWriter(rest, |rest|, i);
                  w == if w'.Some? then Some(w'.value + 1) else if Covers(e, i) then Some(0) else None
        {
          LastWriterUnique(edits, rest, i);
        }
      }
    }
  }

  lemma LastWriterUnique(edits: seq<ByteEdit>, rest: seq<ByteEdit>, i: nat)
    requires edits != [] && rest == edits[1..]
    ensures var w, w' := LastWriter(edits, |edits|, i), LastWriter(rest, |rest|, i);
            w == if w'.Some? then Some(w'.value + 1) else if Covers(edits[0], i) then Some(0) else None
  {
  }

  /** Apply `v` on top of `page` in place. On failure the page contents are unspecified. */
  method ApplyTo(v: PageVersion, page: array<byte>) returns (r: Result<(), PageError>)
    requires page.Length == PAGE_SIZE
    modifies page
    ensures r.Ok? <==> Apply(v, old(page[..])).Ok?
    ensures r.Ok? ==> page[..] == Apply(v, old(page[..])).value
    ensures r.Err? ==> r.error == Apply(v, old(page[..])).error
  {
    match v
    case Image(bytes) =>
      if |bytes| != PAGE_SIZE {
        return Err(BadImageSize(|bytes|));
      }
      forall i | 0 <= i < PAGE_SIZE { page[i] := bytes[i]; }
      assert page[..] == bytes;
      return Ok(());
    case Delta(edits) =>
      ghost var start: Page := page[..];
      for k := 0 to |edits|
        invariant ApplyEdits(start, edits) == ApplyEdits(page[..], edits[k..])
      {
        var e := edits[k];
        assert edits[k..][0] == e && edits[k..][1..] == edits[k + 1..];
        if e.offset + |e.data| > PAGE_SIZE {
          return Err(EditOutOfBounds(e.offset, |e.data|));
        }
        ghost var before: Page := page[..];
        forall i | 0 <= i < |e.data| { page[e.offset + i] := e.data[i]; }
        assert page[..] == Patch(before, e.offset, e.data);
      }
      return Ok(());
    case WalRecord(_, _) =>
      return Err(NeedsRedo);
  }
}
