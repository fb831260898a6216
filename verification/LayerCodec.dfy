/** The byte format of layer files and of ingested modifications. */
module LayerCodec {
  import opened Common
  import opened Bytes
  import opened Pages
  import opened KeyOrder
  import opened RepositorySpec

  const LAYER_MAGIC: u32 := 0x5350_4C31
  const LAYER_VERSION: byte := 1

  type Entry = (VersionKey, PageVersion)
  type Parsed<T> = Result<(T, seq<byte>), PageError>

  // ---- Writing ----

  function WriteEdits(edits: seq<ByteEdit>): seq<byte> {
    if edits == [] then []
    else Be(edits[0].offset, 2) + (Be(|edits[0].data|, 2) + (edits[0].data + WriteEdits(edits[1..])))
  }

  function WriteVersion(v: PageVersion): seq<byte> {
    match v
    case Image(bytes) => [0] + bytes
    case Delta(edits) => [1] + (Be(|edits|, 2) + WriteEdits(edits))
    case WalRecord(willInit, rec) => [2] + ([if willInit then 1 else 0] + (Be(|rec|, 4) + rec))
  }

  function WriteEntry(k: VersionKey, v: PageVersion): seq<byte> {
    var r := k.page.rel;
    Be(r.spcNode, 4) + (Be(r.dbNode, 4) + (Be(r.relNode, 4) + ([ForkNumber(r.fork)] +
      (Be(k.page.block, 4) + (Be(k.lsn, 8) + WriteVersion(v))))))
  }

  function WriteEntries(m: Versions, keys: seq<VersionKey>): seq<byte>
    requires forall k :: k in keys ==> k in m
  {
    if keys == [] then [] else WriteEntry(keys[0], m[keys[0]]) + WriteEntries(m, keys[1..])
  }

  function Serialize(l: Layer): seq<byte> {
    Be(LAYER_MAGIC, 4) + ([LAYER_VERSION] + (Be(l.id, 8) + (Be(|l.entries|, 4) +
      WriteEntries(l.entries, SortedKeys(l.entries.Keys)))))
  }

  // ---- Reading: each parser takes what it needs off the front ----

  function ReadByte(s: seq<byte>, what: string): Parsed<byte> {
    if s == [] then Err(Truncated(what)) else Ok((s[0], s[1..]))
  }

  function ReadU16(s: seq<byte>): Parsed<u16> {
    var (b, s) :- Take(s, 2, Truncated("u16"));
    Spans(); FromBeBound(b);
    Ok((FromBe(b), s))
  }

  function ReadU32(s: seq<byte>): Parsed<u32> {
    var (b, s) :- Take(s, 4, Truncated("u32"));
    Spans(); FromBeBound(b);
    Ok((FromBe(b), s))
  }

  function ReadU64(s: seq<byte>): Parsed<u64> {
    var (b, s) :- Take(s, 8, Truncated("u64"));
    Spans(); FromBeBound(b);
    Ok((FromBe(b), s))
  }

  function ReadFork(s: seq<byte>): Parsed<Fork> {
    var (b, s) :- ReadByte(s, "fork");
    if ForkOf(b).None? then Err(Truncated("fork")) else Ok((ForkOf(b).value, s))
  }

  function ReadEdits(s: seq<byte>, n: nat): Parsed<seq<ByteEdit>>
    decreases n
  {
    if n == 0 then Ok(([], s))
    else
      var (offset, s) :- ReadU16(s);
      var (len, s) :- ReadU16(s);
      var (data, s) :- Take(s, len, Truncated("edit data"));
      var (rest, s) :- ReadEdits(s, n - 1);
      Ok(([ByteEdit(offset, data)] + rest, s))
  }

  function ReadVersion(s: seq<byte>): Parsed<PageVersion> {
    var (tag, s) :- ReadByte(s, "version tag");
    if tag == 0 then
      var (bytes, s) :- Take(s, PAGE_SIZE, Truncated("image"));
      Ok((Image(bytes), s))
    else if tag == 1 then
      var (n, s) :- ReadU16(s);
      var (edits, s) :- ReadEdits(s, n);
      Ok((Delta(edits), s))
    else if tag == 2 then
      var (init, s) :- ReadByte(s, "will_init");
      var (len, s) :- ReadU32(s);
      var (rec, s) :- Take(s, len, Truncated("wal record"));
      Ok((WalRecord(init != 0, rec), s))
    else Err(BadVersionTag(tag))
  }

  function ReadKey(s: seq<byte>): Parsed<VersionKey> {
    var (spc, s) :- ReadU32(s);
    var (db, s) :- ReadU32(s);
    var (rel, s) :- ReadU32(s);
    var (fork, s) :- ReadFork(s);
    var (block, s) :- ReadU32(s);
    var (lsn, s) :- ReadU64(s);
    Ok((VersionKey(PageKey(RelTag(spc, db, rel, fork), block), lsn), s))
  }

  function ReadEntry(s: seq<byte>): Parsed<Entry> {
    var (k, s) :- ReadKey(s);
    var (v, s) :- ReadVersion(s);
    Ok(((k, v), s))
  }

  /** Read `n` entries into `m`, later ones replacing earlier ones. */
  function ReadEntries(s: seq<byte>, n: nat, m: Versions): Parsed<Versions>
    decreases n
  {
    if n == 0 then Ok((m, s))
    else
      var (e, s) :- ReadEntry(s);
      ReadEntries(s, n - 1, m[e.0 := e.1])
  }

  function Deserialize(s: seq<byte>): Result<Layer, PageError> {
    var (magic, s) :- ReadU32(s);
    if magic != LAYER_MAGIC then Err(Truncated("layer magic"))
    else
      var (ver, s) :- ReadByte(s, "layer version");
      if ver != LAYER_VERSION then Err(BadVersionTag(ver))
      else
        var (id, s) :- ReadU64(s);
        var (count, s) :- ReadU32(s);
        var (entries, _) :- ReadEntries(s, count, map[]);
        Ok(Layer(id, entries))
  }

  function EncodeModification(m: Modification): seq<byte> {
    WriteEntry(m.Key(), m.version)
  }

  function DecodeModification(s: seq<byte>): Result<Modification, PageError> {
    var (e, _) :- ReadEntry(s);
    Ok(Modification(e.0.page.rel, e.0.page.block, e.0.lsn, e.1))
  }

  // ---- Round trips ----

  /** The field widths of the format. */
  predicate VersionFits(v: PageVersion) {
    match v
    case Image(bytes) => |bytes| == PAGE_SIZE
    case Delta(edits) => |edits| < 0x1_0000 && forall i :: 0 <= i < |edits| ==> |edits[i].data| < 0x1_0000
    case WalRecord(_, rec) => |rec| < 0x1_0000_0000
  }

  predicate LayerFits(l: Layer) {
    && l.id < 0x1_0000_0000_0000_0000 && |l.entries| < 0x1_0000_0000
    && forall k :: k in l.entries ==> k.lsn < 0x1_0000_0000_0000_0000 && VersionFits(l.entries[k])
  }

  lemma U16Front(n: u16, rest: seq<byte>)
    ensures ReadU16(Be(n, 2) + rest) == Ok((n, rest))
  {
    Spans();
    BeRoundTrip(n, 2);
    TakeFront(Be(n, 2), rest, Truncated("u16"));
  }

  lemma U32Front(n: u32, rest: seq<byte>)
    ensures ReadU32(Be(n, 4) + rest) == Ok((n, rest))
  {
    Spans();
    BeRoundTrip(n, 4);
    TakeFront(Be(n, 4), rest, Truncated("u32"));
  }

  lemma U64Front(n: u64, rest: seq<byte>)
    ensures ReadU64(Be(n, 8) + rest) == Ok((n, rest))
  {
    Spans();
    BeRoundTrip(n, 8);
    TakeFront(Be(n, 8), rest, Truncated("u64"));
  }

  lemma ByteFront(b: byte, rest: seq<byte>, what: string)
    ensures ReadByte([b] + rest, what) == Ok((b, rest))
  {
  }

  lemma {:induction false} EditsRoundTrip(edits: seq<ByteEdit>, rest: seq<byte>)
    requires forall i :: 0 <= i < |edits| ==> |edits[i].data| < 0x1_0000
    ensures ReadEdits(WriteEdits(edits) + rest, |edits|) == Ok((edits, rest))
    decreases |edits|
  {
    hide ReadU16, Be, Take;
    if edits == [] {
      assert [] + rest == rest;
    } else {
      var e, more := edits[0], WriteEdits(edits[1..]) + rest;
      var offset, len := Be(e.offset, 2), Be(|e.data|, 2);
      assert WriteEdits(edits) + rest == offset + (len + (e.data + more));
      U16Front(e.offset, len + (e.data + more));
      U16Front(|e.data|, e.data + more);
      TakeFront(e.data, more, Truncated("edit data"));
      EditsRoundTrip(edits[1..], rest);
      assert edits == [e] + edits[1..];
    }
  }

  lemma VersionRoundTrip(v: PageVersion, rest: seq<byte>)
    requires VersionFits(v)
    ensures ReadVersion(WriteVersion(v) + rest) == Ok((v, rest))
  {
    hide ReadU16, ReadU32, Be, Take, ReadByte, ReadEdits, WriteEdits;
    match v
    case Image(bytes) =>
      assert ([0] + bytes) + rest == [0] + (bytes + rest);
      ByteFront(0, bytes + rest, "version tag");
      TakeFront(bytes, rest, Truncated("image"));
    case Delta(edits) =>
      var n, body := Be(|edits|, 2), WriteEdits(edits);
      assert ([1] + (n + body)) + rest == [1] + (n + (body + rest));
      ByteFront(1, n + (body + rest), "version tag");
      U16Front(|edits|, body + rest);
      EditsRoundTrip(edits, rest);
    case WalRecord(willInit, rec) =>
      var init: byte, len := if willInit then 1 else 0, Be(|rec|, 4);
      assert ([2] + ([init] + (len + rec))) + rest == [2] + ([init] + (len + (rec + rest)));
      ByteFront(2, [init] + (len + (rec + rest)), "version tag");
      ByteFront(init, len + (rec + rest), "will_init");
      U32Front(|rec|, rec + rest);
      TakeFront(rec, rest, Truncated("wal record"));
  }

  lemma KeyRoundTrip(k: VersionKey, rest: seq<byte>)
    requires k.lsn < 0x1_0000_0000_0000_0000
    ensures var r := k.page.rel;
            ReadKey(Be(r.spcNode, 4) + (Be(r.dbNode, 4) + (Be(r.relNode, 4) + ([ForkNumber(r.fork)] +
              (Be(k.page.block, 4) + (Be(k.lsn, 8) + rest))))))
            == Ok((k, rest))
  {
    hide ReadU32, ReadU64, Be, ReadByte;
    var r := k.page.rel;
    var s5 := Be(k.lsn, 8) + rest;
    var s4 := Be(k.page.block, 4) + s5;
    var s3 := [ForkNumber(r.fork)] + s4;
    var s2 := Be(r.relNode, 4) + s3;
    var s1 := Be(r.dbNode, 4) + s2;
    U32Front(r.spcNode, s1);
    U32Front(r.dbNode, s2);
    U32Front(r.relNode, s3);
    ByteFront(ForkNumber(r.fork), s4, "fork");
    U32Front(k.page.block, s5);
    U64Front(k.lsn, rest);
  }

  lemma EntryRoundTrip(k: VersionKey, v: PageVersion, rest: seq<byte>)
    requires k.lsn < 0x1_0000_0000_0000_0000 && VersionFits(v)
    ensures ReadEntry(WriteEntry(k, v) + rest) == Ok(((k, v), rest))
  {
    hide ReadKey, ReadVersion, Be, WriteVersion;
    var r := k.page.rel;
    var body := WriteVersion(v);
    KeyRoundTrip(k, body + rest);
    VersionRoundTrip(v, rest);
    assert WriteEntry(k, v) + rest == Be(r.spcNode, 4) + (Be(r.dbNode, 4) + (Be(r.relNode, 4) + ([ForkNumber(r.fork)] +
      (Be(k.page.block, 4) + (Be(k.lsn, 8) + (body + rest))))));
  }

  /** Every modification within the widths survives its wire form. */
  lemma ModificationRoundTrip(m: Modification)
    requires m.lsn < 0x1_0000_0000_0000_0000 && VersionFits(m.version)
    ensures DecodeModification(EncodeModification(m)) == Ok(m)
  {
    EntryRoundTrip(m.Key(), m.version, []);
    assert EncodeModification(m) + [] == EncodeModification(m);
  }

  function Only(m: Versions, keys: seq<VersionKey>): Versions {
    map k | k in keys && k in m :: m[k]
  }

  lemma {:induction false} EntriesRoundTrip(m: Versions, keys: seq<VersionKey>, into: Versions, rest: seq<byte>)
    requires forall k :: k in keys ==> k in m && k.lsn < 0x1_0000_0000_0000_0000 && VersionFits(m[k])
    ensures ReadEntries(WriteEntries(m, keys) + rest, |keys|, into) == Ok((into + Only(m, keys), rest))
    decreases |keys|
  {
    hide ReadEntry, WriteEntry, VersionFits;
    if keys == [] {
      assert [] + rest == rest && into + Only(m, keys) == into;
    } else {
      var k := keys[0];
      var more := WriteEntries(m, keys[1..]) + rest;
      assert WriteEntries(m, keys) + rest == WriteEntry(k, m[k]) + more;
      EntryRoundTrip(k, m[k], more);
      EntriesRoundTrip(m, keys[1..], into[k := m[k]], rest);
      assert into[k := m[k]] + Only(m, keys[1..]) == into + Only(m, keys);
    }
  }

  lemma HeaderRoundTrip(id: u64, count: u32, body: seq<byte>)
    ensures Deserialize(Be(LAYER_MAGIC, 4) + ([LAYER_VERSION] + (Be(id, 8) + (Be(count, 4) + body)))) ==
            var entries := ReadEntries(body, count, map[]);
            if entries.Ok? then Ok(Layer(id, entries.value.0)) else Err(entries.error)
  {
    hide ReadU32, ReadU64, Be, ReadByte, ReadEntries;
    U32Front(LAYER_MAGIC, [LAYER_VERSION] + (Be(id, 8) + (Be(count, 4) + body)));
    ByteFront(LAYER_VERSION, Be(id, 8) + (Be(count, 4) + body), "layer version");
    U64Front(id, Be(count, 4) + body);
    U32Front(count, body);
  }

  /** Layer files round-trip: the same id and entries come back. */
  lemma LayerRoundTrip(l: Layer)
    requires LayerFits(l)
    ensures Deserialize(Serialize(l)) == Ok(l)
  {
    hide Deserialize, Be, ReadEntries, WriteEntries, VersionFits, SortedKeys, Less;
    var keys := SortedKeys(l.entries.Keys);
    var body := WriteEntries(l.entries, keys);
    HeaderRoundTrip(l.id, |l.entries|, body);
    EntriesRoundTrip(l.entries, keys, map[], []);
    assert body + [] == body;
    assert map[] + Only(l.entries, keys) == l.entries;
  }

  // ---- The widths are exactly what the format can carry ----

  lemma {:induction false} ReadEditsFit(s: seq<byte>, n: nat)
    ensures ReadEdits(s, n).Ok? ==> var edits := ReadEdits(s, n).value.0;
              |edits| == n && forall i :: 0 <= i < |edits| ==> |edits[i].data| < 0x1_0000
    decreases n
  {
    hide ReadU16;
    if n > 0 && ReadEdits(s, n).Ok? {
      var s1 := ReadU16(s).value.1;
      var (len, s2) := ReadU16(s1).value;
      ReadEditsFit(Take(s2, len, Truncated("edit data")).value.1, n - 1);
    }
  }

  lemma U32Bound(s: seq<byte>)
    ensures ReadU32(s).Ok? ==> ReadU32(s).value.0 < 0x1_0000_0000
  {
  }

  lemma U64Bound(s: seq<byte>)
    ensures ReadU64(s).Ok? ==> ReadU64(s).value.0 < 0x1_0000_0000_0000_0000
  {
  }

  lemma ReadVersionFits(s: seq<byte>)
    ensures ReadVersion(s).Ok? ==> VersionFits(ReadVersion(s).value.0)
  {
    hide ReadU16, ReadU32, ReadEdits;
    if ReadVersion(s).Ok? && s[0] == 1 {
      var (n, s1) := ReadU16(s[1..]).value;
      ReadEditsFit(s1, n);
    } else if ReadVersion(s).Ok? && s[0] == 2 {
      U32Bound(s[1..][1..]);
    }
  }

  lemma KeyFits(s: seq<byte>)
    requires ReadKey(s).Ok?
    ensures ReadKey(s).value.0.lsn < 0x1_0000_0000_0000_0000
  {
  }

  lemma ReadEntryFits(s: seq<byte>)
    ensures ReadEntry(s).Ok? ==>
            ReadEntry(s).value.0.0.lsn < 0x1_0000_0000_0000_0000 && VersionFits(ReadEntry(s).value.0.1)
  {
    hide ReadKey, ReadVersion, VersionFits;
    if ReadKey(s).Ok? {
      KeyFits(s);
      ReadVersionFits(ReadKey(s).value.1);
    }
  }

  ghost predicate EntriesFit(m: Versions) {
    forall k :: k in m ==> k.lsn < 0x1_0000_0000_0000_0000 && VersionFits(m[k])
  }

  lemma {:induction false} ReadEntriesFit(s: seq<byte>, n: nat, m: Versions)
    requires EntriesFit(m)
    ensures ReadEntries(s, n, m).Ok? ==>
            EntriesFit(ReadEntries(s, n, m).value.0) && |ReadEntries(s, n, m).value.0| <= |m| + n
    decreases n
  {
    hide ReadEntry, VersionFits;
    if n > 0 && ReadEntry(s).Ok? {
      ReadEntryFits(s);
      var (e, s1) := ReadEntry(s).value;
      ReadEntriesFit(s1, n - 1, m[e.0 := e.1]);
    }
  }

  lemma DeserializedFits(s: seq<byte>)
    ensures Deserialize(s).Ok? ==> LayerFits(Deserialize(s).value)
  {
    hide ReadU32, ReadU64, ReadByte, ReadEntries, VersionFits;
    if Deserialize(s).Ok? {
      var s1 := ReadU32(s).value.1;
      var s2 := ReadByte(s1, "layer version").value.1;
      var s3 := ReadU64(s2).value.1;
      var (count, s4) := ReadU32(s3).value;
      U64Bound(s2);
      U32Bound(s3);
      ReadEntriesFit(s4, count, map[]);
    }
  }

  /** A layer survives its file form if and only if it is within the field widths. */
  lemma RoundTripsIffFits(l: Layer)
    ensures Deserialize(Serialize(l)) == Ok(l) <==> LayerFits(l)
  {
    hide Deserialize, Serialize, LayerFits;
    if LayerFits(l) {
      LayerRoundTrip(l);
    }
    DeserializedFits(Serialize(l));
  }

  /** So every range scan of the restored layer agrees with the original. */
  lemma RestoredRangeAgrees(l: Layer, page: PageKey, lsn: Lsn)
    requires LayerFits(l)
    ensures Deserialize(Serialize(l)).Ok?
            && Range(Deserialize(Serialize(l)).value.entries, page, lsn) == Range(l.entries, page, lsn)
  {
    LayerRoundTrip(l);
  }
}
