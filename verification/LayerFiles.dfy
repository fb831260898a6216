/** Writing and reading layer files, as loops over a buffer and a position. */
module LayerFiles {
  import opened Common
  import opened Bytes
  import opened Pages
  import opened KeyOrder
  import opened RepositorySpec
  import opened LayerCodec

  // ---- Writing ----

  method AppendEdits(buf: seq<byte>, edits: seq<ByteEdit>) returns (out: seq<byte>)
    ensures out == buf + WriteEdits(edits)
  {
    hide Be;
    out := buf;
    assert edits[0..] == edits;
    for i := 0 to |edits|
      invariant out + WriteEdits(edits[i..]) == buf + WriteEdits(edits)
    {
      assert edits[i..][1..] == edits[i + 1..];
      ghost var was, more := out, WriteEdits(edits[i + 1..]);
      var e := edits[i];
      out := out + Be(e.offset, 2) + Be(|e.data|, 2) + e.data;
      assert was + (Be(e.offset, 2) + (Be(|e.data|, 2) + (e.data + more))) == out + more;
    }
    assert out + [] == out;
  }

  /** Append a version to a buffer. */
  method AppendVersion(buf: seq<byte>, v: PageVersion) returns (out: seq<byte>)
    ensures out == buf + WriteVersion(v)
  {
    hide Be, WriteEdits;
    match v
    case Image(bytes) =>
      out := buf + [0] + bytes;
    case Delta(edits) =>
      out := AppendEdits(buf + [1] + Be(|edits|, 2), edits);
    case WalRecord(willInit, rec) =>
      out := buf + [2] + [if willInit then 1 else 0] + Be(|rec|, 4) + rec;
  }

  lemma EntriesStep(m: Versions, keys: seq<VersionKey>, i: nat)
    requires i < |keys| && forall k :: k in keys ==> k in m
    ensures WriteEntries(m, keys[i..]) == WriteEntry(keys[i], m[keys[i]]) + WriteEntries(m, keys[i + 1..])
  {
  }

  method SerializeLayer(l: Layer) returns (buf: seq<byte>)
    ensures buf == Serialize(l)
  {
    hide Be, SortedKeys, Less, WriteEntry, WriteEntries;
    buf := Be(LAYER_MAGIC, 4) + [LAYER_VERSION] + Be(l.id, 8) + Be(|l.entries|, 4);
    ghost var header := buf;
    var keys := SortedKeys(l.entries.Keys);
    assert keys[0..] == keys;
    ghost var body := WriteEntries(l.entries, keys);
    assert header + body == Serialize(l);
    hide Serialize;
    for i := 0 to |keys|
      invariant buf + WriteEntries(l.entries, keys[i..]) == header + body
    {
      EntriesStep(l.entries, keys, i);
      var k := keys[i];
      Reassociate(buf, WriteEntry(k, l.entries[k]), WriteEntries(l.entries, keys[i + 1..]));
      buf := AppendEntry(buf, k, l.entries[k]);
    }
    NoEntries(l.entries, keys[|keys|..]);
    assert buf + [] == buf;
  }

  lemma NoEntries(m: Versions, keys: seq<VersionKey>)
    requires keys == []
    ensures WriteEntries(m, keys) == []
  {
  }

  method AppendEntry(buf: seq<byte>, k: VersionKey, v: PageVersion) returns (out: seq<byte>)
    ensures out == buf + WriteEntry(k, v)
  {
    hide Be, WriteVersion;
    var r := k.page.rel;
    out := buf + Be(r.spcNode, 4) + Be(r.dbNode, 4) + Be(r.relNode, 4) + [ForkNumber(r.fork)] + Be(k.page.block, 4) +
      Be(k.lsn, 8);
    ghost var key := out;
    out := AppendVersion(out, v);
    assert out == buf + WriteEntry(k, v);
  }

  // ---- Reading: the unread suffix stands for the position ----

  method ParseEdits(s: seq<byte>, n: nat) returns (r: Parsed<seq<ByteEdit>>)
    ensures r == ReadEdits(s, n)
  {
    hide ReadU16, Take;
    var edits, rest := [], s;
    NothingKnown(ReadEdits(s, n));
    for i := 0 to n
      invariant ReadEdits(s, n) == After(edits, ReadEdits(rest, n - i))
    {
      var offset := ReadU16(rest);
      if offset.Err? {
        return Err(offset.error);
      }
      var len := ReadU16(offset.value.1);
      if len.Err? {
        return Err(len.error);
      }
      var data := Take(len.value.1, len.value.0, Truncated("edit data"));
      if data.Err? {
        return Err(data.error);
      }
      var e := ByteEdit(offset.value.0, data.value.0);
      AfterStep(edits, e, ReadEdits(data.value.1, n - i - 1));
      edits, rest := edits + [e], data.value.1;
    }
    assert edits + [] == edits;
    return Ok((edits, rest));
  }

  /** The result of reading edits when some are already read. */
  function After(known: seq<ByteEdit>, rest: Parsed<seq<ByteEdit>>): Parsed<seq<ByteEdit>> {
    if rest.Ok? then Ok((known + rest.value.0, rest.value.1)) else rest
  }

  lemma NothingKnown(rest: Parsed<seq<ByteEdit>>)
    ensures After([], rest) == rest
  {
    if rest.Ok? {
      assert [] + rest.value.0 == rest.value.0;
    }
  }

  lemma AfterStep(known: seq<ByteEdit>, e: ByteEdit, rest: Parsed<seq<ByteEdit>>)
    ensures After(known, After([e], rest)) == After(known + [e], rest)
  {
    if rest.Ok? {
      assert known + ([e] + rest.value.0) == (known + [e]) + rest.value.0;
    }
  }

  method ParseVersion(s: seq<byte>) returns (r: Parsed<PageVersion>)
    ensures r == ReadVersion(s)
  {
    hide ReadU16, ReadU32, Take, ReadEdits;
    if s == [] {
      return Err(Truncated("version tag"));
    }
    var tag, rest := s[0], s[1..];
    if tag == 0 {
      var bytes := Take(rest, PAGE_SIZE, Truncated("image"));
      if bytes.Err? {
        return Err(bytes.error);
      }
      return Ok((Image(bytes.value.0), bytes.value.1));
    } else if tag == 1 {
      var n := ReadU16(rest);
      if n.Err? {
        return Err(n.error);
      }
      var edits := ParseEdits(n.value.1, n.value.0);
      if edits.Err? {
        return Err(edits.error);
      }
      return Ok((Delta(edits.value.0), edits.value.1));
    } else if tag == 2 {
      if rest == [] {
        return Err(Truncated("will_init"));
      }
      var len := ReadU32(rest[1..]);
      if len.Err? {
        return Err(len.error);
      }
      var rec := Take(len.value.1, len.value.0, Truncated("wal record"));
      if rec.Err? {
        return Err(rec.error);
      }
      return Ok((WalRecord(rest[0] != 0, rec.value.0), rec.value.1));
    } else {
      return Err(BadVersionTag(tag));
    }
  }

  method DeserializeLayer(s: seq<byte>) returns (r: Result<Layer, PageError>)
    ensures r == Deserialize(s)
  {
    hide ReadU32, ReadU64, ReadByte, ReadKey, ReadVersion;
    var magic := ReadU32(s);
    if magic.Err? {
      return Err(magic.error);
    }
    if magic.value.0 != LAYER_MAGIC {
      return Err(Truncated("layer magic"));
    }
    var ver := ReadByte(magic.value.1, "layer version");
    if ver.Err? {
      return Err(ver.error);
    }
    if ver.value.0 != LAYER_VERSION {
      return Err(BadVersionTag(ver.value.0));
    }
    var id := ReadU64(ver.value.1);
    if id.Err? {
      return Err(id.error);
    }
    var count := ReadU32(id.value.1);
    if count.Err? {
      return Err(count.error);
    }
    var entries := ParseEntries(count.value.1, count.value.0);
    if entries.Err? {
      return Err(entries.error);
    }
    return Ok(Layer(id.value.0, entries.value.0));
  }

  method ParseEntries(s: seq<byte>, count: nat) returns (r: Parsed<Versions>)
    ensures r == ReadEntries(s, count, map[])
  {
    hide ReadKey, ReadVersion;
    var entries: Versions, rest := map[], s;
    for i := 0 to count
      invariant ReadEntries(s, count, map[]) == ReadEntries(rest, count - i, entries)
    {
      var key := ReadKey(rest);
      if key.Err? {
        return Err(key.error);
      }
      var version := ParseVersion(key.value.1);
      if version.Err? {
        return Err(version.error);
      }
      entries, rest := entries[key.value.0 := version.value.0], version.value.1;
    }
    return Ok((entries, rest));
  }
}
