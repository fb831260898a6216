/**
 * Decoding one WAL record: a header pass over block references, then a data pass over
 * images and block data. Parsers here consume the front of the remaining bytes.
 */
module WalRecord {
  import opened Common
  import opened Bytes
  import opened Pages
  import opened WalErrors

  datatype Locator = Locator(spc: u32, db: u32, rel: u32)

  datatype DecodedImage = DecodedImage(bytes: seq<byte>, holeOffset: u16, holeLength: u16, compression: Compression,
      apply: bool)

  datatype DecodedBlock = DecodedBlock(rel: RelTag, blkno: u32, willInit: bool, image: Option<DecodedImage>,
      data: seq<byte>)

  datatype DecodedWalRecord = DecodedWalRecord(lsn: Lsn, rmid: byte, info: byte, xid: u32, mainData: seq<byte>,
      blocks: seq<DecodedBlock>)

  /** What the header pass learns of an image, for the data pass to fetch. */
  datatype ImageMeta = ImageMeta(len: u16, holeOffset: u16, holeLength: u16, compression: Compression, apply: bool)

  datatype BlockWork = BlockWork(rel: RelTag, blkno: u32, willInit: bool, hasData: bool, dataLen: u16,
      image: Option<ImageMeta>)

  type Parsed<T> = Result<(T, seq<byte>), WalDecodeError>

  const MAX_BLOCK_ID: byte := 32
  const DATA_SHORT: byte := 255
  const DATA_LONG: byte := 254
  const ORIGIN: byte := 253
  const TOPLEVEL_XID: byte := 252

  // ---- Bits ----

  /** Whether the bit of weight `w` (a power of two) is set. */
  predicate Bit(x: byte, w: nat)
    requires w > 0
  {
    (x / w) % 2 == 1
  }

  function Flag(b: bool, w: byte): byte {
    if b then w else 0
  }

  function CompressionOf(info: byte): Compression {
    if Bit(info, 4) then Pglz else if Bit(info, 8) then Lz4 else if Bit(info, 16) then Zstd else Uncompressed
  }

  /** Hole length in 16-bit arithmetic: explicit when compressed, else what the image lacks of a page. */
  function HoleLength(info: byte, explicit: u16, imageLen: u16): u16 {
    if !Bit(info, 1) then 0
    else if CompressionOf(info) != Uncompressed then explicit
    else (PAGE_SIZE - imageLen) % 0x1_0000
  }

  // ---- Bounds-checked reads ----

  function U8(s: seq<byte>, what: string): (r: Parsed<byte>)
    ensures r.Ok? ==> |r.value.1| == |s| - 1
  {
    if s == [] then Err(WalDecodeError.Truncated(what)) else Ok((s[0], s[1..]))
  }

  function U16(s: seq<byte>, what: string): (r: Parsed<u16>)
    ensures r.Ok? ==> |r.value.1| == |s| - 2
  {
    var (b, rest) :- Take(s, 2, WalDecodeError.Truncated(what));
    FromLeBound(b);
    Spans();
    Ok((FromLe(b), rest))
  }

  function U32(s: seq<byte>, what: string): (r: Parsed<u32>)
    ensures r.Ok? ==> |r.value.1| == |s| - 4
  {
    var (b, rest) :- Take(s, 4, WalDecodeError.Truncated(what));
    FromLeBound(b);
    Spans();
    Ok((FromLe(b), rest))
  }

  // ---- Header pass ----

  function ParseImageMeta(s: seq<byte>): (r: Parsed<ImageMeta>)
    ensures r.Ok? ==> |r.value.1| < |s|
  {
    var (len, s1) :- U16(s, "bimg_len");
    var (holeOffset, s2) :- U16(s1, "hole_offset");
    var (info, s3) :- U8(s2, "bimg_info");
    if Bit(info, 1) && CompressionOf(info) != Uncompressed then
      var (explicit, s4) :- U16(s3, "hole_length");
      Ok((ImageMeta(len, holeOffset, HoleLength(info, explicit, len), CompressionOf(info), Bit(info, 2)), s4))
    else
      Ok((ImageMeta(len, holeOffset, HoleLength(info, 0, len), CompressionOf(info), Bit(info, 2)), s3))
  }

  function ParseLocator(s: seq<byte>, sameRel: bool, last: Option<Locator>): (r: Parsed<Locator>)
    ensures r.Ok? ==> |r.value.1| <= |s|
  {
    if sameRel then
      if last.None? then Err(SameRelWithoutPrev) else Ok((last.value, s))
    else
      var (spc, s1) :- U32(s, "spcOid");
      var (db, s2) :- U32(s1, "dbOid");
      var (rel, s3) :- U32(s2, "relNumber");
      Ok((Locator(spc, db, rel), s3))
  }

  /** A block reference after its id byte. */
  function ParseBlock(s: seq<byte>, last: Option<Locator>): (r: Parsed<BlockWork>)
    ensures r.Ok? ==> |r.value.1| < |s|
  {
    var (flags, s1) :- U8(s, "fork_flags");
    var (dataLen, s2) :- U16(s1, "block data_len");
    if Bit(flags, 16) then
      var (meta, s3) :- ParseImageMeta(s2);
      ParseBlockTail(s3, last, flags, dataLen, Some(meta))
    else ParseBlockTail(s2, last, flags, dataLen, None)
  }

  function ParseBlockTail(s: seq<byte>, last: Option<Locator>, flags: byte, dataLen: u16,
                          image: Option<ImageMeta>): (r: Parsed<BlockWork>)
    ensures r.Ok? ==> |r.value.1| < |s|
  {
    var (loc, s1) :- ParseLocator(s, Bit(flags, 128), last);
    var (blkno, s2) :- U32(s1, "blkno");
    var fork := ForkOf(flags % 16);
    if fork.None? then Err(BadFork(flags % 16))
    else
      var rel := RelTag(loc.spc, loc.db, loc.rel, fork.value);
      Ok((BlockWork(rel, blkno, Bit(flags, 64), Bit(flags, 32), dataLen, image), s2))
  }

  function LocatorOf(b: BlockWork): Locator {
    Locator(b.rel.spcNode, b.rel.dbNode, b.rel.relNode)
  }

  datatype Headers = Headers(blocks: seq<BlockWork>, mainLen: u32)

  /** Everything up to and including the main-data length marker, which must come last. */
  function ParseHeaders(s: seq<byte>, last: Option<Locator>): (r: Parsed<Headers>)
    decreases |s|
  {
    var (id, s1) :- U8(s, "block_id");
    if id == DATA_SHORT then
      var (n, s2) :- U8(s1, "main_data_len");
      Ok((Headers([], n), s2))
    else if id == DATA_LONG then
      var (n, s2) :- U32(s1, "main_data_len");
      Ok((Headers([], n), s2))
    else if id == ORIGIN then
      var (_, s2) :- Take(s1, 2, WalDecodeError.Truncated("replication origin"));
      ParseHeaders(s2, last)
    else if id == TOPLEVEL_XID then
      var (_, s2) :- Take(s1, 8, WalDecodeError.Truncated("toplevel xid"));
      ParseHeaders(s2, last)
    else if id <= MAX_BLOCK_ID then
      var (b, s2) :- ParseBlock(s1, last);
      var (h, s3) :- ParseHeaders(s2, Some(LocatorOf(b)));
      Ok((Headers([b] + h.blocks, h.mainLen), s3))
    else Err(BadBlockId(id))
  }

  // ---- Data pass ----

  function ParseBlockData(s: seq<byte>, b: BlockWork): Parsed<DecodedBlock> {
    if b.image.Some? then
      var m := b.image.value;
      var (bytes, s1) :- Take(s, m.len, WalDecodeError.Truncated("block image"));
      ParseOwnData(s1, b, Some(DecodedImage(bytes, m.holeOffset, m.holeLength, m.compression, m.apply)))
    else ParseOwnData(s, b, None)
  }

  function ParseOwnData(s: seq<byte>, b: BlockWork, image: Option<DecodedImage>): Parsed<DecodedBlock> {
    var (data, s1) :- Take(s, if b.hasData then b.dataLen else 0, WalDecodeError.Truncated("block data"));
    Ok((DecodedBlock(b.rel, b.blkno, b.willInit, image, data), s1))
  }

  function ParseData(s: seq<byte>, blocks: seq<BlockWork>): Parsed<seq<DecodedBlock>>
    decreases |blocks|
  {
    if blocks == [] then Ok(([], s))
    else
      var (b, s1) :- ParseBlockData(s, blocks[0]);
      var (rest, s2) :- ParseData(s1, blocks[1..]);
      Ok(([b] + rest, s2))
  }

  // ---- The whole record ----

  datatype FixedHeader = FixedHeader(totLen: u32, xid: u32, info: byte, rmid: byte)

  function ParseFixed(s: seq<byte>): Parsed<FixedHeader> {
    var (totLen, s1) :- U32(s, "xl_tot_len");
    var (xid, s2) :- U32(s1, "xl_xid");
    var (_, s3) :- Take(s2, 8, WalDecodeError.Truncated("xl_prev"));
    var (info, s4) :- U8(s3, "xl_info");
    var (rmid, s5) :- U8(s4, "xl_rmid");
    var (_, s6) :- Take(s5, 2, WalDecodeError.Truncated("xl_padding"));
    var (_, s7) :- Take(s6, 4, WalDecodeError.Truncated("xl_crc"));
    Ok((FixedHeader(totLen, xid, info, rmid), s7))
  }

  function DecodeWalRecord(lsn: Lsn, record: seq<byte>): Result<DecodedWalRecord, WalDecodeError> {
    var (fixed, s1) :- ParseFixed(record);
    if fixed.totLen < 24 then Err(ShortTotalLen(fixed.totLen))
    else if fixed.totLen != |record| then Err(BadTotalLen(fixed.totLen, |record|))
    else
      var (h, s2) :- ParseHeaders(s1, None);
      var (blocks, s3) :- ParseData(s2, h.blocks);
      var (main, _) :- Take(s3, h.mainLen, WalDecodeError.Truncated("main data"));
      Ok(DecodedWalRecord(lsn, fixed.rmid, fixed.info, fixed.xid, main, blocks))
  }

  // ---- The decoder as it runs: a cursor, a header loop and a data loop ----

  ghost function AfterBlocks(done: seq<BlockWork>, rest: Parsed<Headers>): Parsed<Headers> {
    if rest.Err? then rest else Ok((Headers(done + rest.value.0.blocks, rest.value.0.mainLen), rest.value.1))
  }

  /** The header loop: block references up to the main-data marker. */
  method ReadHeaders(start: seq<byte>) returns (r: Parsed<Headers>)
    ensures r == ParseHeaders(start, None)
  {
    hide ParseBlock;
    var s, blocks, last: Option<Locator> := start, [], None;
    ghost var whole := ParseHeaders(start, None);
    assert whole.Ok? ==> [] + whole.value.0.blocks == whole.value.0.blocks;
    while true
      invariant whole == AfterBlocks(blocks, ParseHeaders(s, last))
      decreases |s|
    {
      var id := U8(s, "block_id");
      if id.Err? {
        return Err(id.error);
      }
      var (kind, s1) := id.value;
      if kind == DATA_SHORT {
        var n := U8(s1, "main_data_len");
        if n.Err? {
          return Err(n.error);
        }
        assert blocks + [] == blocks;
        return Ok((Headers(blocks, n.value.0), n.value.1));
      } else if kind == DATA_LONG {
        var n := U32(s1, "main_data_len");
        if n.Err? {
          return Err(n.error);
        }
        assert blocks + [] == blocks;
        return Ok((Headers(blocks, n.value.0), n.value.1));
      } else if kind == ORIGIN || kind == TOPLEVEL_XID {
        var skipped := if kind == ORIGIN then Take(s1, 2, WalDecodeError.Truncated("replication origin"))
                       else Take(s1, 8, WalDecodeError.Truncated("toplevel xid"));
        if skipped.Err? {
          return Err(skipped.error);
        }
        s := skipped.value.1;
      } else if kind <= MAX_BLOCK_ID {
        var b := ParseBlock(s1, last);
        if b.Err? {
          return Err(b.error);
        }
        AfterBlocksSnoc(blocks, b.value.0, ParseHeaders(b.value.1, Some(LocatorOf(b.value.0))));
        s, blocks, last := b.value.1, blocks + [b.value.0], Some(LocatorOf(b.value.0));
      } else {
        return Err(BadBlockId(kind));
      }
    }
  }

  lemma AfterBlocksSnoc(done: seq<BlockWork>, b: BlockWork, rest: Parsed<Headers>)
    ensures AfterBlocks(done, AfterBlocks([b], rest)) == AfterBlocks(done + [b], rest)
  {
    if rest.Ok? {
      assert done + ([b] + rest.value.0.blocks) == done + [b] + rest.value.0.blocks;
    }
  }

  ghost function AfterData(done: seq<DecodedBlock>, rest: Parsed<seq<DecodedBlock>>): Parsed<seq<DecodedBlock>> {
    if rest.Err? then rest else Ok((done + rest.value.0, rest.value.1))
  }

  /** The data loop: for each block its image, then its own data. */
  method ReadData(start: seq<byte>, blocks: seq<BlockWork>) returns (r: Parsed<seq<DecodedBlock>>)
    ensures r == ParseData(start, blocks)
  {
    hide ParseBlockData;
    var s, decoded := start, [];
    ghost var whole := ParseData(start, blocks);
    assert blocks[0..] == blocks && (whole.Ok? ==> [] + whole.value.0 == whole.value.0);
    for i := 0 to |blocks|
      invariant whole == AfterData(decoded, ParseData(s, blocks[i..]))
    {
      assert blocks[i..][0] == blocks[i] && blocks[i..][1..] == blocks[i + 1..];
      var b := ParseBlockData(s, blocks[i]);
      if b.Err? {
        return Err(b.error);
      }
      ghost var rest := ParseData(b.value.1, blocks[i + 1..]);
      assert rest.Ok? ==> decoded + ([b.value.0] + rest.value.0) == decoded + [b.value.0] + rest.value.0;
      s, decoded := b.value.1, decoded + [b.value.0];
    }
    assert decoded + [] == decoded;
    return Ok((decoded, s));
  }

  method DecodeRecord(lsn: Lsn, record: seq<byte>) returns (r: Result<DecodedWalRecord, WalDecodeError>)
    ensures r == DecodeWalRecord(lsn, record)
  {
    hide ParseFixed, ParseHeaders, ParseData;
    var fixed := ParseFixed(record);
    if fixed.Err? {
      return Err(fixed.error);
    }
    var (f, s1) := fixed.value;
    if f.totLen < 24 {
      return Err(ShortTotalLen(f.totLen));
    }
    if f.totLen != |record| {
      return Err(BadTotalLen(f.totLen, |record|));
    }
    var h := ReadHeaders(s1);
    if h.Err? {
      return Err(h.error);
    }
    var blocks := ReadData(h.value.1, h.value.0.blocks);
    if blocks.Err? {
      return Err(blocks.error);
    }
    var main := Take(blocks.value.1, h.value.0.mainLen, WalDecodeError.Truncated("main data"));
    if main.Err? {
      return Err(main.error);
    }
    return Ok(DecodedWalRecord(lsn, f.rmid, f.info, f.xid, main.value.0, blocks.value.0));
  }
}
