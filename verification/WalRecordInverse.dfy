/**
 * The record-parse inverse: any record of the dialect, written by a specification encoder,
 * decodes to the record it describes, although headers and data are read in two passes.
 */
module WalRecordInverse {
  import opened Common
  import opened Bytes
  import opened Pages
  import opened KeyOrder
  import opened WalErrors
  import opened WalRecord

  /** An image with its raw info byte; `holeLength` is written only when holed and compressed. */
  datatype ImageSpec = ImageSpec(bytes: seq<byte>, holeOffset: u16, info: byte, holeLength: u16)

  /** `locator` absent means the block inherits the previous block's relation. */
  datatype BlockSpec = BlockSpec(
    id: byte, fork: Fork, willInit: bool, image: Option<ImageSpec>, data: Option<seq<byte>>,
    ignoredLen: u16, locator: Option<Locator>, blkno: u32)

  datatype HeaderItem = Block(block: BlockSpec) | Origin(origin: seq<byte>) | TopXid(xid: seq<byte>)

  datatype RecordSpec = RecordSpec(
    xid: u32, prev: seq<byte>, info: byte, rmid: byte, padding: seq<byte>, crc: seq<byte>,
    items: seq<HeaderItem>, longMarker: bool, mainData: seq<byte>)

  // ---- What is a record of the dialect ----

  ghost predicate GoodBlock(b: BlockSpec) {
    && b.id <= MAX_BLOCK_ID
    && (b.image.Some? ==> |b.image.value.bytes| < 0x1_0000)
    && (b.data.Some? ==> |b.data.value| < 0x1_0000)
  }

  ghost predicate GoodItem(i: HeaderItem) {
    match i
    case Block(b) => GoodBlock(b)
    case Origin(o) => |o| == 2
    case TopXid(x) => |x| == 8
  }

  function NextLocator(i: HeaderItem, last: Option<Locator>): Option<Locator> {
    if i.Block? && i.block.locator.Some? then i.block.locator else last
  }

  /** Items are well formed and only inherit a relation that some earlier block gave. */
  ghost predicate GoodItems(items: seq<HeaderItem>, last: Option<Locator>) {
    items == [] ||
    (&& GoodItem(items[0])
     && (items[0].Block? ==> NextLocator(items[0], last).Some?)
     && GoodItems(items[1..], NextLocator(items[0], last)))
  }

  ghost predicate GoodRecord(r: RecordSpec) {
    && |r.prev| == 8 && |r.padding| == 2 && |r.crc| == 4
    && GoodItems(r.items, None)
    && |r.mainData| < (if r.longMarker then 0x1_0000_0000 else 0x100)
    && |Encode(r)| < 0x1_0000_0000
  }

  // ---- The specification encoder ----

  function EncodeImageHeader(i: ImageSpec): seq<byte> {
    Le(|i.bytes|, 2) + Le(i.holeOffset, 2) + [i.info] +
    (if Bit(i.info, 1) && CompressionOf(i.info) != Uncompressed then Le(i.holeLength, 2) else [])
  }

  function ForkFlags(b: BlockSpec): byte {
    ForkNumber(b.fork) + Flag(b.image.Some?, 16) + Flag(b.data.Some?, 32) + Flag(b.willInit, 64) +
      Flag(b.locator.None?, 128)
  }

  function EncodeLocator(l: Option<Locator>): seq<byte> {
    if l.None? then [] else Le(l.value.spc, 4) + Le(l.value.db, 4) + Le(l.value.rel, 4)
  }

  function DataLen(b: BlockSpec): nat {
    if b.data.Some? then |b.data.value| else b.ignoredLen
  }

  function EncodeBlockHeader(b: BlockSpec): seq<byte> {
    [ForkFlags(b)] + Le(DataLen(b), 2) +
    (if b.image.Some? then EncodeImageHeader(b.image.value) else []) + EncodeLocator(b.locator) + Le(b.blkno, 4)
  }

  function EncodeItem(i: HeaderItem): seq<byte> {
    match i
    case Block(b) => [b.id] + EncodeBlockHeader(b)
    case Origin(o) => [ORIGIN] + o
    case TopXid(x) => [TOPLEVEL_XID] + x
  }

  function EncodeItems(items: seq<HeaderItem>): seq<byte> {
    if items == [] then [] else EncodeItem(items[0]) + EncodeItems(items[1..])
  }

  function EncodeMarker(longMarker: bool, n: nat): seq<byte> {
    if longMarker then [DATA_LONG] + Le(n, 4) else [DATA_SHORT] + Le(n, 1)
  }

  function BlockBytes(b: BlockSpec): seq<byte> {
    (if b.image.Some? then b.image.value.bytes else []) + (if b.data.Some? then b.data.value else [])
  }

  /** The data section: for each block its image, then its data. */
  function EncodeData(items: seq<HeaderItem>): seq<byte> {
    if items == [] then []
    else (if items[0].Block? then BlockBytes(items[0].block) else []) + EncodeData(items[1..])
  }

  function EncodeBody(r: RecordSpec): seq<byte> {
    EncodeItems(r.items) + EncodeMarker(r.longMarker, |r.mainData|) + EncodeData(r.items) + r.mainData
  }

  function EncodeFixed(r: RecordSpec, totLen: nat): seq<byte> {
    Le(totLen, 4) + Le(r.xid, 4) + r.prev + [r.info] + [r.rmid] + r.padding + r.crc
  }

  function Encode(r: RecordSpec): seq<byte> {
    EncodeFixed(r, 24 + |EncodeBody(r)|) + EncodeBody(r)
  }

  // ---- What it describes ----

  function MetaOf(i: ImageSpec): ImageMeta
    requires |i.bytes| < 0x1_0000
  {
    ImageMeta(|i.bytes|, i.holeOffset, HoleLength(i.info, i.holeLength, |i.bytes|), CompressionOf(i.info),
      Bit(i.info, 2))
  }

  function WorkOf(b: BlockSpec, loc: Locator): BlockWork
    requires GoodBlock(b)
  {
    BlockWork(RelTag(loc.spc, loc.db, loc.rel, b.fork), b.blkno, b.willInit, b.data.Some?, DataLen(b),
              if b.image.Some? then Some(MetaOf(b.image.value)) else None)
  }

  function Works(items: seq<HeaderItem>, last: Option<Locator>): seq<BlockWork>
    requires GoodItems(items, last)
  {
    if items == [] then []
    else
      var next := NextLocator(items[0], last);
      (if items[0].Block? then [WorkOf(items[0].block, next.value)] else []) + Works(items[1..], next)
  }

  function ImageOf(i: ImageSpec): DecodedImage
    requires |i.bytes| < 0x1_0000
  {
    DecodedImage(i.bytes, i.holeOffset, HoleLength(i.info, i.holeLength, |i.bytes|), CompressionOf(i.info),
      Bit(i.info, 2))
  }

  function BlockOf(b: BlockSpec, loc: Locator): DecodedBlock
    requires GoodBlock(b)
  {
    DecodedBlock(RelTag(loc.spc, loc.db, loc.rel, b.fork), b.blkno, b.willInit,
                 if b.image.Some? then Some(ImageOf(b.image.value)) else None,
                 if b.data.Some? then b.data.value else [])
  }

  /** The blocks of a record, each inherited relation resolved. */
  function Blocks(items: seq<HeaderItem>, last: Option<Locator>): seq<DecodedBlock>
    requires GoodItems(items, last)
  {
    if items == [] then []
    else
      var next := NextLocator(items[0], last);
      (if items[0].Block? then [BlockOf(items[0].block, next.value)] else []) + Blocks(items[1..], next)
  }

  // ---- Reads of encoded fields ----

  lemma U8Front(b: byte, rest: seq<byte>, what: string)
    ensures U8([b] + rest, what) == Ok((b, rest))
  {
  }

  lemma U16Front(n: u16, rest: seq<byte>, what: string)
    ensures U16(Le(n, 2) + rest, what) == Ok((n, rest))
  {
    TakeFront(Le(n, 2), rest, WalDecodeError.Truncated(what));
    Spans();
    LeRoundTrip(n, 2);
  }

  lemma U32Front(n: u32, rest: seq<byte>, what: string)
    ensures U32(Le(n, 4) + rest, what) == Ok((n, rest))
  {
    TakeFront(Le(n, 4), rest, WalDecodeError.Truncated(what));
    Spans();
    LeRoundTrip(n, 4);
  }

  lemma FlagsRoundTrip(b: BlockSpec)
    ensures var f := ForkFlags(b);
      && ForkOf(f % 16) == Some(b.fork)
      && Bit(f, 16) == b.image.Some? && Bit(f, 32) == b.data.Some? && Bit(f, 64) == b.willInit
      && Bit(f, 128) == b.locator.None?
  {
  }

  // ---- Header pass ----

  lemma ImageHeaderInverse(i: ImageSpec, rest: seq<byte>)
    requires |i.bytes| < 0x1_0000
    ensures ParseImageMeta(EncodeImageHeader(i) + rest) == Ok((MetaOf(i), rest))
  {
    hide Le, Bit, CompressionOf, U16;
    var hole := if Bit(i.info, 1) && CompressionOf(i.info) != Uncompressed then Le(i.holeLength, 2) else [];
    assert EncodeImageHeader(i) + rest == Le(|i.bytes|, 2) + (Le(i.holeOffset, 2) + ([i.info] + (hole + rest)));
    U16Front(|i.bytes|, Le(i.holeOffset, 2) + ([i.info] + (hole + rest)), "bimg_len");
    U16Front(i.holeOffset, [i.info] + (hole + rest), "hole_offset");
    U8Front(i.info, hole + rest, "bimg_info");
    if hole == [] {
      assert hole + rest == rest;
    } else {
      U16Front(i.holeLength, rest, "hole_length");
    }
  }

  lemma LocatorInverse(l: Option<Locator>, last: Option<Locator>, rest: seq<byte>)
    requires l.Some? || last.Some?
    ensures ParseLocator(EncodeLocator(l) + rest, l.None?, last) == Ok(((if l.Some? then l else last).value, rest))
  {
    hide Le, U32;
    if l.None? {
      assert [] + rest == rest;
    } else {
      var x := l.value;
      assert EncodeLocator(l) + rest == Le(x.spc, 4) + (Le(x.db, 4) + (Le(x.rel, 4) + rest));
      U32Front(x.spc, Le(x.db, 4) + (Le(x.rel, 4) + rest), "spcOid");
      U32Front(x.db, Le(x.rel, 4) + rest, "dbOid");
      U32Front(x.rel, rest, "relNumber");
    }
  }

  lemma BlockTailInverse(b: BlockSpec, last: Option<Locator>, image: Option<ImageMeta>, rest: seq<byte>)
    requires GoodBlock(b) && NextLocator(Block(b), last).Some?
    requires image == if b.image.Some? then Some(MetaOf(b.image.value)) else None
    ensures ParseBlockTail(EncodeLocator(b.locator) + Le(b.blkno, 4) + rest, last, ForkFlags(b), DataLen(b), image) ==
            Ok((WorkOf(b, NextLocator(Block(b), last).value), rest))
  {
    FlagsRoundTrip(b);
    hide Le, U32, Bit, ForkFlags, ForkOf, EncodeLocator, ParseLocator, MetaOf;
    assert EncodeLocator(b.locator) + Le(b.blkno, 4) + rest == EncodeLocator(b.locator) + (Le(b.blkno, 4) + rest);
    LocatorInverse(b.locator, last, Le(b.blkno, 4) + rest);
    U32Front(b.blkno, rest, "blkno");
  }

  lemma BlockHeaderInverse(b: BlockSpec, last: Option<Locator>, rest: seq<byte>)
    requires GoodBlock(b) && NextLocator(Block(b), last).Some?
    ensures ParseBlock(EncodeBlockHeader(b) + rest, last) == Ok((WorkOf(b, NextLocator(Block(b), last).value), rest))
  {
    FlagsRoundTrip(b);
    hide Le, U16, Bit, ForkFlags, ForkOf, EncodeLocator, ParseLocator, ParseBlockTail, MetaOf, ParseImageMeta, WorkOf,
         EncodeImageHeader;
    var image := if b.image.Some? then EncodeImageHeader(b.image.value) else [];
    var tail := EncodeLocator(b.locator) + Le(b.blkno, 4) + rest;
    assert EncodeBlockHeader(b) + rest == [ForkFlags(b)] + (Le(DataLen(b), 2) + (image + tail));
    U8Front(ForkFlags(b), Le(DataLen(b), 2) + (image + tail), "fork_flags");
    U16Front(DataLen(b), image + tail, "block data_len");
    BlockTailInverse(b, last, if b.image.Some? then Some(MetaOf(b.image.value)) else None, rest);
    if b.image.Some? {
      ImageHeaderInverse(b.image.value, tail);
    } else {
      assert image + tail == tail;
    }
  }

  lemma MarkerInverse(longMarker: bool, n: nat, last: Option<Locator>, rest: seq<byte>)
    requires n < if longMarker then 0x1_0000_0000 else 0x100
    ensures ParseHeaders(EncodeMarker(longMarker, n) + rest, last) == Ok((Headers([], n), rest))
  {
    if longMarker {
      assert EncodeMarker(true, n) + rest == [DATA_LONG] + (Le(n, 4) + rest);
      hide Le, U32;
      U8Front(DATA_LONG, Le(n, 4) + rest, "block_id");
      U32Front(n, rest, "main_data_len");
    } else {
      assert Le(n, 1) == [n];
      assert EncodeMarker(false, n) + rest == [DATA_SHORT] + ([n] + rest);
      U8Front(DATA_SHORT, [n] + rest, "block_id");
      U8Front(n, rest, "main_data_len");
    }
  }

  /** Parsing one header item leaves the rest to be parsed with the updated relation. */
  lemma ItemInverse(i: HeaderItem, last: Option<Locator>, rest: seq<byte>)
    requires GoodItem(i) && (i.Block? ==> NextLocator(i, last).Some?)
    ensures var next := NextLocator(i, last);
            var after := ParseHeaders(rest, next);
            ParseHeaders(EncodeItem(i) + rest, last) ==
            if after.Err? || !i.Block? then after
            else Ok((Headers([WorkOf(i.block, next.value)] + after.value.0.blocks, after.value.0.mainLen),
                     after.value.1))
  {
    hide ParseHeaders;
    match i {
      case Block(b) =>
        assert EncodeItem(i) + rest == [b.id] + (EncodeBlockHeader(b) + rest);
        BlockItem(b, last, rest);
      case Origin(o) =>
        assert EncodeItem(i) + rest == [ORIGIN] + (o + rest);
        SkippedItem(ORIGIN, o, last, rest);
      case TopXid(x) =>
        assert EncodeItem(i) + rest == [TOPLEVEL_XID] + (x + rest);
        SkippedItem(TOPLEVEL_XID, x, last, rest);
    }
  }

  lemma SkippedItem(id: byte, skipped: seq<byte>, last: Option<Locator>, rest: seq<byte>)
    requires (id == ORIGIN && |skipped| == 2) || (id == TOPLEVEL_XID && |skipped| == 8)
    ensures ParseHeaders([id] + (skipped + rest), last) == ParseHeaders(rest, last)
  {
  }

  lemma BlockItem(b: BlockSpec, last: Option<Locator>, rest: seq<byte>)
    requires GoodBlock(b) && NextLocator(Block(b), last).Some?
    ensures var next := NextLocator(Block(b), last);
            var after := ParseHeaders(rest, next);
            ParseHeaders([b.id] + (EncodeBlockHeader(b) + rest), last) ==
            if after.Err? then after
            else Ok((Headers([WorkOf(b, next.value)] + after.value.0.blocks, after.value.0.mainLen), after.value.1))
  {
    hide EncodeBlockHeader, ParseBlock, U8, Take;
    U8Front(b.id, EncodeBlockHeader(b) + rest, "block_id");
    BlockHeaderInverse(b, last, rest);
    assert Some(LocatorOf(WorkOf(b, NextLocator(Block(b), last).value))) == NextLocator(Block(b), last);
    hide WorkOf;
  }

  lemma {:induction false} HeadersInverse(items: seq<HeaderItem>, last: Option<Locator>, longMarker: bool,
                                          n: nat, rest: seq<byte>)
    requires GoodItems(items, last) && n < if longMarker then 0x1_0000_0000 else 0x100
    ensures ParseHeaders(EncodeItems(items) + EncodeMarker(longMarker, n) + rest, last) ==
            Ok((Headers(Works(items, last), n), rest))
    decreases |items|
  {
    var marker := EncodeMarker(longMarker, n);
    hide EncodeMarker;
    if items == [] {
      assert [] + marker + rest == marker + rest;
      MarkerInverse(longMarker, n, last, rest);
    } else {
      var more := EncodeItems(items[1..]) + marker + rest;
      assert EncodeItems(items) + marker + rest == EncodeItem(items[0]) + more;
      var next := NextLocator(items[0], last);
      HeadersInverse(items[1..], next, longMarker, n, rest);
      hide ParseHeaders, EncodeItem, WorkOf;
      ItemInverse(items[0], last, more);
      assert [] + Works(items[1..], next) == Works(items[1..], next);
    }
  }

  // ---- Data pass ----

  lemma BlockDataInverse(b: BlockSpec, loc: Locator, rest: seq<byte>)
    requires GoodBlock(b)
    ensures ParseBlockData(BlockBytes(b) + rest, WorkOf(b, loc)) == Ok((BlockOf(b, loc), rest))
  {
    hide Bit, HoleLength, CompressionOf;
    var image := if b.image.Some? then b.image.value.bytes else [];
    var data := if b.data.Some? then b.data.value else [];
    assert BlockBytes(b) + rest == image + (data + rest);
    TakeFront(image, data + rest, WalDecodeError.Truncated("block image"));
    TakeFront(data, rest, WalDecodeError.Truncated("block data"));
    assert b.image.None? ==> [] + (data + rest) == data + rest;
  }

  lemma {:induction false} DataInverse(items: seq<HeaderItem>, last: Option<Locator>, rest: seq<byte>)
    requires GoodItems(items, last)
    ensures ParseData(EncodeData(items) + rest, Works(items, last)) == Ok((Blocks(items, last), rest))
    decreases |items|
  {
    hide ParseBlockData, WorkOf, BlockOf, BlockBytes;
    if items == [] {
      assert [] + rest == rest;
    } else {
      var next := NextLocator(items[0], last);
      var more := EncodeData(items[1..]) + rest;
      DataInverse(items[1..], next, rest);
      hide NextLocator;
      if items[0].Block? {
        var b := items[0].block;
        assert EncodeData(items) + rest == BlockBytes(b) + more;
        BlockDataInverse(b, next.value, more);
        assert Works(items, last)[1..] == Works(items[1..], next);
      } else {
        assert EncodeData(items) + rest == more;
        assert [] + Works(items[1..], next) == Works(items[1..], next);
        assert [] + Blocks(items[1..], next) == Blocks(items[1..], next);
      }
    }
  }

  // ---- The whole record ----

  lemma FixedLength(r: RecordSpec, totLen: nat)
    requires |r.prev| == 8 && |r.padding| == 2 && |r.crc| == 4
    ensures |EncodeFixed(r, totLen)| == 24
  {
  }

  lemma FixedInverse(r: RecordSpec, totLen: u32, rest: seq<byte>)
    requires |r.prev| == 8 && |r.padding| == 2 && |r.crc| == 4
    ensures ParseFixed(EncodeFixed(r, totLen) + rest) == Ok((FixedHeader(totLen, r.xid, r.info, r.rmid), rest))
  {
    hide Le, U32;
    var s6 := r.crc + rest;
    var s5 := r.padding + s6;
    var s4 := [r.rmid] + s5;
    var s3 := [r.info] + s4;
    var s2 := r.prev + s3;
    var s1 := Le(r.xid, 4) + s2;
    assert EncodeFixed(r, totLen) + rest == Le(totLen, 4) + s1;
    U32Front(totLen, s1, "xl_tot_len");
    U32Front(r.xid, s2, "xl_xid");
    TakeFront(r.prev, s3, WalDecodeError.Truncated("xl_prev"));
    U8Front(r.info, s4, "xl_info");
    U8Front(r.rmid, s5, "xl_rmid");
    TakeFront(r.padding, s6, WalDecodeError.Truncated("xl_padding"));
    TakeFront(r.crc, rest, WalDecodeError.Truncated("xl_crc"));
  }

  /** Decoding the specification encoding returns the record it describes. */
  lemma RecordInverse(lsn: Lsn, r: RecordSpec)
    requires GoodRecord(r)
    ensures DecodeWalRecord(lsn, Encode(r)) ==
            Ok(DecodedWalRecord(lsn, r.rmid, r.info, r.xid, r.mainData, Blocks(r.items, None)))
  {
    hide ParseFixed, ParseHeaders, ParseData, EncodeItems, EncodeMarker, EncodeData, EncodeFixed, Works, Blocks,
         GoodItems, Take, Le;
    var body := EncodeBody(r);
    var data := EncodeData(r.items) + r.mainData;
    FixedLength(r, 24 + |body|);
    FixedInverse(r, 24 + |body|, body);
    HeadersInverse(r.items, None, r.longMarker, |r.mainData|, data);
    assert body == EncodeItems(r.items) + EncodeMarker(r.longMarker, |r.mainData|) + data;
    DataInverse(r.items, None, r.mainData);
    TakeFront(r.mainData, [], WalDecodeError.Truncated("main data"));
    assert r.mainData + [] == r.mainData;
  }
}
