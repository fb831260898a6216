/** Restoring a full page from a stored full-page image, and turning records into modifications. */
module ImageRestore {
  import opened Common
  import opened Pages
  import opened WalErrors
  import opened WalRecord
  import opened PglzCodec

  /** The lz4 and zstd libraries: a body of the given length from compressed bytes, or failure. */
  type Foreign = (Compression, seq<byte>, nat) -> Option<seq<byte>>

  function Body(foreign: Foreign, img: DecodedImage, len: nat): Result<seq<byte>, WalDecodeError> {
    match img.compression
    case Uncompressed => if |img.bytes| != len then Err(WalDecodeError.BadImageSize(|img.bytes|, len))
      else Ok(img.bytes)
    case Pglz => Decompressed(img.bytes, len)
    case _ =>
      var body := foreign(img.compression, img.bytes, len);
      if body.None? then Err(WalDecodeError.Decompress(img.compression)) else Ok(body.value)
  }

  /** Reconstruct the page, re-inserting the zero hole. */
  function Restore(foreign: Foreign, img: DecodedImage): Result<Page, WalDecodeError> {
    var hl, ho := img.holeLength, img.holeOffset;
    if ho + hl > PAGE_SIZE then Err(BadHole(ho, hl))
    else
      var len := PAGE_SIZE - hl;
      var body :- Body(foreign, img, len);
      if |body| != len then Err(WalDecodeError.BadImageSize(|body|, len))
      else Ok(body[..ho] + Zeros(hl) + body[ho..])
  }

  /** The page with the bytes of its hole taken out. */
  function WithoutHole(page: Page, ho: nat, hl: nat): seq<byte>
    requires ho + hl <= PAGE_SIZE
  {
    page[..ho] + page[ho + hl..]
  }

  /** `page` is zero throughout its hole. */
  ghost predicate ZeroHole(page: Page, ho: nat, hl: nat)
    requires ho + hl <= PAGE_SIZE
  {
    forall i :: ho <= i < ho + hl ==> page[i] == 0
  }

  /** `img` stores `page` without its hole, verbatim or as the encoding of pglz tokens. */
  ghost predicate Stores(img: DecodedImage, page: Page, tokens: seq<Token>) {
    && img.holeOffset + img.holeLength <= PAGE_SIZE
    && ZeroHole(page, img.holeOffset, img.holeLength)
    && var body := WithoutHole(page, img.holeOffset, img.holeLength);
       match img.compression
       case Uncompressed => img.bytes == body
       case Pglz => ValidTokens(tokens, []) && Encodable(tokens) && Expand(tokens, []) == body
         && img.bytes == Encode(tokens)
       case _ => false
  }

  lemma RestoreInverse(foreign: Foreign, img: DecodedImage, page: Page, tokens: seq<Token>)
    requires Stores(img, page, tokens)
    ensures Restore(foreign, img) == Ok(page)
  {
    hide Decompressed, Encode, Expand, ValidTokens;
    var hl: nat, ho: nat := img.holeLength, img.holeOffset;
    var body := WithoutHole(page, ho, hl);
    if img.compression.Pglz? {
      PglzInverse(tokens);
    }
    assert body[..ho] == page[..ho] && body[ho..] == page[ho + hl..];
    assert page == page[..ho] + page[ho..ho + hl] + page[ho + hl..];
    assert page[ho..ho + hl] == Zeros(hl);
  }

  /** What is restored is a page whose hole is zero and whose other bytes are the stored body. */
  lemma RestoreSound(foreign: Foreign, img: DecodedImage)
    requires Restore(foreign, img).Ok?
    ensures img.holeOffset + img.holeLength <= PAGE_SIZE
    ensures ZeroHole(Restore(foreign, img).value, img.holeOffset, img.holeLength)
    ensures Body(foreign, img, PAGE_SIZE - img.holeLength) ==
            Ok(WithoutHole(Restore(foreign, img).value, img.holeOffset, img.holeLength))
  {
    hide Body;
    var hl: nat, ho: nat := img.holeLength, img.holeOffset;
    var body := Body(foreign, img, PAGE_SIZE - hl).value;
    var page := Restore(foreign, img).value;
    assert page[..ho] == body[..ho] && page[ho + hl..] == body[ho..];
    assert body == body[..ho] + body[ho..];
  }

  // ---- Modifications of a record ----

  function VersionOf(foreign: Foreign, b: DecodedBlock, raw: seq<byte>): PageVersion {
    if b.image.Some? && Restore(foreign, b.image.value).Ok? then Image(Restore(foreign, b.image.value).value)
    else WalRecord(b.willInit, raw)
  }

  /** One modification per referenced block: a restorable image, else the raw record. */
  function Modifications(foreign: Foreign, d: DecodedWalRecord, raw: seq<byte>): (mods: seq<Modification>)
    ensures |mods| == |d.blocks|
    ensures forall i :: 0 <= i < |mods| ==>
              mods[i].lsn == d.lsn && mods[i].rel == d.blocks[i].rel && mods[i].block == d.blocks[i].blkno
    ensures forall i :: 0 <= i < |mods| ==>
              mods[i].version == if d.blocks[i].image.Some? && Restore(foreign, d.blocks[i].image.value).Ok?
                                 then Image(Restore(foreign, d.blocks[i].image.value).value)
                                 else WalRecord(d.blocks[i].willInit, raw)
  {
    seq(|d.blocks|, i requires 0 <= i < |d.blocks| =>
      Modification(d.blocks[i].rel, d.blocks[i].blkno, d.lsn, VersionOf(foreign, d.blocks[i], raw)))
  }

  /**
   * A block that carries an image of a page becomes that page and is a base; one without
   * keeps the whole record, and is a base exactly if it reinitializes the page.
   */
  lemma ImagesBecomePages(foreign: Foreign, d: DecodedWalRecord, raw: seq<byte>, i: nat, page: Page, tokens: seq<Token>)
    requires i < |d.blocks|
    ensures var b, v := d.blocks[i], Modifications(foreign, d, raw)[i].version;
            && (b.image.Some? && Stores(b.image.value, page, tokens) ==> v == Image(page) && v.IsBase())
            && (b.image.None? ==> v == WalRecord(b.willInit, raw) && (v.IsBase() <==> b.willInit))
  {
    var b := d.blocks[i];
    hide Stores, Restore;
    if b.image.Some? && Stores(b.image.value, page, tokens) {
      RestoreInverse(foreign, b.image.value, page, tokens);
    }
  }
}
