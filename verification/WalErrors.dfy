/** Errors of the WAL decoder. */
module WalErrors {
  import opened Common

  datatype Compression = Uncompressed | Pglz | Lz4 | Zstd

  datatype WalDecodeError =
    | Truncated(what: string)
    | BadTotalLen(declared: nat, actual: nat)
    | ShortTotalLen(declared: nat)
    | BadBlockId(id: byte)
    | SameRelWithoutPrev
    | BadFork(fork: byte)
    | BadPageMagic(got: nat, want: nat)
    | BadImageSize(size: nat, wanted: nat)
    | Decompress(how: Compression)
    | BadHole(offset: nat, length: nat)
}
