/** The pglz decompressor, and its inverse on every valid token list. */
module PglzCodec {
  import opened Common
  import opened WalErrors

  type Output = Result<seq<byte>, WalDecodeError>

  const CORRUPT: Output := Err(WalDecodeError.Decompress(Pglz))

  /** Append `len` bytes copied from `off` back, one at a time, stopping at `n` bytes in all. */
  function CopyBack(dst: seq<byte>, off: nat, len: nat, n: nat): (r: seq<byte>)
    requires 1 <= off <= |dst|
    ensures |r| == if |dst| >= n then |dst| else Min(|dst| + len, n)
    decreases len
  {
    if len == 0 || |dst| >= n then dst else CopyBack(dst + [dst[|dst| - off]], off, len - 1, n)
  }

  /** A back-reference read from the front of `src`: its length, offset and encoded size. */
  datatype Reference = Reference(len: nat, off: nat, size: nat)

  function ReadReference(src: seq<byte>): (r: Option<Reference>)
    ensures r.Some? ==> 2 <= r.value.size <= |src|
  {
    if |src| < 2 then None
    else
      var len: nat := src[0] % 16 + 3;
      var hi: nat := src[0] / 16;
      var off := hi * 0x100 + src[1];
      if len < 18 then Some(Reference(len, off, 2))
      else if |src| < 3 then None
      else Some(Reference(len + src[2], off, 3))
  }

  /** One control byte and up to eight tokens, repeatedly, until input or output ends. */
  function Groups(src: seq<byte>, dst: seq<byte>, n: nat): (r: Output)
    requires |dst| <= n
    ensures r.Ok? ==> |r.value| <= n
    decreases |src|, 0
  {
    if src == [] || |dst| >= n then Ok(dst) else Tokens(src[1..], src[0], 8, dst, n)
  }

  /** `ctrl` is the control byte shifted right past the tokens done; `left` tokens remain. */
  function Tokens(src: seq<byte>, ctrl: nat, left: nat, dst: seq<byte>, n: nat): (r: Output)
    requires |dst| <= n
    ensures r.Ok? ==> |r.value| <= n
    decreases |src|, left + 1
  {
    if left == 0 || src == [] || |dst| >= n then Groups(src, dst, n)
    else if ctrl % 2 == 0 then Tokens(src[1..], ctrl / 2, left - 1, dst + [src[0]], n)
    else
      var r := ReadReference(src);
      if r.None? || r.value.off == 0 || r.value.off > |dst| then CORRUPT
      else Tokens(src[r.value.size..], ctrl / 2, left - 1, CopyBack(dst, r.value.off, r.value.len, n), n)
  }

  /** Decompression never produces more than the requested length. */
  function Decompressed(src: seq<byte>, n: nat): (r: Output)
    ensures r.Ok? ==> |r.value| <= n
  {
    Groups(src, [], n)
  }

  method Decompress(src: seq<byte>, n: nat) returns (r: Output)
    ensures r == Decompressed(src, n)
  {
    hide ReadReference, CopyBack;
    var dst: seq<byte>, sp: nat := [], 0;
    assert src[0..] == src;
    while sp < |src| && |dst| < n
      invariant sp <= |src| && |dst| <= n
      invariant Decompressed(src, n) == Groups(src[sp..], dst, n)
      decreases |src| - sp
    {
      ghost var before := sp;
      var ctrl: nat := src[sp];
      assert src[sp..][1..] == src[sp + 1..];
      sp := sp + 1;
      var left := 8;
      while left > 0 && sp < |src| && |dst| < n
        invariant before < sp <= |src| && |dst| <= n
        invariant Decompressed(src, n) == Tokens(src[sp..], ctrl, left, dst, n)
        decreases left
      {
        if ctrl % 2 == 0 {
          assert src[sp..][1..] == src[sp + 1..];
          dst, sp := dst + [src[sp]], sp + 1;
        } else {
          var ref := ReadReference(src[sp..]);
          if ref.None? || ref.value.off == 0 || ref.value.off > |dst| {
            return CORRUPT;
          }
          assert src[sp..][ref.value.size..] == src[sp + ref.value.size..];
          sp := sp + ref.value.size;
          dst := CopyLoop(dst, ref.value.off, ref.value.len, n);
        }
        ctrl, left := ctrl / 2, left - 1;
      }
    }
    return Ok(dst);
  }

  method CopyLoop(start: seq<byte>, off: nat, len: nat, n: nat) returns (dst: seq<byte>)
    requires 1 <= off <= |start|
    ensures dst == CopyBack(start, off, len, n)
  {
    dst := start;
    var k := 0;
    while k < len && |dst| < n
      invariant k <= len && |dst| >= |start|
      invariant CopyBack(start, off, len, n) == CopyBack(dst, off, len - k, n)
    {
      dst, k := dst + [dst[|dst| - off]], k + 1;
    }
  }

  // ---- The specification encoder ----

  datatype Token = Lit(b: byte) | Ref(len: nat, off: nat)

  ghost predicate ValidToken(t: Token, have: nat) {
    t.Ref? ==> 3 <= t.len <= 273 && 1 <= t.off <= 4095 && t.off <= have
  }

  /** What a token appends; a reference may overlap what it is copying. */
  function Append(t: Token, dst: seq<byte>): (r: seq<byte>)
    requires ValidToken(t, |dst|)
    ensures |r| > |dst|
  {
    match t
    case Lit(b) => dst + [b]
    case Ref(len, off) => CopyBack(dst, off, len, |dst| + len)
  }

  ghost predicate ValidTokens(ts: seq<Token>, dst: seq<byte>)
    decreases |ts|
  {
    ts == [] || (ValidToken(ts[0], |dst|) && ValidTokens(ts[1..], Append(ts[0], dst)))
  }

  function Expand(ts: seq<Token>, dst: seq<byte>): (r: seq<byte>)
    requires ValidTokens(ts, dst)
    ensures |r| >= |dst| + |ts|
    decreases |ts|
  {
    if ts == [] then dst else Expand(ts[1..], Append(ts[0], dst))
  }

  function EncodeToken(t: Token): seq<byte>
    requires t.Ref? ==> 3 <= t.len <= 273 && 1 <= t.off <= 4095
  {
    match t
    case Lit(b) => [b]
    case Ref(len, off) =>
      if len < 18 then [(off / 0x100) * 16 + len - 3, off % 0x100]
      else [(off / 0x100) * 16 + 15, off % 0x100, len - 18]
  }

  /** The control bits, first token in the least significant bit. */
  function Control(ts: seq<Token>): nat {
    if ts == [] then 0 else (if ts[0].Ref? then 1 else 0) + 2 * Control(ts[1..])
  }

  function EncodeTokens(ts: seq<Token>): seq<byte>
    requires Encodable(ts)
  {
    if ts == [] then [] else EncodeToken(ts[0]) + EncodeTokens(ts[1..])
  }

  ghost predicate Encodable(ts: seq<Token>) {
    forall i :: 0 <= i < |ts| && ts[i].Ref? ==> 3 <= ts[i].len <= 273 && 1 <= ts[i].off <= 4095
  }

  function Power2(k: nat): (p: nat)
    ensures p >= 1
  {
    if k == 0 then 1 else 2 * Power2(k - 1)
  }

  lemma {:induction false} ControlBound(ts: seq<Token>, k: nat)
    requires |ts| <= k
    ensures Control(ts) < Power2(k)
  {
    if ts != [] {
      ControlBound(ts[1..], k - 1);
    }
  }

  function ControlByte(ts: seq<Token>): byte
    requires |ts| <= 8
  {
    ControlBound(ts, 8);
    assert Power2(8) == 2 * Power2(7) == 4 * Power2(6) == 8 * Power2(5) == 16 * Power2(4) == 32 * Power2(3) == 0x100;
    Control(ts)
  }

  /** Groups of eight tokens (fewer in the last), each behind its control byte. */
  function Encode(ts: seq<Token>): seq<byte>
    requires Encodable(ts)
  {
    if ts == [] then []
    else
      var g := Min(8, |ts|);
      [ControlByte(ts[..g])] + EncodeTokens(ts[..g]) + Encode(ts[g..])
  }

  // ---- Inversion ----

  lemma {:induction false} ValidEncodable(ts: seq<Token>, dst: seq<byte>)
    requires ValidTokens(ts, dst)
    ensures Encodable(ts)
    decreases |ts|
  {
    if ts != [] {
      ValidEncodable(ts[1..], Append(ts[0], dst));
      assert forall i :: 1 <= i < |ts| ==> ts[i] == ts[1..][i - 1];
    }
  }

  lemma ReferenceInverse(t: Token, rest: seq<byte>)
    requires t.Ref? && 3 <= t.len <= 273 && 1 <= t.off <= 4095
    ensures ReadReference(EncodeToken(t) + rest) == Some(Reference(t.len, t.off, |EncodeToken(t)|))
  {
  }

  /** With room for the whole copy, the output bound does not matter. */
  lemma {:induction false} CopyUnbounded(dst: seq<byte>, off: nat, len: nat, n: nat, m: nat)
    requires 1 <= off <= |dst| && |dst| + len <= n && |dst| + len <= m
    ensures CopyBack(dst, off, len, n) == CopyBack(dst, off, len, m)
    decreases len
  {
    if len > 0 {
      CopyUnbounded(dst + [dst[|dst| - off]], off, len - 1, n, m);
    }
  }

  /** One encoded token: decoding appends what the token means and moves on. */
  lemma TokenStep(t: Token, tail: seq<byte>, ctrl: nat, left: nat, dst: seq<byte>, n: nat)
    requires ValidToken(t, |dst|) && left > 0 && ctrl % 2 == (if t.Ref? then 1 else 0)
    requires |Append(t, dst)| <= n
    ensures Tokens(EncodeToken(t) + tail, ctrl, left, dst, n) == Tokens(tail, ctrl / 2, left - 1, Append(t, dst), n)
  {
    assert (EncodeToken(t) + tail)[|EncodeToken(t)|..] == tail;
    if t.Ref? {
      ReferenceInverse(t, tail);
      CopyUnbounded(dst, t.off, t.len, n, |dst| + t.len);
    }
  }

  /** The tokens of one group, then the groups after it, decode to their expansion. */
  ghost predicate GroupDecodes(ts: seq<Token>, more: seq<Token>, left: nat, dst: seq<byte>)
    requires ValidTokens(ts + more, dst) && Encodable(ts) && Encodable(more)
  {
    var all := Expand(ts + more, dst);
    Tokens(EncodeTokens(ts) + Encode(more), Control(ts), left, dst, |all|) == Ok(all)
  }

  lemma ControlCons(ts: seq<Token>)
    requires ts != []
    ensures Control(ts) % 2 == (if ts[0].Ref? then 1 else 0) && Control(ts) / 2 == Control(ts[1..])
  {
  }

  lemma EncodeCons(ts: seq<Token>, after: seq<byte>)
    requires ts != [] && Encodable(ts)
    ensures Encodable(ts[1..]) && EncodeTokens(ts) + after == EncodeToken(ts[0]) + (EncodeTokens(ts[1..]) + after)
  {
  }

  lemma ExpandCons(ts: seq<Token>, more: seq<Token>, dst: seq<byte>)
    requires ts != [] && ValidTokens(ts + more, dst)
    ensures ValidToken(ts[0], |dst|) && ValidTokens(ts[1..] + more, Append(ts[0], dst))
    ensures Expand(ts + more, dst) == Expand(ts[1..] + more, Append(ts[0], dst))
  {
    hide Append, ValidToken;
    assert (ts + more)[0] == ts[0] && (ts + more)[1..] == ts[1..] + more;
  }

  lemma {:induction false} GroupInverse(ts: seq<Token>, more: seq<Token>, left: nat, dst: seq<byte>)
    requires |ts| <= left <= 8 && (more != [] ==> |ts| == left)
    requires ValidTokens(ts + more, dst) && Encodable(ts) && Encodable(more)
    ensures GroupDecodes(ts, more, left, dst)
    decreases |ts| + |more|, if ts == [] then 2 else 0
  {
    hide EncodeToken, Append, CopyBack, ReadReference, ValidToken;
    if ts == [] {
      assert ts + more == more && EncodeTokens(ts) + Encode(more) == Encode(more);
      if more == [] {
        assert Groups([], dst, |dst|) == Ok(dst);
      } else {
        NextGroup(more, dst);
      }
    } else {
      hide Tokens, Groups, Control, EncodeTokens, Encode, Expand, ValidTokens, Encodable;
      EncodeCons(ts, Encode(more));
      ExpandCons(ts, more, dst);
      ControlCons(ts);
      GroupInverse(ts[1..], more, left - 1, Append(ts[0], dst));
      TokenStep(ts[0], EncodeTokens(ts[1..]) + Encode(more), Control(ts), left, dst, |Expand(ts + more, dst)|);
    }
  }

  lemma EncodeGroup(ts: seq<Token>)
    requires ts != [] && Encodable(ts)
    ensures var g := Min(8, |ts|);
            && Encodable(ts[..g]) && Encodable(ts[g..])
            && Encode(ts) == [Control(ts[..g])] + (EncodeTokens(ts[..g]) + Encode(ts[g..]))
  {
  }

  lemma GroupsStep(ctrl: byte, tail: seq<byte>, dst: seq<byte>, n: nat)
    requires |dst| <= n
    ensures Groups([ctrl] + tail, dst, n) == Tokens(tail, ctrl, 8, dst, n)
  {
  }

  lemma NextGroup(ts: seq<Token>, dst: seq<byte>)
    requires ts != [] && ValidTokens(ts, dst) && Encodable(ts)
    ensures Groups(Encode(ts), dst, |Expand(ts, dst)|) == Ok(Expand(ts, dst))
    decreases |ts|, 1
  {
    hide Tokens, Groups, EncodeTokens, Encode, Expand, ValidTokens, Encodable, Control;
    var g := Min(8, |ts|);
    assert ts == ts[..g] + ts[g..];
    EncodeGroup(ts);
    GroupInverse(ts[..g], ts[g..], 8, dst);
    GroupsStep(ControlByte(ts[..g]), EncodeTokens(ts[..g]) + Encode(ts[g..]), dst, |Expand(ts, dst)|);
  }

  /** Decoding the encoding of any valid token list gives its expansion. */
  lemma PglzInverse(ts: seq<Token>)
    requires ValidTokens(ts, [])
    ensures Encodable(ts)
    ensures Decompressed(Encode(ts), |Expand(ts, [])|) == Ok(Expand(ts, []))
  {
    ValidEncodable(ts, []);
    if ts != [] {
      NextGroup(ts, []);
    }
  }
}
