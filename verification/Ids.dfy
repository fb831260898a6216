/** Printing and parsing 16-byte identifiers as 32 hex digits. */
module Ids {
  import opened Common
  import opened Bytes
  import opened TenantSpec

  function Digit(d: nat): char
    requires d < 16
  {
    if d < 10 then '0' + (d as char) else 'a' + ((d - 10) as char)
  }

  function DigitValue(c: char): (d: Option<nat>)
    ensures d.Some? ==> d.value < 16
  {
    if '0' <= c <= '9' then Some((c - '0') as nat)
    else if 'a' <= c <= 'f' then Some((c - 'a') as nat + 10)
    else if 'A' <= c <= 'F' then Some((c - 'A') as nat + 10)
    else None
  }

  /** The value of two characters as a byte; a leading plus sign is accepted. */
  function PairValue(hi: char, lo: char): (b: Option<nat>)
    ensures b.Some? ==> b.value < 256
  {
    var h := if hi == '+' then Some(0) else DigitValue(hi);
    var l := DigitValue(lo);
    if h.Some? && l.Some? then Some(h.value * 16 + l.value) else None
  }

  function Pair(b: nat): (s: string)
    requires b < 256
    ensures |s| == 2
  {
    [Digit(b / 16), Digit(b % 16)]
  }

  /** The last `k` bytes of `n`, two digits each. */
  function Hex(n: nat, k: nat): (s: string)
    ensures |s| == 2 * k
  {
    if k == 0 then "" else Hex(n / 256, k - 1) + Pair(n % 256)
  }

  function Unhex(s: string, k: nat): (n: Option<nat>)
    requires |s| == 2 * k
    ensures n.Some? ==> n.value < Span(k)
  {
    if k == 0 then Some(0)
    else
      var rest, last := Unhex(s[..2 * k - 2], k - 1), PairValue(s[2 * k - 2], s[2 * k - 1]);
      if rest.Some? && last.Some? then Some(rest.value * 256 + last.value) else None
  }

  lemma SpanOf16()
    ensures Span(16) == 0x1_0000_0000_0000_0000_0000_0000_0000_0000
  {
    Spans();
    assert Span(10) == 0x1_0000_0000_0000_0000_0000;
    assert Span(12) == 0x1_0000_0000_0000_0000_0000_0000;
    assert Span(14) == 0x1_0000_0000_0000_0000_0000_0000_0000;
  }

  function PrintId(id: TimelineId): (s: string)
    ensures |s| == 32
  {
    Hex(id, 16)
  }

  function ParseId(s: string): Option<TimelineId> {
    if |s| != 32 then None
    else
      SpanOf16();
      Unhex(s, 16)
  }

  lemma PairRoundTrip(b: nat)
    requires b < 256
    ensures PairValue(Pair(b)[0], Pair(b)[1]) == Some(b)
  {
  }

  lemma {:induction false} HexRoundTrip(n: nat, k: nat)
    requires n < Span(k)
    ensures Unhex(Hex(n, k), k) == Some(n)
  {
    hide Pair, PairValue;
    if k > 0 {
      HexRoundTrip(n / 256, k - 1);
      var s, pair := Hex(n, k), Pair(n % 256);
      assert s[..2 * k - 2] == Hex(n / 256, k - 1) && s[2 * k - 2] == pair[0] && s[2 * k - 1] == pair[1];
      PairRoundTrip(n % 256);
    }
  }

  /** Every identifier parses back from its printed form. */
  lemma IdRoundTrip(id: TimelineId)
    ensures ParseId(PrintId(id)) == Some(id)
  {
    SpanOf16();
    HexRoundTrip(id, 16);
  }

  /** Distinct identifiers print differently. */
  lemma PrintInjective(a: TimelineId, b: TimelineId)
    ensures PrintId(a) == PrintId(b) ==> a == b
  {
    IdRoundTrip(a);
    IdRoundTrip(b);
  }
}
