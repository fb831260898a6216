/** Fixed-width integers as bytes, little- and big-endian. */
module Bytes {
  import opened Common

  /** 256 to the power `k`. */
  function Span(k: nat): (p: nat)
    ensures p >= 1
  {
    if k == 0 then 1 else 0x100 * Span(k - 1)
  }

  lemma Spans()
    ensures Span(1) == 0x100 && Span(2) == 0x1_0000 && Span(4) == 0x1_0000_0000
    ensures Span(8) == 0x1_0000_0000_0000_0000
  {
  }

  /** A bounds-checked read of `n` bytes off the front, with what remains. */
  function Take<E>(s: seq<byte>, n: nat, error: E): (r: Result<(seq<byte>, seq<byte>), E>)
    ensures r.Ok? ==> |r.value.0| == n && s == r.value.0 + r.value.1
  {
    if |s| < n then Err(error) else Ok((s[..n], s[n..]))
  }

  lemma TakeFront<E>(a: seq<byte>, rest: seq<byte>, error: E)
    ensures Take(a + rest, |a|, error) == Ok((a, rest))
  {
  }

  /** The low `k` bytes of `n`, least significant first. */
  function Le(n: nat, k: nat): (s: seq<byte>)
    ensures |s| == k
    decreases k
  {
    if k == 0 then [] else [n % 0x100] + Le(n / 0x100, k - 1)
  }

  function FromLe(s: seq<byte>): nat {
    if s == [] then 0 else s[0] + 0x100 * FromLe(s[1..])
  }

  /** The low `k` bytes of `n`, most significant first. */
  function Be(n: nat, k: nat): (s: seq<byte>)
    ensures |s| == k
    decreases k
  {
    if k == 0 then [] else Be(n / 0x100, k - 1) + [n % 0x100]
  }

  function FromBe(s: seq<byte>): nat {
    if s == [] then 0 else FromBe(s[..|s| - 1]) * 0x100 + s[|s| - 1]
  }

  lemma {:induction false} LeRoundTrip(n: nat, k: nat)
    requires n < Span(k)
    ensures FromLe(Le(n, k)) == n
    decreases k
  {
    if k > 0 {
      LeRoundTrip(n / 0x100, k - 1);
      assert Le(n, k)[1..] == Le(n / 0x100, k - 1);
    }
  }

  lemma {:induction false} BeRoundTrip(n: nat, k: nat)
    requires n < Span(k)
    ensures FromBe(Be(n, k)) == n
    decreases k
  {
    if k > 0 {
      BeRoundTrip(n / 0x100, k - 1);
      assert Be(n, k)[..k - 1] == Be(n / 0x100, k - 1);
    }
  }

  lemma {:induction false} FromLeBound(s: seq<byte>)
    ensures FromLe(s) < Span(|s|)
  {
    if s != [] {
      FromLeBound(s[1..]);
    }
  }

  lemma {:induction false} FromBeBound(s: seq<byte>)
    ensures FromBe(s) < Span(|s|)
  {
    if s != [] {
      FromBeBound(s[..|s| - 1]);
    }
  }

  lemma {:induction false} ZerosAreZero(k: nat)
    ensures FromLe(Zeros(k)) == 0
  {
    if k > 0 {
      assert Zeros(k)[1..] == Zeros(k - 1);
      ZerosAreZero(k - 1);
    }
  }
}
