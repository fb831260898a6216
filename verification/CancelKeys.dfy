/**
 * Finding the cancellation key in a backend's message stream. The scanner buffers at most
 * one incomplete message; for streams whose messages fit its cap, how the stream is cut into
 * chunks makes no difference.
 */
module CancelKeys {
  import opened Common
  import opened Bytes

  type CancelKey = (int, int)

  const BACKEND_KEY_DATA: byte := 0x4B
  const READY_FOR_QUERY: byte := 0x5A
  const KEY_LEN := 12
  const SCAN_CAP := 16384

  /** A big-endian two's-complement 32-bit integer. */
  function Signed(s: seq<byte>): int
    requires |s| == 4
  {
    var n := FromBe(s);
    if n < 0x8000_0000 then n else n - 0x1_0000_0000
  }

  function LenAt(s: seq<byte>): int
    requires |s| >= 5
  {
    Signed(s[1..5])
  }

  datatype Verdict = Key(key: CancelKey) | GiveUp | Undecided(rest: seq<byte>)

  /** Scan a stream from the front: the first key, a reason to stop, or an incomplete message. */
  function Scan(s: seq<byte>): Verdict
    decreases |s|
  {
    if |s| < 5 then Undecided(s)
    else
      var len := LenAt(s);
      if len < 4 then GiveUp
      else if |s| - 1 < len then Undecided(s)
      else if s[0] == BACKEND_KEY_DATA && len == KEY_LEN then Key((Signed(s[5..9]), Signed(s[9..13])))
      else if s[0] == READY_FOR_QUERY then GiveUp
      else Scan(s[1 + len..])
  }

  datatype Scanner = Done | Scanning(buf: seq<byte>)

  function Push(sc: Scanner, bytes: seq<byte>): (Scanner, Option<CancelKey>) {
    if sc.Done? then (Done, None)
    else match Scan(sc.buf + bytes)
      case Key(k) => (Done, Some(k))
      case GiveUp => (Done, None)
      case Undecided(rest) => (if |rest| > SCAN_CAP then Done else Scanning(rest), None)
  }

  /** Feed chunks in order; every key returned on the way is collected. */
  function Feed(sc: Scanner, chunks: seq<seq<byte>>): (Scanner, seq<CancelKey>)
    decreases |chunks|
  {
    if chunks == [] then (sc, [])
    else
      var (sc', key) := Push(sc, chunks[0]);
      var (last, keys) := Feed(sc', chunks[1..]);
      (last, if key.Some? then [key.value] + keys else keys)
  }

  function Joined(chunks: seq<seq<byte>>): seq<byte> {
    if chunks == [] then [] else chunks[0] + Joined(chunks[1..])
  }

  /** What a scan of the whole stream calls for. */
  function Expected(v: Verdict): (Scanner, seq<CancelKey>) {
    match v
    case Key(k) => (Done, [k])
    case GiveUp => (Done, [])
    case Undecided(rest) => (Scanning(rest), [])
  }

  // ---- Once decided, always decided ----

  lemma {:induction false} ScanExtends(s: seq<byte>, ext: seq<byte>)
    ensures var v := Scan(s); Scan(s + ext) == if v.Undecided? then Scan(v.rest + ext) else v
    decreases |s|
  {
    hide FromBe;
    if |s| >= 5 {
      assert (s + ext)[1..5] == s[1..5];
      var len := LenAt(s);
      if 4 <= len <= |s| - 1 {
        assert (s + ext)[1 + len..] == s[1 + len..] + ext;
        if s[0] == BACKEND_KEY_DATA && len == KEY_LEN {
          assert (s + ext)[5..9] == s[5..9] && (s + ext)[9..13] == s[9..13];
        } else if s[0] != READY_FOR_QUERY {
          ScanExtends(s[1 + len..], ext);
        }
      }
    }
  }

  lemma {:induction false} RestUndecided(s: seq<byte>)
    requires Scan(s).Undecided?
    ensures Scan(Scan(s).rest) == Scan(s) && |Scan(s).rest| <= |s|
    decreases |s|
  {
    hide FromBe;
    if |s| >= 5 && 4 <= LenAt(s) <= |s| - 1 {
      RestUndecided(s[1 + LenAt(s)..]);
    }
  }

  /** A finished scanner never returns a key again, so no stream yields two. */
  lemma {:induction false} DoneIsInert(chunks: seq<seq<byte>>)
    ensures Feed(Done, chunks) == (Done, [])
    decreases |chunks|
  {
    if chunks != [] {
      DoneIsInert(chunks[1..]);
    }
  }

  lemma {:induction false} AtMostOneKey(sc: Scanner, chunks: seq<seq<byte>>)
    ensures |Feed(sc, chunks).1| <= 1
    decreases |chunks|
  {
    hide Scan;
    if chunks != [] {
      var (sc', key) := Push(sc, chunks[0]);
      if key.Some? {
        DoneIsInert(chunks[1..]);
      } else {
        AtMostOneKey(sc', chunks[1..]);
      }
    }
  }

  // ---- Chunk independence ----

  /** Every message up to the decision fits the cap, or the stream ends before exceeding it. */
  predicate FitsCap(s: seq<byte>)
    decreases |s|
  {
    |s| >= 5 ==>
      var len := LenAt(s);
      len >= 4 ==>
        if len > SCAN_CAP then |s| <= SCAN_CAP
        else if |s| - 1 < len || (s[0] == BACKEND_KEY_DATA && len == KEY_LEN) || s[0] == READY_FOR_QUERY then true
        else FitsCap(s[1 + len..])
  }

  /** What is left undecided by a prefix of a fitting stream fits the buffer. */
  lemma {:induction false} PrefixFits(s: seq<byte>, n: nat)
    requires FitsCap(s) && n <= |s|
    ensures var v := Scan(s[..n]); v.Undecided? ==> |v.rest| <= SCAN_CAP && |v.rest| <= n && FitsCap(v.rest + s[n..])
    decreases |s|
  {
    hide FromBe;
    var p := s[..n];
    assert p + s[n..] == s;
    if |p| >= 5 {
      assert p[1..5] == s[1..5];
      var len := LenAt(s);
      if 4 <= len <= |p| - 1 && !(s[0] == BACKEND_KEY_DATA && len == KEY_LEN) && s[0] != READY_FOR_QUERY {
        assert p[1 + len..] == s[1 + len..][..n - 1 - len];
        assert s[1 + len..][n - 1 - len..] == s[n..];
        if len <= SCAN_CAP {
          PrefixFits(s[1 + len..], n - 1 - len);
        }
      }
    }
  }

  /** Feeding a fitting stream in chunks, with `sc` holding what is undecided so far. */
  lemma {:induction false} FeedsAsWhole(buf: seq<byte>, chunks: seq<seq<byte>>)
    requires FitsCap(buf + Joined(chunks)) && Scan(buf) == Undecided(buf)
    ensures Feed(Scanning(buf), chunks) == Expected(Scan(buf + Joined(chunks)))
    decreases |chunks|
  {
    hide Scan, FitsCap;
    if chunks == [] {
      assert buf + [] == buf;
    } else {
      var more := Joined(chunks[1..]);
      var all := buf + chunks[0];
      assert buf + Joined(chunks) == all + more;
      assert (all + more)[..|all|] == all && (all + more)[|all|..] == more;
      PrefixFits(all + more, |all|);
      ScanExtends(all, more);
      var v := Scan(all);
      if v.Undecided? {
        RestUndecided(all);
        FeedsAsWhole(v.rest, chunks[1..]);
      } else {
        DoneIsInert(chunks[1..]);
        assert v.Key? ==> [v.key] + [] == [v.key];
      }
    }
  }

  /** Whatever the chunks, a key comes out only if the whole stream has it first; after a reason to stop, none. */
  lemma {:induction false} NeverInvents(buf: seq<byte>, chunks: seq<seq<byte>>)
    requires Scan(buf) == Undecided(buf) && Scan(buf + Joined(chunks)).GiveUp?
    ensures Feed(Scanning(buf), chunks) == (Done, [])
    decreases |chunks|
  {
    hide Scan;
    assert buf + [] == buf;
    if chunks != [] {
      var more := Joined(chunks[1..]);
      var all := buf + chunks[0];
      assert buf + Joined(chunks) == all + more;
      ScanExtends(all, more);
      var v := Scan(all);
      if v.Undecided? && |v.rest| <= SCAN_CAP {
        RestUndecided(all);
        NeverInvents(v.rest, chunks[1..]);
      } else {
        DoneIsInert(chunks[1..]);
      }
    }
  }

  /** Where to cut an oversized stream so that the scanner gives up. */
  lemma {:induction false} OversizedCut(s: seq<byte>) returns (n: nat)
    requires !FitsCap(s)
    ensures n <= |s| && Scan(s[..n]).Undecided? && |Scan(s[..n]).rest| > SCAN_CAP
    decreases |s|
  {
    hide FromBe;
    var len := LenAt(s);
    if len > SCAN_CAP {
      n := SCAN_CAP + 1;
      assert s[..n][1..5] == s[1..5];
    } else {
      var m := OversizedCut(s[1 + len..]);
      n := 1 + len + m;
      assert s[..n][1..5] == s[1..5] && s[..n][1 + len..] == s[1 + len..][..m];
    }
  }

  // ---- Streams with a reason to stop ----

  /** The first `n` bytes are whole messages of no interest: neither a key nor ready-for-query. */
  predicate Passes(s: seq<byte>, n: nat)
    decreases |s|
  {
    n == 0 || (
      && |s| >= 5 && 4 <= LenAt(s) <= |s| - 1 && 1 + LenAt(s) <= n
      && !(s[0] == BACKEND_KEY_DATA && LenAt(s) == KEY_LEN) && s[0] != READY_FOR_QUERY
      && Passes(s[1 + LenAt(s)..], n - 1 - LenAt(s)))
  }

  /** A message follows whose length is malformed, or a whole ready-for-query. */
  predicate Stops(s: seq<byte>) {
    |s| >= 5 && (LenAt(s) < 4 || (LenAt(s) <= |s| - 1 && s[0] == READY_FOR_QUERY))
  }

  /** After messages of no interest comes one that stops the search. */
  ghost predicate StopsFirst(s: seq<byte>) {
    exists n: nat :: n <= |s| && Passes(s, n) && Stops(s[n..])
  }

  lemma {:induction false} GiveUpStops(s: seq<byte>)
    requires Scan(s).GiveUp?
    ensures StopsFirst(s)
    decreases |s|
  {
    hide FromBe;
    if Stops(s) {
      assert s[0..] == s && Passes(s, 0);
    } else {
      var k := 1 + LenAt(s);
      GiveUpStops(s[k..]);
      var n: nat :| n <= |s[k..]| && Passes(s[k..], n) && Stops(s[k..][n..]);
      assert s[k..][n..] == s[k + n..];
      assert Passes(s, k + n);
    }
  }

  lemma {:induction false} StopsGiveUp(s: seq<byte>, n: nat)
    requires n <= |s| && Passes(s, n) && Stops(s[n..])
    ensures Scan(s).GiveUp?
    decreases |s|
  {
    hide FromBe;
    if n == 0 {
      assert s[0..] == s;
    } else {
      var k := 1 + LenAt(s);
      assert s[k..][n - k..] == s[n..];
      StopsGiveUp(s[k..], n - k);
    }
  }

  /** The scan gives up exactly on the streams that call for it. */
  lemma GiveUpIff(s: seq<byte>)
    ensures Scan(s).GiveUp? <==> StopsFirst(s)
  {
    hide Scan, Passes, Stops;
    if Scan(s).GiveUp? {
      GiveUpStops(s);
    }
    if StopsFirst(s) {
      var n: nat :| n <= |s| && Passes(s, n) && Stops(s[n..]);
      StopsGiveUp(s, n);
    }
  }

  ghost predicate ChunkIndependent(s: seq<byte>) {
    forall chunks :: Joined(chunks) == s ==> Feed(Scanning([]), chunks) == Expected(Scan(s))
  }

  /**
   * The scanner gives the whole-stream answer for every chunking if and only if every
   * message up to the decision fits the cap, or the first message of interest stops the search.
   */
  lemma ChunkIndependentIff(s: seq<byte>)
    ensures ChunkIndependent(s) <==> FitsCap(s) || StopsFirst(s)
  {
    hide StopsFirst;
    GiveUpIff(s);
    assert [] + s == s;
    if FitsCap(s) || Scan(s).GiveUp? {
      forall chunks | Joined(chunks) == s ensures Feed(Scanning([]), chunks) == Expected(Scan(s)) {
        if FitsCap(s) {
          FeedsAsWhole([], chunks);
        } else {
          NeverInvents([], chunks);
        }
      }
    } else {
      var n := OversizedCut(s);
      var chunks := [s[..n], s[n..]];
      assert chunks[1..] == [s[n..]];
      TwoChunks(s[..n], s[n..]);
      hide Scan;
      assert [] + s[..n] == s[..n];
      DoneIsInert(chunks[1..]);
      assert Feed(Scanning([]), chunks) == (Done, []);
    }
  }

  lemma TwoChunks(a: seq<byte>, b: seq<byte>)
    ensures Joined([a, b]) == a + b
  {
    assert [a, b][1..] == [b] && [b][1..] == [];
    assert Joined([b]) == b + [] == b;
  }

  // ---- The scanner as it runs ----

  class KeyScanner {
    var buf: seq<byte>
    var done: bool

    ghost function Value(): Scanner
      reads this
    {
      if done then Done else Scanning(buf)
    }

    constructor ()
      ensures Value() == Scanning([])
    {
      buf, done := [], false;
    }

    /** Feed the next chunk; the key comes out the moment its message is complete. */
    method PushBytes(bytes: seq<byte>) returns (key: Option<CancelKey>)
      modifies this
      ensures (Value(), key) == Push(old(Value()), bytes)
    {
      if done {
        return None;
      }
      hide Signed;
      buf := buf + bytes;
      var off: nat := 0;
      assert buf[0..] == buf;
      while |buf| - off >= 5
        invariant off <= |buf| && !done && buf == old(buf) + bytes && Scan(buf) == Scan(buf[off..])
        decreases |buf| - off
      {
        var typ := buf[off];
        assert buf[off..][1..5] == buf[off + 1..off + 5];
        var len := Signed(buf[off + 1..off + 5]);
        if len < 4 {
          done := true;
          return None;
        }
        if |buf| - off - 1 < len {
          break;
        }
        if typ == BACKEND_KEY_DATA && len == KEY_LEN {
          var p := off + 5;
          assert buf[off..][5..9] == buf[p..p + 4] && buf[off..][9..13] == buf[p + 4..p + 8];
          done := true;
          return Some((Signed(buf[p..p + 4]), Signed(buf[p + 4..p + 8])));
        }
        if typ == READY_FOR_QUERY {
          done := true;
          return None;
        }
        assert buf[off..][1 + len..] == buf[off + 1 + len..];
        off := off + 1 + len;
      }
      assert Scan(buf) == Undecided(buf[off..]);
      if off > 0 {
        buf := buf[off..];
      }
      if |buf| > SCAN_CAP {
        done := true;
      }
      return None;
    }
  }
}
