/** The incremental WAL stream decoder as it runs, on a buffer it drains in place. */
module WalDecoder {
  import opened Common
  import opened Bytes
  import opened WalStream

  class WalStreamDecoder {
    var lsn: Lsn
    var buf: seq<byte>
    const cfg: Config

    constructor (startLsn: Lsn, cfg: Config)
      ensures lsn == startLsn && buf == [] && this.cfg == cfg
    {
      this.lsn, this.buf, this.cfg := startLsn, [], cfg;
    }

    method FeedBytes(bytes: seq<byte>)
      modifies this
      ensures buf == old(buf) + bytes && lsn == old(lsn)
    {
      buf := buf + bytes;
    }

    /** Collect `n` payload bytes from the current position, skipping page headers. */
    method CollectPayload(n: nat) returns (c: Collected)
      requires cfg.Valid()
      ensures c == Collect(cfg, lsn, buf, n)
    {
      hide Config.HeaderSize, AtPageStart, PieceLen, FromLe, Collect, After;
      var out, off: nat, at := [], 0, lsn;
      var first: Option<Lsn> := None;
      assert buf[0..] == buf;
      ghost var whole := Collect(cfg, lsn, buf, n);
      AfterCases(whole, 0, [], None);
      while |out| < n
        invariant |out| <= n && off <= |buf| && at == lsn + off
        invariant first.None? ==> out == []
        invariant whole == After(Collect(cfg, at, buf[off..], n - |out|), off, out, first)
        decreases n - |out|, if AtPageStart(at) then 1 else 0
      {
        var k := PieceLen(cfg, at, n - |out|);
        CollectEnds(cfg, at, buf[off..], n - |out|);
        AfterCases(Collect(cfg, at, buf[off..], n - |out|), off, out, first);
        if off + k > |buf| {
          return More;
        }
        var piece := buf[off..off + k];
        if AtPageStart(at) {
          assert buf[off..][..2] == piece[..2];
          var bad := cfg.CheckHeader(buf[off..]);
          if bad.Some? {
            return Fail(bad.value);
          }
          TakeHeader(at, off, n - |out|, out, first);
        } else {
          TakeChunk(at, off, n - |out|, out, first);
          first := if first.None? then Some(at) else first;
          out := out + piece;
        }
        off, at := off + k, at + k;
      }
      CollectEnds(cfg, at, buf[off..], 0);
      AfterCases(Collect(cfg, at, buf[off..], 0), off, out, first);
      return Got(out, off, if first.Some? then first.value else at);
    }

    lemma TakeHeader(at: Lsn, off: nat, n: nat, out: seq<byte>, first: Option<Lsn>)
      requires cfg.Valid() && AtPageStart(at) && n > 0 && off + cfg.HeaderSize(at) <= |buf|
      requires cfg.CheckHeader(buf[off..off + cfg.HeaderSize(at)]).None?
      ensures var k := cfg.HeaderSize(at);
              After(Collect(cfg, at, buf[off..], n), off, out, first) ==
                After(Collect(cfg, at + k, buf[off + k..], n), off + k, out, first)
    {
      hide Config.HeaderSize, AtPageStart, Collect, FromLe;
      var k := cfg.HeaderSize(at);
      CollectHeader(cfg, at, buf[off..off + k], buf[off + k..], n);
      assert buf[off..] == buf[off..off + k] + buf[off + k..];
    }

    lemma TakeChunk(at: Lsn, off: nat, n: nat, out: seq<byte>, first: Option<Lsn>)
      requires cfg.Valid() && !AtPageStart(at) && n > 0 && off + PieceLen(cfg, at, n) <= |buf|
      requires first.None? ==> out == []
      ensures var k := PieceLen(cfg, at, n);
              After(Collect(cfg, at, buf[off..], n), off, out, first) ==
              After(Collect(cfg, at + k, buf[off + k..], n - k), off + k, out + buf[off..off + k],
                    if first.None? then Some(at) else first)
    {
      hide Config.HeaderSize, AtPageStart, Collect, PieceLen;
      var k := PieceLen(cfg, at, n);
      CollectChunk(cfg, at, buf[off..off + k], buf[off + k..], n);
      assert buf[off..] == buf[off..off + k] + buf[off + k..];
      var c := Collect(cfg, at + k, buf[off + k..], n - k);
      assert c.Got? ==> out + (buf[off..off + k] + c.payload) == out + buf[off..off + k] + c.payload;
    }

    method Consume(raw: nat)
      requires raw <= |buf|
      modifies this
      ensures lsn == old(lsn) + raw && buf == old(buf)[raw..]
    {
      buf, lsn := buf[raw..], lsn + raw;
    }

    /** Try to decode the next complete record. */
    method PollDecode() returns (r: Polled)
      requires cfg.Valid()
      modifies this
      ensures r == Poll(cfg, old(lsn), old(buf)) && lsn == r.lsn && buf == r.buf
    {
      hide Config.HeaderSize, Collect, FromLe, NextPage, AtPageStart, Aligned, Pad;
      var pad := Pad(lsn);
      if pad > |buf| {
        return Pending(lsn, buf);
      }
      Consume(pad);
      while true
        invariant Aligned(lsn) && Poll(cfg, old(lsn), old(buf)) == PollAligned(cfg, lsn, buf)
        decreases |buf|
      {
        var len := CollectPayload(4);
        if len.More? {
          return Pending(lsn, buf);
        }
        if len.Fail? {
          return Failed(len.error, lsn, buf);
        }
        var totLen := FromLe(len.payload);
        if totLen < RECORD_HEADER {
          var skip := NextPage(len.start) - lsn;
          if skip > |buf| {
            return Pending(lsn, buf);
          }
          Consume(skip);
          continue;
        }
        var rec := CollectPayload(totLen);
        if rec.More? {
          return Pending(lsn, buf);
        }
        if rec.Fail? {
          return Failed(rec.error, lsn, buf);
        }
        Consume(rec.raw);
        return Record(rec.start, rec.payload, lsn, buf);
      }
    }
  }

  lemma AfterCases(c: Collected, k: nat, p: seq<byte>, start: Option<Lsn>)
    ensures !c.Got? ==> After(c, k, p, start) == c
    ensures c.Got? && k == 0 && p == [] && start.None? ==> After(c, k, p, start) == c
    ensures c.Got? && c.payload == [] && c.raw == 0 ==>
            After(c, k, p, start) == Got(p, k, if start.Some? then start.value else c.start)
  {
  }
}
