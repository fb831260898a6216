/** The WAL receiver of a timeline: one poll, updating cursor, decoder and repository in place. */
module Receiver {
  import opened Common
  import opened WalErrors
  import opened WalStream
  import opened WalRecord
  import opened ImageRestore
  import opened SafekeeperSpec
  import Spec = ReceiverSpec
  import WalDecoder
  import Repository

  class WalReceiver {
    const cfg: Config
    const foreign: Foreign
    const store: Repository.Store
    var decoder: WalDecoder.WalStreamDecoder?
    var cursor: Lsn

    ghost predicate Valid()
      reads this, decoder
    {
      cfg.Valid() && (decoder != null ==> decoder.cfg == cfg)
    }

    ghost function Value(): Spec.Receiver
      reads this, decoder, store
    {
      Spec.Receiver(cursor,
                    if decoder == null then None else Some(Spec.Cursor(decoder.lsn, decoder.buf)),
                    store.State())
    }

    constructor (cfg: Config, foreign: Foreign, store: Repository.Store, start: Lsn)
      requires cfg.Valid()
      ensures Valid() && Value() == Spec.Receiver(start, None, store.State()) && this.store == store && this.cfg == cfg
              && this.foreign == foreign
    {
      this.cfg, this.foreign, this.store, decoder, cursor := cfg, foreign, store, null, start;
    }

    /** One round trip, given the safekeeper's answer: feed the bytes and ingest every complete record. */
    method PollOnce(resp: ReadResponse) returns (r: Result<nat, WalDecodeError>)
      requires Valid()
      modifies this, decoder, store
      ensures Valid() && (Value(), r) == Spec.PollOnce(cfg, foreign, old(Value()), resp)
    {
      hide Spec.Pump;
      if resp.payload == [] {
        return Ok(0);
      }
      var anew := if decoder == null then true else resp.start != cursor;
      if anew {
        decoder := new WalDecoder.WalStreamDecoder(resp.start, cfg);
      }
      decoder.FeedBytes(resp.payload);
      cursor := resp.start + |resp.payload|;
      r := IngestComplete(decoder);
    }

    /** The ingest loop. */
    method IngestComplete(d: WalDecoder.WalStreamDecoder) returns (r: Result<nat, WalDecodeError>)
      requires cfg.Valid() && d.cfg == cfg
      modifies d, store
      ensures var p := Spec.Pump(cfg, foreign, old(Spec.Cursor(d.lsn, d.buf)), old(store.State()));
              && Spec.Cursor(d.lsn, d.buf) == p.at && store.State() == p.repo
              && r == if p.error.Some? then Err(p.error.value) else Ok(p.count)
    {
      hide Poll, DecodeWalRecord, Modifications, Spec.IngestRecord;
      var ingested := 0;
      ghost var whole := Spec.Pump(cfg, foreign, Spec.Cursor(d.lsn, d.buf), store.State());
      while true
        invariant var p := Spec.Pump(cfg, foreign, Spec.Cursor(d.lsn, d.buf), store.State());
                  whole == p.(count := p.count + ingested)
        decreases |d.buf|
      {
        var polled := d.PollDecode();
        if polled.Pending? {
          return Ok(ingested);
        }
        if polled.Failed? {
          return Err(polled.error);
        }
        var failure := IngestOne(polled.at, polled.bytes);
        if failure.Some? {
          return Err(failure.value);
        }
        ingested := ingested + 1;
      }
    }

    /** Decode one record and ingest its modifications. */
    method IngestOne(at: Lsn, bytes: seq<byte>) returns (failure: Option<WalDecodeError>)
      modifies store
      ensures var spec := Spec.IngestRecord(foreign, old(store.State()), (at, bytes));
              if spec.Ok? then failure.None? && store.State() == spec.value
              else failure == Some(spec.error) && store.State() == old(store.State())
    {
      hide DecodeWalRecord, Modifications;
      var decoded := DecodeRecord(at, bytes);
      if decoded.Err? {
        return Some(decoded.error);
      }
      store.Ingest(Modifications(foreign, decoded.value, bytes));
      return None;
    }
  }
}
