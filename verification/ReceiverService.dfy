/** The receiver's service, changing its key set, dead letter file and sink in place. */
module ReceiverService {
  import opened Wrappers
  import opened Framing
  import Base64
  import Dedup
  import opened ReceiverModel

  class Dlq {
    var entries: seq<DlqEntry>
    var count: nat

    constructor ()
      ensures entries == [] && count == 0
    {
      entries, count := [], 0;
    }

    method Reject(agentId: string, dataset: string, reason: Verdict, rawRecord: Record)
      modifies this
      ensures count == old(count) + 1
      ensures entries == old(entries) + [DlqEntry(agentId, dataset, reason, Base64.Encode(rawRecord))]
    {
      count := count + 1;
      var text := Base64.EncodeBytes(rawRecord);
      entries := entries + [DlqEntry(agentId, dataset, reason, text)];
    }
  }

  /** The sink appends all rows of a write or, when it fails, none. */
  class Sink {
    var rows: seq<Row>

    constructor ()
      ensures rows == []
    {
      rows := [];
    }

    method Write(batch: seq<Row>, works: bool) returns (ok: bool)
      modifies this
      ensures ok == works
      ensures rows == if works then old(rows) + batch else old(rows)
    {
      if works {
        rows := rows + batch;
      }
      return works;
    }
  }

  class AgentService {
    const env: Env
    const dedup: Dedup.Deduplicator
    const dlq: Dlq
    const sink: Sink

    constructor (env: Env, sink: Sink, dlq: Dlq, maxEntries: nat)
      ensures this.env == env && this.sink == sink && this.dlq == dlq
      ensures fresh(dedup) && dedup.seen == {} && dedup.maxEntries >= 1
    {
      this.env, this.sink, this.dlq := env, sink, dlq;
      dedup := new Dedup.Deduplicator(maxEntries);
    }

    function View(): Receiver
      reads dedup, dlq, sink
    {
      Receiver(dedup.seen, dlq.count, sink.rows, dlq.entries)
    }

    /** Valid records become rows, the others go to the dead letter file. */
    method Sort(req: Request, now: nat, raw: seq<Record>) returns (valid: seq<Row>, rejected: nat)
      modifies dlq
      ensures valid == Rows(env, req, now, raw)
      ensures rejected == |Rejects(env, req, raw)| && dlq.count == old(dlq.count) + rejected
      ensures dlq.entries == old(dlq.entries) + Rejects(env, req, raw)
    {
      hide Base64.Encode;
      valid, rejected := [], 0;
      var i := 0;
      while i < |raw|
        invariant i <= |raw|
        invariant valid == Rows(env, req, now, raw[..i])
        invariant rejected == |Rejects(env, req, raw[..i])|
        invariant dlq.entries == old(dlq.entries) + Rejects(env, req, raw[..i])
        invariant dlq.count == old(dlq.count) + rejected
      {
        assert raw[..i + 1][..i] == raw[..i];
        match (env.classify)(raw[i]) {
          case JsonObject =>
            valid := valid + [Row(req.dataset, req.agentId, now, raw[i])];
          case NotAnObject =>
            rejected := rejected + 1;
            dlq.Reject(req.agentId, req.dataset, NotAnObject, raw[i]);
          case InvalidJson =>
            rejected := rejected + 1;
            dlq.Reject(req.agentId, req.dataset, InvalidJson, raw[i]);
        }
        i := i + 1;
      }
      assert raw[..i] == raw;
    }

    /** Whether the sink works this time, and the time, are decided by the surroundings. */
    method ShipBatch(req: Request, sinkWorks: bool, now: nat) returns (reply: Reply)
      modifies dedup, dlq, sink
      ensures (View(), reply) == ReceiverModel.ShipBatch(env, dedup.maxEntries, old(View()), req, sinkWorks, now)
    {
      hide Decode, Rows, Rejects;
      var duplicate := dedup.CheckAndRemember((env.hash)(req.agentId, req.dataset, req.payload));
      if duplicate {
        return Reply(true, DuplicateBatch);
      }
      var framed := (env.zstd.decompress)(req.payload);
      if framed.None? {
        return Reply(false, CannotDecode(BadCompression));
      }
      var decoded := DecodeReceived(framed.value);
      if decoded.Err? {
        return Reply(false, CannotDecode(decoded.error));
      }
      var raw := decoded.value;
      var valid, rejected := Sort(req, now, raw);
      assert sink.rows + [] == sink.rows;
      if valid != [] {
        var ok := sink.Write(valid, sinkWorks);
        if !ok {
          return Reply(false, SinkFailed);
        }
      }
      return Reply(true, Inserted(|valid|, rejected));
    }
  }
}
