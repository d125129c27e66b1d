/**
 * The receiver's batch service on values: deduplicate, decompress and decode, sort valid records from
 * rejected ones, write to the sink, reply.
 */
module ReceiverModel {
  import opened Wrappers
  import opened Framing
  import Base64
  import Dedup

  /** The compression library, as a pair of functions. */
  datatype Zstd = Zstd(compress: seq<byte> -> seq<byte>, decompress: seq<byte> -> Option<seq<byte>>)

  datatype Verdict = JsonObject | NotAnObject | InvalidJson

  /** What the receiver uses without knowing its inside: compression, key hashing, JSON parsing. */
  datatype Env = Env(zstd: Zstd, hash: (string, string, seq<byte>) -> nat, classify: Record -> Verdict) {
    ghost predicate Lossless() { forall b :: zstd.decompress(zstd.compress(b)) == Some(b) }

    ghost predicate CollisionFree() {
      forall a, d, p, a', d', p' :: hash(a, d, p) == hash(a', d', p') ==> a == a' && d == d' && p == p'
    }
  }

  datatype Request = Request(agentId: string, dataset: string, payload: seq<byte>)

  /** A valid record, enriched with where it came from and when it was received. */
  datatype Row = Row(dataset: string, agentId: string, receivedAt: nat, raw: Record)

  datatype DlqEntry = DlqEntry(agentId: string, dataset: string, reason: Verdict, recordBase64: string)

  /** The sink and the dead letter file outlive a restart of the receiver; the other fields do not. */
  datatype Receiver = Receiver(seen: set<nat>, rejectedCount: nat, sink: seq<Row>, dlq: seq<DlqEntry>)

  datatype Message =
    | DuplicateBatch
    | CannotDecode(error: DecodeError)
    | SinkFailed
    | Inserted(inserted: nat, toDlq: nat)

  datatype Reply = Reply(accepted: bool, message: Message)

  function Key(env: Env, req: Request): nat { (env.hash)(req.agentId, req.dataset, req.payload) }

  function DecodeBatch(env: Env, payload: seq<byte>): Result<seq<Record>, DecodeError> {
    match (env.zstd.decompress)(payload)
    case Some(framed) => Decode(framed, 0)
    case None => Err(BadCompression)
  }

  function RowOf(req: Request, now: nat, r: Record): Row { Row(req.dataset, req.agentId, now, r) }

  function RejectOf(env: Env, req: Request, r: Record): DlqEntry {
    DlqEntry(req.agentId, req.dataset, (env.classify)(r), Base64.Encode(r))
  }

  function Rows(env: Env, req: Request, now: nat, rs: seq<Record>): seq<Row> {
    if rs == [] then []
    else
      var r := rs[|rs| - 1];
      Rows(env, req, now, rs[..|rs| - 1]) + if (env.classify)(r).JsonObject? then [RowOf(req, now, r)] else []
  }

  function Rejects(env: Env, req: Request, rs: seq<Record>): seq<DlqEntry> {
    if rs == [] then []
    else
      var r := rs[|rs| - 1];
      Rejects(env, req, rs[..|rs| - 1]) + if (env.classify)(r).JsonObject? then [] else [RejectOf(env, req, r)]
  }

  /** One call of the service. The key is remembered before anything else is known to succeed. */
  function ShipBatch(env: Env, maxEntries: nat, r: Receiver, req: Request, sinkOk: bool, now: nat)
    : (Receiver, Reply)
  {
    var (duplicate, seen) := Dedup.Remember(r.seen, maxEntries, Key(env, req));
    if duplicate then (r, Reply(true, DuplicateBatch))
    else
      match DecodeBatch(env, req.payload)
      case Err(e) => (r.(seen := seen), Reply(false, CannotDecode(e)))
      case Ok(rs) =>
        var rows, rejects := Rows(env, req, now, rs), Rejects(env, req, rs);
        var sorted := r.(seen := seen, rejectedCount := r.rejectedCount + |rejects|, dlq := r.dlq + rejects);
        if rows != [] && !sinkOk then (sorted, Reply(false, SinkFailed))
        else (sorted.(sink := r.sink + rows), Reply(true, Inserted(|rows|, |rejects|)))
  }

  /** A restart forgets the remembered keys and the counter. */
  function Restart(r: Receiver): Receiver { r.(seen := {}, rejectedCount := 0) }

  // ---------------------------------------------------------------- what it means

  ghost predicate InSink(r: Receiver, agentId: string, dataset: string, rec: Record) {
    exists i :: 0 <= i < |r.sink| && r.sink[i].agentId == agentId && r.sink[i].dataset == dataset
             && r.sink[i].raw == rec
  }

  /** The dead letter file holds the record's bytes, as a standard Base64 reader recovers them. */
  ghost predicate InDlq(r: Receiver, agentId: string, dataset: string, rec: Record) {
    exists i :: 0 <= i < |r.dlq| && r.dlq[i].agentId == agentId && r.dlq[i].dataset == dataset
             && Base64.Decode(r.dlq[i].recordBase64) == Some(rec)
  }

  ghost predicate Delivered(r: Receiver, agentId: string, dataset: string, rec: Record) {
    InSink(r, agentId, dataset, rec) || InDlq(r, agentId, dataset, rec)
  }

  lemma {:induction false} RowsHold(env: Env, req: Request, now: nat, rs: seq<Record>, k: nat) returns (i: nat)
    requires k < |rs| && (env.classify)(rs[k]).JsonObject?
    ensures i < |Rows(env, req, now, rs)| && Rows(env, req, now, rs)[i] == RowOf(req, now, rs[k])
  {
    if k == |rs| - 1 {
      i := |Rows(env, req, now, rs[..k])|;
    } else {
      i := RowsHold(env, req, now, rs[..|rs| - 1], k);
    }
  }

  lemma {:induction false} RejectsHold(env: Env, req: Request, rs: seq<Record>, k: nat) returns (i: nat)
    requires k < |rs| && !(env.classify)(rs[k]).JsonObject?
    ensures i < |Rejects(env, req, rs)| && Rejects(env, req, rs)[i] == RejectOf(env, req, rs[k])
  {
    if k == |rs| - 1 {
      i := |Rejects(env, req, rs[..k])|;
    } else {
      i := RejectsHold(env, req, rs[..|rs| - 1], k);
    }
  }

  lemma {:induction false} RowsAreRecords(env: Env, req: Request, now: nat, rs: seq<Record>, i: nat) returns (k: nat)
    requires i < |Rows(env, req, now, rs)|
    ensures k < |rs| && (env.classify)(rs[k]).JsonObject? && Rows(env, req, now, rs)[i] == RowOf(req, now, rs[k])
  {
    var n := |rs| - 1;
    if i < |Rows(env, req, now, rs[..n])| {
      k := RowsAreRecords(env, req, now, rs[..n], i);
    } else {
      k := n;
    }
  }

  lemma {:induction false} RejectsAreRecords(env: Env, req: Request, rs: seq<Record>, i: nat) returns (k: nat)
    requires i < |Rejects(env, req, rs)|
    ensures k < |rs| && !(env.classify)(rs[k]).JsonObject? && Rejects(env, req, rs)[i] == RejectOf(env, req, rs[k])
  {
    var n := |rs| - 1;
    if i < |Rejects(env, req, rs[..n])| {
      k := RejectsAreRecords(env, req, rs[..n], i);
    } else {
      k := n;
    }
  }

  /** The records that are JSON objects, or those that are not, in order. */
  function Having(env: Env, objects: bool, rs: seq<Record>): seq<Record> {
    if rs == [] then []
    else
      var r := rs[|rs| - 1];
      Having(env, objects, rs[..|rs| - 1]) + if (env.classify)(r).JsonObject? == objects then [r] else []
  }

  function EachAsRow(req: Request, now: nat, rs: seq<Record>): seq<Row> {
    seq(|rs|, i requires 0 <= i < |rs| => RowOf(req, now, rs[i]))
  }

  function EachAsReject(env: Env, req: Request, rs: seq<Record>): seq<DlqEntry> {
    seq(|rs|, i requires 0 <= i < |rs| => RejectOf(env, req, rs[i]))
  }

  lemma {:induction false} HavingSplits(env: Env, rs: seq<Record>)
    ensures multiset(rs) == multiset(Having(env, true, rs)) + multiset(Having(env, false, rs))
  {
    hide Having;
    if rs == [] {
      HavingNone(env);
    } else {
      var n := |rs| - 1;
      var front, r := rs[..n], rs[n];
      HavingSplits(env, front);
      assert rs == front + [r];
      HavingOne(env, front, r);
    }
  }

  lemma HavingNone(env: Env)
    ensures Having(env, true, []) == [] && Having(env, false, []) == []
  {}

  lemma HavingOne(env: Env, front: seq<Record>, r: Record)
    ensures var valid := (env.classify)(r).JsonObject?;
            && Having(env, valid, front + [r]) == Having(env, valid, front) + [r]
            && Having(env, !valid, front + [r]) == Having(env, !valid, front)
  {
    assert (front + [r])[..|front|] == front;
  }

  lemma {:induction false} RowsAreObjects(env: Env, req: Request, now: nat, rs: seq<Record>)
    ensures Rows(env, req, now, rs) == EachAsRow(req, now, Having(env, true, rs))
  {
    hide RowOf;
    if rs != [] {
      RowsAreObjects(env, req, now, rs[..|rs| - 1]);
    }
  }

  lemma {:induction false} RejectsAreOthers(env: Env, req: Request, rs: seq<Record>)
    ensures Rejects(env, req, rs) == EachAsReject(env, req, Having(env, false, rs))
  {
    hide RejectOf;
    if rs != [] {
      RejectsAreOthers(env, req, rs[..|rs| - 1]);
    }
  }

  /**
   * A batch is split in two: its JSON objects, each once and in order, are the rows, and all its other
   * records, each once and in order, are the dead letters.
   */
  lemma RowsAndRejectsPartition(env: Env, req: Request, now: nat, rs: seq<Record>)
    ensures multiset(rs) == multiset(Having(env, true, rs)) + multiset(Having(env, false, rs))
    ensures Rows(env, req, now, rs) == EachAsRow(req, now, Having(env, true, rs))
    ensures Rejects(env, req, rs) == EachAsReject(env, req, Having(env, false, rs))
  {
    HavingSplits(env, rs);
    RowsAreObjects(env, req, now, rs);
    RejectsAreOthers(env, req, rs);
  }

  /** Nothing delivered is ever lost again. */
  lemma DeliveredStays(env: Env, maxEntries: nat, r: Receiver, req: Request, sinkOk: bool, now: nat,
                       agentId: string, dataset: string, rec: Record)
    requires Delivered(r, agentId, dataset, rec)
    ensures Delivered(ShipBatch(env, maxEntries, r, req, sinkOk, now).0, agentId, dataset, rec)
    ensures Delivered(Restart(r), agentId, dataset, rec)
  {
    hide Rows, Rejects, Base64.Decode;
    var r' := ShipBatch(env, maxEntries, r, req, sinkOk, now).0;
    assert r.sink <= r'.sink && r.dlq <= r'.dlq;
    if InSink(r, agentId, dataset, rec) {
      var i :| 0 <= i < |r.sink| && r.sink[i].agentId == agentId && r.sink[i].dataset == dataset
               && r.sink[i].raw == rec;
      assert r'.sink[i] == r.sink[i] == Restart(r).sink[i];
    } else {
      var i :| 0 <= i < |r.dlq| && r.dlq[i].agentId == agentId && r.dlq[i].dataset == dataset
               && Base64.Decode(r.dlq[i].recordBase64) == Some(rec);
      assert r'.dlq[i] == r.dlq[i] == Restart(r).dlq[i];
    }
  }

  /** Whatever is delivered after a batch was delivered before, or is a record of this batch. */
  lemma DeliveredFrom(env: Env, maxEntries: nat, r: Receiver, req: Request, sinkOk: bool, now: nat,
                      agentId: string, dataset: string, rec: Record)
    requires Delivered(ShipBatch(env, maxEntries, r, req, sinkOk, now).0, agentId, dataset, rec)
    ensures Delivered(r, agentId, dataset, rec)
            || (req.agentId == agentId && req.dataset == dataset
                && DecodeBatch(env, req.payload).Ok? && rec in DecodeBatch(env, req.payload).value)
  {
    hide Rows, Rejects, Base64.Decode, Base64.Encode, Decode;
    var r' := ShipBatch(env, maxEntries, r, req, sinkOk, now).0;
    if InSink(r', agentId, dataset, rec) {
      var i :| 0 <= i < |r'.sink| && r'.sink[i].agentId == agentId && r'.sink[i].dataset == dataset
               && r'.sink[i].raw == rec;
      if i < |r.sink| {
        assert r.sink[i] == r'.sink[i];
      } else {
        var k := RowsAreRecords(env, req, now, DecodeBatch(env, req.payload).value, i - |r.sink|);
      }
    } else {
      var i :| 0 <= i < |r'.dlq| && r'.dlq[i].agentId == agentId && r'.dlq[i].dataset == dataset
               && Base64.Decode(r'.dlq[i].recordBase64) == Some(rec);
      if i < |r.dlq| {
        assert r.dlq[i] == r'.dlq[i];
      } else {
        var k := RejectsAreRecords(env, req, DecodeBatch(env, req.payload).value, i - |r.dlq|);
        Base64.RoundTrip(DecodeBatch(env, req.payload).value[k]);
      }
    }
  }

  /** A batch seen for the first time, whose sink write does not fail, is accepted and delivered whole. */
  lemma FirstAttemptDelivers(env: Env, maxEntries: nat, r: Receiver, req: Request, sinkOk: bool, now: nat, k: nat)
    requires Key(env, req) !in r.seen
    requires DecodeBatch(env, req.payload).Ok? && k < |DecodeBatch(env, req.payload).value|
    ensures var rs := DecodeBatch(env, req.payload).value;
            var (r', reply) := ShipBatch(env, maxEntries, r, req, sinkOk, now);
            && (!(env.classify)(rs[k]).JsonObject? ==> InDlq(r', req.agentId, req.dataset, rs[k]))
            && ((env.classify)(rs[k]).JsonObject? && sinkOk ==> InSink(r', req.agentId, req.dataset, rs[k]))
            && (sinkOk ==> reply.accepted)
  {
    hide Rows, Rejects, Base64.Decode, Base64.Encode, Decode;
    var rs := DecodeBatch(env, req.payload).value;
    var r' := ShipBatch(env, maxEntries, r, req, sinkOk, now).0;
    if (env.classify)(rs[k]).JsonObject? {
      var i := RowsHold(env, req, now, rs, k);
      if sinkOk {
        assert r'.sink[|r.sink| + i] == RowOf(req, now, rs[k]);
      }
    } else {
      var i := RejectsHold(env, req, rs, k);
      assert r'.dlq[|r.dlq| + i] == RejectOf(env, req, rs[k]);
      Base64.RoundTrip(rs[k]);
    }
  }

  /**
   * When a batch is accepted, for any request whatever: its key is remembered, or its payload decodes and
   * the sink works or has nothing to store. Otherwise, and for a duplicate, the sink is as it was. In every
   * case the key is remembered afterwards.
   */
  lemma AcceptedExactly(env: Env, maxEntries: nat, r: Receiver, req: Request, sinkOk: bool, now: nat)
    ensures var (r', reply) := ShipBatch(env, maxEntries, r, req, sinkOk, now);
            var decoded := DecodeBatch(env, req.payload);
            && (reply.accepted <==>
                  Key(env, req) in r.seen || (decoded.Ok? && (sinkOk || Having(env, true, decoded.value) == [])))
            && Key(env, req) in r'.seen
            && (Key(env, req) in r.seen ==> r' == r && reply.message == DuplicateBatch)
            && (Key(env, req) !in r.seen && decoded.Err? ==>
                  && r'.sink == r.sink && r'.dlq == r.dlq && r'.rejectedCount == r.rejectedCount
                  && reply.message == CannotDecode(decoded.error))
            && (!reply.accepted ==> r'.sink == r.sink)
  {
    hide Rows, Rejects, Having, Decode;
    if DecodeBatch(env, req.payload).Ok? {
      RowsAndRejectsPartition(env, req, now, DecodeBatch(env, req.payload).value);
    }
  }

  /** A new batch that is accepted decodes, and each of its records is delivered. */
  lemma AcceptedIsDelivered(env: Env, maxEntries: nat, r: Receiver, req: Request, sinkOk: bool, now: nat)
    requires Key(env, req) !in r.seen
    requires ShipBatch(env, maxEntries, r, req, sinkOk, now).1.accepted
    ensures DecodeBatch(env, req.payload).Ok?
    ensures forall k :: 0 <= k < |DecodeBatch(env, req.payload).value| ==>
              Delivered(ShipBatch(env, maxEntries, r, req, sinkOk, now).0, req.agentId, req.dataset,
                        DecodeBatch(env, req.payload).value[k])
  {
    hide Rows, Rejects, Having, Decode;
    AcceptedExactly(env, maxEntries, r, req, sinkOk, now);
    hide ShipBatch;
    var rs := DecodeBatch(env, req.payload).value;
    forall k | 0 <= k < |rs|
      ensures Delivered(ShipBatch(env, maxEntries, r, req, sinkOk, now).0, req.agentId, req.dataset, rs[k])
    {
      FirstAttemptDelivers(env, maxEntries, r, req, sinkOk, now, k);
      if (env.classify)(rs[k]).JsonObject? {
        HavingHolds(env, rs, k);
      }
    }
  }

  lemma {:induction false} HavingHolds(env: Env, rs: seq<Record>, k: nat)
    requires k < |rs| && (env.classify)(rs[k]).JsonObject?
    ensures rs[k] in Having(env, true, rs)
  {
    if k < |rs| - 1 {
      HavingHolds(env, rs[..|rs| - 1], k);
    }
  }

  /**
   * What a reply to a new batch that decodes says: how many of its records are JSON objects, all stored,
   * and how many went to the dead letter file, or that the sink failed. The counter grows by the latter.
   */
  lemma ReplyCountsExactly(env: Env, maxEntries: nat, r: Receiver, req: Request, sinkOk: bool, now: nat)
    requires Key(env, req) !in r.seen && DecodeBatch(env, req.payload).Ok?
    ensures var (r', reply) := ShipBatch(env, maxEntries, r, req, sinkOk, now);
            var rs := DecodeBatch(env, req.payload).value;
            var objects, others := |Having(env, true, rs)|, |Having(env, false, rs)|;
            && (reply.accepted ==> reply.message == Inserted(objects, others) && |r'.sink| == |r.sink| + objects)
            && (!reply.accepted ==> reply.message == SinkFailed)
            && |r'.dlq| == |r.dlq| + others && r'.rejectedCount == r.rejectedCount + others
            && objects + others == |rs|
  {
    hide Rows, Rejects, Having, Decode;
    var rs := DecodeBatch(env, req.payload).value;
    RowsAndRejectsPartition(env, req, now, rs);
    assert |multiset(rs)| == |rs|;
  }

  /**
   * What a batch adds, entry by entry: a row carries the request's names, the time of this call and a JSON
   * object, a dead letter the request's names, the bytes of a record that is none, and the parser's reason.
   */
  lemma AddedExactly(env: Env, maxEntries: nat, r: Receiver, req: Request, sinkOk: bool, now: nat, i: nat)
    ensures var r' := ShipBatch(env, maxEntries, r, req, sinkOk, now).0;
            && (|r.sink| <= i < |r'.sink| ==>
                  && r'.sink[i].agentId == req.agentId && r'.sink[i].dataset == req.dataset
                  && r'.sink[i].receivedAt == now && (env.classify)(r'.sink[i].raw) == JsonObject)
            && (|r.dlq| <= i < |r'.dlq| ==>
                  && r'.dlq[i].agentId == req.agentId && r'.dlq[i].dataset == req.dataset
                  && r'.dlq[i].reason != JsonObject && Base64.Decode(r'.dlq[i].recordBase64).Some?
                  && r'.dlq[i].reason == (env.classify)(Base64.Decode(r'.dlq[i].recordBase64).value))
  {
    hide Rows, Rejects, Base64.Decode, Base64.Encode, Decode;
    var r' := ShipBatch(env, maxEntries, r, req, sinkOk, now).0;
    if |r.sink| <= i < |r'.sink| {
      var k := RowsAreRecords(env, req, now, DecodeBatch(env, req.payload).value, i - |r.sink|);
    }
    if |r.dlq| <= i < |r'.dlq| {
      var k := RejectsAreRecords(env, req, DecodeBatch(env, req.payload).value, i - |r.dlq|);
      Base64.RoundTrip(DecodeBatch(env, req.payload).value[k]);
    }
  }

  /** After a restart no batch is a duplicate, and the counter counts this run's dead letters alone. */
  lemma RestartForgets(env: Env, maxEntries: nat, r: Receiver, req: Request, sinkOk: bool, now: nat)
    ensures var (r', reply) := ShipBatch(env, maxEntries, Restart(r), req, sinkOk, now);
            && reply.message != DuplicateBatch
            && |r'.dlq| == |r.dlq| + r'.rejectedCount
            && r.sink <= r'.sink && r.dlq <= r'.dlq
  {
    hide Rows, Rejects, Decode;
    assert Key(env, req) !in Restart(r).seen;
  }

  /**
   * Why a failed sink write loses data: the retry is acknowledged as a duplicate whatever the sink
   * does, so a new valid record of the batch reaches the sink if and only if the first write worked.
   */
  lemma RetryExactly(env: Env, maxEntries: nat, r: Receiver, req: Request, sinkOk: bool, now: nat,
                     sinkOk': bool, now': nat, k: nat)
    requires Key(env, req) !in r.seen
    requires DecodeBatch(env, req.payload).Ok? && k < |DecodeBatch(env, req.payload).value|
    requires (env.classify)(DecodeBatch(env, req.payload).value[k]).JsonObject?
    requires !InSink(r, req.agentId, req.dataset, DecodeBatch(env, req.payload).value[k])
    ensures var rec := DecodeBatch(env, req.payload).value[k];
            var (first, reply) := ShipBatch(env, maxEntries, r, req, sinkOk, now);
            var (second, reply') := ShipBatch(env, maxEntries, first, req, sinkOk', now');
            && (reply.accepted <==> sinkOk)
            && reply' == Reply(true, DuplicateBatch) && second == first
            && (InSink(second, req.agentId, req.dataset, rec) <==> sinkOk)
  {
    FirstAttemptDelivers(env, maxEntries, r, req, sinkOk, now, k);
    var rs := DecodeBatch(env, req.payload).value;
    var i := RowsHold(env, req, now, rs, k);
  }
}
