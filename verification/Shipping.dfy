/** Turning pending log entries into batches: encoding, the file shipper and the drain loop. */
module Shipping {
  import opened Wrappers
  import opened Framing
  import opened WalModel
  import Wal
  import opened ReceiverModel

  /** The payload of a batch: its records framed back to back, then compressed as a whole. */
  function Payload(zstd: Zstd, rs: seq<Record>): seq<byte> { (zstd.compress)(Frames(rs)) }

  method EncodeBatch(zstd: Zstd, batch: seq<WalEntry>) returns (payload: seq<byte>)
    ensures payload == Payload(zstd, Data(batch))
  {
    var framed: seq<byte> := [];
    var i := 0;
    while i < |batch|
      invariant i <= |batch|
      invariant framed == Frames(Data(batch[..i]))
    {
      FramesSnoc(Data(batch[..i]), batch[i].data);
      assert Data(batch[..i + 1]) == Data(batch[..i]) + [batch[i].data];
      framed := framed + ToLe32(|batch[i].data| % TWO_TO_THE_32);
      framed := framed + batch[i].data;
      i := i + 1;
    }
    assert batch[..i] == batch;
    payload := (zstd.compress)(framed);
  }

  // ---------------------------------------------------------------- batches in a file

  function DecodePayload(zstd: Zstd, payload: seq<byte>): Result<seq<Record>, Failure> {
    match (zstd.decompress)(payload)
    case Some(framed) => DecodeStrict(framed, 0)
    case None => Err(BadPayload)
  }

  /** Every batch of a shipped file from a position on. */
  function ReadShipped(zstd: Zstd, buf: seq<byte>, pos: nat): Result<seq<seq<Record>>, Failure>
    decreases |buf| - pos
  {
    if pos >= |buf| then Ok([])
    else if pos + 4 > |buf| then Err(Panic)
    else
      var next := pos + 4 + LenAt(buf, pos);
      if next > |buf| then Err(Panic)
      else
        match DecodePayload(zstd, buf[pos + 4..next])
        case Err(e) => Err(e)
        case Ok(rs) => PrependBatch([rs], ReadShipped(zstd, buf, next))
  }

  function PrependBatch(bs: seq<seq<Record>>, rest: Result<seq<seq<Record>>, Failure>)
    : Result<seq<seq<Record>>, Failure>
  {
    match rest case Ok(more) => Ok(bs + more) case Err(e) => Err(e)
  }

  class FileShipper {
    const zstd: Zstd
    var output: seq<byte>

    constructor (zstd: Zstd)
      ensures this.zstd == zstd && output == []
    {
      this.zstd, output := zstd, [];
    }

    /** Appends one length-prefixed compressed batch; an empty batch writes nothing. */
    method Ship(batch: seq<WalEntry>)
      modifies this
      ensures output == old(output) + ShippedBytes(zstd, Data(batch))
    {
      if batch == [] {
        return;
      }
      var compressed := EncodeBatch(zstd, batch);
      output := output + ToLe32(|compressed| % TWO_TO_THE_32);
      output := output + compressed;
    }
  }

  function ShippedBytes(zstd: Zstd, rs: seq<Record>): seq<byte> {
    if rs == [] then [] else Frame(Payload(zstd, rs))
  }

  /** The file after shipping these batches one after the other. */
  function ShippedFile(zstd: Zstd, batches: seq<seq<Record>>): seq<byte> {
    if batches == [] then [] else ShippedBytes(zstd, batches[0]) + ShippedFile(zstd, batches[1..])
  }

  function NonEmpty(batches: seq<seq<Record>>): seq<seq<Record>> {
    if batches == [] then []
    else (if batches[0] == [] then [] else [batches[0]]) + NonEmpty(batches[1..])
  }

  /** Sizes the length prefixes can express. */
  ghost predicate Fits(zstd: Zstd, rs: seq<Record>) { AllShort(rs) && Short(Payload(zstd, rs)) }

  lemma PayloadRoundTrip(zstd: Zstd, rs: seq<Record>)
    requires (zstd.decompress)((zstd.compress)(Frames(rs))) == Some(Frames(rs))
    requires AllShort(rs)
    ensures DecodePayload(zstd, Payload(zstd, rs)) == Ok(rs)
  {
    DecodeStrictExactly(Frames(rs), 0, rs);
  }

  lemma ReadOne(zstd: Zstd, buf: seq<byte>, pos: nat, payload: seq<byte>, rs: seq<Record>)
    requires Short(payload) && StandsAt(Frame(payload), buf, pos)
    requires DecodePayload(zstd, payload) == Ok(rs)
    ensures ReadShipped(zstd, buf, pos) == PrependBatch([rs], ReadShipped(zstd, buf, pos + |Frame(payload)|))
  {
    hide LenAt, DecodePayload;
    FrameExactly(buf, pos, payload);
    FrameLength(payload);
  }

  /** Reading a shipped file gives back every non-empty batch that was shipped, in order. */
  lemma {:induction false} ShippedFileReadsBack(zstd: Zstd, batches: seq<seq<Record>>, buf: seq<byte>, pos: nat)
    requires forall b :: (zstd.decompress)((zstd.compress)(b)) == Some(b)
    requires forall i :: 0 <= i < |batches| ==> Fits(zstd, batches[i])
    requires pos <= |buf| && buf[pos..] == ShippedFile(zstd, batches)
    ensures ReadShipped(zstd, buf, pos) == Ok(NonEmpty(batches))
    decreases |batches|
  {
    hide Frame, Frames, DecodePayload, Payload, ReadShipped;
    if batches == [] {
      NothingShipped(zstd, buf, pos);
    } else {
      var rs, rest := batches[0], batches[1..];
      var first := ShippedBytes(zstd, rs);
      var next := pos + |first|;
      assert buf[pos..] == first + ShippedFile(zstd, rest);
      assert buf[next..] == buf[pos..][|first|..] == ShippedFile(zstd, rest);
      ShippedFileReadsBack(zstd, rest, buf, next);
      if rs != [] {
        assert buf[pos..next] == buf[pos..][..|first|] == first;
        assert Fits(zstd, rs);
        PayloadRoundTrip(zstd, rs);
        ReadOne(zstd, buf, pos, Payload(zstd, rs), rs);
      } else {
        assert [] + NonEmpty(rest) == NonEmpty(rest);
      }
    }
  }

  lemma NothingShipped(zstd: Zstd, buf: seq<byte>, pos: nat)
    requires pos >= |buf|
    ensures ReadShipped(zstd, buf, pos) == Ok([])
  {}

  method ReadShippedBatches(zstd: Zstd, buf: seq<byte>) returns (r: Result<seq<seq<Record>>, Failure>)
    ensures r == ReadShipped(zstd, buf, 0)
  {
    hide LenAt, DecodeStrict;
    var batches: seq<seq<Record>> := [];
    var pos := 0;
    PrependBatchLaws([], [], ReadShipped(zstd, buf, 0));
    while pos < |buf|
      invariant pos <= |buf|
      invariant ReadShipped(zstd, buf, 0) == PrependBatch(batches, ReadShipped(zstd, buf, pos))
    {
      if pos + 4 > |buf| {
        return Err(Panic);
      }
      var len := LenAt(buf, pos);
      pos := pos + 4;
      if pos + len > |buf| {
        return Err(Panic);
      }
      var framed := (zstd.decompress)(buf[pos..pos + len]);
      pos := pos + len;
      if framed.None? {
        return Err(BadPayload);
      }
      var decoded := DecodeShipped(framed.value);
      if decoded.Err? {
        return Err(decoded.error);
      }
      PrependBatchLaws(batches, [decoded.value], ReadShipped(zstd, buf, pos));
      batches := batches + [decoded.value];
    }
    assert batches + [] == batches;
    return Ok(batches);
  }

  lemma PrependBatchLaws(a: seq<seq<Record>>, b: seq<seq<Record>>, rest: Result<seq<seq<Record>>, Failure>)
    ensures PrependBatch([], rest) == rest
    ensures PrependBatch(a, PrependBatch(b, rest)) == PrependBatch(a + b, rest)
  {
    match rest {
      case Ok(more) => assert [] + more == more; assert a + (b + more) == a + b + more;
      case Err(_) =>
    }
  }

  // ---------------------------------------------------------------- the drain loop

  function Chunks(es: seq<WalEntry>, n: nat): (cs: seq<seq<WalEntry>>)
    requires n >= 1
    ensures forall j :: 0 <= j < |cs| ==> 1 <= |cs[j]| <= n
    decreases |es|
  {
    if es == [] then [] else if |es| <= n then [es] else [es[..n]] + Chunks(es[n..], n)
  }

  function Flat(cs: seq<seq<WalEntry>>): seq<WalEntry> {
    if cs == [] then [] else Flat(cs[..|cs| - 1]) + cs[|cs| - 1]
  }

  /** The far end of a shipper: it may take a batch or report a failure, as it pleases. */
  class Link {
    var accepted: seq<seq<WalEntry>>

    constructor ()
      ensures accepted == []
    {
      accepted := [];
    }

    method Ship(batch: seq<WalEntry>) returns (ok: bool)
      modifies this
      ensures accepted == if ok then old(accepted) + [batch] else old(accepted)
    {
      ok := *;
      if ok {
        accepted := accepted + [batch];
      }
    }
  }

  lemma NextChunk(es: seq<WalEntry>, n: nat)
    requires n >= 1 && es != []
    ensures var k := if n <= |es| then n else |es|;
            Chunks(es, n) == [es[..k]] + Chunks(es[k..], n)
  {
    if |es| <= n {
      assert es[..|es|] == es && es[|es|..] == [];
    }
  }

  /** Acking the end of a chunk moves exactly that chunk over to the acked records. */
  lemma AckNext(s: State, c: Contents, pos: nat, end: nat)
    requires pos < end <= |c.todo|
    requires Represents(s, Contents(c.done + c.todo[..pos], c.todo[pos..]))
    ensures var rest := Entries(s.ackOffset, c.todo[pos..]);
            var offset := rest[end - pos - 1].offset;
            && Represents(Ack(s, offset), Contents(c.done + c.todo[..end], c.todo[end..]))
            && rest[end - pos..] == Entries(offset, c.todo[end..])
  {
    hide Represents, Entries, Decode, Frames;
    var now := Contents(c.done + c.todo[..pos], c.todo[pos..]);
    PendingIsTodo(s, now);
    AckRepresents(s, now, end - pos - 1);
    assert now.done + now.todo[..end - pos] == c.done + c.todo[..end];
    assert now.todo[end - pos..] == c.todo[end..];
  }

  /** Where a drain stands after taking some chunks: everything before pos is shipped and acked. */
  ghost predicate Draining(s: State, c: Contents, pending: seq<WalEntry>, taken: seq<seq<WalEntry>>,
                           pos: nat, size: nat)
  {
    && size >= 1 && pos <= |pending| && Data(pending) == c.todo
    && Chunks(pending, size) == taken + Chunks(pending[pos..], size)
    && Flat(taken) == pending[..pos]
    && Represents(s, Contents(c.done + c.todo[..pos], c.todo[pos..]))
    && pending[pos..] == Entries(s.ackOffset, c.todo[pos..])
  }

  lemma DrainStarts(s: State, c: Contents, size: nat)
    requires Represents(s, c) && size >= 1
    ensures Pending(s) == Ok(Entries(s.ackOffset, c.todo))
    ensures Draining(s, c, Entries(s.ackOffset, c.todo), [], 0, size)
  {
    hide Represents, Entries, Decode, Frames;
    PendingIsTodo(s, c);
    var pending := Entries(s.ackOffset, c.todo);
    assert pending[0..] == pending && c.done + c.todo[..0] == c.done && c.todo[0..] == c.todo;
  }

  /** The next chunk, seen from the whole of what was pending. */
  lemma TakesChunk(pending: seq<WalEntry>, taken: seq<seq<WalEntry>>, pos: nat, size: nat)
    requires size >= 1 && pos < |pending|
    requires Chunks(pending, size) == taken + Chunks(pending[pos..], size) && Flat(taken) == pending[..pos]
    ensures var end := if pos + size <= |pending| then pos + size else |pending|;
            && Chunks(pending, size) == taken + [pending[pos..end]] + Chunks(pending[end..], size)
            && Flat(taken + [pending[pos..end]]) == pending[..end]
  {
    hide Chunks, Flat;
    var end := if pos + size <= |pending| then pos + size else |pending|;
    var rest, chunk := pending[pos..], pending[pos..end];
    assert rest[..end - pos] == chunk && rest[end - pos..] == pending[end..];
    NextChunk(rest, size);
    assert taken + ([chunk] + Chunks(pending[end..], size)) == taken + [chunk] + Chunks(pending[end..], size);
    FlatSnoc(taken, chunk);
    assert pending[..pos] + chunk == pending[..end];
  }

  lemma FlatSnoc(taken: seq<seq<WalEntry>>, chunk: seq<WalEntry>)
    ensures Flat(taken + [chunk]) == Flat(taken) + chunk
  {
    assert (taken + [chunk])[..|taken|] == taken;
  }

  lemma DrainAdvances(s: State, c: Contents, pending: seq<WalEntry>, taken: seq<seq<WalEntry>>, pos: nat, size: nat)
    requires Draining(s, c, pending, taken, pos, size) && pos < |pending|
    ensures var end := if pos + size <= |pending| then pos + size else |pending|;
            Draining(Ack(s, pending[end - 1].offset), c, pending, taken + [pending[pos..end]], end, size)
  {
    hide Represents, Entries, Decode, Frames, Chunks, Flat;
    var end := if pos + size <= |pending| then pos + size else |pending|;
    var rest := pending[pos..];
    assert rest[end - pos..] == pending[end..] && rest[end - pos - 1] == pending[end - 1];
    TakesChunk(pending, taken, pos, size);
    AckNext(s, c, pos, end);
  }

  lemma DrainEnds(s: State, c: Contents, pending: seq<WalEntry>, taken: seq<seq<WalEntry>>, pos: nat, size: nat)
    requires Draining(s, c, pending, taken, pos, size)
    ensures |taken| <= |Chunks(pending, size)| && Chunks(pending, size)[..|taken|] == taken
    ensures Data(Flat(taken)) == c.todo[..pos]
    ensures |taken| == |Chunks(pending, size)| <==> pos == |pending|
  {
    hide Represents, Entries, Decode, Frames, Chunks, Flat;
    assert Data(pending[..pos]) == c.todo[..pos];
    if pos < |pending| {
      NextChunk(pending[pos..], size);
    } else {
      NoChunks(size);
      assert pending[pos..] == [];
    }
  }

  lemma NoChunks(size: nat)
    requires size >= 1
    ensures Chunks([], size) == []
  {}

  /**
   * One flush tick. Whatever the link does, the batches it took are the first chunks of what was
   * pending, in order and without gaps, and exactly their records have moved from pending to acked.
   */
  method DrainAndShip(wal: Wal.Wal, link: Link, batchSize: nat, ghost c: Contents) returns (ok: bool)
    requires Represents(wal.View(), c)
    modifies wal`ackOffset, wal.disk`ack, link
    ensures var chunks := Chunks(Entries(old(wal.ackOffset), c.todo), if batchSize >= 1 then batchSize else 1);
            var sent := |link.accepted| - |old(link.accepted)|;
            && 0 <= sent <= |chunks|
            && link.accepted == old(link.accepted) + chunks[..sent]
            && (ok <==> sent == |chunks|)
            && var acked := Data(Flat(chunks[..sent]));
               && acked <= c.todo
               && (ok <==> acked == c.todo)
               && Represents(wal.View(), Contents(c.done + acked, c.todo[|acked|..]))
  {
    hide Draining, Represents, Entries, Decode, WalModel.Pending, WalModel.Ack, Chunks, Flat, Data;
    var size := if batchSize >= 1 then batchSize else 1;
    DrainStarts(wal.View(), c, size);
    var r := wal.Pending();
    var pending := r.value;
    ghost var taken := [];
    var pos := 0;
    while pos < |pending|
      invariant pos <= |pending|
      invariant link.accepted == old(link.accepted) + taken
      invariant Draining(wal.View(), c, pending, taken, pos, size)
    {
      var end := if pos + size <= |pending| then pos + size else |pending|;
      var chunk := pending[pos..end];
      var sent := link.Ship(chunk);
      if !sent {
        DrainEnds(wal.View(), c, pending, taken, pos, size);
        DrainingRepresents(wal.View(), c, pending, taken, pos, size);
        assert |c.todo[..pos]| < |c.todo|;
        return false;
      }
      DrainAdvances(wal.View(), c, pending, taken, pos, size);
      taken := taken + [chunk];
      wal.Ack(chunk[|chunk| - 1].offset);
      pos := end;
    }
    DrainEnds(wal.View(), c, pending, taken, pos, size);
    DrainingRepresents(wal.View(), c, pending, taken, pos, size);
    ok := true;
  }

  lemma DrainingRepresents(s: State, c: Contents, pending: seq<WalEntry>, taken: seq<seq<WalEntry>>,
                           pos: nat, size: nat)
    requires Draining(s, c, pending, taken, pos, size)
    ensures pos <= |c.todo| == |pending|
    ensures Represents(s, Contents(c.done + c.todo[..pos], c.todo[pos..]))
  {}
}
