/**
 * Length-prefixed record framing: a four-byte little-endian length followed by the record.
 * The write-ahead log, the batch payload and the shipped-batches file all use it.
 */
module Framing {
  import opened Wrappers

  type byte = b: int | 0 <= b < 256
  type Record = seq<byte>

  const TWO_TO_THE_32 := 0x1_0000_0000

  /** The bytes of a u32, least significant first. */
  function ToLe32(v: nat): (b: seq<byte>)
    requires v < TWO_TO_THE_32
    ensures |b| == 4
  {
    var v1 := v / 256;
    var v2 := v1 / 256;
    [v % 256, v1 % 256, v2 % 256, v2 / 256]
  }

  /** The u32 stored at a position. */
  function LenAt(b: seq<byte>, pos: nat): (v: nat)
    requires pos + 4 <= |b|
    ensures v < TWO_TO_THE_32
  {
    var b0: int, b1: int, b2: int, b3: int := b[pos], b[pos + 1], b[pos + 2], b[pos + 3];
    b0 + 256 * (b1 + 256 * (b2 + 256 * b3))
  }

  lemma Digits(b0: int, b1: int, b2: int, b3: int)
    requires 0 <= b0 < 256 && 0 <= b1 < 256 && 0 <= b2 < 256 && 0 <= b3 < 256
    ensures var v := b0 + 256 * (b1 + 256 * (b2 + 256 * b3));
            v % 256 == b0 && v / 256 == b1 + 256 * (b2 + 256 * b3)
  {}

  /** A u32 read from four bytes and written again gives the same bytes, and the other way round. */
  lemma LenAtExactly(b: seq<byte>, pos: nat, v: nat)
    requires pos + 4 <= |b| && v < TWO_TO_THE_32
    ensures LenAt(b, pos) == v <==> b[pos..pos + 4] == ToLe32(v)
  {
    Digits(b[pos], b[pos + 1], b[pos + 2], b[pos + 3]);
    Digits(b[pos + 1], b[pos + 2], b[pos + 3], 0);
    Digits(b[pos + 2], b[pos + 3], 0, 0);
    if b[pos..pos + 4] == ToLe32(v) {
      var w := b[pos..pos + 4];
      assert w[0] == b[pos] && w[1] == b[pos + 1] && w[2] == b[pos + 2] && w[3] == b[pos + 3];
    }
  }

  /** A record whose length survives the cast to u32. */
  predicate Short(r: Record) { |r| < TWO_TO_THE_32 }

  predicate AllShort(rs: seq<Record>) { forall i :: 0 <= i < |rs| ==> Short(rs[i]) }

  /** One framed record. The length is cast to u32, so it wraps for a record of 4 GiB or more. */
  function Frame(r: Record): seq<byte> { ToLe32(|r| % TWO_TO_THE_32) + r }

  function Frames(rs: seq<Record>): seq<byte> {
    if rs == [] then [] else Frame(rs[0]) + Frames(rs[1..])
  }

  lemma {:induction false} FramesConcat(a: seq<Record>, b: seq<Record>)
    ensures Frames(a + b) == Frames(a) + Frames(b)
  {
    if a == [] {
      assert a + b == b;
    } else {
      assert (a + b)[1..] == a[1..] + b;
      FramesConcat(a[1..], b);
    }
  }

  lemma FramesSnoc(a: seq<Record>, r: Record)
    ensures Frames(a + [r]) == Frames(a) + Frame(r)
  {
    FramesConcat(a, [r]);
    assert Frames([r]) == Frame(r) + Frames([]);
  }

  // ---------------------------------------------------------------- the receiver's decoder

  datatype DecodeError = Truncated | BadCompression

  /**
   * What the receiver reads from decompressed bytes, from a position on: records while four bytes of
   * length remain; an error when a length points past the end; up to three trailing bytes are ignored.
   */
  function Decode(b: seq<byte>, pos: nat): Result<seq<Record>, DecodeError>
    decreases |b| - pos
  {
    if pos + 4 > |b| then Ok([])
    else
      var next := pos + 4 + LenAt(b, pos);
      if next > |b| then Err(Truncated)
      else Prepend([b[pos + 4..next]], Decode(b, next))
  }

  function Prepend<E>(rs: seq<Record>, rest: Result<seq<Record>, E>): Result<seq<Record>, E> {
    match rest
    case Ok(more) => Ok(rs + more)
    case Err(e) => Err(e)
  }

  lemma PrependNil<E>(rest: Result<seq<Record>, E>)
    ensures Prepend([], rest) == rest
  {
    match rest { case Ok(more) => assert [] + more == more; case Err(_) => }
  }

  lemma PrependAssoc<E>(a: seq<Record>, b: seq<Record>, rest: Result<seq<Record>, E>)
    ensures Prepend(a, Prepend(b, rest)) == Prepend(a + b, rest)
  {
    match rest { case Ok(more) => assert a + (b + more) == a + b + more; case Err(_) => }
  }

  lemma PrependCancels<E>(r: Record, rest: Result<seq<Record>, E>, rs: seq<Record>)
    ensures Prepend([r], rest) == Ok(rs) <==> rs != [] && r == rs[0] && rest == Ok(rs[1..])
  {
    match rest {
      case Ok(more) => assert ([r] + more)[1..] == more; assert rs != [] ==> rs == [rs[0]] + rs[1..];
      case Err(_) =>
    }
  }

  /** The bytes of a framing stand at a position. */
  ghost predicate StandsAt(frames: seq<byte>, b: seq<byte>, pos: nat) {
    pos + |frames| <= |b| && b[pos..pos + |frames|] == frames
  }

  /** A short record's frame stands at a position exactly when it is what one step of a decoder reads. */
  lemma FrameExactly(b: seq<byte>, pos: nat, r: Record)
    ensures Short(r) && StandsAt(Frame(r), b, pos) <==>
            pos + 4 <= |b| && pos + 4 + LenAt(b, pos) <= |b| && r == b[pos + 4..pos + 4 + LenAt(b, pos)]
  {
    hide LenAt, ToLe32;
    if Short(r) && StandsAt(Frame(r), b, pos) {
      var f := b[pos..pos + |Frame(r)|];
      assert b[pos..pos + 4] == f[..4] == ToLe32(|r|);
      LenAtExactly(b, pos, |r|);
      assert b[pos + 4..pos + 4 + |r|] == f[4..] == r;
    }
    if pos + 4 <= |b| && pos + 4 + LenAt(b, pos) <= |b| && r == b[pos + 4..pos + 4 + LenAt(b, pos)] {
      LenAtExactly(b, pos, |r|);
      assert b[pos..pos + 4 + |r|] == b[pos..pos + 4] + b[pos + 4..pos + 4 + |r|];
    }
  }

  lemma FramesExactly(b: seq<byte>, pos: nat, rs: seq<Record>)
    requires rs != []
    ensures StandsAt(Frames(rs), b, pos) <==>
            StandsAt(Frame(rs[0]), b, pos) && StandsAt(Frames(rs[1..]), b, pos + |Frame(rs[0])|)
  {
    var f, g := Frame(rs[0]), Frames(rs[1..]);
    if pos + |f| + |g| <= |b| {
      var x, y := b[pos..pos + |f|], b[pos + |f|..pos + |f| + |g|];
      assert b[pos..pos + |f + g|] == x + y;
      assert |x| == |f|;
      assert x + y == f + g <==> x == f && y == g by {
        assert (x + y)[..|f|] == x && (f + g)[..|f|] == f && (x + y)[|f|..] == y && (f + g)[|f|..] == g;
      }
    }
  }

  /** Exactly what the receiver accepts: a framing of these records and fewer than four further bytes. */
  lemma {:induction false} DecodeExactly(b: seq<byte>, pos: nat, rs: seq<Record>)
    requires pos <= |b|
    ensures Decode(b, pos) == Ok(rs) <==>
            AllShort(rs) && StandsAt(Frames(rs), b, pos) && |b| - pos - |Frames(rs)| < 4
    decreases |rs|
  {
    hide LenAt, Frame, StandsAt;
    if rs == [] {
      if pos + 4 <= |b| && pos + 4 + LenAt(b, pos) <= |b| {
        PrependCancels(b[pos + 4..pos + 4 + LenAt(b, pos)], Decode(b, pos + 4 + LenAt(b, pos)), rs);
      }
      assert StandsAt([], b, pos) by { NothingStands(b, pos); }
    } else {
      var next := pos + |Frame(rs[0])|;
      FrameExactly(b, pos, rs[0]);
      FrameLength(rs[0]);
      FramesExactly(b, pos, rs);
      assert AllShort(rs) <==> Short(rs[0]) && AllShort(rs[1..]) by {
        assert forall i :: 1 <= i < |rs| ==> rs[i] == rs[1..][i - 1];
      }
      if next <= |b| {
        DecodeExactly(b, next, rs[1..]);
      } else {
        TooLong(b, pos, rs);
      }
      if pos + 4 <= |b| && pos + 4 + LenAt(b, pos) <= |b| {
        PrependCancels(b[pos + 4..pos + 4 + LenAt(b, pos)], Decode(b, pos + 4 + LenAt(b, pos)), rs);
      }
    }
  }

  lemma NothingStands(b: seq<byte>, pos: nat)
    requires pos <= |b|
    ensures StandsAt([], b, pos)
  {}

  lemma FrameLength(r: Record)
    ensures |Frame(r)| == 4 + |r|
  {}

  lemma TooLong(b: seq<byte>, pos: nat, rs: seq<Record>)
    requires rs != [] && pos + |Frame(rs[0])| > |b|
    ensures !StandsAt(Frame(rs[0]), b, pos) && !StandsAt(Frames(rs), b, pos)
  {}

  /** The framing round trip holds for exactly the batches without a record of 4 GiB or more. */
  lemma RoundTripExactly(rs: seq<Record>)
    ensures Decode(Frames(rs), 0) == Ok(rs) <==> AllShort(rs)
  {
    DecodeExactly(Frames(rs), 0, rs);
    assert Frames(rs)[0..|Frames(rs)|] == Frames(rs);
  }

  // ---------------------------------------------------------------- the agent's decoder

  /** The agent's decoder slices without checking: an index out of bounds panics. */
  datatype Failure = Panic | BadPayload

  function DecodeStrict(b: seq<byte>, pos: nat): Result<seq<Record>, Failure>
    decreases |b| - pos
  {
    if pos >= |b| then Ok([])
    else if pos + 4 > |b| then Err(Panic)
    else
      var next := pos + 4 + LenAt(b, pos);
      if next > |b| then Err(Panic)
      else Prepend([b[pos + 4..next]], DecodeStrict(b, next))
  }

  /** The agent's decoder agrees with the receiver's where no byte is left over, and panics everywhere else. */
  lemma {:induction false} StrictIsDecodeWithoutTail(b: seq<byte>, pos: nat, rs: seq<Record>)
    requires pos <= |b|
    ensures DecodeStrict(b, pos) == Ok(rs) <==> Decode(b, pos) == Ok(rs) && |b| == pos + |Frames(rs)|
    ensures DecodeStrict(b, pos).Err? ==> DecodeStrict(b, pos) == Err(Panic)
    decreases |b| - pos
  {
    hide LenAt;
    if pos + 4 <= |b| && pos + 4 + LenAt(b, pos) <= |b| {
      var next := pos + 4 + LenAt(b, pos);
      PrependCancels(b[pos + 4..next], DecodeStrict(b, next), rs);
      PrependCancels(b[pos + 4..next], Decode(b, next), rs);
      StrictIsDecodeWithoutTail(b, next, if rs != [] then rs[1..] else []);
    }
  }

  /** The agent's decoder succeeds on exactly the framings of short records, with nothing left over. */
  lemma DecodeStrictExactly(b: seq<byte>, pos: nat, rs: seq<Record>)
    requires pos <= |b|
    ensures DecodeStrict(b, pos) == Ok(rs) <==> AllShort(rs) && b[pos..] == Frames(rs)
  {
    hide LenAt, DecodeStrict, Decode, Frames;
    StrictIsDecodeWithoutTail(b, pos, rs);
    DecodeExactly(b, pos, rs);
    assert b[pos..|b|] == b[pos..];
  }

  // ---------------------------------------------------------------- the loops

  method DecodeReceived(framed: seq<byte>) returns (r: Result<seq<Record>, DecodeError>)
    ensures r == Decode(framed, 0)
  {
    hide LenAt;
    var records: seq<Record> := [];
    var pos := 0;
    PrependNil(Decode(framed, 0));
    while pos + 4 <= |framed|
      invariant pos <= |framed|
      invariant Decode(framed, 0) == Prepend(records, Decode(framed, pos))
    {
      var len := LenAt(framed, pos);
      pos := pos + 4;
      if pos + len > |framed| {
        return Err(Truncated);
      }
      PrependAssoc(records, [framed[pos..pos + len]], Decode(framed, pos + len));
      records := records + [framed[pos..pos + len]];
      pos := pos + len;
    }
    assert records + [] == records;
    return Ok(records);
  }

  method DecodeShipped(framed: seq<byte>) returns (r: Result<seq<Record>, Failure>)
    ensures r == DecodeStrict(framed, 0)
  {
    hide LenAt;
    var records: seq<Record> := [];
    var pos := 0;
    PrependNil(DecodeStrict(framed, 0));
    while pos < |framed|
      invariant pos <= |framed|
      invariant DecodeStrict(framed, 0) == Prepend(records, DecodeStrict(framed, pos))
    {
      if pos + 4 > |framed| {
        return Err(Panic);
      }
      var len := LenAt(framed, pos);
      pos := pos + 4;
      if pos + len > |framed| {
        return Err(Panic);
      }
      PrependAssoc(records, [framed[pos..pos + len]], DecodeStrict(framed, pos + len));
      records := records + [framed[pos..pos + len]];
      pos := pos + len;
    }
    assert records + [] == records;
    return Ok(records);
  }
}
