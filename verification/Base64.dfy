/**
 * Base64 as the dead letter queue writes rejected records: the standard alphabet with padding.
 * Shifts and masks of a byte are written as division and remainder.
 */
module Base64 {
  import opened Framing
  import opened Wrappers

  /** The standard alphabet: A-Z, a-z, 0-9, + and /. */
  function Symbol(v: nat): char
    requires v < 64
  {
    if v < 26 then 'A' + v as char
    else if v < 52 then 'a' + (v - 26) as char
    else if v < 62 then '0' + (v - 52) as char
    else if v == 62 then '+'
    else '/'
  }

  predicate IsSymbol(c: char) { 'A' <= c <= 'Z' || 'a' <= c <= 'z' || '0' <= c <= '9' || c == '+' || c == '/' }

  type Sextet = v: int | 0 <= v < 64

  /** Three bytes cut into four groups of six bits. */
  function Split(b0: byte, b1: byte, b2: byte): (Sextet, Sextet, Sextet, Sextet) {
    (b0 / 4, b0 % 4 * 16 + b1 / 16, b1 % 16 * 4 + b2 / 64, b2 % 64)
  }

  /** One group of up to three bytes; missing bytes count as zero and are shown as padding. */
  function EncodeChunk(chunk: seq<byte>): (s: string)
    requires 1 <= |chunk| <= 3
    ensures |s| == 4
  {
    var v := Split(chunk[0], if |chunk| > 1 then chunk[1] else 0, if |chunk| > 2 then chunk[2] else 0);
    [Symbol(v.0), Symbol(v.1), if |chunk| > 1 then Symbol(v.2) else '=', if |chunk| > 2 then Symbol(v.3) else '=']
  }

  function Encode(data: seq<byte>): string {
    if data == [] then ""
    else if |data| <= 3 then EncodeChunk(data)
    else EncodeChunk(data[..3]) + Encode(data[3..])
  }

  // ---------------------------------------------------------------- a decoder for section 4 of RFC 4648

  function Value(c: char): Sextet
    requires IsSymbol(c)
  {
    if 'A' <= c <= 'Z' then (c - 'A') as nat
    else if 'a' <= c <= 'z' then 26 + (c - 'a') as nat
    else if '0' <= c <= '9' then 52 + (c - '0') as nat
    else if c == '+' then 62
    else 63
  }

  /** Four groups of six bits put together again. */
  function Join(v0: Sextet, v1: Sextet, v2: Sextet, v3: Sextet): (byte, byte, byte) {
    (v0 * 4 + v1 / 16, v1 % 16 * 16 + v2 / 4, v2 % 4 * 64 + v3)
  }

  /** One pad drops the last byte of a group, two pads drop the last two. */
  function DecodeQuad(q: string): Option<seq<byte>>
    requires |q| == 4
  {
    if !IsSymbol(q[0]) || !IsSymbol(q[1]) then None
    else if q[2] == '=' && q[3] == '=' then Some([Join(Value(q[0]), Value(q[1]), 0, 0).0])
    else if !IsSymbol(q[2]) then None
    else if q[3] == '=' then
      var b := Join(Value(q[0]), Value(q[1]), Value(q[2]), 0);
      Some([b.0, b.1])
    else if !IsSymbol(q[3]) then None
    else
      var b := Join(Value(q[0]), Value(q[1]), Value(q[2]), Value(q[3]));
      Some([b.0, b.1, b.2])
  }

  /** Padding may only stand in the last group. */
  function Decode(s: string): Option<seq<byte>> {
    if s == "" then Some([])
    else if |s| < 4 then None
    else
      match DecodeQuad(s[..4])
      case None => None
      case Some(bytes) =>
        if |s| == 4 then Some(bytes)
        else if |bytes| < 3 then None
        else match Decode(s[4..]) case Some(more) => Some(bytes + more) case None => None
  }

  lemma ValueOfSymbol(v: nat)
    requires v < 64
    ensures IsSymbol(Symbol(v)) && Value(Symbol(v)) == v && Symbol(v) != '='
  {}

  lemma Base4(hi: nat, lo: nat)
    requires lo < 4
    ensures (hi * 4 + lo) / 4 == hi && (hi * 4 + lo) % 4 == lo
  {}

  lemma Base16(hi: nat, lo: nat)
    requires lo < 16
    ensures (hi * 16 + lo) / 16 == hi && (hi * 16 + lo) % 16 == lo
  {}

  lemma FirstByte(b0: byte, b1: byte)
    ensures b0 / 4 * 4 + (b0 % 4 * 16 + b1 / 16) / 16 == b0
  {
    Base16(b0 % 4, b1 / 16);
  }

  lemma SecondByte(b0: byte, b1: byte, b2: byte)
    ensures (b0 % 4 * 16 + b1 / 16) % 16 * 16 + (b1 % 16 * 4 + b2 / 64) / 4 == b1
  {
    Base16(b0 % 4, b1 / 16);
    Base4(b1 % 16, b2 / 64);
  }

  lemma ThirdByte(b1: byte, b2: byte)
    ensures (b1 % 16 * 4 + b2 / 64) % 4 * 64 + b2 % 64 == b2
  {
    Base4(b1 % 16, b2 / 64);
  }

  lemma JoinSplit(b0: byte, b1: byte, b2: byte)
    ensures var v := Split(b0, b1, b2);
            && Join(v.0, v.1, v.2, v.3) == (b0, b1, b2)
            && Join(v.0, v.1, 0, 0).0 == b0
            && Join(v.0, v.1, v.2, 0).0 == b0 && Join(v.0, v.1, v.2, 0).1 == b1
  {
    FirstByte(b0, b1);
    SecondByte(b0, b1, b2);
    ThirdByte(b1, b2);
  }

  lemma ChunkRoundTrip(chunk: seq<byte>)
    requires 1 <= |chunk| <= 3
    ensures DecodeQuad(EncodeChunk(chunk)) == Some(chunk)
  {
    hide Symbol, Value, IsSymbol, Split, Join;
    var b0, b1, b2 := chunk[0], if |chunk| > 1 then chunk[1] else 0, if |chunk| > 2 then chunk[2] else 0;
    var v := Split(b0, b1, b2);
    JoinSplit(b0, b1, b2);
    ValueOfSymbol(v.0);
    ValueOfSymbol(v.1);
    ValueOfSymbol(v.2);
    ValueOfSymbol(v.3);
    assert chunk == if |chunk| == 1 then [b0] else if |chunk| == 2 then [b0, b1] else [b0, b1, b2];
  }

  /** For every byte string the standard decoder gives it back. */
  lemma {:induction false} RoundTrip(data: seq<byte>)
    ensures Decode(Encode(data)) == Some(data)
    decreases |data|
  {
    hide EncodeChunk, DecodeQuad;
    if 0 < |data| <= 3 {
      ChunkRoundTrip(data);
      assert EncodeChunk(data)[..4] == EncodeChunk(data);
    } else if |data| > 3 {
      var chunk, rest := data[..3], data[3..];
      ChunkRoundTrip(chunk);
      RoundTrip(rest);
      LengthExact(rest);
      assert data == chunk + rest;
      var s := Encode(data);
      assert s[..4] == EncodeChunk(chunk) && s[4..] == Encode(rest);
    }
  }

  /** The text has four characters for every started group of three bytes. */
  lemma {:induction false} LengthExact(data: seq<byte>)
    ensures |Encode(data)| == (|data| + 2) / 3 * 4
    decreases |data|
  {
    hide EncodeChunk;
    if |data| > 3 {
      var rest := data[3..];
      LengthExact(rest);
      assert (|rest| + 2) / 3 == (|data| + 2) / 3 - 1;
    }
  }

  lemma ChunkSymbols(chunk: seq<byte>, i: nat)
    requires 1 <= |chunk| <= 3 && i < 4
    ensures if i <= |chunk| then IsSymbol(EncodeChunk(chunk)[i]) else EncodeChunk(chunk)[i] == '='
  {}

  /** Nothing but the alphabet, except that a last group of one or two bytes ends in padding. */
  lemma {:induction false} OnlyAlphabetAndPadding(data: seq<byte>, i: nat)
    requires i < |Encode(data)|
    ensures IsSymbol(Encode(data)[i]) <==> i < |Encode(data)| - (3 - |data| % 3) % 3
    ensures !IsSymbol(Encode(data)[i]) ==> Encode(data)[i] == '='
    decreases |data|
  {
    hide EncodeChunk, Symbol, IsSymbol;
    LengthExact(data);
    assert !IsSymbol('=') by { PadIsNoSymbol(); }
    if |data| <= 3 {
      ChunkSymbols(data, i);
    } else if i < 4 {
      ChunkSymbols(data[..3], i);
    } else {
      OnlyAlphabetAndPadding(data[3..], i - 4);
      LengthExact(data[3..]);
    }
  }

  lemma PadIsNoSymbol()
    ensures !IsSymbol('=')
  {}

  /** The loop over groups of three. */
  method EncodeBytes(data: seq<byte>) returns (out: string)
    ensures out == Encode(data)
  {
    hide EncodeChunk;
    out := "";
    var pos := 0;
    assert data[0..] == data;
    while pos < |data|
      invariant pos <= |data|
      invariant Encode(data) == out + Encode(data[pos..])
    {
      var end := if pos + 3 <= |data| then pos + 3 else |data|;
      ghost var rest := data[pos..];
      if |rest| > 3 {
        assert rest[..3] == data[pos..end] && rest[3..] == data[end..];
      } else {
        assert rest == data[pos..end] && data[end..] == [];
      }
      out := out + EncodeChunk(data[pos..end]);
      pos := end;
    }
  }
}
