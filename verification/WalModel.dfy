/**
 * The agent's write-ahead log: a data file of framed records and a small ack file with the offset up
 * to which records have been shipped. The operations are given here on values; class Wal.Wal
 * performs them in place and is proved to do the same.
 */
module WalModel {
  import opened Wrappers
  import opened Framing
  import Decimal

  /** A record that is still to ship, with the data-file offset just after it. */
  datatype WalEntry = WalEntry(offset: nat, data: Record)

  type AckFile = Option<string>

  /** The two files, which survive a crash, and the two offsets held in memory. */
  datatype State = State(log: seq<byte>, ackFile: AckFile, writeOffset: nat, ackOffset: nat)

  function Data(es: seq<WalEntry>): (rs: seq<Record>)
    ensures |rs| == |es| && forall i :: 0 <= i < |rs| ==> rs[i] == es[i].data
  {
    seq(|es|, i requires 0 <= i < |es| => es[i].data)
  }

  /** The entries of records stored back to back from offset base. */
  function Entries(base: nat, rs: seq<Record>): (es: seq<WalEntry>)
    ensures |es| == |rs|
    decreases |rs|
  {
    if rs == [] then [] else [WalEntry(base + 4 + |rs[0]|, rs[0])] + Entries(base + 4 + |rs[0]|, rs[1..])
  }

  // ---------------------------------------------------------------- the operations on values

  function ReadAckOffset(f: AckFile): nat {
    match f
    case None => 0
    case Some(text) => match Decimal.ParseU64(Decimal.Trim(text)) case Some(n) => n case None => 0
  }

  function Open(log: seq<byte>, ackFile: AckFile): State {
    State(log, ackFile, |log|, ReadAckOffset(ackFile))
  }

  function Append(s: State, data: Record): State {
    s.(log := s.log + Frame(data), writeOffset := s.writeOffset + 4 + |data|)
  }

  /** Every record from the ack offset on; an offset past the end of the file reads nothing. */
  function Pending(s: State): Result<seq<WalEntry>, DecodeError> {
    match Decode(s.log, s.ackOffset)
    case Ok(rs) => Ok(Entries(s.ackOffset, rs))
    case Err(e) => Err(e)
  }

  function Ack(s: State, offset: nat): State {
    s.(ackFile := Some(Decimal.Print(offset)), ackOffset := offset)
  }

  function PendingBytes(s: State): (n: nat)
    ensures n == 0 <==> s.writeOffset <= s.ackOffset
  {
    if s.ackOffset <= s.writeOffset then s.writeOffset - s.ackOffset else 0
  }

  /** Compaction keeps the pending records only; when they cannot be read it changes nothing. */
  function Compact(s: State): State {
    match Pending(s)
    case Ok(es) =>
      var log := Frames(Data(es));
      State(log, Some(Decimal.Print(0)), |log|, 0)
    case Err(_) => s
  }

  /** A restart of the agent: only the files are left. */
  function Reopen(s: State): State { Open(s.log, s.ackFile) }

  /** A crash after the ack file was truncated and before the offset was written to it. */
  function CrashInAck(s: State): State { Open(s.log, Some("")) }

  // ---------------------------------------------------------------- what the files mean

  /** The records in the data file: first those already shipped and acked, then those still to ship. */
  datatype Contents = Contents(done: seq<Record>, todo: seq<Record>)

  ghost predicate Represents(s: State, c: Contents) {
    && AllShort(c.done) && AllShort(c.todo)
    && s.log == Frames(c.done) + Frames(c.todo)
    && |s.log| < Decimal.TWO_TO_THE_64
    && s.writeOffset == |s.log|
    && s.ackOffset == |Frames(c.done)|
    && ReadAckOffset(s.ackFile) == s.ackOffset
  }

  lemma NothingStored(base: nat)
    ensures Frames([]) == [] && Entries(base, []) == []
  {}

  lemma {:induction false} EntriesOffsets(base: nat, rs: seq<Record>, i: nat)
    requires i < |rs|
    ensures Entries(base, rs)[i] == WalEntry(base + |Frames(rs[..i + 1])|, rs[i])
    decreases |rs|
  {
    var front := rs[..i + 1];
    assert front[1..] == rs[1..][..i];
    if i > 0 {
      EntriesOffsets(base + 4 + |rs[0]|, rs[1..], i - 1);
    }
  }

  lemma DataOfEntries(base: nat, rs: seq<Record>)
    ensures Data(Entries(base, rs)) == rs
  {
    forall i | 0 <= i < |rs| ensures Entries(base, rs)[i].data == rs[i] {
      EntriesOffsets(base, rs, i);
    }
  }

  lemma {:induction false} EntriesSnoc(base: nat, rs: seq<Record>, r: Record)
    ensures Entries(base, rs + [r]) == Entries(base, rs) + [WalEntry(base + |Frames(rs)| + 4 + |r|, r)]
    decreases |rs|
  {
    if rs != [] {
      assert (rs + [r])[1..] == rs[1..] + [r];
      EntriesSnoc(base + 4 + |rs[0]|, rs[1..], r);
    }
  }

  lemma EntriesStep(base: nat, rs: seq<Record>)
    requires rs != []
    ensures Entries(base, rs) == [WalEntry(base + 4 + |rs[0]|, rs[0])] + Entries(base + 4 + |rs[0]|, rs[1..])
    ensures |Frames(rs)| == 4 + |rs[0]| + |Frames(rs[1..])|
  {}

  lemma {:induction false} EntriesConcat(base: nat, a: seq<Record>, b: seq<Record>)
    ensures Entries(base, a + b) == Entries(base, a) + Entries(base + |Frames(a)|, b)
    decreases |a|
  {
    hide Entries, Frames;
    if a == [] {
      assert a + b == b;
      NothingStored(base);
    } else {
      assert (a + b)[1..] == a[1..] + b;
      EntriesConcat(base + 4 + |a[0]|, a[1..], b);
      EntriesStep(base, a + b);
      EntriesStep(base, a);
    }
  }

  /** Reading back: the pending entries are exactly the records still to ship, in order. */
  lemma PendingIsTodo(s: State, c: Contents)
    requires Represents(s, c)
    ensures Pending(s) == Ok(Entries(s.ackOffset, c.todo))
    ensures Data(Pending(s).value) == c.todo
  {
    hide Decode, Frames;
    DecodeExactly(s.log, s.ackOffset, c.todo);
    DataOfEntries(s.ackOffset, c.todo);
  }

  /** Each pending entry carries the exact file offset at which its record ends. */
  lemma PendingOffsets(s: State, c: Contents, i: nat)
    requires Represents(s, c) && i < |c.todo|
    ensures Pending(s).Ok? && |Pending(s).value| == |c.todo|
    ensures Pending(s).value[i] == WalEntry(|Frames(c.done + c.todo[..i + 1])|, c.todo[i])
    ensures Pending(s).value[i].offset <= |s.log|
  {
    hide Frames, Decode;
    PendingIsTodo(s, c);
    EntriesOffsets(s.ackOffset, c.todo, i);
    var front, back := c.todo[..i + 1], c.todo[i + 1..];
    FramesConcat(c.done, front);
    assert c.todo == front + back;
    FramesConcat(front, back);
  }

  function SizeOf(es: seq<WalEntry>): nat {
    if es == [] then 0 else 4 + |es[0].data| + SizeOf(es[1..])
  }

  lemma {:induction false} SizeOfEntries(base: nat, rs: seq<Record>)
    ensures SizeOf(Entries(base, rs)) == |Frames(rs)|
    decreases |rs|
  {
    if rs != [] {
      SizeOfEntries(base + 4 + |rs[0]|, rs[1..]);
    }
  }

  /** The backpressure measure is exactly the framed size of what is pending. */
  lemma PendingBytesExact(s: State, c: Contents)
    requires Represents(s, c)
    ensures Pending(s).Ok? && PendingBytes(s) == SizeOf(Pending(s).value)
  {
    PendingIsTodo(s, c);
    SizeOfEntries(s.ackOffset, c.todo);
  }

  // ---------------------------------------------------------------- what each operation keeps

  lemma AppendRepresents(s: State, c: Contents, data: Record)
    requires Represents(s, c)
    requires Short(data) && |s.log| + 4 + |data| < Decimal.TWO_TO_THE_64
    ensures Represents(Append(s, data), Contents(c.done, c.todo + [data]))
  {
    hide Frames, Decode;
    FramesSnoc(c.todo, data);
  }

  /** A record appended is read back behind the pending ones if and only if it is shorter than 4 GiB. */
  lemma AppendExactly(s: State, c: Contents, data: Record)
    requires Represents(s, c)
    ensures Pending(Append(s, data)) == Ok(Entries(s.ackOffset, c.todo + [data])) <==> Short(data)
  {
    hide Frames, Decode, StandsAt, Entries, ReadAckOffset;
    var after, want := Append(s, data), c.todo + [data];
    FramesSnoc(c.todo, data);
    assert after.log == Frames(c.done) + Frames(want);
    PrefixStands(Frames(want), Frames(c.done), Frames(want));
    DecodeExactly(after.log, s.ackOffset, want);
    assert AllShort(want) <==> Short(data) by {
      assert want[|c.todo|] == data;
    }
    if Pending(after) == Ok(Entries(s.ackOffset, want)) {
      DataOfEntries(s.ackOffset, want);
      DataOfEntries(s.ackOffset, Decode(after.log, s.ackOffset).value);
    }
  }

  lemma AckMoves(s: State, done: seq<Record>, front: seq<Record>, back: seq<Record>)
    requires Represents(s, Contents(done, front + back))
    ensures Represents(Ack(s, |Frames(done + front)|), Contents(done + front, back))
  {
    hide Frames, Decode, Decimal.Value, Decimal.Print;
    FramesConcat(done, front);
    FramesConcat(front, back);
    assert Frames(done + front) + Frames(back) == Frames(done) + Frames(front + back);
    forall i | 0 <= i < |back| ensures Short(back[i]) {
      assert (front + back)[|front| + i] == back[i];
    }
    forall i | 0 <= i < |front| ensures Short(front[i]) {
      assert (front + back)[i] == front[i];
    }
    Decimal.PrintParses(|Frames(done + front)|);
  }

  lemma AckRepresents(s: State, c: Contents, i: nat)
    requires Represents(s, c) && i < |c.todo|
    ensures Pending(s).Ok? && i < |Pending(s).value|
    ensures Represents(Ack(s, Pending(s).value[i].offset), Contents(c.done + c.todo[..i + 1], c.todo[i + 1..]))
    ensures Pending(s).value[i + 1..] == Entries(Pending(s).value[i].offset, c.todo[i + 1..])
  {
    hide Frames, Decode, Decimal.Value, Decimal.Print, Entries;
    PendingOffsets(s, c, i);
    var front, back := c.todo[..i + 1], c.todo[i + 1..];
    assert c.todo == front + back;
    AckMoves(s, c.done, front, back);
    PendingIsTodo(s, c);
    EntriesConcat(s.ackOffset, front, back);
    FramesConcat(c.done, front);
  }

  lemma CompactRepresents(s: State, c: Contents)
    requires Represents(s, c)
    ensures Represents(Compact(s), Contents([], c.todo))
    ensures |Compact(s).log| == |s.log| - s.ackOffset
  {
    PendingIsTodo(s, c);
    Decimal.PrintParses(0);
    assert Compact(s).log == Frames(c.todo);
  }

  lemma ReopenRepresents(s: State, c: Contents)
    requires Represents(s, c)
    ensures Reopen(s) == s
    ensures Represents(CrashInAck(s), Contents([], c.done + c.todo))
  {
    FramesConcat(c.done, c.todo);
    assert Decimal.ParseU64("") == None;
  }

  /** Compaction keeps what is pending and moves each pending offset down by the old ack offset. */
  lemma CompactShifts(s: State, c: Contents)
    requires Represents(s, c)
    ensures Pending(s).Ok? && Pending(Compact(s)).Ok?
    ensures var before, after := Pending(s).value, Pending(Compact(s)).value;
            && |after| == |before|
            && forall i :: 0 <= i < |before| ==>
                 before[i] == WalEntry(after[i].offset + s.ackOffset, after[i].data)
    ensures |Compact(s).log| == |s.log| - s.ackOffset
  {
    hide Frames, Decode;
    PendingIsTodo(s, c);
    CompactRepresents(s, c);
    PendingIsTodo(Compact(s), Contents([], c.todo));
    EntriesShift(s.ackOffset, 0, c.todo);
  }

  lemma {:induction false} EntriesShift(shift: nat, base: nat, rs: seq<Record>)
    ensures forall i :: 0 <= i < |rs| ==>
              Entries(base + shift, rs)[i] == WalEntry(Entries(base, rs)[i].offset + shift, Entries(base, rs)[i].data)
    decreases |rs|
  {
    if rs != [] {
      EntriesShift(shift, base + 4 + |rs[0]|, rs[1..]);
    }
  }

  // ---------------------------------------------------------------- whole runs

  /** AckOp acknowledges the i-th pending entry; CrashInAckOp is a crash while doing so. */
  datatype Op = AppendOp(data: Record) | AckOp(i: nat) | CrashInAckOp | CompactOp | ReopenOp

  predicate Enabled(s: State, op: Op) {
    match op
    case AppendOp(data) => Short(data) && |s.log| + 4 + |data| < Decimal.TWO_TO_THE_64
    case AckOp(i) => Pending(s).Ok? && i < |Pending(s).value|
    case _ => true
  }

  function Apply(s: State, op: Op): State
    requires Enabled(s, op)
  {
    match op
    case AppendOp(data) => Append(s, data)
    case AckOp(i) => Ack(s, Pending(s).value[i].offset)
    case CrashInAckOp => CrashInAck(s)
    case CompactOp => Compact(s)
    case ReopenOp => Reopen(s)
  }

  /** What an operation should mean for the stored records. */
  function Effect(c: Contents, op: Op): Contents {
    match op
    case AppendOp(data) => Contents(c.done, c.todo + [data])
    case AckOp(i) => if i < |c.todo| then Contents(c.done + c.todo[..i + 1], c.todo[i + 1..]) else c
    case CrashInAckOp => Contents([], c.done + c.todo)
    case CompactOp => Contents([], c.todo)
    case ReopenOp => c
  }

  lemma ApplyRepresents(s: State, c: Contents, op: Op)
    requires Represents(s, c) && Enabled(s, op)
    ensures Represents(Apply(s, op), Effect(c, op))
  {
    hide Frames, Decode, Append, Ack, CrashInAck, Compact, Reopen, Represents;
    match op {
      case AppendOp(data) => AppendRepresents(s, c, data);
      case AckOp(i) => PendingIsTodo(s, c); AckRepresents(s, c, i);
      case CrashInAckOp => ReopenRepresents(s, c);
      case CompactOp => CompactRepresents(s, c);
      case ReopenOp => ReopenRepresents(s, c);
    }
  }

  /** The records after a run from an empty directory. */
  function Meaning(ops: seq<Op>): Contents {
    if ops == [] then Contents([], []) else Effect(Meaning(ops[..|ops| - 1]), ops[|ops| - 1])
  }

  /** The state after a run from an empty directory, if each operation was possible in its turn. */
  function Run(ops: seq<Op>): Option<State> {
    if ops == [] then Some(Open([], None))
    else
      match Run(ops[..|ops| - 1])
      case Some(s) => if Enabled(s, ops[|ops| - 1]) then Some(Apply(s, ops[|ops| - 1])) else None
      case None => None
  }

  /** A run goes on with any operation possible after it; compaction, restart and a crash always are. */
  lemma RunGoesOn(ops: seq<Op>, op: Op)
    requires Run(ops).Some? && (op in {CrashInAckOp, CompactOp, ReopenOp} || Enabled(Run(ops).value, op))
    ensures Run(ops + [op]) == Some(Apply(Run(ops).value, op))
  {
    assert (ops + [op])[..|ops|] == ops;
  }

  /**
   * In every run of appends, acks, compactions, restarts and crashes inside an ack, the files stand
   * for the records the run should have left: the ack offset is on a record boundary and the pending
   * entries are exactly the records after it.
   */
  lemma {:induction false} RunRepresents(ops: seq<Op>)
    requires Run(ops).Some?
    ensures Represents(Run(ops).value, Meaning(ops))
    ensures Pending(Run(ops).value) == Ok(Entries(|Frames(Meaning(ops).done)|, Meaning(ops).todo))
    decreases |ops|
  {
    hide Apply, Effect, Decode, Frames, Enabled;
    if ops == [] {
      EmptyRepresents();
    } else {
      var n := |ops| - 1;
      RunRepresents(ops[..n]);
      ApplyRepresents(Run(ops[..n]).value, Meaning(ops[..n]), ops[n]);
    }
    PendingIsTodo(Run(ops).value, Meaning(ops));
  }

  lemma EmptyRepresents()
    ensures Represents(Open([], None), Contents([], []))
  {}

  // ---------------------------------------------------------------- a torn append

  /**
   * A crash that leaves one to three bytes of a length header is harmless until the next append: the
   * record appended then is read back if and only if its frame happens to be a prefix of the torn
   * bytes followed by that frame.
   */
  lemma TornHeader(s: State, c: Contents, torn: seq<byte>, data: Record)
    requires Represents(s, c)
    requires |torn| < 4 && Short(data)
    ensures var reopened := Open(s.log + torn, s.ackFile);
            && Pending(reopened) == Pending(s)
            && (Pending(Append(reopened, data)) == Ok(Entries(s.ackOffset, c.todo + [data]))
                <==> Frame(data) <= torn + Frame(data))
  {
    hide Frames, Decode, Frame, StandsAt, Entries, ReadAckOffset;
    var reopened := Open(s.log + torn, s.ackFile);
    var after := Append(reopened, data);
    var before, want := Frames(c.done), c.todo + [data];
    PendingIsTodo(s, c);
    DecodeExactly(reopened.log, s.ackOffset, c.todo);
    assert reopened.log == before + (Frames(c.todo) + torn);
    PrefixStands(Frames(c.todo), before, Frames(c.todo) + torn);
    FramesSnoc(c.todo, data);
    assert after.log == before + (Frames(c.todo) + (torn + Frame(data)));
    PrefixStands(Frames(want), before, Frames(c.todo) + (torn + Frame(data)));
    PrefixCancels(Frames(c.todo), Frame(data), torn + Frame(data));
    DecodeExactly(after.log, s.ackOffset, want);
    if Pending(after) == Ok(Entries(s.ackOffset, want)) {
      DataOfEntries(s.ackOffset, want);
      DataOfEntries(s.ackOffset, Decode(after.log, s.ackOffset).value);
    }
  }

  /** An input that fails: one torn byte of value five, then an empty record. */
  lemma TornByteLoses(s: State, c: Contents)
    requires Represents(s, c)
    ensures var reopened := Open(s.log + [5], s.ackFile);
            Pending(reopened) == Pending(s) && Pending(Append(reopened, [])) != Ok(Entries(s.ackOffset, c.todo + [[]]))
  {
    TornHeader(s, c, [5], []);
    assert Frame([])[0] == 0 && ([5] + Frame([]))[0] == 5;
  }

  lemma PrefixStands(f: seq<byte>, before: seq<byte>, b: seq<byte>)
    ensures StandsAt(f, before + b, |before|) <==> f <= b
  {
    if |f| <= |b| {
      assert (before + b)[|before|..|before| + |f|] == b[..|f|];
    }
  }

  lemma PrefixCancels(a: seq<byte>, b: seq<byte>, c: seq<byte>)
    ensures a + b <= a + c <==> b <= c
  {
    if a + b <= a + c {
      assert b == (a + b)[|a|..] == (a + c)[..|a + b|][|a|..] == c[..|b|];
    }
  }
}
