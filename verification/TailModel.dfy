/**
 * Tailing a log file, on values: complete lines since the last offset, multiline records, rotation
 * and the checkpoint file. Text is bytes; a line ends at a newline byte.
 */
module TailModel {
  import opened Wrappers
  import opened Framing
  import Decimal

  type Line = seq<byte>

  const NEWLINE: byte := 10

  /** The first newline from a position on, or the end of the text. */
  function LineEnd(b: seq<byte>, pos: nat): (e: nat)
    ensures pos <= |b| ==> pos <= e <= |b|
    ensures pos > |b| ==> e == |b|
    decreases |b| - pos
  {
    if pos >= |b| then |b| else if b[pos] == NEWLINE then pos else LineEnd(b, pos + 1)
  }

  /** The complete lines from a position on, without their newlines; a partial last line is left alone. */
  function Lines(b: seq<byte>, pos: nat): seq<Line>
    decreases |b| - pos
  {
    var e := LineEnd(b, pos);
    if e >= |b| then [] else [b[pos..e]] + Lines(b, e + 1)
  }

  /** Where the last complete line ends. */
  function Consumed(b: seq<byte>, pos: nat): (e: nat)
    ensures pos <= |b| ==> pos <= e <= |b|
    decreases |b| - pos
  {
    var e := LineEnd(b, pos);
    if e >= |b| then pos else Consumed(b, e + 1)
  }

  /** None: every line is a record. Some(p): a record starts at a line satisfying p. */
  type Start = Option<Line -> bool>

  /** One line: the record being collected afterwards, and the records completed by it. */
  function PushLine(start: Start, pending: Option<Line>, line: Line): (Option<Line>, seq<Line>) {
    match start
    case None => (pending, [line])
    case Some(matches) =>
      if matches(line) then (Some(line), if pending.Some? then [pending.value] else [])
      else if pending.Some? then (Some(pending.value + [NEWLINE] + line), [])
      else (None, [line])
  }

  /** All lines in one go. */
  function Group(start: Start, pending: Option<Line>, lines: seq<Line>): (Option<Line>, seq<Line>) {
    if lines == [] then (pending, [])
    else
      var (p, records) := Group(start, pending, lines[..|lines| - 1]);
      var (p', more) := PushLine(start, p, lines[|lines| - 1]);
      (p', records + more)
  }

  // ---------------------------------------------------------------- the tailer

  /** A file as it is found on disk. Some systems report no inode. */
  datatype OnDisk = OnDisk(inode: Option<nat>, content: seq<byte>)

  datatype Tailer = Tailer(offset: nat, inode: Option<nat>, pending: Option<Line>, checkpoint: Option<string>)

  function PrintCheckpoint(offset: nat, inode: Option<nat>): string {
    Decimal.Print(offset) + ":" + if inode.Some? then Decimal.Print(inode.value) else ""
  }

  function UpToColon(s: string): (head: string)
    ensures |head| <= |s|
  {
    if s == "" || s[0] == ':' then "" else [s[0]] + UpToColon(s[1..])
  }

  /** The first two parts between colons; an unreadable offset counts as 0, an unreadable inode as none. */
  function ReadCheckpoint(file: Option<string>): (nat, Option<nat>) {
    match file
    case None => (0, None)
    case Some(text) =>
      var t := Decimal.Trim(text);
      var first := UpToColon(t);
      var offset := match Decimal.ParseU64(first) case Some(n) => n case None => 0;
      (offset, if |first| == |t| then None else Decimal.ParseU64(UpToColon(t[|first| + 1..])))
  }

  function Open(checkpoint: Option<string>): Tailer {
    var (offset, inode) := ReadCheckpoint(checkpoint);
    Tailer(offset, inode, None, checkpoint)
  }

  /** A new inode, or a file shorter than what was read, means the file was replaced. */
  predicate Replaced(t: Tailer, f: OnDisk) {
    t.inode.Some? && ((f.inode.Some? && f.inode != t.inode) || |f.content| < t.offset)
  }

  /** One poll: the tailer afterwards and the records completed. A missing file changes nothing. */
  function Poll(start: Start, t: Tailer, file: Option<OnDisk>): (Tailer, seq<Line>) {
    match file
    case None => (t, [])
    case Some(f) =>
      var from := if Replaced(t, f) then 0 else t.offset;
      var (pending, records) := Group(start, if Replaced(t, f) then None else t.pending, Lines(f.content, from));
      var offset := Consumed(f.content, from);
      (Tailer(offset, f.inode, pending, Some(PrintCheckpoint(offset, f.inode))), records)
  }

  function FlushPending(t: Tailer): (Tailer, Option<Line>) { (t.(pending := None), t.pending) }

  // ---------------------------------------------------------------- lines of a growing file

  lemma {:induction false} LineEndGrows(b: seq<byte>, b': seq<byte>, pos: nat)
    requires b <= b' && pos <= |b|
    ensures LineEnd(b, pos) < |b| ==> LineEnd(b', pos) == LineEnd(b, pos)
    decreases |b| - pos
  {
    if pos < |b| && b[pos] != NEWLINE {
      LineEndGrows(b, b', pos + 1);
    }
  }

  lemma FirstLine(b: seq<byte>, pos: nat)
    requires LineEnd(b, pos) < |b|
    ensures Lines(b, pos) == [b[pos..LineEnd(b, pos)]] + Lines(b, LineEnd(b, pos) + 1)
    ensures Consumed(b, pos) == Consumed(b, LineEnd(b, pos) + 1)
  {}

  lemma NoLine(b: seq<byte>, pos: nat)
    requires LineEnd(b, pos) >= |b|
    ensures Lines(b, pos) == [] && Consumed(b, pos) == pos
  {}

  /** Reading a grown file from the start is reading it before, then from where that reading stopped. */
  lemma {:induction false} LinesGrow(b: seq<byte>, b': seq<byte>, pos: nat)
    requires b <= b' && pos <= |b|
    ensures Lines(b', pos) == Lines(b, pos) + Lines(b', Consumed(b, pos))
    ensures Consumed(b', pos) == Consumed(b', Consumed(b, pos))
    decreases |b| - pos
  {
    hide Lines, Consumed, LineEnd;
    var e := LineEnd(b, pos);
    if e < |b| {
      LineEndGrows(b, b', pos);
      LinesGrow(b, b', e + 1);
      assert b'[pos..e] == b[pos..e];
      FirstLine(b, pos);
      FirstLine(b', pos);
    } else {
      NoLine(b, pos);
    }
  }

  lemma {:induction false} GroupConcat(start: Start, p: Option<Line>, a: seq<Line>, b: seq<Line>)
    ensures var (p1, r1) := Group(start, p, a);
            var (p2, r2) := Group(start, p1, b);
            Group(start, p, a + b) == (p2, r1 + r2)
    decreases |b|
  {
    if b == [] {
      var r1 := Group(start, p, a).1;
      assert a + b == a && r1 + [] == r1;
    } else {
      var n := |b| - 1;
      assert (a + b)[..|a + b| - 1] == a + b[..n];
      GroupConcat(start, p, a, b[..n]);
      var (p1, r1) := Group(start, p, a);
      var (p2, r2) := Group(start, p1, b[..n]);
      var more := PushLine(start, p2, b[n]).1;
      assert (r1 + r2) + more == r1 + (r2 + more);
    }
  }

  // ---------------------------------------------------------------- the poll schedule does not matter

  /** Polling these contents one after the other: the tailer afterwards and all records emitted. */
  function PollAll(start: Start, t: Tailer, inode: Option<nat>, contents: seq<seq<byte>>): (Tailer, seq<Line>) {
    if contents == [] then (t, [])
    else
      var (t1, r1) := PollAll(start, t, inode, contents[..|contents| - 1]);
      var (t2, r2) := Poll(start, t1, Some(OnDisk(inode, contents[|contents| - 1])));
      (t2, r1 + r2)
  }

  ghost predicate Growing(contents: seq<seq<byte>>) {
    forall i :: 0 < i < |contents| ==> contents[i - 1] <= contents[i]
  }

  /**
   * Whatever the moments of polling and the partial lines they meet, the records emitted so far and
   * the one being collected are those of grouping all complete lines of the file at once.
   */
  lemma {:induction false} ScheduleIndependent(start: Start, inode: Option<nat>, contents: seq<seq<byte>>)
    requires Growing(contents) && contents != []
    ensures var (t, records) := PollAll(start, Open(None), inode, contents);
            var last := contents[|contents| - 1];
            && (t.pending, records) == Group(start, None, Lines(last, 0))
            && t.offset == Consumed(last, 0) && t.inode == inode
  {
    hide Group, Lines, Consumed, PrintCheckpoint;
    var n := |contents| - 1;
    var front := contents[..n];
    if front == [] {
      assert PollAll(start, Open(None), inode, front) == (Open(None), []);
      assert [] + Group(start, None, Lines(contents[0], 0)).1 == Group(start, None, Lines(contents[0], 0)).1;
    } else {
      ScheduleIndependent(start, inode, front);
      var before, last := front[n - 1], contents[n];
      assert before <= last;
      LinesGrow(before, last, 0);
      GroupConcat(start, None, Lines(before, 0), Lines(last, Consumed(before, 0)));
    }
  }

  // ---------------------------------------------------------------- conservation

  /** The lines of a record. */
  function Split(record: Line): seq<Line> { Lines(record + [NEWLINE], 0) }

  function SplitAll(records: seq<Line>): seq<Line> {
    if records == [] then [] else SplitAll(records[..|records| - 1]) + Split(records[|records| - 1])
  }

  function SplitPending(pending: Option<Line>): seq<Line> {
    match pending case Some(record) => Split(record) case None => []
  }

  predicate IsLine(line: Line) { NEWLINE !in line }

  lemma {:induction false} LineEndOfLine(before: seq<byte>, line: Line, k: nat)
    requires IsLine(line) && k <= |line|
    ensures LineEnd(before + line + [NEWLINE], |before| + k) == |before| + |line|
    decreases |line| - k
  {
    if k < |line| {
      assert (before + line + [NEWLINE])[|before| + k] == line[k];
      LineEndOfLine(before, line, k + 1);
    }
  }

  lemma OneMoreLine(before: seq<byte>, line: Line)
    requires IsLine(line)
    ensures Lines(before + line + [NEWLINE], |before|) == [line]
    ensures Consumed(before + line + [NEWLINE], |before|) == |before + line + [NEWLINE]|
  {
    var b := before + line + [NEWLINE];
    LineEndOfLine(before, line, 0);
    assert b[|before|..|before| + |line|] == line;
    assert LineEnd(b, |b|) == |b|;
  }

  lemma {:induction false} SplitConsumesAll(b: seq<byte>, pos: nat)
    requires pos < |b| && b[|b| - 1] == NEWLINE
    ensures Consumed(b, pos) == |b|
    decreases |b| - pos
  {
    LineEndBeforeLast(b, pos);
    var e := LineEnd(b, pos);
    if e + 1 < |b| {
      SplitConsumesAll(b, e + 1);
    }
  }

  lemma {:induction false} LineEndBeforeLast(b: seq<byte>, pos: nat)
    requires pos < |b| && b[|b| - 1] == NEWLINE
    ensures LineEnd(b, pos) < |b|
    decreases |b| - pos
  {
    if b[pos] != NEWLINE {
      LineEndBeforeLast(b, pos + 1);
    }
  }

  /** Joining a line to a record with a newline is undone by splitting. */
  lemma SplitJoin(record: Line, line: Line)
    requires IsLine(line)
    ensures Split(line) == [line]
    ensures Split(record + [NEWLINE] + line) == Split(record) + [line]
  {
    OneMoreLine([], line);
    assert [] + line + [NEWLINE] == line + [NEWLINE];
    var b := record + [NEWLINE];
    OneMoreLine(b, line);
    SplitConsumesAll(b, 0);
    LinesGrow(b, b + line + [NEWLINE], 0);
    assert record + [NEWLINE] + line + [NEWLINE] == b + line + [NEWLINE];
  }

  lemma SplitAllSnoc(a: seq<Line>, record: Line)
    ensures SplitAll(a + [record]) == SplitAll(a) + Split(record)
  {
    assert (a + [record])[..|a|] == a;
  }

  lemma {:induction false} SplitAllConcat(a: seq<Line>, b: seq<Line>)
    ensures SplitAll(a + b) == SplitAll(a) + SplitAll(b)
    decreases |b|
  {
    hide Split;
    if b == [] {
      assert a + b == a;
    } else {
      var n := |b| - 1;
      assert (a + b)[..|a + b| - 1] == a + b[..n];
      SplitAllConcat(a, b[..n]);
      assert SplitAll(a) + SplitAll(b[..n]) + Split(b[n]) == SplitAll(a) + (SplitAll(b[..n]) + Split(b[n]));
    }
  }

  lemma PushLineKeeps(start: Start, pending: Option<Line>, line: Line)
    requires IsLine(line) && (start == None ==> pending == None)
    ensures var (p, records) := PushLine(start, pending, line);
            && SplitAll(records) + SplitPending(p) == SplitPending(pending) + [line]
            && (start == None ==> p == None)
  {
    hide Split;
    SplitJoin(if pending.Some? then pending.value else [], line);
    assert forall r: Line :: SplitAll([r]) == Split(r) by {
      forall r: Line ensures SplitAll([r]) == Split(r) {
        SplitAllSnoc([], r);
        assert [] + [r] == [r];
      }
    }
  }

  lemma {:induction false} GroupKeeps(start: Start, pending: Option<Line>, lines: seq<Line>)
    requires start == None ==> pending == None
    requires forall i :: 0 <= i < |lines| ==> IsLine(lines[i])
    ensures var (p, records) := Group(start, pending, lines);
            && SplitAll(records) + SplitPending(p) == SplitPending(pending) + lines
            && (start == None ==> p == None)
  {
    hide SplitAll, SplitPending, PushLine;
    if lines == [] {
      assert SplitAll([]) == [] by { SplitNone(); }
    } else {
      var n := |lines| - 1;
      GroupKeeps(start, pending, lines[..n]);
      var (p, records) := Group(start, pending, lines[..n]);
      PushLineKeeps(start, p, lines[n]);
      var (p', more) := PushLine(start, p, lines[n]);
      SplitAllConcat(records, more);
      assert SplitAll(records + more) + SplitPending(p') == SplitAll(records) + (SplitAll(more) + SplitPending(p'));
      assert SplitAll(records) + (SplitPending(p) + [lines[n]]) == SplitAll(records) + SplitPending(p) + [lines[n]];
      assert SplitPending(pending) + lines[..n] + [lines[n]] == SplitPending(pending) + (lines[..n] + [lines[n]]);
      assert lines == lines[..n] + [lines[n]];
    }
  }

  lemma SplitNone()
    ensures SplitAll([]) == []
  {}

  lemma {:induction false} LinesAreLines(b: seq<byte>, pos: nat)
    ensures forall i :: 0 <= i < |Lines(b, pos)| ==> IsLine(Lines(b, pos)[i])
    decreases |b| - pos
  {
    var e := LineEnd(b, pos);
    if e < |b| {
      NoNewlineBefore(b, pos);
      LinesAreLines(b, e + 1);
    }
  }

  lemma {:induction false} NoNewlineBefore(b: seq<byte>, pos: nat)
    ensures pos <= |b| ==> NEWLINE !in b[pos..LineEnd(b, pos)]
    decreases |b| - pos
  {
    if pos < |b| && b[pos] != NEWLINE {
      NoNewlineBefore(b, pos + 1);
      var e := LineEnd(b, pos);
      assert b[pos..e] == [b[pos]] + b[pos + 1..e];
    }
  }

  function Size(lines: seq<Line>): nat {
    if lines == [] then 0 else |lines[0]| + 1 + Size(lines[1..])
  }

  /** The offset counts exactly the bytes of the complete lines and their newlines. */
  lemma {:induction false} ConsumedIsSize(b: seq<byte>, pos: nat)
    ensures Consumed(b, pos) == pos + Size(Lines(b, pos))
    decreases |b| - pos
  {
    var e := LineEnd(b, pos);
    if e < |b| {
      ConsumedIsSize(b, e + 1);
      assert Lines(b, pos)[1..] == Lines(b, e + 1);
    }
  }

  /** What can happen to a tailed file and its tailer, as long as the file only grows. */
  datatype TailEvent = PollEvent | MissingEvent | FlushEvent | GrowEvent(more: seq<byte>)

  /** The tailer, everything it emitted, and the file's content. */
  datatype Tailed = Tailed(t: Tailer, emitted: seq<Line>, content: seq<byte>)

  function Happen(start: Start, inode: Option<nat>, s: Tailed, e: TailEvent): Tailed {
    match e
    case PollEvent =>
      var (t, records) := Poll(start, s.t, Some(OnDisk(inode, s.content)));
      s.(t := t, emitted := s.emitted + records)
    case MissingEvent =>
      var (t, records) := Poll(start, s.t, None);
      s.(t := t, emitted := s.emitted + records)
    case FlushEvent =>
      var (t, record) := FlushPending(s.t);
      s.(t := t, emitted := s.emitted + if record.Some? then [record.value] else [])
    case GrowEvent(more) => s.(content := s.content + more)
  }

  function HappenAll(start: Start, inode: Option<nat>, events: seq<TailEvent>): Tailed {
    if events == [] then Tailed(Open(None), [], [])
    else Happen(start, inode, HappenAll(start, inode, events[..|events| - 1]), events[|events| - 1])
  }

  /** The lines consumed so far, wherever the tailer stopped. */
  ghost predicate Conserved(start: Start, inode: Option<nat>, s: Tailed) {
    && s.t.offset <= |s.content|
    && (s.t.inode == inode || s.t == Open(None))
    && (start == None ==> s.t.pending == None)
    && Consumed(s.content[..s.t.offset], 0) == s.t.offset
    && SplitAll(s.emitted) + SplitPending(s.t.pending) == Lines(s.content[..s.t.offset], 0)
  }

  /** A poll that finds the file as it was left: what was open and what is read come out, nothing else. */
  lemma PollReads(start: Start, t: Tailer, f: OnDisk)
    requires !Replaced(t, f) && t.offset <= |f.content| && (start == None ==> t.pending == None)
    requires Consumed(f.content[..t.offset], 0) == t.offset
    ensures var (t', records) := Poll(start, t, Some(f));
            && SplitAll(records) + SplitPending(t'.pending) == SplitPending(t.pending) + Lines(f.content, t.offset)
            && Lines(f.content[..t.offset], 0) + Lines(f.content, t.offset) == Lines(f.content, 0)
            && t'.offset == Consumed(f.content, 0) == Consumed(f.content[..t'.offset], 0)
            && t'.offset <= |f.content| && t'.inode == f.inode
            && Lines(f.content[..t'.offset], 0) == Lines(f.content, 0)
            && (start == None ==> t'.pending == None)
  {
    hide Group, Lines, Consumed, SplitAll, SplitPending, PrintCheckpoint;
    LinesGrow(f.content[..t.offset], f.content, 0);
    LinesAreLines(f.content, t.offset);
    GroupKeeps(start, t.pending, Lines(f.content, t.offset));
    StopIsStable(f.content, 0);
  }

  lemma PollConserves(start: Start, inode: Option<nat>, s: Tailed)
    requires Conserved(start, inode, s)
    ensures Conserved(start, inode, Happen(start, inode, s, PollEvent))
    ensures Happen(start, inode, s, PollEvent).t.offset == Consumed(s.content, 0)
  {
    hide Group, Lines, Consumed, SplitAll, SplitPending, PrintCheckpoint;
    var f := OnDisk(inode, s.content);
    var (t, records) := Poll(start, s.t, Some(f));
    PollReads(start, s.t, f);
    SplitAllConcat(s.emitted, records);
    var open, lines := SplitPending(s.t.pending), Lines(s.content, s.t.offset);
    assert SplitAll(s.emitted) + SplitAll(records) + SplitPending(t.pending)
        == SplitAll(s.emitted) + (SplitAll(records) + SplitPending(t.pending));
    assert SplitAll(s.emitted) + (open + lines) == SplitAll(s.emitted) + open + lines;
  }

  /** Cutting the file after its last complete line loses no complete line. */
  lemma {:induction false} StopIsStable(b: seq<byte>, pos: nat)
    requires pos <= |b|
    ensures var cut := b[..Consumed(b, pos)];
            pos <= |cut| && Lines(cut, pos) == Lines(b, pos) && Consumed(cut, pos) == |cut|
    decreases |b| - pos
  {
    hide Lines, Consumed, LineEnd;
    var e := LineEnd(b, pos);
    if e < |b| {
      StopIsStable(b, e + 1);
      FirstLine(b, pos);
      var cut, first := b[..Consumed(b, pos)], b[..e + 1];
      assert first <= cut;
      LineEndInside(b, pos);
      LineEndGrows(first, cut, pos);
      FirstLine(cut, pos);
      assert cut[pos..e] == b[pos..e];
    } else {
      NoLine(b, pos);
      NoLine(b[..pos], pos);
    }
  }

  lemma {:induction false} LineEndInside(b: seq<byte>, pos: nat)
    requires pos <= |b| && LineEnd(b, pos) < |b|
    ensures b[LineEnd(b, pos)] == NEWLINE && LineEnd(b[..LineEnd(b, pos) + 1], pos) == LineEnd(b, pos)
    decreases |b| - pos
  {
    if b[pos] != NEWLINE {
      LineEndInside(b, pos + 1);
    }
  }

  lemma FlushConserves(start: Start, inode: Option<nat>, s: Tailed)
    requires Conserved(start, inode, s)
    ensures Conserved(start, inode, Happen(start, inode, s, FlushEvent))
  {
    hide Lines, Consumed, SplitAll, Split;
    var s' := Happen(start, inode, s, FlushEvent);
    match s.t.pending {
      case Some(record) => SplitAllSnoc(s.emitted, record);
      case None => assert s.emitted + [] == s.emitted;
    }
    assert SplitAll(s'.emitted) + [] == SplitAll(s'.emitted);
  }

  /**
   * Conservation: whatever the order of growth, polls, failed polls and flushes, splitting everything
   * emitted and the record being collected gives back exactly the consumed lines in order, and the
   * offset is their length in bytes.
   */
  lemma {:induction false} Conservation(start: Start, inode: Option<nat>, events: seq<TailEvent>)
    ensures Conserved(start, inode, HappenAll(start, inode, events))
    ensures var s := HappenAll(start, inode, events);
            s.t.offset == Size(SplitAll(s.emitted) + SplitPending(s.t.pending))
  {
    hide Happen, Lines, Consumed, SplitPending, SplitAll;
    if events == [] {
      NothingTailed(start, inode);
    } else {
      var n := |events| - 1;
      Conservation(start, inode, events[..n]);
      var s := HappenAll(start, inode, events[..n]);
      match events[n] {
        case PollEvent => PollConserves(start, inode, s);
        case FlushEvent => FlushConserves(start, inode, s);
        case _ => GrowConserves(start, inode, s, events[n]);
      }
    }
    var s := HappenAll(start, inode, events);
    ConsumedIsSize(s.content[..s.t.offset], 0);
  }

  /** After any run, a poll that follows a growth accounts for every complete line of the grown file. */
  lemma GrownFileIsRead(start: Start, inode: Option<nat>, events: seq<TailEvent>, more: seq<byte>)
    ensures var s := HappenAll(start, inode, events);
            var s' := HappenAll(start, inode, events + [GrowEvent(more), PollEvent]);
            SplitAll(s'.emitted) + SplitPending(s'.t.pending) == Lines(s.content + more, 0)
  {
    hide Lines, Consumed, SplitPending, SplitAll, Group, PrintCheckpoint;
    Conservation(start, inode, events);
    var s := HappenAll(start, inode, events);
    assert events + [GrowEvent(more), PollEvent] == events + [GrowEvent(more)] + [PollEvent];
    assert (events + [GrowEvent(more)] + [PollEvent])[..|events| + 1] == events + [GrowEvent(more)];
    assert (events + [GrowEvent(more)])[..|events|] == events;
    GrowConserves(start, inode, s, GrowEvent(more));
    var grown := Happen(start, inode, s, GrowEvent(more));
    PollConserves(start, inode, grown);
    StopIsStable(grown.content, 0);
  }

  lemma NothingTailed(start: Start, inode: Option<nat>)
    ensures Conserved(start, inode, Tailed(Open(None), [], []))
  {}

  lemma GrowConserves(start: Start, inode: Option<nat>, s: Tailed, e: TailEvent)
    requires Conserved(start, inode, s) && (e.GrowEvent? || e.MissingEvent?)
    ensures Conserved(start, inode, Happen(start, inode, s, e))
  {
    hide Lines, Consumed, SplitPending, SplitAll;
    assert Happen(start, inode, s, e).content[..s.t.offset] == s.content[..s.t.offset];
    assert s.emitted + [] == s.emitted;
  }

  // ---------------------------------------------------------------- restart and rotation

  lemma {:induction false} UpToColonStops(head: string, rest: string)
    requires ':' !in head && (rest == "" || rest[0] == ':')
    ensures UpToColon(head + rest) == head
  {
    if head != "" {
      assert (head + rest)[1..] == head[1..] + rest;
      UpToColonStops(head[1..], rest);
    } else {
      assert head + rest == rest;
    }
  }

  /** A checkpoint reads back as it was written. */
  lemma CheckpointRoundTrip(offset: nat, inode: Option<nat>)
    requires offset < Decimal.TWO_TO_THE_64 && (inode.Some? ==> inode.value < Decimal.TWO_TO_THE_64)
    ensures ReadCheckpoint(Some(PrintCheckpoint(offset, inode))) == (offset, inode)
  {
    hide Decimal.Print, Decimal.ParseU64, Decimal.Trim, UpToColon;
    var first, second := Decimal.Print(offset), if inode.Some? then Decimal.Print(inode.value) else "";
    var text := PrintCheckpoint(offset, inode);
    Decimal.PrintParses(offset);
    if inode.Some? {
      Decimal.PrintParses(inode.value);
    }
    CheckpointEnds(text);
    assert text == first + (":" + second);
    UpToColonStops(first, ":" + second);
    UpToColonStops(second, "");
    assert second + "" == second && text[|first| + 1..] == second;
    assert Decimal.ParseU64("") == None by { EmptyIsNoNumber(); }
  }

  lemma CheckpointEnds(text: string)
    requires text != "" && Decimal.IsDigit(text[0]) && (Decimal.IsDigit(text[|text| - 1]) || text[|text| - 1] == ':')
    ensures Decimal.Trim(text) == text
  {}

  lemma EmptyIsNoNumber()
    ensures Decimal.ParseU64("") == None
  {}

  /**
   * What a tailer starts from, for any checkpoint text: the first two parts between colons, where an offset
   * that is no number counts as 0 and an inode that is no number as unknown.
   */
  lemma CheckpointExactly(text: string, first: string, second: string, rest: string)
    requires ':' !in first && ':' !in second && (rest == "" || rest[0] == ':')
    ensures Decimal.Trim(text) == first + ":" + second + rest ==>
              ReadCheckpoint(Some(text)) ==
              (if Decimal.ParseU64(first).Some? then Decimal.ParseU64(first).value else 0, Decimal.ParseU64(second))
    ensures Decimal.Trim(text) == first ==>
              ReadCheckpoint(Some(text)) ==
              (if Decimal.ParseU64(first).Some? then Decimal.ParseU64(first).value else 0, None)
  {
    hide Decimal.ParseU64, Decimal.Trim, UpToColon;
    UpToColonStops(first, "");
    UpToColonStops(first, ":" + second + rest);
    UpToColonStops(second, rest);
    assert first + "" == first;
    assert first + (":" + second + rest) == first + ":" + second + rest;
    assert (first + ":" + second + rest)[|first| + 1..] == second + rest;
  }

  /** Without a checkpoint, or with an unreadable offset in it, the whole file is read from its start. */
  lemma UnreadableReadsAll(start: Start, checkpoint: Option<string>, first: string, rest: string, f: OnDisk)
    requires ':' !in first && (rest == "" || rest[0] == ':')
    requires checkpoint.Some? ==> Decimal.Trim(checkpoint.value) == first + rest && Decimal.ParseU64(first) == None
    ensures var (t', records) := Poll(start, Open(checkpoint), Some(f));
            (t'.pending, records) == Group(start, None, Lines(f.content, 0)) && t'.offset == Consumed(f.content, 0)
  {
    hide Decimal.ParseU64, Decimal.Trim, UpToColon, Group, Lines, Consumed, PrintCheckpoint;
    UpToColonStops(first, rest);
  }

  /** After a poll, a restart loses nothing if and only if no record was being collected. */
  lemma RestartAfterPoll(start: Start, t: Tailer, f: OnDisk)
    requires |f.content| < Decimal.TWO_TO_THE_64 && t.offset < Decimal.TWO_TO_THE_64
    requires f.inode.Some? ==> f.inode.value < Decimal.TWO_TO_THE_64
    ensures var t' := Poll(start, t, Some(f)).0;
            Open(t'.checkpoint) == t' <==> t'.pending == None
  {
    hide Group, Lines, PrintCheckpoint, ReadCheckpoint, Consumed;
    var t' := Poll(start, t, Some(f)).0;
    ConsumedFits(f.content, if Replaced(t, f) then 0 else t.offset);
    CheckpointRoundTrip(t'.offset, t'.inode);
  }

  lemma ConsumedFits(b: seq<byte>, pos: nat)
    ensures Consumed(b, pos) <= if pos <= |b| then |b| else pos
  {}

  /**
   * Exactly when a poll starts over: when a known inode has changed, or the file is shorter than what was
   * read of it. Then the records are made of all complete lines of the new content, and what was open is
   * gone; otherwise they are made of what was open and the lines after the offset.
   */
  lemma RotationExactly(start: Start, t: Tailer, f: OnDisk)
    requires start == None ==> t.pending == None
    ensures var (t', records) := Poll(start, t, Some(f));
            var found := SplitAll(records) + SplitPending(t'.pending);
            && t'.inode == f.inode
            && (t.inode.Some? && f.inode.Some? && f.inode.value != t.inode.value ==>
                  found == Lines(f.content, 0) && t'.offset == Consumed(f.content, 0))
            && (t.inode.Some? && |f.content| < t.offset ==>
                  found == Lines(f.content, 0) && t'.offset == Consumed(f.content, 0))
            && (t.inode == None || ((f.inode == None || f.inode == t.inode) && t.offset <= |f.content|) ==>
                  && found == SplitPending(t.pending) + Lines(f.content, t.offset)
                  && t'.offset == Consumed(f.content, t.offset))
  {
    hide Group, Lines, Consumed, SplitAll, Split, PrintCheckpoint;
    LinesAreLines(f.content, 0);
    LinesAreLines(f.content, t.offset);
    GroupKeeps(start, None, Lines(f.content, 0));
    GroupKeeps(start, t.pending, Lines(f.content, t.offset));
    assert [] + Lines(f.content, 0) == Lines(f.content, 0);
  }

  /** Once a file is seen to be replaced, the tailer continues like a new one on the new content. */
  lemma ReplacedStartsOver(start: Start, t: Tailer, f: OnDisk)
    requires Replaced(t, f)
    ensures Poll(start, t, Some(f)) == Poll(start, Open(None), Some(f))
  {}

  /**
   * After a detected rotation or truncation, however the new file grows and is polled, the tailer emits
   * what a new one emits, namely the grouping of all complete lines of the new content.
   */
  lemma {:induction false} ReplacedBehavesNew(start: Start, t: Tailer, inode: Option<nat>, contents: seq<seq<byte>>)
    requires contents != [] && Replaced(t, OnDisk(inode, contents[0])) && Growing(contents)
    ensures PollAll(start, t, inode, contents) == PollAll(start, Open(None), inode, contents)
    ensures var (t', records) := PollAll(start, t, inode, contents);
            (t'.pending, records) == Group(start, None, Lines(contents[|contents| - 1], 0))
    decreases |contents|
  {
    hide Poll, Group, Lines, Open;
    var n := |contents| - 1;
    var front := contents[..n];
    if front == [] {
      ReplacedStartsOver(start, t, OnDisk(inode, contents[0]));
      assert PollAll(start, t, inode, front) == (t, []);
      assert PollAll(start, Open(None), inode, front) == (Open(None), []);
    } else {
      ReplacedBehavesNew(start, t, inode, front);
    }
    ScheduleIndependent(start, inode, contents);
  }

  // ---------------------------------------------------------------- the idle flush

  const IDLE_FLUSH_AFTER := 4

  /** Looking for the file may fail, find nothing, or find a file. */
  datatype IoError = IoError

  type Attempt = Result<Option<OnDisk>, IoError>

  /**
   * One round of the collector: poll, and after enough empty polls in a row emit what is pending. A poll
   * that fails is neither empty nor not.
   */
  function Round(start: Start, t: Tailer, idle: nat, attempt: Attempt): (Tailer, nat, seq<Line>) {
    if attempt.Err? then (t, idle, [])
    else
      var (t', records) := Poll(start, t, attempt.value);
      if records != [] then (t', 0, records)
      else if idle + 1 < IDLE_FLUSH_AFTER then (t', idle + 1, [])
      else
        var (t'', record) := FlushPending(t');
        (t'', 0, if record.Some? then [record.value] else [])
  }

  /** Every round is nothing, or a poll followed by nothing or by a flush, so conservation covers the collector. */
  lemma RoundIsEvents(start: Start, inode: Option<nat>, s: Tailed, idle: nat, attempt: Attempt)
    requires attempt in {Err(IoError), Ok(None), Ok(Some(OnDisk(inode, s.content)))}
    ensures var (t, _, records) := Round(start, s.t, idle, attempt);
            var now := s.(t := t, emitted := s.emitted + records);
            match attempt
            case Err(_) => now == s
            case Ok(file) =>
              var polled := Happen(start, inode, s, if file.Some? then PollEvent else MissingEvent);
              now == polled || now == Happen(start, inode, polled, FlushEvent)
  {
    hide Poll;
    assert s.emitted + [] == s.emitted;
  }

  /** On a file that no longer changes, no record stays pending for more than four rounds. */
  lemma IdleFlushes(start: Start, t: Tailer, idle: nat, f: OnDisk)
    requires idle < IDLE_FLUSH_AFTER && t.inode == f.inode && t.offset <= |f.content|
    requires Lines(f.content, t.offset) == []
    ensures var found: Attempt := Ok(Some(f));
            var (t1, i1, r1) := Round(start, t, idle, found);
            var (t2, i2, r2) := Round(start, t1, i1, found);
            var (t3, i3, r3) := Round(start, t2, i2, found);
            var (t4, i4, r4) := Round(start, t3, i3, found);
            t4.pending == None && r1 + r2 + r3 + r4 == if t.pending.Some? then [t.pending.value] else []
  {
    hide Lines, Consumed, PrintCheckpoint;
    assert Consumed(f.content, t.offset) == t.offset by { NothingConsumed(f.content, t.offset); }
  }

  /** A number of rounds in which a file that does not change is found. */
  function Rounds(start: Start, t: Tailer, idle: nat, f: OnDisk, n: nat): (Tailer, nat, seq<Line>) {
    if n == 0 then (t, idle, [])
    else
      var (t', idle', records) := Rounds(start, t, idle, f, n - 1);
      var (t'', idle'', more) := Round(start, t', idle', Ok(Some(f)));
      (t'', idle'', records + more)
  }

  /** An open record stays open through the first three empty polls in a row, and the fourth sends it. */
  lemma {:induction false} FourthIdleFlushes(start: Start, t: Tailer, idle: nat, f: OnDisk, n: nat)
    requires idle < 4 && idle + n <= 4 && t.inode == f.inode && t.offset <= |f.content|
    requires Lines(f.content, t.offset) == []
    ensures var (t', idle', records) := Rounds(start, t, idle, f, n);
            if idle + n < 4 then t'.pending == t.pending && idle' == idle + n && records == []
            else t'.pending == None && idle' == 0
                 && records == if t.pending.Some? then [t.pending.value] else []
    ensures var t' := Rounds(start, t, idle, f, n).0; t'.offset == t.offset && t'.inode == t.inode
    decreases n
  {
    hide Lines, Consumed, PrintCheckpoint;
    assert Consumed(f.content, t.offset) == t.offset by { NothingConsumed(f.content, t.offset); }
    if n > 0 {
      FourthIdleFlushes(start, t, idle, f, n - 1);
    }
  }

  /** A poll that completes a record is passed on whole and starts the count anew. */
  lemma ActiveRound(start: Start, t: Tailer, idle: nat, f: OnDisk)
    requires Poll(start, t, Some(f)).1 != []
    ensures Round(start, t, idle, Ok(Some(f))) == (Poll(start, t, Some(f)).0, 0, Poll(start, t, Some(f)).1)
  {}

  /** A poll that finds no file counts as an empty one; a poll that fails neither counts nor interrupts the count. */
  lemma MissingFileCounts(start: Start, t: Tailer, idle: nat)
    ensures var (t', idle', records) := Round(start, t, idle, Ok(None));
            && (idle < 3 ==> t' == t && idle' == idle + 1 && records == [])
            && (idle == 3 ==> t'.pending == None && idle' == 0
                              && records == if t.pending.Some? then [t.pending.value] else [])
    ensures Round(start, t, idle, Err(IoError)) == (t, idle, [])
  {}

  lemma NothingConsumed(b: seq<byte>, pos: nat)
    requires Lines(b, pos) == []
    ensures Consumed(b, pos) == pos
  {}
}
