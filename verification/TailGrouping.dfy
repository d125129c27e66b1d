/** Where one record of a tailed file ends and the next begins, told from the lines alone. */
module TailGrouping {
  import opened Wrappers
  import opened Framing
  import opened TailModel

  type Pattern = Line -> bool

  /** The record's first line satisfies the pattern. */
  predicate Starts(p: Pattern, record: Line) { Split(record) != [] && p(Split(record)[0]) }

  /** No line after the first satisfies the pattern, and the first one does unless it is the only one. */
  predicate IsRecord(p: Pattern, record: Line) {
    var lines := Split(record);
    && lines != []
    && (|lines| > 1 ==> p(lines[0]))
    && forall k :: 1 <= k < |lines| ==> !p(lines[k])
  }

  /** Every record is one, and the open one starts as a record does. */
  ghost predicate Delimited(p: Pattern, emitted: seq<Line>, open: Option<Line>) {
    && (forall i :: 0 <= i < |emitted| ==> IsRecord(p, emitted[i]))
    && (open.Some? ==> IsRecord(p, open.value) && Starts(p, open.value))
  }

  /** Records without a start come first, and once there is a start there is an open record. */
  ghost predicate StartsLast(p: Pattern, emitted: seq<Line>, open: Option<Line>) {
    && (open.None? ==> forall i :: 0 <= i < |emitted| ==> !Starts(p, emitted[i]))
    && (forall i, j :: 0 <= i < j < |emitted| && Starts(p, emitted[i]) ==> Starts(p, emitted[j]))
  }

  ghost predicate Good(p: Pattern, emitted: seq<Line>, open: Option<Line>, unflushed: bool) {
    Delimited(p, emitted, open) && (unflushed ==> StartsLast(p, emitted, open))
  }

  lemma LineAlone(p: Pattern, line: Line)
    requires IsLine(line)
    ensures IsRecord(p, line) && (Starts(p, line) <==> p(line))
  {
    SplitJoin([], line);
    hide Split;
  }

  lemma LineJoined(p: Pattern, record: Line, line: Line)
    requires IsLine(line) && !p(line) && IsRecord(p, record) && Starts(p, record)
    ensures var joined := record + [NEWLINE] + line; IsRecord(p, joined) && Starts(p, joined)
  {
    SplitJoin(record, line);
    hide Split;
  }

  lemma PushIsGood(p: Pattern, emitted: seq<Line>, open: Option<Line>, line: Line, unflushed: bool)
    requires Good(p, emitted, open, unflushed) && IsLine(line)
    ensures var (open', records) := PushLine(Some(p), open, line); Good(p, emitted + records, open', unflushed)
  {
    LineAlone(p, line);
    if open.Some? && !p(line) {
      LineJoined(p, open.value, line);
    }
    hide Starts, IsRecord;
    assert emitted + [] == emitted;
  }

  lemma {:induction false} GroupIsGood(p: Pattern, emitted: seq<Line>, open: Option<Line>, lines: seq<Line>,
                                       unflushed: bool)
    requires Good(p, emitted, open, unflushed) && forall i :: 0 <= i < |lines| ==> IsLine(lines[i])
    ensures var (open', records) := Group(Some(p), open, lines); Good(p, emitted + records, open', unflushed)
    decreases |lines|
  {
    hide Good, PushLine;
    if lines == [] {
      assert emitted + [] == emitted;
    } else {
      var n := |lines| - 1;
      GroupIsGood(p, emitted, open, lines[..n], unflushed);
      var (open1, records1) := Group(Some(p), open, lines[..n]);
      PushIsGood(p, emitted + records1, open1, lines[n], unflushed);
      var records2 := PushLine(Some(p), open1, lines[n]).1;
      assert emitted + records1 + records2 == emitted + (records1 + records2);
    }
  }

  predicate NoFlush(events: seq<TailEvent>) { forall i :: 0 <= i < |events| ==> !events[i].FlushEvent? }

  lemma FlushIsDelimited(p: Pattern, emitted: seq<Line>, open: Option<Line>)
    requires Delimited(p, emitted, open)
    ensures Delimited(p, emitted + if open.Some? then [open.value] else [], None)
  {
    hide IsRecord, Starts;
  }

  lemma PollIsGood(p: Pattern, inode: Option<nat>, s: Tailed, unflushed: bool)
    requires Conserved(Some(p), inode, s) && Good(p, s.emitted, s.t.pending, unflushed)
    ensures var s' := Happen(Some(p), inode, s, PollEvent); Good(p, s'.emitted, s'.t.pending, unflushed)
  {
    hide Good, Group, Lines, Consumed, PrintCheckpoint, SplitAll, SplitPending;
    LinesAreLines(s.content, s.t.offset);
    GroupIsGood(p, s.emitted, s.t.pending, Lines(s.content, s.t.offset), unflushed);
  }

  /**
   * Whatever happens to a growing file, every record emitted and the open one are delimited by the
   * pattern; and as long as nothing was flushed, records without a start come before all others.
   */
  lemma {:induction false} RecordsAreDelimited(p: Pattern, inode: Option<nat>, events: seq<TailEvent>)
    ensures var s := HappenAll(Some(p), inode, events); Good(p, s.emitted, s.t.pending, NoFlush(events))
    decreases |events|
  {
    hide Happen, Starts, IsRecord;
    if events != [] {
      var n := |events| - 1;
      var front := events[..n];
      assert NoFlush(events) ==> NoFlush(front);
      RecordsAreDelimited(p, inode, front);
      Conservation(Some(p), inode, front);
      var s := HappenAll(Some(p), inode, front);
      hide HappenAll, Conserved;
      EventIsGood(p, inode, s, events[n], NoFlush(events));
    }
  }

  lemma EventIsGood(p: Pattern, inode: Option<nat>, s: Tailed, e: TailEvent, unflushed: bool)
    requires Conserved(Some(p), inode, s) && Good(p, s.emitted, s.t.pending, unflushed)
    requires unflushed ==> !e.FlushEvent?
    ensures var s' := Happen(Some(p), inode, s, e); Good(p, s'.emitted, s'.t.pending, unflushed)
  {
    match e {
      case PollEvent => PollIsGood(p, inode, s, unflushed);
      case FlushEvent => FlushIsDelimited(p, s.emitted, s.t.pending);
      case _ =>
        hide Good;
        assert s.emitted + [] == s.emitted;
    }
  }

  // ---------------------------------------------------------------- the border between two records

  /** The emitted records, then the open one. */
  function Records(emitted: seq<Line>, open: Option<Line>): seq<Line> {
    emitted + if open.Some? then [open.value] else []
  }

  /** No line up to the k-th of record i, in any record before it or in itself, satisfies the pattern. */
  ghost predicate NoStartUpTo(p: Pattern, records: seq<Line>, i: nat, k: nat) {
    forall i', k' :: 0 <= i' < |records| && 0 <= k' < |Split(records[i'])| && (i' < i || (i' == i && k' <= k)) ==>
      !p(Split(records[i'])[k'])
  }

  lemma GoodRecords(p: Pattern, emitted: seq<Line>, open: Option<Line>)
    requires Good(p, emitted, open, true)
    ensures var records := Records(emitted, open);
            && (forall i :: 0 <= i < |records| ==> IsRecord(p, records[i]))
            && (forall i, j :: 0 <= i < j < |records| && Starts(p, records[i]) ==> Starts(p, records[j]))
            && (open.Some? <==> exists i :: 0 <= i < |records| && Starts(p, records[i]))
  {
    hide IsRecord, Starts;
    var records := Records(emitted, open);
    if open.Some? {
      assert records[|emitted|] == open.value;
    }
  }

  lemma OnlyFirstLineStarts(p: Pattern, record: Line, k: nat)
    requires IsRecord(p, record) && k < |Split(record)|
    ensures p(Split(record)[k]) ==> k == 0 && Starts(p, record)
    ensures k > 0 ==> p(Split(record)[0])
  {
    hide Split;
  }

  /**
   * In a run without a flush a line begins a record if and only if it satisfies the pattern, or no line up
   * to it does. With conservation, which fixes the lines and their order, this determines every record.
   */
  lemma LineBeginsRecordExactly(p: Pattern, inode: Option<nat>, events: seq<TailEvent>, i: nat, k: nat)
    requires NoFlush(events)
    requires var s := HappenAll(Some(p), inode, events);
             var records := Records(s.emitted, s.t.pending);
             i < |records| && k < |Split(records[i])|
    ensures var s := HappenAll(Some(p), inode, events);
            var records := Records(s.emitted, s.t.pending);
            k == 0 <==> p(Split(records[i])[k]) || NoStartUpTo(p, records, i, k)
  {
    RecordsAreDelimited(p, inode, events);
    var s := HappenAll(Some(p), inode, events);
    hide HappenAll;
    var records := Records(s.emitted, s.t.pending);
    GoodRecords(p, s.emitted, s.t.pending);
    hide Split, Good, Records, IsRecord;
    OnlyFirstLineStarts(p, records[i], k);
    if k == 0 && !p(Split(records[i])[0]) {
      forall i', k' | 0 <= i' < |records| && 0 <= k' < |Split(records[i'])| && (i' < i || (i' == i && k' <= k))
        ensures !p(Split(records[i'])[k'])
      {
        OnlyFirstLineStarts(p, records[i'], k');
      }
    }
  }

  /** In such a run a record is open if and only if some line satisfies the pattern. */
  lemma OpenExactly(p: Pattern, inode: Option<nat>, events: seq<TailEvent>)
    requires NoFlush(events)
    ensures var s := HappenAll(Some(p), inode, events);
            var records := Records(s.emitted, s.t.pending);
            s.t.pending.Some? <==>
              exists i, k :: 0 <= i < |records| && 0 <= k < |Split(records[i])| && p(Split(records[i])[k])
  {
    RecordsAreDelimited(p, inode, events);
    var s := HappenAll(Some(p), inode, events);
    hide HappenAll;
    var records := Records(s.emitted, s.t.pending);
    GoodRecords(p, s.emitted, s.t.pending);
    hide Split, Good, Records, IsRecord;
    if i, k :| 0 <= i < |records| && 0 <= k < |Split(records[i])| && p(Split(records[i])[k]) {
      OnlyFirstLineStarts(p, records[i], k);
    }
    if s.t.pending.Some? {
      var i :| 0 <= i < |records| && Starts(p, records[i]);
      assert p(Split(records[i])[0]);
    }
  }

  // ---------------------------------------------------------------- without a pattern

  lemma {:induction false} GroupWithoutPattern(open: Option<Line>, lines: seq<Line>)
    ensures Group(None, open, lines) == (open, lines)
  {
    if lines != [] {
      GroupWithoutPattern(open, lines[..|lines| - 1]);
      assert lines == lines[..|lines| - 1] + [lines[|lines| - 1]];
    }
  }

  /** Each line read is a record of its own, and none is open. */
  ghost predicate LineByLine(s: Tailed) {
    && s.t.pending == None && s.t.offset <= |s.content|
    && s.emitted == Lines(s.content[..s.t.offset], 0)
  }

  lemma PollLineByLine(inode: Option<nat>, s: Tailed)
    requires Conserved(None, inode, s) && LineByLine(s)
    ensures LineByLine(Happen(None, inode, s, PollEvent))
  {
    hide Lines, Consumed, PrintCheckpoint, Group, SplitAll, SplitPending;
    GroupWithoutPattern(None, Lines(s.content, s.t.offset));
    PollReads(None, s.t, OnDisk(inode, s.content));
  }

  lemma OtherLineByLine(inode: Option<nat>, s: Tailed, e: TailEvent)
    requires LineByLine(s) && !e.PollEvent?
    ensures LineByLine(Happen(None, inode, s, e))
  {
    hide Lines;
    if e.GrowEvent? {
      assert (s.content + e.more)[..s.t.offset] == s.content[..s.t.offset];
    } else {
      assert s.emitted + [] == s.emitted;
    }
  }

  /** Without a pattern every complete line read is a record of its own and none is ever open. */
  lemma {:induction false} EveryLineARecord(inode: Option<nat>, events: seq<TailEvent>)
    ensures LineByLine(HappenAll(None, inode, events))
    decreases |events|
  {
    hide Happen, LineByLine, Conserved;
    if events == [] {
      NothingLineByLine();
    } else {
      var n := |events| - 1;
      EveryLineARecord(inode, events[..n]);
      Conservation(None, inode, events[..n]);
      var s := HappenAll(None, inode, events[..n]);
      if events[n].PollEvent? {
        PollLineByLine(inode, s);
      } else {
        OtherLineByLine(inode, s, events[n]);
      }
    }
  }

  lemma NothingLineByLine()
    ensures LineByLine(Tailed(Open(None), [], []))
  {}
}
