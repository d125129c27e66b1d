/**
 * A tailed file over its whole life: it grows, is replaced, and the agent restarts, possibly before the
 * last records it emitted had reached the log. The ledger says what became of every line.
 */
module TailHistory {
  import opened Wrappers
  import Decimal
  import opened Framing
  import opened TailModel

  /** A record that was emitted, or lines that no record in the log will ever hold. */
  datatype Entry = Emitted(record: Line) | Lost(lines: seq<Line>)

  /**
   * `ledger` accounts for the lines in the order in which they were written, and its last `queued` entries
   * were made since the agent started. `before` holds the complete lines of all files replaced so far.
   */
  datatype World = World(t: Tailer, file: OnDisk, ledger: seq<Entry>, queued: nat, before: seq<Line>)

  /**
   * RestartEvent: the last k records emitted had not been appended to the log. ReplacedEvent: a poll finds
   * another file instead, or the same one truncated.
   */
  datatype Event =
    | PollEvent
    | MissingEvent
    | FlushEvent
    | GrowEvent(more: seq<byte>)
    | RestartEvent(k: nat)
    | ReplacedEvent(f: OnDisk)

  function LinesIn(e: Entry): seq<Line> {
    match e case Emitted(record) => Split(record) case Lost(lines) => lines
  }

  function LedgerLines(ledger: seq<Entry>): seq<Line> {
    if ledger == [] then [] else LedgerLines(ledger[..|ledger| - 1]) + LinesIn(ledger[|ledger| - 1])
  }

  function AsEmitted(records: seq<Line>): (es: seq<Entry>)
    ensures |es| == |records|
  {
    seq(|records|, i requires 0 <= i < |records| => Emitted(records[i]))
  }

  predicate Fits(f: OnDisk) {
    |f.content| < Decimal.TWO_TO_THE_64 && (f.inode.Some? ==> f.inode.value < Decimal.TWO_TO_THE_64)
  }

  predicate Enabled(w: World, e: Event) {
    match e
    case GrowEvent(more) => Fits(w.file.(content := w.file.content + more))
    case ReplacedEvent(f) => Replaced(w.t, f) && Fits(f)
    case _ => true
  }

  function Emit(w: World, t: Tailer, entries: seq<Entry>): World {
    w.(t := t, ledger := w.ledger + entries, queued := w.queued + |entries|)
  }

  /** Where the ledger is cut when the last k records, at most those since the start, are lost. */
  function Cut(w: World, k: nat): (n: nat)
    ensures n <= |w.ledger|
  {
    var lost := if k <= w.queued then k else w.queued;
    if lost <= |w.ledger| then |w.ledger| - lost else 0
  }

  function Step(start: Start, w: World, e: Event): World {
    match e
    case PollEvent =>
      var (t, records) := Poll(start, w.t, Some(w.file));
      Emit(w, t, AsEmitted(records))
    case MissingEvent =>
      var (t, records) := Poll(start, w.t, None);
      Emit(w, t, AsEmitted(records))
    case FlushEvent =>
      var (t, record) := FlushPending(w.t);
      Emit(w, t, if record.Some? then [Emitted(record.value)] else [])
    case GrowEvent(more) => w.(file := w.file.(content := w.file.content + more))
    case RestartEvent(k) =>
      var n := Cut(w, k);
      w.(t := Open(w.t.checkpoint),
         ledger := w.ledger[..n] + [Lost(LedgerLines(w.ledger[n..]) + SplitPending(w.t.pending))],
         queued := 0)
    case ReplacedEvent(f) =>
      var (t, records) := Poll(start, w.t, Some(f));
      var unread := Lines(w.file.content, w.t.offset);
      Emit(w, t, [Lost(SplitPending(w.t.pending) + unread)] + AsEmitted(records)).(
        file := f, before := w.before + Lines(w.file.content, 0))
  }

  /** The world after these events on a first file, if each was possible in its turn. */
  function Run(start: Start, first: OnDisk, events: seq<Event>): Option<World> {
    if events == [] then Some(World(Open(None), first, [], 0, []))
    else
      match Run(start, first, events[..|events| - 1])
      case Some(w) => if Enabled(w, events[|events| - 1]) then Some(Step(start, w, events[|events| - 1])) else None
      case None => None
  }

  /**
   * A restart drops the last k of the records emitted since the one before, or all of them; every other
   * event only adds to the ledger, and all that it adds may be lost by the next restart.
   */
  lemma QueuedExactly(start: Start, w: World, e: Event, dropped: nat)
    requires dropped <= |w.ledger|
    ensures var w' := Step(start, w, e);
            match e
            case RestartEvent(k) =>
              && w'.queued == 0
              && ((if k <= w.queued then dropped == k else dropped == w.queued) ==>
                    w'.ledger[..|w'.ledger| - 1] == w.ledger[..|w.ledger| - dropped])
            case _ =>
              && w.ledger <= w'.ledger && w'.queued - w.queued == |w'.ledger| - |w.ledger|
              && (e.GrowEvent? ==> w'.file.content == w.file.content + e.more)
  {
    hide Poll, LedgerLines, SplitPending, Lines;
  }

  // ---------------------------------------------------------------- the ledger

  lemma {:induction false} LedgerConcat(a: seq<Entry>, b: seq<Entry>)
    ensures LedgerLines(a + b) == LedgerLines(a) + LedgerLines(b)
    decreases |b|
  {
    hide LinesIn;
    if b == [] {
      assert a + b == a;
    } else {
      var n := |b| - 1;
      assert (a + b)[..|a + b| - 1] == a + b[..n];
      LedgerConcat(a, b[..n]);
    }
  }

  lemma LedgerOne(e: Entry)
    ensures LedgerLines([e]) == LinesIn(e)
  {
    assert [e][..0] == [];
    assert LedgerLines([]) == [];
  }

  lemma {:induction false} LedgerOfRecords(records: seq<Line>)
    ensures LedgerLines(AsEmitted(records)) == SplitAll(records)
  {
    hide Split;
    if records != [] {
      var n := |records| - 1;
      LedgerOfRecords(records[..n]);
      assert AsEmitted(records)[..n] == AsEmitted(records[..n]);
    }
  }

  /** The lines of the records that were emitted and not lost on the way to the log. */
  function Kept(ledger: seq<Entry>): seq<Line> {
    if ledger == [] then []
    else
      var last := ledger[|ledger| - 1];
      Kept(ledger[..|ledger| - 1]) + if last.Emitted? then LinesIn(last) else []
  }

  function Missing(ledger: seq<Entry>): seq<Line> {
    if ledger == [] then []
    else
      var last := ledger[|ledger| - 1];
      Missing(ledger[..|ledger| - 1]) + if last.Lost? then LinesIn(last) else []
  }

  lemma {:induction false} KeptAndMissing(ledger: seq<Entry>)
    ensures |Kept(ledger)| + |Missing(ledger)| == |LedgerLines(ledger)|
    ensures Missing(ledger) == [] ==> Kept(ledger) == LedgerLines(ledger)
  {
    hide LinesIn;
    if ledger != [] {
      KeptAndMissing(ledger[..|ledger| - 1]);
    }
  }

  // ---------------------------------------------------------------- what every run keeps

  ghost predicate Placed(start: Start, w: World) {
    && Fits(w.file)
    && w.t.offset <= |w.file.content|
    && (w.t.inode == None || w.t.inode == w.file.inode)
    && (start == None ==> w.t.pending == None)
    && Consumed(w.file.content[..w.t.offset], 0) == w.t.offset
    && Open(w.t.checkpoint) == w.t.(pending := None)
    && w.queued <= |w.ledger|
  }

  /** Every complete line of the replaced files, and every line read from the present one, in order. */
  ghost predicate Accounted(w: World) {
    && w.t.offset <= |w.file.content|
    && LedgerLines(w.ledger) + SplitPending(w.t.pending) == w.before + Lines(w.file.content[..w.t.offset], 0)
  }

  ghost predicate Inv(start: Start, w: World) { Placed(start, w) && Accounted(w) }

  /** The checkpoint that a poll writes leads back to where it stopped. */
  lemma PolledCheckpoint(start: Start, t: Tailer, f: OnDisk)
    requires Fits(f) && Poll(start, t, Some(f)).0.offset < Decimal.TWO_TO_THE_64
    ensures var t' := Poll(start, t, Some(f)).0; Open(t'.checkpoint) == t'.(pending := None)
  {
    hide Group, Lines, Consumed, PrintCheckpoint, ReadCheckpoint;
    var t' := Poll(start, t, Some(f)).0;
    CheckpointRoundTrip(t'.offset, t'.inode);
  }

  lemma PollAccounts(start: Start, w: World)
    requires Inv(start, w)
    ensures Inv(start, Step(start, w, Event.PollEvent))
  {
    hide Lines, Consumed, SplitPending, SplitAll, LedgerLines, Poll, Open;
    NotReplaced(start, w);
    var (t, records) := Poll(start, w.t, Some(w.file));
    PollReads(start, w.t, w.file);
    PolledCheckpoint(start, w.t, w.file);
    LedgerOfRecords(records);
    LedgerConcat(w.ledger, AsEmitted(records));
    var ledger, open, more := LedgerLines(w.ledger), SplitPending(w.t.pending), Lines(w.file.content, w.t.offset);
    assert ledger + SplitAll(records) + SplitPending(t.pending)
        == ledger + (SplitAll(records) + SplitPending(t.pending));
    assert ledger + (open + more) == ledger + open + more;
    var done := Lines(w.file.content[..w.t.offset], 0);
    assert w.before + done + more == w.before + (done + more);
  }

  lemma NotReplaced(start: Start, w: World)
    requires Placed(start, w)
    ensures !Replaced(w.t, w.file)
  {}

  lemma LossThenRecords(ledger: seq<Entry>, lost: seq<Line>, records: seq<Line>)
    ensures LedgerLines(ledger + ([Lost(lost)] + AsEmitted(records))) == LedgerLines(ledger) + lost + SplitAll(records)
  {
    hide LedgerLines, SplitAll;
    LedgerOfRecords(records);
    LedgerOne(Lost(lost));
    LedgerConcat([Lost(lost)], AsEmitted(records));
    LedgerConcat(ledger, [Lost(lost)] + AsEmitted(records));
    assert LedgerLines(ledger) + (lost + SplitAll(records)) == LedgerLines(ledger) + lost + SplitAll(records);
  }

  lemma ReplacedPlaced(start: Start, w: World, f: OnDisk)
    requires Inv(start, w) && Enabled(w, ReplacedEvent(f))
    ensures Placed(start, Step(start, w, ReplacedEvent(f)))
  {
    ReplacedStartsOver(start, w.t, f);
    FreshReads(start, f);
    PolledCheckpoint(start, w.t, f);
    hide Lines, Consumed, SplitPending, SplitAll, LedgerLines, Poll, Open, Replaced;
  }

  /** Both sides of the account grow by what was not read, and by the lines of the new file. */
  lemma Balance(ledger: seq<Line>, open: seq<Line>, unread: seq<Line>, records: seq<Line>, pending: seq<Line>,
                before: seq<Line>, done: seq<Line>)
    requires ledger + open == before + done
    ensures ledger + (open + unread) + records + pending == before + (done + unread) + (records + pending)
  {
    assert ledger + (open + unread) + records + pending == (ledger + open) + unread + (records + pending);
    assert before + (done + unread) + (records + pending) == (before + done) + unread + (records + pending);
  }

  lemma ReplacedAccounts(start: Start, w: World, f: OnDisk)
    requires Inv(start, w) && Enabled(w, ReplacedEvent(f))
    ensures Inv(start, Step(start, w, ReplacedEvent(f)))
  {
    ReplacedPlaced(start, w, f);
    NotReplaced(start, w);
    hide Lines, Consumed, SplitPending, SplitAll, LedgerLines, Poll, Open, Replaced;
    ReplacedStartsOver(start, w.t, f);
    FreshReads(start, f);
    var (t, records) := Poll(start, w.t, Some(f));
    PollReads(start, w.t, w.file);
    var open, unread := SplitPending(w.t.pending), Lines(w.file.content, w.t.offset);
    LossThenRecords(w.ledger, open + unread, records);
    Balance(LedgerLines(w.ledger), open, unread, SplitAll(records), SplitPending(t.pending),
            w.before, Lines(w.file.content[..w.t.offset], 0));
  }

  /** The first poll of a file reads it from its start. */
  lemma FreshReads(start: Start, f: OnDisk)
    ensures var (t, records) := Poll(start, Open(None), Some(f));
            && SplitAll(records) + SplitPending(t.pending) == Lines(f.content, 0)
            && Lines(f.content[..t.offset], 0) == Lines(f.content, 0)
            && t.offset == Consumed(f.content[..t.offset], 0) && t.offset <= |f.content|
            && t.inode == f.inode && (start == None ==> t.pending == None)
  {
    var untouched := Open(None);
    assert f.content[..0] == [];
    assert Consumed([], 0) == 0;
    assert SplitPending(None) + Lines(f.content, 0) == Lines(f.content, 0);
    hide Lines, Consumed, Poll, SplitAll, SplitPending;
    PollReads(start, untouched, f);
  }

  lemma RestartAccounts(start: Start, w: World, k: nat)
    requires Inv(start, w)
    ensures Inv(start, Step(start, w, RestartEvent(k)))
  {
    hide Lines, Consumed, Split, LedgerLines, Open;
    var n := Cut(w, k);
    var front, back := w.ledger[..n], w.ledger[n..];
    assert w.ledger == front + back;
    LedgerConcat(front, back);
    var lost := Lost(LedgerLines(back) + SplitPending(w.t.pending));
    LedgerConcat(front, [lost]);
    LedgerOne(lost);
    assert LedgerLines(front) + (LedgerLines(back) + SplitPending(w.t.pending))
        == LedgerLines(front) + LedgerLines(back) + SplitPending(w.t.pending);
  }

  lemma OtherAccounts(start: Start, w: World, e: Event)
    requires Inv(start, w) && Enabled(w, e) && (e.MissingEvent? || e.FlushEvent? || e.GrowEvent?)
    ensures Inv(start, Step(start, w, e))
  {
    hide Lines, Consumed, Split, LedgerLines, Open;
    match e {
      case MissingEvent =>
        assert w.ledger + AsEmitted([]) == w.ledger;
      case FlushEvent =>
        if w.t.pending.Some? {
          LedgerConcat(w.ledger, [Emitted(w.t.pending.value)]);
          LedgerOne(Emitted(w.t.pending.value));
        } else {
          assert w.ledger + [] == w.ledger;
        }
        assert LedgerLines(Step(start, w, e).ledger) + [] == LedgerLines(Step(start, w, e).ledger);
      case GrowEvent(more) =>
        assert (w.file.content + more)[..w.t.offset] == w.file.content[..w.t.offset];
    }
  }

  lemma {:induction false} RunInv(start: Start, first: OnDisk, events: seq<Event>)
    requires Fits(first) && Run(start, first, events).Some?
    ensures Inv(start, Run(start, first, events).value)
    decreases |events|
  {
    hide Inv, Step, Enabled;
    if events == [] {
      NothingRead(start, first);
    } else {
      var n := |events| - 1;
      RunInv(start, first, events[..n]);
      var w := Run(start, first, events[..n]).value;
      match events[n] {
        case PollEvent => PollAccounts(start, w);
        case RestartEvent(k) => RestartAccounts(start, w, k);
        case ReplacedEvent(f) => ReplacedAccounts(start, w, f);
        case _ => OtherAccounts(start, w, events[n]);
      }
    }
  }

  lemma NothingRead(start: Start, first: OnDisk)
    requires Fits(first)
    ensures Inv(start, World(Open(None), first, [], 0, []))
  {
    assert first.content[..0] == [];
  }

  // ---------------------------------------------------------------- which lines are missing

  /**
   * Every line is accounted for, in order: the complete lines of all replaced files and those read from
   * the present one are the lines of the ledger and of the open record. Lost are exactly the record that
   * was open at a restart, the emitted records that had not reached the log by then, the record that was
   * open when a file was found replaced, and the complete lines that nobody had read from it.
   */
  lemma EveryLineAccounted(start: Start, first: OnDisk, events: seq<Event>)
    requires Fits(first) && Run(start, first, events).Some?
    ensures Accounted(Run(start, first, events).value)
    ensures events != [] && events[|events| - 1].PollEvent? ==>
              var w := Run(start, first, events).value;
              Lines(w.file.content[..w.t.offset], 0) == Lines(w.file.content, 0)
  {
    RunInv(start, first, events);
    if events != [] && events[|events| - 1].PollEvent? {
      var front := events[..|events| - 1];
      RunInv(start, first, front);
      var w := Run(start, first, front).value;
      hide Run;
      NotReplaced(start, w);
      PollReads(start, w.t, w.file);
    }
  }

  // ---------------------------------------------------------------- which events lose lines

  /**
   * A restart is harmless if no record is open and every emitted one has reached the log, a replacement if
   * no record is open and the old file was read to its last complete line; nothing else does any harm.
   */
  predicate Harmless(w: World, e: Event) {
    match e
    case RestartEvent(k) => w.t.pending == None && forall i :: Cut(w, k) <= i < |w.ledger| ==> !w.ledger[i].Emitted?
    case ReplacedEvent(_) => w.t.pending == None && Lines(w.file.content, w.t.offset) == []
    case _ => true
  }

  /** Every event of the run was harmless when it happened. */
  ghost predicate AllHarmless(start: Start, first: OnDisk, events: seq<Event>) {
    events == [] ||
    var front, last := events[..|events| - 1], events[|events| - 1];
    && AllHarmless(start, first, front)
    && (Run(start, first, front).Some? ==> Harmless(Run(start, first, front).value, last))
  }

  lemma {:induction false} MissingConcat(a: seq<Entry>, b: seq<Entry>)
    ensures Missing(a + b) == Missing(a) + Missing(b)
    decreases |b|
  {
    hide LinesIn;
    if b == [] {
      assert a + b == a;
    } else {
      var n := |b| - 1;
      assert (a + b)[..|a + b| - 1] == a + b[..n];
      MissingConcat(a, b[..n]);
    }
  }

  lemma {:induction false} NothingMissingFrom(records: seq<Line>)
    ensures Missing(AsEmitted(records)) == []
  {
    if records != [] {
      var n := |records| - 1;
      NothingMissingFrom(records[..n]);
      assert AsEmitted(records)[..n] == AsEmitted(records[..n]);
    }
  }

  lemma MissingOne(lines: seq<Line>)
    ensures Missing([Lost(lines)]) == lines
  {
    assert [Lost(lines)][..0] == [];
    assert Missing([]) == [];
  }

  /** Every record has at least one line. */
  lemma SplitIsNotEmpty(record: Line)
    ensures Split(record) != []
  {
    LineEndBeforeLast(record + [NEWLINE], 0);
  }

  lemma {:induction false} MissingIsAllExactly(ledger: seq<Entry>)
    ensures |Missing(ledger)| <= |LedgerLines(ledger)|
    ensures Missing(ledger) == LedgerLines(ledger) <==> forall i :: 0 <= i < |ledger| ==> !ledger[i].Emitted?
    ensures |Missing(ledger)| == |LedgerLines(ledger)| ==> Missing(ledger) == LedgerLines(ledger)
  {
    hide Split;
    if ledger != [] {
      var n := |ledger| - 1;
      MissingIsAllExactly(ledger[..n]);
      if ledger[n].Emitted? {
        SplitIsNotEmpty(ledger[n].record);
      }
    }
  }

  lemma LossCompared(kept: seq<Line>, all: seq<Line>, missing: seq<Line>, open: seq<Line>)
    requires |missing| <= |all| && (|missing| == |all| ==> missing == all)
    ensures |kept + missing| <= |kept + (all + open)|
    ensures kept + (all + open) == kept + missing <==> missing == all && open == []
  {
    if missing == all && open == [] {
      assert all + open == missing;
    }
    assert |kept + (all + open)| == |kept| + |all| + |open| && |kept + missing| == |kept| + |missing|;
  }

  /** What is missing after a restart, in terms of what was before the cut and after it. */
  lemma MissingAfterRestart(start: Start, w: World, k: nat)
    ensures var front, back := w.ledger[..Cut(w, k)], w.ledger[Cut(w, k)..];
            && Missing(w.ledger) == Missing(front) + Missing(back)
            && Missing(Step(start, w, RestartEvent(k)).ledger)
               == Missing(front) + (LedgerLines(back) + SplitPending(w.t.pending))
  {
    hide Split, LedgerLines, Missing, Open, Cut;
    var n := Cut(w, k);
    var front, back := w.ledger[..n], w.ledger[n..];
    assert w.ledger == front + back;
    MissingConcat(front, back);
    var lost := LedgerLines(back) + SplitPending(w.t.pending);
    MissingConcat(front, [Lost(lost)]);
    MissingOne(lost);
  }

  lemma RestartLoses(start: Start, w: World, k: nat)
    ensures var after := Step(start, w, RestartEvent(k)).ledger;
            && |Missing(w.ledger)| <= |Missing(after)|
            && (Missing(after) == Missing(w.ledger) <==> Harmless(w, RestartEvent(k)))
  {
    hide Split, LedgerLines, Missing, Open, Cut, Step;
    var n := Cut(w, k);
    var front, back, open := w.ledger[..n], w.ledger[n..], SplitPending(w.t.pending);
    MissingAfterRestart(start, w, k);
    MissingIsAllExactly(back);
    LossCompared(Missing(front), LedgerLines(back), Missing(back), open);
    if w.t.pending.Some? {
      SplitIsNotEmpty(w.t.pending.value);
    }
    assert forall i :: n <= i < |w.ledger| ==> w.ledger[i] == back[i - n];
    assert forall i :: 0 <= i < |back| ==> back[i] == w.ledger[i + n];
  }

  lemma ReplacementLoses(start: Start, w: World, f: OnDisk)
    ensures var after := Step(start, w, ReplacedEvent(f)).ledger;
            && |Missing(w.ledger)| <= |Missing(after)|
            && (Missing(after) == Missing(w.ledger) <==> Harmless(w, ReplacedEvent(f)))
  {
    hide Split, Missing, Poll, Lines;
    var records := Poll(start, w.t, Some(f)).1;
    var lost := SplitPending(w.t.pending) + Lines(w.file.content, w.t.offset);
    MissingConcat(w.ledger, [Lost(lost)] + AsEmitted(records));
    MissingConcat([Lost(lost)], AsEmitted(records));
    MissingOne(lost);
    NothingMissingFrom(records);
    if w.t.pending.Some? {
      SplitIsNotEmpty(w.t.pending.value);
    }
    assert |Missing(w.ledger) + (lost + [])| == |Missing(w.ledger)| + |lost|;
  }

  /** An event makes lines go missing if and only if it was not harmless; what is missing stays missing. */
  lemma EventLosesExactly(start: Start, w: World, e: Event)
    ensures var after := Step(start, w, e).ledger;
            && |Missing(w.ledger)| <= |Missing(after)|
            && (Missing(after) == Missing(w.ledger) <==> Harmless(w, e))
  {
    hide Missing, Poll, Split, Lines;
    match e {
      case RestartEvent(k) => RestartLoses(start, w, k);
      case ReplacedEvent(f) => ReplacementLoses(start, w, f);
      case PollEvent => EmittingLosesNothing(w.ledger, Poll(start, w.t, Some(w.file)).1);
      case MissingEvent => EmittingLosesNothing(w.ledger, Poll(start, w.t, None).1);
      case FlushEvent =>
        if w.t.pending.Some? {
          EmittingLosesNothing(w.ledger, [w.t.pending.value]);
          assert AsEmitted([w.t.pending.value]) == [Emitted(w.t.pending.value)];
        } else {
          assert w.ledger + [] == w.ledger;
        }
      case GrowEvent(_) =>
    }
  }

  lemma EmittingLosesNothing(ledger: seq<Entry>, records: seq<Line>)
    ensures Missing(ledger + AsEmitted(records)) == Missing(ledger)
  {
    MissingConcat(ledger, AsEmitted(records));
    NothingMissingFrom(records);
    assert Missing(ledger) + [] == Missing(ledger);
  }

  lemma {:induction false} HarmlessExactly(start: Start, first: OnDisk, events: seq<Event>)
    requires Run(start, first, events).Some?
    ensures Missing(Run(start, first, events).value.ledger) == [] <==> AllHarmless(start, first, events)
    decreases |events|
  {
    hide Step, Enabled, Missing, Harmless;
    if events == [] {
      NothingLedger();
    } else {
      var front := events[..|events| - 1];
      HarmlessExactly(start, first, front);
      EventLosesExactly(start, Run(start, first, front).value, events[|events| - 1]);
    }
  }

  /**
   * The records in the log and the open one hold every line, if and only if no restart met an open record
   * or an emitted one that had not reached the log, and no replacement met an open record or lines that
   * nobody had read.
   */
  lemma NothingMissingExactly(start: Start, first: OnDisk, events: seq<Event>)
    requires Fits(first) && Run(start, first, events).Some?
    ensures var w := Run(start, first, events).value;
            && w.t.offset <= |w.file.content|
            && (Kept(w.ledger) + SplitPending(w.t.pending) == w.before + Lines(w.file.content[..w.t.offset], 0)
                <==> AllHarmless(start, first, events))
  {
    RunInv(start, first, events);
    HarmlessExactly(start, first, events);
    var w := Run(start, first, events).value;
    hide Run, AllHarmless;
    KeptAndMissing(w.ledger);
    var open := SplitPending(w.t.pending);
    assert |Kept(w.ledger) + open| == |Kept(w.ledger)| + |open|;
    assert |LedgerLines(w.ledger) + open| == |LedgerLines(w.ledger)| + |open|;
  }

  // ---------------------------------------------------------------- a restart that loses a record

  lemma RunOneMore(start: Start, first: OnDisk, events: seq<Event>, e: Event)
    requires Run(start, first, events).Some? && Enabled(Run(start, first, events).value, e)
    ensures Run(start, first, events + [e]) == Some(Step(start, Run(start, first, events).value, e))
  {
    hide Step, Enabled;
    assert (events + [e])[..|events|] == events;
  }

  lemma FirstLineOpens(matches: Line -> bool, inode: Option<nat>, line: Line)
    requires IsLine(line) && matches(line)
    ensures var content := line + [NEWLINE];
            && Lines(content, 0) == [line] && Consumed(content, 0) == |content|
            && Poll(Some(matches), Open(None), Some(OnDisk(inode, content)))
               == (Tailer(|content|, inode, Some(line), Some(PrintCheckpoint(|content|, inode))), [])
  {
    var content := line + [NEWLINE];
    assert [] + line + [NEWLINE] == content;
    OneMoreLine([], line);
    hide Lines, Consumed, PrintCheckpoint, LineEnd;
    assert PushLine(Some(matches), None, line) == (Some(line), []);
    GroupOne(Some(matches), line);
  }

  lemma GroupOne(start: Start, line: Line)
    ensures Group(start, None, [line]) == PushLine(start, None, line)
  {
    hide PushLine;
    assert [line][..0] == [];
    assert Group(start, None, []) == (None, []);
    assert [] + PushLine(start, None, line).1 == PushLine(start, None, line).1;
  }

  lemma ReadsTheRecord(matches: Line -> bool, first: OnDisk, line: Line)
    requires IsLine(line) && matches(line) && first.content == line + [NEWLINE]
    ensures var checkpoint := Some(PrintCheckpoint(|line| + 1, first.inode));
            Step(Some(matches), World(Open(None), first, [], 0, []), Event.PollEvent)
            == World(Tailer(|line| + 1, first.inode, Some(line), checkpoint), first, [], 0, [])
  {
    hide Poll, Open, PrintCheckpoint, Lines, Consumed;
    FirstLineOpens(matches, first.inode, line);
    assert AsEmitted([]) == [] && [] + AsEmitted([]) == [];
  }

  lemma ForgetsTheRecord(start: Start, first: OnDisk, line: Line)
    requires IsLine(line) && first.content == line + [NEWLINE] && Fits(first)
    ensures var checkpoint := Some(PrintCheckpoint(|line| + 1, first.inode));
            var w := World(Tailer(|line| + 1, first.inode, Some(line), checkpoint), first, [], 0, []);
            Step(start, w, RestartEvent(0))
            == World(Tailer(|line| + 1, first.inode, None, checkpoint), first, [Lost([line])], 0, [])
  {
    hide Poll, ReadCheckpoint, PrintCheckpoint, Split, LedgerLines;
    CheckpointRoundTrip(|line| + 1, first.inode);
    SplitJoin([], line);
    NothingLedger();
    var none: seq<Entry> := [];
    assert none[..0] == none && none[0..] == none && none + [Lost([line])] == [Lost([line])];
    assert LedgerLines(none) + [line] == [line];
  }

  /** Any file with one line at which a record starts: read, restart, read again, and the line is gone. */
  lemma RestartLosesARecord(matches: Line -> bool, inode: Option<nat>, line: Line)
    requires IsLine(line) && matches(line) && Fits(OnDisk(inode, line + [NEWLINE]))
    ensures var r := Run(Some(matches), OnDisk(inode, line + [NEWLINE]),
                         [Event.PollEvent, RestartEvent(0), Event.PollEvent]);
            && r.Some? && r.value.t.offset == |line| + 1 && r.value.t.pending == None
            && Kept(r.value.ledger) == [] && Missing(r.value.ledger) == [line]
  {
    hide Run, Poll, Step, Open, PrintCheckpoint, Missing, Kept;
    var start: Start := Some(matches);
    var first := OnDisk(inode, line + [NEWLINE]);
    var p: Event := Event.PollEvent;
    NothingRun(start, first);
    ReadsTheRecord(matches, first, line);
    RunOneMore(start, first, [], p);
    ForgetsTheRecord(start, first, line);
    RunOneMore(start, first, [] + [p], RestartEvent(0));
    var checkpoint := Some(PrintCheckpoint(|line| + 1, inode));
    ReadsNothingNew(start, World(Tailer(|line| + 1, inode, None, checkpoint), first, [Lost([line])], 0, []));
    RunOneMore(start, first, [] + [p] + [RestartEvent(0)], p);
    assert [] + [p] + [RestartEvent(0)] + [p] == [p, RestartEvent(0), p];
    MissingOne([line]);
    NothingLedger();
  }

  lemma ReadsNothingNew(start: Start, w: World)
    requires w.t.offset == |w.file.content| && w.t.inode == w.file.inode && w.t.pending == None
    ensures var w' := Step(start, w, Event.PollEvent);
            w'.ledger == w.ledger && w'.t.offset == w.t.offset && w'.t.pending == None
  {
    hide Poll;
    NothingNew(start, w.t, w.file);
    assert w.ledger + AsEmitted([]) == w.ledger;
  }

  lemma NothingRun(start: Start, first: OnDisk)
    ensures Run(start, first, []) == Some(World(Open(None), first, [], 0, []))
  {}

  lemma NothingLedger()
    ensures LedgerLines([]) == [] && Missing([]) == [] && Kept([]) == []
    ensures forall lines :: Kept([Lost(lines)]) == []
  {
    forall lines ensures Kept([Lost(lines)]) == [] {
      assert [Lost(lines)][..0] == [];
    }
  }

  /** A poll at the end of the file changes at most the checkpoint. */
  lemma NothingNew(start: Start, t: Tailer, f: OnDisk)
    requires t.offset == |f.content| && t.inode == f.inode && t.pending == None
    ensures var (t', records) := Poll(start, t, Some(f));
            records == [] && t'.offset == t.offset && t'.pending == None
  {
    assert Lines(f.content, |f.content|) == [] && Consumed(f.content, |f.content|) == |f.content|;
    assert Group(start, None, []) == (None, []);
  }
}
