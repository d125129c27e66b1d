/**
 * A widget subscription. In incremental mode each poll asks only for the rows whose since-column is
 * greater than the greatest value seen so far, and pushes what it gets.
 */
module PollerModel {
  import opened Wrappers
  import opened Lex

  /** The since-column of a row: not readable, a JSON string, or the raw text of another JSON value. */
  datatype Since = Missing | Text(value: string) | Raw(raw: string)

  datatype Row = Row(json: string, since: Since)

  /** `newerRaw` is how the database compares a since-column that is not a string. */
  datatype Widget = Widget(incremental: bool, newerRaw: (string, string) -> bool)

  datatype Query = Whole | After(last: string)

  datatype Push = Push(rows: seq<Row>, accepted: bool)

  datatype Poller = Poller(lastSeen: string, pushes: seq<Push>)

  function ValueOf(r: Row): Option<string> {
    match r.since
    case Missing => None
    case Text(value) => Some(value)
    case Raw(raw) => Some(raw)
  }

  function MaxSince(rows: seq<Row>, current: string): string {
    if rows == [] then current
    else
      var max, v := MaxSince(rows[..|rows| - 1], current), ValueOf(rows[|rows| - 1]);
      if v.Some? && Less(max, v.value) then v.value else max
  }

  function QueryFor(w: Widget, lastSeen: string): Query {
    if w.incremental && lastSeen != "" then After(lastSeen) else Whole
  }

  predicate Newer(w: Widget, r: Row, last: string) {
    match r.since
    case Missing => false
    case Text(value) => Less(last, value)
    case Raw(raw) => w.newerRaw(raw, last)
  }

  function NewerRows(w: Widget, table: seq<Row>, last: string): seq<Row> {
    if table == [] then []
    else
      var front, r := table[..|table| - 1], table[|table| - 1];
      NewerRows(w, front, last) + if Newer(w, r, last) then [r] else []
  }

  /** The database's answer, when the widget's own query would return `table`. */
  function Answer(w: Widget, q: Query, table: seq<Row>): seq<Row> {
    match q
    case Whole => table
    case After(last) => NewerRows(w, table, last)
  }

  /** A successful poll; in incremental mode an empty answer is not pushed. */
  function Poll(w: Widget, p: Poller, table: seq<Row>, accepted: bool): Poller {
    var rows := Answer(w, QueryFor(w, p.lastSeen), table);
    var lastSeen := if w.incremental then MaxSince(rows, p.lastSeen) else p.lastSeen;
    Poller(lastSeen, if w.incremental && rows == [] then p.pushes else p.pushes + [Push(rows, accepted)])
  }

  // ---------------------------------------------------------------- runs

  /** The widget's full result may change; a poll may fail; the hub may reject a push. */
  datatype Event = Change(table: seq<Row>) | FailedPoll | PollEvent(accepted: bool)

  /** `seen` is the full result as it was at the last successful poll. */
  datatype World = World(table: seq<Row>, seen: seq<Row>, poller: Poller)

  function Step(w: Widget, world: World, e: Event): World {
    match e
    case Change(table) => world.(table := table)
    case FailedPoll => world
    case PollEvent(accepted) => World(world.table, world.table, Poll(w, world.poller, world.table, accepted))
  }

  function Run(w: Widget, events: seq<Event>): World {
    if events == [] then World([], [], Poller("", []))
    else Step(w, Run(w, events[..|events| - 1]), events[|events| - 1])
  }

  lemma RunSnoc(w: Widget, events: seq<Event>, e: Event)
    ensures Run(w, events + [e]) == Step(w, Run(w, events), e)
  {
    assert (events + [e])[..|events|] == events;
  }

  function AllPushed(pushes: seq<Push>): seq<Row> {
    if pushes == [] then [] else AllPushed(pushes[..|pushes| - 1]) + pushes[|pushes| - 1].rows
  }

  function Delivered(pushes: seq<Push>): seq<Row> {
    if pushes == [] then []
    else Delivered(pushes[..|pushes| - 1]) + if pushes[|pushes| - 1].accepted then pushes[|pushes| - 1].rows else []
  }

  lemma PushSnoc(pushes: seq<Push>, p: Push)
    ensures AllPushed(pushes + [p]) == AllPushed(pushes) + p.rows
    ensures Delivered(pushes + [p]) == Delivered(pushes) + if p.accepted then p.rows else []
  {
    assert (pushes + [p])[..|pushes|] == pushes;
  }

  // ---------------------------------------------------------------- the greatest value

  /** `max` is the greatest since-value of the rows, or the empty string if no value exceeds it. */
  ghost predicate IsMax(max: string, rows: seq<Row>) {
    && (forall r :: r in rows && ValueOf(r).Some? ==> !Less(max, ValueOf(r).value))
    && (max == "" || exists r :: r in rows && ValueOf(r) == Some(max))
  }

  lemma {:induction false} MaxSinceIsMax(before: seq<Row>, rows: seq<Row>, current: string)
    requires IsMax(current, before)
    ensures IsMax(MaxSince(rows, current), before + rows)
  {
    if rows == [] {
      assert before + rows == before;
    } else {
      var front, last := rows[..|rows| - 1], rows[|rows| - 1];
      MaxSinceIsMax(before, front, current);
      OneRowMore(before + front, last, MaxSince(front, current));
      assert before + rows == before + front + [last];
    }
  }

  lemma OneRowMore(rows: seq<Row>, r: Row, max: string)
    requires IsMax(max, rows)
    ensures IsMax(if ValueOf(r).Some? && Less(max, ValueOf(r).value) then ValueOf(r).value else max, rows + [r])
  {
    if ValueOf(r).Some? && Less(max, ValueOf(r).value) {
      var v := ValueOf(r).value;
      forall s | s in rows + [r] && ValueOf(s).Some? ensures !Less(v, ValueOf(s).value) {
        if s in rows {
          if Less(v, ValueOf(s).value) {
            Transitive(max, v, ValueOf(s).value);
          }
        } else {
          Irreflexive(v);
        }
      }
      assert r in rows + [r];
    } else if max != "" {
      var s :| s in rows && ValueOf(s) == Some(max);
      assert s in rows + [r];
    }
  }

  /** Whatever the database returns, `lastSeen` is the greatest value among all rows ever pushed. */
  lemma {:induction false} LastSeenIsMax(w: Widget, events: seq<Event>)
    requires w.incremental
    ensures IsMax(Run(w, events).poller.lastSeen, AllPushed(Run(w, events).poller.pushes))
  {
    if events != [] {
      var front, last := events[..|events| - 1], events[|events| - 1];
      LastSeenIsMax(w, front);
      if last.PollEvent? {
        var world := Run(w, front);
        hide Run, MaxSince, IsMax;
        var rows := Answer(w, QueryFor(w, world.poller.lastSeen), world.table);
        MaxSinceIsMax(AllPushed(world.poller.pushes), rows, world.poller.lastSeen);
        PushSnoc(world.poller.pushes, Push(rows, last.accepted));
        assert AllPushed(world.poller.pushes) + [] == AllPushed(world.poller.pushes);
      }
    }
  }

  // ---------------------------------------------------------------- what one poll returns

  lemma {:induction false} NewerRowsAppend(w: Widget, a: seq<Row>, b: seq<Row>, last: string)
    ensures NewerRows(w, a + b, last) == NewerRows(w, a, last) + NewerRows(w, b, last)
  {
    if b == [] {
      assert a + b == a;
    } else {
      assert (a + b)[..|a + b| - 1] == a + b[..|b| - 1];
      NewerRowsAppend(w, a, b[..|b| - 1], last);
    }
  }

  lemma {:induction false} NoneNewer(w: Widget, rows: seq<Row>, last: string)
    requires forall r :: r in rows ==> !Newer(w, r, last)
    ensures NewerRows(w, rows, last) == []
  {
    if rows != [] {
      NoneNewer(w, rows[..|rows| - 1], last);
      assert rows[|rows| - 1] in rows;
    }
  }

  /** An incremental answer has only rows of the full result, with readable values, and texts above the mark. */
  lemma {:induction false} AnswerIsNewer(w: Widget, table: seq<Row>, last: string)
    ensures forall r :: r in Answer(w, After(last), table) ==>
              r in table && r.since != Missing && (r.since.Text? ==> Less(last, r.since.value))
    ensures forall r :: r in table && r.since.Text? && Less(last, r.since.value) ==> r in Answer(w, After(last), table)
  {
    if table != [] {
      AnswerIsNewer(w, table[..|table| - 1], last);
    }
  }

  lemma AppendCancels(a: seq<Row>, x: seq<Row>, b: seq<Row>, r: Row)
    requires |a| <= |b| && |x| <= 1
    ensures a + x == b + [r] <==> a == b && x == [r]
  {
    if a + x == b + [r] {
      assert |a| == |b| && |x| == 1;
      assert a == (a + x)[..|a|] == (b + [r])[..|b|] == b;
      assert x[0] == (a + x)[|a|] == r;
    }
  }

  lemma {:induction false} AllNewerExactly(w: Widget, rows: seq<Row>, last: string)
    ensures |NewerRows(w, rows, last)| <= |rows|
    ensures NewerRows(w, rows, last) == rows <==> forall k :: 0 <= k < |rows| ==> Newer(w, rows[k], last)
  {
    hide Newer;
    if rows != [] {
      var front, r := rows[..|rows| - 1], rows[|rows| - 1];
      AllNewerExactly(w, front, last);
      assert rows == front + [r];
      AppendCancels(NewerRows(w, front, last), if Newer(w, r, last) then [r] else [], front, r);
    }
  }

  predicate AllText(rows: seq<Row>) { forall r :: r in rows ==> r.since.Text? }

  /**
   * A poll returns exactly the rows that arrived since the last one if and only if they all exceed
   * `lastSeen`, or, as long as no value has exceeded the empty string, no row was seen before.
   */
  lemma PollReturnsArrivalsExactly(w: Widget, lastSeen: string, seen: seq<Row>, arrived: seq<Row>)
    requires w.incremental && AllText(seen + arrived) && IsMax(lastSeen, seen)
    ensures Answer(w, QueryFor(w, lastSeen), seen + arrived) == arrived
       <==> if lastSeen == "" then seen == []
            else forall k :: 0 <= k < |arrived| ==> Less(lastSeen, arrived[k].since.value)
  {
    assert forall r :: r in arrived ==> r in seen + arrived;
    assert forall r :: r in seen ==> r in seen + arrived;
    if lastSeen == "" {
      assert |seen + arrived| == |seen| + |arrived|;
    } else {
      NewerRowsAppend(w, seen, arrived, lastSeen);
      NoneNewer(w, seen, lastSeen);
      AllNewerExactly(w, arrived, lastSeen);
      assert forall k :: 0 <= k < |arrived| ==>
               (Newer(w, arrived[k], lastSeen) <==> Less(lastSeen, arrived[k].since.value));
    }
  }

  // ---------------------------------------------------------------- growing results

  /** A row with a non-empty text value greater than every value seen at an earlier poll. */
  ghost predicate Arrives(r: Row, seen: seq<Row>) {
    && r.since.Text? && r.since.value != ""
    && forall s :: s in seen && ValueOf(s).Some? ==> Less(ValueOf(s).value, r.since.value)
  }

  /** Every change only appends such rows to the full result. */
  ghost predicate Grows(w: Widget, events: seq<Event>) {
    events == [] ||
    var front, last := events[..|events| - 1], events[|events| - 1];
    && Grows(w, front)
    && (last.Change? ==>
          var world := Run(w, front);
          && world.table <= last.table
          && forall k :: |world.table| <= k < |last.table| ==> Arrives(last.table[k], world.seen))
  }

  ghost predicate Inv(world: World) {
    && world.seen <= world.table
    && (forall k :: |world.seen| <= k < |world.table| ==> Arrives(world.table[k], world.seen))
    && (forall r :: r in world.seen ==> r.since.Text? && r.since.value != "")
    && AllPushed(world.poller.pushes) == world.seen
    && IsMax(world.poller.lastSeen, world.seen)
    && (forall k :: 0 <= k < |world.poller.pushes| ==> world.poller.pushes[k].rows != [])
  }

  lemma EmptyIsLeast(v: string)
    ensures v != "" <==> Less("", v)
    ensures !Less(v, "")
  {}

  /** What arrived since the last poll, and what is known of it and of the rows seen before. */
  lemma Arrived(world: World) returns (arrived: seq<Row>)
    requires Inv(world)
    ensures world.table == world.seen + arrived
    ensures forall k :: 0 <= k < |arrived| ==> Arrives(arrived[k], world.seen)
    ensures forall r :: r in world.table ==> r.since.Text? && r.since.value != ""
  {
    hide Less, AllPushed, IsMax;
    arrived := world.table[|world.seen|..];
    assert world.table == world.seen + arrived;
    forall k | 0 <= k < |arrived| ensures Arrives(arrived[k], world.seen) {
      assert arrived[k] == world.table[|world.seen| + k];
    }
  }

  lemma ArrivalsExceed(lastSeen: string, seen: seq<Row>, arrived: seq<Row>)
    requires IsMax(lastSeen, seen) && lastSeen != ""
    requires forall k :: 0 <= k < |arrived| ==> Arrives(arrived[k], seen)
    ensures forall k :: 0 <= k < |arrived| ==> arrived[k].since.Text? && Less(lastSeen, arrived[k].since.value)
  {
    hide Less;
    var s :| s in seen && ValueOf(s) == Some(lastSeen);
    forall k | 0 <= k < |arrived| ensures arrived[k].since.Text? && Less(lastSeen, arrived[k].since.value) {
      assert Arrives(arrived[k], seen);
    }
  }

  lemma NothingSeen(seen: seq<Row>)
    requires IsMax("", seen) && forall r :: r in seen ==> r.since.Text? && r.since.value != ""
    ensures seen == []
  {
    if seen != [] {
      assert seen[0] in seen;
      EmptyIsLeast(seen[0].since.value);
    }
  }

  /** With growing results, the answer to a poll is exactly what arrived since the last one. */
  lemma AnswerIsArrivals(w: Widget, world: World) returns (arrived: seq<Row>)
    requires w.incremental && Inv(world)
    ensures && world.table == world.seen + arrived
            && Answer(w, QueryFor(w, world.poller.lastSeen), world.table) == arrived
            && (forall r :: r in world.table ==> r.since.Text? && r.since.value != "")
  {
    arrived := Arrived(world);
    hide NewerRows, MaxSince, Less, AllPushed, Arrives, IsMax, Answer, QueryFor;
    if world.poller.lastSeen == "" {
      NothingSeen(world.seen);
    } else {
      ArrivalsExceed(world.poller.lastSeen, world.seen, arrived);
    }
    PollReturnsArrivalsExactly(w, world.poller.lastSeen, world.seen, arrived);
  }

  lemma PollKeeps(w: Widget, world: World, accepted: bool)
    requires w.incremental && Inv(world)
    ensures Inv(Step(w, world, PollEvent(accepted)))
  {
    hide Answer, MaxSince, IsMax, AllPushed, Delivered, Arrives, QueryFor, Poll;
    var arrived := AnswerIsArrivals(w, world);
    var p := world.poller;
    MaxSinceIsMax(world.seen, arrived, p.lastSeen);
    PollWith(w, p, world.table, accepted, arrived);
    PushSnoc(p.pushes, Push(arrived, accepted));
    assert arrived == [] ==> world.seen + arrived == world.seen;
    JustPolled(world.table, Poll(w, p, world.table, accepted));
  }

  lemma JustPolled(table: seq<Row>, p: Poller)
    requires forall r :: r in table ==> r.since.Text? && r.since.value != ""
    requires AllPushed(p.pushes) == table && IsMax(p.lastSeen, table)
    requires forall k :: 0 <= k < |p.pushes| ==> p.pushes[k].rows != []
    ensures Inv(World(table, table, p))
  {}

  lemma PollWith(w: Widget, p: Poller, table: seq<Row>, accepted: bool, rows: seq<Row>)
    requires w.incremental && Answer(w, QueryFor(w, p.lastSeen), table) == rows
    ensures Poll(w, p, table, accepted)
         == Poller(MaxSince(rows, p.lastSeen), if rows == [] then p.pushes else p.pushes + [Push(rows, accepted)])
  {}

  lemma {:induction false} RunInv(w: Widget, events: seq<Event>)
    requires w.incremental && Grows(w, events)
    ensures Inv(Run(w, events))
    decreases |events|
  {
    if events != [] {
      var front, last := events[..|events| - 1], events[|events| - 1];
      RunInv(w, front);
      var world := Run(w, front);
      hide Run;
      if last.PollEvent? {
        PollKeeps(w, world, last.accepted);
      }
    }
  }

  /**
   * If new rows always exceed every value seen at an earlier poll, what was pushed is the full result of
   * the last successful poll, each row once and in order, however many polls failed in between.
   */
  lemma IncrementalIsFullRefresh(w: Widget, events: seq<Event>)
    requires w.incremental && Grows(w, events)
    ensures AllPushed(Run(w, events).poller.pushes) == Run(w, events).seen
  {
    RunInv(w, events);
  }

  lemma {:induction false} DeliveredLength(pushes: seq<Push>)
    requires forall k :: 0 <= k < |pushes| ==> pushes[k].rows != []
    ensures |Delivered(pushes)| <= |AllPushed(pushes)|
    ensures Delivered(pushes) == AllPushed(pushes) <==> forall k :: 0 <= k < |pushes| ==> pushes[k].accepted
    ensures (exists k :: 0 <= k < |pushes| && !pushes[k].accepted) ==> |Delivered(pushes)| < |AllPushed(pushes)|
  {
    if pushes != [] {
      var front, last := pushes[..|pushes| - 1], pushes[|pushes| - 1];
      DeliveredLength(front);
      if forall k :: 0 <= k < |pushes| ==> pushes[k].accepted {
        assert forall k :: 0 <= k < |front| ==> front[k].accepted;
      } else {
        var k :| 0 <= k < |pushes| && !pushes[k].accepted;
        if k < |front| {
          assert !front[k].accepted;
        }
      }
    }
  }

  /**
   * `lastSeen` advances whether or not the hub accepts the push, so the client has the full result of
   * the last successful poll if and only if no push was ever rejected.
   */
  lemma DeliveredExactly(w: Widget, events: seq<Event>)
    requires w.incremental && Grows(w, events)
    ensures var world := Run(w, events);
            Delivered(world.poller.pushes) == world.seen
            <==> forall k :: 0 <= k < |world.poller.pushes| ==> world.poller.pushes[k].accepted
  {
    RunInv(w, events);
    hide Run;
    DeliveredLength(Run(w, events).poller.pushes);
  }

  /** Without incremental mode every successful poll pushes the full result. */
  lemma {:induction false} FullRefresh(w: Widget, events: seq<Event>)
    requires !w.incremental
    ensures var world := Run(w, events);
            && world.poller.lastSeen == ""
            && (world.poller.pushes != [] ==> world.poller.pushes[|world.poller.pushes| - 1].rows == world.seen)
            && (world.poller.pushes == [] ==> world.seen == [])
  {
    if events != [] {
      FullRefresh(w, events[..|events| - 1]);
    }
  }
}
