/**
 * Occurrences instead of contents: which rows of the sink stand for which records of the agent. A key is
 * made of content only, so two batches of the same records share one.
 */
module PipelineRows {
  import opened Wrappers
  import opened Framing
  import W = WalModel
  import opened ReceiverModel
  import opened Pipeline

  /** The sink's rows of this agent and dataset, in order. */
  function OwnRows(cfg: Config, sink: seq<Row>): seq<Row> {
    if sink == [] then []
    else
      var last := sink[|sink| - 1];
      OwnRows(cfg, sink[..|sink| - 1])
      + if last.agentId == cfg.agentId && last.dataset == cfg.dataset then [last] else []
  }

  function RawOf(rows: seq<Row>): (r: seq<Record>)
    ensures |r| == |rows|
  {
    seq(|rows|, i requires 0 <= i < |rows| => rows[i].raw)
  }

  predicate Serves(s: System, e: Event) {
    e.ShipEvent? && e.outcome.Handled? && s.phase.Draining? && s.phase.rest != []
  }

  /** The batch that a drain sends next. */
  function Batch(cfg: Config, s: System): seq<Record>
    requires s.phase.Draining? && s.phase.rest != []
  {
    W.Data(s.phase.rest[..NextChunk(cfg, s.phase.rest)])
  }

  function Valid(cfg: Config, rs: seq<Record>): seq<Record> { Having(cfg.env, true, rs) }

  predicate Remembered(cfg: Config, s: System, rs: seq<Record>) { cfg.KeyFor(rs) in s.receiver.seen }

  /**
   * What became of the agent's batches that were handled: the rows of those whose key was not remembered
   * and whose write worked; the records of all those reported accepted; the valid records of those
   * accepted only because their key was remembered; the valid records that were inserted although their
   * batch was not reported accepted, its reply being lost; and the records accepted or acked that a crash
   * has made pending again.
   */
  datatype Books = Books(
    inserted: seq<Row>,
    accepted: seq<Record>,
    merged: seq<Record>,
    unclaimed: seq<Record>,
    released: seq<Record>)

  /** What a crash makes pending again although it had been accepted. */
  function Released(s: System, e: Event): seq<Record> {
    match e
    case CrashEvent => InFlight(s)
    case CrashInAckEvent => s.contents.done + InFlight(s)
    case _ => []
  }

  function Entered(cfg: Config, b: Books, s: System, e: Event): Books {
    if !Serves(s, e) then b.(released := b.released + Released(s, e))
    else
      var rs := Batch(cfg, s);
      var unseen := !Remembered(cfg, s, rs);
      var stored := unseen && e.outcome.sinkOk;
      var taken := !unseen || e.outcome.sinkOk || Valid(cfg, rs) == [];
      Books(
        b.inserted + (if stored then EachAsRow(cfg.RequestFor(rs), e.outcome.now, Valid(cfg, rs)) else []),
        b.accepted + (if taken && e.outcome.replyArrives then rs else []),
        b.merged + (if !unseen && e.outcome.replyArrives then Valid(cfg, rs) else []),
        b.unclaimed + (if stored && !e.outcome.replyArrives then Valid(cfg, rs) else []),
        b.released)
  }

  function BooksOf(cfg: Config, events: seq<Event>): Books {
    if events == [] then Books([], [], [], [], [])
    else
      var front, last := events[..|events| - 1], events[|events| - 1];
      match Run(cfg, front)
      case Some(s) => Entered(cfg, BooksOf(cfg, front), s, last)
      case None => BooksOf(cfg, front)
  }

  /** No other client sends under this agent's name for this dataset. */
  predicate NoForeign(cfg: Config, events: seq<Event>) {
    forall i :: 0 <= i < |events| && events[i].ForeignEvent? ==>
      events[i].req.agentId != cfg.agentId || events[i].req.dataset != cfg.dataset
  }

  // ---------------------------------------------------------------- rows

  lemma {:induction false} OwnRowsConcat(cfg: Config, a: seq<Row>, b: seq<Row>)
    ensures OwnRows(cfg, a + b) == OwnRows(cfg, a) + OwnRows(cfg, b)
    decreases |b|
  {
    if b == [] {
      assert a + b == a;
    } else {
      var n := |b| - 1;
      assert (a + b)[..|a + b| - 1] == a + b[..n];
      OwnRowsConcat(cfg, a, b[..n]);
    }
  }

  lemma {:induction false} OwnRowsAll(cfg: Config, rows: seq<Row>, own: bool)
    requires forall i :: 0 <= i < |rows| ==> (rows[i].agentId == cfg.agentId && rows[i].dataset == cfg.dataset) == own
    ensures OwnRows(cfg, rows) == if own then rows else []
  {
    if rows != [] {
      var n := |rows| - 1;
      OwnRowsAll(cfg, rows[..n], own);
      assert rows == rows[..n] + [rows[n]];
    }
  }

  /** What one handled batch adds to this agent's rows. */
  lemma OwnBatchRows(cfg: Config, r: Receiver, rs: seq<Record>, sinkOk: bool, now: nat)
    requires cfg.env.Lossless() && AllShort(rs)
    ensures var (r', reply) := ShipBatch(cfg.env, cfg.maxEntries, r, cfg.RequestFor(rs), sinkOk, now);
            && OwnRows(cfg, r'.sink) == OwnRows(cfg, r.sink)
               + (if cfg.KeyFor(rs) !in r.seen && sinkOk
                  then EachAsRow(cfg.RequestFor(rs), now, Valid(cfg, rs)) else [])
            && (reply.accepted <==> cfg.KeyFor(rs) in r.seen || sinkOk || Valid(cfg, rs) == [])
  {
    hide Rows, Rejects, Having, Decode, Frames, OwnRows;
    var req := cfg.RequestFor(rs);
    OwnBatchDecodes(cfg, rs);
    RowsAndRejectsPartition(cfg.env, req, now, rs);
    var rows := Rows(cfg.env, req, now, rs);
    OwnRowsAll(cfg, rows, true);
    OwnRowsConcat(cfg, r.sink, rows);
    assert OwnRows(cfg, r.sink) + [] == OwnRows(cfg, r.sink);
    assert |rows| == |Valid(cfg, rs)|;
  }

  lemma ForeignBatchRows(cfg: Config, r: Receiver, req: Request, sinkOk: bool, now: nat)
    requires req.agentId != cfg.agentId || req.dataset != cfg.dataset
    ensures OwnRows(cfg, ShipBatch(cfg.env, cfg.maxEntries, r, req, sinkOk, now).0.sink) == OwnRows(cfg, r.sink)
  {
    hide Rows, Rejects, Having, OwnRows, Decode;
    match DecodeBatch(cfg.env, req.payload) {
      case Err(_) =>
      case Ok(rs) =>
        RowsAndRejectsPartition(cfg.env, req, now, rs);
        var rows := Rows(cfg.env, req, now, rs);
        OwnRowsAll(cfg, rows, false);
        OwnRowsConcat(cfg, r.sink, rows);
        assert OwnRows(cfg, r.sink) + [] == OwnRows(cfg, r.sink);
    }
  }

  /** The batch of a drain consists of records that can be framed. */
  lemma BatchIsShort(cfg: Config, s: System)
    requires Inv(cfg, s) && s.phase.Draining? && s.phase.rest != []
    ensures AllShort(Batch(cfg, s))
  {
    hide AllCovered, KeysCovered, W.Represents, W.Entries;
    var n := NextChunk(cfg, s.phase.rest);
    assert s.phase.rest[..n] + s.phase.rest[n..] == s.phase.rest;
    ChunkIsShort(s, s.phase.rest[..n], s.phase.rest[n..]);
  }

  lemma ShipChanges(cfg: Config, s: System, e: Event)
    requires Enabled(cfg, s, e) && Serves(s, e)
    ensures var rs, o, s' := Batch(cfg, s), e.outcome, Step(cfg, s, e);
            var (r', reply) := ShipBatch(cfg.env, cfg.maxEntries, s.receiver, cfg.RequestFor(rs), o.sinkOk, o.now);
            && s'.receiver == r' && s'.Acked() == s.Acked() && InFlight(s) == []
            && InFlight(s') == if o.replyArrives && reply.accepted then rs else []
  {
    hide ReceiverModel.ShipBatch, Refused;
  }

  lemma OthersKeepSink(cfg: Config, s: System, e: Event)
    requires Enabled(cfg, s, e) && !Serves(s, e)
    requires e.ForeignEvent? ==> e.req.agentId != cfg.agentId || e.req.dataset != cfg.dataset
    ensures OwnRows(cfg, Step(cfg, s, e).receiver.sink) == OwnRows(cfg, s.receiver.sink)
  {
    hide ReceiverModel.ShipBatch, Refused, OwnRows, W.Pending, W.Append, W.Ack, W.Compact, W.Reopen, W.CrashInAck;
    if e.ForeignEvent? {
      ForeignBatchRows(cfg, s.receiver, e.req, e.sinkOk, e.now);
    }
  }

  /**
   * Over every run without foreign batches under this name, the agent's rows in the sink are, in order, the
   * valid records of exactly those handled batches whose key was not remembered and whose write worked.
   */
  lemma {:induction false} RowsAreInsertions(cfg: Config, events: seq<Event>)
    requires cfg.env.Lossless() && cfg.env.CollisionFree() && Run(cfg, events).Some? && NoForeign(cfg, events)
    ensures OwnRows(cfg, Run(cfg, events).value.receiver.sink) == BooksOf(cfg, events).inserted
    decreases |events|
  {
    hide Step, Enabled, Inv, OwnRows, Valid, Batch, Remembered;
    if events == [] {
      assert OwnRows(cfg, []) == [] by { OwnRowsAll(cfg, [], true); }
    } else {
      var front, e := events[..|events| - 1], events[|events| - 1];
      assert forall i :: 0 <= i < |front| ==> front[i] == events[i];
      RowsAreInsertions(cfg, front);
      RunInv(cfg, front);
      InsertedStep(cfg, BooksOf(cfg, front), Run(cfg, front).value, e);
    }
  }

  lemma InsertedStep(cfg: Config, b: Books, s: System, e: Event)
    requires cfg.env.Lossless() && Inv(cfg, s) && Enabled(cfg, s, e)
    requires e.ForeignEvent? ==> e.req.agentId != cfg.agentId || e.req.dataset != cfg.dataset
    requires OwnRows(cfg, s.receiver.sink) == b.inserted
    ensures OwnRows(cfg, Step(cfg, s, e).receiver.sink) == Entered(cfg, b, s, e).inserted
  {
    hide Step, Enabled, Inv, OwnRows, Valid, ReceiverModel.ShipBatch, Batch;
    if Serves(s, e) {
      BatchIsShort(cfg, s);
      ShipChanges(cfg, s, e);
      OwnBatchRows(cfg, s.receiver, Batch(cfg, s), e.outcome.sinkOk, e.outcome.now);
    } else {
      OthersKeepSink(cfg, s, e);
    }
  }

  // ---------------------------------------------------------------- occurrences

  lemma RawOfConcat(a: seq<Row>, b: seq<Row>)
    ensures RawOf(a + b) == RawOf(a) + RawOf(b)
  {}

  lemma RawOfRows(req: Request, now: nat, rs: seq<Record>)
    ensures RawOf(EachAsRow(req, now, rs)) == rs
  {}

  lemma {:induction false} ValidConcat(cfg: Config, a: seq<Record>, b: seq<Record>)
    ensures Valid(cfg, a + b) == Valid(cfg, a) + Valid(cfg, b)
    decreases |b|
  {
    if b == [] {
      assert a + b == a;
    } else {
      var n := |b| - 1;
      assert (a + b)[..|a + b| - 1] == a + b[..n];
      ValidConcat(cfg, a, b[..n]);
    }
  }

  /** The books balance: what was accepted or inserted unclaimed was inserted or merged. */
  ghost predicate Balance(cfg: Config, b: Books) {
    multiset(Valid(cfg, b.accepted)) + multiset(b.unclaimed) == multiset(RawOf(b.inserted)) + multiset(b.merged)
  }

  /** What an entry adds to the four sides of the account, as records. */
  lemma EntryAdds(cfg: Config, b: Books, s: System, e: Event)
    requires Serves(s, e)
    ensures var b', rs, o := Entered(cfg, b, s, e), Batch(cfg, s), e.outcome;
            var v, unseen := Valid(cfg, rs), !Remembered(cfg, s, rs);
            var taken := !unseen || o.sinkOk || v == [];
            && Valid(cfg, b'.accepted) == Valid(cfg, b.accepted) + (if taken && o.replyArrives then v else [])
            && RawOf(b'.inserted) == RawOf(b.inserted) + (if unseen && o.sinkOk then v else [])
            && b'.merged == b.merged + (if !unseen && o.replyArrives then v else [])
            && b'.unclaimed == b.unclaimed + (if unseen && o.sinkOk && !o.replyArrives then v else [])
  {
    hide Valid, RawOf, Batch, EachAsRow, Remembered;
    var rs := Batch(cfg, s);
    var rows := EachAsRow(cfg.RequestFor(rs), e.outcome.now, Valid(cfg, rs));
    RawOfConcat(b.inserted, rows);
    RawOfRows(cfg.RequestFor(rs), e.outcome.now, Valid(cfg, rs));
    ValidConcat(cfg, b.accepted, rs);
    assert b.inserted + [] == b.inserted && RawOf(b.inserted) + [] == RawOf(b.inserted);
    assert b.accepted + [] == b.accepted && Valid(cfg, b.accepted) + [] == Valid(cfg, b.accepted);
  }

  lemma BalanceStep(cfg: Config, b: Books, s: System, e: Event)
    requires Balance(cfg, b)
    ensures Balance(cfg, Entered(cfg, b, s, e))
  {
    hide Valid, RawOf, Batch, EachAsRow, Remembered, Entered;
    if Serves(s, e) {
      EntryAdds(cfg, b, s, e);
      var o, v, unseen := e.outcome, Valid(cfg, Batch(cfg, s)), !Remembered(cfg, s, Batch(cfg, s));
      Sums(Valid(cfg, b.accepted), b.unclaimed, RawOf(b.inserted), b.merged,
           if (!unseen || o.sinkOk || v == []) && o.replyArrives then v else [],
           if unseen && o.sinkOk && !o.replyArrives then v else [],
           if unseen && o.sinkOk then v else [],
           if !unseen && o.replyArrives then v else []);
    } else {
      NotEntered(cfg, b, s, e);
    }
  }

  lemma Sums<T>(a: seq<T>, u: seq<T>, i: seq<T>, m: seq<T>, a': seq<T>, u': seq<T>, i': seq<T>, m': seq<T>)
    requires multiset(a) + multiset(u) == multiset(i) + multiset(m)
    requires multiset(a') + multiset(u') == multiset(i') + multiset(m')
    ensures multiset(a + a') + multiset(u + u') == multiset(i + i') + multiset(m + m')
  {
    assert multiset(a + a') + multiset(u + u') == (multiset(a) + multiset(u)) + (multiset(a') + multiset(u'));
    assert multiset(i + i') + multiset(m + m') == (multiset(i) + multiset(m)) + (multiset(i') + multiset(m'));
  }

  lemma NotEntered(cfg: Config, b: Books, s: System, e: Event)
    requires !Serves(s, e)
    ensures Entered(cfg, b, s, e) == b.(released := b.released + Released(s, e))
  {}

  lemma {:induction false} BooksBalance(cfg: Config, events: seq<Event>)
    ensures Balance(cfg, BooksOf(cfg, events))
    decreases |events|
  {
    hide Entered, Balance;
    if events == [] {
      NothingEntered(cfg);
    } else {
      var front, last := events[..|events| - 1], events[|events| - 1];
      BooksBalance(cfg, front);
      match Run(cfg, front) {
        case Some(s) => BalanceStep(cfg, BooksOf(cfg, front), s, last);
        case None =>
      }
    }
  }

  lemma NothingEntered(cfg: Config)
    ensures Balance(cfg, Books([], [], [], [], []))
  {}

  lemma {:induction false} ValidCount(cfg: Config, rs: seq<Record>, x: Record)
    ensures multiset(Valid(cfg, rs))[x] == if (cfg.env.classify)(x).JsonObject? then multiset(rs)[x] else 0
  {
    if rs != [] {
      var n := |rs| - 1;
      ValidCount(cfg, rs[..n], x);
      assert rs == rs[..n] + [rs[n]];
    }
  }

  lemma ValidSplits(cfg: Config, all: seq<Record>, a: seq<Record>, b: seq<Record>)
    requires multiset(all) == multiset(a) + multiset(b)
    ensures multiset(Valid(cfg, all)) == multiset(Valid(cfg, a)) + multiset(Valid(cfg, b))
  {
    hide Valid;
    forall x ensures multiset(Valid(cfg, all))[x] == (multiset(Valid(cfg, a)) + multiset(Valid(cfg, b)))[x] {
      ValidCount(cfg, all, x);
      ValidCount(cfg, a, x);
      ValidCount(cfg, b, x);
      assert multiset(all)[x] == (multiset(a) + multiset(b))[x];
    }
  }

  /** What was accepted is what is acked or in flight now, and what crashes have made pending again. */
  ghost predicate AcceptedSplits(b: Books, s: System) {
    multiset(b.accepted) == multiset(s.Acked() + InFlight(s)) + multiset(b.released)
  }

  lemma ShipSplits(cfg: Config, b: Books, s: System, e: Event)
    requires cfg.env.Lossless() && Inv(cfg, s) && Enabled(cfg, s, e) && Serves(s, e) && AcceptedSplits(b, s)
    ensures AcceptedSplits(Entered(cfg, b, s, e), Step(cfg, s, e))
  {
    hide Step, Enabled, OwnRows, Valid, ReceiverModel.ShipBatch, Batch, Inv, InFlight;
    BatchIsShort(cfg, s);
    ShipChanges(cfg, s, e);
    var rs := Batch(cfg, s);
    OwnBatchRows(cfg, s.receiver, rs, e.outcome.sinkOk, e.outcome.now);
    assert s.Acked() + [] == s.Acked() && b.accepted + [] == b.accepted;
    assert multiset(s.Acked() + rs) == multiset(s.Acked()) + multiset(rs);
    assert multiset(b.accepted + rs) == multiset(b.accepted) + multiset(rs);
  }

  /** Every other event moves records between the acked ones, those in flight and those released. */
  lemma OtherSplits(cfg: Config, b: Books, s: System, e: Event)
    requires Inv(cfg, s) && Enabled(cfg, s, e) && !Serves(s, e) && AcceptedSplits(b, s)
    ensures AcceptedSplits(Entered(cfg, b, s, e), Step(cfg, s, e))
  {
    NotEntered(cfg, b, s, e);
    hide Entered;
    OtherMoves(cfg, s, e);
    var s', back := Step(cfg, s, e), Released(s, e);
    hide Step, Inv, Enabled, Released, InFlight;
    assert multiset(b.released + back) == multiset(b.released) + multiset(back);
  }

  lemma OtherMoves(cfg: Config, s: System, e: Event)
    requires Inv(cfg, s) && Enabled(cfg, s, e) && !Serves(s, e)
    ensures var s' := Step(cfg, s, e);
            multiset(s.Acked() + InFlight(s)) == multiset(s'.Acked() + InFlight(s')) + multiset(Released(s, e))
  {
    hide Inv, Step;
    match e {
      case AckEvent => AckKeepsThem(cfg, s);
      case CrashEvent => CrashReleases(cfg, s);
      case CrashInAckEvent => CrashInAckReleases(cfg, s);
      case _ => StaysPut(cfg, s, e);
    }
  }

  lemma AckKeepsThem(cfg: Config, s: System)
    requires Inv(cfg, s) && Enabled(cfg, s, AckEvent)
    ensures var s' := Step(cfg, s, AckEvent); s'.Acked() + InFlight(s') == s.Acked() + InFlight(s)
  {
    AckMovesOn(cfg, s);
    hide Inv, Step;
    assert Step(cfg, s, AckEvent).Acked() + [] == Step(cfg, s, AckEvent).Acked();
  }

  lemma CrashReleases(cfg: Config, s: System)
    ensures var s' := Step(cfg, s, CrashEvent);
            multiset(s.Acked() + InFlight(s)) == multiset(s'.Acked() + InFlight(s')) + multiset(InFlight(s))
  {
    hide W.Reopen;
    var s' := Step(cfg, s, CrashEvent);
    assert s'.Acked() == s.Acked() && InFlight(s') == [];
    hide Step, InFlight;
    assert multiset(s.Acked() + InFlight(s)) == multiset(s.Acked()) + multiset(InFlight(s));
    assert s.Acked() + [] == s.Acked();
  }

  lemma CrashInAckReleases(cfg: Config, s: System)
    requires Enabled(cfg, s, CrashInAckEvent)
    ensures var s' := Step(cfg, s, CrashInAckEvent);
            multiset(s.Acked() + InFlight(s))
            == multiset(s'.Acked() + InFlight(s')) + multiset(s.contents.done + InFlight(s))
  {
    hide W.CrashInAck;
    var s' := Step(cfg, s, CrashInAckEvent);
    assert s'.Acked() + InFlight(s') == s.gone;
    hide InFlight;
    assert s.gone + s.contents.done + InFlight(s) == s.gone + (s.contents.done + InFlight(s));
  }

  lemma StaysPut(cfg: Config, s: System, e: Event)
    requires Enabled(cfg, s, e) && !Serves(s, e)
    requires !e.AckEvent? && !e.CrashEvent? && !e.CrashInAckEvent?
    ensures Step(cfg, s, e).Acked() == s.Acked() && InFlight(Step(cfg, s, e)) == InFlight(s)
  {
    hide W.Represents, W.Entries, W.Data, ReceiverModel.ShipBatch, Refused, W.Pending, W.Append, W.Compact;
  }

  lemma {:induction false} AcceptedAccount(cfg: Config, events: seq<Event>)
    requires cfg.env.Lossless() && cfg.env.CollisionFree() && Run(cfg, events).Some?
    ensures AcceptedSplits(BooksOf(cfg, events), Run(cfg, events).value)
    decreases |events|
  {
    hide Step, Enabled, Inv, Entered, AcceptedSplits;
    if events == [] {
      NothingAccepted();
    } else {
      var front, e := events[..|events| - 1], events[|events| - 1];
      AcceptedAccount(cfg, front);
      RunInv(cfg, front);
      var s := Run(cfg, front).value;
      if Serves(s, e) {
        ShipSplits(cfg, BooksOf(cfg, front), s, e);
      } else {
        OtherSplits(cfg, BooksOf(cfg, front), s, e);
      }
    }
  }

  lemma NothingAccepted()
    ensures AcceptedSplits(Books([], [], [], [], []), Initial())
  {}

  /** Every acked occurrence of a valid record, and every one in flight, has a row of its own in the sink. */
  ghost predicate EachHasItsRow(cfg: Config, s: System) {
    multiset(Valid(cfg, s.Acked() + InFlight(s))) <= multiset(RawOf(OwnRows(cfg, s.receiver.sink)))
  }

  lemma Transfer<T>(acked: multiset<T>, spare: multiset<T>, rows: multiset<T>, merged: multiset<T>)
    requires acked + spare == rows + merged
    ensures acked <= rows <==> merged <= spare
  {
    forall x ensures acked[x] + spare[x] == rows[x] + merged[x] {
      assert (acked + spare)[x] == (rows + merged)[x];
    }
    assert acked <= rows ==> forall x :: acked[x] <= rows[x];
    assert merged <= spare ==> forall x :: merged[x] <= spare[x];
  }

  /**
   * Over every run without foreign batches under this name, each acked occurrence has its own row if and
   * only if, record by record, the occurrences accepted because their batch's key was remembered are no
   * more than those inserted while the reply was lost and those released by a crash.
   */
  lemma OccurrencesExactly(cfg: Config, events: seq<Event>)
    requires cfg.env.Lossless() && cfg.env.CollisionFree() && Run(cfg, events).Some? && NoForeign(cfg, events)
    ensures var b := BooksOf(cfg, events);
            EachHasItsRow(cfg, Run(cfg, events).value)
            <==> multiset(b.merged) <= multiset(b.unclaimed) + multiset(Valid(cfg, b.released))
  {
    hide Run, BooksOf, OwnRows, Valid, InFlight;
    RowsAreInsertions(cfg, events);
    BooksBalance(cfg, events);
    AcceptedAccount(cfg, events);
    var s, b := Run(cfg, events).value, BooksOf(cfg, events);
    var acked, released := s.Acked() + InFlight(s), b.released;
    ValidSplits(cfg, b.accepted, acked, released);
    assert multiset(Valid(cfg, acked)) + (multiset(b.unclaimed) + multiset(Valid(cfg, released)))
        == multiset(RawOf(b.inserted)) + multiset(b.merged);
    Transfer(multiset(Valid(cfg, acked)), multiset(b.unclaimed) + multiset(Valid(cfg, released)),
             multiset(RawOf(b.inserted)), multiset(b.merged));
  }

  // ---------------------------------------------------------------- runs in which no reply is lost

  predicate NoCrash(events: seq<Event>) {
    forall i :: 0 <= i < |events| ==> !events[i].CrashEvent? && !events[i].CrashInAckEvent?
  }

  predicate RepliesArrive(events: seq<Event>) {
    forall i :: 0 <= i < |events| && events[i].ShipEvent? && events[i].outcome.Handled? ==>
      events[i].outcome.replyArrives
  }

  /** The batch is new to the receiver, or has no valid record. */
  predicate IsNew(cfg: Config, s: System, e: Event) {
    Serves(s, e) ==> !Remembered(cfg, s, Batch(cfg, s)) || Valid(cfg, Batch(cfg, s)) == []
  }

  ghost predicate AllNew(cfg: Config, events: seq<Event>) {
    events == [] ||
    var front, last := events[..|events| - 1], events[|events| - 1];
    AllNew(cfg, front) && (Run(cfg, front).Some? ==> IsNew(cfg, Run(cfg, front).value, last))
  }

  lemma {:induction false} MergedNothingExactly(cfg: Config, events: seq<Event>)
    requires Run(cfg, events).Some? && RepliesArrive(events)
    requires NoCrash(events)
    ensures BooksOf(cfg, events).unclaimed == [] && BooksOf(cfg, events).released == []
    ensures BooksOf(cfg, events).merged == [] <==> AllNew(cfg, events)
    decreases |events|
  {
    hide Step, Enabled, Valid, Batch, Remembered, EachAsRow;
    if events != [] {
      var front := events[..|events| - 1];
      assert forall i :: 0 <= i < |front| ==> front[i] == events[i];
      MergedNothingExactly(cfg, front);
    }
  }

  /**
   * In a run without a crash, a lost reply or a foreign batch, every acked occurrence of a valid record, and
   * every one in flight, has its own row in the sink if and only if the key of each batch that was handled
   * was not remembered, or the batch had no valid record.
   */
  lemma OwnRowEachExactly(cfg: Config, events: seq<Event>)
    requires cfg.env.Lossless() && cfg.env.CollisionFree() && Run(cfg, events).Some?
    requires NoForeign(cfg, events) && NoCrash(events) && RepliesArrive(events)
    ensures EachHasItsRow(cfg, Run(cfg, events).value) <==> AllNew(cfg, events)
  {
    hide EachHasItsRow, BooksOf, AllNew, Run;
    OccurrencesExactly(cfg, events);
    MergedNothingExactly(cfg, events);
    var b := BooksOf(cfg, events);
    assert Valid(cfg, []) == [];
    assert |multiset(b.merged)| == |b.merged|;
  }

  // ---------------------------------------------------------------- a healthy run that merges two records

  /** The same record twice, each shipped and acked on its own; nothing fails. */
  function TwiceRun(r: Record): seq<Event> {
    [AppendEvent(r), TickEvent, ShipEvent(Handled(true, 0, true)), AckEvent,
     AppendEvent(r), TickEvent, ShipEvent(Handled(true, 1, true)), AckEvent]
  }

  lemma RunWithTodo(cfg: Config, events: seq<Event>)
    requires cfg.env.Lossless() && cfg.env.CollisionFree() && Run(cfg, events).Some?
    ensures var s := Run(cfg, events).value;
            W.Pending(s.wal) == Ok(W.Entries(s.wal.ackOffset, s.contents.todo))
  {
    hide W.Pending, W.Entries, AllCovered, KeysCovered, PhaseOk;
    RunInv(cfg, events);
    var s := Run(cfg, events).value;
    hide Run, W.Represents;
    assert W.Represents(s.wal, s.contents);
    W.PendingIsTodo(s.wal, s.contents);
  }

  /** A record appended by an idle agent with nothing to ship, and picked up by a tick. */
  lemma PickedUp(cfg: Config, events: seq<Event>, s: System, r: Record) returns (s': System)
    requires cfg.env.Lossless() && cfg.env.CollisionFree() && Short(r)
    requires Run(cfg, events) == Some(s) && s.phase == Idle && s.contents.todo == []
    requires |s.wal.log| + 4 + |r| < W.Decimal.TWO_TO_THE_64
    ensures Run(cfg, events + [AppendEvent(r)] + [TickEvent]) == Some(s')
    ensures s'.contents == W.Contents(s.contents.done, [r]) && s'.gone == s.gone
    ensures s'.wal.log == s.wal.log + Frame(r) && s'.receiver == s.receiver
    ensures s'.phase == Draining([W.WalEntry(s'.wal.ackOffset + 4 + |r|, r)])
  {
    hide Run, W.Pending, W.Entries, Frame;
    RunSnoc(cfg, events, AppendEvent(r));
    var s1 := Step(cfg, s, AppendEvent(r));
    assert [] + [r] == [r];
    RunWithTodo(cfg, events + [AppendEvent(r)]);
    OneEntry(s1.wal.ackOffset, r);
    RunSnoc(cfg, events + [AppendEvent(r)], TickEvent);
    s' := Step(cfg, s1, TickEvent);
  }

  /** The only pending record shipped and acked. */
  lemma ShippedAndAcked(cfg: Config, events: seq<Event>, s: System, r: Record, now: nat) returns (s': System)
    requires cfg.env.Lossless() && Short(r) && Run(cfg, events) == Some(s)
    requires s.contents.todo == [r] && s.phase == Draining([W.WalEntry(s.wal.ackOffset + 4 + |r|, r)])
    ensures Run(cfg, events + [ShipEvent(Handled(true, now, true))] + [AckEvent]) == Some(s')
    ensures s'.phase == Idle && s'.contents == W.Contents(s.contents.done + [r], []) && s'.gone == s.gone
    ensures s'.wal.log == s.wal.log
    ensures s'.receiver == ShipBatch(cfg.env, cfg.maxEntries, s.receiver, cfg.RequestFor([r]), true, now).0
  {
    hide Run, ShipBatch, Refused, OwnRows, Valid;
    var es := s.phase.rest;
    assert es[..1] == es && W.Data(es) == [r] && es[1..] == [];
    ShortOne(r);
    OwnBatchRows(cfg, s.receiver, [r], true, now);
    var ship := ShipEvent(Handled(true, now, true));
    RunSnoc(cfg, events, ship);
    var s1 := Step(cfg, s, ship);
    assert s1.phase == Shipped(es, []);
    RunSnoc(cfg, events + [ship], AckEvent);
    s' := Step(cfg, s1, AckEvent);
    assert [r][..1] == [r] && [r][1..] == [];
  }

  /** One record from an idle agent with nothing to ship: appended, picked up, shipped and acked. */
  lemma OneRound(cfg: Config, events: seq<Event>, s: System, r: Record, now: nat) returns (s': System)
    requires cfg.env.Lossless() && cfg.env.CollisionFree() && Short(r)
    requires Run(cfg, events) == Some(s) && s.phase == Idle && s.contents.todo == []
    requires |s.wal.log| + 4 + |r| < W.Decimal.TWO_TO_THE_64
    ensures Run(cfg, events + [AppendEvent(r), TickEvent, ShipEvent(Handled(true, now, true)), AckEvent]) == Some(s')
    ensures s'.phase == Idle && s'.contents == W.Contents(s.contents.done + [r], []) && s'.gone == s.gone
    ensures s'.wal.log == s.wal.log + Frame(r)
    ensures s'.receiver == ShipBatch(cfg.env, cfg.maxEntries, s.receiver, cfg.RequestFor([r]), true, now).0
  {
    hide Run, ShipBatch, Frame;
    var e := [AppendEvent(r), TickEvent, ShipEvent(Handled(true, now, true)), AckEvent];
    var s1 := PickedUp(cfg, events, s, r);
    s' := ShippedAndAcked(cfg, events + [AppendEvent(r)] + [TickEvent], s1, r, now);
    assert events + [e[0]] + [e[1]] + [e[2]] + [e[3]] == events + e;
  }

  lemma OneEntry(base: nat, r: Record)
    ensures W.Entries(base, [r]) == [W.WalEntry(base + 4 + |r|, r)]
  {
    assert [r][1..] == [];
    assert W.Entries(base + 4 + |r|, []) == [];
  }

  lemma ShortOne(r: Record)
    requires Short(r)
    ensures AllShort([r])
  {}

  /** Nothing fails and nothing is retried: two records are acked and the sink has one row. */
  lemma SameRecordTwice(cfg: Config, r: Record)
    requires cfg.env.Lossless() && cfg.env.CollisionFree() && Short(r) && (cfg.env.classify)(r).JsonObject?
    ensures Run(cfg, TwiceRun(r)).Some?
    ensures var s := Run(cfg, TwiceRun(r)).value;
            && s.Acked() == [r, r] && s.phase == Idle
            && s.receiver.sink == [RowOf(cfg.RequestFor([r]), 0, r)] && s.receiver.dlq == []
  {
    hide Run, Decode, ShipBatch, Frames, W.Represents, W.Entries;
    EmptyRun(cfg);
    W.EmptyRepresents();
    var round0 := [AppendEvent(r), TickEvent, ShipEvent(Handled(true, 0, true)), AckEvent];
    var round1 := [AppendEvent(r), TickEvent, ShipEvent(Handled(true, 1, true)), AckEvent];
    var s1 := OneRound(cfg, [], Initial(), r, 0);
    assert [] + round0 == round0;
    FrameLength(r);
    var s2 := OneRound(cfg, round0, s1, r, 1);
    assert round0 + round1 == TwiceRun(r);
    SecondIsDuplicate(cfg, r);
    assert [] + ([] + [r] + [r]) == [r, r];
  }

  lemma SecondIsDuplicate(cfg: Config, r: Record)
    requires cfg.env.Lossless() && Short(r) && (cfg.env.classify)(r).JsonObject?
    ensures var req := cfg.RequestFor([r]);
            var first := ShipBatch(cfg.env, cfg.maxEntries, Receiver({}, 0, [], []), req, true, 0).0;
            && first.sink == [RowOf(req, 0, r)] && first.dlq == []
            && ShipBatch(cfg.env, cfg.maxEntries, first, req, true, 1).0 == first
  {
    hide Decode, Rows, Rejects;
    ShortOne(r);
    OwnBatchDecodes(cfg, [r]);
    OneRow(cfg.env, cfg.RequestFor([r]), r);
  }
}
