/**
 * The whole delivery path as one state machine: the agent's log and drain loop, an unreliable call to
 * the receiver, the receiver's key set, the sink and the dead letter file. Records survive lost
 * requests, lost replies, crashes of the agent between any two steps and restarts of the receiver.
 */
module Pipeline {
  import opened Wrappers
  import opened Framing
  import opened WalModel
  import Dedup
  import opened ReceiverModel
  import Shipping

  datatype Config = Config(env: Env, agentId: string, dataset: string, batchSize: nat, maxEntries: nat) {
    function ChunkSize(): (n: nat)
      ensures n >= 1 && n >= batchSize && (n == 1 || n == batchSize)
    {
      if batchSize >= 1 then batchSize else 1
    }

    function RequestFor(rs: seq<Record>): Request {
      Request(agentId, dataset, Shipping.Payload(env.zstd, rs))
    }

    function KeyFor(rs: seq<Record>): nat { Key(env, RequestFor(rs)) }
  }

  /** Where the agent's loop is: between events, before shipping the next chunk, or before acking it. */
  datatype Phase =
    | Idle
    | Draining(rest: seq<WalEntry>)
    | Shipped(chunk: seq<WalEntry>, rest: seq<WalEntry>)

  /**
   * The last five fields are history: what the log stands for (records compacted away, records acked,
   * records to ship), the records of all batches whose shipping was reported successful since the log
   * was last opened, how many records were acked when it was, and the valid records of this agent's
   * batches for which a sink write failed.
   */
  datatype System = System(
    wal: State, phase: Phase, receiver: Receiver,
    gone: seq<Record>, contents: Contents, shipped: seq<Record>, openedAt: nat, failed: set<Record>) {
    function Acked(): seq<Record> { gone + contents.done }
  }

  datatype Outcome = RequestLost | Handled(sinkOk: bool, now: nat, replyArrives: bool)

  datatype Event =
    | AppendEvent(data: Record)
    | TickEvent
    | ShipEvent(outcome: Outcome)
    | AckEvent
    | CrashEvent
    | CrashInAckEvent
    | CompactEvent
    | ReceiverRestartEvent
    | ForeignEvent(req: Request, sinkOk: bool, now: nat)

  function NextChunk(cfg: Config, rest: seq<WalEntry>): (n: nat)
    requires rest != []
    ensures 1 <= n <= |rest|
  {
    if cfg.ChunkSize() <= |rest| then cfg.ChunkSize() else |rest|
  }

  predicate Enabled(cfg: Config, s: System, e: Event) {
    match e
    case AppendEvent(data) => s.phase.Idle? && WalModel.Enabled(s.wal, AppendOp(data))
    case TickEvent => s.phase.Idle?
    case ShipEvent(_) => s.phase.Draining? && s.phase.rest != []
    case AckEvent => s.phase.Shipped? && s.phase.chunk != []
    case CrashEvent => true
    case CrashInAckEvent => s.phase.Shipped?
    case CompactEvent => s.phase.Idle?
    case ReceiverRestartEvent => true
    case ForeignEvent(_, _, _) => true
  }

  /** The valid records of a batch of this agent that the sink has just refused. */
  function Refused(cfg: Config, req: Request, reply: Reply): set<Record> {
    match DecodeBatch(cfg.env, req.payload)
    case Ok(rs) =>
      if reply.message.SinkFailed? && req.agentId == cfg.agentId && req.dataset == cfg.dataset
      then set r | r in rs && (cfg.env.classify)(r).JsonObject?
      else {}
    case Err(_) => {}
  }

  function Serve(cfg: Config, s: System, req: Request, sinkOk: bool, now: nat): (System, Reply) {
    var (receiver, reply) := ShipBatch(cfg.env, cfg.maxEntries, s.receiver, req, sinkOk, now);
    (s.(receiver := receiver, failed := s.failed + Refused(cfg, req, reply)), reply)
  }

  function AfterRest(rest: seq<WalEntry>): Phase { if rest == [] then Idle else Draining(rest) }

  function Step(cfg: Config, s: System, e: Event): System
    requires Enabled(cfg, s, e)
  {
    match e
    case AppendEvent(data) =>
      s.(wal := Append(s.wal, data), contents := Effect(s.contents, AppendOp(data)))
    case TickEvent =>
      (match Pending(s.wal)
       case Ok(es) => s.(phase := AfterRest(es))
       case Err(_) => s)
    case ShipEvent(RequestLost) => s.(phase := Idle)
    case ShipEvent(Handled(sinkOk, now, replyArrives)) =>
      var n := NextChunk(cfg, s.phase.rest);
      var chunk := s.phase.rest[..n];
      var (s', reply) := Serve(cfg, s, cfg.RequestFor(Data(chunk)), sinkOk, now);
      if replyArrives && reply.accepted
      then s'.(phase := Shipped(chunk, s.phase.rest[n..]), shipped := s.shipped + Data(chunk))
      else s'.(phase := Idle)
    case AckEvent =>
      var n := |s.phase.chunk|;
      s.(wal := Ack(s.wal, s.phase.chunk[n - 1].offset), phase := AfterRest(s.phase.rest),
         contents := Effect(s.contents, AckOp(n - 1)))
    case CrashEvent =>
      s.(wal := Reopen(s.wal), phase := Idle, shipped := [], openedAt := |s.Acked()|)
    case CrashInAckEvent =>
      s.(wal := CrashInAck(s.wal), phase := Idle, contents := Effect(s.contents, CrashInAckOp),
         shipped := [], openedAt := |s.gone|)
    case CompactEvent =>
      s.(wal := Compact(s.wal), gone := s.gone + s.contents.done, contents := Effect(s.contents, CompactOp))
    case ReceiverRestartEvent => s.(receiver := Restart(s.receiver))
    case ForeignEvent(req, sinkOk, now) => Serve(cfg, s, req, sinkOk, now).0
  }

  function Initial(): System {
    System(Open([], None), Idle, Receiver({}, 0, [], []), [], Contents([], []), [], 0, {})
  }

  /** The state after these events, if each was possible in its turn. */
  function Run(cfg: Config, events: seq<Event>): Option<System> {
    if events == [] then Some(Initial())
    else
      var last := events[|events| - 1];
      match Run(cfg, events[..|events| - 1])
      case Some(s) => if Enabled(cfg, s, last) then Some(Step(cfg, s, last)) else None
      case None => None
  }

  /** The agent may crash, the receiver restart and another client send a batch after any events whatever. */
  lemma FailuresAnytime(cfg: Config, events: seq<Event>, e: Event)
    requires Run(cfg, events).Some? && (e.CrashEvent? || e.ReceiverRestartEvent? || e.ForeignEvent?)
    ensures Run(cfg, events + [e]) == Some(Step(cfg, Run(cfg, events).value, e))
  {
    assert (events + [e])[..|events|] == events;
  }

  /** Everything the agent was given to deliver, in order. */
  function Appended(events: seq<Event>): seq<Record> {
    if events == [] then []
    else
      var last := events[|events| - 1];
      Appended(events[..|events| - 1]) + if last.AppendEvent? then [last.data] else []
  }

  // ---------------------------------------------------------------- the invariant

  /** The record's content reached the sink or the dead letter file, or was in a batch whose write failed. */
  ghost predicate Covered(cfg: Config, s: System, r: Record) {
    Delivered(s.receiver, cfg.agentId, cfg.dataset, r) || r in s.failed
  }

  ghost predicate AllCovered(cfg: Config, s: System, rs: seq<Record>) {
    forall i :: 0 <= i < |rs| ==> Covered(cfg, s, rs[i])
  }

  /** A remembered key of this agent stands for a batch whose records are covered. */
  ghost predicate KeysCovered(cfg: Config, s: System) {
    forall rs: seq<Record> :: AllShort(rs) && cfg.KeyFor(rs) in s.receiver.seen ==> AllCovered(cfg, s, rs)
  }

  function InFlight(s: System): seq<Record> {
    if s.phase.Shipped? then Data(s.phase.chunk) else []
  }

  ghost predicate PhaseOk(cfg: Config, s: System) {
    match s.phase
    case Idle => true
    case Draining(rest) => rest == Entries(s.wal.ackOffset, s.contents.todo) && rest != []
    case Shipped(chunk, rest) =>
      && 1 <= |chunk| <= cfg.ChunkSize()
      && chunk + rest == Entries(s.wal.ackOffset, s.contents.todo)
      && AllCovered(cfg, s, Data(chunk))
  }

  /** What was shipped since the log was opened is what was acked since, and the chunk in flight. */
  ghost predicate ShippedOnce(s: System) {
    s.openedAt <= |s.Acked()| && s.shipped == s.Acked()[s.openedAt..] + InFlight(s)
  }

  ghost predicate Inv(cfg: Config, s: System) {
    && Represents(s.wal, s.contents)
    && PhaseOk(cfg, s)
    && KeysCovered(cfg, s)
    && AllCovered(cfg, s, s.Acked())
    && ShippedOnce(s)
  }

  // ---------------------------------------------------------------- serving a batch

  /** Serving any request of any client keeps everything covered that was. */
  lemma ServeKeeps(cfg: Config, s: System, req: Request, sinkOk: bool, now: nat, rs: seq<Record>)
    requires AllCovered(cfg, s, rs)
    ensures AllCovered(cfg, Serve(cfg, s, req, sinkOk, now).0, rs)
  {
    forall i | 0 <= i < |rs| ensures Covered(cfg, Serve(cfg, s, req, sinkOk, now).0, rs[i]) {
      assert Covered(cfg, s, rs[i]);
      if rs[i] !in s.failed {
        DeliveredStays(cfg.env, cfg.maxEntries, s.receiver, req, sinkOk, now, cfg.agentId, cfg.dataset, rs[i]);
      }
    }
  }

  lemma OwnBatchDecodes(cfg: Config, rs: seq<Record>)
    requires cfg.env.Lossless() && AllShort(rs)
    ensures DecodeBatch(cfg.env, cfg.RequestFor(rs).payload) == Ok(rs)
  {
    RoundTripExactly(rs);
  }

  /** Once the key of one of this agent's batches is remembered, the records of the batch are covered. */
  lemma ServeCovers(cfg: Config, s: System, req: Request, sinkOk: bool, now: nat, rs: seq<Record>)
    requires cfg.env.Lossless() && cfg.env.CollisionFree() && KeysCovered(cfg, s)
    requires AllShort(rs) && cfg.KeyFor(rs) in Serve(cfg, s, req, sinkOk, now).0.receiver.seen
    ensures AllCovered(cfg, Serve(cfg, s, req, sinkOk, now).0, rs)
  {
    if cfg.KeyFor(rs) in s.receiver.seen {
      ServeKeeps(cfg, s, req, sinkOk, now, rs);
    } else {
      assert Key(cfg.env, req) == cfg.KeyFor(rs) by {
        SeenGrowsByKey(cfg, s, req, sinkOk, now);
      }
      assert req == cfg.RequestFor(rs);
      OwnBatchDecodes(cfg, rs);
      forall k | 0 <= k < |rs| ensures Covered(cfg, Serve(cfg, s, req, sinkOk, now).0, rs[k]) {
        NewBatchCovered(cfg, s, rs, sinkOk, now, k);
      }
    }
  }

  lemma SeenGrowsByKey(cfg: Config, s: System, req: Request, sinkOk: bool, now: nat)
    ensures Serve(cfg, s, req, sinkOk, now).0.receiver.seen <= s.receiver.seen + {Key(cfg.env, req)}
    ensures Serve(cfg, s, req, sinkOk, now).1.accepted ==>
              Key(cfg.env, req) in Serve(cfg, s, req, sinkOk, now).0.receiver.seen
  {}

  lemma NewBatchCovered(cfg: Config, s: System, rs: seq<Record>, sinkOk: bool, now: nat, k: nat)
    requires cfg.KeyFor(rs) !in s.receiver.seen && k < |rs|
    requires DecodeBatch(cfg.env, cfg.RequestFor(rs).payload) == Ok(rs)
    ensures Covered(cfg, Serve(cfg, s, cfg.RequestFor(rs), sinkOk, now).0, rs[k])
  {
    hide Rows, Rejects, Decode;
    var req := cfg.RequestFor(rs);
    FirstAttemptDelivers(cfg.env, cfg.maxEntries, s.receiver, req, sinkOk, now, k);
    if (cfg.env.classify)(rs[k]).JsonObject? && !sinkOk {
      var i := RowsHold(cfg.env, req, now, rs, k);
      assert rs[k] in Serve(cfg, s, req, sinkOk, now).0.failed;
    }
  }

  lemma ServeInv(cfg: Config, s: System, req: Request, sinkOk: bool, now: nat)
    requires cfg.env.Lossless() && cfg.env.CollisionFree() && Inv(cfg, s)
    ensures Inv(cfg, Serve(cfg, s, req, sinkOk, now).0)
  {
    hide Represents, Covered, AllCovered, ReceiverModel.ShipBatch, Refused, Entries;
    var s' := Serve(cfg, s, req, sinkOk, now).0;
    forall rs: seq<Record> | AllShort(rs) && cfg.KeyFor(rs) in s'.receiver.seen ensures AllCovered(cfg, s', rs) {
      ServeCovers(cfg, s, req, sinkOk, now, rs);
    }
    ServeKeeps(cfg, s, req, sinkOk, now, s.Acked());
    if s.phase.Shipped? {
      ServeKeeps(cfg, s, req, sinkOk, now, Data(s.phase.chunk));
    }
  }

  // ---------------------------------------------------------------- every step keeps the invariant

  /** Events of the agent that leave the receiver alone, apart from the ack. */
  lemma LogStepInv(cfg: Config, s: System, e: Event)
    requires Inv(cfg, s) && Enabled(cfg, s, e)
    requires e.AppendEvent? || e.TickEvent? || e.CrashEvent? || e.CrashInAckEvent? || e.CompactEvent?
    ensures Inv(cfg, Step(cfg, s, e))
  {
    hide Represents, Entries, Append, Reopen, CrashInAck, Compact, Covered, KeysCovered, Decode, WalModel.Enabled;
    var s' := Step(cfg, s, e);
    PendingIsTodo(s.wal, s.contents);
    SameCover(cfg, s, s');
    match e {
      case AppendEvent(data) => ApplyRepresents(s.wal, s.contents, AppendOp(data));
      case TickEvent =>
      case CrashEvent => ReopenRepresents(s.wal, s.contents);
      case CrashInAckEvent => ReopenRepresents(s.wal, s.contents);
      case CompactEvent => CompactRepresents(s.wal, s.contents);
    }
    assert AllCovered(cfg, s, s'.Acked()) by {
      assert s'.Acked() <= s.Acked();
    }
  }

  lemma AckingChunk(w: State, c: Contents, chunk: seq<WalEntry>, rest: seq<WalEntry>)
    requires Represents(w, c) && chunk != [] && chunk + rest == Entries(w.ackOffset, c.todo)
    ensures |chunk| <= |c.todo| && Data(chunk) == c.todo[..|chunk|]
    ensures Represents(Ack(w, chunk[|chunk| - 1].offset), Effect(c, AckOp(|chunk| - 1)))
    ensures rest == Entries(Ack(w, chunk[|chunk| - 1].offset).ackOffset, c.todo[|chunk|..])
  {
    hide Represents, Entries, Decode;
    var n := |chunk|;
    PendingIsTodo(w, c);
    var pending := Pending(w).value;
    AckRepresents(w, c, n - 1);
    assert pending[n - 1] == chunk[n - 1] && pending[n..] == rest;
    assert Data(pending)[..n] == Data(chunk);
  }

  lemma CoveredTogether(cfg: Config, s: System, a: seq<Record>, b: seq<Record>)
    requires AllCovered(cfg, s, a) && AllCovered(cfg, s, b)
    ensures AllCovered(cfg, s, a + b)
  {}

  lemma AckMovesOn(cfg: Config, s: System)
    requires Inv(cfg, s) && Enabled(cfg, s, AckEvent)
    ensures var s' := Step(cfg, s, AckEvent);
            && Represents(s'.wal, s'.contents) && PhaseOk(cfg, s')
            && s'.Acked() == s.Acked() + Data(s.phase.chunk)
            && InFlight(s') == [] && s'.shipped == s.shipped && s'.openedAt == s.openedAt
            && s'.receiver == s.receiver && s'.failed == s.failed
  {
    hide Represents, Entries, Ack, AllCovered, KeysCovered, Data;
    AckingChunk(s.wal, s.contents, s.phase.chunk, s.phase.rest);
    var n := |s.phase.chunk|;
    assert s.gone + (s.contents.done + s.contents.todo[..n]) == s.gone + s.contents.done + s.contents.todo[..n];
  }

  lemma AckStepInv(cfg: Config, s: System)
    requires Inv(cfg, s) && Enabled(cfg, s, AckEvent)
    ensures Inv(cfg, Step(cfg, s, AckEvent))
  {
    hide Represents, Entries, AllCovered, KeysCovered, Data;
    AckMovesOn(cfg, s);
    var s' := Step(cfg, s, AckEvent);
    var acked, sent := s.Acked(), Data(s.phase.chunk);
    CoveredTogether(cfg, s, acked, sent);
    hide Step, Enabled;
    SameCover(cfg, s, s');
    assert (acked + sent)[s.openedAt..] == acked[s.openedAt..] + sent;
    assert s'.shipped + [] == s'.shipped;
  }

  lemma ShipStepInv(cfg: Config, s: System, outcome: Outcome)
    requires cfg.env.Lossless() && cfg.env.CollisionFree()
    requires Inv(cfg, s) && Enabled(cfg, s, ShipEvent(outcome))
    ensures Inv(cfg, Step(cfg, s, ShipEvent(outcome)))
  {
    hide Represents, Entries, Covered, AllCovered, KeysCovered, Decode, Serve;
    if outcome.Handled? {
      var n := NextChunk(cfg, s.phase.rest);
      var chunk, rest := s.phase.rest[..n], s.phase.rest[n..];
      var req := cfg.RequestFor(Data(chunk));
      assert chunk + rest == s.phase.rest;
      ServeInv(cfg, s, req, outcome.sinkOk, outcome.now);
      ServeKeepsLog(cfg, s, req, outcome.sinkOk, outcome.now);
      var (s', reply) := Serve(cfg, s, req, outcome.sinkOk, outcome.now);
      if outcome.replyArrives && reply.accepted {
        ChunkIsShort(s, chunk, rest);
        SeenGrowsByKey(cfg, s, req, outcome.sinkOk, outcome.now);
        ServeCovers(cfg, s, req, outcome.sinkOk, outcome.now, Data(chunk));
      }
      SameCover(cfg, s', Step(cfg, s, ShipEvent(outcome)));
    } else {
      SameCover(cfg, s, Step(cfg, s, ShipEvent(outcome)));
    }
  }

  lemma ServeKeepsLog(cfg: Config, s: System, req: Request, sinkOk: bool, now: nat)
    ensures var s' := Serve(cfg, s, req, sinkOk, now).0;
            s' == s.(receiver := s'.receiver, failed := s'.failed)
  {}

  /** Cover only depends on the receiver and on the refused records. */
  lemma SameCover(cfg: Config, s: System, s': System)
    requires s'.receiver == s.receiver && s'.failed == s.failed
    ensures KeysCovered(cfg, s) ==> KeysCovered(cfg, s')
    ensures forall rs: seq<Record> :: AllCovered(cfg, s, rs) ==> AllCovered(cfg, s', rs)
  {}

  lemma ChunkIsShort(s: System, chunk: seq<WalEntry>, rest: seq<WalEntry>)
    requires Represents(s.wal, s.contents) && chunk + rest == Entries(s.wal.ackOffset, s.contents.todo)
    ensures AllShort(Data(chunk))
  {
    hide Frames, Entries;
    DataOfEntries(s.wal.ackOffset, s.contents.todo);
    forall i | 0 <= i < |chunk| ensures Short(Data(chunk)[i]) {
      assert Data(chunk + rest)[i] == (chunk + rest)[i].data == chunk[i].data;
    }
  }

  lemma RestartInv(cfg: Config, s: System)
    requires Inv(cfg, s)
    ensures Inv(cfg, Step(cfg, s, ReceiverRestartEvent))
  {
    hide Represents, Entries;
    var s' := Step(cfg, s, ReceiverRestartEvent);
    forall r | Covered(cfg, s, r) ensures Covered(cfg, s', r) {
      if r !in s.failed {
        DeliveredStays(cfg.env, cfg.maxEntries, s.receiver, cfg.RequestFor([]), true, 0, cfg.agentId, cfg.dataset, r);
      }
    }
  }

  lemma StepInv(cfg: Config, s: System, e: Event)
    requires cfg.env.Lossless() && cfg.env.CollisionFree() && Inv(cfg, s) && Enabled(cfg, s, e)
    ensures Inv(cfg, Step(cfg, s, e))
  {
    hide Inv, Enabled, Serve;
    match e {
      case ShipEvent(outcome) => ShipStepInv(cfg, s, outcome);
      case AckEvent => AckStepInv(cfg, s);
      case ReceiverRestartEvent => RestartInv(cfg, s);
      case ForeignEvent(req, sinkOk, now) => ServeInv(cfg, s, req, sinkOk, now);
      case _ => LogStepInv(cfg, s, e);
    }
  }

  // ---------------------------------------------------------------- the theorems, over every run

  lemma {:induction false} RunInv(cfg: Config, events: seq<Event>)
    requires cfg.env.Lossless() && cfg.env.CollisionFree() && Run(cfg, events).Some?
    ensures Inv(cfg, Run(cfg, events).value)
    ensures Appended(events) == Run(cfg, events).value.Acked() + Run(cfg, events).value.contents.todo
  {
    hide Inv, Step, Enabled;
    if events == [] {
      InitialInv(cfg);
    } else {
      var front, last := events[..|events| - 1], events[|events| - 1];
      RunInv(cfg, front);
      var s := Run(cfg, front).value;
      StepInv(cfg, s, last);
      StepAppends(cfg, s, last);
    }
  }

  lemma InitialInv(cfg: Config)
    ensures Inv(cfg, Initial())
  {
    hide Decode;
    EmptyRepresents();
  }

  /** The log forgets nothing that is not acked: steps only move records from pending to acked or back. */
  lemma StepAppends(cfg: Config, s: System, e: Event)
    requires Inv(cfg, s) && Enabled(cfg, s, e)
    ensures var s' := Step(cfg, s, e);
            s'.Acked() + s'.contents.todo
            == s.Acked() + s.contents.todo + if e.AppendEvent? then [e.data] else []
  {
    hide Step, Enabled, AllCovered, KeysCovered, Represents, Entries;
    match e {
      case AckEvent => AckAppends(cfg, s);
      case ShipEvent(_) => ServeKeepsContents(cfg, s, e);
      case ForeignEvent(_, _, _) => ServeKeepsContents(cfg, s, e);
      case AppendEvent(data) => AppendAppends(cfg, s, data);
      case CompactEvent => CompactAppends(cfg, s);
      case CrashInAckEvent => CrashInAckAppends(cfg, s);
      case _ => OthersAppend(cfg, s, e);
    }
    assert s.Acked() + s.contents.todo + [] == s.Acked() + s.contents.todo;
  }

  lemma AppendAppends(cfg: Config, s: System, data: Record)
    requires Enabled(cfg, s, AppendEvent(data))
    ensures var s' := Step(cfg, s, AppendEvent(data));
            s'.Acked() + s'.contents.todo == s.Acked() + s.contents.todo + [data]
  {
    hide Append, WalModel.Enabled;
    assert s.Acked() + (s.contents.todo + [data]) == s.Acked() + s.contents.todo + [data];
  }

  lemma CompactAppends(cfg: Config, s: System)
    requires Enabled(cfg, s, CompactEvent)
    ensures var s' := Step(cfg, s, CompactEvent);
            s'.Acked() + s'.contents.todo == s.Acked() + s.contents.todo
  {
    hide Compact;
    assert s.gone + s.contents.done + [] == s.gone + s.contents.done;
  }

  lemma CrashInAckAppends(cfg: Config, s: System)
    requires Enabled(cfg, s, CrashInAckEvent)
    ensures var s' := Step(cfg, s, CrashInAckEvent);
            s'.Acked() + s'.contents.todo == s.Acked() + s.contents.todo
  {
    hide CrashInAck;
    assert s.gone + [] == s.gone;
    assert s.gone + (s.contents.done + s.contents.todo) == s.gone + s.contents.done + s.contents.todo;
  }

  lemma OthersAppend(cfg: Config, s: System, e: Event)
    requires Enabled(cfg, s, e) && (e.TickEvent? || e.CrashEvent? || e.ReceiverRestartEvent?)
    ensures var s' := Step(cfg, s, e); s'.contents == s.contents && s'.gone == s.gone
  {
    hide Pending, Reopen, Restart;
  }

  lemma AckContents(cfg: Config, s: System)
    requires Enabled(cfg, s, AckEvent)
    ensures var s' := Step(cfg, s, AckEvent);
            s'.gone == s.gone && s'.contents == Effect(s.contents, AckOp(|s.phase.chunk| - 1))
  {
    hide Ack, Effect;
  }

  lemma MovedOver(gone: seq<Record>, done: seq<Record>, todo: seq<Record>, n: nat)
    requires n <= |todo|
    ensures gone + (done + todo[..n]) + todo[n..] == gone + done + todo
  {
    assert todo == todo[..n] + todo[n..];
  }

  lemma AckAppends(cfg: Config, s: System)
    requires Inv(cfg, s) && Enabled(cfg, s, AckEvent)
    ensures var s' := Step(cfg, s, AckEvent);
            s'.Acked() + s'.contents.todo == s.Acked() + s.contents.todo
  {
    hide Represents, Entries, AllCovered, KeysCovered, Data, Step;
    AckingChunk(s.wal, s.contents, s.phase.chunk, s.phase.rest);
    AckContents(cfg, s);
    MovedOver(s.gone, s.contents.done, s.contents.todo, |s.phase.chunk|);
  }

  lemma ServeKeepsContents(cfg: Config, s: System, e: Event)
    requires Enabled(cfg, s, e) && (e.ShipEvent? || e.ForeignEvent?)
    ensures Step(cfg, s, e).contents == s.contents && Step(cfg, s, e).gone == s.gone
  {
    hide ReceiverModel.ShipBatch, Refused;
  }

  /** What pending returns at the end of a run, as records. */
  function ToShip(s: System): seq<Record> {
    match Pending(s.wal) case Ok(es) => Data(es) case Err(_) => []
  }

  /**
   * No loss, by content. In every run, what was appended splits in two: the records still returned by
   * pending, in order, and before them the acked ones, each of which is equal to a record that has reached
   * the sink or the dead letter file or that belongs to a batch whose sink write failed.
   */
  lemma NoLoss(cfg: Config, events: seq<Event>)
    requires cfg.env.Lossless() && cfg.env.CollisionFree() && Run(cfg, events).Some?
    ensures var s := Run(cfg, events).value;
            var cut := |Appended(events)| - |ToShip(s)|;
            && Pending(s.wal).Ok? && cut >= 0
            && Appended(events)[cut..] == ToShip(s)
            && AllCovered(cfg, s, Appended(events)[..cut])
  {
    hide Represents, AllCovered, KeysCovered, PhaseOk, Decode, Entries;
    RunInv(cfg, events);
    var s := Run(cfg, events).value;
    PendingIsTodo(s.wal, s.contents);
    var cut := |s.Acked()|;
    assert Appended(events)[cut..] == s.contents.todo && Appended(events)[..cut] == s.Acked();
  }

  predicate SinkWorks(e: Event) {
    match e
    case ShipEvent(Handled(sinkOk, _, _)) => sinkOk
    case ForeignEvent(_, sinkOk, _) => sinkOk
    case _ => true
  }

  lemma {:induction false} NothingRefused(cfg: Config, events: seq<Event>)
    requires Run(cfg, events).Some? && forall i :: 0 <= i < |events| ==> SinkWorks(events[i])
    ensures Run(cfg, events).value.failed == {}
  {
    if events != [] {
      var front, last := events[..|events| - 1], events[|events| - 1];
      NothingRefused(cfg, front);
      assert SinkWorks(last);
      WorkingSinkRefusesNothing(cfg, Run(cfg, front).value, last);
    }
  }

  lemma WorkingSinkRefusesNothing(cfg: Config, s: System, e: Event)
    requires Enabled(cfg, s, e) && SinkWorks(e)
    ensures Step(cfg, s, e).failed == s.failed
  {
    hide Rows, Rejects, Decode, Data, Frames;
  }

  /** Without a failing sink write, the content of everything acked has been delivered. */
  lemma NoLossWhenSinkWorks(cfg: Config, events: seq<Event>, i: nat)
    requires cfg.env.Lossless() && cfg.env.CollisionFree() && Run(cfg, events).Some?
    requires forall k :: 0 <= k < |events| ==> SinkWorks(events[k])
    requires i < |Appended(events)| - |ToShip(Run(cfg, events).value)|
    ensures Delivered(Run(cfg, events).value.receiver, cfg.agentId, cfg.dataset, Appended(events)[i])
  {
    hide Run, Appended, ToShip, Delivered;
    NoLoss(cfg, events);
    NothingRefused(cfg, events);
    var s := Run(cfg, events).value;
    var acked := Appended(events)[..|Appended(events)| - |ToShip(s)|];
    assert Covered(cfg, s, acked[i]);
  }

  /**
   * Exactly once at the ship boundary. Since the log was last opened, the batches reported shipped are
   * the records acked since then, in append order, followed by at most one chunk that is shipped but
   * not yet acked, which is the head of what pending returns.
   */
  lemma ShippedExactlyOnce(cfg: Config, events: seq<Event>)
    requires cfg.env.Lossless() && cfg.env.CollisionFree() && Run(cfg, events).Some?
    ensures var s := Run(cfg, events).value;
            var cut := |Appended(events)| - |ToShip(s)|;
            && s.openedAt <= cut <= |Appended(events)|
            && s.shipped == Appended(events)[s.openedAt..cut] + InFlight(s)
            && |InFlight(s)| <= cfg.ChunkSize() && InFlight(s) <= ToShip(s)
  {
    hide Represents, AllCovered, KeysCovered, Decode, Entries;
    RunInv(cfg, events);
    var s := Run(cfg, events).value;
    PendingIsTodo(s.wal, s.contents);
    var cut := |s.Acked()|;
    assert Appended(events)[s.openedAt..cut] == s.Acked()[s.openedAt..];
    if s.phase.Shipped? {
      var n := |s.phase.chunk|;
      assert Data(s.phase.chunk + s.phase.rest)[..n] == Data(s.phase.chunk);
    }
  }

  /** Without a crash the log was opened once, at the start. */
  lemma {:induction false} OpenedOnce(cfg: Config, events: seq<Event>)
    requires Run(cfg, events).Some?
    requires forall i :: 0 <= i < |events| ==> !events[i].CrashEvent? && !events[i].CrashInAckEvent?
    ensures Run(cfg, events).value.openedAt == 0
  {
    hide Serve;
    if events != [] {
      OpenedOnce(cfg, events[..|events| - 1]);
      assert !events[|events| - 1].CrashEvent?;
      ServeKeepsOpening(cfg, Run(cfg, events[..|events| - 1]).value, events[|events| - 1]);
    }
  }

  lemma ServeKeepsOpening(cfg: Config, s: System, e: Event)
    requires Enabled(cfg, s, e) && !e.CrashEvent? && !e.CrashInAckEvent?
    ensures Step(cfg, s, e).openedAt == s.openedAt
  {}

  // ---------------------------------------------------------------- nothing is made up

  /** A batch sent under this agent's name for this dataset holds the record. */
  ghost predicate HasRecord(cfg: Config, req: Request, rec: Record) {
    && req.agentId == cfg.agentId && req.dataset == cfg.dataset
    && DecodeBatch(cfg.env, req.payload).Ok? && rec in DecodeBatch(cfg.env, req.payload).value
  }

  /** The record was given to the agent, or sent by another client under the same name. */
  ghost predicate Origin(cfg: Config, events: seq<Event>, rec: Record) {
    || rec in Appended(events)
    || exists j :: 0 <= j < |events| && events[j].ForeignEvent? && HasRecord(cfg, events[j].req, rec)
  }

  lemma OriginStays(cfg: Config, events: seq<Event>, rec: Record)
    requires events != [] && Origin(cfg, events[..|events| - 1], rec)
    ensures Origin(cfg, events, rec)
  {
    var front := events[..|events| - 1];
    if rec !in Appended(front) {
      var j :| 0 <= j < |front| && front[j].ForeignEvent? && HasRecord(cfg, front[j].req, rec);
      assert events[j] == front[j];
    }
  }

  lemma ServedFrom(cfg: Config, s: System, req: Request, sinkOk: bool, now: nat, rec: Record)
    requires Delivered(Serve(cfg, s, req, sinkOk, now).0.receiver, cfg.agentId, cfg.dataset, rec)
    ensures Delivered(s.receiver, cfg.agentId, cfg.dataset, rec) || HasRecord(cfg, req, rec)
  {
    DeliveredFrom(cfg.env, cfg.maxEntries, s.receiver, req, sinkOk, now, cfg.agentId, cfg.dataset, rec);
  }

  /** The agent's own batch holds records that are still to ship. */
  lemma OwnBatchIsTodo(cfg: Config, s: System, rec: Record)
    requires cfg.env.Lossless() && Inv(cfg, s) && s.phase.Draining? && s.phase.rest != []
    requires HasRecord(cfg, cfg.RequestFor(Data(s.phase.rest[..NextChunk(cfg, s.phase.rest)])), rec)
    ensures rec in s.contents.todo
  {
    hide Represents, Entries, AllCovered, KeysCovered, Decode, Frames;
    var n := NextChunk(cfg, s.phase.rest);
    var chunk, rest := s.phase.rest[..n], s.phase.rest[n..];
    assert chunk + rest == s.phase.rest;
    ChunkIsShort(s, chunk, rest);
    OwnBatchDecodes(cfg, Data(chunk));
    assert Represents(s.wal, s.contents);
    PendingIsTodo(s.wal, s.contents);
    var i :| 0 <= i < n && Data(chunk)[i] == rec;
    assert Data(s.phase.rest)[i] == rec;
  }

  /**
   * Nothing is made up: whatever was delivered for this agent and dataset is a record that was appended,
   * or one that another client sent under the same name.
   */
  lemma {:induction false} OnlyAppendedIsDelivered(cfg: Config, events: seq<Event>, rec: Record)
    requires cfg.env.Lossless() && cfg.env.CollisionFree() && Run(cfg, events).Some?
    requires Delivered(Run(cfg, events).value.receiver, cfg.agentId, cfg.dataset, rec)
    ensures Origin(cfg, events, rec)
    decreases |events|
  {
    hide Step, Enabled, Delivered, Inv, HasRecord;
    if events == [] {
      NothingDelivered(cfg, rec);
    } else {
      var front, last := events[..|events| - 1], events[|events| - 1];
      var s := Run(cfg, front).value;
      if Delivered(s.receiver, cfg.agentId, cfg.dataset, rec) {
        OnlyAppendedIsDelivered(cfg, front, rec);
        OriginStays(cfg, events, rec);
      } else {
        RunInv(cfg, front);
        NewlyDelivered(cfg, s, last, rec);
        if last.ForeignEvent? {
          assert events[|events| - 1].ForeignEvent?;
        } else {
          assert rec in Appended(front);
        }
      }
    }
  }

  lemma NothingDelivered(cfg: Config, rec: Record)
    ensures !Delivered(Initial().receiver, cfg.agentId, cfg.dataset, rec)
  {}

  /** Only a batch that is served delivers anything. */
  lemma NewlyDelivered(cfg: Config, s: System, e: Event, rec: Record)
    requires cfg.env.Lossless() && Inv(cfg, s) && Enabled(cfg, s, e)
    requires !Delivered(s.receiver, cfg.agentId, cfg.dataset, rec)
    requires Delivered(Step(cfg, s, e).receiver, cfg.agentId, cfg.dataset, rec)
    ensures if e.ForeignEvent? then HasRecord(cfg, e.req, rec) else rec in s.contents.todo
  {
    hide Inv, Serve, HasRecord, DecodeBatch, Append, Ack, Reopen, CrashInAck, Compact, Pending;
    match e {
      case ForeignEvent(req, sinkOk, now) => ServedFrom(cfg, s, req, sinkOk, now, rec);
      case ShipEvent(Handled(sinkOk, now, _)) =>
        ServedFrom(cfg, s, cfg.RequestFor(Data(s.phase.rest[..NextChunk(cfg, s.phase.rest)])), sinkOk, now, rec);
        OwnBatchIsTodo(cfg, s, rec);
      case ReceiverRestartEvent => RestartDelivers(s.receiver, cfg.agentId, cfg.dataset, rec);
      case _ =>
    }
  }

  lemma RestartDelivers(r: Receiver, agentId: string, dataset: string, rec: Record)
    ensures Delivered(Restart(r), agentId, dataset, rec) <==> Delivered(r, agentId, dataset, rec)
  {
    assert Restart(r).sink == r.sink && Restart(r).dlq == r.dlq;
  }

  // ---------------------------------------------------------------- when a retry is inserted again

  /** The batch that a tick ships first when these records are pending. */
  function FirstBatch(cfg: Config, todo: seq<Record>): seq<Record> {
    todo[..if cfg.ChunkSize() <= |todo| then cfg.ChunkSize() else |todo|]
  }

  lemma SameKeySameRecords(cfg: Config, a: seq<Record>, b: seq<Record>)
    requires cfg.env.Lossless() && cfg.env.CollisionFree() && AllShort(a) && AllShort(b)
    ensures cfg.KeyFor(a) == cfg.KeyFor(b) <==> a == b
  {
    if cfg.KeyFor(a) == cfg.KeyFor(b) {
      OwnBatchDecodes(cfg, a);
      OwnBatchDecodes(cfg, b);
      assert cfg.RequestFor(a).payload == cfg.RequestFor(b).payload;
    }
  }

  /**
   * When the reply to a batch is lost and more records are appended before the next tick, the retry has
   * the same key if and only if the batch was full or nothing was appended.
   */
  lemma RetryKeyExactly(cfg: Config, todo: seq<Record>, more: seq<Record>)
    requires cfg.env.Lossless() && cfg.env.CollisionFree() && AllShort(todo + more)
    ensures cfg.KeyFor(FirstBatch(cfg, todo + more)) == cfg.KeyFor(FirstBatch(cfg, todo))
       <==> cfg.ChunkSize() <= |todo| || more == []
  {
    var a, b := FirstBatch(cfg, todo + more), FirstBatch(cfg, todo);
    forall i | 0 <= i < |b| ensures Short(b[i]) && (i < |a| ==> a[i] == b[i]) {
      assert (todo + more)[i] == b[i];
    }
    SameKeySameRecords(cfg, a, b);
    assert |a| == |b| ==> a == b;
  }

  /**
   * A batch of this agent, retried or not, adds nothing to the sink if and only if its key is still
   * remembered or it has no valid record, as long as the sink works.
   */
  lemma InsertsExactly(cfg: Config, r: Receiver, rs: seq<Record>, now: nat)
    requires cfg.env.Lossless() && AllShort(rs)
    ensures ShipBatch(cfg.env, cfg.maxEntries, r, cfg.RequestFor(rs), true, now).0.sink == r.sink
       <==> cfg.KeyFor(rs) in r.seen || Having(cfg.env, true, rs) == []
  {
    hide Rows, Rejects, Having, Decode, Frames;
    OwnBatchDecodes(cfg, rs);
    RowsAndRejectsPartition(cfg.env, cfg.RequestFor(rs), now, rs);
    var rows := Rows(cfg.env, cfg.RequestFor(rs), now, rs);
    assert |r.sink + rows| == |r.sink| + |rows|;
  }

  /**
   * The retry after a lost reply, at any later state of the receiver: its valid records are inserted again
   * unless its key is remembered, and this is the lost batch's key exactly when that batch was full or
   * nothing was appended in between.
   */
  lemma RetryInsertsExactly(cfg: Config, later: Receiver, todo: seq<Record>, more: seq<Record>, now: nat)
    requires cfg.env.Lossless() && cfg.env.CollisionFree() && AllShort(todo + more)
    ensures var first, retry := FirstBatch(cfg, todo), FirstBatch(cfg, todo + more);
            var again := ShipBatch(cfg.env, cfg.maxEntries, later, cfg.RequestFor(retry), true, now).0;
            && (again.sink == later.sink <==> Having(cfg.env, true, retry) == [] || cfg.KeyFor(retry) in later.seen)
            && (cfg.KeyFor(retry) == cfg.KeyFor(first) <==> cfg.ChunkSize() <= |todo| || more == [])
  {
    hide DecodeBatch, ShipBatch, Having;
    var retry := FirstBatch(cfg, todo + more);
    forall i | 0 <= i < |retry| ensures Short(retry[i]) {
      assert (todo + more)[i] == retry[i];
    }
    InsertsExactly(cfg, later, retry, now);
    RetryKeyExactly(cfg, todo, more);
  }

  /** A reply is lost, a record is appended, and the next tick ships a bigger batch. */
  function RepeatingRun(r: Record, r': Record): seq<Event> {
    [AppendEvent(r), TickEvent, ShipEvent(Handled(true, 0, false)),
     AppendEvent(r'), TickEvent, ShipEvent(Handled(true, 1, true))]
  }

  lemma TwoRecordsPending(r: Record, r': Record)
    requires Short(r) && Short(r')
    ensures var w := Append(Append(Open([], None), r), r');
            Pending(w).Ok? && |Pending(w).value| == 2 && Data(Pending(w).value) == [r, r']
    ensures |Append(Open([], None), r).log| == 4 + |r|
  {
    hide Decode, Frames, Entries;
    OneRecordPending(r);
    var w, c := Append(Open([], None), r), Contents([], [r]);
    assert w.log == Frame(r) by { assert [] + Frame(r) == Frame(r); }
    FrameLength(r);
    AppendRepresents(w, c, r');
    assert [r] + [r'] == [r, r'];
    PendingIsTodo(Append(w, r'), Contents([], [r, r']));
  }

  lemma TwoBatchesServed(cfg: Config, r: Record, r': Record)
    requires cfg.env.Lossless() && cfg.env.CollisionFree() && Short(r) && Short(r')
    requires (cfg.env.classify)(r).JsonObject?
    ensures var (first, _) := ShipBatch(cfg.env, cfg.maxEntries, Receiver({}, 0, [], []), cfg.RequestFor([r]), true, 0);
            var (second, reply) := ShipBatch(cfg.env, cfg.maxEntries, first, cfg.RequestFor([r, r']), true, 1);
            && reply.accepted && |second.sink| >= 2
            && second.sink[0] == RowOf(cfg.RequestFor([r]), 0, r)
            && second.sink[1] == RowOf(cfg.RequestFor([r, r']), 1, r)
  {
    hide Decode, Frames, Rejects;
    OwnBatchDecodes(cfg, [r]);
    OwnBatchDecodes(cfg, [r, r']);
    SameKeySameRecords(cfg, [r], [r, r']);
    OneRow(cfg.env, cfg.RequestFor([r]), r);
    OneRow(cfg.env, cfg.RequestFor([r, r']), r);
    assert [r, r'][..1] == [r];
    RowsStartWith(cfg.env, cfg.RequestFor([r, r']), r, r');
  }

  lemma RowsStartWith(env: Env, req: Request, r: Record, r': Record)
    requires (env.classify)(r).JsonObject?
    ensures |Rows(env, req, 1, [r, r'])| >= 1 && Rows(env, req, 1, [r, r'])[0] == RowOf(req, 1, r)
  {
    assert [r, r'][..1] == [r] && [r][..0] == [];
    assert Rows(env, req, 1, []) == [];
    assert Rows(env, req, 1, [r]) == [RowOf(req, 1, r)];
  }

  /** After the first three events: the record was inserted, and is still pending. */
  lemma LostReply(cfg: Config, r: Record) returns (s: System)
    requires cfg.env.Lossless() && Short(r)
    ensures Run(cfg, [AppendEvent(r), TickEvent, ShipEvent(Handled(true, 0, false))]) == Some(s)
    ensures Appended([AppendEvent(r), TickEvent, ShipEvent(Handled(true, 0, false))]) == [r]
    ensures s.phase == Idle && s.wal == Append(Open([], None), r)
    ensures s.receiver == ShipBatch(cfg.env, cfg.maxEntries, Receiver({}, 0, [], []), cfg.RequestFor([r]), true, 0).0
  {
    hide Run, Appended, Decode, ShipBatch, Represents, Pending, Append, Entries, Frames, Refused;
    var e := [AppendEvent(r), TickEvent, ShipEvent(Handled(true, 0, false))];
    var es := [WalEntry(4 + |r|, r)];
    OneRecordPending(r);
    assert es[..1] == es && Data(es) == [r];
    EmptyRun(cfg);
    assert [] + [e[0]] == [e[0]] && [e[0]] + [e[1]] + [e[2]] == e;
    RunSnoc(cfg, [], e[0]);
    var s1 := Step(cfg, Initial(), e[0]);
    RunSnoc(cfg, [e[0]], e[1]);
    var s2 := Step(cfg, s1, e[1]);
    assert s2 == s1.(phase := Draining(es));
    RunSnoc(cfg, [e[0]] + [e[1]], e[2]);
    s := Step(cfg, s2, e[2]);
    assert [] + [r] == [r] && [r] + [] == [r];
  }

  /** With batches of two, any two records and no failure but the lost reply, this run inserts the first twice. */
  lemma LostReplyRepeats(cfg: Config, r: Record, r': Record)
    requires cfg.env.Lossless() && cfg.env.CollisionFree() && cfg.batchSize >= 2
    requires Short(r) && Short(r') && (cfg.env.classify)(r).JsonObject?
    ensures Run(cfg, RepeatingRun(r, r')).Some? && Appended(RepeatingRun(r, r')) == [r, r']
    ensures var sink := Run(cfg, RepeatingRun(r, r')).value.receiver.sink;
            && |sink| >= 2
            && sink[0] == RowOf(cfg.RequestFor([r]), 0, r) && sink[1] == RowOf(cfg.RequestFor([r, r']), 1, r)
  {
    hide Run, Appended, Decode, ShipBatch, Represents, Pending, Append, Entries, Frames, Refused;
    var e := RepeatingRun(r, r');
    TwoRecordsPending(r, r');
    TwoBatchesServed(cfg, r, r');
    var s3 := LostReply(cfg, r);
    var e3 := [e[0], e[1], e[2]];
    RunSnoc(cfg, e3, e[3]);
    var s4 := Step(cfg, s3, e[3]);
    RunSnoc(cfg, e3 + [e[3]], e[4]);
    var s5 := Step(cfg, s4, e[4]);
    var both := Pending(s4.wal).value;
    assert s5 == s4.(phase := Draining(both)) && both[..2] == both;
    RunSnoc(cfg, e3 + [e[3]] + [e[4]], e[5]);
    assert e3 + [e[3]] + [e[4]] + [e[5]] == e;
    assert [r] + [r'] == [r, r'] && [r, r'] + [] == [r, r'];
  }

  // ---------------------------------------------------------------- why the sink must not fail

  /** A first attempt whose sink write fails, then the retry, as the agent's drain loop makes them. */
  function LosingRun(r: Record): seq<Event> {
    [AppendEvent(r), TickEvent, ShipEvent(Handled(false, 0, true)),
     TickEvent, ShipEvent(Handled(true, 1, true)), AckEvent]
  }

  lemma RunSnoc(cfg: Config, events: seq<Event>, e: Event)
    requires Run(cfg, events).Some? && Enabled(cfg, Run(cfg, events).value, e)
    ensures Run(cfg, events + [e]) == Some(Step(cfg, Run(cfg, events).value, e))
    ensures Appended(events + [e]) == Appended(events) + if e.AppendEvent? then [e.data] else []
  {
    hide Step, Enabled;
    assert (events + [e])[..|events|] == events;
  }

  lemma OneRecordPending(r: Record)
    requires Short(r)
    ensures Pending(Append(Open([], None), r)) == Ok([WalEntry(4 + |r|, r)])
    ensures Represents(Append(Open([], None), r), Contents([], [r]))
  {
    hide Decode, Frames;
    EmptyRepresents();
    AppendRepresents(Open([], None), Contents([], []), r);
    assert [] + [r] == [r] && [r][1..] == [];
    assert Entries(0, [r]) == [WalEntry(4 + |r|, r)] + Entries(4 + |r|, []) == [WalEntry(4 + |r|, r)];
    PendingIsTodo(Append(Open([], None), r), Contents([], [r]));
  }

  lemma OneBatchTwice(cfg: Config, receiver: Receiver, r: Record)
    requires cfg.env.Lossless() && Short(r) && (cfg.env.classify)(r).JsonObject?
    requires receiver == Receiver({}, 0, [], [])
    ensures var req := cfg.RequestFor([r]);
            var (first, reply) := ShipBatch(cfg.env, cfg.maxEntries, receiver, req, false, 0);
            && reply == Reply(false, SinkFailed) && first.sink == [] && first.dlq == []
            && ShipBatch(cfg.env, cfg.maxEntries, first, req, true, 1) == (first, Reply(true, DuplicateBatch))
  {
    hide Decode, Rows, Rejects;
    OwnBatchDecodes(cfg, [r]);
    OneRow(cfg.env, cfg.RequestFor([r]), r);
  }

  lemma OneRow(env: Env, req: Request, r: Record)
    requires (env.classify)(r).JsonObject?
    ensures Rows(env, req, 0, [r]) == [RowOf(req, 0, r)] && Rejects(env, req, [r]) == []
  {
    assert [r][..0] == [];
    assert Rejects(env, req, []) == [] && Rows(env, req, 0, []) == [];
  }

  /** With any receiver and any valid record, this run ends with the record acked and never delivered. */
  lemma SinkFailureLoses(cfg: Config, r: Record)
    requires cfg.env.Lossless() && Short(r) && (cfg.env.classify)(r).JsonObject?
    ensures Run(cfg, LosingRun(r)).Some? && Appended(LosingRun(r)) == [r]
    ensures var s := Run(cfg, LosingRun(r)).value;
            && Pending(s.wal) == Ok([])
            && !Delivered(s.receiver, cfg.agentId, cfg.dataset, r)
  {
    hide Run, Appended, Decode, ShipBatch, Represents, Pending, Append, Ack, Entries, Frames, Dedup.Remember;
    var e := LosingRun(r);
    var es := [WalEntry(4 + |r|, r)];
    OneRecordPending(r);
    OneBatchTwice(cfg, Initial().receiver, r);
    assert es[..1] == es && es[1..] == [] && Data(es) == [r];
    EmptyRun(cfg);
    var e1, e3, e5 := [e[0]], [e[0], e[1], e[2]], [e[0], e[1], e[2], e[3], e[4]];
    var s0 := Initial();
    assert [] + [e[0]] == e1;
    RunSnoc(cfg, [], e[0]);
    var s1 := Step(cfg, s0, e[0]);
    RunSnoc(cfg, e1, e[1]);
    var s2 := Step(cfg, s1, e[1]);
    assert s2 == s1.(phase := Draining(es));
    assert e1 + [e[1]] + [e[2]] == e3;
    RunSnoc(cfg, e1 + [e[1]], e[2]);
    var s3 := Step(cfg, s2, e[2]);
    assert s3.phase == Idle && s3.wal == s1.wal;
    RunSnoc(cfg, e3, e[3]);
    var s4 := Step(cfg, s3, e[3]);
    assert s4 == s3.(phase := Draining(es));
    assert e3 + [e[3]] + [e[4]] == e5;
    RunSnoc(cfg, e3 + [e[3]], e[4]);
    var s5 := Step(cfg, s4, e[4]);
    assert s5.phase == Shipped(es, []) && s5.receiver == s3.receiver && s5.wal == s1.wal;
    RunSnoc(cfg, e5, e[5]);
    assert e5 + [e[5]] == e;
    LastAck(r);
  }

  lemma LastAck(r: Record)
    requires Short(r)
    ensures Pending(Ack(Append(Open([], None), r), 4 + |r|)) == Ok([])
  {
    hide Decode, Frames, Represents;
    OneRecordPending(r);
    var s, c := Append(Open([], None), r), Contents([], [r]);
    AckRepresents(s, c, 0);
    assert [r][1..] == [] && [] + [r][..1] == [r];
    PendingIsTodo(Ack(s, 4 + |r|), Contents([r], []));
  }

  lemma EmptyRun(cfg: Config)
    ensures Run(cfg, []) == Some(Initial()) && Appended([]) == []
  {}
}
