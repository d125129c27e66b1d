/**
 * The versioned registry on values: two tables, a latest definition for each dataset and one row for
 * each version. A change is planned from a read and written later; only the key (name, version)
 * stands between two clients that planned from the same version.
 */
module RegistryModel {
  import opened Wrappers
  import opened Schema

  datatype Registry = Registry(datasets: map<string, Dataset>, versions: map<(string, nat), Dataset>)

  datatype Op = CreateOp(d: Dataset, now: int) | AddOp(name: string, newColumns: seq<Column>, now: int)

  /** The dataset after appending columns, one version later. */
  function Extended(current: Dataset, newColumns: seq<Column>, now: int): Dataset {
    current.(columns := current.columns + newColumns, version := current.version + 1, updatedAt := now)
  }

  /** The read and the checks of an operation: what it wants to write. */
  function Plan(reg: Registry, op: Op): Result<Dataset, SchemaError> {
    match op
    case CreateOp(d, now) =>
      if ValidationError(d).Some? then Err(ValidationError(d).value)
      else if d.name in reg.datasets then Err(AlreadyExists(d.name))
      else Ok(d.(version := 1, createdAt := now, updatedAt := now))
    case AddOp(name, newColumns, now) =>
      if name !in reg.datasets then Err(NotFound(name))
      else
        var current := reg.datasets[name];
        var next := Extended(current, newColumns, now);
        if ValidationError(next).Some? then Err(ValidationError(next).value)
        else if CompatibilityError(current.columns, next.columns).Some?
        then Err(CompatibilityError(current.columns, next.columns).value)
        else Ok(next)
  }

  /** The transaction: upsert the latest definition and insert the version row, or nothing at all. */
  function Persist(reg: Registry, d: Dataset): (Registry, Option<SchemaError>) {
    if (d.name, d.version) in reg.versions then (reg, Some(VersionTaken(d.name, d.version)))
    else (Registry(reg.datasets[d.name := d], reg.versions[(d.name, d.version) := d]), None)
  }

  /** An operation whose read and write are not interleaved with anything. */
  function Perform(reg: Registry, op: Op): (Registry, Result<Dataset, SchemaError>) {
    match Plan(reg, op)
    case Err(e) => (reg, Err(e))
    case Ok(d) =>
      var (reg', error) := Persist(reg, d);
      (reg', if error.Some? then Err(error.value) else Ok(d))
  }

  // ---------------------------------------------------------------- many clients

  datatype Planned = Planned(op: Op, next: Dataset)

  /** The tables, and what each client has read and not yet written. */
  datatype System = System(reg: Registry, clients: map<nat, Planned>)

  datatype Event = PlanEvent(client: nat, op: Op) | PersistEvent(client: nat)

  function Step(s: System, e: Event): System {
    match e
    case PlanEvent(client, op) =>
      (match Plan(s.reg, op)
       case Ok(next) => s.(clients := s.clients[client := Planned(op, next)])
       case Err(_) => s)
    case PersistEvent(client) =>
      if client !in s.clients then s
      else System(Persist(s.reg, s.clients[client].next).0, s.clients - {client})
  }

  function Run(events: seq<Event>): System {
    if events == [] then System(Registry(map[], map[]), map[])
    else Step(Run(events[..|events| - 1]), events[|events| - 1])
  }

  // ---------------------------------------------------------------- one chain

  function Latest(reg: Registry, name: string): nat {
    if name in reg.datasets then reg.datasets[name].version else 0
  }

  /** Everything but columns, version and update time is settled at creation. */
  predicate SameSettings(a: Dataset, b: Dataset) {
    a.name == b.name && a.orderBy == b.orderBy && a.partitionBy == b.partitionBy
    && a.ttlDays == b.ttlDays && a.createdAt == b.createdAt
  }

  ghost predicate Row(reg: Registry, name: string, v: nat) {
    && (name, v) in reg.versions
    && var d := reg.versions[(name, v)]; d.name == name && d.version == v && WellFormed(d)
  }

  /** Version v + 1 only adds columns to version v. */
  ghost predicate Link(reg: Registry, name: string, v: nat) {
    && (name, v) in reg.versions && (name, v + 1) in reg.versions
    && reg.versions[(name, v)].columns <= reg.versions[(name, v + 1)].columns
    && SameSettings(reg.versions[(name, v)], reg.versions[(name, v + 1)])
  }

  /** Each dataset's versions are exactly 1 to its latest one, and each extends the one before. */
  ghost predicate OneChain(reg: Registry) {
    && (forall name, v: nat :: (name, v) in reg.versions <==> 1 <= v <= Latest(reg, name))
    && (forall name :: name in reg.datasets ==> Latest(reg, name) >= 1)
    && (forall name, v: nat :: 1 <= v <= Latest(reg, name) ==> Row(reg, name, v))
    && (forall name, v: nat :: 1 <= v < Latest(reg, name) ==> Link(reg, name, v))
    && (forall name :: name in reg.datasets ==> reg.datasets[name] == reg.versions[(name, Latest(reg, name))])
  }

  /** A plan made earlier extends a version that is still in the history, or is a first version. */
  ghost predicate PlanOk(reg: Registry, p: Planned) {
    match p.op
    case CreateOp(d, now) =>
      WellFormed(d) && p.next == d.(version := 1, createdAt := now, updatedAt := now)
    case AddOp(name, newColumns, now) =>
      && p.next.version >= 2 && WellFormed(p.next)
      && (name, p.next.version - 1) in reg.versions
      && reg.versions[(name, p.next.version - 1)].name == name
      && reg.versions[(name, p.next.version - 1)].version == p.next.version - 1
      && p.next == Extended(reg.versions[(name, p.next.version - 1)], newColumns, now)
  }

  ghost predicate Inv(s: System) {
    OneChain(s.reg) && forall c :: c in s.clients ==> PlanOk(s.reg, s.clients[c])
  }

  lemma PlanIsOk(reg: Registry, op: Op)
    requires OneChain(reg) && Plan(reg, op).Ok?
    ensures PlanOk(reg, Planned(op, Plan(reg, op).value))
    ensures Plan(reg, op).value.version == Latest(reg, Plan(reg, op).value.name) + 1
  {
    hide ValidationError, CompatibilityError, WellFormed;
    var next := Plan(reg, op).value;
    match op {
      case CreateOp(d, now) => ValidationExactly(d);
      case AddOp(name, newColumns, now) =>
        ValidationExactly(next);
        assert Row(reg, name, Latest(reg, name));
    }
  }

  /**
   * Exactly when a planned write goes through: when the version it was planned from is still the
   * latest. Any other writer is stale; it fails and changes nothing.
   */
  lemma PersistExactly(s: System, client: nat)
    requires Inv(s) && client in s.clients
    ensures var next := s.clients[client].next;
            var (reg', error) := Persist(s.reg, next);
            && (error == None <==> next.version == Latest(s.reg, next.name) + 1)
            && (error != None ==> reg' == s.reg && Step(s, PersistEvent(client)).reg == s.reg)
  {
    var p := s.clients[client];
    assert PlanOk(s.reg, p);
    hide WellFormed;
    var v := p.next.version;
    if p.op.AddOp? {
      assert (p.next.name, (v - 1) as nat) in s.reg.versions;
    }
  }

  lemma PersistExtends(reg: Registry, p: Planned)
    requires OneChain(reg) && PlanOk(reg, p) && (p.next.name, p.next.version) !in reg.versions
    ensures p.next.version == Latest(reg, p.next.name) + 1
    ensures Row(Persist(reg, p.next).0, p.next.name, p.next.version)
    ensures p.next.version >= 2 ==> Link(Persist(reg, p.next).0, p.next.name, p.next.version - 1)
  {
    hide WellFormed;
    CreatedIsWellFormed(reg, p);
    if p.op.AddOp? {
      assert (p.next.name, (p.next.version - 1) as nat) in reg.versions;
    }
  }

  lemma OldRowsKept(reg: Registry, d: Dataset, name: string, v: nat)
    requires (d.name, d.version) !in reg.versions
    ensures Row(reg, name, v) ==> Row(Persist(reg, d).0, name, v)
    ensures Link(reg, name, v) ==> Link(Persist(reg, d).0, name, v)
  {
    hide WellFormed;
  }

  lemma PersistKeepsChain(reg: Registry, p: Planned)
    requires OneChain(reg) && PlanOk(reg, p)
    ensures OneChain(Persist(reg, p.next).0)
  {
    hide Row, Link, PlanOk;
    var d := p.next;
    var reg' := Persist(reg, d).0;
    if (d.name, d.version) !in reg.versions {
      PersistExtends(reg, p);
      forall name, v: nat | 1 <= v <= Latest(reg', name) ensures Row(reg', name, v) {
        OldRowsKept(reg, d, name, v);
      }
      forall name, v: nat | 1 <= v < Latest(reg', name) ensures Link(reg', name, v) {
        OldRowsKept(reg, d, name, v);
      }
    }
  }

  lemma CreatedIsWellFormed(reg: Registry, p: Planned)
    requires PlanOk(reg, p)
    ensures WellFormed(p.next)
  {
    if p.op.CreateOp? {
      assert p.next.columns == p.op.d.columns && p.next.orderBy == p.op.d.orderBy;
    }
  }

  /** Version rows are never changed, so what a plan was made from stays in the history. */
  lemma PersistKeepsPlans(reg: Registry, d: Dataset, p: Planned)
    requires PlanOk(reg, p)
    ensures PlanOk(Persist(reg, d).0, p)
  {
    hide WellFormed;
  }

  lemma StepInv(s: System, e: Event)
    requires Inv(s)
    ensures Inv(Step(s, e))
  {
    hide OneChain, Persist, Plan, PlanOk;
    match e {
      case PlanEvent(client, op) =>
        if Plan(s.reg, op).Ok? {
          PlanIsOk(s.reg, op);
        }
      case PersistEvent(client) =>
        if client in s.clients {
          var p := s.clients[client];
          PersistKeepsChain(s.reg, p);
          forall c | c in s.clients ensures PlanOk(Persist(s.reg, p.next).0, s.clients[c]) {
            PersistKeepsPlans(s.reg, p.next, s.clients[c]);
          }
        }
    }
  }

  /** However the clients' reads and writes are interleaved, the history of each dataset is one chain. */
  lemma {:induction false} HistoryIsOneChain(events: seq<Event>)
    ensures Inv(Run(events))
  {
    hide Inv;
    if events == [] {
      EmptyInv();
    } else {
      HistoryIsOneChain(events[..|events| - 1]);
      StepInv(Run(events[..|events| - 1]), events[|events| - 1]);
    }
  }

  lemma EmptyInv()
    ensures Inv(System(Registry(map[], map[]), map[]))
  {}

  /**
   * No lost update: a write that goes through has the effect of the whole operation done at that
   * moment, on the columns as they are then, whatever happened since its read.
   */
  lemma WritesAreAtomic(events: seq<Event>, client: nat)
    requires client in Run(events).clients
    ensures var s := Run(events);
            var p := s.clients[client];
            Persist(s.reg, p.next).1 == None ==>
              Perform(s.reg, p.op) == (Step(s, PersistEvent(client)).reg, Ok(p.next))
  {
    hide ValidationError, CompatibilityError, WellFormed, Perform, Persist;
    HistoryIsOneChain(events);
    var s := Run(events);
    var p := s.clients[client];
    PersistExactly(s, client);
    hide Run;
    assert PlanOk(s.reg, p);
    if Persist(s.reg, p.next).1 == None {
      PlansAgain(s.reg, p);
      PerformsAs(s.reg, p.op, p.next);
    }
  }

  /** A plan whose base is still the latest version would be made in the same way now. */
  lemma PlansAgain(reg: Registry, p: Planned)
    requires OneChain(reg) && PlanOk(reg, p) && p.next.version == Latest(reg, p.next.name) + 1
    ensures Plan(reg, p.op) == Ok(p.next)
  {
    hide ValidationError, CompatibilityError, WellFormed;
    match p.op {
      case CreateOp(d, now) => ValidationExactly(d);
      case AddOp(name, newColumns, now) =>
        var current := reg.datasets[name];
        assert reg.versions[(name, Latest(reg, name))] == current;
        assert p.next == Extended(current, newColumns, now);
        ValidationExactly(p.next);
        ExtensionIsCompatible(current, p.next);
    }
  }

  lemma PerformsAs(reg: Registry, op: Op, d: Dataset)
    requires Plan(reg, op) == Ok(d) && Persist(reg, d).1 == None
    ensures Perform(reg, op) == (Persist(reg, d).0, Ok(d))
  {
    hide Plan, Persist;
  }

  // ---------------------------------------------------------------- what an operation does

  /** The columns can join those that a dataset has: complete, and each under a name not used yet. */
  ghost predicate CanJoin(current: seq<Column>, added: seq<Column>) {
    && (forall c :: c in added ==> c.name != "" && c.typ != "")
    && (forall c :: c in added ==> !Defined(current, c.name))
    && Distinct(added)
  }

  ghost predicate NamesApart(a: seq<Column>, b: seq<Column>) {
    forall i, j :: 0 <= i < |a| && 0 <= j < |b| ==> a[i].name != b[j].name
  }

  lemma DistinctParts(a: seq<Column>, b: seq<Column>)
    ensures Distinct(a + b) <==> Distinct(a) && Distinct(b) && NamesApart(a, b)
  {
    var all, n := a + b, |a|;
    if Distinct(all) {
      assert forall i :: 0 <= i < n ==> a[i] == all[i];
      assert forall j :: 0 <= j < |b| ==> b[j] == all[n + j];
    }
  }

  lemma ApartExactly(current: seq<Column>, added: seq<Column>)
    ensures NamesApart(current, added) <==> forall c :: c in added ==> !Defined(current, c.name)
  {
    if forall c :: c in added ==> !Defined(current, c.name) {
      forall i, j | 0 <= i < |current| && 0 <= j < |added| ensures current[i].name != added[j].name {
        assert current[i] in current && added[j] in added;
      }
    }
  }

  lemma JoinedIsDistinct(current: seq<Column>, added: seq<Column>)
    requires Distinct(current)
    ensures Distinct(current + added) <==> Distinct(added) && forall c :: c in added ==> !Defined(current, c.name)
  {
    hide Distinct, Defined, NamesApart;
    DistinctParts(current, added);
    ApartExactly(current, added);
  }

  lemma ExtendedIsWellFormed(current: Dataset, added: seq<Column>, now: int)
    requires WellFormed(current)
    ensures WellFormed(Extended(current, added, now)) <==> CanJoin(current.columns, added)
  {
    JoinedIsDistinct(current.columns, added);
    var all := current.columns + added;
    assert forall c :: c in all <==> c in current.columns || c in added;
    hide Distinct;
    forall o | Defined(current.columns, o) ensures Defined(all, o) {
      var c :| c in current.columns && c.name == o;
      assert c in all;
    }
  }

  /**
   * Exactly when adding columns succeeds, and what it does: the dataset exists and the columns can join
   * it; then the latest definition has the old columns followed by the new ones, one version later, with
   * everything else as it was. A failure changes nothing.
   */
  lemma AddColumnsExactly(reg: Registry, name: string, added: seq<Column>, now: int)
    requires OneChain(reg)
    ensures var (reg', r) := Perform(reg, AddOp(name, added, now));
            && (r.Ok? <==> name in reg.datasets && CanJoin(reg.datasets[name].columns, added))
            && (name !in reg.datasets ==> r == Err(NotFound(name)))
            && (r.Err? ==> reg' == reg)
            && (r.Ok? ==>
                  && r.value.columns == reg.datasets[name].columns + added
                  && r.value.version == reg.datasets[name].version + 1
                  && r.value.updatedAt == now && SameSettings(r.value, reg.datasets[name])
                  && reg'.datasets == reg.datasets[name := r.value]
                  && reg'.versions == reg.versions[(name, r.value.version) := r.value])
  {
    hide ValidationError, CompatibilityError, WellFormed, CanJoin;
    if name in reg.datasets {
      var current := reg.datasets[name];
      assert Row(reg, name, Latest(reg, name));
      var next := Extended(current, added, now);
      ValidationExactly(next);
      ExtendedIsWellFormed(current, added, now);
      if WellFormed(next) {
        ExtensionIsCompatible(current, next);
      }
    }
  }

  /** Exactly when creating a dataset succeeds, and what it does. A failure changes nothing. */
  lemma CreateExactly(reg: Registry, d: Dataset, now: int)
    requires OneChain(reg)
    ensures var (reg', r) := Perform(reg, CreateOp(d, now));
            && (r.Ok? <==> WellFormed(d) && d.name !in reg.datasets)
            && (WellFormed(d) && d.name in reg.datasets ==> r == Err(AlreadyExists(d.name)))
            && (r.Err? ==> reg' == reg)
            && (r.Ok? ==>
                  && r.value.name == d.name && r.value.columns == d.columns && r.value.orderBy == d.orderBy
                  && r.value.partitionBy == d.partitionBy && r.value.ttlDays == d.ttlDays
                  && r.value.version == 1 && r.value.createdAt == now && r.value.updatedAt == now
                  && reg'.datasets == reg.datasets[d.name := r.value]
                  && reg'.versions == reg.versions[(d.name, 1) := r.value])
  {
    hide ValidationError, WellFormed;
    ValidationExactly(d);
  }

  /**
   * Over every run, a write of an addition that goes through makes the latest columns those that were the
   * latest, followed by the columns the client gave, whatever happened since its read.
   */
  lemma WritesAppend(events: seq<Event>, client: nat)
    requires client in Run(events).clients && Run(events).clients[client].op.AddOp?
    ensures var s := Run(events);
            var p, s' := s.clients[client], Step(s, PersistEvent(client));
            var name := p.op.name;
            Persist(s.reg, p.next).1 == None ==>
              && name in s.reg.datasets && name in s'.reg.datasets
              && s'.reg.datasets[name].columns == s.reg.datasets[name].columns + p.op.newColumns
              && s'.reg.datasets[name].version == s.reg.datasets[name].version + 1
              && s'.reg.datasets[name].updatedAt == p.op.now
  {
    hide Run, Perform, Persist, Step, CanJoin;
    HistoryIsOneChain(events);
    var s := Run(events);
    WritesAreAtomic(events, client);
    var op := s.clients[client].op;
    AddColumnsExactly(s.reg, op.name, op.newColumns, op.now);
  }

  /**
   * Two clients that plan from the same version: the one that writes first wins, whatever it adds, and the
   * other is refused, so that its columns are not lost silently.
   */
  lemma LateWriterIsRefused(d: Dataset, a: seq<Column>, b: seq<Column>, now: int)
    requires WellFormed(d) && CanJoin(d.columns, a) && CanJoin(d.columns, b)
    ensures var planned := [PlanEvent(0, CreateOp(d, now)), PersistEvent(0),
                            PlanEvent(1, AddOp(d.name, a, now)), PlanEvent(2, AddOp(d.name, b, now))];
            var both, first := Run(planned), Run(planned + [PersistEvent(1)]);
            && 1 in both.clients && 2 in both.clients
            && Persist(both.reg, both.clients[1].next).1 == None
            && d.name in first.reg.datasets && first.reg.datasets[d.name].columns == d.columns + a
            && 2 in first.clients
            && Persist(first.reg, first.clients[2].next) == (first.reg, Some(VersionTaken(d.name, 2)))
  {
    hide ValidationError, CompatibilityError, WellFormed, CanJoin;
    var stored := d.(version := 1, createdAt := now, updatedAt := now);
    var create, write := PlanEvent(0, CreateOp(d, now)), PersistEvent(0);
    var planA, planB := PlanEvent(1, AddOp(d.name, a, now)), PlanEvent(2, AddOp(d.name, b, now));
    ValidationExactly(d);
    StoredIsWellFormed(d, stored);
    ExtensionPlans(stored, a, now);
    ExtensionPlans(stored, b, now);
    RunSnoc([], create);
    RunSnoc([create], write);
    RunSnoc([create, write], planA);
    RunSnoc([create, write, planA], planB);
    RunSnoc([create, write, planA, planB], PersistEvent(1));
    assert [] + [create] == [create] && [create] + [write] == [create, write];
    assert [create, write] + [planA] == [create, write, planA];
    assert [create, write, planA] + [planB] == [create, write, planA, planB];
  }

  lemma RunSnoc(events: seq<Event>, e: Event)
    ensures Run(events + [e]) == Step(Run(events), e)
  {
    assert (events + [e])[..|events|] == events;
  }

  lemma StoredIsWellFormed(d: Dataset, stored: Dataset)
    requires WellFormed(d) && stored.name == d.name && stored.columns == d.columns && stored.orderBy == d.orderBy
    requires stored.partitionBy == d.partitionBy && stored.ttlDays == d.ttlDays
    ensures WellFormed(stored)
  {}

  lemma ExtensionPlans(current: Dataset, added: seq<Column>, now: int)
    requires WellFormed(current) && CanJoin(current.columns, added)
    ensures var next := Extended(current, added, now);
            ValidationError(next) == None && CompatibilityError(current.columns, next.columns) == None
  {
    hide ValidationError, CompatibilityError, CanJoin;
    var next := Extended(current, added, now);
    ValidationExactly(next);
    ExtendedIsWellFormed(current, added, now);
    ExtensionIsCompatible(current, next);
  }

  lemma ExtensionIsCompatible(current: Dataset, next: Dataset)
    requires WellFormed(next) && current.columns <= next.columns
    ensures CompatibilityError(current.columns, next.columns) == None
  {
    PrefixIsCompatible(current.columns, next.columns);
  }

  /** After validation the compatibility check never rejects: adding columns fails for other reasons only. */
  lemma CompatibilityNeverRejects(current: Dataset, newColumns: seq<Column>, now: int)
    ensures var next := Extended(current, newColumns, now);
            ValidationError(next) == None ==> CompatibilityError(current.columns, next.columns) == None
  {
    hide ValidationError, CompatibilityError, WellFormed;
    var next := Extended(current, newColumns, now);
    ValidationExactly(next);
    if ValidationError(next) == None {
      ExtensionIsCompatible(current, next);
    }
  }

  /** Any earlier version is a prefix of any later one, and compatible with it. */
  lemma {:induction false} AnyPairCompatible(reg: Registry, name: string, v: nat, w: nat)
    requires OneChain(reg) && 1 <= v <= w <= Latest(reg, name)
    ensures (name, v) in reg.versions && (name, w) in reg.versions
    ensures var earlier, later := reg.versions[(name, v)], reg.versions[(name, w)];
            && earlier.columns <= later.columns && SameSettings(earlier, later)
            && CompatibilityError(earlier.columns, later.columns) == None
    decreases w - v
  {
    hide CompatibilityError;
    assert Row(reg, name, w);
    if v < w {
      AnyPairCompatible(reg, name, v, w - 1);
      assert Link(reg, name, w - 1);
    }
    ExtensionIsCompatible(reg.versions[(name, v)], reg.versions[(name, w)]);
  }
}
