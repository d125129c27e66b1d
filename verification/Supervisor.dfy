/**
 * The supervisor as a machine whose threads interleave: the caller of Start, one watcher for each
 * launched process, the caller of Stop, and the processes themselves, which may exit at any moment.
 */
module Supervisor {
  import opened Wrappers
  import opened BackoffDelay

  /**
   * A watch goroutine. Waiting holds the launch whose exit it waits for; Woken has returned from Wait
   * and has yet to read the stopping mark; Sleeping is inside the restart loop, which never reads it.
   */
  datatype Watcher = Absent | AtWait | Waiting(launch: nat) | Woken | Sleeping | Done

  /** One registration: how often its process was launched, and which of these launches have not exited. */
  datatype Unit = Unit(launches: nat, alive: set<nat>, stopping: bool, watcher: Watcher, delay: int, attempts: nat)

  datatype Launcher = Starting(i: nat) | Awaiting(i: nat) | Returned(ok: bool)

  /** The loop of Stop; `left` registrations remain, and number left - 1 is the current one. */
  datatype Stopper =
    | Idle
    | Marking(left: nat)
    | Calling(left: nat)
    | Ending(left: nat, launch: nat)
    | Joining(left: nat)

  datatype BootEvent = Launched(i: nat) | Healthy(i: nat)

  datatype HaltEvent = StopIssued(i: nat) | Joined(i: nat)

  /** `orderly` records that Start had nothing left to launch when Stop was called. */
  datatype State = State(
    units: seq<Unit>,
    launcher: Launcher,
    stopper: Stopper,
    orderly: bool,
    boot: seq<BootEvent>,
    halt: seq<HaltEvent>)

  datatype Step =
    | Launch(ok: bool)
    | Health(ok: bool)
    | Exit(i: nat, launch: nat)
    | Watch(i: nat, ok: bool)
    | StopBegin
    | StopStep(cancelled: bool)

  const FRESH := Unit(0, {}, false, Absent, 0, 0)

  function StartFrom(n: nat, i: nat): Launcher {
    if i < n then Starting(i) else Returned(true)
  }

  function Init(n: nat): State {
    State(seq(n, _ => FRESH), StartFrom(n, 0), Idle, false, [], [])
  }

  // ---------------------------------------------------------------- one registration

  /** A launch ends no other one. */
  function Launch1(u: Unit): (u': Unit)
    ensures u.alive <= u'.alive && u'.launches == u.launches + 1 && u'.launches in u'.alive
  {
    u.(launches := u.launches + 1, alive := u.alive + {u.launches + 1}, watcher := AtWait)
  }

  function Sleep(b: Backoff, u: Unit): Unit {
    u.(watcher := Sleeping, delay := Next(b, u.delay), attempts := u.attempts + 1)
  }

  predicate CanWatch(u: Unit) {
    match u.watcher
    case Absent => false
    case Done => false
    case Waiting(launch) => launch !in u.alive
    case _ => true
  }

  /** One step of a watcher; `ok` is the outcome of a restart it attempts. */
  function Watched(b: Backoff, u: Unit, ok: bool): Unit
    requires CanWatch(u)
  {
    match u.watcher
    case AtWait => u.(watcher := Waiting(u.launches))
    case Waiting(_) => u.(watcher := Woken)
    case Woken => if u.stopping then u.(watcher := Done) else Sleep(b, u)
    case Sleeping => if ok then Launch1(u) else Sleep(b, u)
  }

  // ---------------------------------------------------------------- the whole machine

  predicate CanStop(s: State) {
    match s.stopper
    case Idle => false
    case Marking(left) => 0 < left <= |s.units|
    case Calling(left) => 0 < left <= |s.units|
    case Ending(left, _) => 0 < left <= |s.units|
    case Joining(left) => 0 < left <= |s.units| && s.units[left - 1].watcher in {Absent, Done}
  }

  predicate Enabled(s: State, step: Step) {
    match step
    case Launch(_) => s.launcher.Starting? && s.launcher.i < |s.units|
    case Health(_) => s.launcher.Awaiting?
    case Exit(i, launch) => i < |s.units| && launch in s.units[i].alive
    case Watch(i, _) => i < |s.units| && CanWatch(s.units[i])
    case StopBegin => s.stopper.Idle?
    case StopStep(cancelled) =>
      && CanStop(s)
      && (s.stopper.Ending? ==> cancelled || s.stopper.launch !in s.units[s.stopper.left - 1].alive)
  }

  function StopMove(s: State): State
    requires CanStop(s)
  {
    var left := s.stopper.left;
    var u := s.units[left - 1];
    match s.stopper
    case Marking(_) => s.(units := s.units[left - 1 := u.(stopping := true)], stopper := Calling(left))
    case Calling(_) =>
      s.(halt := s.halt + [StopIssued(left - 1)],
         stopper := if u.launches == 0 then Joining(left) else Ending(left, u.launches))
    case Ending(_, _) => s.(stopper := Joining(left))
    case Joining(_) => s.(halt := s.halt + [Joined(left - 1)], stopper := Marking(left - 1))
  }

  /** Start has returned, or waits for the health of the last registration. */
  predicate NothingToLaunch(s: State) {
    s.launcher.Returned? || (s.launcher.Awaiting? && s.launcher.i + 1 == |s.units|)
  }

  function Apply(backoffs: seq<Backoff>, s: State, step: Step): State
    requires Enabled(s, step) && |backoffs| == |s.units|
  {
    match step
    case Launch(ok) =>
      var i := s.launcher.i;
      if !ok then s.(launcher := Returned(false))
      else s.(units := s.units[i := Launch1(s.units[i])], launcher := Awaiting(i), boot := s.boot + [Launched(i)])
    case Health(ok) =>
      var i := s.launcher.i;
      if !ok then s.(launcher := Returned(false))
      else s.(launcher := StartFrom(|s.units|, i + 1), boot := s.boot + [Healthy(i)])
    case Exit(i, launch) => s.(units := s.units[i := s.units[i].(alive := s.units[i].alive - {launch})])
    case Watch(i, ok) => s.(units := s.units[i := Watched(backoffs[i], s.units[i], ok)])
    case StopBegin => s.(stopper := Marking(|s.units|), orderly := NothingToLaunch(s))
    case StopStep(_) => StopMove(s)
  }

  function RunFrom(backoffs: seq<Backoff>, s: State, steps: seq<Step>): (r: Option<State>)
    requires |backoffs| == |s.units|
    ensures r.Some? ==> |r.value.units| == |s.units|
  {
    if steps == [] then Some(s)
    else
      var before := RunFrom(backoffs, s, steps[..|steps| - 1]);
      if before.Some? && Enabled(before.value, steps[|steps| - 1])
      then Some(Apply(backoffs, before.value, steps[|steps| - 1]))
      else None
  }

  /** A run from the start: every step must be possible when it is taken. */
  function Run(backoffs: seq<Backoff>, steps: seq<Step>): Option<State> {
    RunFrom(backoffs, Init(|backoffs|), steps)
  }

  // ---------------------------------------------------------------- what every run keeps

  function BootEventAt(k: nat): BootEvent {
    if k % 2 == 0 then Launched(k / 2) else Healthy(k / 2)
  }

  function HaltEventAt(n: nat, k: nat): HaltEvent
    requires k < 2 * n
  {
    if k % 2 == 0 then StopIssued(n - 1 - k / 2) else Joined(n - 1 - k / 2)
  }

  /** Launch 0, report 0 healthy, launch 1, report 1 healthy, and so on. */
  ghost predicate InBootOrder(boot: seq<BootEvent>) {
    forall k :: 0 <= k < |boot| ==> boot[k] == BootEventAt(k)
  }

  /** Stop and join n - 1, then stop and join n - 2, and so on down to 0. */
  ghost predicate InHaltOrder(n: nat, halt: seq<HaltEvent>) {
    |halt| <= 2 * n && forall k :: 0 <= k < |halt| ==> halt[k] == HaltEventAt(n, k)
  }

  /** At most the latest launch is alive, and the watcher and its delay are where they should be. */
  ghost predicate UnitOk(b: Backoff, u: Unit) {
    && u.alive <= {u.launches}
    && (u.watcher == Absent <==> u.launches == 0)
    && (u.watcher == Absent ==> u.alive == {})
    && (u.watcher.Waiting? ==> u.watcher.launch == u.launches)
    && (u.watcher in {Woken, Sleeping, Done} ==> u.alive == {})
    && (u.watcher == Done ==> u.stopping)
    && u.delay == Delay(b, u.attempts)
  }

  predicate Settled(u: Unit) { u.alive == {} && u.watcher in {Absent, Done} }

  ghost predicate BootOk(s: State) {
    && |s.boot| <= 2 * |s.units|
    && InBootOrder(s.boot)
    && (forall i :: 0 <= i < |s.units| ==> (s.units[i].launches > 0 <==> 2 * i < |s.boot|))
    && match s.launcher
       case Starting(i) => i < |s.units| && |s.boot| == 2 * i
       case Awaiting(i) => i < |s.units| && |s.boot| == 2 * i + 1
       case Returned(ok) => ok <==> |s.boot| == 2 * |s.units|
  }

  function StopsLeft(s: State): nat {
    if s.stopper.Idle? then |s.units| else s.stopper.left
  }

  ghost predicate HaltOk(s: State) {
    && StopsLeft(s) <= |s.units|
    && InHaltOrder(|s.units|, s.halt)
    && |s.halt| == 2 * (|s.units| - StopsLeft(s)) + (if s.stopper.Ending? || s.stopper.Joining? then 1 else 0)
    && (!s.stopper.Idle? && !s.stopper.Marking? ==> s.stopper.left > 0 && s.units[s.stopper.left - 1].stopping)
    && (s.orderly ==> NothingToLaunch(s))
    && (s.orderly ==> forall i :: StopsLeft(s) <= i < |s.units| ==> Settled(s.units[i]))
  }

  ghost predicate UnitsOk(backoffs: seq<Backoff>, units: seq<Unit>) {
    |backoffs| == |units| && forall i :: 0 <= i < |units| ==> UnitOk(backoffs[i], units[i])
  }

  ghost predicate Inv(backoffs: seq<Backoff>, s: State) {
    UnitsOk(backoffs, s.units) && BootOk(s) && HaltOk(s)
  }

  lemma InitInv(backoffs: seq<Backoff>)
    ensures Inv(backoffs, Init(|backoffs|))
  {}

  lemma WatchKeepsUnit(b: Backoff, u: Unit, ok: bool)
    requires UnitOk(b, u) && CanWatch(u)
    ensures UnitOk(b, Watched(b, u, ok))
    ensures u.launches > 0 && Watched(b, u, ok).launches > 0
    ensures Watched(b, u, ok).stopping == u.stopping
  {
    hide Next;
    assert Delay(b, u.attempts + 1) == Next(b, Delay(b, u.attempts));
  }

  lemma StepKeepsUnits(backoffs: seq<Backoff>, s: State, step: Step)
    requires Inv(backoffs, s) && Enabled(s, step)
    ensures UnitsOk(backoffs, Apply(backoffs, s, step).units)
  {
    hide Watched, Delay, Next;
    if step.Watch? {
      WatchKeepsUnit(backoffs[step.i], s.units[step.i], step.ok);
    }
  }

  lemma StepKeepsBoot(backoffs: seq<Backoff>, s: State, step: Step)
    requires Inv(backoffs, s) && Enabled(s, step)
    ensures BootOk(Apply(backoffs, s, step))
  {
    hide Watched, Delay, Next, HaltOk;
    if step.Watch? {
      WatchKeepsUnit(backoffs[step.i], s.units[step.i], step.ok);
    }
  }

  lemma StepKeepsHalt(backoffs: seq<Backoff>, s: State, step: Step)
    requires Inv(backoffs, s) && Enabled(s, step)
    ensures HaltOk(Apply(backoffs, s, step))
  {
    hide Watched, Delay, Next, InBootOrder;
    if step.Watch? {
      WatchKeepsUnit(backoffs[step.i], s.units[step.i], step.ok);
    }
  }

  lemma {:induction false} RunFromKeeps(backoffs: seq<Backoff>, s: State, steps: seq<Step>)
    requires Inv(backoffs, s) && |backoffs| == |s.units| && RunFrom(backoffs, s, steps).Some?
    ensures Inv(backoffs, RunFrom(backoffs, s, steps).value)
    decreases |steps|
  {
    hide Inv, Enabled, Apply;
    if steps != [] {
      var front := steps[..|steps| - 1];
      RunFromKeeps(backoffs, s, front);
      var before := RunFrom(backoffs, s, front).value;
      StepKeeps(backoffs, before, steps[|steps| - 1]);
    }
  }

  lemma StepKeeps(backoffs: seq<Backoff>, s: State, step: Step)
    requires Inv(backoffs, s) && |backoffs| == |s.units| && Enabled(s, step)
    ensures Inv(backoffs, Apply(backoffs, s, step))
  {
    StepKeepsUnits(backoffs, s, step);
    StepKeepsBoot(backoffs, s, step);
    StepKeepsHalt(backoffs, s, step);
  }

  lemma RunInv(backoffs: seq<Backoff>, steps: seq<Step>)
    requires Run(backoffs, steps).Some?
    ensures Inv(backoffs, Run(backoffs, steps).value)
  {
    InitInv(backoffs);
    RunFromKeeps(backoffs, Init(|backoffs|), steps);
  }

  // ---------------------------------------------------------------- the theorems

  /**
   * The processes ever launched are a prefix of the registration order, and each of them was launched
   * right after the one before it had reported healthy; Start returns nil only when all of them have.
   */
  lemma StartsInOrder(backoffs: seq<Backoff>, steps: seq<Step>, i: nat)
    requires Run(backoffs, steps).Some? && i < |backoffs|
    ensures var s := Run(backoffs, steps).value;
            && (s.units[i].launches > 0 <==> Launched(i) in s.boot)
            && (s.units[i].launches > 0 ==> forall j :: 0 <= j < i ==> s.units[j].launches > 0)
            && (s.units[i].launches > 0 ==> 2 * i < |s.boot| && s.boot[2 * i] == Launched(i))
            && (s.units[i].launches > 0 && i > 0 ==> s.boot[2 * i - 1] == Healthy(i - 1))
            && (s.launcher == Returned(true) <==> s.launcher.Returned? && Healthy(|backoffs| - 1) in s.boot)
  {
    hide UnitsOk, HaltOk;
    RunInv(backoffs, steps);
    var s, n := Run(backoffs, steps).value, |backoffs|;
    if 2 * i < |s.boot| {
      assert s.boot[2 * i] == BootEventAt(2 * i);
      assert i > 0 ==> s.boot[2 * i - 1] == BootEventAt(2 * i - 1);
    }
    if |s.boot| == 2 * n {
      assert s.boot[2 * n - 1] == BootEventAt(2 * n - 1);
    }
  }

  // ---------------------------------------------------------------- what never comes back

  /** A launch that has exited stays exited; a process that Start did not get to launch is never launched. */
  ghost predicate StaysDown(u: Unit, launch: nat, u': Unit) {
    && (launch <= u.launches && launch !in u.alive ==> launch <= u'.launches && launch !in u'.alive)
    && (u.launches == 0 ==> u'.launches == 0)
  }

  lemma StepKeepsLaunched(backoffs: seq<Backoff>, s: State, step: Step, i: nat)
    requires |backoffs| == |s.units| && i < |s.units| && Enabled(s, step)
    ensures s.units[i].launches <= Apply(backoffs, s, step).units[i].launches
  {
    hide Next, CanStop;
  }

  lemma StepStaysDown(backoffs: seq<Backoff>, s: State, step: Step, i: nat, launch: nat)
    requires Inv(backoffs, s) && |backoffs| == |s.units| && i < |s.units| && Enabled(s, step)
    requires s.launcher.Returned? || s.units[i].launches > 0
    ensures var s' := Apply(backoffs, s, step);
            StaysDown(s.units[i], launch, s'.units[i]) && (s.launcher.Returned? ==> s'.launcher == s.launcher)
  {
    hide Next, Delay, CanStop, HaltOk;
    assert UnitOk(backoffs[i], s.units[i]);
  }

  lemma {:induction false} RunStaysDown(backoffs: seq<Backoff>, s: State, more: seq<Step>, i: nat, launch: nat)
    requires Inv(backoffs, s) && |backoffs| == |s.units| && i < |s.units|
    requires s.launcher.Returned? || s.units[i].launches > 0
    ensures var r := RunFrom(backoffs, s, more);
            r.Some? ==>
              && StaysDown(s.units[i], launch, r.value.units[i])
              && (s.launcher.Returned? ==> r.value.launcher == s.launcher)
              && (s.units[i].launches > 0 ==> r.value.units[i].launches > 0)
    decreases |more|
  {
    hide Inv, Enabled, Apply;
    if more == [] {
    } else if RunFrom(backoffs, s, more).Some? {
      var front, last := more[..|more| - 1], more[|more| - 1];
      RunStaysDown(backoffs, s, front, i, launch);
      var before := RunFrom(backoffs, s, front).value;
      RunFromKeeps(backoffs, s, front);
      StepStaysDown(backoffs, before, last, i, launch);
      StepKeepsLaunched(backoffs, before, last, i);
    }
  }

  /**
   * A launch that fails, or a process that does not become healthy, ends Start with an error: it launches
   * nothing then, those launched before are left as they are, and those after are never launched.
   */
  lemma StartAborts(backoffs: seq<Backoff>, steps: seq<Step>, step: Step, more: seq<Step>, i: nat)
    requires Run(backoffs, steps).Some? && i < |backoffs|
    requires step in {Launch(false), Health(false)} && Enabled(Run(backoffs, steps).value, step)
    ensures var s := Run(backoffs, steps).value;
            var s' := Apply(backoffs, s, step);
            var r := RunFrom(backoffs, s', more);
            && s' == s.(launcher := Returned(false))
            && (r.Some? ==> r.value.launcher == Returned(false))
            && (r.Some? && s.units[i].launches == 0 ==> r.value.units[i].launches == 0)
  {
    RunInv(backoffs, steps);
    var s := Run(backoffs, steps).value;
    StepKeeps(backoffs, s, step);
    RunStaysDown(backoffs, Apply(backoffs, s, step), more, i, 0);
  }

  /** Stop asks a launch that the process has had. */
  ghost predicate AskedOk(s: State) {
    s.stopper.Ending? ==>
      0 < s.stopper.left <= |s.units| && 0 < s.stopper.launch <= s.units[s.stopper.left - 1].launches
  }

  lemma StepKeepsAsked(backoffs: seq<Backoff>, s: State, step: Step)
    requires |backoffs| == |s.units| && AskedOk(s) && Enabled(s, step)
    ensures AskedOk(Apply(backoffs, s, step))
  {
    hide Next;
    if s.stopper.Ending? {
      StepKeepsLaunched(backoffs, s, step, s.stopper.left - 1);
    }
  }

  lemma {:induction false} AskedIsKnown(backoffs: seq<Backoff>, steps: seq<Step>)
    requires Run(backoffs, steps).Some?
    ensures AskedOk(Run(backoffs, steps).value)
  {
    hide Enabled, Apply;
    if steps != [] {
      var front, last := steps[..|steps| - 1], steps[|steps| - 1];
      AskedIsKnown(backoffs, front);
      StepKeepsAsked(backoffs, Run(backoffs, front).value, last);
    }
  }

  /** A Stop whose context is not cancelled goes on to join only when the launch it asked has exited, for good. */
  lemma AskedHasExited(backoffs: seq<Backoff>, steps: seq<Step>, more: seq<Step>)
    requires Run(backoffs, steps).Some? && Run(backoffs, steps).value.stopper.Ending?
    requires Enabled(Run(backoffs, steps).value, StopStep(false))
    ensures var s := Run(backoffs, steps).value;
            var r := RunFrom(backoffs, s, more);
            s.stopper.left - 1 < |s.units|
            && (r.Some? ==> s.stopper.launch !in r.value.units[s.stopper.left - 1].alive)
  {
    RunInv(backoffs, steps);
    AskedIsKnown(backoffs, steps);
    var s := Run(backoffs, steps).value;
    RunStaysDown(backoffs, s, more, s.stopper.left - 1, s.stopper.launch);
  }

  // ---------------------------------------------------------------- launches, delays and Stop

  /** A process never has two launches alive: a restart happens only after the last launch has exited. */
  lemma OneLaunchAlive(backoffs: seq<Backoff>, steps: seq<Step>, i: nat)
    requires Run(backoffs, steps).Some? && i < |backoffs|
    ensures var u := Run(backoffs, steps).value.units[i];
            && u.alive <= {u.launches} && |u.alive| <= 1
            && (u.watcher == Sleeping ==> u.alive == {})
  {
    hide BootOk, HaltOk, Delay;
    RunInv(backoffs, steps);
    var u := Run(backoffs, steps).value.units[i];
    assert UnitOk(backoffs[i], u);
    if u.launches in u.alive {
      assert u.alive == {u.launches};
    } else {
      assert u.alive == {};
    }
  }

  /**
   * The delay before the k-th restart attempt of a process, however its launches fail and exit: never
   * reset, and min(initial * multiplier^(k-1), max) unless one of these values has a fraction, which
   * none has when the multiplier is whole.
   */
  lemma RestartDelays(backoffs: seq<Backoff>, steps: seq<Step>, i: nat)
    requires Run(backoffs, steps).Some? && i < |backoffs|
    ensures var u, b := Run(backoffs, steps).value.units[i], backoffs[i];
            && u.delay == Delay(b, u.attempts)
            && (Growing(b) && u.attempts > 0 && (forall k :: 0 < k <= u.attempts ==> Whole(Ideal(b, k)))
                ==> u.delay as real == Ideal(b, u.attempts))
            && (Growing(b) && u.attempts > 0 && Whole(b.multiplier) ==> u.delay as real == Ideal(b, u.attempts))
  {
    hide BootOk, HaltOk, Delay, Ideal;
    RunInv(backoffs, steps);
    var u, b := Run(backoffs, steps).value.units[i], backoffs[i];
    hide Run;
    assert UnitOk(b, u);
    if Growing(b) && u.attempts > 0 {
      if forall k :: 0 < k <= u.attempts ==> Whole(Ideal(b, k)) {
        WholeGivesIdeal(b, u.attempts, u.attempts);
      }
      if Whole(b.multiplier) {
        WholeMultiplier(b, b.multiplier.Floor, u.attempts);
      }
    }
  }

  /**
   * If Start had nothing left to launch when Stop was called, then once Stop returns it has stopped and
   * joined every registration in exact reverse order, every process has exited, every watcher is done,
   * and no step is possible any more except that Start, too, learns about the last process's health.
   */
  lemma StoppedForGood(backoffs: seq<Backoff>, steps: seq<Step>)
    requires Run(backoffs, steps).Some?
    requires Run(backoffs, steps).value.orderly && Run(backoffs, steps).value.stopper == Marking(0)
    ensures var s, n := Run(backoffs, steps).value, |backoffs|;
            && |s.halt| == 2 * n
            && (forall k :: 0 <= k < n ==>
                  s.halt[2 * k] == StopIssued(n - 1 - k) && s.halt[2 * k + 1] == Joined(n - 1 - k))
            && (forall i :: 0 <= i < n ==> s.units[i].alive == {} && s.units[i].watcher in {Absent, Done})
            && (forall step :: Enabled(s, step) ==> step.Health? && s.launcher.Awaiting?)
  {
    hide UnitsOk, BootOk;
    RunInv(backoffs, steps);
    var s, n := Run(backoffs, steps).value, |backoffs|;
    forall k | 0 <= k < n
      ensures s.halt[2 * k] == StopIssued(n - 1 - k) && s.halt[2 * k + 1] == Joined(n - 1 - k)
    {
      assert s.halt[2 * k] == HaltEventAt(n, 2 * k) && s.halt[2 * k + 1] == HaltEventAt(n, 2 * k + 1);
    }
    forall i | 0 <= i < n ensures Settled(s.units[i]) {}
    forall step ensures Enabled(s, step) ==> step.Health? && s.launcher.Awaiting? {
      if step.Exit? && step.i < n {
        assert Settled(s.units[step.i]);
      } else if step.Watch? && step.i < n {
        assert Settled(s.units[step.i]);
      }
    }
  }

  // ---------------------------------------------------------------- Stop can return

  /** What to do next so that Stop gets on: processes exit when asked, and the watcher of the current one moves. */
  function Onward(s: State): Step
    requires CanAdvance(s)
  {
    var i := s.stopper.left - 1;
    match s.stopper
    case Ending(_, launch) => if launch in s.units[i].alive then Exit(i, launch) else StopStep(false)
    case Joining(_) =>
      (match s.units[i].watcher
       case Waiting(launch) => if launch in s.units[i].alive then Exit(i, launch) else Watch(i, true)
       case Absent => StopStep(false)
       case Done => StopStep(false)
       case _ => Watch(i, true))
    case _ => StopStep(false)
  }

  predicate CanAdvance(s: State) { !s.stopper.Idle? && 0 < s.stopper.left <= |s.units| }

  function WatcherRank(u: Unit): nat {
    match u.watcher
    case Absent => 0
    case Done => 0
    case Woken => 1
    case Waiting(launch) => if launch in u.alive then 3 else 2
    case AtWait => 4
    case Sleeping => 5
  }

  function Rank(s: State): nat
    requires CanAdvance(s)
  {
    var left := s.stopper.left;
    match s.stopper
    case Marking(_) => 20 * left
    case Calling(_) => 20 * left - 1
    case Ending(_, launch) => if launch in s.units[left - 1].alive then 20 * left - 2 else 20 * left - 3
    case Joining(_) => 20 * left - 10 + WatcherRank(s.units[left - 1])
  }

  lemma OnwardAdvances(backoffs: seq<Backoff>, s: State)
    requires Inv(backoffs, s) && |backoffs| == |s.units| && CanAdvance(s)
    ensures Enabled(s, Onward(s))
    ensures var s' := Apply(backoffs, s, Onward(s));
            !s'.stopper.Idle? && s'.orderly == s.orderly && s'.launcher == s.launcher
            && (s'.stopper == Marking(0) || (CanAdvance(s') && Rank(s') < Rank(s)))
  {
    hide UnitsOk, InBootOrder, InHaltOrder, Next;
  }

  lemma {:induction false} StopContinues(backoffs: seq<Backoff>, s: State) returns (steps: seq<Step>)
    requires Inv(backoffs, s) && |backoffs| == |s.units| && CanAdvance(s)
    ensures var r := RunFrom(backoffs, s, steps);
            && r.Some? && r.value.stopper == Marking(0)
            && r.value.orderly == s.orderly && r.value.launcher == s.launcher
    decreases Rank(s)
  {
    OnwardAdvances(backoffs, s);
    StepKeeps(backoffs, s, Onward(s));
    var step, s' := Onward(s), Apply(backoffs, s, Onward(s));
    hide Inv, Enabled, Apply, Onward, Rank;
    if s'.stopper == Marking(0) {
      steps := [step];
      assert steps[..0] == [];
      assert RunFrom(backoffs, s, []) == Some(s);
    } else {
      var rest := StopContinues(backoffs, s');
      steps := [step] + rest;
      RunFromCons(backoffs, s, step, rest);
    }
  }

  lemma {:induction false} RunFromCons(backoffs: seq<Backoff>, s: State, step: Step, rest: seq<Step>)
    requires |backoffs| == |s.units| && Enabled(s, step) && |Apply(backoffs, s, step).units| == |s.units|
    ensures RunFrom(backoffs, s, [step] + rest) == RunFrom(backoffs, Apply(backoffs, s, step), rest)
    decreases |rest|
  {
    hide Enabled, Apply;
    var all := [step] + rest;
    if rest == [] {
      assert all == [step] && all[..0] == [];
      assert RunFrom(backoffs, s, []) == Some(s);
    } else {
      assert all[..|all| - 1] == [step] + rest[..|rest| - 1];
      RunFromCons(backoffs, s, step, rest[..|rest| - 1]);
    }
  }

  /**
   * No deadlock: wherever the run stands once Stop has been called, there is a continuation, in which
   * processes exit but the context of Stop is never cancelled, after which Stop returns.
   */
  lemma StopCanReturn(backoffs: seq<Backoff>, steps: seq<Step>) returns (more: seq<Step>)
    requires Run(backoffs, steps).Some? && !Run(backoffs, steps).value.stopper.Idle?
    ensures var r := RunFrom(backoffs, Run(backoffs, steps).value, more);
            && r.Some? && r.value.stopper == Marking(0)
            && r.value.orderly == Run(backoffs, steps).value.orderly
  {
    RunInv(backoffs, steps);
    var s := Run(backoffs, steps).value;
    hide Run;
    if s.stopper == Marking(0) {
      more := [];
    } else {
      more := StopContinues(backoffs, s);
    }
  }

  // ---------------------------------------------------------------- a crash is followed by a restart

  predicate OnlyWatches(steps: seq<Step>, i: nat) {
    forall k :: 0 <= k < |steps| ==> steps[k] == Watch(i, true)
  }

  /** How far a watcher is from having launched its process again. */
  function RestartRank(u: Unit): nat {
    match u.watcher
    case AtWait => 3
    case Waiting(_) => 2
    case Woken => 1
    case _ => 0
  }

  lemma NoProgressLost(b: Backoff, u: Unit)
    requires UnitOk(b, u) && u.launches > 0 && u.alive == {} && !u.stopping
    ensures CanWatch(u)
    ensures var u' := Watched(b, u, true);
            if u.watcher == Sleeping then u'.launches == u.launches + 1 && u'.alive == {u.launches + 1}
            else u'.launches == u.launches && u'.alive == {} && !u'.stopping && RestartRank(u') < RestartRank(u)
  {
    hide Next, Delay;
  }

  /**
   * Wherever a process stands whose latest launch has exited, its first or any later one, if Stop has not
   * marked it then its own watcher launches it again, as soon as an attempt works.
   */
  lemma {:induction false} CrashedIsRestarted(backoffs: seq<Backoff>, s: State, i: nat) returns (steps: seq<Step>)
    requires Inv(backoffs, s) && |backoffs| == |s.units| && i < |s.units|
    requires !s.units[i].stopping && s.units[i].launches > 0 && s.units[i].alive == {}
    ensures OnlyWatches(steps, i) && RunFrom(backoffs, s, steps).Some?
    ensures var u := RunFrom(backoffs, s, steps).value.units[i];
            u.launches == s.units[i].launches + 1 && u.alive == {s.units[i].launches + 1}
    decreases RestartRank(s.units[i])
  {
    assert UnitOk(backoffs[i], s.units[i]);
    NoProgressLost(backoffs[i], s.units[i]);
    var step := Watch(i, true);
    var s' := Apply(backoffs, s, step);
    StepKeeps(backoffs, s, step);
    hide Inv, UnitOk, Watched, CanWatch;
    if s.units[i].watcher == Sleeping {
      steps := [step];
      assert steps == [step] + [];
      RunFromCons(backoffs, s, step, []);
      assert RunFrom(backoffs, s', []) == Some(s');
    } else {
      var rest := CrashedIsRestarted(backoffs, s', i);
      steps := [step] + rest;
      RunFromCons(backoffs, s, step, rest);
    }
  }

  /**
   * A watcher that sleeps before a restart tries again after every failure, each time one attempt later and
   * marked as stopping or not, and the first attempt that works launches the process.
   */
  lemma {:induction false} TriedUntilItWorks(backoffs: seq<Backoff>, s: State, i: nat, failures: nat)
    requires |backoffs| == |s.units| && i < |s.units| && s.units[i].watcher == Sleeping
    ensures var steps := seq(failures, _ => Watch(i, false));
            var r, worked := RunFrom(backoffs, s, steps), RunFrom(backoffs, s, steps + [Watch(i, true)]);
            && r.Some? && r.value.units[i].watcher == Sleeping && r.value.units[i].alive == s.units[i].alive
            && r.value.units[i].launches == s.units[i].launches
            && r.value.units[i].attempts == s.units[i].attempts + failures
            && worked.Some? && worked.value.units[i].launches == s.units[i].launches + 1
            && s.units[i].launches + 1 in worked.value.units[i].alive
  {
    hide Next;
    var steps := seq(failures, _ => Watch(i, false));
    assert (steps + [Watch(i, true)])[..failures] == steps;
    if failures > 0 {
      assert steps[..failures - 1] == seq(failures - 1, _ => Watch(i, false));
      TriedUntilItWorks(backoffs, s, i, failures - 1);
    }
  }

  /** How many steps of a run put the watcher of a process to sleep before an attempt to restart it. */
  function Sleeps(backoffs: seq<Backoff>, steps: seq<Step>, i: nat): nat
    requires i < |backoffs|
  {
    if steps == [] then 0
    else
      var front, last := steps[..|steps| - 1], steps[|steps| - 1];
      var r := Run(backoffs, steps);
      Sleeps(backoffs, front, i)
      + if last.Watch? && last.i == i && r.Some? && r.value.units[i].watcher == Sleeping then 1 else 0
  }

  /** Every time a watcher goes to sleep counts as one attempt, and so lengthens the delay. */
  lemma {:induction false} AttemptsAreSleeps(backoffs: seq<Backoff>, steps: seq<Step>, i: nat)
    requires i < |backoffs| && Run(backoffs, steps).Some?
    ensures Run(backoffs, steps).value.units[i].attempts == Sleeps(backoffs, steps, i)
    decreases |steps|
  {
    hide Apply, Enabled;
    if steps == [] {
    } else {
      var front, last := steps[..|steps| - 1], steps[|steps| - 1];
      AttemptsAreSleeps(backoffs, front, i);
      SleepsInStep(backoffs, Run(backoffs, front).value, last, i);
    }
  }

  lemma SleepsInStep(backoffs: seq<Backoff>, s: State, step: Step, i: nat)
    requires |backoffs| == |s.units| && i < |backoffs| && Enabled(s, step)
    ensures var u := Apply(backoffs, s, step).units[i];
            u.attempts == s.units[i].attempts
                          + if step.Watch? && step.i == i && u.watcher == Sleeping then 1 else 0
  {
    hide Next, CanStop;
  }

  // ---------------------------------------------------------------- when Stop stops for good

  ghost predicate NoneAlive(s: State) {
    forall i :: 0 <= i < |s.units| ==> s.units[i].alive == {}
  }

  /** After these further steps, Stop has not returned yet or no process is alive. */
  ghost predicate QuietOnceStopped(backoffs: seq<Backoff>, s: State, steps: seq<Step>)
    requires |backoffs| == |s.units|
  {
    var r := RunFrom(backoffs, s, steps);
    r.Some? && r.value.stopper == Marking(0) ==> NoneAlive(r.value)
  }

  /** From the moment Stop returns on, whatever still happens, no process is alive. */
  ghost predicate StopsForGood(backoffs: seq<Backoff>, s: State)
    requires |backoffs| == |s.units|
  {
    forall steps :: QuietOnceStopped(backoffs, s, steps)
  }

  /**
   * A call of Stop stops for good if and only if Start has nothing left to launch at that moment: it has
   * returned, or waits for the health of the last registration.
   */
  lemma StopsForGoodExactly(backoffs: seq<Backoff>, s: State)
    requires Inv(backoffs, s) && |backoffs| == |s.units| && s.stopper.Idle?
    ensures StopsForGood(backoffs, Apply(backoffs, s, StopBegin)) <==> NothingToLaunch(s)
  {
    var called := Apply(backoffs, s, StopBegin);
    StepKeeps(backoffs, s, StopBegin);
    if NothingToLaunch(s) {
      forall steps ensures QuietOnceStopped(backoffs, called, steps) {
        QuietWhenOrderly(backoffs, called, steps);
      }
    } else {
      var steps := LaunchAfterStop(backoffs, called);
      assert !QuietOnceStopped(backoffs, called, steps);
    }
  }

  lemma QuietWhenOrderly(backoffs: seq<Backoff>, s: State, steps: seq<Step>)
    requires Inv(backoffs, s) && |backoffs| == |s.units| && s.orderly && !s.stopper.Idle?
    ensures QuietOnceStopped(backoffs, s, steps)
  {
    if RunFrom(backoffs, s, steps).Some? {
      RunFromKeeps(backoffs, s, steps);
      StaysOrderly(backoffs, s, steps);
      var r := RunFrom(backoffs, s, steps).value;
      hide RunFrom;
      if r.stopper == Marking(0) {
        assert forall i :: 0 <= i < |r.units| ==> Settled(r.units[i]);
      }
    }
  }

  lemma {:induction false} StaysOrderly(backoffs: seq<Backoff>, s: State, steps: seq<Step>)
    requires |backoffs| == |s.units| && s.orderly && !s.stopper.Idle? && RunFrom(backoffs, s, steps).Some?
    ensures RunFrom(backoffs, s, steps).value.orderly && !RunFrom(backoffs, s, steps).value.stopper.Idle?
  {
    hide Watched, Launch1, CanWatch;
    if steps != [] {
      StaysOrderly(backoffs, s, steps[..|steps| - 1]);
    }
  }

  lemma RunFromSnoc(backoffs: seq<Backoff>, s: State, steps: seq<Step>, step: Step)
    requires |backoffs| == |s.units| && RunFrom(backoffs, s, steps).Some?
    requires Enabled(RunFrom(backoffs, s, steps).value, step)
    ensures RunFrom(backoffs, s, steps + [step]) == Some(Apply(backoffs, RunFrom(backoffs, s, steps).value, step))
  {
    hide Enabled, Apply;
    assert (steps + [step])[..|steps|] == steps;
  }

  /** While Start has something left to launch, Stop can return first and the launch come after it. */
  lemma LaunchAfterStop(backoffs: seq<Backoff>, s: State) returns (steps: seq<Step>)
    requires Inv(backoffs, s) && |backoffs| == |s.units| && !NothingToLaunch(s)
    requires s.stopper == Marking(|s.units|)
    ensures RunFrom(backoffs, s, steps).Some? && RunFrom(backoffs, s, steps).value.stopper == Marking(0)
    ensures !NoneAlive(RunFrom(backoffs, s, steps).value)
  {
    steps := StopContinues(backoffs, s);
    var r := RunFrom(backoffs, s, steps).value;
    if s.launcher.Awaiting? {
      RunFromSnoc(backoffs, s, steps, Health(true));
      steps, r := steps + [Health(true)], Apply(backoffs, r, Health(true));
    }
    RunFromSnoc(backoffs, s, steps, Launch(true));
    var i := r.launcher.i;
    steps := steps + [Launch(true)];
    assert r.units[i].launches + 1 in Apply(backoffs, r, Launch(true)).units[i].alive;
  }

  // ---------------------------------------------------------------- when Stop misses a restart

  ghost predicate SameLaunches(backoffs: seq<Backoff>, s: State, steps: seq<Step>, i: nat)
    requires |backoffs| == |s.units| && i < |s.units|
  {
    var r := RunFrom(backoffs, s, steps);
    r.Some? ==> r.value.units[i].launches == s.units[i].launches
  }

  /** Whatever happens from here on, this process is not launched again. */
  ghost predicate NeverAgain(backoffs: seq<Backoff>, s: State, i: nat)
    requires |backoffs| == |s.units| && i < |s.units|
  {
    forall steps :: SameLaunches(backoffs, s, steps, i)
  }

  /**
   * Once Start has nothing left to launch and a registration is marked as stopping, its process is never
   * launched again if and only if its watcher is not asleep before a restart.
   */
  lemma NeverAgainExactly(backoffs: seq<Backoff>, s: State, i: nat)
    requires |backoffs| == |s.units| && i < |s.units| && NothingToLaunch(s) && s.units[i].stopping
    ensures NeverAgain(backoffs, s, i) <==> s.units[i].watcher != Sleeping
  {
    hide RunFrom, Apply;
    if s.units[i].watcher == Sleeping {
      SleeperLaunches(backoffs, s, i);
      assert !SameLaunches(backoffs, s, [] + [Watch(i, true)], i);
    } else {
      forall steps ensures SameLaunches(backoffs, s, steps, i) {
        if RunFrom(backoffs, s, steps).Some? {
          StaysAwake(backoffs, s, steps, i);
        }
      }
    }
  }

  lemma SleeperLaunches(backoffs: seq<Backoff>, s: State, i: nat)
    requires |backoffs| == |s.units| && i < |s.units| && s.units[i].watcher == Sleeping
    ensures var r := RunFrom(backoffs, s, [] + [Watch(i, true)]);
            r.Some? && r.value.units[i].launches == s.units[i].launches + 1
  {
    assert RunFrom(backoffs, s, []) == Some(s);
    RunFromSnoc(backoffs, s, [], Watch(i, true));
  }

  /** A marked watcher that is not asleep only goes on to wait, wake up and finish. */
  lemma {:induction false} StaysAwake(backoffs: seq<Backoff>, s: State, steps: seq<Step>, i: nat)
    requires |backoffs| == |s.units| && i < |s.units| && NothingToLaunch(s)
    requires s.units[i].stopping && s.units[i].watcher != Sleeping && RunFrom(backoffs, s, steps).Some?
    ensures var r := RunFrom(backoffs, s, steps).value;
            && NothingToLaunch(r) && r.units[i].stopping && r.units[i].watcher != Sleeping
            && r.units[i].launches == s.units[i].launches
  {
    hide Next;
    if steps != [] {
      var front, step := steps[..|steps| - 1], steps[|steps| - 1];
      StaysAwake(backoffs, s, front, i);
      AwakeStep(backoffs, RunFrom(backoffs, s, front).value, step, i);
    }
  }

  lemma AwakeStep(backoffs: seq<Backoff>, s: State, step: Step, i: nat)
    requires |backoffs| == |s.units| && i < |s.units| && NothingToLaunch(s) && Enabled(s, step)
    requires s.units[i].stopping && s.units[i].watcher != Sleeping
    ensures var r := Apply(backoffs, s, step);
            && NothingToLaunch(r) && r.units[i].stopping && r.units[i].watcher != Sleeping
            && r.units[i].launches == s.units[i].launches
  {
    hide Next;
  }

  /** If these steps lead to the join of the current registration, then only the launch that was asked is alive. */
  ghost predicate OnlyAskedAlive(backoffs: seq<Backoff>, s: State, steps: seq<Step>)
    requires |backoffs| == |s.units| && s.stopper.Calling? && CanStop(s)
  {
    var r := RunFrom(backoffs, s, steps);
    r.Some? && r.value.stopper == Joining(s.stopper.left)
    ==> r.value.units[s.stopper.left - 1].alive <= {s.units[s.stopper.left - 1].launches}
  }

  ghost predicate WaitsForAskedOnly(backoffs: seq<Backoff>, s: State)
    requires |backoffs| == |s.units| && s.stopper.Calling? && CanStop(s)
  {
    forall steps :: OnlyAskedAlive(backoffs, s, steps)
  }

  /**
   * When Stop is about to ask a process to stop, every launch that it then waits for is the one that it
   * asks, if and only if the watcher is not asleep before a restart.
   */
  lemma MissesARestartExactly(backoffs: seq<Backoff>, s: State)
    requires Inv(backoffs, s) && |backoffs| == |s.units| && NothingToLaunch(s)
    requires s.stopper.Calling? && CanStop(s)
    ensures WaitsForAskedOnly(backoffs, s) <==> s.units[s.stopper.left - 1].watcher != Sleeping
  {
    var i := s.stopper.left - 1;
    if s.units[i].watcher == Sleeping {
      var steps := RestartMissed(backoffs, s);
      assert !OnlyAskedAlive(backoffs, s, steps);
    } else {
      forall steps ensures OnlyAskedAlive(backoffs, s, steps) {
        if RunFrom(backoffs, s, steps).Some? {
          StaysAwake(backoffs, s, steps, i);
          RunFromKeeps(backoffs, s, steps);
          assert UnitOk(backoffs[i], RunFrom(backoffs, s, steps).value.units[i]);
        }
      }
    }
  }

  /** Asks the launch that has exited, and goes on to the join while the watcher launches the next one. */
  lemma RestartMissed(backoffs: seq<Backoff>, s: State) returns (steps: seq<Step>)
    requires Inv(backoffs, s) && |backoffs| == |s.units| && s.stopper.Calling? && CanStop(s)
    requires s.units[s.stopper.left - 1].watcher == Sleeping
    ensures !OnlyAskedAlive(backoffs, s, steps)
  {
    hide Next, BootOk, InHaltOrder;
    var i := s.stopper.left - 1;
    assert UnitOk(backoffs[i], s.units[i]);
    assert RunFrom(backoffs, s, []) == Some(s);
    RunFromSnoc(backoffs, s, [], StopStep(false));
    var s1 := Apply(backoffs, s, StopStep(false));
    RunFromSnoc(backoffs, s, [] + [StopStep(false)], StopStep(false));
    var s2 := Apply(backoffs, s1, StopStep(false));
    RunFromSnoc(backoffs, s, [] + [StopStep(false)] + [StopStep(false)], Watch(i, true));
    steps := [] + [StopStep(false)] + [StopStep(false)] + [Watch(i, true)];
    assert s2.stopper == Joining(s.stopper.left) && s2.units == s.units;
    assert s.units[i].launches + 1 in Apply(backoffs, s2, Watch(i, true)).units[i].alive;
  }

  // ---------------------------------------------------------------- two runs

  lemma Then(backoffs: seq<Backoff>, steps: seq<Step>, s: State, step: Step) returns (steps': seq<Step>, s': State)
    requires Run(backoffs, steps) == Some(s) && |backoffs| == |s.units| && Enabled(s, step)
    ensures s' == Apply(backoffs, s, step) && Run(backoffs, steps') == Some(s')
  {
    steps', s' := steps + [step], Apply(backoffs, s, step);
    assert steps'[..|steps|] == steps;
  }

  /** A Stop that overlaps with Start can return with a process running afterwards. */
  lemma StopDuringStart(b: Backoff) returns (steps: seq<Step>, s: State)
    ensures Run([b], steps) == Some(s) && !s.orderly
    ensures s.stopper == Marking(0) && s.units[0].alive == {1} && s.units[0].watcher == AtWait
  {
    hide Delay, Run;
    steps, s := Begin(b);
    steps, s := Then([b], steps, s, StopBegin);
    steps, s := Then([b], steps, s, StopStep(false));
    steps, s := Then([b], steps, s, StopStep(false));
    steps, s := Then([b], steps, s, StopStep(false));
    steps, s := Then([b], steps, s, Launch(true));
  }

  lemma Begin(b: Backoff) returns (steps: seq<Step>, s: State)
    ensures Run([b], steps) == Some(s) && s == State([FRESH], Starting(0), Idle, false, [], [])
  {
    steps, s := [], Init(1);
    assert s.units == [FRESH];
  }

  /**
   * Stop need not return: when it is called while a watcher sleeps before a restart, the restart goes
   * ahead after Stop has asked the process to stop, and then nothing but an exit of its own can happen.
   */
  lemma StopMissesARestart(b: Backoff) returns (steps: seq<Step>, s: State)
    ensures Run([b], steps) == Some(s) && s.orderly
    ensures s.stopper == Joining(1) && s.units[0].alive == {2}
    ensures forall step :: Enabled(s, step) <==> step == Exit(0, 2)
  {
    hide Delay, Run, Next;
    steps, s := AsleepAfterACrash(b);
    steps, s := Then([b], steps, s, StopBegin);
    steps, s := Then([b], steps, s, StopStep(false));
    steps, s := Then([b], steps, s, StopStep(false));
    steps, s := Then([b], steps, s, Watch(0, true));
    steps, s := Then([b], steps, s, StopStep(false));
    steps, s := Then([b], steps, s, Watch(0, true));
    assert s.units[0].watcher == Waiting(2);
  }

  lemma AsleepAfterACrash(b: Backoff) returns (steps: seq<Step>, s: State)
    ensures Run([b], steps) == Some(s) && |s.units| == 1 && s.launcher == Returned(true) && s.stopper == Idle
    ensures s.units[0].(delay := 0) == Unit(1, {}, false, Sleeping, 0, 1)
  {
    hide Delay, Run, Next;
    steps, s := Begin(b);
    steps, s := Then([b], steps, s, Launch(true));
    steps, s := Then([b], steps, s, Health(true));
    steps, s := Then([b], steps, s, Watch(0, true));
    steps, s := Then([b], steps, s, Exit(0, 1));
    steps, s := Then([b], steps, s, Watch(0, true));
    steps, s := Then([b], steps, s, Watch(0, true));
    assert s.units[0].alive == {};
  }
}
