/** The cycle loop (internal/engine/engine.go, `runCycleLoop`) as a transition
    system: timers spawn any number of goroutines; each one tries its mutex,
    asks the breaker, runs, records, and phase 3 runs inside phase 1. Every
    step is one atomic action of one goroutine. */
module Scheduler {
  import opened Arithmetic
  import opened Breaker
  import opened Clock
  import opened Options

  datatype Phase = Phase1 | Phase2

  /** Where a goroutine stands. */
  datatype Pc =
    | Spawned      // before TryLock of its phase mutex
    | Locked       // holds the mutex, before Allow
    | Running      // inside phase.Run
    | Failing      // Run returned an error, before RecordFailure
    | Succeeding   // Run returned nil, before RecordSuccess
    | Recorded     // phase 1 only: before TryLock of p3Mu
    | InPhase3     // phase 1 only: holds p3Mu
    | LeavingPhase3
    | Unlocking    // before the deferred Unlock
    | Done

  /** `seen` is the breaker as `Allow` left it, `succeeded` whether the run
      returned nil, `compared` how often the goroutine has run phase 3; these
      are history variables. */
  datatype Goroutine = Goroutine(phase: Phase, pc: Pc, seen: Breaker, succeeded: bool, compared: nat)

  /** Mutex and breaker of one phase. The rest are history variables: when the
      failures since the last success were recorded, and when the runs of the
      phase began and ended. */
  datatype Lane = Lane(mu: Option<nat>, breaker: Breaker, log: seq<Instant>, begun: seq<Instant>, ended: seq<Instant>)

  datatype State = State(
    now: Instant, discovery: Lane, managed: Lane, p3Mu: Option<nat>, goroutines: map<nat, Goroutine>)

  function LaneOf(s: State, phase: Phase): Lane {
    if phase == Phase1 then s.discovery else s.managed
  }

  function SetLane(s: State, phase: Phase, lane: Lane): State {
    if phase == Phase1 then s.(discovery := lane) else s.(managed := lane)
  }

  function Move(s: State, t: nat, g: Goroutine): State {
    s.(goroutines := s.goroutines[t := g])
  }

  datatype Step =
    | Tick(duration: nat)
    | Spawn(t: nat, phase: Phase)
    | TryLock(t: nat)
    | AskBreaker(t: nat)
    | Finish(t: nat, ok: bool)
    | Record(t: nat)
    | TryLock3(t: nat)
    | FinishPhase3(t: nat)
    | Unlock3(t: nat)
    | Unlock(t: nat)

  predicate At(s: State, t: nat, pc: Pc) {
    t in s.goroutines && s.goroutines[t].pc == pc
  }

  predicate Enabled(s: State, step: Step) {
    match step
    case Tick(_) => true
    case Spawn(t, _) => t !in s.goroutines
    case TryLock(t) => At(s, t, Spawned)
    case AskBreaker(t) => At(s, t, Locked)
    case Finish(t, _) => At(s, t, Running)
    case Record(t) => At(s, t, Failing) || At(s, t, Succeeding)
    case TryLock3(t) => At(s, t, Recorded)
    case FinishPhase3(t) => At(s, t, InPhase3)
    case Unlock3(t) => At(s, t, LeavingPhase3)
    case Unlock(t) => At(s, t, Unlocking)
  }

  function Apply(s: State, step: Step): State
    requires Enabled(s, step)
  {
    match step
    case Tick(duration) => s.(now := s.now + duration)
    case Spawn(t, phase) => Move(s, t, Goroutine(phase, Spawned, Fresh(0), false, 0))
    case TryLock(t) =>
      var g := s.goroutines[t];
      var lane := LaneOf(s, g.phase);
      if lane.mu.None? then SetLane(Move(s, t, g.(pc := Locked)), g.phase, lane.(mu := Some(t)))
      else Move(s, t, g.(pc := Done))
    case AskBreaker(t) =>
      var g := s.goroutines[t];
      var lane := LaneOf(s, g.phase);
      var breaker := AfterAllow(lane.breaker, s.now);
      if Allows(lane.breaker, s.now)
      then SetLane(Move(s, t, g.(pc := Running, seen := breaker)), g.phase, lane.(breaker := breaker, begun := lane.begun + [s.now]))
      else Move(s, t, g.(pc := Unlocking))
    case Finish(t, ok) =>
      var g := s.goroutines[t];
      var lane := LaneOf(s, g.phase);
      SetLane(Move(s, t, g.(pc := if ok then Succeeding else Failing, succeeded := ok)), g.phase,
              lane.(ended := lane.ended + [s.now]))
    case Record(t) =>
      var g := s.goroutines[t];
      var lane := LaneOf(s, g.phase);
      if g.pc == Failing
      then SetLane(Move(s, t, g.(pc := Unlocking)), g.phase,
                   lane.(breaker := AfterFailure(lane.breaker, s.now), log := lane.log + [s.now]))
      else SetLane(Move(s, t, g.(pc := if g.phase == Phase1 then Recorded else Unlocking)), g.phase,
                   lane.(breaker := AfterSuccess(lane.breaker, s.now), log := []))
    case TryLock3(t) =>
      var g := s.goroutines[t];
      if s.p3Mu.None? then Move(s, t, g.(pc := InPhase3)).(p3Mu := Some(t)) else Move(s, t, g.(pc := Unlocking))
    case FinishPhase3(t) =>
      var g := s.goroutines[t];
      Move(s, t, g.(pc := LeavingPhase3, compared := g.compared + 1))
    case Unlock3(t) => Move(s, t, s.goroutines[t].(pc := Unlocking)).(p3Mu := None)
    case Unlock(t) =>
      var g := s.goroutines[t];
      SetLane(Move(s, t, g.(pc := Done)), g.phase, LaneOf(s, g.phase).(mu := None))
  }

  function Initial(now: Instant): State {
    var lane := Lane(None, Fresh(now), [], [], []);
    State(now, lane, lane, None, map[])
  }

  ghost predicate IsRun(s: State, steps: seq<Step>)
    decreases |steps|
  {
    steps == [] || (Enabled(s, steps[0]) && IsRun(Apply(s, steps[0]), steps[1..]))
  }

  function After(s: State, steps: seq<Step>): State
    requires IsRun(s, steps)
    decreases |steps|
  {
    if steps == [] then s else After(Apply(s, steps[0]), steps[1..])
  }

  // -------------------------------------------------------------- invariants

  /** Between TryLock and Unlock. */
  predicate InSection(pc: Pc) {
    pc != Spawned && pc != Done
  }

  /** Between an Allow that said yes and the Record of its outcome. */
  predicate InFlight(pc: Pc) {
    pc == Running || pc == Failing || pc == Succeeding
  }

  predicate InPhase3Section(pc: Pc) {
    pc == InPhase3 || pc == LeavingPhase3
  }

  ghost predicate GoroutineOk(s: State, t: nat) {
    t in s.goroutines ==>
      var g := s.goroutines[t];
      var lane := LaneOf(s, g.phase);
      && (InSection(g.pc) <==> lane.mu == Some(t))
      && (InPhase3Section(g.pc) <==> s.p3Mu == Some(t))
      && (g.pc == Recorded || InPhase3Section(g.pc) ==> g.phase == Phase1 && g.succeeded)
      && (InFlight(g.pc) ==> lane.breaker == g.seen && g.seen.state != Open)
      && (g.pc == Failing ==> !g.succeeded) && (g.pc == Succeeding ==> g.succeeded)
      && g.compared == (if HasCompared(g) then 1 else 0)
      && (g.pc == Spawned || g.pc == Locked || g.pc == Running ==> !g.succeeded)
  }

  /** Phase 3 lies behind the goroutine. */
  predicate HasCompared(g: Goroutine) {
    g.phase == Phase1 && g.succeeded && (g.pc == LeavingPhase3 || g.pc == Unlocking || g.pc == Done)
  }

  /** Failure number j+1 came at least one cooldown after failure number j. */
  ghost predicate Spaced(log: seq<Instant>) {
    forall j :: 3 <= j < |log| ==> log[j] - log[j - 1] >= Cooldown(j)
  }

  /** The breaker and the log of its failures tell the same story. */
  ghost predicate BreakerOk(b: Breaker, log: seq<Instant>, now: Instant) {
    && Consistent(b) && |log| == b.failures && Spaced(log)
    && (b.state != Closed ==> b.openedAt == log[|log| - 1] && b.openedAt <= now)
    && (b.state == HalfOpen ==> now - b.openedAt >= Cooldown(b.failures))
  }

  ghost predicate LaneOk(s: State, phase: Phase) {
    var lane := LaneOf(s, phase);
    && (lane.mu.Some? ==> lane.mu.value in s.goroutines && s.goroutines[lane.mu.value].phase == phase)
    && (lane.breaker.state == HalfOpen ==>
          lane.mu.Some? && lane.mu.value in s.goroutines && InFlight(s.goroutines[lane.mu.value].pc))
    && BreakerOk(lane.breaker, lane.log, s.now)
  }

  ghost predicate Inv(s: State) {
    && (forall t: nat :: GoroutineOk(s, t))
    && LaneOk(s, Phase1) && LaneOk(s, Phase2)
    && (s.p3Mu.Some? ==> s.p3Mu.value in s.goroutines)
  }

  lemma {:induction false} SpacedSnoc(log: seq<Instant>, now: Instant)
    requires Spaced(log) && (|log| >= 3 ==> now - log[|log| - 1] >= Cooldown(|log|))
    ensures Spaced(log + [now])
  {
  }

  lemma {:induction false} OthersKeptBreaker(s: State, step: Step, u: nat)
    requires Inv(s) && Enabled(s, step) && (step.AskBreaker? || step.Record?) && u != step.t
    ensures GoroutineOk(Apply(s, step), u)
  {
    assert GoroutineOk(s, u) && GoroutineOk(s, step.t);
  }

  lemma {:induction false} OthersKeptMutex(s: State, step: Step, u: nat)
    requires Inv(s) && Enabled(s, step) && (step.TryLock? || step.Unlock?) && u != step.t
    ensures GoroutineOk(Apply(s, step), u)
  {
    assert GoroutineOk(s, u) && GoroutineOk(s, step.t);
  }

  /** A step of one goroutine leaves every other one in order. */
  lemma {:induction false} OthersKept(s: State, step: Step, u: nat)
    requires Inv(s) && Enabled(s, step)
    requires step.Tick? || u != step.t
    ensures GoroutineOk(Apply(s, step), u)
  {
    if step.AskBreaker? || step.Record? {
      OthersKeptBreaker(s, step, u);
    } else if step.TryLock? || step.Unlock? {
      OthersKeptMutex(s, step, u);
    } else {
      assert GoroutineOk(s, u);
      assert step.Tick? || GoroutineOk(s, step.t);
    }
  }

  /** The holder of p3Mu is inside phase 3 and holds p1Mu. */
  lemma {:induction false} Phase3Holder(s: State)
    requires Inv(s) && s.p3Mu.Some?
    ensures s.discovery.mu == s.p3Mu && InPhase3Section(s.goroutines[s.p3Mu.value].pc)
  {
    assert GoroutineOk(s, s.p3Mu.value);
  }

  lemma {:induction false} ActorKeptP3(s: State, step: Step)
    requires Inv(s) && Enabled(s, step) && (step.TryLock3? || step.FinishPhase3? || step.Unlock3?)
    ensures GoroutineOk(Apply(s, step), step.t)
  {
    assert GoroutineOk(s, step.t);
    if s.p3Mu.Some? {
      Phase3Holder(s);
    }
  }

  lemma {:induction false} ActorKeptBreaker(s: State, step: Step)
    requires Inv(s) && Enabled(s, step) && (step.AskBreaker? || step.Record?)
    ensures GoroutineOk(Apply(s, step), step.t)
  {
    assert GoroutineOk(s, step.t);
    assert LaneOk(s, s.goroutines[step.t].phase);
  }

  lemma {:induction false} ActorKept(s: State, step: Step)
    requires Inv(s) && Enabled(s, step) && !step.Tick?
    ensures GoroutineOk(Apply(s, step), step.t)
  {
    if step.TryLock3? || step.FinishPhase3? || step.Unlock3? {
      ActorKeptP3(s, step);
    } else if step.AskBreaker? || step.Record? {
      ActorKeptBreaker(s, step);
    } else {
      assert GoroutineOk(s, step.t);
    }
  }

  lemma {:induction false} RecordKeepsLane(s: State, t: nat)
    requires Inv(s) && Enabled(s, Record(t))
    ensures LaneOk(Apply(s, Record(t)), s.goroutines[t].phase)
  {
    assert GoroutineOk(s, t);
    var lane := LaneOf(s, s.goroutines[t].phase);
    if s.goroutines[t].pc == Failing {
      SpacedSnoc(lane.log, s.now);
      ConsistencyKept(lane.breaker, s.now);
    }
  }

  lemma {:induction false} AllowKeepsBreaker(b: Breaker, log: seq<Instant>, now: Instant)
    requires BreakerOk(b, log, now)
    ensures BreakerOk(AfterAllow(b, now), log, now)
  {
    ConsistencyKept(b, now);
  }

  lemma {:induction false} AskKeepsLane(s: State, t: nat)
    requires Inv(s) && Enabled(s, AskBreaker(t))
    ensures LaneOk(Apply(s, AskBreaker(t)), s.goroutines[t].phase)
  {
    assert GoroutineOk(s, t) && LaneOk(s, s.goroutines[t].phase);
    var lane := LaneOf(s, s.goroutines[t].phase);
    AllowKeepsBreaker(lane.breaker, lane.log, s.now);
  }

  lemma {:induction false} OtherLaneKept(s: State, step: Step, phase: Phase)
    requires Inv(s) && Enabled(s, step) && !step.Tick? && !step.Spawn? && s.goroutines[step.t].phase != phase
    ensures LaneOk(Apply(s, step), phase)
  {
    assert LaneOk(s, phase);
  }

  lemma {:induction false} TryLockKeepsLane(s: State, t: nat)
    requires Inv(s) && Enabled(s, TryLock(t))
    ensures LaneOk(Apply(s, TryLock(t)), s.goroutines[t].phase)
  {
    assert GoroutineOk(s, t);
    assert LaneOk(s, s.goroutines[t].phase);
  }

  lemma {:induction false} UnlockKeepsLane(s: State, t: nat)
    requires Inv(s) && Enabled(s, Unlock(t))
    ensures LaneOk(Apply(s, Unlock(t)), s.goroutines[t].phase)
  {
    assert GoroutineOk(s, t);
    assert LaneOk(s, s.goroutines[t].phase);
  }

  lemma {:induction false} MoveKeepsLane(s: State, step: Step)
    requires Inv(s) && Enabled(s, step) && !step.Tick? && !step.Spawn? && !step.Record? && !step.AskBreaker?
    requires !step.TryLock? && !step.Unlock?
    ensures LaneOk(Apply(s, step), s.goroutines[step.t].phase)
  {
    assert GoroutineOk(s, step.t);
    assert LaneOk(s, s.goroutines[step.t].phase);
  }

  lemma {:induction false} LaneKept(s: State, step: Step, phase: Phase)
    requires Inv(s) && Enabled(s, step)
    ensures LaneOk(Apply(s, step), phase)
  {
    if step.Tick? || step.Spawn? {
    } else if s.goroutines[step.t].phase != phase {
      OtherLaneKept(s, step, phase);
    } else if step.Record? {
      RecordKeepsLane(s, step.t);
    } else if step.AskBreaker? {
      AskKeepsLane(s, step.t);
    } else if step.TryLock? {
      TryLockKeepsLane(s, step.t);
    } else if step.Unlock? {
      UnlockKeepsLane(s, step.t);
    } else {
      MoveKeepsLane(s, step);
    }
  }

  lemma {:induction false} StepKeepsInv(s: State, step: Step)
    requires Inv(s) && Enabled(s, step)
    ensures Inv(Apply(s, step))
  {
    forall t: nat ensures GoroutineOk(Apply(s, step), t) {
      if step.Tick? || t != step.t {
        OthersKept(s, step, t);
      } else {
        ActorKept(s, step);
      }
    }
    LaneKept(s, step, Phase1);
    LaneKept(s, step, Phase2);
  }

  /** Every state of every run satisfies the invariants. */
  lemma {:induction false} RunKeepsInv(s: State, steps: seq<Step>)
    requires Inv(s) && IsRun(s, steps)
    ensures Inv(After(s, steps))
    decreases |steps|
  {
    if steps == [] {
    } else {
      StepKeepsInv(s, steps[0]);
      RunKeepsInv(Apply(s, steps[0]), steps[1..]);
    }
  }

  ghost predicate Reachable(s: State) {
    exists now: Instant, steps: seq<Step> :: IsRun(Initial(now), steps) && s == After(Initial(now), steps)
  }

  lemma {:induction false} ReachableInv(s: State)
    requires Reachable(s)
    ensures Inv(s)
  {
    var now: Instant, steps: seq<Step> :| IsRun(Initial(now), steps) && s == After(Initial(now), steps);
    RunKeepsInv(Initial(now), steps);
  }

  // ----------------------------------------------------------------- results

  /** At most one run of each phase is in progress, and phase 3 runs only in
      the goroutine that holds p1Mu and whose own phase 1 succeeded. */
  lemma {:induction false} MutualExclusion(s: State, t: nat, u: nat)
    requires Reachable(s) && t in s.goroutines && u in s.goroutines
    requires s.goroutines[t].phase == s.goroutines[u].phase
    requires InSection(s.goroutines[t].pc) && InSection(s.goroutines[u].pc)
    ensures t == u
    ensures InPhase3Section(s.goroutines[t].pc) ==>
              s.discovery.mu == Some(t) && s.goroutines[t].phase == Phase1 && s.goroutines[t].succeeded
  {
    ReachableInv(s);
    assert GoroutineOk(s, t) && GoroutineOk(s, u);
  }

  /** The TryLock of p3Mu never fails, although phase 1 cycles overlap: the
      "previous still running" branch of phase 3 is dead. */
  lemma {:induction false} Phase3LockIsFree(s: State, t: nat)
    requires Reachable(s) && Enabled(s, TryLock3(t))
    ensures s.p3Mu == None && s.discovery.mu == Some(t)
    ensures At(Apply(s, TryLock3(t)), t, InPhase3)
  {
    ReachableInv(s);
    assert GoroutineOk(s, t);
    if s.p3Mu.Some? {
      Phase3Holder(s);
    }
  }

  /** While a goroutine is between Allow and Record, no step of anybody else
      touches its breaker. */
  lemma {:induction false} BreakerIsPrivate(s: State, step: Step, t: nat)
    requires Reachable(s) && Enabled(s, step) && t in s.goroutines && InFlight(s.goroutines[t].pc)
    requires step.Tick? || step.t != t
    ensures LaneOf(Apply(s, step), s.goroutines[t].phase).breaker
            == LaneOf(s, s.goroutines[t].phase).breaker == s.goroutines[t].seen
  {
    ReachableInv(s);
    assert GoroutineOk(s, t);
    if !step.Tick? {
      assert GoroutineOk(s, step.t);
    }
  }

  /** What a call finds: Allow never finds the breaker half-open, Record never
      finds it open, and half-open means exactly one probe is in flight. */
  lemma {:induction false} BreakerStatesSeen(s: State, t: nat)
    requires Reachable(s) && t in s.goroutines
    ensures var g := s.goroutines[t];
            var b := LaneOf(s, g.phase).breaker;
            && (g.pc == Locked ==> b.state != HalfOpen)
            && (InFlight(g.pc) ==> b.state == Closed || b.state == HalfOpen)
            && (b.state == Closed ==> b.failures < 3) && (b.state != Closed ==> b.failures >= 3)
            && (b.state == HalfOpen ==>
                  exists u :: u in s.goroutines && s.goroutines[u].phase == g.phase && InFlight(s.goroutines[u].pc))
  {
    ReachableInv(s);
    assert GoroutineOk(s, t);
  }

  // ----------------------------------------------------------------- backoff

  /** min(3600, 60 * 2^(i-3)) seconds, summed over i = 3 .. n-1. */
  function Backoff(n: nat): nat {
    if n <= 3 then 0 else Backoff(n - 1) + Least(3600, 60 * Pow2(n - 1 - 3))
  }

  lemma {:induction false} SpacedTotal(log: seq<Instant>, n: nat)
    requires Spaced(log) && 3 <= n <= |log|
    ensures log[n - 1] - log[2] >= Backoff(n) * SECOND
  {
    if n > 3 {
      SpacedTotal(log, n - 1);
      CooldownFormula(n - 1);
      assert log[n - 1] - log[n - 2] >= Cooldown(n - 1);
    }
  }

  /** In every run, consecutive failures are spread out: from the third to
      the n-th failure without a success in between, at least the sum of the
      cooldowns passes. */
  lemma {:induction false} FailuresAreSpread(s: State, phase: Phase, n: nat)
    requires Reachable(s) && 3 <= n <= |LaneOf(s, phase).log|
    ensures LaneOf(s, phase).log[n - 1] - LaneOf(s, phase).log[2] >= Backoff(n) * SECOND
    ensures |LaneOf(s, phase).log| == LaneOf(s, phase).breaker.failures
  {
    ReachableInv(s);
    SpacedTotal(LaneOf(s, phase).log, n);
  }

  // ---------------------------------------------------------------- progress

  /** The most steps a goroutine still takes. */
  function StepsLeft(pc: Pc): nat {
    match pc
    case Spawned => 8
    case Locked => 7
    case Running => 6
    case Failing => 5
    case Succeeding => 5
    case Recorded => 4
    case InPhase3 => 3
    case LeavingPhase3 => 2
    case Unlocking => 1
    case Done => 0
  }

  /** The step is the goroutine's own, after it was spawned. */
  predicate IsOwn(step: Step, t: nat) {
    !step.Tick? && !step.Spawn? && step.t == t
  }

  function OwnSteps(steps: seq<Step>, t: nat): nat {
    if steps == [] then 0 else (if IsOwn(steps[0], t) then 1 else 0) + OwnSteps(steps[1..], t)
  }

  lemma {:induction false} StepProgress(s: State, step: Step, t: nat)
    requires Enabled(s, step) && t in s.goroutines
    ensures var after := Apply(s, step);
            && t in after.goroutines
            && (IsOwn(step, t) ==> StepsLeft(after.goroutines[t].pc) < StepsLeft(s.goroutines[t].pc))
            && (!IsOwn(step, t) ==> after.goroutines[t] == s.goroutines[t])
  {
  }

  lemma {:induction false} RunProgress(s: State, steps: seq<Step>, t: nat)
    requires IsRun(s, steps) && t in s.goroutines
    ensures t in After(s, steps).goroutines
    ensures OwnSteps(steps, t) + StepsLeft(After(s, steps).goroutines[t].pc) <= StepsLeft(s.goroutines[t].pc)
    decreases |steps|
  {
    if steps == [] {
    } else {
      StepProgress(s, steps[0], t);
      RunProgress(Apply(s, steps[0]), steps[1..], t);
    }
  }

  lemma {:induction false} NotYetSpawned(s: State, steps: seq<Step>, t: nat)
    requires IsRun(s, steps) && t !in s.goroutines
    ensures t in After(s, steps).goroutines ==> OwnSteps(steps, t) + StepsLeft(After(s, steps).goroutines[t].pc) <= 8
    decreases |steps|
  {
    if steps == [] {
    } else if steps[0].Spawn? && steps[0].t == t {
      RunProgress(Apply(s, steps[0]), steps[1..], t);
    } else {
      NotYetSpawned(Apply(s, steps[0]), steps[1..], t);
    }
  }

  /** In every run a goroutine takes at most eight steps of its own; once it is
      done it holds none of the three mutexes. */
  lemma {:induction false} GoroutineEnds(now: Instant, steps: seq<Step>, t: nat)
    requires IsRun(Initial(now), steps) && t in After(Initial(now), steps).goroutines
    ensures OwnSteps(steps, t) <= 8
    ensures OwnSteps(steps, t) == 8 ==> After(Initial(now), steps).goroutines[t].pc == Done
    ensures var s := After(Initial(now), steps);
            s.goroutines[t].pc == Done ==> s.discovery.mu != Some(t) && s.managed.mu != Some(t) && s.p3Mu != Some(t)
  {
    var s := After(Initial(now), steps);
    NotYetSpawned(Initial(now), steps, t);
    assert Reachable(s);
    ReachableInv(s);
    if s.goroutines[t].pc == Done {
      HoldsNothing(s, t);
    }
  }

  lemma {:induction false} HoldsNothing(s: State, t: nat)
    requires Inv(s) && t in s.goroutines && s.goroutines[t].pc == Done
    ensures s.discovery.mu != Some(t) && s.managed.mu != Some(t) && s.p3Mu != Some(t)
  {
    assert GoroutineOk(s, t);
    assert LaneOk(s, Phase1) && LaneOk(s, Phase2);
  }

  /** The goroutine's next step, whoever holds whatever mutex. */
  function NextStep(pc: Pc, t: nat): Step
    requires pc != Done
  {
    match pc
    case Spawned => TryLock(t)
    case Locked => AskBreaker(t)
    case Running => Finish(t, true)
    case Failing => Record(t)
    case Succeeding => Record(t)
    case Recorded => TryLock3(t)
    case InPhase3 => FinishPhase3(t)
    case LeavingPhase3 => Unlock3(t)
    case Unlocking => Unlock(t)
  }

  /** From every reachable state every goroutine can finish by itself, in at
      most eight steps, without any other goroutine moving: nobody waits for a
      lock, and when it is done its locks are free for the next one. */
  lemma {:induction false} CanFinishAlone(s: State, t: nat) returns (steps: seq<Step>)
    requires Inv(s) && t in s.goroutines
    ensures IsRun(s, steps) && |steps| == OwnSteps(steps, t) <= StepsLeft(s.goroutines[t].pc)
    ensures var u := After(s, steps);
            && At(u, t, Done) && u.discovery.mu != Some(t) && u.managed.mu != Some(t) && u.p3Mu != Some(t)
    decreases StepsLeft(s.goroutines[t].pc)
  {
    if s.goroutines[t].pc == Done {
      steps := [];
      HoldsNothing(s, t);
    } else {
      var step := NextStep(s.goroutines[t].pc, t);
      StepProgress(s, step, t);
      StepKeepsInv(s, step);
      var rest := CanFinishAlone(Apply(s, step), t);
      steps := [step] + rest;
      assert steps[1..] == rest;
    }
  }

  // ---------------------------------------------------------------- liveness

  lemma {:induction false} RunConcat(s: State, a: seq<Step>, b: seq<Step>)
    requires IsRun(s, a) && IsRun(After(s, a), b)
    ensures IsRun(s, a + b) && After(s, a + b) == After(After(s, a), b)
    decreases |a|
  {
    if a == [] {
      assert a + b == b;
    } else {
      assert (a + b)[1..] == a[1..] + b;
      RunConcat(Apply(s, a[0]), a[1..], b);
    }
  }

  lemma {:induction false} TwoSteps(s: State, a: Step, b: Step)
    requires Enabled(s, a) && Enabled(Apply(s, a), b)
    ensures IsRun(s, [a, b]) && After(s, [a, b]) == Apply(Apply(s, a), b)
  {
    assert [a, b][1..] == [b] && [b][1..] == [];
    assert IsRun(Apply(Apply(s, a), b), []);
    assert IsRun(Apply(s, a), [b]);
    assert After(Apply(s, a), [b]) == Apply(Apply(s, a), b);
  }

  /** A successful phase 1 is followed by phase 3 in the same goroutine,
      whatever the others are doing. */
  lemma {:induction false} Phase3Follows(s: State, t: nat)
    requires Reachable(s) && At(s, t, Succeeding) && s.goroutines[t].phase == Phase1
    ensures IsRun(s, [Record(t), TryLock3(t)])
    ensures At(After(s, [Record(t), TryLock3(t)]), t, InPhase3)
  {
    ReachableInv(s);
    var s1 := Apply(s, Record(t));
    StepKeepsInv(s, Record(t));
    assert GoroutineOk(s1, t);
    if s1.p3Mu.Some? {
      Phase3Holder(s1);
    }
    TwoSteps(s, Record(t), TryLock3(t));
  }

  /** In every run: a phase 1 goroutine that is done has run phase 3 once if
      its own run succeeded and never if not; phase 2 never runs phase 3. */
  lemma {:induction false} Phase3Exactly(s: State, t: nat)
    requires Reachable(s) && t in s.goroutines
    ensures var g := s.goroutines[t];
            && (g.pc == Done && g.phase == Phase1 ==> g.compared == if g.succeeded then 1 else 0)
            && (g.phase == Phase2 ==> g.compared == 0)
  {
    ReachableInv(s);
    assert GoroutineOk(s, t);
  }

  /** The breaker never keeps a phase out for more than an hour: whoever holds
      the mutex and asks an hour from now may run; a closed breaker lets it
      run at once. */
  lemma {:induction false} AllowedWithinTheHour(s: State, t: nat)
    requires Reachable(s) && At(s, t, Locked)
    ensures IsRun(s, [Tick(3600 * SECOND), AskBreaker(t)])
    ensures At(After(s, [Tick(3600 * SECOND), AskBreaker(t)]), t, Running)
    ensures LaneOf(s, s.goroutines[t].phase).breaker.state == Closed ==> At(Apply(s, AskBreaker(t)), t, Running)
  {
    ReachableInv(s);
    var b := LaneOf(s, s.goroutines[t].phase).breaker;
    assert LaneOk(s, s.goroutines[t].phase);
    CooldownBounds(b.failures, b.failures);
    TwoSteps(s, Tick(3600 * SECOND), AskBreaker(t));
  }

  /** A goroutine that finds its mutex taken, or its breaker open and not yet
      cooled down, does nothing. */
  lemma {:induction false} SkippedCycle(s: State, t: nat)
    requires Reachable(s) && t in s.goroutines
    ensures var phase := s.goroutines[t].phase;
            At(s, t, Spawned) && LaneOf(s, phase).mu.Some? ==>
              var u := Apply(s, TryLock(t));
              At(u, t, Done) && u.discovery == s.discovery && u.managed == s.managed && u.p3Mu == s.p3Mu
    ensures var phase := s.goroutines[t].phase;
            var b := LaneOf(s, phase).breaker;
            At(s, t, Locked) && b.state == Open && s.now - b.openedAt < CooldownSeconds(b.failures) * SECOND ==>
              && IsRun(s, [AskBreaker(t), Unlock(t)])
              && var u := After(s, [AskBreaker(t), Unlock(t)]);
                 At(u, t, Done) && LaneOf(u, phase) == LaneOf(s, phase).(mu := None) && u.p3Mu == s.p3Mu
  {
    ReachableInv(s);
    assert GoroutineOk(s, t) && LaneOk(s, s.goroutines[t].phase);
    var b := LaneOf(s, s.goroutines[t].phase).breaker;
    if At(s, t, Locked) && !Allows(b, s.now) {
      TwoSteps(s, AskBreaker(t), Unlock(t));
    }
  }

  // ------------------------------------------------------- a cycle on its own

  /** Nobody holds the mutex, and the breaker lets the phase run. */
  predicate MayRun(s: State, phase: Phase) {
    var lane := LaneOf(s, phase);
    lane.mu.None? && (lane.breaker.state == Open ==> s.now - lane.breaker.openedAt >= 3600 * SECOND)
  }

  lemma {:induction false} Begins(s: State, t: nat)
    requires Inv(s) && At(s, t, Spawned) && MayRun(s, s.goroutines[t].phase)
    ensures IsRun(s, [TryLock(t), AskBreaker(t)])
    ensures var u, g := After(s, [TryLock(t), AskBreaker(t)]), s.goroutines[t];
            var lane, b := LaneOf(u, g.phase), LaneOf(s, g.phase).breaker;
            && At(u, t, Running) && u.goroutines[t].phase == g.phase && u.now == s.now
            && lane.breaker.failures == b.failures && lane.begun == LaneOf(s, g.phase).begun + [s.now]
            && lane.ended == LaneOf(s, g.phase).ended
  {
    assert GoroutineOk(s, t) && LaneOk(s, s.goroutines[t].phase);
    var b := LaneOf(s, s.goroutines[t].phase).breaker;
    CooldownBounds(b.failures, b.failures);
    TwoSteps(s, TryLock(t), AskBreaker(t));
  }

  lemma {:induction false} Records(s: State, t: nat, ok: bool)
    requires Inv(s) && At(s, t, Running)
    ensures IsRun(s, [Finish(t, ok), Record(t)])
    ensures var u, g := After(s, [Finish(t, ok), Record(t)]), s.goroutines[t];
            var lane, b := LaneOf(u, g.phase), LaneOf(s, g.phase).breaker;
            && At(u, t, if ok && g.phase == Phase1 then Recorded else Unlocking)
            && u.goroutines[t].phase == g.phase && u.goroutines[t].succeeded == ok && u.now == s.now
            && lane.breaker.failures == (if ok then 0 else b.failures + 1)
            && lane.breaker.state == (if !ok && b.failures >= 2 then Open else Closed)
            && lane.begun == LaneOf(s, g.phase).begun && lane.ended == LaneOf(s, g.phase).ended + [s.now]
  {
    assert GoroutineOk(s, t) && LaneOk(s, s.goroutines[t].phase);
    RecordExact(LaneOf(s, s.goroutines[t].phase).breaker, s.now);
    TwoSteps(s, Finish(t, ok), Record(t));
  }

  /** Phase 3, and then the lock is released. */
  function Rest(t: nat, inPhase3: bool): seq<Step> {
    if inPhase3 then [TryLock3(t), FinishPhase3(t)] + [Unlock3(t), Unlock(t)] else [Unlock(t)]
  }

  lemma {:induction false} RestRuns(s: State, t: nat)
    requires Inv(s) && (At(s, t, Recorded) || At(s, t, Unlocking))
    ensures IsRun(s, Rest(t, At(s, t, Recorded)))
    ensures var u, g := After(s, Rest(t, At(s, t, Recorded))), s.goroutines[t];
            && At(u, t, Done) && u.goroutines[t].succeeded == g.succeeded
            && u.goroutines[t].compared == g.compared + (if At(s, t, Recorded) then 1 else 0)
            && LaneOf(u, g.phase) == LaneOf(s, g.phase).(mu := None)
  {
    assert GoroutineOk(s, t);
    if At(s, t, Recorded) {
      if s.p3Mu.Some? {
        Phase3Holder(s);
      }
      var s2 := Apply(Apply(s, TryLock3(t)), FinishPhase3(t));
      TwoSteps(s, TryLock3(t), FinishPhase3(t));
      TwoSteps(s2, Unlock3(t), Unlock(t));
      RunConcat(s, [TryLock3(t), FinishPhase3(t)], [Unlock3(t), Unlock(t)]);
    } else {
      assert [Unlock(t)][1..] == [];
    }
  }

  lemma {:induction false} SpawnedCycle(s: State, t: nat, ok: bool)
    requires Inv(s) && At(s, t, Spawned) && MayRun(s, s.goroutines[t].phase)
    ensures var g := s.goroutines[t];
            var steps := [TryLock(t), AskBreaker(t)] + ([Finish(t, ok), Record(t)] + Rest(t, ok && g.phase == Phase1));
            IsRun(s, steps) && HasCycled(s, After(s, steps), t, g.phase, ok)
  {
    Begins(s, t);
    var begin, record := [TryLock(t), AskBreaker(t)], [Finish(t, ok), Record(t)];
    var s1 := After(s, begin);
    RunKeepsInv(s, begin);
    Records(s1, t, ok);
    var s2 := After(s1, record);
    RunKeepsInv(s1, record);
    RestRuns(s2, t);
    assert GoroutineOk(s2, t);
    var rest := Rest(t, ok && s.goroutines[t].phase == Phase1);
    RunConcat(s1, record, rest);
    RunConcat(s, begin, record + rest);
  }

  /** What one cycle does: the phase has run once, its outcome is what the
      breaker recorded, phase 3 has run exactly after a successful phase 1,
      and the mutex is free again. */
  ghost predicate HasCycled(s: State, u: State, t: nat, phase: Phase, ok: bool) {
    var before, lane := LaneOf(s, phase), LaneOf(u, phase);
    && At(u, t, Done) && u.goroutines[t].compared == (if ok && phase == Phase1 then 1 else 0)
    && lane.mu == None && lane.breaker.failures == (if ok then 0 else before.breaker.failures + 1)
    && lane.breaker.state == (if !ok && before.breaker.failures >= 2 then Open else Closed)
    && lane.begun == before.begun + [s.now] && lane.ended == before.ended + [s.now]
  }

  /** A cycle from the timer to its end, whenever the mutex is free and the
      breaker lets the phase run. */
  lemma {:induction false} WholeCycle(s: State, t: nat, phase: Phase, ok: bool)
    requires Reachable(s) && t !in s.goroutines && MayRun(s, phase)
    ensures var steps := [Spawn(t, phase)] + ([TryLock(t), AskBreaker(t)] + ([Finish(t, ok), Record(t)]
                                                                             + Rest(t, ok && phase == Phase1)));
            IsRun(s, steps) && HasCycled(s, After(s, steps), t, phase, ok)
  {
    var s1 := Apply(s, Spawn(t, phase));
    ReachableInv(s);
    StepKeepsInv(s, Spawn(t, phase));
    SpawnedCycle(s1, t, ok);
    var steps := [TryLock(t), AskBreaker(t)] + ([Finish(t, ok), Record(t)] + Rest(t, ok && phase == Phase1));
    assert [Spawn(t, phase)][1..] == [];
    RunConcat(s, [Spawn(t, phase)], steps);
  }
}
