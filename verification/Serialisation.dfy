/** The runs of a phase happen one after the other (internal/engine/engine.go):
    what the tables take for granted of the starts of syncs and the times of
    classify statements. */
module Serialisation {
  import opened Clock
  import opened Scheduler

  /** The runs that have ended lie one behind the other, all in the past. */
  ghost predicate InOrder(begun: seq<Instant>, ended: seq<Instant>, now: Instant) {
    && |ended| <= |begun| <= |ended| + 1
    && (forall i :: 0 <= i < |begun| ==> begun[i] <= now)
    && (forall i :: 0 <= i < |ended| ==> begun[i] <= ended[i] <= now)
    && (forall i, j :: 0 <= i < j < |begun| ==> ended[i] <= begun[j])
  }

  /** The goroutine that holds the mutex of the phase is running it. */
  predicate IsRunning(s: State, phase: Phase) {
    var mu := LaneOf(s, phase).mu;
    mu.Some? && mu.value in s.goroutines && s.goroutines[mu.value].pc == Running
  }

  ghost predicate Serial(s: State, phase: Phase) {
    var lane := LaneOf(s, phase);
    && InOrder(lane.begun, lane.ended, s.now)
    && (IsRunning(s, phase) <==> |lane.begun| == |lane.ended| + 1)
  }

  lemma {:induction false} BeginsInOrder(begun: seq<Instant>, ended: seq<Instant>, now: Instant)
    requires InOrder(begun, ended, now) && |begun| == |ended|
    ensures InOrder(begun + [now], ended, now)
  {
  }

  lemma {:induction false} EndsInOrder(begun: seq<Instant>, ended: seq<Instant>, now: Instant)
    requires InOrder(begun, ended, now) && |begun| == |ended| + 1
    ensures InOrder(begun, ended + [now], now)
  {
  }

  lemma {:induction false} AskStaysSerial(s: State, t: nat)
    requires Inv(s) && Enabled(s, AskBreaker(t)) && Serial(s, s.goroutines[t].phase)
    ensures Serial(Apply(s, AskBreaker(t)), s.goroutines[t].phase)
  {
    assert GoroutineOk(s, t);
    var lane := LaneOf(s, s.goroutines[t].phase);
    BeginsInOrder(lane.begun, lane.ended, s.now);
  }

  lemma {:induction false} FinishStaysSerial(s: State, t: nat)
    requires Inv(s) && Enabled(s, Finish(t, true)) && Serial(s, s.goroutines[t].phase)
    ensures forall ok :: Serial(Apply(s, Finish(t, ok)), s.goroutines[t].phase)
  {
    assert GoroutineOk(s, t);
    var lane := LaneOf(s, s.goroutines[t].phase);
    EndsInOrder(lane.begun, lane.ended, s.now);
  }

  lemma {:induction false} MoveStaysSerial(s: State, step: Step)
    requires Inv(s) && Enabled(s, step) && !step.Tick? && !step.Spawn? && !step.AskBreaker? && !step.Finish?
    requires Serial(s, s.goroutines[step.t].phase)
    ensures Serial(Apply(s, step), s.goroutines[step.t].phase)
  {
    assert GoroutineOk(s, step.t);
  }

  lemma {:induction false} OtherPhaseStaysSerial(s: State, step: Step, phase: Phase)
    requires Inv(s) && Enabled(s, step) && !step.Tick? && !step.Spawn? && s.goroutines[step.t].phase != phase
    requires Serial(s, phase)
    ensures Serial(Apply(s, step), phase)
  {
    assert LaneOk(s, phase);
  }

  lemma {:induction false} SpawnStaysSerial(s: State, step: Step, phase: Phase)
    requires Inv(s) && Enabled(s, step) && (step.Tick? || step.Spawn?) && Serial(s, phase)
    ensures Serial(Apply(s, step), phase)
  {
    assert LaneOk(s, phase);
  }

  lemma {:induction false} StepStaysSerial(s: State, step: Step, phase: Phase)
    requires Inv(s) && Enabled(s, step) && Serial(s, phase)
    ensures Serial(Apply(s, step), phase)
  {
    if step.Tick? || step.Spawn? {
      SpawnStaysSerial(s, step, phase);
    } else if s.goroutines[step.t].phase != phase {
      OtherPhaseStaysSerial(s, step, phase);
    } else if step.AskBreaker? {
      AskStaysSerial(s, step.t);
    } else if step.Finish? {
      FinishStaysSerial(s, step.t);
    } else {
      MoveStaysSerial(s, step);
    }
  }

  lemma {:induction false} RunStaysSerial(s: State, steps: seq<Step>, phase: Phase)
    requires Inv(s) && IsRun(s, steps) && Serial(s, phase)
    ensures Serial(After(s, steps), phase)
    decreases |steps|
  {
    if steps == [] {
    } else {
      StepStaysSerial(s, steps[0], phase);
      StepKeepsInv(s, steps[0]);
      RunStaysSerial(Apply(s, steps[0]), steps[1..], phase);
    }
  }

  /** In every run, a run of a phase begins only after the one before has
      ended; so if runs take time, their starts strictly increase. */
  lemma {:induction false} RunsDoNotOverlap(now: Instant, steps: seq<Step>, phase: Phase)
    requires IsRun(Initial(now), steps)
    ensures var lane := LaneOf(After(Initial(now), steps), phase);
            && |lane.ended| <= |lane.begun| <= |lane.ended| + 1
            && (forall i, j :: 0 <= i < j < |lane.begun| ==> lane.begun[i] <= lane.ended[i] <= lane.begun[j])
            && ((forall i :: 0 <= i < |lane.ended| ==> lane.begun[i] < lane.ended[i]) ==>
                  forall i, j :: 0 <= i < j < |lane.begun| ==> lane.begun[i] < lane.begun[j])
  {
    assert Inv(Initial(now));
    RunStaysSerial(Initial(now), steps, phase);
  }
}
