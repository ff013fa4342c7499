/** Fetching the details of many APIs at once (`FetchDetails` in
    internal/apim/publisher.go): a semaphore bounds the fetches, a mutex guards
    the shared results, a wait group holds the caller back. One step is one
    atomic action of the caller or of one worker goroutine. */
module FetchDetails {
  import Expander
  import opened Options
  import opened Sequences

  type Detail = Expander.ApiDetail

  /** What one fetch returned; None is an error. */
  type Outcome = Option<Detail>

  /** Where a worker stands. The deferred calls run in reverse order: unlock,
      release the semaphore, wg.Done. */
  datatype Worker =
    | Fetching
    | Fetched(outcome: Outcome)     // before mu.Lock
    | Locked(outcome: Outcome)      // holds mu, before append
    | Appended(outcome: Outcome)    // holds mu
    | Unlocked(outcome: Outcome)    // before <-sem
    | Released(outcome: Outcome)    // before wg.Done
    | Gone(outcome: Outcome)

  /** The caller: at the head of the loop, after wg.Add, after sem <-, or returned. */
  datatype Caller = Looping | Added | Acquired | Returned(failed: bool)

  datatype Result = Result(index: nat, detail: Detail)

  /** One worker per index already started; `sem` counts taken slots, `wg` the
      wait group, `mu` names the holder of the mutex. */
  datatype State = State(
    caller: Caller, workers: seq<Worker>, sem: nat, wg: nat, mu: Option<nat>,
    results: seq<Result>, errs: seq<nat>)

  /** Number of ids, and the capacity of the semaphore. */
  datatype Config = Config(ids: nat, capacity: nat)

  function Concurrency(configured: int): (capacity: nat)
    ensures capacity >= 1 && (configured > 0 ==> capacity == configured) && (configured <= 0 ==> capacity == 5)
  {
    if configured <= 0 then 5 else configured
  }

  datatype Step =
    | Add | Acquire | Go | Return
    | Fetch(i: nat, outcome: Outcome)
    | Lock(i: nat) | Append(i: nat) | Unlock(i: nat) | Release(i: nat) | Finish(i: nat)

  predicate Enabled(cfg: Config, s: State, step: Step) {
    match step
    case Add => s.caller == Looping && |s.workers| < cfg.ids
    case Acquire => s.caller == Added && s.sem < cfg.capacity
    case Go => s.caller == Acquired
    case Return => s.caller == Looping && |s.workers| == cfg.ids && s.wg == 0
    case Fetch(i, _) => i < |s.workers| && s.workers[i].Fetching?
    case Lock(i) => i < |s.workers| && s.workers[i].Fetched? && s.mu == None
    case Append(i) => i < |s.workers| && s.workers[i].Locked?
    case Unlock(i) => i < |s.workers| && s.workers[i].Appended?
    case Release(i) => i < |s.workers| && s.workers[i].Unlocked? && s.sem > 0
    case Finish(i) => i < |s.workers| && s.workers[i].Released? && s.wg > 0
  }

  function Set(s: State, i: nat, w: Worker): State
    requires i < |s.workers|
  {
    s.(workers := s.workers[i := w])
  }

  function Apply(cfg: Config, s: State, step: Step): State
    requires Enabled(cfg, s, step)
  {
    match step
    case Add => s.(caller := Added, wg := s.wg + 1)
    case Acquire => s.(caller := Acquired, sem := s.sem + 1)
    case Go => s.(caller := Looping, workers := s.workers + [Fetching])
    case Return => s.(caller := Returned(s.errs != []))
    case Fetch(i, outcome) => Set(s, i, Fetched(outcome))
    case Lock(i) => Set(s, i, Locked(s.workers[i].outcome)).(mu := Some(i))
    case Append(i) =>
      var t := Set(s, i, Appended(s.workers[i].outcome));
      (match s.workers[i].outcome
       case None => t.(errs := s.errs + [i])
       case Some(detail) => t.(results := s.results + [Result(i, detail)]))
    case Unlock(i) => Set(s, i, Unlocked(s.workers[i].outcome)).(mu := None)
    case Release(i) => Set(s, i, Released(s.workers[i].outcome)).(sem := s.sem - 1)
    case Finish(i) => Set(s, i, Gone(s.workers[i].outcome)).(wg := s.wg - 1)
  }

  const INITIAL := State(Looping, [], 0, 0, None, [], [])

  ghost predicate IsRun(cfg: Config, s: State, steps: seq<Step>)
    decreases |steps|
  {
    steps == [] || (Enabled(cfg, s, steps[0]) && IsRun(cfg, Apply(cfg, s, steps[0]), steps[1..]))
  }

  function After(cfg: Config, s: State, steps: seq<Step>): State
    requires IsRun(cfg, s, steps)
    decreases |steps|
  {
    if steps == [] then s else After(cfg, Apply(cfg, s, steps[0]), steps[1..])
  }

  // ---------------------------------------------------------------- counting

  function Count(p: Worker -> bool, ws: seq<Worker>): nat {
    if ws == [] then 0 else Count(p, ws[..|ws| - 1]) + if p(ws[|ws| - 1]) then 1 else 0
  }

  lemma {:induction false} CountSnoc(p: Worker -> bool, ws: seq<Worker>, w: Worker)
    ensures Count(p, ws + [w]) == Count(p, ws) + if p(w) then 1 else 0
  {
    assert (ws + [w])[..|ws|] == ws;
  }

  lemma {:induction false} CountUpdate(p: Worker -> bool, ws: seq<Worker>, i: nat, w: Worker)
    requires i < |ws|
    ensures Count(p, ws[i := w]) + (if p(ws[i]) then 1 else 0) == Count(p, ws) + (if p(w) then 1 else 0)
  {
    var k := |ws| - 1;
    if i < k {
      CountUpdate(p, ws[..k], i, w);
      assert ws[i := w][..k] == ws[..k][i := w];
    } else {
      assert ws[i := w][..k] == ws[..k];
    }
  }

  lemma {:induction false} CountPositive(p: Worker -> bool, ws: seq<Worker>) returns (i: nat)
    requires Count(p, ws) > 0
    ensures i < |ws| && p(ws[i])
  {
    var k := |ws| - 1;
    if p(ws[k]) {
      i := k;
    } else {
      i := CountPositive(p, ws[..k]);
    }
  }

  lemma {:induction false} CountWitness(p: Worker -> bool, ws: seq<Worker>, i: nat)
    requires i < |ws| && p(ws[i])
    ensures Count(p, ws) > 0
  {
    var k := |ws| - 1;
    if i < k {
      CountWitness(p, ws[..k], i);
    }
  }

  lemma {:induction false} CountLess(p: Worker -> bool, q: Worker -> bool, ws: seq<Worker>)
    requires forall w :: p(w) ==> q(w)
    ensures Count(p, ws) <= Count(q, ws)
  {
    if ws == [] {
    } else {
      CountLess(p, q, ws[..|ws| - 1]);
    }
  }

  // -------------------------------------------------------------- invariants

  predicate InFlight(w: Worker) { w.Fetching? }
  predicate HoldsSlot(w: Worker) { !w.Released? && !w.Gone? }
  predicate Alive(w: Worker) { !w.Gone? }
  predicate HoldsMutex(w: Worker) { w.Locked? || w.Appended? }
  predicate HasReported(w: Worker) { w.Appended? || w.Unlocked? || w.Released? || w.Gone? }

  /** The semaphore counts the workers that hold a slot, and one the caller has
      taken for the next worker. */
  predicate SlotsCounted(cfg: Config, s: State) {
    s.sem == Count(HoldsSlot, s.workers) + (if s.caller == Acquired then 1 else 0) && s.sem <= cfg.capacity
  }

  /** The wait group counts the living workers, and one already added. */
  predicate WorkersCounted(s: State) {
    s.wg == Count(Alive, s.workers) + if s.caller == Added || s.caller == Acquired then 1 else 0
  }

  ghost predicate MutexHeld(s: State) {
    forall i: nat :: i < |s.workers| ==> (HoldsMutex(s.workers[i]) <==> s.mu == Some(i))
  }

  predicate MutexHolderExists(s: State) {
    s.mu.Some? ==> s.mu.value < |s.workers|
  }

  /** Every worker past its append has left exactly what it fetched. */
  ghost predicate Reported(s: State) {
    && NoDuplicates(s.results) && NoDuplicates(s.errs)
    && (forall r :: r in s.results <==>
          r.index < |s.workers| && HasReported(s.workers[r.index]) && s.workers[r.index].outcome == Some(r.detail))
    && (forall i: nat :: i in s.errs <==>
          i < |s.workers| && HasReported(s.workers[i]) && s.workers[i].outcome == None)
  }

  predicate CallerOk(cfg: Config, s: State) {
    && |s.workers| <= cfg.ids
    && (s.caller == Added || s.caller == Acquired ==> |s.workers| < cfg.ids)
    && (s.caller.Returned? ==> |s.workers| == cfg.ids && s.wg == 0 && s.caller.failed == (s.errs != []))
  }

  ghost predicate Inv(cfg: Config, s: State) {
    && SlotsCounted(cfg, s) && WorkersCounted(s) && MutexHeld(s) && MutexHolderExists(s)
    && Reported(s) && CallerOk(cfg, s)
  }

  // -------------------------------------------------------- every step keeps it

  lemma {:induction false} UpdateCounts(s: State, i: nat, w: Worker)
    requires i < |s.workers|
    ensures Count(HoldsSlot, s.workers[i := w]) + (if HoldsSlot(s.workers[i]) then 1 else 0)
            == Count(HoldsSlot, s.workers) + (if HoldsSlot(w) then 1 else 0)
    ensures Count(Alive, s.workers[i := w]) + (if Alive(s.workers[i]) then 1 else 0)
            == Count(Alive, s.workers) + (if Alive(w) then 1 else 0)
  {
    CountUpdate(HoldsSlot, s.workers, i, w);
    CountUpdate(Alive, s.workers, i, w);
  }

  /** Nobody has reported more than before. */
  lemma {:induction false} ReportedStays(s: State, t: State)
    requires Reported(s) && t.results == s.results && t.errs == s.errs && |s.workers| <= |t.workers|
    requires forall i :: 0 <= i < |t.workers| ==>
               (HasReported(t.workers[i]) <==> i < |s.workers| && HasReported(s.workers[i]))
    requires forall i :: 0 <= i < |s.workers| && HasReported(s.workers[i]) ==>
               HasReported(t.workers[i]) && t.workers[i].outcome == s.workers[i].outcome
    ensures Reported(t)
  {
  }

  lemma {:induction false} CallerKeepsInv(cfg: Config, s: State, step: Step)
    requires Inv(cfg, s) && Enabled(cfg, s, step) && (step.Add? || step.Acquire? || step.Go? || step.Return?)
    ensures Inv(cfg, Apply(cfg, s, step))
  {
    var t := Apply(cfg, s, step);
    if step.Go? {
      CountSnoc(HoldsSlot, s.workers, Fetching);
      CountSnoc(Alive, s.workers, Fetching);
    }
    ReportedStays(s, t);
  }

  lemma {:induction false} MutexKeepsInv(cfg: Config, s: State, step: Step)
    requires Inv(cfg, s) && Enabled(cfg, s, step) && (step.Fetch? || step.Lock? || step.Unlock?)
    ensures Inv(cfg, Apply(cfg, s, step))
  {
    var t := Apply(cfg, s, step);
    UpdateCounts(s, step.i, t.workers[step.i]);
    CountWitness(Alive, s.workers, step.i);
    ReportedStays(s, t);
  }

  lemma {:induction false} LeavingKeepsInv(cfg: Config, s: State, step: Step)
    requires Inv(cfg, s) && Enabled(cfg, s, step) && (step.Release? || step.Finish?)
    ensures Inv(cfg, Apply(cfg, s, step))
  {
    var t := Apply(cfg, s, step);
    UpdateCounts(s, step.i, t.workers[step.i]);
    CountWitness(Alive, s.workers, step.i);
    ReportedStays(s, t);
  }

  lemma {:induction false} AppendKeepsInv(cfg: Config, s: State, i: nat)
    requires Inv(cfg, s) && Enabled(cfg, s, Append(i))
    ensures Inv(cfg, Apply(cfg, s, Append(i)))
  {
    var t := Apply(cfg, s, Append(i));
    UpdateCounts(s, i, t.workers[i]);
    CountWitness(Alive, s.workers, i);
    AppendReports(cfg, s, i);
  }

  lemma {:induction false} AppendReports(cfg: Config, s: State, i: nat)
    requires Reported(s) && Enabled(cfg, s, Append(i))
    ensures Reported(Apply(cfg, s, Append(i)))
  {
    var t := Apply(cfg, s, Append(i));
    match s.workers[i].outcome
    case None =>
      assert i !in s.errs;
      assert forall k :: k in t.errs <==> k in s.errs || k == i;
    case Some(detail) =>
      assert Result(i, detail) !in s.results;
      assert forall r :: r in t.results <==> r in s.results || r == Result(i, detail);
  }

  lemma {:induction false} StepKeepsInv(cfg: Config, s: State, step: Step)
    requires Inv(cfg, s) && Enabled(cfg, s, step)
    ensures Inv(cfg, Apply(cfg, s, step))
  {
    match step {
      case Append(i) => AppendKeepsInv(cfg, s, i);
      case Add => CallerKeepsInv(cfg, s, step);
      case Acquire => CallerKeepsInv(cfg, s, step);
      case Go => CallerKeepsInv(cfg, s, step);
      case Return => CallerKeepsInv(cfg, s, step);
      case Release(_) => LeavingKeepsInv(cfg, s, step);
      case Finish(_) => LeavingKeepsInv(cfg, s, step);
      case _ => MutexKeepsInv(cfg, s, step);
    }
  }

  lemma {:induction false} RunKeepsInv(cfg: Config, s: State, steps: seq<Step>)
    requires Inv(cfg, s) && IsRun(cfg, s, steps)
    ensures Inv(cfg, After(cfg, s, steps))
    decreases |steps|
  {
    if steps == [] {
    } else {
      StepKeepsInv(cfg, s, steps[0]);
      RunKeepsInv(cfg, Apply(cfg, s, steps[0]), steps[1..]);
    }
  }

  // ----------------------------------------------------------------- theorems

  /** In every interleaving at most `capacity` fetches are in flight, and the
      shared slices are only touched by the one worker that holds the mutex. */
  lemma {:induction false} BoundedAndExclusive(cfg: Config, steps: seq<Step>)
    requires IsRun(cfg, INITIAL, steps)
    ensures var s := After(cfg, INITIAL, steps);
            && Count(InFlight, s.workers) <= cfg.capacity
            && (forall i, j :: 0 <= i < j < |s.workers| ==> !(HoldsMutex(s.workers[i]) && HoldsMutex(s.workers[j])))
  {
    var s := After(cfg, INITIAL, steps);
    RunKeepsInv(cfg, INITIAL, steps);
    CountLess(InFlight, HoldsSlot, s.workers);
  }

  /** When the call returns, every id is accounted for exactly once: its detail
      among the results or its index among the errors, and the call fails
      exactly when some fetch failed. */
  lemma {:induction false} EveryIdOnce(cfg: Config, steps: seq<Step>)
    requires IsRun(cfg, INITIAL, steps) && After(cfg, INITIAL, steps).caller.Returned?
    ensures var s := After(cfg, INITIAL, steps);
            && |s.workers| == cfg.ids
            && NoDuplicates(s.results) && NoDuplicates(s.errs)
            && (forall r :: r in s.results <==> r.index < cfg.ids && s.workers[r.index] == Gone(Some(r.detail)))
            && (forall i: nat :: i in s.errs <==> i < cfg.ids && s.workers[i] == Gone(None))
            && (forall i: nat :: i < cfg.ids ==> s.workers[i].Gone?)
            && (s.caller.failed <==> exists i: nat :: i < cfg.ids && s.workers[i] == Gone(None))
  {
    var s := After(cfg, INITIAL, steps);
    RunKeepsInv(cfg, INITIAL, steps);
    forall i: nat | i < cfg.ids ensures s.workers[i].Gone? {
      if Alive(s.workers[i]) {
        CountWitness(Alive, s.workers, i);
      }
    }
    if s.errs != [] {
      assert s.errs[0] in s.errs;
    }
  }

  /** The step a living worker can take, or the holder of the mutex in its place. */
  lemma {:induction false} WorkerCanMove(cfg: Config, s: State, i: nat) returns (step: Step)
    requires Inv(cfg, s) && i < |s.workers| && Alive(s.workers[i])
    ensures Enabled(cfg, s, step)
  {
    CountWitness(Alive, s.workers, i);
    var j := i;
    if s.workers[i].Fetched? && s.mu.Some? {
      j := s.mu.value;
      assert HoldsMutex(s.workers[j]);
    }
    match s.workers[j]
    case Fetching => step := Fetch(j, None);
    case Fetched(_) => step := Lock(j);
    case Locked(_) => step := Append(j);
    case Appended(_) => step := Unlock(j);
    case Unlocked(_) =>
      CountWitness(HoldsSlot, s.workers, j);
      step := Release(j);
    case Released(_) => step := Finish(j);
  }

  /** Until the call returns, some step is enabled: neither the semaphore, nor
      the mutex, nor the wait group can block it for good. */
  lemma {:induction false} NeverStuck(cfg: Config, s: State) returns (step: Step)
    requires Inv(cfg, s) && cfg.capacity >= 1 && !s.caller.Returned?
    ensures Enabled(cfg, s, step)
  {
    match s.caller
    case Looping =>
      if |s.workers| < cfg.ids {
        step := Add;
      } else if s.wg == 0 {
        step := Return;
      } else {
        var i := CountPositive(Alive, s.workers);
        step := WorkerCanMove(cfg, s, i);
      }
    case Added =>
      if s.sem < cfg.capacity {
        step := Acquire;
      } else {
        var i := CountPositive(HoldsSlot, s.workers);
        step := WorkerCanMove(cfg, s, i);
      }
    case Acquired => step := Go;
  }

  // ------------------------------------------------------------- termination

  function WorkLeft(w: Worker): nat {
    match w
    case Fetching => 6
    case Fetched(_) => 5
    case Locked(_) => 4
    case Appended(_) => 3
    case Unlocked(_) => 2
    case Released(_) => 1
    case Gone(_) => 0
  }

  function WorkersLeft(ws: seq<Worker>): nat {
    if ws == [] then 0 else WorkersLeft(ws[..|ws| - 1]) + WorkLeft(ws[|ws| - 1])
  }

  lemma {:induction false} WorkersLeftUpdate(ws: seq<Worker>, i: nat, w: Worker)
    requires i < |ws|
    ensures WorkersLeft(ws[i := w]) + WorkLeft(ws[i]) == WorkersLeft(ws) + WorkLeft(w)
  {
    var k := |ws| - 1;
    if i < k {
      WorkersLeftUpdate(ws[..k], i, w);
      assert ws[i := w][..k] == ws[..k][i := w];
    } else {
      assert ws[i := w][..k] == ws[..k];
    }
  }

  lemma {:induction false} WorkersLeftSnoc(ws: seq<Worker>, w: Worker)
    ensures WorkersLeft(ws + [w]) == WorkersLeft(ws) + WorkLeft(w)
  {
    assert (ws + [w])[..|ws|] == ws;
  }

  /** The steps still to come: nine for an id not begun, and the return. */
  function StepsLeft(cfg: Config, s: State): int {
    9 * (cfg.ids - |s.workers|) + WorkersLeft(s.workers)
    + match s.caller case Looping => 1 case Added => 0 case Acquired => -1 case Returned(_) => 0
  }

  lemma {:induction false} CallerStepCounts(cfg: Config, s: State, step: Step)
    requires Enabled(cfg, s, step) && (step.Add? || step.Acquire? || step.Go? || step.Return?)
    ensures StepsLeft(cfg, Apply(cfg, s, step)) == StepsLeft(cfg, s) - 1
  {
    if step.Go? {
      WorkersLeftSnoc(s.workers, Fetching);
    }
  }

  lemma {:induction false} WorkerStepCounts(cfg: Config, s: State, step: Step)
    requires Enabled(cfg, s, step) && !(step.Add? || step.Acquire? || step.Go? || step.Return?)
    ensures StepsLeft(cfg, Apply(cfg, s, step)) == StepsLeft(cfg, s) - 1
  {
    var w := Apply(cfg, s, step).workers[step.i];
    assert Apply(cfg, s, step).workers == s.workers[step.i := w];
    assert WorkLeft(w) == WorkLeft(s.workers[step.i]) - 1;
    WorkersLeftUpdate(s.workers, step.i, w);
  }

  lemma {:induction false} StepCounts(cfg: Config, s: State, step: Step)
    requires Enabled(cfg, s, step)
    ensures StepsLeft(cfg, Apply(cfg, s, step)) == StepsLeft(cfg, s) - 1
  {
    if step.Add? || step.Acquire? || step.Go? || step.Return? {
      CallerStepCounts(cfg, s, step);
    } else {
      WorkerStepCounts(cfg, s, step);
    }
  }

  lemma {:induction false} RunCounts(cfg: Config, s: State, steps: seq<Step>)
    requires IsRun(cfg, s, steps)
    ensures StepsLeft(cfg, After(cfg, s, steps)) == StepsLeft(cfg, s) - |steps|
    decreases |steps|
  {
    if steps == [] {
    } else {
      StepCounts(cfg, s, steps[0]);
      RunCounts(cfg, Apply(cfg, s, steps[0]), steps[1..]);
    }
  }

  /** Whatever the scheduler does, the call returns after exactly nine steps
      per id and one more; before that some step is always enabled. */
  lemma {:induction false} ReturnsAfter(cfg: Config, steps: seq<Step>)
    requires cfg.capacity >= 1 && IsRun(cfg, INITIAL, steps)
    ensures |steps| <= 9 * cfg.ids + 1
    ensures var s := After(cfg, INITIAL, steps);
            (s.caller.Returned? <==> |steps| == 9 * cfg.ids + 1)
            && (!s.caller.Returned? ==> exists step :: Enabled(cfg, s, step))
  {
    var s := After(cfg, INITIAL, steps);
    RunKeepsInv(cfg, INITIAL, steps);
    RunCounts(cfg, INITIAL, steps);
    if s.caller.Returned? {
      EveryIdOnce(cfg, steps);
      AllGone(s.workers);
    } else {
      var step := NeverStuck(cfg, s);
      StepCounts(cfg, s, step);
      StepKeepsInv(cfg, s, step);
      LeftNonNegative(cfg, Apply(cfg, s, step));
    }
  }

  lemma {:induction false} LeftNonNegative(cfg: Config, s: State)
    requires CallerOk(cfg, s)
    ensures StepsLeft(cfg, s) >= 0
  {
  }

  lemma {:induction false} AllGone(ws: seq<Worker>)
    requires forall i :: 0 <= i < |ws| ==> ws[i].Gone?
    ensures WorkersLeft(ws) == 0
  {
    if ws == [] {
    } else {
      AllGone(ws[..|ws| - 1]);
    }
  }
}
