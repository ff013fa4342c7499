/** The circuit breaker of a phase (internal/engine/breaker.go). */
module Breaker {
  import opened Arithmetic
  import opened Clock

  datatype BreakerState = Closed | Open | HalfOpen

  datatype Breaker = Breaker(state: BreakerState, failures: nat, openedAt: Instant, lastTransition: Instant)

  /** The formula of the code: the exponent is capped before the power is
      taken, the result afterwards. Powers up to 2^20 are exact in float64. */
  function CooldownSeconds(failures: nat): nat {
    if failures <= 3 then 60
    else
      var exponent := if failures - 3 < 20 then failures - 3 else 20;
      var seconds := Pow2(exponent) * 60;
      if seconds > 3600 then 3600 else seconds
  }

  function Cooldown(failures: nat): Instant {
    CooldownSeconds(failures) * SECOND
  }

  /** Capping the exponent changes nothing: the cooldown is the uncapped
      exponential, cut off at one hour. */
  lemma {:induction false} CooldownFormula(failures: nat)
    requires failures >= 3
    ensures CooldownSeconds(failures) == Least(3600, 60 * Pow2(failures - 3))
  {
    if failures - 3 >= 20 {
      Pow2Monotone(20, failures - 3);
      assert Pow2(6) == 64;
      Pow2Monotone(6, 20);
    }
  }

  /** The cooldown grows with the failures and stays between a minute and an hour. */
  lemma {:induction false} CooldownBounds(a: nat, b: nat)
    requires a <= b
    ensures 60 <= CooldownSeconds(a) <= CooldownSeconds(b) <= 3600
  {
    if a >= 3 {
      CooldownFormula(a);
      CooldownFormula(b);
      Pow2Monotone(0, a - 3);
      Pow2Monotone(a - 3, b - 3);
    } else if b >= 3 {
      CooldownFormula(b);
      Pow2Monotone(0, b - 3);
    }
  }

  // ----------------------------------------------------------------- methods

  function Fresh(now: Instant): Breaker {
    Breaker(Closed, 0, 0, now)
  }

  /** Whether `Allow` lets the call through at this time. */
  predicate Allows(b: Breaker, now: Instant) {
    b.state == Open ==> now - b.openedAt >= Cooldown(b.failures)
  }

  function AfterAllow(b: Breaker, now: Instant): Breaker {
    if b.state == Open && Allows(b, now) then b.(state := HalfOpen, lastTransition := now) else b
  }

  function AfterSuccess(b: Breaker, now: Instant): Breaker {
    if b.state == Closed then b.(failures := 0) else b.(state := Closed, failures := 0, lastTransition := now)
  }

  function AfterFailure(b: Breaker, now: Instant): Breaker {
    var f := b.failures + 1;
    match b.state
    case Closed => if f >= 3 then Breaker(Open, f, now, now) else b.(failures := f)
    case HalfOpen => Breaker(Open, f, now, now)
    case Open => b.(failures := f, openedAt := now)
  }

  /** Fewer than three failures exactly while closed. */
  predicate Consistent(b: Breaker) {
    b.state == Closed <==> b.failures < 3
  }

  /** No sequence of calls, sensible or not, breaks this. */
  lemma {:induction false} ConsistencyKept(b: Breaker, now: Instant)
    requires Consistent(b)
    ensures Consistent(AfterAllow(b, now)) && Consistent(AfterSuccess(b, now)) && Consistent(AfterFailure(b, now))
    ensures Consistent(Fresh(now))
  {
  }

  /** Allow in numbers: only an open breaker ever says no, until
      min(3600, 60 * 2^(failures-3)) seconds after it was opened; then it is
      half-open. Nothing else changes but the time of the transition. */
  lemma {:induction false} AllowExact(b: Breaker, now: Instant)
    requires Consistent(b)
    ensures b.state != Open ==> Allows(b, now) && AfterAllow(b, now) == b
    ensures b.state == Open ==>
              && (Allows(b, now) <==> now - b.openedAt >= Least(3600, 60 * Pow2(b.failures - 3)) * SECOND)
              && (Allows(b, now) ==> AfterAllow(b, now) == Breaker(HalfOpen, b.failures, b.openedAt, now))
              && (!Allows(b, now) ==> AfterAllow(b, now) == b)
  {
    if b.state == Open {
      CooldownFormula(b.failures);
    }
  }

  /** The outcomes in numbers: a success closes the breaker and forgets the
      failures, the third failure in a row and every later one opens it anew.
      `lastTransition` is the time of the last change of state. */
  lemma {:induction false} RecordExact(b: Breaker, now: Instant)
    requires Consistent(b)
    ensures var after := AfterSuccess(b, now);
            && after.state == Closed && after.failures == 0 && after.openedAt == b.openedAt
            && after.lastTransition == if b.state == Closed then b.lastTransition else now
    ensures var after := AfterFailure(b, now);
            && after.failures == b.failures + 1
            && (if b.failures >= 2 then after.state == Open && after.openedAt == now
                else after.state == Closed && after.openedAt == b.openedAt)
            && after.lastTransition == if after.state == b.state then b.lastTransition else now
  {
  }

  class CircuitBreaker {
    var state: BreakerState
    var failures: nat
    var openedAt: Instant
    var lastTransition: Instant

    ghost function View(): Breaker
      reads this
    {
      Breaker(state, failures, openedAt, lastTransition)
    }

    constructor (now: Instant)
      ensures View() == Fresh(now) == Breaker(Closed, 0, 0, now)
    {
      state, failures, openedAt, lastTransition := Closed, 0, 0, now;
    }

    method Transition(next: BreakerState, now: Instant)
      modifies this`state, this`lastTransition
      ensures View() == old(View()).(state := next, lastTransition := now)
    {
      state := next;
      lastTransition := now;
    }

    method Allow(now: Instant) returns (ok: bool)
      modifies this`state, this`lastTransition
      ensures ok <==> old(state) != Open || now - old(openedAt) >= CooldownSeconds(old(failures)) * SECOND
      ensures ok <==> Allows(old(View()), now)
      ensures View() == AfterAllow(old(View()), now)
    {
      match state
      case Closed => return true;
      case HalfOpen => return true;
      case Open =>
        if now - openedAt >= Cooldown(failures) {
          Transition(HalfOpen, now);
          return true;
        }
        return false;
    }

    method RecordSuccess(now: Instant)
      modifies this`state, this`lastTransition, this`failures
      ensures View() == AfterSuccess(old(View()), now)
    {
      if state == Closed {
        failures := 0;
        return;
      }
      Transition(Closed, now);
      failures := 0;
    }

    method RecordFailure(now: Instant)
      modifies this
      ensures View() == AfterFailure(old(View()), now)
    {
      failures := failures + 1;
      match state
      case Closed =>
        if failures >= 3 {
          openedAt := now;
          Transition(Open, now);
        }
      case HalfOpen =>
        openedAt := now;
        Transition(Open, now);
      case Open =>
        openedAt := now;
    }
  }
}
