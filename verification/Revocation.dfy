/** What the token cache does to a revocation (internal/bff/auth.go,
    token_cache.go): from some moment on every introspection of a token is
    inactive or fails; which requests are still admitted? */
module Revocation {
  import opened Auth
  import opened Clock
  import opened Options
  import opened RecencyList
  import opened Requests

  /** The step is no introspection of this token that answers active. */
  predicate IsDenied(s: State, step: Step, token: string) {
    step.Introspect? && step.id in s.requests && s.requests[step.id] == Asking(token) ==>
      step.answer.None? || !step.answer.value.active
  }

  /** From here on, every introspection of the token is inactive or fails. */
  ghost predicate RevokedDuring(cfg: Config, s: State, steps: seq<Step>, token: string)
    requires IsRun(cfg, s, steps)
    decreases |steps|
  {
    steps == [] || (IsDenied(s, steps[0], token) && RevokedDuring(cfg, Apply(cfg, s, steps[0]), steps[1..], token))
  }

  /** The information gets a request past the scope check. */
  ghost predicate IsUsable(info: TokenInfo) {
    HasScope(info, REQUIRED_SCOPES)
  }

  /** Some request is about to store usable information on the token. */
  ghost predicate StorePending(s: State, token: string) {
    exists id :: id in s.requests && s.requests[id].Storing? && s.requests[id].token == token
                 && IsUsable(s.requests[id].info)
  }

  ghost predicate CachedBy(s: State, token: string, until: Instant) {
    forall i :: 0 <= i < |s.cache| && s.cache[i].token == token && IsUsable(s.cache[i].info) ==>
      s.cache[i].cached <= until
  }

  predicate IsDecided(r: Request) {
    r.Deciding? || r.Handling?
  }

  /** What requests have read of the token was stored by then, and only those
      in `own` have it from their own introspection. */
  ghost predicate ReadBy(s: State, token: string, until: Instant, own: set<nat>) {
    forall id :: id in s.requests && IsDecided(s.requests[id]) && s.requests[id].token == token
                 && IsUsable(s.requests[id].info) ==>
      match s.requests[id].origin
      case Introspected => id in own
      case FromCache(stored, _) => stored <= until
  }

  ghost predicate Honoured(s: State, token: string, until: Instant, own: set<nat>) {
    !StorePending(s, token) && CachedBy(s, token, until) && ReadBy(s, token, until, own)
  }

  // --------------------------------------------------- revocation is honoured

  lemma {:induction false} LookupHonours(cfg: Config, s: State, id: nat, token: string, until: Instant, own: set<nat>)
    requires Enabled(s, Lookup(id)) && Honoured(s, token, until, own)
    ensures Honoured(Apply(cfg, s, Lookup(id)), token, until, own)
  {
    var t, asked := Apply(cfg, s, Lookup(id)), s.requests[id].token;
    EntriesAfterGet(s.cache, cfg.ttl, asked, s.now);
    forall i | 0 <= i < |t.cache| && t.cache[i].token == token && IsUsable(t.cache[i].info)
      ensures t.cache[i].cached <= until
    {
      assert t.cache[i] in s.cache;
    }
    assert !StorePending(t, token) by {
      assert forall other :: other in t.requests && t.requests[other].Storing? ==>
        other in s.requests && s.requests[other] == t.requests[other];
    }
  }

  lemma {:induction false} StoreHonours(cfg: Config, s: State, id: nat, token: string, until: Instant, own: set<nat>)
    requires Enabled(s, Store(id)) && Honoured(s, token, until, own)
    ensures Honoured(Apply(cfg, s, Store(id)), token, until, own)
  {
    var t, r := Apply(cfg, s, Store(id)), s.requests[id];
    EntriesAfterPut(s.cache, cfg.max, r.token, r.info, s.now);
    assert r.token == token ==> !IsUsable(r.info);
    forall i | 0 <= i < |t.cache| && t.cache[i].token == token && IsUsable(t.cache[i].info)
      ensures t.cache[i].cached <= until
    {
      assert t.cache[i] in s.cache;
    }
    assert !StorePending(t, token) by {
      assert forall other :: other in t.requests && t.requests[other].Storing? ==>
        other in s.requests && s.requests[other] == t.requests[other];
    }
  }

  lemma {:induction false} OtherStepsHonour(cfg: Config, s: State, step: Step, token: string, until: Instant, own: set<nat>)
    requires Enabled(s, step) && IsDenied(s, step, token) && Honoured(s, token, until, own)
    requires !step.Lookup? && !step.Store?
    ensures Honoured(Apply(cfg, s, step), token, until, own)
  {
    var t := Apply(cfg, s, step);
    assert !StorePending(t, token) by {
      forall id | id in t.requests && t.requests[id].Storing? && t.requests[id].token == token
        ensures !IsUsable(t.requests[id].info)
      {
        if id !in s.requests || s.requests[id] != t.requests[id] {
          assert false;
        }
      }
    }
  }

  lemma {:induction false} StepHonours(cfg: Config, s: State, step: Step, token: string, until: Instant, own: set<nat>)
    requires Enabled(s, step) && IsDenied(s, step, token) && Honoured(s, token, until, own)
    ensures Honoured(Apply(cfg, s, step), token, until, own)
  {
    if step.Lookup? {
      LookupHonours(cfg, s, step.id, token, until, own);
    } else if step.Store? {
      StoreHonours(cfg, s, step.id, token, until, own);
    } else {
      OtherStepsHonour(cfg, s, step, token, until, own);
    }
  }

  lemma {:induction false} RunHonours(cfg: Config, s: State, steps: seq<Step>, token: string, until: Instant, own: set<nat>)
    requires IsRun(cfg, s, steps) && RevokedDuring(cfg, s, steps, token) && Honoured(s, token, until, own)
    ensures Honoured(Run(cfg, s, steps), token, until, own)
    decreases |steps|
  {
    if steps == [] {
    } else {
      StepHonours(cfg, s, steps[0], token, until, own);
      RunHonours(cfg, Apply(cfg, s, steps[0]), steps[1..], token, until, own);
    }
  }

  /** The requests that already have the token's information by their own
      introspection. */
  function OwnAnswers(s: State): set<nat> {
    set id | id in s.requests && IsDecided(s.requests[id]) && s.requests[id].origin == Introspected
  }

  /** In every run: if from some state on all introspections of the token are
      inactive or fail, no usable store of it is pending there, and all that is
      cached or was read of it was stored by `until`, then no request for it is
      admitted on a read later than `until + ttl`, and none by an introspection
      of its own that was not answered before. */
  lemma {:induction false} RevocationHonoured(cfg: Config, s: State, steps: seq<Step>, token: string, until: Instant, id: nat)
    requires Inv(cfg, s) && IsRun(cfg, s, steps) && RevokedDuring(cfg, s, steps, token)
    requires !StorePending(s, token) && CachedBy(s, token, until) && ReadBy(s, token, until, OwnAnswers(s))
    requires id in Run(cfg, s, steps).requests
    ensures var r := Run(cfg, s, steps).requests[id];
            r.Handling? && r.token == token ==>
              match r.origin
              case Introspected => id in OwnAnswers(s)
              case FromCache(_, read) => read <= until + cfg.ttl
  {
    RunHonours(cfg, s, steps, token, until, OwnAnswers(s));
    RunKeepsInv(cfg, s, steps);
    assert RequestOk(cfg, Run(cfg, s, steps), id, Run(cfg, s, steps).requests[id]);
  }

  // ------------------------------------------------------ and when it is not

  lemma {:induction false} RunCons(cfg: Config, s: State, step: Step, rest: seq<Step>)
    requires Enabled(s, step)
    ensures IsRun(cfg, s, [step] + rest) <==> IsRun(cfg, Apply(cfg, s, step), rest)
    ensures IsRun(cfg, s, [step] + rest) ==> Run(cfg, s, [step] + rest) == Run(cfg, Apply(cfg, s, step), rest)
  {
    assert ([step] + rest)[1..] == rest;
  }

  lemma {:induction false} RunConcat(cfg: Config, s: State, a: seq<Step>, b: seq<Step>)
    requires IsRun(cfg, s, a) && IsRun(cfg, Run(cfg, s, a), b)
    ensures IsRun(cfg, s, a + b) && Run(cfg, s, a + b) == Run(cfg, Run(cfg, s, a), b)
    decreases |a|
  {
    if a == [] {
      assert a + b == b;
    } else {
      assert (a + b)[1..] == a[1..] + b;
      RunConcat(cfg, Apply(cfg, s, a[0]), a[1..], b);
    }
  }

  lemma {:induction false} ThreeSteps(cfg: Config, s: State, a: Step, b: Step, c: Step)
    requires Enabled(s, a)
    requires Enabled(Apply(cfg, s, a), b)
    requires Enabled(Apply(cfg, Apply(cfg, s, a), b), c)
    ensures IsRun(cfg, s, [a, b, c])
    ensures Run(cfg, s, [a, b, c]) == Apply(cfg, Apply(cfg, Apply(cfg, s, a), b), c)
  {
    var s1 := Apply(cfg, s, a);
    var s2 := Apply(cfg, s1, b);
    RunCons(cfg, s2, c, []);
    RunCons(cfg, s1, b, [c] + []);
    RunCons(cfg, s, a, [b] + ([c] + []));
    assert [a] + ([b] + ([c] + [])) == [a, b, c];
  }

  /** A pending store goes through, and the next request is admitted on it. */
  lemma {:induction false} StoreAdmits(cfg: Config, s: State, storing: nat, looking: nat)
    requires cfg.ttl >= 0 && storing != looking
    requires storing in s.requests && s.requests[storing].Storing? && IsUsable(s.requests[storing].info)
    requires looking in s.requests && s.requests[looking] == Looking(s.requests[storing].token)
    ensures var steps := [Store(storing), Lookup(looking), Decide(looking)];
            && IsRun(cfg, s, steps) && Run(cfg, s, steps).answers == s.answers
            && looking in Run(cfg, s, steps).requests
            && Run(cfg, s, steps).requests[looking]
               == Handling(s.requests[storing].token, s.requests[storing].info, FromCache(s.now, s.now))
  {
    var r := s.requests[storing];
    var s1 := Apply(cfg, s, Store(storing));
    assert IndexOf(s1.cache, r.token) == 0 && s1.cache[0] == Entry(r.token, r.info, s.now);
    var s2 := Apply(cfg, s1, Lookup(looking));
    assert s2.requests[looking] == Deciding(r.token, r.info, FromCache(s.now, s.now));
    ThreeSteps(cfg, s, Store(storing), Lookup(looking), Decide(looking));
  }

  lemma {:induction false} ParsePlain(token: string)
    requires IsTrimmed(token)
    ensures Parse(PREFIX + token) == Looking(token)
  {
    assert PREFIX + token == PREFIX + ("" + token + "");
    ParseBearerExact(PREFIX + token, token);
  }

  /** One request asks and is answered active; another asks and is answered
      inactive; only then the first one stores its answer. */
  function RevokedInBetween(token: string, active: TokenInfo, inactive: TokenInfo): seq<Step> {
    [Arrive(0, PREFIX + token), Lookup(0), Introspect(0, Some(active))]
    + ([Arrive(1, PREFIX + token), Lookup(1), Introspect(1, Some(inactive))]
       + ([Arrive(2, PREFIX + token)] + [Store(0), Lookup(2), Decide(2)]))
  }

  /** Arrive, miss, be answered: the state afterwards. */
  function Answered(s: State, id: nat, token: string, answer: TokenInfo): State {
    State(s.now, s.cache, s.requests[id := AfterAnswer(token, Some(answer))],
          s.answers + [Answer(id, token, answer, s.now)], s.ops + [Get(token, s.now)])
  }

  lemma {:induction false} AskAndBeAnswered(cfg: Config, s: State, id: nat, token: string, answer: TokenInfo)
    requires IsTrimmed(token) && id !in s.requests && s.cache == []
    ensures var steps := [Arrive(id, PREFIX + token), Lookup(id), Introspect(id, Some(answer))];
            IsRun(cfg, s, steps) && Run(cfg, s, steps) == Answered(s, id, token, answer)
  {
    ParsePlain(token);
    var s1 := Apply(cfg, s, Arrive(id, PREFIX + token));
    var s2 := Apply(cfg, s1, Lookup(id));
    var s3 := Apply(cfg, s2, Introspect(id, Some(answer)));
    ThreeSteps(cfg, s, Arrive(id, PREFIX + token), Lookup(id), Introspect(id, Some(answer)));
    assert s3.requests == s.requests[id := AfterAnswer(token, Some(answer))];
  }

  /** Caching active answers only does not keep a revocation visible: in this
      run from the start, a request is admitted although the introspection
      before it said that the token is inactive. */
  lemma {:induction false} RevocationMasked(cfg: Config, start: Instant, token: string, active: TokenInfo, inactive: TokenInfo)
    requires cfg.ttl >= 0 && IsTrimmed(token) && active.active && !inactive.active && IsUsable(active)
    ensures var steps := RevokedInBetween(token, active, inactive);
            && IsRun(cfg, Initial(start), steps)
            && var t := Run(cfg, Initial(start), steps);
               && t.answers == [Answer(0, token, active, start), Answer(1, token, inactive, start)]
               && 2 in t.requests && t.requests[2] == Handling(token, active, FromCache(start, start))
  {
    var s0 := Initial(start);
    var s1 := Answered(s0, 0, token, active);
    var s2 := Answered(s1, 1, token, inactive);
    var s3 := Apply(cfg, s2, Arrive(2, PREFIX + token));
    AskAndBeAnswered(cfg, s0, 0, token, active);
    AskAndBeAnswered(cfg, s1, 1, token, inactive);
    ParsePlain(token);
    StoreAdmits(cfg, s3, 0, 2);
    RunCons(cfg, s2, Arrive(2, PREFIX + token), [Store(0), Lookup(2), Decide(2)]);
    var last := [Arrive(2, PREFIX + token)] + [Store(0), Lookup(2), Decide(2)];
    RunConcat(cfg, s1, [Arrive(1, PREFIX + token), Lookup(1), Introspect(1, Some(inactive))], last);
    RunConcat(cfg, s0, [Arrive(0, PREFIX + token), Lookup(0), Introspect(0, Some(active))],
              [Arrive(1, PREFIX + token), Lookup(1), Introspect(1, Some(inactive))] + last);
  }

  // ------------------------------------------------------ the exact condition

  /** A run in which the token stays revoked, and yet a request for it is
      admitted on a read more than one ttl after `s`. */
  ghost predicate AdmitsLate(cfg: Config, s: State, steps: seq<Step>, token: string, id: nat) {
    && IsRun(cfg, s, steps) && RevokedDuring(cfg, s, steps, token)
    && id in Run(cfg, s, steps).requests
    && var r := Run(cfg, s, steps).requests[id];
       r.Handling? && r.token == token && r.origin.FromCache? && r.origin.read > s.now + cfg.ttl
  }

  lemma {:induction false} StoredByNow(cfg: Config, s: State, token: string)
    requires Inv(cfg, s)
    ensures CachedBy(s, token, s.now) && ReadBy(s, token, s.now, OwnAnswers(s))
  {
    forall i | 0 <= i < |s.cache| ensures s.cache[i].cached <= s.now {
      assert EntryOk(s, s.cache[i]);
    }
    forall id | id in s.requests && IsDecided(s.requests[id]) && s.requests[id].origin.FromCache?
      ensures s.requests[id].origin.stored <= s.now
    {
      assert RequestOk(cfg, s, id, s.requests[id]);
    }
  }

  lemma {:induction false} NoIntrospection(cfg: Config, s: State, steps: seq<Step>, token: string)
    requires IsRun(cfg, s, steps) && forall i :: 0 <= i < |steps| ==> !steps[i].Introspect?
    ensures RevokedDuring(cfg, s, steps, token)
    decreases |steps|
  {
    if steps == [] {
    } else {
      NoIntrospection(cfg, Apply(cfg, s, steps[0]), steps[1..], token);
    }
  }

  lemma {:induction false} BoundOf(ids: set<nat>) returns (bound: nat)
    ensures forall id :: id in ids ==> id < bound
  {
    if ids == {} {
      bound := 0;
    } else {
      var id :| id in ids;
      var rest := BoundOf(ids - {id});
      bound := if rest <= id then id + 1 else rest;
      assert forall x :: x in ids ==> x == id || x in ids - {id};
    }
  }

  /** Wait, let a new request arrive, store, look up, decide. */
  lemma {:induction false} PendingAdmitsLate(cfg: Config, s: State, token: string, storing: nat)
    returns (steps: seq<Step>, id: nat)
    requires Inv(cfg, s) && cfg.ttl >= 0
    requires storing in s.requests && s.requests[storing].Storing? && s.requests[storing].token == token
    requires IsUsable(s.requests[storing].info)
    ensures AdmitsLate(cfg, s, steps, token, id)
  {
    id := BoundOf(s.requests.Keys);
    assert RequestOk(cfg, s, storing, s.requests[storing]);
    var arrive := Arrive(id, PREFIX + token);
    var s1 := Apply(cfg, s, Tick(cfg.ttl + 1));
    var s2 := Apply(cfg, s1, arrive);
    ParsePlain(token);
    StoreAdmits(cfg, s2, storing, id);
    var last := [Store(storing), Lookup(id), Decide(id)];
    RunCons(cfg, s1, arrive, last);
    RunCons(cfg, s, Tick(cfg.ttl + 1), [arrive] + last);
    steps := [Tick(cfg.ttl + 1)] + ([arrive] + last);
    NoIntrospection(cfg, s, steps, token);
  }

  /** When a revocation is masked for longer than one ttl: exactly if at the
      moment it takes effect some request is about to store usable information
      on the token. */
  lemma {:induction false} MaskedIff(cfg: Config, s: State, token: string)
    requires Inv(cfg, s) && cfg.ttl >= 0
    ensures (exists steps: seq<Step>, id: nat :: AdmitsLate(cfg, s, steps, token, id)) <==> StorePending(s, token)
  {
    if StorePending(s, token) {
      var storing :| storing in s.requests && s.requests[storing].Storing? && s.requests[storing].token == token
                     && IsUsable(s.requests[storing].info);
      var steps, id := PendingAdmitsLate(cfg, s, token, storing);
    } else {
      StoredByNow(cfg, s, token);
      forall steps: seq<Step>, id: nat ensures !AdmitsLate(cfg, s, steps, token, id) {
        if AdmitsLate(cfg, s, steps, token, id) {
          RevocationHonoured(cfg, s, steps, token, s.now, id);
        }
      }
    }
  }
}
