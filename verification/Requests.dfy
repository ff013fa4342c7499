/** Concurrent requests over the shared token cache (`authMiddleware` in
    internal/bff/auth.go). The cache is locked only inside get and put, so a
    lookup, the introspection and the store of a request are separate steps,
    between which any other request may act. */
module Requests {
  import opened Auth
  import opened Clock
  import opened Options
  import opened RecencyList

  /** Where a request's token information comes from: its own introspection,
      or an entry stored at `stored` and read at `read`. */
  datatype Origin = Introspected | FromCache(stored: Instant, read: Instant)

  datatype Request =
    | Looking(token: string)                                  // before get
    | Asking(token: string)                                   // missed; introspection under way
    | Storing(token: string, info: TokenInfo)                 // before put
    | Deciding(token: string, info: TokenInfo, origin: Origin) // before the scope check
    | Handling(token: string, info: TokenInfo, origin: Origin) // reached the handler
    | Rejected(status: nat)

  /** What an introspection answered, to which request, and when. */
  datatype Answer = Answer(request: nat, token: string, info: TokenInfo, at: Instant)

  /** `answers` and `ops` are history variables. */
  datatype State = State(
    now: Instant, cache: Cache, requests: map<nat, Request>, answers: seq<Answer>, ops: seq<Op>)

  datatype Config = Config(ttl: Instant, max: nat)

  const UNAUTHORIZED := 401
  const FORBIDDEN := 403

  datatype Step =
    | Tick(duration: nat)
    | Arrive(id: nat, header: string)
    | Lookup(id: nat)
    | Introspect(id: nat, answer: Option<TokenInfo>)   // None: the call failed
    | Store(id: nat)
    | Decide(id: nat)

  function Parse(header: string): Request {
    match ParseBearer(header)
    case Bearer(token) => Looking(token)
    case _ => Rejected(UNAUTHORIZED)
  }

  predicate Enabled(s: State, step: Step) {
    match step
    case Tick(_) => true
    case Arrive(id, _) => id !in s.requests
    case Lookup(id) => id in s.requests && s.requests[id].Looking?
    case Introspect(id, _) => id in s.requests && s.requests[id].Asking?
    case Store(id) => id in s.requests && s.requests[id].Storing?
    case Decide(id) => id in s.requests && s.requests[id].Deciding?
  }

  function Move(s: State, id: nat, r: Request): State {
    s.(requests := s.requests[id := r])
  }

  function AfterLookup(cfg: Config, s: State, token: string): Request {
    match GetResult(s.cache, cfg.ttl, token, s.now)
    case None => Asking(token)
    case Some(info) => Deciding(token, info, FromCache(s.cache[IndexOf(s.cache, token)].cached, s.now))
  }

  function AfterAnswer(token: string, answer: Option<TokenInfo>): Request {
    if answer.Some? && answer.value.active then Storing(token, answer.value) else Rejected(UNAUTHORIZED)
  }

  ghost function Apply(cfg: Config, s: State, step: Step): State
    requires Enabled(s, step)
  {
    match step
    case Tick(duration) => s.(now := s.now + duration)
    case Arrive(id, header) => Move(s, id, Parse(header))
    case Lookup(id) =>
      var token := s.requests[id].token;
      Move(s, id, AfterLookup(cfg, s, token)).(
        cache := AfterGet(s.cache, cfg.ttl, token, s.now), ops := s.ops + [Get(token, s.now)])
    case Introspect(id, answer) =>
      var token := s.requests[id].token;
      Move(s, id, AfterAnswer(token, answer)).(
        answers := if answer.None? then s.answers else s.answers + [Answer(id, token, answer.value, s.now)])
    case Store(id) =>
      var r := s.requests[id];
      Move(s, id, Deciding(r.token, r.info, Introspected)).(
        cache := AfterPut(s.cache, cfg.max, r.token, r.info, s.now), ops := s.ops + [Put(r.token, r.info, s.now)])
    case Decide(id) =>
      var r := s.requests[id];
      Move(s, id, if HasScope(r.info, REQUIRED_SCOPES) then Handling(r.token, r.info, r.origin) else Rejected(FORBIDDEN))
  }

  function Initial(now: Instant): State {
    State(now, [], map[], [], [])
  }

  ghost predicate IsRun(cfg: Config, s: State, steps: seq<Step>)
    decreases |steps|
  {
    steps == [] || (Enabled(s, steps[0]) && IsRun(cfg, Apply(cfg, s, steps[0]), steps[1..]))
  }

  ghost function Run(cfg: Config, s: State, steps: seq<Step>): State
    requires IsRun(cfg, s, steps)
    decreases |steps|
  {
    if steps == [] then s else Run(cfg, Apply(cfg, s, steps[0]), steps[1..])
  }

  // -------------------------------------------------------------- invariants

  predicate Vouches(a: Answer, id: Option<nat>, token: string, info: TokenInfo, until: Instant) {
    a.token == token && a.info == info && a.at <= until && (id == None || id == Some(a.request))
  }

  /** Some introspection answered, no later than `until`, that this token is
      active and has this info; if `id` is given, it answered this very request. */
  ghost predicate Vouched(answers: seq<Answer>, id: Option<nat>, token: string, info: TokenInfo, until: Instant) {
    info.active && exists k :: 0 <= k < |answers| && Vouches(answers[k], id, token, info, until)
  }

  lemma {:induction false} VouchedStays(
    answers: seq<Answer>, more: seq<Answer>, id: Option<nat>, token: string, info: TokenInfo, a: Instant, b: Instant)
    requires Vouched(answers, id, token, info, a) && a <= b
    ensures Vouched(answers + more, id, token, info, b)
  {
    var k :| 0 <= k < |answers| && Vouches(answers[k], id, token, info, a);
    assert Vouches((answers + more)[k], id, token, info, b);
  }

  /** The information a request holds is vouched for, directly or by an entry
      that was at most one ttl old when it was read. */
  ghost predicate Backed(cfg: Config, s: State, id: nat, token: string, info: TokenInfo, origin: Origin) {
    match origin
    case Introspected => Vouched(s.answers, Some(id), token, info, s.now)
    case FromCache(stored, read) =>
      stored <= read <= s.now && read - stored <= cfg.ttl && Vouched(s.answers, None, token, info, stored)
  }

  ghost predicate RequestOk(cfg: Config, s: State, id: nat, r: Request) {
    && (r.Rejected? || IsTrimmed(r.token))
    && (match r
        case Storing(token, info) => Vouched(s.answers, Some(id), token, info, s.now)
        case Deciding(token, info, origin) => Backed(cfg, s, id, token, info, origin)
        case Handling(token, info, origin) =>
          Backed(cfg, s, id, token, info, origin) && HasScope(info, REQUIRED_SCOPES)
        case _ => true)
  }

  ghost predicate EntryOk(s: State, e: Entry) {
    e.cached <= s.now && Vouched(s.answers, None, e.token, e.info, e.cached)
  }

  ghost predicate CacheOk(s: State) {
    forall i :: 0 <= i < |s.cache| ==> EntryOk(s, s.cache[i])
  }

  ghost predicate RequestsOk(cfg: Config, s: State) {
    forall id :: id in s.requests ==> RequestOk(cfg, s, id, s.requests[id])
  }

  /** Every entry is vouched for, every request backed, and the cache is what
      the history of its gets and puts makes it. */
  ghost predicate Inv(cfg: Config, s: State) {
    CacheOk(s) && RequestsOk(cfg, s) && s.cache == After(cfg.ttl, cfg.max, s.ops)
  }

  // ------------------------------------------------------- every step keeps it

  /** `t` comes later than `s`: time may have passed and answers come in. */
  ghost predicate Later(s: State, t: State) {
    s.now <= t.now && s.answers <= t.answers
  }

  lemma {:induction false} VouchedLater(
    s: State, t: State, id: Option<nat>, token: string, info: TokenInfo, a: Instant, b: Instant)
    requires Later(s, t) && Vouched(s.answers, id, token, info, a) && a <= b
    ensures Vouched(t.answers, id, token, info, b)
  {
    assert t.answers == s.answers + t.answers[|s.answers|..];
    VouchedStays(s.answers, t.answers[|s.answers|..], id, token, info, a, b);
  }

  lemma {:induction false} EntryStays(s: State, t: State, e: Entry)
    requires Later(s, t) && EntryOk(s, e)
    ensures EntryOk(t, e)
  {
    VouchedLater(s, t, None, e.token, e.info, e.cached, e.cached);
  }

  lemma {:induction false} RequestStays(cfg: Config, s: State, t: State, id: nat, r: Request)
    requires Later(s, t) && RequestOk(cfg, s, id, r)
    ensures RequestOk(cfg, t, id, r)
  {
    if r.Storing? {
      VouchedLater(s, t, Some(id), r.token, r.info, s.now, t.now);
    } else if r.Deciding? || r.Handling? {
      match r.origin
      case Introspected => VouchedLater(s, t, Some(id), r.token, r.info, s.now, t.now);
      case FromCache(stored, _) => VouchedLater(s, t, None, r.token, r.info, stored, stored);
    }
  }

  /** Entries that were there before stay in order. */
  lemma {:induction false} CacheStays(s: State, t: State)
    requires Later(s, t) && CacheOk(s)
    requires forall i :: 0 <= i < |t.cache| ==> t.cache[i] in s.cache || EntryOk(t, t.cache[i])
    ensures CacheOk(t)
  {
    forall i | 0 <= i < |t.cache| ensures EntryOk(t, t.cache[i]) {
      if t.cache[i] in s.cache {
        EntryStays(s, t, t.cache[i]);
      }
    }
  }

  /** One request moved, all others stay in order. */
  lemma {:induction false} RequestsStay(cfg: Config, s: State, t: State, id: nat, r: Request)
    requires Later(s, t) && RequestsOk(cfg, s)
    requires t.requests == s.requests[id := r] && RequestOk(cfg, t, id, r)
    ensures RequestsOk(cfg, t)
  {
    forall other | other in t.requests ensures RequestOk(cfg, t, other, t.requests[other]) {
      if other != id {
        RequestStays(cfg, s, t, other, s.requests[other]);
      }
    }
  }

  lemma {:induction false} EntriesAfterGet(c: Cache, ttl: Instant, token: string, now: Instant)
    ensures forall i :: 0 <= i < |AfterGet(c, ttl, token, now)| ==> AfterGet(c, ttl, token, now)[i] in c
  {
    var i := IndexOf(c, token);
    if i < |c| {
      RemoveAtExact(c, i);
    }
  }

  lemma {:induction false} EntriesAfterPut(c: Cache, max: nat, token: string, info: TokenInfo, now: Instant)
    ensures var after := AfterPut(c, max, token, info, now);
            forall i :: 0 <= i < |after| ==> after[i] in c || after[i] == Entry(token, info, now)
  {
    var i := IndexOf(c, token);
    if i < |c| {
      RemoveAtExact(c, i);
    }
  }

  lemma {:induction false} OneMoreOp(cfg: Config, ops: seq<Op>, op: Op)
    ensures After(cfg.ttl, cfg.max, ops + [op]) == AfterOp(After(cfg.ttl, cfg.max, ops), cfg.ttl, cfg.max, op)
  {
    assert (ops + [op])[..|ops|] == ops;
  }

  lemma {:induction false} LookupKeepsInv(cfg: Config, s: State, id: nat)
    requires Inv(cfg, s) && Enabled(s, Lookup(id))
    ensures Inv(cfg, Apply(cfg, s, Lookup(id)))
  {
    var t, token := Apply(cfg, s, Lookup(id)), s.requests[id].token;
    EntriesAfterGet(s.cache, cfg.ttl, token, s.now);
    CacheStays(s, t);
    OneMoreOp(cfg, s.ops, Get(token, s.now));
    if GetResult(s.cache, cfg.ttl, token, s.now).Some? {
      assert EntryOk(s, s.cache[IndexOf(s.cache, token)]);
    }
    RequestsStay(cfg, s, t, id, AfterLookup(cfg, s, token));
  }

  lemma {:induction false} IntrospectKeepsInv(cfg: Config, s: State, id: nat, answer: Option<TokenInfo>)
    requires Inv(cfg, s) && Enabled(s, Introspect(id, answer))
    ensures Inv(cfg, Apply(cfg, s, Introspect(id, answer)))
  {
    var t, token := Apply(cfg, s, Introspect(id, answer)), s.requests[id].token;
    CacheStays(s, t);
    if answer.Some? {
      assert Vouches(t.answers[|s.answers|], Some(id), token, answer.value, t.now);
    }
    RequestsStay(cfg, s, t, id, AfterAnswer(token, answer));
  }

  lemma {:induction false} StoreKeepsInv(cfg: Config, s: State, id: nat)
    requires Inv(cfg, s) && Enabled(s, Store(id))
    ensures Inv(cfg, Apply(cfg, s, Store(id)))
  {
    var t, r := Apply(cfg, s, Store(id)), s.requests[id];
    assert RequestOk(cfg, s, id, r);
    var k :| 0 <= k < |s.answers| && Vouches(s.answers[k], Some(id), r.token, r.info, s.now);
    assert Vouches(t.answers[k], None, r.token, r.info, s.now);
    EntriesAfterPut(s.cache, cfg.max, r.token, r.info, s.now);
    CacheStays(s, t);
    OneMoreOp(cfg, s.ops, Put(r.token, r.info, s.now));
    RequestsStay(cfg, s, t, id, Deciding(r.token, r.info, Introspected));
  }

  /** Every step of every request keeps the invariant. */
  lemma {:induction false} StepKeepsInv(cfg: Config, s: State, step: Step)
    requires Inv(cfg, s) && Enabled(s, step)
    ensures Inv(cfg, Apply(cfg, s, step))
  {
    var t := Apply(cfg, s, step);
    match step {
      case Tick(_) =>
        CacheStays(s, t);
        forall id | id in s.requests ensures RequestOk(cfg, t, id, s.requests[id]) {
          RequestStays(cfg, s, t, id, s.requests[id]);
        }
      case Arrive(id, header) =>
        CacheStays(s, t);
        ParsedIsTrimmed(header);
        RequestsStay(cfg, s, t, id, Parse(header));
      case Lookup(id) => LookupKeepsInv(cfg, s, id);
      case Introspect(id, answer) => IntrospectKeepsInv(cfg, s, id, answer);
      case Store(id) => StoreKeepsInv(cfg, s, id);
      case Decide(id) =>
        CacheStays(s, t);
        assert RequestOk(cfg, s, id, s.requests[id]);
        RequestsStay(cfg, s, t, id, t.requests[id]);
    }
  }

  lemma {:induction false} RunKeepsInv(cfg: Config, s: State, steps: seq<Step>)
    requires Inv(cfg, s) && IsRun(cfg, s, steps)
    ensures Inv(cfg, Run(cfg, s, steps))
    decreases |steps|
  {
    if steps == [] {
    } else {
      StepKeepsInv(cfg, s, steps[0]);
      RunKeepsInv(cfg, Apply(cfg, s, steps[0]), steps[1..]);
    }
  }

  // ----------------------------------------------------------------- theorems

  /** A request reaches the handler only with a required scope, granted by an
      introspection of that same token that answered active: its own, or one
      whose result was stored at most one ttl before the request read it. */
  lemma {:induction false} AdmittedOnlyIfVouched(cfg: Config, start: Instant, steps: seq<Step>, id: nat) returns (answer: Answer)
    requires IsRun(cfg, Initial(start), steps)
    requires var s := Run(cfg, Initial(start), steps); id in s.requests && s.requests[id].Handling?
    ensures var s := Run(cfg, Initial(start), steps);
            var r := s.requests[id];
            && answer in s.answers && answer.token == r.token && answer.info == r.info && answer.info.active
            && HasScope(answer.info, REQUIRED_SCOPES)
            && (match r.origin
                case Introspected => answer.request == id && answer.at <= s.now
                case FromCache(stored, read) => answer.at <= stored <= read <= s.now && read - stored <= cfg.ttl)
  {
    var s := Run(cfg, Initial(start), steps);
    RunKeepsInv(cfg, Initial(start), steps);
    var r := s.requests[id];
    assert RequestOk(cfg, s, id, r);
    var whose, until := if r.origin.Introspected? then Some(id) else None,
                        if r.origin.Introspected? then s.now else r.origin.stored;
    var k :| 0 <= k < |s.answers| && Vouches(s.answers[k], whose, r.token, r.info, until);
    answer := s.answers[k];
  }

  /** Whatever the requests interleave: no inactive answer is ever stored, and
      the cache stays explained by the history of its gets and puts. */
  lemma {:induction false} CacheUnderConcurrency(cfg: Config, start: Instant, steps: seq<Step>)
    requires cfg.max >= 1 && IsRun(cfg, Initial(start), steps)
    ensures var s := Run(cfg, Initial(start), steps);
            && (forall i :: 0 <= i < |s.cache| ==> s.cache[i].info.active)
            && Explained(cfg.ttl, cfg.max, s.ops, s.cache)
  {
    var s := Run(cfg, Initial(start), steps);
    RunKeepsInv(cfg, Initial(start), steps);
    CacheExplained(cfg.ttl, cfg.max, s.ops);
    forall i | 0 <= i < |s.cache| ensures s.cache[i].info.active {
      assert EntryOk(s, s.cache[i]);
    }
  }
}
