/** One request through `authMiddleware` (internal/bff/auth.go) while no other
    request acts, on the cache as it is built. */
module Middleware {
  import R = Requests
  import opened Auth
  import opened Clock
  import opened Options
  import opened RecencyList
  import opened TokenCache

  datatype Verdict = Unauthorized | Forbidden | Admitted(info: TokenInfo)

  /** What the request learns about its token: the cached information, or what
      an active introspection returned. */
  function Known(c: Cache, ttl: Instant, token: string, askedAt: Instant, answer: Option<TokenInfo>): Option<TokenInfo> {
    match GetResult(c, ttl, token, askedAt)
    case Some(info) => Some(info)
    case None => if answer.Some? && answer.value.active then answer else None
  }

  /** The cache after the request learned that. */
  function AfterAuthentication(c: Cache, ttl: Instant, max: nat, token: string, askedAt: Instant, putAt: Instant,
                               known: Option<TokenInfo>): Cache
  {
    match known
    case None => AfterGet(c, ttl, token, askedAt)
    case Some(info) => AfterAccess(c, ttl, max, Access(token, info, askedAt, putAt))
  }

  /** `introspect` is the introspection endpoint, None a failed call. The cache
      changes by a get, and by a put exactly when a miss was followed by an
      active answer. */
  method Authenticate(tokens: Tokens, token: string, introspect: string -> Option<TokenInfo>, askedAt: Instant, putAt: Instant)
    returns (known: Option<TokenInfo>)
    requires tokens.Valid()
    modifies tokens`items, tokens`contents, tokens.lru`len, tokens.lru`elements,
             tokens.lru.root`next, tokens.lru.root`prev,
             tokens.Nodes()`next, tokens.Nodes()`prev, tokens.Nodes()`value
    ensures tokens.Valid()
    ensures known == Known(old(tokens.contents), tokens.ttl, token, askedAt, introspect(token))
    ensures tokens.contents ==
            AfterAuthentication(old(tokens.contents), tokens.ttl, tokens.max, token, askedAt, putAt, known)
  {
    known := tokens.Get(token, askedAt);
    if known.Some? {
      return;
    }
    var answer := introspect(token);
    if answer.None? || !answer.value.active {
      return;
    }
    tokens.Put(token, answer.value, putAt);
    known := answer;
  }

  /** Unauthorized if nothing is known of the token, forbidden if it lacks the
      scopes, admitted otherwise. */
  ghost predicate Follows(verdict: Verdict, known: Option<TokenInfo>) {
    && (verdict == Unauthorized <==> known == None)
    && (verdict == Forbidden <==> known.Some? && !HasScope(known.value, REQUIRED_SCOPES))
    && (verdict.Admitted? ==> Some(verdict.info) == known)
  }

  method Decide(known: Option<TokenInfo>) returns (verdict: Verdict)
    ensures Follows(verdict, known)
  {
    if known.None? {
      return Unauthorized;
    }
    var granted := HasAnyScope(known.value, REQUIRED_SCOPES);
    if !granted {
      return Forbidden;
    }
    return Admitted(known.value);
  }

  /** A request is turned away without touching the cache if it carries no
      token; otherwise its verdict depends on what is known of the token. */
  method Serve(tokens: Tokens, header: string, introspect: string -> Option<TokenInfo>, askedAt: Instant, putAt: Instant)
    returns (verdict: Verdict)
    requires tokens.Valid()
    modifies tokens`items, tokens`contents, tokens.lru`len, tokens.lru`elements,
             tokens.lru.root`next, tokens.lru.root`prev,
             tokens.Nodes()`next, tokens.Nodes()`prev, tokens.Nodes()`value
    ensures tokens.Valid()
    ensures !ParseBearer(header).Bearer? ==> verdict == Unauthorized && tokens.contents == old(tokens.contents)
    ensures ParseBearer(header).Bearer? ==>
              var token := ParseBearer(header).token;
              var known := Known(old(tokens.contents), tokens.ttl, token, askedAt, introspect(token));
              && Follows(verdict, known)
              && tokens.contents ==
                 AfterAuthentication(old(tokens.contents), tokens.ttl, tokens.max, token, askedAt, putAt, known)
  {
    var bearer := ParseBearer(header);
    if !bearer.Bearer? {
      return Unauthorized;
    }
    var known := Authenticate(tokens, bearer.token, introspect, askedAt, putAt);
    verdict := Decide(known);
  }

  // ------------------------------------------------ one request among others

  /** What the caller of the state machine sees of a request. */
  predicate Shows(r: R.Request, verdict: Verdict) {
    match verdict
    case Unauthorized => r == R.Rejected(401)
    case Forbidden => r == R.Rejected(403)
    case Admitted(info) => r.Handling? && r.info == info
  }

  lemma {:induction false} RunCons(cfg: R.Config, s: R.State, step: R.Step, rest: seq<R.Step>)
    requires R.Enabled(s, step) && R.IsRun(cfg, R.Apply(cfg, s, step), rest)
    ensures R.IsRun(cfg, s, [step] + rest)
    ensures R.Run(cfg, s, [step] + rest) == R.Run(cfg, R.Apply(cfg, s, step), rest)
  {
    assert ([step] + rest)[1..] == rest;
  }

  lemma {:induction false} DecidedAs(cfg: R.Config, s: R.State, id: nat)
    requires id in s.requests && s.requests[id].Deciding?
    ensures R.IsRun(cfg, s, [R.Decide(id)])
    ensures var t, info := R.Run(cfg, s, [R.Decide(id)]), s.requests[id].info;
            && t.cache == s.cache && id in t.requests
            && Shows(t.requests[id], if HasScope(info, REQUIRED_SCOPES) then Admitted(info) else Forbidden)
  {
    RunCons(cfg, s, R.Decide(id), []);
    assert [R.Decide(id)] + [] == [R.Decide(id)];
  }

  /** A miss: the token is introspected, and an active answer is stored. */
  lemma {:induction false} AskedAs(cfg: R.Config, s: R.State, id: nat, answer: Option<TokenInfo>, wait: nat)
    returns (steps: seq<R.Step>)
    requires id in s.requests && s.requests[id].Asking?
    ensures R.IsRun(cfg, s, steps)
    ensures var t, token := R.Run(cfg, s, steps), s.requests[id].token;
            && id in t.requests
            && if answer.Some? && answer.value.active then
                 && t.cache == AfterPut(s.cache, cfg.max, token, answer.value, s.now + wait)
                 && Shows(t.requests[id], if HasScope(answer.value, REQUIRED_SCOPES) then Admitted(answer.value) else Forbidden)
               else t.cache == s.cache && Shows(t.requests[id], Unauthorized)
  {
    var s1 := R.Apply(cfg, s, R.Introspect(id, answer));
    if answer.Some? && answer.value.active {
      var s2 := R.Apply(cfg, s1, R.Tick(wait));
      var s3 := R.Apply(cfg, s2, R.Store(id));
      DecidedAs(cfg, s3, id);
      RunCons(cfg, s2, R.Store(id), [R.Decide(id)]);
      RunCons(cfg, s1, R.Tick(wait), [R.Store(id)] + [R.Decide(id)]);
      steps := [R.Introspect(id, answer)] + ([R.Tick(wait)] + ([R.Store(id)] + [R.Decide(id)]));
      RunCons(cfg, s, R.Introspect(id, answer), [R.Tick(wait)] + ([R.Store(id)] + [R.Decide(id)]));
    } else {
      RunCons(cfg, s, R.Introspect(id, answer), []);
      steps := [R.Introspect(id, answer)] + [];
    }
  }

  /** The request is turned away for want of a token, refused for want of a
      scope, or handled. */
  ghost predicate IsDecidedBy(r: R.Request, hit: Option<TokenInfo>, answer: Option<TokenInfo>) {
    var denied := hit == None && (answer == None || !answer.value.active);
    var info := if hit.Some? then hit else answer;
    && (denied <==> r == R.Rejected(401))
    && (!denied && !MayAdminister(info.value) <==> r == R.Rejected(403))
    && (!denied && MayAdminister(info.value) ==> r.Handling? && r.info == info.value)
  }

  /** `Serve` is what the state machine does when the others pause: from every
      state a new request with a bearer token has a run of its own after which
      the cache and its fate are as `Serve` leaves them. */
  lemma {:induction false} ServesAsRun(
    cfg: R.Config, s: R.State, id: nat, header: string, answer: Option<TokenInfo>, wait: nat)
    returns (steps: seq<R.Step>)
    requires id !in s.requests && ParseBearer(header).Bearer?
    ensures R.IsRun(cfg, s, steps)
    ensures var t, token := R.Run(cfg, s, steps), ParseBearer(header).token;
            var known := Known(s.cache, cfg.ttl, token, s.now, answer);
            && id in t.requests && IsDecidedBy(t.requests[id], GetResult(s.cache, cfg.ttl, token, s.now), answer)
            && (exists verdict :: Follows(verdict, known) && Shows(t.requests[id], verdict))
            && t.cache == AfterAuthentication(s.cache, cfg.ttl, cfg.max, token, s.now, s.now + wait, known)
  {
    var token := ParseBearer(header).token;
    var known := Known(s.cache, cfg.ttl, token, s.now, answer);
    var s1 := R.Apply(cfg, s, R.Arrive(id, header));
    var s2 := R.Apply(cfg, s1, R.Lookup(id));
    var rest: seq<R.Step>;
    if GetResult(s.cache, cfg.ttl, token, s.now).Some? {
      DecidedAs(cfg, s2, id);
      rest := [R.Decide(id)];
    } else {
      rest := AskedAs(cfg, s2, id, answer, wait);
    }
    RunCons(cfg, s1, R.Lookup(id), rest);
    RunCons(cfg, s, R.Arrive(id, header), [R.Lookup(id)] + rest);
    steps := [R.Arrive(id, header)] + ([R.Lookup(id)] + rest);
    var verdict := if known == None then Unauthorized
                   else if HasScope(known.value, REQUIRED_SCOPES) then Admitted(known.value) else Forbidden;
    assert Follows(verdict, known);
    if known.Some? {
      RequiredScopes(known.value);
    }
  }
}
