/** What the token cache is meant to be: a sequence of entries, most recently
    used first (internal/bff/token_cache.go). */
module RecencyList {
  import opened Clock
  import opened Options
  import opened Sequences

  datatype TokenInfo = TokenInfo(active: bool, scope: string, username: string, clientId: string, exp: int, iat: int)

  datatype Entry = Entry(token: string, info: TokenInfo, cached: Instant)

  type Cache = seq<Entry>

  function IndexOf(c: Cache, token: string): (i: nat)
    ensures i <= |c|
    ensures i < |c| ==> c[i].token == token
    ensures forall j :: 0 <= j < i ==> c[j].token != token
  {
    if c == [] || c[0].token == token then 0 else 1 + IndexOf(c[1..], token)
  }

  predicate Holds(c: Cache, token: string) {
    IndexOf(c, token) < |c|
  }

  function RemoveAt<T>(xs: seq<T>, i: nat): seq<T>
    requires i < |xs|
  {
    xs[..i] + xs[i + 1..]
  }

  lemma {:induction false} RemoveAtExact<T>(xs: seq<T>, i: nat)
    requires i < |xs|
    ensures |RemoveAt(xs, i)| == |xs| - 1
    ensures forall k :: 0 <= k < |xs| - 1 ==> RemoveAt(xs, i)[k] == xs[if k < i then k else k + 1]
  {
  }

  /** Found but older than the ttl. */
  predicate IsExpired(c: Cache, ttl: Instant, token: string, now: Instant) {
    Holds(c, token) && now - c[IndexOf(c, token)].cached > ttl
  }

  function GetResult(c: Cache, ttl: Instant, token: string, now: Instant): Option<TokenInfo> {
    if Holds(c, token) && !IsExpired(c, ttl, token, now) then Some(c[IndexOf(c, token)].info) else None
  }

  /** A hit moves the entry to the front, an expired entry is dropped. */
  function AfterGet(c: Cache, ttl: Instant, token: string, now: Instant): Cache {
    var i := IndexOf(c, token);
    if i == |c| then c
    else if IsExpired(c, ttl, token, now) then RemoveAt(c, i)
    else [c[i]] + RemoveAt(c, i)
  }

  /** A known token is refreshed in front; a new one evicts the last entry of a full cache. */
  function AfterPut(c: Cache, max: nat, token: string, info: TokenInfo, now: Instant): Cache {
    var i, entry := IndexOf(c, token), Entry(token, info, now);
    if i < |c| then [entry] + RemoveAt(c, i)
    else if |c| >= max && c != [] then [entry] + c[..|c| - 1]
    else [entry] + c
  }

  // ---------------------------------------------------------------- histories

  datatype Op = Get(token: string, at: Instant) | Put(token: string, info: TokenInfo, at: Instant)

  function AfterOp(c: Cache, ttl: Instant, max: nat, op: Op): Cache {
    match op
    case Get(token, now) => AfterGet(c, ttl, token, now)
    case Put(token, info, now) => AfterPut(c, max, token, info, now)
  }

  function After(ttl: Instant, max: nat, ops: seq<Op>): Cache {
    if ops == [] then [] else AfterOp(After(ttl, max, ops[..|ops| - 1]), ttl, max, ops[|ops| - 1])
  }

  /** The latest put of a token. */
  function LastPut(ops: seq<Op>, token: string): Option<Op> {
    if ops == [] then None
    else
      var op := ops[|ops| - 1];
      if op.Put? && op.token == token then Some(op) else LastPut(ops[..|ops| - 1], token)
  }

  /** When the token was last used: put, or asked for and found. -1 if never. */
  function LastUse(ttl: Instant, max: nat, ops: seq<Op>, token: string): int {
    if ops == [] then -1
    else
      var init, op := ops[..|ops| - 1], ops[|ops| - 1];
      if op.token == token && (op.Put? || GetResult(After(ttl, max, init), ttl, token, op.at).Some?) then |init|
      else LastUse(ttl, max, init, token)
  }

  lemma {:induction false} LastUseBound(ttl: Instant, max: nat, ops: seq<Op>, token: string)
    ensures -1 <= LastUse(ttl, max, ops, token) < |ops| || ops == []
  {
    if ops == [] {
    } else {
      LastUseBound(ttl, max, ops[..|ops| - 1], token);
    }
  }

  ghost predicate DistinctTokens(c: Cache) {
    forall i, j :: 0 <= i < j < |c| ==> c[i].token != c[j].token
  }

  /** The most recently used entry first. */
  ghost predicate InOrderOfUse(ttl: Instant, max: nat, ops: seq<Op>, c: Cache) {
    forall i, j :: 0 <= i < j < |c| ==>
      LastUse(ttl, max, ops, c[i].token) > LastUse(ttl, max, ops, c[j].token)
  }

  /** Every entry carries what the latest put of its token stored, and when. */
  ghost predicate FromLatestPuts(ops: seq<Op>, c: Cache) {
    forall i :: 0 <= i < |c| ==> LastPut(ops, c[i].token) == Some(Put(c[i].token, c[i].info, c[i].cached))
  }

  ghost predicate Explained(ttl: Instant, max: nat, ops: seq<Op>, c: Cache) {
    DistinctTokens(c) && |c| <= max && InOrderOfUse(ttl, max, ops, c) && FromLatestPuts(ops, c)
  }

  lemma {:induction false} RemovedAt(c: Cache, i: nat)
    requires i < |c| && DistinctTokens(c)
    ensures |RemoveAt(c, i)| == |c| - 1 && DistinctTokens(RemoveAt(c, i))
    ensures forall k :: 0 <= k < |c| - 1 ==>
              RemoveAt(c, i)[k] == c[if k < i then k else k + 1] && RemoveAt(c, i)[k].token != c[i].token
  {
  }

  /** Entries whose token the operation does not name keep their explanation. */
  lemma {:induction false} OthersExplained(ttl: Instant, max: nat, ops: seq<Op>, op: Op, rest: Cache)
    requires Explained(ttl, max, ops, rest)
    requires forall k :: 0 <= k < |rest| ==> rest[k].token != op.token
    ensures Explained(ttl, max, ops + [op], rest)
    ensures forall k :: 0 <= k < |rest| ==> LastUse(ttl, max, ops + [op], rest[k].token) < |ops|
  {
    assert (ops + [op])[..|ops|] == ops;
    forall k | 0 <= k < |rest|
      ensures LastUse(ttl, max, ops + [op], rest[k].token) == LastUse(ttl, max, ops, rest[k].token) < |ops|
    {
      LastUseBound(ttl, max, ops, rest[k].token);
    }
  }

  lemma {:induction false} SublistExplained(ttl: Instant, max: nat, ops: seq<Op>, c: Cache, i: nat)
    requires Explained(ttl, max, ops, c) && i < |c|
    ensures Explained(ttl, max, ops, RemoveAt(c, i))
    ensures forall k :: 0 <= k < |c| - 1 ==> RemoveAt(c, i)[k].token != c[i].token
    ensures |RemoveAt(c, i)| == |c| - 1
  {
    RemovedAt(c, i);
  }

  /** Putting the used token in front keeps everything explained. */
  lemma {:induction false} FrontExplained(ttl: Instant, max: nat, ops: seq<Op>, op: Op, front: Entry, rest: Cache)
    requires Explained(ttl, max, ops + [op], rest) && |rest| < max && front.token == op.token
    requires forall k :: 0 <= k < |rest| ==>
               rest[k].token != op.token && LastUse(ttl, max, ops + [op], rest[k].token) < |ops|
    requires op.Put? || GetResult(After(ttl, max, ops), ttl, op.token, op.at).Some?
    requires LastPut(ops + [op], front.token) == Some(Put(front.token, front.info, front.cached))
    ensures Explained(ttl, max, ops + [op], [front] + rest)
  {
    assert (ops + [op])[..|ops|] == ops;
    assert LastUse(ttl, max, ops + [op], op.token) == |ops|;
    var c := [front] + rest;
    assert forall i :: 1 <= i < |c| ==> c[i] == rest[i - 1];
  }

  lemma {:induction false} GetExplained(ttl: Instant, max: nat, ops: seq<Op>, token: string, now: Instant)
    requires var c := After(ttl, max, ops); Explained(ttl, max, ops, c)
    ensures Explained(ttl, max, ops + [Get(token, now)], AfterGet(After(ttl, max, ops), ttl, token, now))
  {
    var c, op := After(ttl, max, ops), Get(token, now);
    var i := IndexOf(c, token);
    assert (ops + [op])[..|ops|] == ops;
    if i == |c| {
      OthersExplained(ttl, max, ops, op, c);
    } else {
      SublistExplained(ttl, max, ops, c, i);
      OthersExplained(ttl, max, ops, op, RemoveAt(c, i));
      if !IsExpired(c, ttl, token, now) {
        FrontExplained(ttl, max, ops, op, c[i], RemoveAt(c, i));
      }
    }
  }

  lemma {:induction false} PutExplained(ttl: Instant, max: nat, ops: seq<Op>, token: string, info: TokenInfo, now: Instant)
    requires max >= 1
    requires var c := After(ttl, max, ops); Explained(ttl, max, ops, c)
    ensures Explained(ttl, max, ops + [Put(token, info, now)], AfterPut(After(ttl, max, ops), max, token, info, now))
  {
    var c, op := After(ttl, max, ops), Put(token, info, now);
    var i := IndexOf(c, token);
    var rest := c;
    if i < |c| {
      SublistExplained(ttl, max, ops, c, i);
      rest := RemoveAt(c, i);
    } else if |c| >= max {
      SublistExplained(ttl, max, ops, c, |c| - 1);
      rest := c[..|c| - 1];
      assert RemoveAt(c, |c| - 1) == rest;
    }
    OthersExplained(ttl, max, ops, op, rest);
    FrontExplained(ttl, max, ops, op, Entry(token, info, now), rest);
  }

  /** After any sequence of gets and puts: no token twice, never more than
      `max` entries, the most recently used first, and every entry is what the
      latest put of its token stored. */
  lemma {:induction false} CacheExplained(ttl: Instant, max: nat, ops: seq<Op>)
    requires max >= 1
    ensures Explained(ttl, max, ops, After(ttl, max, ops))
  {
    if ops == [] {
    } else {
      var init, op := ops[..|ops| - 1], ops[|ops| - 1];
      CacheExplained(ttl, max, init);
      assert ops == init + [op];
      match op
      case Get(token, now) => GetExplained(ttl, max, init, token, now);
      case Put(token, info, now) => PutExplained(ttl, max, init, token, info, now);
    }
  }

  /** A get answers exactly when the token is held and its latest put is at
      most one ttl old, and then with what that put stored. */
  lemma {:induction false} GetAnswers(ttl: Instant, max: nat, ops: seq<Op>, token: string, now: Instant)
    requires max >= 1
    ensures var c, put := After(ttl, max, ops), LastPut(ops, token);
            && (Holds(c, token) ==> put.Some? && put.value.Put?)
            && GetResult(c, ttl, token, now) ==
               if Holds(c, token) && now - put.value.at <= ttl then Some(put.value.info) else None
  {
    CacheExplained(ttl, max, ops);
  }

  /** What a get leaves behind: a token it answers for is now the first, and
      one it does not answer for is not held any more, so an expired entry is
      dropped at once; all other entries stay. */
  lemma {:induction false} GetLeaves(ttl: Instant, max: nat, ops: seq<Op>, token: string, now: Instant)
    requires max >= 1
    ensures var c := After(ttl, max, ops);
            var after := AfterGet(c, ttl, token, now);
            && (GetResult(c, ttl, token, now) == None ==> forall e :: e in after <==> e in c && e.token != token)
            && (GetResult(c, ttl, token, now).Some? ==>
                  after != [] && after[0].token == token && SameElements(after, c) && |after| == |c|)
  {
    var c := After(ttl, max, ops);
    var i := IndexOf(c, token);
    CacheExplained(ttl, max, ops);
    if i < |c| {
      RemovedAt(c, i);
      WithoutEntry(c, i);
    }
  }

  lemma {:induction false} WithoutEntry(c: Cache, i: nat)
    requires i < |c| && DistinctTokens(c)
    ensures forall e :: e in RemoveAt(c, i) <==> e in c && e.token != c[i].token
    ensures forall e :: e in c <==> e == c[i] || e in RemoveAt(c, i)
  {
    assert c == c[..i] + [c[i]] + c[i + 1..];
  }

  /** A put evicts only when it brings a new token to a full cache; then
      exactly the entry used least recently goes, and all others stay. */
  lemma {:induction false} EvictsLeastRecent(ttl: Instant, max: nat, ops: seq<Op>, token: string, info: TokenInfo, now: Instant)
    requires max >= 1
    ensures var c := After(ttl, max, ops);
            var after := AfterPut(c, max, token, info, now);
            if Holds(c, token) || |c| < max then
              forall t :: Holds(c, t) ==> Holds(after, t)
            else
              var victim := c[|c| - 1].token;
              && !Holds(after, victim)
              && (forall t :: Holds(c, t) && t != victim ==>
                    Holds(after, t) && LastUse(ttl, max, ops, t) > LastUse(ttl, max, ops, victim))
  {
    var c := After(ttl, max, ops);
    var after := AfterPut(c, max, token, info, now);
    CacheExplained(ttl, max, ops);
    forall t | Holds(c, t)
      ensures Holds(after, t) <==> (Holds(c, token) || |c| < max || t != c[|c| - 1].token)
    {
      KeptByPut(c, max, token, info, now, t);
    }
  }

  lemma {:induction false} HoldsIff(c: Cache, t: string)
    ensures Holds(c, t) <==> exists i :: 0 <= i < |c| && c[i].token == t
  {
  }

  lemma {:induction false} KeptByPut(c: Cache, max: nat, token: string, info: TokenInfo, now: Instant, t: string)
    requires DistinctTokens(c) && 1 <= max && |c| <= max && Holds(c, t)
    ensures Holds(AfterPut(c, max, token, info, now), t)
            <==> Holds(c, token) || |c| < max || t != c[|c| - 1].token
  {
    var after, i, j := AfterPut(c, max, token, info, now), IndexOf(c, token), IndexOf(c, t);
    HoldsIff(after, t);
    if i < |c| {
      RemovedAt(c, i);
      assert after[0].token == token;
      if j < i { assert after[j + 1] == c[j]; }
      if j > i { assert after[j] == c[j]; }
    } else if |c| < max {
      assert after[j + 1] == c[j];
    } else if j < |c| - 1 {
      assert after[j + 1] == c[j];
    }
  }

  // ----------------------------------------------------- sequential accesses

  /** One request at a time: look up, and on a miss put what an active
      introspection returned. */
  datatype Access = Access(token: string, info: TokenInfo, askedAt: Instant, putAt: Instant)

  function AfterAccess(c: Cache, ttl: Instant, max: nat, a: Access): Cache {
    if GetResult(c, ttl, a.token, a.askedAt).Some? then AfterGet(c, ttl, a.token, a.askedAt)
    else AfterPut(AfterGet(c, ttl, a.token, a.askedAt), max, a.token, a.info, a.putAt)
  }

  function AfterAccesses(ttl: Instant, max: nat, accesses: seq<Access>): Cache {
    if accesses == [] then []
    else AfterAccess(AfterAccesses(ttl, max, accesses[..|accesses| - 1]), ttl, max, accesses[|accesses| - 1])
  }

  function TokenOf(e: Entry): string { e.token }
  function AccessedToken(a: Access): string { a.token }

  function Without(ts: seq<string>, t: string): seq<string> {
    if ts == [] then [] else if ts[0] == t then Without(ts[1..], t) else [ts[0]] + Without(ts[1..], t)
  }

  /** The distinct tokens accessed, latest access first. */
  function Recent(tokens: seq<string>): seq<string> {
    if tokens == [] then []
    else [tokens[|tokens| - 1]] + Without(Recent(tokens[..|tokens| - 1]), tokens[|tokens| - 1])
  }

  /** The index of the latest access to a token. */
  function LastAccess(tokens: seq<string>, t: string): int {
    if tokens == [] then -1
    else if tokens[|tokens| - 1] == t then |tokens| - 1
    else LastAccess(tokens[..|tokens| - 1], t)
  }

  lemma {:induction false} WithoutElements(ts: seq<string>, t: string)
    ensures forall x :: x in Without(ts, t) <==> x in ts && x != t
  {
    if ts == [] {
    } else {
      WithoutElements(ts[1..], t);
      assert ts == [ts[0]] + ts[1..];
    }
  }

  lemma {:induction false} WithoutAbsent(ts: seq<string>, t: string)
    requires t !in ts
    ensures Without(ts, t) == ts
  {
    if ts == [] {
    } else {
      assert ts == [ts[0]] + ts[1..];
      WithoutAbsent(ts[1..], t);
    }
  }

  lemma {:induction false} WithoutNoDuplicates(ts: seq<string>, t: string)
    requires NoDuplicates(ts)
    ensures NoDuplicates(Without(ts, t))
  {
    if ts == [] {
    } else {
      WithoutNoDuplicates(ts[1..], t);
      WithoutElements(ts[1..], t);
      assert ts[0] !in ts[1..];
    }
  }

  ghost predicate ByLastAccess(tokens: seq<string>, ts: seq<string>) {
    forall i, j :: 0 <= i < j < |ts| ==> LastAccess(tokens, ts[i]) > LastAccess(tokens, ts[j])
  }

  lemma {:induction false} WithoutKeepsOrder(tokens: seq<string>, ts: seq<string>, t: string)
    requires ByLastAccess(tokens, ts)
    ensures ByLastAccess(tokens, Without(ts, t))
  {
    if ts == [] {
    } else {
      var rest := Without(ts[1..], t);
      WithoutKeepsOrder(tokens, ts[1..], t);
      WithoutElements(ts[1..], t);
      forall j | 0 <= j < |rest| ensures LastAccess(tokens, ts[0]) > LastAccess(tokens, rest[j]) {
        assert rest[j] in ts[1..];
        var k :| 0 <= k < |ts[1..]| && ts[1..][k] == rest[j];
        assert ts[1 + k] == rest[j];
      }
    }
  }

  lemma {:induction false} LastAccessBound(tokens: seq<string>, t: string)
    ensures -1 <= LastAccess(tokens, t) < |tokens| || tokens == []
    ensures t in tokens <==> LastAccess(tokens, t) >= 0
  {
    if tokens == [] {
    } else {
      LastAccessBound(tokens[..|tokens| - 1], t);
      assert tokens == tokens[..|tokens| - 1] + [tokens[|tokens| - 1]];
    }
  }

  lemma {:induction false} InFront(init: seq<string>, last: string, rest: seq<string>)
    requires ByLastAccess(init, rest) && last !in rest
    ensures ByLastAccess(init + [last], [last] + rest)
  {
    var tokens, r := init + [last], [last] + rest;
    assert tokens[..|init|] == init;
    forall k | 0 <= k < |rest|
      ensures LastAccess(tokens, rest[k]) == LastAccess(init, rest[k]) < |init|
    {
      LastAccessBound(init, rest[k]);
    }
    assert forall k :: 1 <= k < |r| ==> r[k] == rest[k - 1];
  }

  /** `Recent` is what it says: the accessed tokens, none twice, the one
      accessed last in front. */
  lemma {:induction false} RecentExact(tokens: seq<string>)
    ensures NoDuplicates(Recent(tokens)) && SameElements(Recent(tokens), tokens)
    ensures ByLastAccess(tokens, Recent(tokens))
  {
    if tokens == [] {
    } else {
      var init, last := tokens[..|tokens| - 1], tokens[|tokens| - 1];
      RecentExact(init);
      WithoutElements(Recent(init), last);
      WithoutNoDuplicates(Recent(init), last);
      WithoutKeepsOrder(init, Recent(init), last);
      assert tokens == init + [last];
      InFront(init, last, Without(Recent(init), last));
    }
  }

  lemma {:induction false} WithoutSplits(a: seq<string>, b: seq<string>, t: string)
    ensures Without(a + b, t) == Without(a, t) + Without(b, t)
  {
    if a == [] {
      assert a + b == b;
    } else {
      assert (a + b)[1..] == a[1..] + b;
      WithoutSplits(a[1..], b, t);
    }
  }

  lemma {:induction false} WithoutAt(ts: seq<string>, i: nat)
    requires NoDuplicates(ts) && i < |ts|
    ensures Without(ts, ts[i]) == RemoveAt(ts, i)
  {
    var a, b := ts[..i], ts[i + 1..];
    assert ts == a + ([ts[i]] + b);
    WithoutSplits(a, [ts[i]] + b, ts[i]);
    assert ([ts[i]] + b)[1..] == b;
    WithoutAbsent(a, ts[i]);
    WithoutAbsent(b, ts[i]);
  }

  lemma {:induction false} KnownAccess(c: Cache, ttl: Instant, max: nat, a: Access)
    requires DistinctTokens(c) && |c| <= max && Holds(c, a.token)
    ensures var after, i := AfterAccess(c, ttl, max, a), IndexOf(c, a.token);
            after != [] && after[0].token == a.token && after == [after[0]] + RemoveAt(c, i)
  {
    var i := IndexOf(c, a.token);
    RemovedAt(c, i);
    assert !Holds(RemoveAt(c, i), a.token);
  }

  lemma {:induction false} NewAccess(c: Cache, ttl: Instant, max: nat, a: Access)
    requires |c| <= max && max >= 1 && !Holds(c, a.token)
    ensures var after := AfterAccess(c, ttl, max, a);
            && after != [] && after[0].token == a.token
            && after == [after[0]] + c[..if |c| < max then |c| else max - 1]
  {
    assert c[..|c|] == c;
  }

  lemma {:induction false} FrontTokens(front: Entry, rest: Cache)
    requires DistinctTokens(rest) && forall k :: 0 <= k < |rest| ==> rest[k].token != front.token
    ensures DistinctTokens([front] + rest)
    ensures Map(TokenOf, [front] + rest) == [front.token] + Map(TokenOf, rest)
  {
    var c := [front] + rest;
    assert forall k :: 1 <= k < |c| ==> c[k] == rest[k - 1];
  }

  lemma {:induction false} KnownTokens(c: Cache, ttl: Instant, max: nat, a: Access)
    requires DistinctTokens(c) && |c| <= max && Holds(c, a.token)
    ensures var after := AfterAccess(c, ttl, max, a);
            && Map(TokenOf, after) == [a.token] + Without(Map(TokenOf, c), a.token)
            && DistinctTokens(after) && |after| == |c|
  {
    var ts, i, after := Map(TokenOf, c), IndexOf(c, a.token), AfterAccess(c, ttl, max, a);
    KnownAccess(c, ttl, max, a);
    RemovedAt(c, i);
    FrontTokens(after[0], RemoveAt(c, i));
    TokensWithout(c, i);
  }

  lemma {:induction false} TokensWithout(c: Cache, i: nat)
    requires DistinctTokens(c) && i < |c|
    ensures Map(TokenOf, RemoveAt(c, i)) == Without(Map(TokenOf, c), c[i].token)
  {
    WithoutAt(Map(TokenOf, c), i);
  }

  lemma {:induction false} NewTokens(c: Cache, ttl: Instant, max: nat, a: Access)
    requires DistinctTokens(c) && |c| <= max && max >= 1 && !Holds(c, a.token)
    ensures var after := AfterAccess(c, ttl, max, a);
            && Map(TokenOf, after) == Take([a.token] + Map(TokenOf, c), max)
            && DistinctTokens(after) && |after| <= max
  {
    var k, after := if |c| < max then |c| else max - 1, AfterAccess(c, ttl, max, a);
    NewAccess(c, ttl, max, a);
    FrontTokens(after[0], c[..k]);
    assert Map(TokenOf, c[..k]) == Map(TokenOf, c)[..k];
  }

  /** The tokens after one access: the token in front, the others behind it,
      cut off at the capacity. */
  lemma {:induction false} AccessTokens(c: Cache, ttl: Instant, max: nat, a: Access)
    requires DistinctTokens(c) && |c| <= max && max >= 1
    ensures var after := AfterAccess(c, ttl, max, a);
            && Map(TokenOf, after) == Take([a.token] + Without(Map(TokenOf, c), a.token), max)
            && DistinctTokens(after) && |after| <= max
  {
    if Holds(c, a.token) {
      KnownTokens(c, ttl, max, a);
    } else {
      NewTokens(c, ttl, max, a);
      WithoutAbsent(Map(TokenOf, c), a.token);
    }
  }

  lemma {:induction false} TakeOfAccess(ts: seq<string>, t: string, max: nat)
    requires NoDuplicates(ts) && max >= 1
    ensures Take([t] + Without(Take(ts, max), t), max) == Take([t] + Without(ts, t), max)
  {
    if |ts| > max {
      var a, b := ts[..max], ts[max..];
      assert ts == a + b;
      WithoutSplits(a, b, t);
      if t in a {
        var i :| 0 <= i < |a| && a[i] == t;
        WithoutAt(a, i);
        forall j | 0 <= j < |b| ensures b[j] != t {
          assert b[j] == ts[max + j];
        }
        WithoutAbsent(b, t);
        assert |Without(a, t)| == max - 1;
        assert ([t] + Without(ts, t))[..max] == [t] + Without(a, t);
      } else {
        WithoutAbsent(a, t);
      }
    }
  }

  lemma {:induction false} RecentSnoc(tokens: seq<string>, t: string)
    ensures Recent(tokens + [t]) == [t] + Without(Recent(tokens), t)
  {
    assert (tokens + [t])[..|tokens|] == tokens;
  }

  lemma {:induction false} OneMoreAccess(tokens: seq<string>, t: string, max: nat)
    requires max >= 1
    ensures Take(Recent(tokens + [t]), max) == Take([t] + Without(Take(Recent(tokens), max), t), max)
  {
    RecentExact(tokens);
    RecentSnoc(tokens, t);
    TakeOfAccess(Recent(tokens), t, max);
  }

  ghost predicate AreMostRecent(c: Cache, tokens: seq<string>, max: nat) {
    Map(TokenOf, c) == Take(Recent(tokens), max) && DistinctTokens(c) && |c| <= max
  }

  lemma {:induction false} AccessKeepsMostRecent(c: Cache, ttl: Instant, max: nat, tokens: seq<string>, a: Access)
    requires max >= 1 && AreMostRecent(c, tokens, max)
    ensures AreMostRecent(AfterAccess(c, ttl, max, a), tokens + [a.token], max)
  {
    AccessTokens(c, ttl, max, a);
    OneMoreAccess(tokens, a.token, max);
  }

  /** Whatever entries expire on the way, sequential accesses leave exactly the
      `max` tokens accessed last (or all of them, if there are fewer), each
      once, the one accessed last in front. */
  lemma {:induction false} HoldsMostRecent(ttl: Instant, max: nat, accesses: seq<Access>)
    requires max >= 1
    ensures AreMostRecent(AfterAccesses(ttl, max, accesses), Map(AccessedToken, accesses), max)
  {
    if accesses == [] {
    } else {
      var init, a := accesses[..|accesses| - 1], accesses[|accesses| - 1];
      HoldsMostRecent(ttl, max, init);
      AccessKeepsMostRecent(AfterAccesses(ttl, max, init), ttl, max, Map(AccessedToken, init), a);
      assert accesses == init + [a];
      MapSnoc(AccessedToken, init, a);
    }
  }
}
