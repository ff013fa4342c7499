/** Which rows end up anchored when other statements run between the two
    statements of `Classify` (internal/store/classification_repo.go). */
module AnchorRuns {
  import opened Classifier
  import opened Clock
  import opened Counting
  import opened Database
  import opened DiscoveredTable
  import opened Governance
  import opened GovernanceRuns
  import opened ManagedTable
  import opened MergedRows
  import opened Normalizer
  import opened Options
  import opened Scenarios

  // ---------------------------------------------------------------- activity

  /** The soft delete would switch the row off. */
  predicate IsIdle(s: Db, k: MergeKey) {
    k in Rows(s) && !Rows(s)[k].isAnchor && Rows(s)[k].lastSeen < s.now - 7 * DAY
  }

  /** The step is an upsert that brings the key and commits. */
  predicate Sees(n: Normalizer, s: Db, step: Step, k: MergeKey) {
    Upserts(s, step) && Select(n, step.cycle.signals, k) != []
  }

  predicate SeesAny(n: Normalizer, s: Db, steps: seq<Step>, k: MergeKey)
    decreases |steps|
  {
    steps != [] && (Sees(n, s, steps[0], k) || SeesAny(n, Apply(s, steps[0]), steps[1..], k))
  }

  /** A soft delete of the run finds the row idle, and no later upsert brings it back. */
  predicate LeftOff(n: Normalizer, s: Db, steps: seq<Step>, k: MergeKey)
    decreases |steps|
  {
    && steps != []
    && (LeftOff(n, Apply(s, steps[0]), steps[1..], k)
        || (steps[0].SoftDeleteIdle? && IsIdle(s, k) && !SeesAny(n, Apply(s, steps[0]), steps[1..], k)))
  }

  lemma {:induction false} StepActive(n: Normalizer, s: Db, step: Step, k: MergeKey)
    requires Inv(s) && Enabled(n, s, step)
    ensures ActiveAt(Apply(s, step), k)
            <==> (ActiveAt(s, k) || Sees(n, s, step, k)) && !(step.SoftDeleteIdle? && IsIdle(s, k))
  {
    if step.BatchUpsert? {
      UpsertActive(n, s, step.cycle, k);
    }
  }

  /** A row is active at the end of a run exactly when it was active at its
      start or came in during it, and was not left switched off. */
  lemma {:induction false} ActiveOverRun(n: Normalizer, s: Db, steps: seq<Step>, k: MergeKey)
    requires Inv(s) && IsRun(n, s, steps)
    ensures ActiveAt(After(s, steps), k)
            <==> (ActiveAt(s, k) || SeesAny(n, s, steps, k)) && !LeftOff(n, s, steps, k)
    decreases |steps|
  {
    if steps == [] {
    } else {
      StepActive(n, s, steps[0], k);
      StepKeepsInv(n, s, steps[0]);
      ActiveOverRun(n, Apply(s, steps[0]), steps[1..], k);
    }
  }

  // ----------------------------------------------------------------- matches

  /** The items of the last sync of the run. */
  function LastBatch(steps: seq<Step>): Option<seq<ManagedSync>> {
    if steps == [] then None
    else
      match LastBatch(steps[1..])
      case Some(items) => Some(items)
      case None => if steps[0].SyncManaged? then Some(steps[0].items) else None
  }

  /** The batch declares an operation that matches the row. */
  ghost predicate BatchMatches(items: seq<ManagedSync>, k: MergeKey) {
    exists i :: 0 <= i < |items| && IsLast(items, i) && items[i].key.verb == k.verb
                && (items[i].key.gatewayPath == k.path || items[i].values.backendPath == k.path)
  }

  lemma {:induction false} SyncMatches(s: Db, items: seq<ManagedSync>, start: Time, k: MergeKey)
    requires Inv(s) && (s.lastSync.Some? ==> s.lastSync.value < start)
    ensures IsMatched(Apply(s, SyncManaged(items, start)), k) <==> BatchMatches(items, k)
  {
    var t := Apply(s, SyncManaged(items, start));
    SyncedExact(s.managed, items, start);
    SyncReplacesIff(s.managed, items, start);
    forall i | 0 <= i < |items| && IsLast(items, i)
      ensures items[i].key in t.managed
              && (Joins(items[i].key, t.managed[items[i].key], k) <==>
                  items[i].key.verb == k.verb
                  && (items[i].key.gatewayPath == k.path || items[i].values.backendPath == k.path))
    {
      assert t.managed[items[i].key] == ManagedRow(items[i].values, start, true);
    }
    if IsMatched(t, k) {
      var mk :| mk in t.managed && Joins(mk, t.managed[mk], k);
      assert IsActive(t.managed, mk);
      LastExists(items, mk);
    }
  }

  lemma {:induction false} CleanupMatches(s: Db, k: MergeKey)
    ensures IsMatched(Apply(s, CleanupManagedApis), k) <==> IsMatched(s, k)
  {
    var t := Apply(s, CleanupManagedApis);
    if IsMatched(s, k) {
      var mk :| mk in s.managed && Joins(mk, s.managed[mk], k);
      assert mk in t.managed;
    }
  }

  lemma {:induction false} StepMatches(n: Normalizer, s: Db, step: Step, k: MergeKey)
    requires Inv(s) && Enabled(n, s, step)
    ensures IsMatched(Apply(s, step), k)
            <==> if step.SyncManaged? then BatchMatches(step.items, k) else IsMatched(s, k)
  {
    match step
    case SyncManaged(items, start) => SyncMatches(s, items, start, k);
    case CleanupManagedApis => CleanupMatches(s, k);
    case _ => assert Apply(s, step).managed == s.managed;
  }

  /** Whether a row is matched at the end of a run is up to its last sync. */
  ghost predicate MatchedAfter(s: Db, steps: seq<Step>, k: MergeKey) {
    match LastBatch(steps)
    case None => IsMatched(s, k)
    case Some(items) => BatchMatches(items, k)
  }

  lemma {:induction false} MatchedOverRun(n: Normalizer, s: Db, steps: seq<Step>, k: MergeKey)
    requires Inv(s) && IsRun(n, s, steps)
    ensures IsMatched(After(s, steps), k) <==> MatchedAfter(s, steps, k)
    decreases |steps|
  {
    if steps == [] {
    } else {
      StepMatches(n, s, steps[0], k);
      StepKeepsInv(n, s, steps[0]);
      MatchedOverRun(n, Apply(s, steps[0]), steps[1..], k);
    }
  }

  // ----------------------------------------------------------------- anchors

  predicate IsAnchorAt(s: Db, k: MergeKey) {
    k in Rows(s) && Rows(s)[k].isAnchor
  }

  predicate NoAnchoring(steps: seq<Step>) {
    steps == [] || (!steps[0].Anchor? && NoAnchoring(steps[1..]))
  }

  lemma {:induction false} StepAnchors(n: Normalizer, s: Db, step: Step, k: MergeKey)
    requires Inv(s) && Enabled(n, s, step)
    ensures IsAnchorAt(Apply(s, step), k)
            <==> IsAnchorAt(s, k) || (step.Anchor? && ActiveAt(s, k) && IsMatched(s, k))
  {
    if step.BatchUpsert? {
      BatchBorn(s.discovered, step.cycle.merged, k);
    }
  }

  lemma {:induction false} AnchorsOverRun(n: Normalizer, s: Db, steps: seq<Step>, k: MergeKey)
    requires Inv(s) && IsRun(n, s, steps) && NoAnchoring(steps)
    ensures IsAnchorAt(After(s, steps), k) <==> IsAnchorAt(s, k)
    decreases |steps|
  {
    if steps == [] {
    } else {
      StepAnchors(n, s, steps[0], k);
      StepKeepsInv(n, s, steps[0]);
      AnchorsOverRun(n, Apply(s, steps[0]), steps[1..], k);
    }
  }

  /** Whatever runs between the two statements of `Classify`: a row active at
      the first is anchored by the second exactly when it was an anchor before,
      or retention did not leave it switched off and the last sync until then
      declares an operation that matches it. */
  lemma {:induction false} AnchoredAfterRaceIff(n: Normalizer, s: Db, cycle: WindowId, between: seq<Step>, k: MergeKey)
    requires Inv(s) && ActiveAt(s, k) && NoAnchoring(between)
    requires IsRun(n, Apply(s, Classify(cycle)), between)
    ensures var s1 := Apply(s, Classify(cycle));
            IsAnchorAt(After(s1, between + [Anchor]), k)
            <==> IsAnchorAt(s, k) || (!LeftOff(n, s1, between, k) && MatchedAfter(s, between, k))
  {
    var s1 := Apply(s, Classify(cycle));
    var u := After(s1, between);
    ClassifyKeepsInv(s, cycle);
    RunKeepsInv(n, s1, between);
    ActiveOverRun(n, s1, between, k);
    MatchedOverRun(n, s1, between, k);
    AnchorsOverRun(n, s1, between, k);
    StepAnchors(n, u, Anchor, k);
    AfterSnoc(s1, between, Anchor);
    assert IsMatched(s1, k) <==> IsMatched(s, k);
  }

  /** With a whole retention run in between, hard delete included, a matched
      active row is anchored exactly when it was an anchor before or was seen
      within the last seven days. */
  lemma {:induction false} AnchoredAfterRetentionIff(
    s: Db, cycle: WindowId, findingDays: int, rowDays: int, keep: set<FindingId>, k: MergeKey)
    requires Inv(s) && ActiveAt(s, k) && IsMatched(s, k)
    ensures IsAnchorAt(
              After(Apply(s, Classify(cycle)), RetentionSteps(findingDays, rowDays, keep) + [Anchor]), k)
            <==> Rows(s)[k].isAnchor || Rows(s)[k].lastSeen >= s.now - 7 * DAY
  {
    var s1 := Apply(s, Classify(cycle));
    var u := Retained(s1, findingDays, rowDays, keep);
    RetentionIsRetained(s1, findingDays, rowDays, keep);
    RowSpared(s1, findingDays, rowDays, keep, k);
    RetainedMatches(s1, findingDays, rowDays, keep, k);
    AfterSnoc(s1, RetentionSteps(findingDays, rowDays, keep), Anchor);
    assert IsMatched(s1, k) && Rows(s1) == Rows(s);
  }

  lemma {:induction false} RetainedMatches(s: Db, findingDays: int, rowDays: int, keep: set<FindingId>, k: MergeKey)
    ensures IsMatched(Retained(s, findingDays, rowDays, keep), k) <==> IsMatched(s, k)
  {
    var t := HardDelete(SoftDeleted(s, findingDays, keep), rowDays);
    assert t.managed == s.managed;
    CleanupMatches(t, k);
    assert IsMatched(t, k) <==> IsMatched(s, k);
  }

  // -------------------------------------------------------------- an example

  lemma {:induction false} RetentionRuns(n: Normalizer, s: Db, findingDays: int, rowDays: int, keep: set<FindingId>)
    requires IsOnePerRow(s.findings, keep)
    ensures IsRun(n, s, RetentionSteps(findingDays, rowDays, keep) + [Anchor])
  {
    var steps := RetentionSteps(findingDays, rowDays, keep) + [Anchor];
    var s1 := Apply(s, steps[0]);
    var s2 := Apply(s1, steps[1]);
    var s3 := Apply(s2, steps[2]);
    RunCons(n, Apply(s3, steps[3]), Anchor, []);
    RunCons(n, s3, steps[3], [Anchor] + []);
    RunCons(n, s2, steps[2], [steps[3]] + ([Anchor] + []));
    RunCons(n, s1, steps[1], [steps[2]] + ([steps[3]] + ([Anchor] + [])));
    RunCons(n, s, steps[0], [steps[1]] + ([steps[2]] + ([steps[3]] + ([Anchor] + []))));
    assert steps == [steps[0]] + ([steps[1]] + ([steps[2]] + ([steps[3]] + ([Anchor] + []))));
  }

  lemma {:induction false} DeclaredLaterRuns(
    t: Db, n: Normalizer, s: Signal, values: ManagedValues, now: Time, idle: nat)
    requires HasSeen(t, n, s, now)
    ensures var steps := [Advance(idle), Declaring(n, s, values, now + idle)];
            && IsRun(n, t, steps)
            && After(t, steps) == Apply(Apply(t, Advance(idle)), Declaring(n, s, values, now + idle))
  {
    TwoSteps(n, t, Advance(idle), Declaring(n, s, values, now + idle));
  }

  /** The row of the request is matched, and nothing has been reported yet. */
  ghost predicate IsDeclared(u: Db, n: Normalizer, s: Signal, now: Time) {
    var k := KeyOf(n, s);
    && u.lastSync.Some? && u.now == now && u.findings == map[] && NewFindings(u, 1) == map[]
    && ActiveAt(u, k) && IsMatched(u, k) && !IsAnchorAt(u, k)
    && Rows(u)[k].lastSeen == UnixToTime(s.raw.lastSeenUnix)
  }

  lemma {:induction false} DeclaredLater(t: Db, n: Normalizer, s: Signal, values: ManagedValues, now: Time, idle: nat)
    requires HasSeen(t, n, s, now)
    ensures IsDeclared(After(t, [Advance(idle), Declaring(n, s, values, now + idle)]), n, s, now + idle)
  {
    DeclaredLaterRuns(t, n, s, values, now, idle);
    DeclaredIsMatched(n, s, values, now + idle, Apply(t, Advance(idle)));
    OnlyMatchedRow(After(t, [Advance(idle), Declaring(n, s, values, now + idle)]), KeyOf(n, s));
  }

  lemma {:induction false} ThenDeclared(
    s0: Db, opening: seq<Step>, n: Normalizer, s: Signal, values: ManagedValues, now: Time, idle: nat)
    requires IsRun(n, s0, opening) && HasSeen(After(s0, opening), n, s, now)
    ensures var steps := opening + [Advance(idle), Declaring(n, s, values, now + idle)];
            IsRun(n, s0, steps) && IsDeclared(After(s0, steps), n, s, now + idle)
  {
    var t := After(s0, opening);
    DeclaredLaterRuns(t, n, s, values, now, idle);
    DeclaredLater(t, n, s, values, now, idle);
    RunConcat(n, s0, opening, [Advance(idle), Declaring(n, s, values, now + idle)]);
  }

  /** A week later the row of an operation that has been declared meanwhile is
      classified, retention runs, and the second statement comes too late. */
  lemma {:induction false} ThenNotAnchored(
    s0: Db, before: seq<Step>, n: Normalizer, s: Signal, now: Time, findingDays: int, rowDays: int)
    requires Inv(s0) && IsRun(n, s0, before) && IsDeclared(After(s0, before), n, s, now)
    requires UnixToTime(s.raw.lastSeenUnix) < now - 7 * DAY
    ensures var run := before + ([Classify(1)] + (RetentionSteps(findingDays, rowDays, {}) + [Anchor]));
            IsRun(n, s0, run) && !IsAnchorAt(After(s0, run), KeyOf(n, s))
  {
    var rest, t := RetentionSteps(findingDays, rowDays, {}) + [Anchor], After(s0, before);
    RunKeepsInv(n, s0, before);
    RetentionRuns(n, Apply(t, Classify(1)), findingDays, rowDays, {});
    RunCons(n, t, Classify(1), rest);
    RunConcat(n, s0, before, [Classify(1)] + rest);
    AnchoredAfterRetentionIff(t, 1, findingDays, rowDays, {}, KeyOf(n, s));
  }

  lemma {:induction false} OnlyMatchedRow(t: Db, key: MergeKey)
    requires (forall k :: k in Rows(t) ==> k == key) && IsMatched(t, key)
    ensures NewFindings(t, 1) == map[]
  {
    forall id ensures id !in NewFindings(t, 1) {
    }
  }

  /** The intention that matched rows are anchored can fail: for every request
      there is a run in which it is seen on time, declared after more than a
      week without further calls, matched when it is classified, and no anchor
      when the cycle is over, since retention ran in between. */
  lemma {:induction false} MatchedRowNotAnchored(
    n: Normalizer, s: Signal, values: ManagedValues, now: Time, idle: nat, findingDays: int, rowDays: int)
    requires UnixToTime(s.raw.lastSeenUnix) <= now && idle > 7 * DAY
    ensures var before := Opening(n, s, now) + [Advance(idle), Declaring(n, s, values, now + idle)];
            var run := before + ([Classify(1)] + (RetentionSteps(findingDays, rowDays, {}) + [Anchor]));
            && IsRun(n, Initial(now), run)
            && IsMatched(After(Initial(now), before), KeyOf(n, s))
            && !IsAnchorAt(After(Initial(now), run), KeyOf(n, s))
  {
    OpeningRuns(n, s, now);
    SeenIsThere(n, s, now);
    ThenDeclared(Initial(now), Opening(n, s, now), n, s, values, now, idle);
    var before := Opening(n, s, now) + [Advance(idle), Declaring(n, s, values, now + idle)];
    ThenNotAnchored(Initial(now), before, n, s, now + idle, findingDays, rowDays);
  }
}
