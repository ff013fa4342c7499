/** Which rows the view shows after a run, and under which label
    (internal/store/migrations/008_top_clients.sql, classification_repo.go). */
module ViewRuns {
  import opened Classifier
  import opened Clock
  import opened Governance
  import opened GovernanceRuns
  import opened ManagedTable
  import opened MergedRows
  import opened Normalizer
  import opened Options
  import opened Scenarios

  /** A classify statement finds the row active and unmatched. */
  predicate Finds(s: Db, step: Step, row: RowId) {
    step.Classify? && Exists(s, row) && IsUnmatched(s, row.key)
  }

  /** Some classify statement of the run did. */
  predicate FoundUnmatched(s: Db, steps: seq<Step>, row: RowId)
    decreases |steps|
  {
    steps != [] && (Finds(s, steps[0], row) || FoundUnmatched(Apply(s, steps[0]), steps[1..], row))
  }

  lemma {:induction false} ClassifyAddsFinding(s: Db, cycle: WindowId, row: RowId)
    ensures HasFinding(Apply(s, Classify(cycle)).findings, row)
            <==> HasFinding(s.findings, row) || Finds(s, Classify(cycle), row)
  {
    var fs, t := NewFindings(s, cycle), Apply(s, Classify(cycle));
    if Finds(s, Classify(cycle), row) {
      assert FindingId(s.nextBatch, row) in t.findings;
    }
    if HasFinding(s.findings, row) {
      var id :| id in s.findings && id.row == row;
      assert id in t.findings;
    }
  }

  /** The hard delete takes the findings of the rows it deletes, no others. */
  lemma {:induction false} HardDeleteKeepsFindings(s: Db, days: int, row: RowId)
    requires Inv(s) && (Exists(s, row) ==> Exists(Apply(s, HardDeleteIdle(days)), row))
    ensures HasFinding(Apply(s, HardDeleteIdle(days)).findings, row) <==> HasFinding(s.findings, row)
  {
    if HasFinding(s.findings, row) {
      var id :| id in s.findings && id.row == row;
      assert Exists(s, id.row);
      assert id in Apply(s, HardDeleteIdle(days)).findings;
    }
  }

  lemma {:induction false} StepFindings(n: Normalizer, s: Db, step: Step, row: RowId)
    requires Inv(s) && Enabled(n, s, step) && (Exists(s, row) ==> Exists(Apply(s, step), row))
    ensures HasFinding(Apply(s, step).findings, row) <==> HasFinding(s.findings, row) || Finds(s, step, row)
  {
    match step
    case Classify(cycle) => ClassifyAddsFinding(s, cycle, row);
    case CleanupFindings(days, keep) => CleanupKeepsLatest(s, days, keep, row);
    case HardDeleteIdle(days) => HardDeleteKeepsFindings(s, days, row);
    case _ =>
  }

  /** A row that exists at the end of a run existed ever since it first did. */
  lemma {:induction false} AliveUntilTheEnd(n: Normalizer, s: Db, steps: seq<Step>, row: RowId)
    requires Inv(s) && IsRun(n, s, steps) && steps != [] && Exists(After(s, steps), row)
    ensures Exists(s, row) ==> Exists(Apply(s, steps[0]), row)
  {
    if Exists(s, row) {
      AliveInBetween(n, s, steps, row);
    }
  }

  /** Findings come from classify statements only, and as long as the row
      exists at least one of them stays. */
  lemma {:induction false} FindingsOverRun(n: Normalizer, s: Db, steps: seq<Step>, row: RowId)
    requires Inv(s) && IsRun(n, s, steps) && Exists(After(s, steps), row)
    ensures HasFinding(After(s, steps).findings, row) <==> HasFinding(s.findings, row) || FoundUnmatched(s, steps, row)
    decreases |steps|
  {
    if steps == [] {
    } else {
      AliveUntilTheEnd(n, s, steps, row);
      StepFindings(n, s, steps[0], row);
      StepKeepsInv(n, s, steps[0]);
      FindingsOverRun(n, Apply(s, steps[0]), steps[1..], row);
    }
  }

  /** After every run, an active row is in the view exactly when some classify
      statement of the run found it active and unmatched; whether an operation
      matches it by now makes no difference. */
  lemma {:induction false} ShownIff(n: Normalizer, now: Time, steps: seq<Step>, row: RowId, v: View)
    requires IsRun(n, Initial(now), steps) && IsCurrentView(After(Initial(now), steps), v)
    requires Exists(After(Initial(now), steps), row) && ActiveAt(After(Initial(now), steps), row.key)
    ensures row in v <==> FoundUnmatched(Initial(now), steps, row)
  {
    RunKeepsInv(n, Initial(now), steps);
    FindingsOverRun(n, Initial(now), steps, row);
    assert IsViewAt(After(Initial(now), steps), v, row);
  }

  // ------------------------------------------------- the query has an answer

  /** Among finitely many findings one is the latest. */
  lemma {:induction false} LatestAmong(fs: Findings, ids: set<FindingId>, row: RowId) returns (latest: FindingId)
    requires ids != {} && forall id :: id in ids ==> id in fs && id.row == row
    ensures latest in ids && forall id :: id in ids ==> fs[id].classifiedAt <= fs[latest].classifiedAt
    decreases |ids|
  {
    var id :| id in ids;
    var rest := ids - {id};
    latest := id;
    if rest == {} {
      assert ids == {id};
    } else {
      var best := LatestAmong(fs, rest, row);
      if fs[id].classifiedAt < fs[best].classifiedAt {
        latest := best;
      }
    }
  }

  lemma {:induction false} LatestExists(fs: Findings, row: RowId)
    requires HasFinding(fs, row)
    ensures exists id :: IsLatest(fs, id) && id.row == row
  {
    var ids := set id | id in fs && id.row == row;
    var some :| some in fs && some.row == row;
    assert some in ids;
    var latest := LatestAmong(fs, ids, row);
    assert IsLatest(fs, latest);
  }

  /** The view query always has a result. */
  lemma {:induction false} ViewExists(s: Db) returns (v: View)
    ensures IsCurrentView(s, v)
  {
    var shown := set id | id in s.findings && Exists(s, id.row) && ActiveAt(s, id.row.key) :: id.row;
    forall row | row in shown ensures exists id :: IsLatest(s.findings, id) && id.row == row {
      LatestExists(s.findings, row);
    }
    v := map row | row in shown ::
      var id :| IsLatest(s.findings, id) && id.row == row;
      ViewRow(id, s.findings[id], Rows(s)[row.key]);
    forall row ensures IsViewAt(s, v, row) {
      assert row in shown <==> Exists(s, row) && ActiveAt(s, row.key) && HasFinding(s.findings, row);
    }
  }

  // ------------------------------------------------------------- which label

  function FoundAs(s: Db, step: Step, row: RowId): Finding
    requires Finds(s, step, row)
  {
    NewFindings(s, step.cycleId)[FindingId(s.nextBatch, row)]
  }

  /** What the last classify statement that found the row wrote. */
  function LastFound(s: Db, steps: seq<Step>, row: RowId): Option<Finding>
    decreases |steps|
  {
    if steps == [] then None
    else
      match LastFound(Apply(s, steps[0]), steps[1..], row)
      case Some(f) => Some(f)
      case None => if Finds(s, steps[0], row) then Some(FoundAs(s, steps[0], row)) else None
  }

  lemma {:induction false} FoundMeansLast(s: Db, steps: seq<Step>, row: RowId)
    ensures FoundUnmatched(s, steps, row) <==> LastFound(s, steps, row).Some?
    decreases |steps|
  {
    if steps == [] {
    } else {
      FoundMeansLast(Apply(s, steps[0]), steps[1..], row);
    }
  }

  lemma {:induction false} LatestAfterClassify(s: Db, cycle: WindowId, row: RowId, id: FindingId)
    requires Inv(s) && IsLatest(Apply(s, Classify(cycle)).findings, id) && id.row == row
    requires forall other :: other in s.findings ==> s.findings[other].classifiedAt < s.now
    ensures var t := Apply(s, Classify(cycle));
            if Finds(s, Classify(cycle), row) then t.findings[id] == FoundAs(s, Classify(cycle), row)
            else IsLatest(s.findings, id) && s.findings[id] == t.findings[id]
  {
    var fs, t := NewFindings(s, cycle), Apply(s, Classify(cycle));
    if Finds(s, Classify(cycle), row) {
      var found := FindingId(s.nextBatch, row);
      assert found in t.findings && t.findings[found].classifiedAt == s.now;
      assert t.findings[id].classifiedAt >= s.now;
      assert id !in s.findings || id in fs;
    } else {
      assert id !in fs;
      forall other | other in s.findings && other.row == id.row
        ensures s.findings[other].classifiedAt <= s.findings[id].classifiedAt
      {
        assert other in t.findings && other !in fs;
      }
    }
  }

  lemma {:induction false} LatestAfterHardDelete(s: Db, days: int, id: FindingId)
    requires Inv(s) && IsLatest(Apply(s, HardDeleteIdle(days)).findings, id)
    ensures IsLatest(s.findings, id) && s.findings[id] == Apply(s, HardDeleteIdle(days)).findings[id]
  {
    forall other | other in s.findings && other.row == id.row
      ensures s.findings[other].classifiedAt <= s.findings[id].classifiedAt
    {
      assert other in Apply(s, HardDeleteIdle(days)).findings;
    }
  }

  lemma {:induction false} StepLatest(n: Normalizer, s: Db, step: Step, row: RowId, id: FindingId)
    requires Inv(s) && Enabled(n, s, step) && IsLatest(Apply(s, step).findings, id) && id.row == row
    requires step.Classify? ==> forall other :: other in s.findings ==> s.findings[other].classifiedAt < s.now
    ensures var t := Apply(s, step);
            if Finds(s, step, row) then t.findings[id] == FoundAs(s, step, row)
            else IsLatest(s.findings, id) && s.findings[id] == t.findings[id]
  {
    match step
    case Classify(cycle) => LatestAfterClassify(s, cycle, row, id);
    case CleanupFindings(days, keep) => CleanupKeepsHaving(s, days, keep);
    case HardDeleteIdle(days) => LatestAfterHardDelete(s, days, id);
    case _ =>
  }

  lemma {:induction false} LatestOverRun(n: Normalizer, s: Db, steps: seq<Step>, row: RowId, id: FindingId)
    requires Inv(s) && IsRun(n, s, steps) && ClassifiesLater(s, steps)
    requires IsLatest(After(s, steps).findings, id) && id.row == row
    ensures match LastFound(s, steps, row)
            case Some(f) => After(s, steps).findings[id] == f
            case None => IsLatest(s.findings, id) && s.findings[id] == After(s, steps).findings[id]
    decreases |steps|
  {
    if steps == [] {
    } else {
      StepKeepsInv(n, s, steps[0]);
      LatestOverRun(n, Apply(s, steps[0]), steps[1..], row, id);
      if LastFound(Apply(s, steps[0]), steps[1..], row).None? {
        StepLatest(n, s, steps[0], row, id);
      }
    }
  }

  /** With classify statements at increasing times, a shown row carries what
      the last classify statement that found it unmatched wrote, no matter how
      many classify statements have passed it over since. */
  lemma {:induction false} ShownLabel(n: Normalizer, now: Time, steps: seq<Step>, row: RowId, v: View)
    requires IsRun(n, Initial(now), steps) && ClassifiesLater(Initial(now), steps)
    requires IsCurrentView(After(Initial(now), steps), v) && row in v
    ensures LastFound(Initial(now), steps, row) == Some(v[row].finding)
  {
    assert IsViewAt(After(Initial(now), steps), v, row);
    LatestOverRun(n, Initial(now), steps, row, v[row].id);
  }

  // ------------------------------------------------------ the view as served

  predicate NoRefresh(steps: seq<Step>) {
    steps == [] || (!steps[0].RefreshView? && NoRefresh(steps[1..]))
  }

  lemma {:induction false} ViewStays(s: Db, steps: seq<Step>)
    requires NoRefresh(steps)
    ensures After(s, steps).view == s.view
    decreases |steps|
  {
    if steps == [] {
    } else {
      ViewStays(Apply(s, steps[0]), steps[1..]);
    }
  }

  lemma {:induction false} ServedResult(n: Normalizer, s: Db, before: seq<Step>, result: View, later: seq<Step>)
    requires IsRun(n, s, before + ([RefreshView(result)] + later)) && NoRefresh(later)
    ensures IsRun(n, s, before) && IsCurrentView(After(s, before), result)
    ensures After(s, before + ([RefreshView(result)] + later)).view == result
  {
    RunConcat(n, s, before, [RefreshView(result)] + later);
    RunCons(n, After(s, before), RefreshView(result), later);
    ViewStays(Apply(After(s, before), RefreshView(result)), later);
  }

  /** What readers get after every run, whatever has happened since the last
      refresh: exactly the rows that were active then and that some classify
      statement had found unmatched until then, as they were then. Before the
      first refresh there is nothing. */
  lemma {:induction false} ServedExactly(
    n: Normalizer, now: Time, before: seq<Step>, result: View, later: seq<Step>, row: RowId)
    requires IsRun(n, Initial(now), before + ([RefreshView(result)] + later)) && NoRefresh(later)
    ensures var s, t := After(Initial(now), before), After(Initial(now), before + ([RefreshView(result)] + later));
            && (row in t.view <==>
                  Exists(s, row) && ActiveAt(s, row.key) && FoundUnmatched(Initial(now), before, row))
            && (row in t.view ==> t.view[row].row == Rows(s)[row.key])
            && (row in t.view && ClassifiesLater(Initial(now), before) ==>
                  LastFound(Initial(now), before, row) == Some(t.view[row].finding))
    ensures NoRefresh(before) ==> After(Initial(now), before).view == map[]
  {
    var s := After(Initial(now), before);
    ServedResult(n, Initial(now), before, result, later);
    assert IsViewAt(s, result, row);
    if Exists(s, row) && ActiveAt(s, row.key) {
      ShownIff(n, now, before, row, result);
    }
    if row in result && ClassifiesLater(Initial(now), before) {
      ShownLabel(n, now, before, row, result);
    }
    if NoRefresh(before) {
      ViewStays(Initial(now), before);
    }
  }

  // -------------------------------------------------------------- an example

  /** Once found unmatched, an active row is shown, whatever else runs. */
  lemma {:induction false} StillShown(
    n: Normalizer, now: Time, before: seq<Step>, rest: seq<Step>, row: RowId, v: View)
    requires IsRun(n, Initial(now), before) && FoundUnmatched(Initial(now), before, row)
    requires IsRun(n, After(Initial(now), before), rest)
    requires var u := After(After(Initial(now), before), rest); Exists(u, row) && ActiveAt(u, row.key)
    requires IsCurrentView(After(Initial(now), before + rest), v)
    ensures IsRun(n, Initial(now), before + rest) && row in v
    ensures After(Initial(now), before + rest) == After(After(Initial(now), before), rest)
  {
    RunConcat(n, Initial(now), before, rest);
    FoundConcat(Initial(now), before, rest, row);
    ShownIff(n, now, before + rest, row, v);
  }

  lemma {:induction false} ThenReported(now: Time, opening: seq<Step>, n: Normalizer, s: Signal)
    requires IsRun(n, Initial(now), opening) && HasSeen(After(Initial(now), opening), n, s, now)
    ensures var before, row := opening + [Classify(1), Advance(1)], SeenRow(n, s);
            var t := After(Initial(now), before);
            && IsRun(n, Initial(now), before) && FoundUnmatched(Initial(now), before, row)
            && t.now == now + 1 && t.lastSync == Some(now - 1) && Exists(t, row) && ActiveAt(t, row.key)
  {
    var t := After(Initial(now), opening);
    TwoSteps(n, t, Classify(1), Advance(1));
    RunConcat(n, Initial(now), opening, [Classify(1), Advance(1)]);
    assert !IsMatched(t, KeyOf(n, s));
    assert Finds(t, Classify(1), SeenRow(n, s));
    FoundConcat(Initial(now), opening, [Classify(1), Advance(1)], SeenRow(n, s));
  }

  lemma {:induction false} PassedOver(t: Db, n: Normalizer, s: Signal, values: ManagedValues, start: Time, row: RowId)
    requires row.key == KeyOf(n, s) && Exists(t, row) && ActiveAt(t, row.key)
    requires t.lastSync.Some? && t.lastSync.value < start <= t.now
    ensures var rest := [Declaring(n, s, values, start), Classify(2)];
            var u := After(t, rest);
            IsRun(n, t, rest) && Exists(u, row) && ActiveAt(u, row.key) && IsMatched(u, row.key)
  {
    var t1 := Apply(t, Declaring(n, s, values, start));
    TwoSteps(n, t, Declaring(n, s, values, start), Classify(2));
    DeclaredIsMatched(n, s, values, start, t);
    assert Apply(t1, Classify(2)).managed == t1.managed && Rows(Apply(t1, Classify(2))) == Rows(t1);
  }

  lemma {:induction false} FoundConcat(s: Db, a: seq<Step>, b: seq<Step>, row: RowId)
    ensures FoundUnmatched(s, a + b, row) <==> FoundUnmatched(s, a, row) || FoundUnmatched(After(s, a), b, row)
    decreases |a|
  {
    if a == [] {
      assert a + b == b;
    } else {
      assert (a + b)[1..] == a[1..] + b;
      FoundConcat(Apply(s, a[0]), a[1..], b, row);
    }
  }

  /** Becoming managed does not take a row out of the view: for every request
      there is a run in which it is seen, reported and then declared, after
      which every result of the view query still shows its row. */
  lemma {:induction false} ManagedRowIsShown(n: Normalizer, s: Signal, values: ManagedValues, now: Time, v: View)
    requires IsCurrentView(
               After(Initial(now), Opening(n, s, now) + [Classify(1), Advance(1)]
                                   + [Declaring(n, s, values, now + 1), Classify(2)]), v)
    ensures var steps := Opening(n, s, now) + [Classify(1), Advance(1)]
                         + [Declaring(n, s, values, now + 1), Classify(2)];
            var t := After(Initial(now), steps);
            IsRun(n, Initial(now), steps) && IsMatched(t, KeyOf(n, s)) && SeenRow(n, s) in v
  {
    OpeningRuns(n, s, now);
    SeenIsThere(n, s, now);
    ThenReported(now, Opening(n, s, now), n, s);
    var before := Opening(n, s, now) + [Classify(1), Advance(1)];
    PassedOver(After(Initial(now), before), n, s, values, now + 1, SeenRow(n, s));
    StillShown(n, now, before, [Declaring(n, s, values, now + 1), Classify(2)], SeenRow(n, s), v);
  }
}
