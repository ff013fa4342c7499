/** What holds over whole runs of the governance tables. */
module GovernanceRuns {
  import opened Classifier
  import opened Clock
  import opened Counting
  import opened DiscoveredTable
  import opened Governance
  import opened ManagedTable
  import opened MergedRows
  import opened Normalizer
  import opened Options
  import opened SampleColumns
  import opened Sequences

  lemma {:induction false} RunCons(n: Normalizer, s: Db, step: Step, rest: seq<Step>)
    ensures IsRun(n, s, [step] + rest) <==> Enabled(n, s, step) && IsRun(n, Apply(s, step), rest)
    ensures After(s, [step] + rest) == After(Apply(s, step), rest)
  {
    assert ([step] + rest)[1..] == rest;
  }

  lemma {:induction false} RunConcat(n: Normalizer, s: Db, a: seq<Step>, b: seq<Step>)
    ensures IsRun(n, s, a + b) <==> IsRun(n, s, a) && IsRun(n, After(s, a), b)
    ensures After(s, a + b) == After(After(s, a), b)
    decreases |a|
  {
    if a == [] {
      assert a + b == b;
    } else {
      assert (a + b)[1..] == a[1..] + b;
      RunConcat(n, Apply(s, a[0]), a[1..], b);
    }
  }

  lemma {:induction false} TwoSteps(n: Normalizer, s: Db, a: Step, b: Step)
    ensures After(s, [a, b]) == Apply(Apply(s, a), b)
    ensures IsRun(n, s, [a, b]) <==> Enabled(n, s, a) && Enabled(n, Apply(s, a), b)
  {
    RunCons(n, Apply(s, a), b, []);
    RunCons(n, s, a, [b] + []);
    assert [a] + ([b] + []) == [a, b];
  }

  lemma {:induction false} RunSplits(n: Normalizer, s: Db, steps: seq<Step>, last: Step)
    requires IsRun(n, s, steps + [last])
    ensures IsRun(n, s, steps) && Enabled(n, After(s, steps), last)
    ensures After(s, steps + [last]) == Apply(After(s, steps), last)
    decreases |steps|
  {
    var all := steps + [last];
    if steps == [] {
      assert all[1..] == [];
    } else {
      assert all[1..] == steps[1..] + [last];
      RunSplits(n, Apply(s, steps[0]), steps[1..], last);
    }
  }

  /** After every run that ends in a committed sync, the active managed rows
      are exactly the keys of that batch, and each carries the values of its
      last occurrence in the batch. */
  lemma {:induction false} SyncReplacesAll(n: Normalizer, s: Db, steps: seq<Step>, items: seq<ManagedSync>, start: Time)
    requires Inv(s) && IsRun(n, s, steps + [SyncManaged(items, start)])
    ensures var t := After(s, steps + [SyncManaged(items, start)]);
            && (forall k :: IsActive(t.managed, k) <==> InBatch(items, k))
            && (forall i :: 0 <= i < |items| && IsLast(items, i) ==>
                  IsActive(t.managed, items[i].key) && t.managed[items[i].key].values == items[i].values)
  {
    RunSplits(n, s, steps, SyncManaged(items, start));
    RunKeepsInv(n, s, steps);
    var before := After(s, steps);
    SyncReplacesIff(before.managed, items, start);
    SyncedExact(before.managed, items, start);
  }

  // ------------------------------------------------------ counts over runs

  /** The step is an upsert, and the table takes its batch. */
  predicate Upserts(s: Db, step: Step) {
    step.BatchUpsert? && Commits(s.discovered, step.cycle.merged)
  }

  function SignalsOfStep(s: Db, step: Step): seq<Signal> {
    if Upserts(s, step) then step.cycle.signals else []
  }

  /** The signals of all upserts of a run that commit, in order. */
  function SignalsIn(s: Db, steps: seq<Step>): seq<Signal>
    decreases |steps|
  {
    if steps == [] then [] else SignalsOfStep(s, steps[0]) + SignalsIn(Apply(s, steps[0]), steps[1..])
  }

  /** The row with this identity is gone, or another one took its key. */
  ghost predicate IsGone(s: Db, id: RowId) {
    id.born < s.discovered.nextBorn && !Exists(s, id)
  }

  lemma {:induction false} StepKeepsGone(n: Normalizer, s: Db, step: Step, id: RowId)
    requires Enabled(n, s, step) && IsGone(s, id)
    ensures IsGone(Apply(s, step), id)
  {
    match step
    case BatchUpsert(cycle) => BatchBorn(s.discovered, cycle.merged, id.key);
    case _ =>
  }

  lemma {:induction false} GoneForever(n: Normalizer, s: Db, steps: seq<Step>, id: RowId)
    requires IsRun(n, s, steps) && IsGone(s, id)
    ensures IsGone(After(s, steps), id)
    decreases |steps|
  {
    if steps == [] {
    } else {
      StepKeepsGone(n, s, steps[0], id);
      GoneForever(n, Apply(s, steps[0]), steps[1..], id);
    }
  }

  /** The average is still the mean, or NULL as before. */
  ghost predicate SameAverage(before: DiscoveredRow, t: Totals, after: DiscoveredRow, u: Totals) {
    && (MeanKept(before, t) ==> MeanKept(after, u))
    && (before.avgDurationUs == None ==> after.avgDurationUs == None)
  }

  lemma {:induction false} StepCounts(n: Normalizer, s: Db, step: Step, id: RowId, t: Totals)
    requires Inv(s) && Enabled(n, s, step) && Exists(s, id) && Exists(Apply(s, step), id)
    requires SameCounts(Rows(s)[id.key], t) && (t.rows == 0 ==> t.weighted == 0.0)
    ensures SameCounts(Rows(Apply(s, step))[id.key], Combine(t, Total(Select(n, SignalsOfStep(s, step), id.key))))
    ensures t.rows >= 1 ==> SameAverage(Rows(s)[id.key], t, Rows(Apply(s, step))[id.key],
                                        Combine(t, Total(Select(n, SignalsOfStep(s, step), id.key))))
  {
    if Upserts(s, step) {
      var c := step.cycle;
      var sel := Select(n, c.signals, id.key);
      CycleAt(n, s.discovered, c, id.key);
      if sel != [] {
        UpdateCombines(Rows(s)[id.key], t, n, c.window, id.key, sel);
      }
    } else {
      assert Select(n, [], id.key) == [];
    }
  }

  lemma {:induction false} StepBorn(n: Normalizer, s: Db, step: Step)
    ensures s.discovered.nextBorn <= Apply(s, step).discovered.nextBorn
  {
    if step.BatchUpsert? {
      BatchBorn(s.discovered, step.cycle.merged, MergeKey("", "", ""));
    }
  }

  lemma {:induction false} AliveInBetween(n: Normalizer, s: Db, steps: seq<Step>, id: RowId)
    requires Inv(s) && IsRun(n, s, steps) && steps != [] && Exists(s, id) && Exists(After(s, steps), id)
    ensures Exists(Apply(s, steps[0]), id)
  {
    if !Exists(Apply(s, steps[0]), id) {
      StepBorn(n, s, steps[0]);
      GoneForever(n, Apply(s, steps[0]), steps[1..], id);
    }
  }

  lemma {:induction false} TotalsJoin(n: Normalizer, a: seq<Signal>, b: seq<Signal>, key: MergeKey, t: Totals)
    ensures Combine(Combine(t, Total(Select(n, a, key))), Total(Select(n, b, key)))
            == Combine(t, Total(Select(n, a + b, key)))
  {
    FilterConcat(KeyIs(n, key), a, b);
    TotalConcat(Select(n, a, key), Select(n, b, key));
    CombineAssociative(t, Total(Select(n, a, key)), Total(Select(n, b, key)));
  }

  /** Whatever else happens in between (syncs, classifications, soft deletes
      and reactivations, idle time), a row that lives from the start to the
      end of a run gains exactly the totals of the signals under its key in the
      batches that committed, and its average stays the mean over all of it; nothing is counted
      twice and nothing is forgotten. */
  lemma {:induction false} CountsOverRun(n: Normalizer, s: Db, steps: seq<Step>, id: RowId, t: Totals)
    requires Inv(s) && IsRun(n, s, steps) && Exists(s, id) && Exists(After(s, steps), id)
    requires SameCounts(Rows(s)[id.key], t) && (t.rows == 0 ==> t.weighted == 0.0)
    ensures SameCounts(Rows(After(s, steps))[id.key], Combine(t, Total(Select(n, SignalsIn(s, steps), id.key))))
    ensures t.rows >= 1 ==> SameAverage(Rows(s)[id.key], t, Rows(After(s, steps))[id.key],
                                        Combine(t, Total(Select(n, SignalsIn(s, steps), id.key))))
    decreases |steps|
  {
    if steps == [] {
      assert Select(n, [], id.key) == [];
    } else {
      var now, later := SignalsOfStep(s, steps[0]), SignalsIn(Apply(s, steps[0]), steps[1..]);
      AliveInBetween(n, s, steps, id);
      StepKeepsInv(n, s, steps[0]);
      StepCounts(n, s, steps[0], id, t);
      CountsMeaning(Select(n, now, id.key));
      CountsOverRun(n, Apply(s, steps[0]), steps[1..], id, Combine(t, Total(Select(n, now, id.key))));
      TotalsJoin(n, now, later, id.key, t);
    }
  }

  // --------------------------------------------------------- lives of rows

  /** The signals of the committed batches that brought the row and those that
      came for it later. */
  function SignalsOfRow(n: Normalizer, s: Db, steps: seq<Step>, id: RowId): seq<Signal>
    decreases |steps|
  {
    if steps == [] then []
    else
      var t := Apply(s, steps[0]);
      (if Exists(t, id) then Select(n, SignalsOfStep(s, steps[0]), id.key) else [])
      + SignalsOfRow(n, t, steps[1..], id)
  }

  lemma {:induction false} SignalsWhileAlive(n: Normalizer, s: Db, steps: seq<Step>, id: RowId)
    requires Inv(s) && IsRun(n, s, steps) && Exists(s, id) && Exists(After(s, steps), id)
    ensures SignalsOfRow(n, s, steps, id) == Select(n, SignalsIn(s, steps), id.key)
    decreases |steps|
  {
    if steps == [] {
    } else {
      AliveInBetween(n, s, steps, id);
      StepKeepsInv(n, s, steps[0]);
      SignalsWhileAlive(n, Apply(s, steps[0]), steps[1..], id);
      FilterConcat(KeyIs(n, id.key), SignalsOfStep(s, steps[0]), SignalsIn(Apply(s, steps[0]), steps[1..]));
    }
  }

  lemma {:induction false} BirthCounts(n: Normalizer, s: Db, step: Step, id: RowId)
    requires Enabled(n, s, step) && !Exists(s, id) && Exists(Apply(s, step), id)
    ensures var sel := Select(n, SignalsOfStep(s, step), id.key);
            && sel != [] && SameCounts(Rows(Apply(s, step))[id.key], Total(sel))
            && MeanKept(Rows(Apply(s, step))[id.key], Total(sel))
  {
    if Upserts(s, step) {
      var c := step.cycle;
      var sel := Select(n, c.signals, id.key);
      CycleAt(n, s.discovered, c, id.key);
      if sel != [] && id.key !in Rows(s) {
        InsertCounts(id.born, n, c.window, id.key, sel);
      }
    }
  }

  /** From birth on: after every run, a row that was not there at its start
      counts exactly the signals of the batches that brought it and came for it
      later, whatever happened to its key before. */
  lemma {:induction false} LifeCounts(n: Normalizer, s: Db, steps: seq<Step>, id: RowId)
    requires Inv(s) && IsRun(n, s, steps) && !Exists(s, id) && Exists(After(s, steps), id)
    ensures SameCounts(Rows(After(s, steps))[id.key], Total(SignalsOfRow(n, s, steps, id)))
    decreases |steps|
  {
    var t, now := Apply(s, steps[0]), Select(n, SignalsOfStep(s, steps[0]), id.key);
    StepKeepsInv(n, s, steps[0]);
    if Exists(t, id) {
      BirthCounts(n, s, steps[0], id);
      CountsMeaning(now);
      CountsOverRun(n, t, steps[1..], id, Total(now));
      SignalsWhileAlive(n, t, steps[1..], id);
      TotalConcat(now, Select(n, SignalsIn(t, steps[1..]), id.key));
    } else {
      LifeCounts(n, t, steps[1..], id);
      assert [] + SignalsOfRow(n, t, steps[1..], id) == SignalsOfRow(n, t, steps[1..], id);
    }
  }

  // -------------------------------------------------------- samples over runs

  /** The samples of a key that the run adds, cycle by cycle. */
  function SamplesUpserted(n: Normalizer, s: Db, steps: seq<Step>, key: MergeKey): SampleSets
    decreases |steps|
  {
    if steps == [] then NO_SAMPLES
    else United(SamplesOf(Select(n, SignalsOfStep(s, steps[0]), key)),
                SamplesUpserted(n, Apply(s, steps[0]), steps[1..], key))
  }

  lemma {:induction false} StepSamples(n: Normalizer, s: Db, step: Step, id: RowId)
    requires Enabled(n, s, step) && Exists(s, id) && Exists(Apply(s, step), id)
    ensures Rows(Apply(s, step))[id.key].samples ==
            United(Rows(s)[id.key].samples, SamplesOf(Select(n, SignalsOfStep(s, step), id.key)))
  {
    if Upserts(s, step) {
      CycleSamples(n, s.discovered, step.cycle, id.key);
    } else {
      assert Select(n, [], id.key) == [];
      NoSamples();
    }
  }

  lemma {:induction false} UnitedAssociative(a: SampleSets, b: SampleSets, c: SampleSets)
    ensures United(United(a, b), c) == United(a, United(b, c))
  {
  }

  /** The samples of a row that is not deleted only grow, by exactly those of
      the batches that committed. */
  lemma {:induction false} SamplesOverRun(n: Normalizer, s: Db, steps: seq<Step>, id: RowId)
    requires Inv(s) && IsRun(n, s, steps) && Exists(s, id) && Exists(After(s, steps), id)
    ensures Rows(After(s, steps))[id.key].samples ==
            United(Rows(s)[id.key].samples, SamplesUpserted(n, s, steps, id.key))
    decreases |steps|
  {
    if steps == [] {
    } else {
      AliveInBetween(n, s, steps, id);
      StepKeepsInv(n, s, steps[0]);
      StepSamples(n, s, steps[0], id);
      SamplesOverRun(n, Apply(s, steps[0]), steps[1..], id);
      UnitedAssociative(Rows(s)[id.key].samples, SamplesOf(Select(n, SignalsOfStep(s, steps[0]), id.key)),
                        SamplesUpserted(n, Apply(s, steps[0]), steps[1..], id.key));
    }
  }

  /** So a row that once has a value in each of its array columns never makes
      a batch fail again. */
  lemma {:induction false} FilledForever(n: Normalizer, s: Db, steps: seq<Step>, id: RowId, r: MergedRow)
    requires Inv(s) && IsRun(n, s, steps) && Exists(s, id) && Exists(After(s, steps), id)
    requires IsFilled(Rows(s)[id.key].samples) && r.key == id.key
    ensures IsAccepted(After(s, steps).discovered, r)
  {
    SamplesOverRun(n, s, steps, id);
  }

  /** The signals of all upserts of a run, rolled back or not. */
  function SignalsSent(steps: seq<Step>): seq<Signal> {
    if steps == [] then []
    else (if steps[0].BatchUpsert? then steps[0].cycle.signals else []) + SignalsSent(steps[1..])
  }

  lemma {:induction false} StuckStep(n: Normalizer, s: Db, step: Step, rest: seq<Signal>, id: RowId)
    requires Enabled(n, s, step) && Exists(s, id) && Exists(Apply(s, step), id)
    requires !Fills(Rows(s)[id.key].samples,
                    Select(n, (if step.BatchUpsert? then step.cycle.signals else []) + rest, id.key))
    ensures Select(n, SignalsOfStep(s, step), id.key) == []
    ensures !Fills(Rows(Apply(s, step))[id.key].samples, Select(n, rest, id.key))
  {
    var sent := if step.BatchUpsert? then step.cycle.signals else [];
    FilterConcat(KeyIs(n, id.key), sent, rest);
    FillsPart(Rows(s)[id.key].samples, Select(n, sent, id.key), Select(n, rest, id.key));
    if step.BatchUpsert? {
      StuckCycle(n, s.discovered, step.cycle, id.key);
    }
    StepSamples(n, s, step, id);
    NoSamples();
  }

  /** And a row with an empty array column that no later signal fills takes
      part in no upsert as long as it lives, whatever else happens. */
  lemma {:induction false} StuckWhileItLives(n: Normalizer, s: Db, steps: seq<Step>, id: RowId)
    requires Inv(s) && IsRun(n, s, steps) && Exists(s, id) && Exists(After(s, steps), id)
    requires !Fills(Rows(s)[id.key].samples, Select(n, SignalsSent(steps), id.key))
    ensures Select(n, SignalsIn(s, steps), id.key) == []
    decreases |steps|
  {
    if steps == [] {
    } else {
      AliveInBetween(n, s, steps, id);
      StepKeepsInv(n, s, steps[0]);
      StuckStep(n, s, steps[0], SignalsSent(steps[1..]), id);
      StuckWhileItLives(n, Apply(s, steps[0]), steps[1..], id);
      FilterConcat(KeyIs(n, id.key), SignalsOfStep(s, steps[0]), SignalsIn(Apply(s, steps[0]), steps[1..]));
    }
  }

  // ------------------------------------------------------------------- syncs

  /** The start of the first sync of the run. */
  function FirstSync(steps: seq<Step>): Option<Time> {
    if steps == [] then None
    else if steps[0].SyncManaged? then Some(steps[0].start)
    else FirstSync(steps[1..])
  }

  /** No finding is older than this. */
  ghost predicate FoundSince(s: Db, first: Option<Time>) {
    forall id :: id in s.findings ==> first.Some? && first.value <= s.findings[id].classifiedAt
  }

  lemma {:induction false} StepFoundSince(n: Normalizer, s: Db, step: Step, first: Time)
    requires Enabled(n, s, step) && FoundSince(s, Some(first)) && first <= s.now
    ensures FoundSince(Apply(s, step), Some(first)) && first <= Apply(s, step).now
  {
  }

  lemma {:induction false} RunFoundSince(n: Normalizer, s: Db, steps: seq<Step>, first: Time)
    requires IsRun(n, s, steps) && FoundSince(s, Some(first)) && first <= s.now
    ensures FoundSince(After(s, steps), Some(first))
    decreases |steps|
  {
    if steps == [] {
    } else {
      StepFoundSince(n, s, steps[0], first);
      RunFoundSince(n, Apply(s, steps[0]), steps[1..], first);
    }
  }

  /** Nothing is reported before the first sync: until then phase 3 skips its
      cycles. */
  lemma {:induction false} ReportsFollowSync(n: Normalizer, s: Db, steps: seq<Step>)
    requires IsRun(n, s, steps) && s.lastSync == None && s.findings == map[]
    ensures FoundSince(After(s, steps), FirstSync(steps))
    decreases |steps|
  {
    if steps == [] {
    } else if steps[0].SyncManaged? {
      RunFoundSince(n, Apply(s, steps[0]), steps[1..], steps[0].start);
    } else {
      StayingUnsynced(n, s, steps[0]);
      ReportsFollowSync(n, Apply(s, steps[0]), steps[1..]);
    }
  }

  lemma {:induction false} StayingUnsynced(n: Normalizer, s: Db, step: Step)
    requires Enabled(n, s, step) && s.lastSync == None && s.findings == map[] && !step.SyncManaged?
    ensures Apply(s, step).lastSync == None && Apply(s, step).findings == map[]
  {
  }

  // ------------------------------------------------------------------- view

  lemma {:induction false} CleanupKeepsHaving(s: Db, days: int, keep: set<FindingId>)
    requires IsOnePerRow(s.findings, keep)
    ensures var t := Apply(s, CleanupFindings(days, keep));
            && (forall row :: HasFinding(t.findings, row) <==> HasFinding(s.findings, row))
            && (forall id :: id in t.findings ==> (IsLatest(t.findings, id) <==> IsLatest(s.findings, id)))
  {
    var fs := WithoutOldFindings(s, days, keep);
    forall row: RowId ensures HasFinding(fs, row) <==> HasFinding(s.findings, row) {
      CleanupKeepsLatest(s, days, keep, row);
    }
    forall id | id in fs ensures IsLatest(fs, id) <==> IsLatest(s.findings, id) {
      CleanupKeepsLatest(s, days, keep, id.row);
    }
  }

  /** The findings a view shows are all among these. */
  ghost predicate ShowsOnly(v: View, fs: Findings) {
    forall row :: row in v ==> v[row].id in fs
  }

  /** Cleaning up old findings: every result the view query can give
      afterwards it could give before, and a result it could give before
      stays possible exactly when the findings it shows were not deleted. */
  lemma {:induction false} CleanupAndView(s: Db, days: int, keep: set<FindingId>, v: View)
    requires IsOnePerRow(s.findings, keep)
    ensures IsCurrentView(Apply(s, CleanupFindings(days, keep)), v) <==>
            IsCurrentView(s, v) && ShowsOnly(v, WithoutOldFindings(s, days, keep))
  {
    CleanupKeepsHaving(s, days, keep);
    SameViewIff(s, Apply(s, CleanupFindings(days, keep)), v);
  }

  lemma {:induction false} SameViewIff(s: Db, t: Db, v: View)
    requires t.discovered == s.discovered
    requires forall id :: id in t.findings ==> id in s.findings && t.findings[id] == s.findings[id]
    requires forall row :: HasFinding(t.findings, row) <==> HasFinding(s.findings, row)
    requires forall id :: id in t.findings ==> (IsLatest(t.findings, id) <==> IsLatest(s.findings, id))
    ensures IsCurrentView(t, v) <==>
            IsCurrentView(s, v) && ShowsOnly(v, t.findings)
  {
    assert Rows(t) == Rows(s);
    forall row: RowId
      ensures IsViewAt(t, v, row) <==> IsViewAt(s, v, row) && (row in v ==> v[row].id in t.findings)
    {
    }
    if !IsCurrentView(t, v) {
      var row :| !IsViewAt(t, v, row);
    }
  }

  /** Of every row that has findings, a latest one survives the cleanup. */
  lemma {:induction false} CleanupKeepsLatest(s: Db, days: int, keep: set<FindingId>, row: RowId)
    requires IsOnePerRow(s.findings, keep)
    ensures HasFinding(WithoutOldFindings(s, days, keep), row) <==> HasFinding(s.findings, row)
    ensures HasFinding(s.findings, row) ==>
              exists id :: id in WithoutOldFindings(s, days, keep) && id.row == row && IsLatest(s.findings, id)
  {
    if HasFinding(s.findings, row) {
      var id :| id in s.findings && id.row == row;
      var kept :| kept in keep && kept.row == id.row;
      assert kept in WithoutOldFindings(s, days, keep);
    }
  }

  /** No two findings of one row carry the same time. */
  ghost predicate DistinctTimes(fs: Findings) {
    forall a, b :: a in fs && b in fs && a.row == b.row && fs[a].classifiedAt == fs[b].classifiedAt ==> a == b
  }

  lemma {:induction false} ViewDetermined(s: Db, v: View, w: View)
    requires DistinctTimes(s.findings) && IsCurrentView(s, v) && IsCurrentView(s, w)
    ensures v == w
  {
    forall row: RowId ensures (row in v <==> row in w) && (row in v ==> v[row] == w[row]) {
      assert IsViewAt(s, v, row) && IsViewAt(s, w, row);
      assert row in v ==> s.findings[v[row].id].classifiedAt == s.findings[w[row].id].classifiedAt;
    }
  }

  lemma {:induction false} ShownIsKept(s: Db, days: int, keep: set<FindingId>, id: FindingId)
    requires DistinctTimes(s.findings) && IsOnePerRow(s.findings, keep) && IsLatest(s.findings, id)
    ensures id in WithoutOldFindings(s, days, keep)
  {
    var kept :| kept in keep && kept.row == id.row;
    assert s.findings[kept].classifiedAt == s.findings[id].classifiedAt;
  }

  lemma {:induction false} AllShownAreKept(s: Db, days: int, keep: set<FindingId>, v: View)
    requires DistinctTimes(s.findings) && IsOnePerRow(s.findings, keep) && IsCurrentView(s, v)
    ensures ShowsOnly(v, WithoutOldFindings(s, days, keep))
  {
    forall row | row in v ensures v[row].id in WithoutOldFindings(s, days, keep) {
      ShownRowIsKept(s, days, keep, v, row);
    }
  }

  lemma {:induction false} ShownRowIsKept(s: Db, days: int, keep: set<FindingId>, v: View, row: RowId)
    requires DistinctTimes(s.findings) && IsOnePerRow(s.findings, keep) && IsCurrentView(s, v) && row in v
    ensures v[row].id in WithoutOldFindings(s, days, keep)
  {
    assert IsViewAt(s, v, row);
    ShownIsKept(s, days, keep, v[row].id);
  }

  lemma {:induction false} StaysCurrent(s: Db, days: int, keep: set<FindingId>, v: View)
    requires DistinctTimes(s.findings) && IsOnePerRow(s.findings, keep) && IsCurrentView(s, v)
    ensures IsCurrentView(Apply(s, CleanupFindings(days, keep)), v)
  {
    AllShownAreKept(s, days, keep, v);
    CleanupAndView(s, days, keep, v);
  }

  /** With distinct times the view is determined, and the cleanup does not
      change it, for any retention period. */
  lemma {:induction false} CleanupInvisible(s: Db, days: int, keep: set<FindingId>, v: View, w: View)
    requires DistinctTimes(s.findings) && IsOnePerRow(s.findings, keep) && IsCurrentView(s, v)
    ensures IsCurrentView(Apply(s, CleanupFindings(days, keep)), w) <==> w == v
  {
    if w == v {
      StaysCurrent(s, days, keep, v);
    } else {
      CleanupAndView(s, days, keep, w);
      if IsCurrentView(s, w) {
        ViewDetermined(s, v, w);
      }
    }
  }

  /** Every classify statement of the run happens after all earlier ones, as
      the cycles of phase 3 do. */
  ghost predicate ClassifiesLater(s: Db, steps: seq<Step>)
    decreases |steps|
  {
    steps == [] ||
    ((steps[0].Classify? ==> forall id :: id in s.findings ==> s.findings[id].classifiedAt < s.now)
     && ClassifiesLater(Apply(s, steps[0]), steps[1..]))
  }

  lemma {:induction false} StepKeepsDistinctTimes(n: Normalizer, s: Db, step: Step)
    requires Inv(s) && Enabled(n, s, step) && DistinctTimes(s.findings)
    requires step.Classify? ==> forall id :: id in s.findings ==> s.findings[id].classifiedAt < s.now
    ensures DistinctTimes(Apply(s, step).findings)
  {
    if step.Classify? {
      var fs := NewFindings(s, step.cycleId);
      forall id | id in fs ensures id.batch == s.nextBatch && fs[id].classifiedAt == s.now {
      }
    }
  }

  /** One insert per row and cycle at increasing times keeps the times of a
      row distinct, so in such a run retention never changes the view. */
  lemma {:induction false} RunKeepsDistinctTimes(n: Normalizer, s: Db, steps: seq<Step>)
    requires Inv(s) && IsRun(n, s, steps) && DistinctTimes(s.findings) && ClassifiesLater(s, steps)
    ensures DistinctTimes(After(s, steps).findings)
    decreases |steps|
  {
    if steps == [] {
    } else {
      StepKeepsDistinctTimes(n, s, steps[0]);
      StepKeepsInv(n, s, steps[0]);
      RunKeepsDistinctTimes(n, Apply(s, steps[0]), steps[1..]);
    }
  }

  /** A row that has become managed keeps showing its old label: a classify
      statement appends nothing for matched rows, so every result the view
      could give for it before, it can still give afterwards. */
  lemma {:induction false} ManagedRowKeepsOldLabel(s: Db, cycle: WindowId, row: RowId, v: View, w: View)
    requires Inv(s) && IsCurrentView(s, v) && row in v && IsMatched(s, row.key)
    requires IsCurrentView(Apply(s, Classify(cycle)), w) && DistinctTimes(s.findings)
    ensures row in w && w[row].id == v[row].id && w[row].finding == v[row].finding
  {
    var t := Apply(s, Classify(cycle));
    var fs := NewFindings(s, cycle);
    assert IsViewAt(s, v, row) && IsViewAt(t, w, row);
    assert forall id :: id in fs ==> id.batch == s.nextBatch && id.row != row;
    assert v[row].id in t.findings;
    assert HasFinding(t.findings, row);
    assert Rows(t) == Rows(s);
    assert row in w;
    var a, b := v[row].id, w[row].id;
    assert b in s.findings && t.findings[b] == s.findings[b];
    assert s.findings[a].classifiedAt == s.findings[b].classifiedAt;
  }
}
