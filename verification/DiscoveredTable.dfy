/** The table of discovered APIs and its history-preserving upsert
    (internal/store/discovered_repo.go). */
module DiscoveredTable {
  import opened Classifier
  import opened Clock
  import opened Counting
  import opened MergedRows
  import opened Merger
  import opened Normalizer
  import opened Options
  import opened Sequences

  /** The columns raw_path_samples, distinct_clients_sample and status_codes.
      They are arrays, but nothing depends on their order: an insert stores
      distinct values, and an update aggregates them in sorted order. */
  datatype SampleSets = SampleSets(paths: set<string>, clients: set<string>, statuses: set<int>)

  function SamplesIn(r: MergedRow): SampleSets {
    SampleSets(set p | p in r.rawPathSamples, set c | c in r.distinctClientsSample, set v | v in r.statusCodes)
  }

  /** `ads_capped_array_union` and the subselect of the status codes. The LIMIT
      of the former applies to the one row that the aggregate yields, so
      nothing is cut off. */
  function United(a: SampleSets, b: SampleSets): SampleSets {
    SampleSets(a.paths + b.paths, a.clients + b.clients, a.statuses + b.statuses)
  }

  /** No column is empty. */
  predicate IsFilled(a: SampleSets) {
    a.paths != {} && a.clients != {} && a.statuses != {}
  }

  /** One row of ads_discovered_apis; its key is the unique constraint
      (service, method, normalized_path). `born` tells apart rows that carried
      the same key at different times, as their UUIDs do. */
  datatype DiscoveredRow = DiscoveredRow(
    born: nat, samples: SampleSets, firstSeen: Time, lastSeen: Time,
    observationCount: nat, flowCount: nat, distinctClientCount: nat, avgDurationUs: Option<real>,
    requestDomain: string, internalFlows: nat, externalFlows: nat, samplePod: string, sampleWorkload: string,
    version: string, window: WindowId, topClients: seq<ClientObservation>, isActive: bool, isAnchor: bool)

  datatype Discovered = Discovered(rows: map<MergeKey, DiscoveredRow>, nextBorn: nat)

  const EMPTY_TABLE := Discovered(map[], 0)

  /** The VALUES of the insert, with the column defaults. */
  function Inserted(born: nat, r: MergedRow): DiscoveredRow {
    DiscoveredRow(
      born, SamplesIn(r), r.firstSeen, r.lastSeen, r.rowCount, r.flowCount, r.distinctClientCount, Some(r.avgDurationUs),
      r.requestDomain, r.internalFlows, r.externalFlows, r.samplePod, r.sampleWorkload,
      r.version, r.window, r.topClients, true, false)
  }

  /** COALESCE(NULLIF(excluded, ''), existing) */
  function KeepUnlessBlank(excluded: string, existing: string): string {
    if excluded != "" then excluded else existing
  }

  function WeightedMean(avg: real, count: nat, newAvg: real, newCount: nat): real
    requires count + newCount > 0
  {
    (avg * count as real + newAvg * newCount as real) / (count + newCount) as real
  }

  /** The weighted average of ON CONFLICT: NULL once it has been NULL, and
      NULL when there are no observations to divide by. */
  function MergedAverage(avg: Option<real>, count: nat, newAvg: real, newCount: nat): Option<real> {
    if avg.None? || count + newCount == 0 then None else Some(WeightedMean(avg.value, count, newAvg, newCount))
  }

  /** ON CONFLICT (service_id, method, normalized_path) DO UPDATE */
  function Updated(existing: DiscoveredRow, r: MergedRow): DiscoveredRow {
    existing.(
      samples := United(existing.samples, SamplesIn(r)),
      lastSeen := Later(existing.lastSeen, r.lastSeen),
      firstSeen := Earlier(existing.firstSeen, r.firstSeen),
      observationCount := existing.observationCount + r.rowCount,
      flowCount := existing.flowCount + r.flowCount,
      internalFlows := existing.internalFlows + r.internalFlows,
      externalFlows := existing.externalFlows + r.externalFlows,
      distinctClientCount := if r.distinctClientCount > existing.distinctClientCount
                             then r.distinctClientCount else existing.distinctClientCount,
      avgDurationUs := MergedAverage(existing.avgDurationUs, existing.observationCount, r.avgDurationUs, r.rowCount),
      samplePod := KeepUnlessBlank(r.samplePod, existing.samplePod),
      sampleWorkload := KeepUnlessBlank(r.sampleWorkload, existing.sampleWorkload),
      requestDomain := KeepUnlessBlank(r.requestDomain, existing.requestDomain),
      window := r.window, version := r.version, topClients := r.topClients, isActive := true)
  }

  function Upsert(d: Discovered, r: MergedRow): Discovered {
    if r.key in d.rows then d.(rows := d.rows[r.key := Updated(d.rows[r.key], r)])
    else Discovered(d.rows[r.key := Inserted(d.nextBorn, r)], d.nextBorn + 1)
  }

  function UpsertAll(d: Discovered, rs: seq<MergedRow>): Discovered {
    if rs == [] then d else Upsert(UpsertAll(d, rs[..|rs| - 1]), rs[|rs| - 1])
  }

  // ---------------------------------------------------------------- batches

  /** Aggregating no values gives NULL, and the three columns are NOT NULL: an
      update is refused if it would leave one of them without a value. */
  predicate IsAccepted(d: Discovered, r: MergedRow) {
    r.key in d.rows ==> IsFilled(United(d.rows[r.key].samples, SamplesIn(r)))
  }

  /** Every row of the batch is accepted, one after the other. */
  predicate Commits(d: Discovered, rs: seq<MergedRow>) {
    rs == [] || (Commits(d, rs[..|rs| - 1]) && IsAccepted(UpsertAll(d, rs[..|rs| - 1]), rs[|rs| - 1]))
  }

  /** A batch is one implicit transaction: one refused row undoes all of it. */
  function AfterBatch(d: Discovered, rs: seq<MergedRow>): Discovered {
    if Commits(d, rs) then UpsertAll(d, rs) else d
  }

  lemma {:induction false} CommitsPrefix(d: Discovered, rs: seq<MergedRow>, k: nat)
    requires k <= |rs|
    ensures Commits(d, rs) ==> Commits(d, rs[..k])
  {
    if k == |rs| {
      assert rs[..k] == rs;
    } else {
      CommitsPrefix(d, rs[..|rs| - 1], k);
      assert rs[..|rs| - 1][..k] == rs[..k];
    }
  }

  lemma {:induction false} AcceptedBefore(d: Discovered, init: seq<MergedRow>, r: MergedRow)
    requires DistinctKeys(init + [r])
    ensures IsAccepted(UpsertAll(d, init), r) <==> IsAccepted(d, r)
  {
    var all := init + [r];
    forall i, j | 0 <= i < j < |init| ensures init[i].key != init[j].key {
      assert all[i].key != all[j].key;
    }
    forall x | x in init ensures x.key != r.key {
      var i :| 0 <= i < |init| && init[i] == x;
      assert all[i].key != all[|init|].key;
    }
    UpsertAllAt(d, init, r.key);
    assert RowAt(UpsertAll(d, init), r.key) == RowAt(d, r.key);
  }

  /** A batch with distinct keys commits exactly when the table accepts each of
      its rows. */
  lemma {:induction false} CommitsIff(d: Discovered, rs: seq<MergedRow>)
    requires DistinctKeys(rs)
    ensures Commits(d, rs) <==> forall r :: r in rs ==> IsAccepted(d, r)
  {
    if rs == [] {
    } else {
      var init, last := rs[..|rs| - 1], rs[|rs| - 1];
      assert rs == init + [last];
      CommitsIff(d, init);
      AcceptedBefore(d, init, last);
      assert forall r :: r in rs <==> r in init || r == last;
    }
  }

  /** What one row of the batch does to its key; `None` is "no such row". */
  function RowAfter(before: Option<DiscoveredRow>, born: nat, r: MergedRow): DiscoveredRow {
    match before case None => Inserted(born, r) case Some(row) => Updated(row, r)
  }

  function RowAt(d: Discovered, key: MergeKey): Option<DiscoveredRow> {
    if key in d.rows then Some(d.rows[key]) else None
  }

  lemma {:induction false} UpsertElsewhere(d: Discovered, r: MergedRow, key: MergeKey)
    requires r.key != key
    ensures RowAt(Upsert(d, r), key) == RowAt(d, key)
  {
  }

  /** A batch with distinct keys touches each of them once and nothing else;
      a new row is younger than every row there was. */
  lemma {:induction false} UpsertAllAt(d: Discovered, rs: seq<MergedRow>, key: MergeKey)
    requires DistinctKeys(rs)
    ensures d.nextBorn <= UpsertAll(d, rs).nextBorn
    ensures (forall r :: r in rs ==> r.key != key) ==> RowAt(UpsertAll(d, rs), key) == RowAt(d, key)
    ensures forall r :: r in rs && r.key == key ==>
              var after := UpsertAll(d, rs);
              && key in after.rows
              && (if key in d.rows then after.rows[key] == Updated(d.rows[key], r)
                  else d.nextBorn <= after.rows[key].born < after.nextBorn
                       && after.rows[key] == Inserted(after.rows[key].born, r))
  {
    if rs == [] {
    } else {
      var init, last := rs[..|rs| - 1], rs[|rs| - 1];
      UpsertAllAt(d, init, key);
      assert rs == init + [last];
      if last.key == key {
        assert forall r :: r in init ==> r.key != key;
      } else {
        UpsertElsewhere(UpsertAll(d, init), last, key);
      }
    }
  }

  /** Only rows of the batch appear, and every row born earlier keeps its age. */
  lemma {:induction false} UpsertAllBorn(d: Discovered, rs: seq<MergedRow>, key: MergeKey)
    ensures var after := UpsertAll(d, rs);
            && d.nextBorn <= after.nextBorn
            && (key in d.rows ==>
                  && key in after.rows
                  && after.rows[key].born == d.rows[key].born && after.rows[key].isAnchor == d.rows[key].isAnchor
                  && (d.rows[key].isActive ==> after.rows[key].isActive))
            && (key !in d.rows && key in after.rows ==>
                  d.nextBorn <= after.rows[key].born < after.nextBorn
                  && after.rows[key].isActive && !after.rows[key].isAnchor)
  {
    if rs == [] {
    } else {
      UpsertAllBorn(d, rs[..|rs| - 1], key);
    }
  }

  /** The same of a batch, whether it commits or not. */
  lemma {:induction false} BatchBorn(d: Discovered, rs: seq<MergedRow>, key: MergeKey)
    ensures var after := AfterBatch(d, rs);
            && d.nextBorn <= after.nextBorn
            && (key in d.rows ==>
                  && key in after.rows
                  && after.rows[key].born == d.rows[key].born && after.rows[key].isAnchor == d.rows[key].isAnchor
                  && (d.rows[key].isActive ==> after.rows[key].isActive))
            && (key !in d.rows && key in after.rows ==>
                  d.nextBorn <= after.rows[key].born < after.nextBorn
                  && after.rows[key].isActive && !after.rows[key].isAnchor)
  {
    UpsertAllBorn(d, rs, key);
  }

  // ------------------------------------------------------ counts and average

  ghost predicate SameCounts(row: DiscoveredRow, t: Totals) {
    && !t.Empty?
    && row.observationCount == t.rows && row.flowCount == t.flows
    && row.internalFlows == t.internal && row.externalFlows == t.external
    && row.firstSeen == t.first && row.lastSeen == t.last
  }

  /** Whether the average still is the mean over everything counted. */
  ghost predicate MeanKept(row: DiscoveredRow, t: Totals) {
    row.avgDurationUs == Some(t.Average())
  }

  lemma {:induction false} AverageFromWeights(avg: real, count: nat, weight: real,
                                              newAvg: real, newCount: nat, newWeight: real)
    requires avg * count as real == weight && newAvg * newCount as real == newWeight && count + newCount > 0
    ensures WeightedMean(avg, count, newAvg, newCount) == (weight + newWeight) / (count + newCount) as real
  {
  }

  /** The weighted average of the upsert is the mean of the united totals. */
  lemma {:induction false} MeanOfUpdate(t: Totals, u: Totals)
    requires !t.Empty? && !u.Empty?
    requires t.rows == 0 ==> t.weighted == 0.0
    requires u.rows == 0 ==> u.weighted == 0.0
    ensures MergedAverage(Some(t.Average()), t.rows, u.Average(), u.rows) ==
            if t.rows + u.rows == 0 then None else Some(Combine(t, u).Average())
  {
    AverageTimesRows(t);
    AverageTimesRows(u);
    if t.rows + u.rows > 0 {
      AverageFromWeights(t.Average(), t.rows, t.weighted, u.Average(), u.rows, u.weighted);
    }
  }

  lemma {:induction false} CountsOfUpdate(row: DiscoveredRow, t: Totals, r: MergedRow, u: Totals)
    requires SameCounts(row, t) && Counts(r, u) && !u.Empty?
    ensures SameCounts(Updated(row, r), Combine(t, u))
  {
  }

  /** The upsert of a merged row adds its totals to the row's; the mean
      survives exactly when it was there and something has been counted. */
  lemma {:induction false} UpdateCombines(row: DiscoveredRow, t: Totals, n: Normalizer, window: WindowId, key: MergeKey,
                                          sel: seq<Signal>)
    requires SameCounts(row, t) && (t.rows == 0 ==> t.weighted == 0.0) && sel != []
    ensures var after := Updated(row, FullRow(n, window, key, sel));
            && SameCounts(after, Combine(t, Total(sel)))
            && (MeanKept(row, t) && t.rows + Total(sel).Rows() > 0 ==> MeanKept(after, Combine(t, Total(sel))))
            && (row.avgDurationUs == None || t.rows + Total(sel).Rows() == 0 ==> after.avgDurationUs == None)
  {
    CountsMeaning(sel);
    CountsOfUpdate(row, t, FullRow(n, window, key, sel), Total(sel));
    MeanOfUpdate(t, Total(sel));
  }

  lemma {:induction false} InsertCounts(born: nat, n: Normalizer, window: WindowId, key: MergeKey, sel: seq<Signal>)
    requires sel != []
    ensures var row := Inserted(born, FullRow(n, window, key, sel));
            SameCounts(row, Total(sel)) && MeanKept(row, Total(sel))
  {
    CountsMeaning(sel);
  }

  // ----------------------------------------------------------------- cycles

  /** One phase 1 cycle: the signals seen and the rows they were merged into. */
  datatype Cycle = Cycle(window: WindowId, signals: seq<Signal>, merged: seq<MergedRow>)

  ghost predicate ValidCycle(n: Normalizer, c: Cycle) {
    IsMerge(n, c.window, c.signals, c.merged)
  }

  lemma {:induction false} MergedKeysDistinct(rs: seq<MergedRow>)
    requires Ordering.Ascending(RowLess, rs)
    ensures DistinctKeys(rs)
  {
    KeyOrder();
    forall i, j | 0 <= i < j < |rs| ensures rs[i].key != rs[j].key {
      assert RowLess(rs[i], rs[j]) && !RowLess(rs[i], rs[i]);
    }
  }

  /** The effect of one cycle on one key. */
  lemma {:induction false} CycleAt(n: Normalizer, d: Discovered, c: Cycle, key: MergeKey)
    requires ValidCycle(n, c)
    ensures var sel, after := Select(n, c.signals, key), UpsertAll(d, c.merged);
            if sel == [] then RowAt(after, key) == RowAt(d, key)
            else key in after.rows &&
                 after.rows[key] == RowAfter(RowAt(d, key), after.rows[key].born, FullRow(n, c.window, key, sel))
  {
    var sel := Select(n, c.signals, key);
    MergedKeysDistinct(c.merged);
    UpsertAllAt(d, c.merged, key);
    if sel != [] {
      var r := FullRow(n, c.window, key, sel);
      assert r.key == key && r in c.merged;
    }
  }

  // -------------------------------------------------------- a cycle in full

  /** The cycle that sees one signal and nothing else. */
  function LoneCycle(n: Normalizer, window: WindowId, s: Signal): Cycle {
    Cycle(window, [s], [FullRow(n, window, KeyOf(n, s), [s])])
  }

  lemma {:induction false} SelectLone(n: Normalizer, s: Signal, key: MergeKey)
    ensures Select(n, [s], key) == if KeyOf(n, s) == key then [s] else []
  {
    FilterSnoc(KeyIs(n, key), [], s);
    assert [] + [s] == [s];
  }

  lemma {:induction false} LoneCycleIsValid(n: Normalizer, window: WindowId, s: Signal)
    ensures ValidCycle(n, LoneCycle(n, window, s))
  {
    var row := FullRow(n, window, KeyOf(n, s), [s]);
    assert row.key == KeyOf(n, s);
    forall r ensures r in [row] <==>
        var sel := Select(n, [s], r.key); sel != [] && r == FullRow(n, window, r.key, sel)
    {
      SelectLone(n, s, r.key);
    }
  }

  lemma {:induction false} LoneCommits(d: Discovered, n: Normalizer, window: WindowId, s: Signal)
    requires KeyOf(n, s) !in d.rows
    ensures Commits(d, LoneCycle(n, window, s).merged)
  {
    var merged := LoneCycle(n, window, s).merged;
    assert merged[..0] == [] && merged[0].key == KeyOf(n, s);
    assert UpsertAll(d, merged[..0]) == d;
  }

  /** The row it makes of an empty table. */
  lemma {:induction false} LoneUpsert(n: Normalizer, window: WindowId, s: Signal)
    ensures var key := KeyOf(n, s);
            var after := AfterBatch(EMPTY_TABLE, LoneCycle(n, window, s).merged);
            && (forall k :: k in after.rows <==> k == key)
            && after.rows[key] == Inserted(0, FullRow(n, window, key, [s]))
            && after.rows[key].lastSeen == UnixToTime(s.raw.lastSeenUnix)
  {
    var merged := LoneCycle(n, window, s).merged;
    LoneCommits(EMPTY_TABLE, n, window, s);
    assert merged[..0] == [];
    assert UpsertAll(EMPTY_TABLE, merged) == Upsert(EMPTY_TABLE, merged[0]);
    TotalSnoc([], s);
    assert [] + [s] == [s];
  }
}
