/** The merged row of one (service, method, path) key, and how the loop of
    `MergeAndNormalize` folds one more signal into it (internal/discovery/merger.go). */
module MergedRows {
  import opened Classifier
  import opened Clock
  import opened Counting
  import opened Normalizer
  import opened Sequences

  const PATH_SAMPLES_CAP := 20
  const CLIENT_SAMPLES_CAP := 300

  type WindowId = int

  datatype MergeKey = MergeKey(service: string, verb: string, path: string)

  datatype ClientObservation = ClientObservation(
    identity: string, isK8s: bool, namespace: string, workload: string, ip: string, port: int, observations: nat)

  datatype MergedRow = MergedRow(
    key: MergeKey, envKind: EnvKind, version: string, window: WindowId,
    firstSeen: Time, lastSeen: Time, rowCount: nat, flowCount: nat, statusCodes: seq<int>,
    requestDomain: string, samplePod: string, sampleWorkload: string,
    rawPathSamples: seq<string>, distinctClientCount: nat, distinctClientsSample: seq<string>,
    avgDurationUs: real, internalFlows: nat, externalFlows: nat, topClients: seq<ClientObservation>)

  function KeyOf(n: Normalizer, s: Signal): MergeKey {
    MergeKey(s.service, s.raw.verb, Normalize(n, s.raw.endpoint))
  }

  function KeyIs(n: Normalizer, key: MergeKey): Signal -> bool {
    (s: Signal) => KeyOf(n, s) == key
  }

  /** The signals of one key, in order. */
  function Select(n: Normalizer, signals: seq<Signal>, key: MergeKey): seq<Signal> {
    Filter(KeyIs(n, key), signals)
  }

  predicate NonBlank(v: string) { v != "" }

  /** The first `cap` distinct non-blank values, in order of appearance. */
  function Samples(vs: seq<string>, cap: nat): seq<string> {
    Take(Distinct(Filter(NonBlank, vs)), cap)
  }

  method AppendUniqueCapped(xs: seq<string>, v: string, limit: nat) returns (r: seq<string>)
    ensures r == if v == "" || |xs| >= limit || v in xs then xs else xs + [v]
  {
    if v == "" || |xs| >= limit {
      return xs;
    }
    for i := 0 to |xs|
      invariant v !in xs[..i]
    {
      if xs[i] == v {
        return xs;
      }
    }
    r := xs + [v];
  }

  method AppendUniqueStatus(xs: seq<int>, v: int) returns (r: seq<int>)
    ensures r == if v in xs then xs else xs + [v]
  {
    for i := 0 to |xs|
      invariant v !in xs[..i]
    {
      if xs[i] == v {
        return xs;
      }
    }
    r := xs + [v];
  }

  lemma {:induction false} SamplesSnoc(vs: seq<string>, v: string, cap: nat)
    ensures var xs := Samples(vs, cap);
            Samples(vs + [v], cap) == if v == "" || |xs| >= cap || v in xs then xs else xs + [v]
  {
    FilterSnoc(NonBlank, vs, v);
    if v != "" {
      DistinctSnoc(Filter(NonBlank, vs), v);
    }
  }

  /** At most `cap` samples, none twice, all of them seen and not blank; a list
      that is not full holds every non-blank value seen. */
  lemma {:induction false} SamplesExact(vs: seq<string>, cap: nat)
    ensures var r := Samples(vs, cap);
            && |r| <= cap && NoDuplicates(r)
            && (forall v :: v in r ==> v in vs && v != "")
            && (|r| < cap ==> forall v :: v in vs && v != "" ==> v in r)
  {
    FilterElements(NonBlank, vs);
    DistinctElements(Filter(NonBlank, vs));
  }

  /** Which samples are taken when there are too many: whatever is missing came
      later than all that are kept. */
  lemma {:induction false} SamplesAreFirst(vs: seq<string>, cap: nat, i: nat, p: string)
    requires i < |vs| && vs[i] != "" && vs[i] !in Samples(vs, cap) && p in Samples(vs, cap)
    ensures p in vs[..i]
  {
    var init, last := vs[..|vs| - 1], vs[|vs| - 1];
    assert vs == init + [last];
    SamplesSnoc(init, last, cap);
    SamplesExact(init, cap);
    if i == |init| {
      assert vs[..i] == init;
    } else {
      assert init[..i] == vs[..i] && init[i] == vs[i];
      SamplesAreFirst(init, cap, i, p);
    }
  }

  function ToInt16(v: int): int { (v + 0x8000) % 0x1_0000 - 0x8000 }

  function Statuses(signals: seq<Signal>): seq<int> {
    if signals == [] then []
    else
      var init, s := Statuses(signals[..|signals| - 1]), signals[|signals| - 1];
      if s.raw.sampleStatus > 0 then init + [ToInt16(s.raw.sampleStatus)] else init
  }

  /** The 16-bit codes of the positive statuses: a status that fits is listed as
      it is, any other one modulo 2^16. */
  lemma {:induction false} StatusesExact(signals: seq<Signal>, v: int)
    ensures v in Distinct(Statuses(signals)) <==>
              -32768 <= v <= 32767
              && exists s :: s in signals && s.raw.sampleStatus > 0 && (s.raw.sampleStatus - v) % 65536 == 0
  {
    DistinctElements(Statuses(signals));
    StatusesHold(signals, v);
  }

  lemma {:induction false} ToInt16Exact(status: int, v: int)
    ensures v == ToInt16(status) <==> -32768 <= v <= 32767 && (status - v) % 65536 == 0
  {
  }

  lemma {:induction false} StatusesHold(signals: seq<Signal>, v: int)
    ensures v in Statuses(signals) <==>
              -32768 <= v <= 32767
              && exists s :: s in signals && s.raw.sampleStatus > 0 && (s.raw.sampleStatus - v) % 65536 == 0
  {
    if signals == [] {
    } else {
      var init, last := signals[..|signals| - 1], signals[|signals| - 1];
      StatusesHold(init, v);
      ToInt16Exact(last.raw.sampleStatus, v);
      assert forall s :: s in signals <==> s in init || s == last;
    }
  }

  /** A value with the mark of the preferred (server-process) tap. */
  datatype Tapped = Tapped(preferred: bool, value: string)

  function Preferred(xs: seq<Tapped>): string {
    if xs == [] then ""
    else
      var init, x := Preferred(xs[..|xs| - 1]), xs[|xs| - 1];
      if (init == "" || x.preferred) && x.value != "" then x.value else init
  }

  predicate IsFavoured(x: Tapped) { x.preferred && x.value != "" }

  /** The last non-blank value of the preferred tap. */
  ghost predicate IsLastFavoured(xs: seq<Tapped>, r: string) {
    exists i :: 0 <= i < |xs| && IsFavoured(xs[i]) && xs[i].value == r
                && forall j :: i < j < |xs| ==> !IsFavoured(xs[j])
  }

  /** The first non-blank value of any tap. */
  ghost predicate IsFirstValue(xs: seq<Tapped>, r: string) {
    exists i :: 0 <= i < |xs| && xs[i].value == r != "" && forall j :: 0 <= j < i ==> xs[j].value == ""
  }

  lemma {:induction false} LastFavouredSnoc(xs: seq<Tapped>, x: Tapped, r: string)
    requires if IsFavoured(x) then r == x.value else IsLastFavoured(xs, r)
    ensures IsLastFavoured(xs + [x], r)
  {
    var all := xs + [x];
    if IsFavoured(x) {
      assert all[|xs|] == x;
    } else {
      var i :| 0 <= i < |xs| && IsFavoured(xs[i]) && xs[i].value == r && forall j :: i < j < |xs| ==> !IsFavoured(xs[j]);
      assert all[i] == xs[i];
    }
  }

  lemma {:induction false} FirstValueSnoc(xs: seq<Tapped>, x: Tapped, r: string)
    requires if forall j :: 0 <= j < |xs| ==> xs[j].value == "" then r == x.value != "" else IsFirstValue(xs, r)
    ensures IsFirstValue(xs + [x], r)
  {
    var all := xs + [x];
    assert forall j :: 0 <= j < |xs| ==> all[j] == xs[j];
    if forall j :: 0 <= j < |xs| ==> xs[j].value == "" {
      assert all[|xs|].value == r != "";
    } else {
      var i :| 0 <= i < |xs| && xs[i].value == r != "" && forall j :: 0 <= j < i ==> xs[j].value == "";
      assert all[i].value == r != "";
    }
  }

  /** The last non-blank value of the preferred tap; without one, the first
      non-blank value of any tap; without one, blank. */
  lemma {:induction false} PreferredMeaning(xs: seq<Tapped>)
    ensures var r := Preferred(xs);
            if exists i :: 0 <= i < |xs| && IsFavoured(xs[i]) then IsLastFavoured(xs, r)
            else if exists i :: 0 <= i < |xs| && xs[i].value != "" then IsFirstValue(xs, r)
            else r == ""
  {
    if xs == [] {
    } else {
      var init, x, r := xs[..|xs| - 1], xs[|xs| - 1], Preferred(xs);
      PreferredMeaning(init);
      assert xs == init + [x];
      if exists i :: 0 <= i < |xs| && IsFavoured(xs[i]) {
        LastFavouredSnoc(init, x, r);
      } else if exists i :: 0 <= i < |xs| && xs[i].value != "" {
        FirstValueSnoc(init, x, r);
      }
    }
  }

  function UrlOf(s: Signal): string { s.raw.sampleUrl }
  function ClientIpOf(s: Signal): string { s.raw.clientIp }
  function IdentityOf(s: Signal): string { s.client.Identity() }
  function PodOf(s: Signal): Tapped { Tapped(s.raw.observationPoint == TAP_SERVER_PROCESS, s.raw.k8sPod) }
  function WorkloadOf(s: Signal): Tapped { Tapped(s.raw.observationPoint == TAP_SERVER_PROCESS, s.raw.k8sWorkload) }

  // ------------------------------------------------------------------ rows

  /** The merged row of one key, from its signals, without the top callers. */
  function RowOf(n: Normalizer, window: WindowId, key: MergeKey, signals: seq<Signal>): MergedRow
    requires signals != []
  {
    var t := Total(signals);
    var clients := Samples(Map(ClientIpOf, signals), CLIENT_SAMPLES_CAP);
    CountsMeaning(signals);
    MergedRow(
      key, EnvKindForService(signals[0]), n.version, window,
      t.first, t.last, t.rows, t.flows, Distinct(Statuses(signals)),
      signals[0].raw.requestDomain, Preferred(Map(PodOf, signals)), Preferred(Map(WorkloadOf, signals)),
      Samples(Map(UrlOf, signals), PATH_SAMPLES_CAP), |clients|, clients,
      t.Average(), t.internal, t.external, [])
  }

  function NewRow(n: Normalizer, window: WindowId, key: MergeKey, s: Signal): MergedRow {
    MergedRow(
      key, EnvKindForService(s), n.version, window,
      UnixToTime(s.raw.firstSeenUnix), UnixToTime(s.raw.lastSeenUnix), 0, 0, [],
      s.raw.requestDomain, s.raw.k8sPod, s.raw.k8sWorkload, [], 0, [], 0.0, 0, 0, [])
  }

  /** The weighted running average, guarded against a zero total. */
  function RunningAverage(avg: real, totalRows: nat, count: nat, newAvg: real): real
    requires count <= totalRows
  {
    if totalRows > 0 then
      var prevContribution := avg * (totalRows - count) as real;
      var newContribution := newAvg * count as real;
      (prevContribution + newContribution) / totalRows as real
    else avg
  }

  lemma {:induction false} RunningAverageOf(avg: real, rows: nat, weight: real, count: nat, newAvg: real, newWeight: real)
    requires avg * rows as real == weight && newAvg * count as real == newWeight
    ensures rows + count > 0 ==> RunningAverage(avg, rows + count, count, newAvg) == Mean(weight + newWeight, rows + count)
  {
    assert (rows + count - count) as real == rows as real;
  }

  lemma {:induction false} CombinedWeight(t: Totals, s: Signal)
    ensures Combine(t, TotalsOf(s)).Weighted() == t.Weighted() + DurationIn(s)
    ensures Combine(t, TotalsOf(s)).Rows() == t.Rows() + s.raw.rowCount
  {
  }

  /** The running average never drifts from the mean over all rows so far. */
  lemma {:induction false} RunningAverageExact(t: Totals, s: Signal)
    requires t.Rows() == 0 ==> t.Weighted() == 0.0
    ensures RunningAverage(t.Average(), t.Rows() + s.raw.rowCount, s.raw.rowCount, s.raw.avgDurationUs)
            == Combine(t, TotalsOf(s)).Average()
  {
    CombinedWeight(t, s);
    if t.Rows() + s.raw.rowCount > 0 {
      AverageTimesRows(t);
      RunningAverageOf(t.Average(), t.Rows(), t.Weighted(), s.raw.rowCount, s.raw.avgDurationUs, DurationIn(s));
    }
  }

  /** The counters and times of a row, as totals. */
  ghost predicate Counts(row: MergedRow, t: Totals) {
    && row.flowCount == t.Flows() && row.rowCount == t.Rows()
    && row.internalFlows == t.Internal() && row.externalFlows == t.External()
    && row.avgDurationUs == t.Average()
    && (!t.Empty? ==> row.firstSeen == t.first && row.lastSeen == t.last)
  }

  /** The counters, times and running average of one loop iteration. */
  method FoldCounters(existing: MergedRow, s: Signal, ghost t: Totals) returns (row: MergedRow)
    requires Counts(existing, t) && (t.Rows() == 0 ==> t.Weighted() == 0.0)
    requires t.Empty? ==> existing.firstSeen == UnixToTime(s.raw.firstSeenUnix)
                          && existing.lastSeen == UnixToTime(s.raw.lastSeenUnix)
    ensures Counts(row, Combine(t, TotalsOf(s)))
    ensures row == existing.(
              flowCount := row.flowCount, rowCount := row.rowCount,
              internalFlows := row.internalFlows, externalFlows := row.externalFlows,
              firstSeen := row.firstSeen, lastSeen := row.lastSeen, avgDurationUs := row.avgDurationUs)
  {
    row := existing.(flowCount := existing.flowCount + 1, rowCount := existing.rowCount + s.raw.rowCount);
    if s.direction == Internal {
      row := row.(internalFlows := row.internalFlows + s.raw.rowCount);
    } else {
      row := row.(externalFlows := row.externalFlows + s.raw.rowCount);
    }
    var first, last := UnixToTime(s.raw.firstSeenUnix), UnixToTime(s.raw.lastSeenUnix);
    if first < row.firstSeen {
      row := row.(firstSeen := first);
    }
    if last > row.lastSeen {
      row := row.(lastSeen := last);
    }
    RunningAverageExact(t, s);
    row := row.(avgDurationUs :=
      RunningAverage(row.avgDurationUs, row.rowCount, s.raw.rowCount, s.raw.avgDurationUs));
  }

  /** The bounded samples of one loop iteration. */
  method FoldSamples(existing: MergedRow, s: Signal, ghost before: seq<Signal>) returns (row: MergedRow)
    requires existing.rawPathSamples == Samples(Map(UrlOf, before), PATH_SAMPLES_CAP)
    requires existing.distinctClientsSample == Samples(Map(ClientIpOf, before), CLIENT_SAMPLES_CAP)
    requires existing.statusCodes == Distinct(Statuses(before))
    ensures var after := before + [s];
            var clients := Samples(Map(ClientIpOf, after), CLIENT_SAMPLES_CAP);
            row == existing.(
              rawPathSamples := Samples(Map(UrlOf, after), PATH_SAMPLES_CAP),
              distinctClientsSample := clients, distinctClientCount := |clients|,
              statusCodes := Distinct(Statuses(after)))
  {
    MapSnoc(UrlOf, before, s);
    SamplesSnoc(Map(UrlOf, before), s.raw.sampleUrl, PATH_SAMPLES_CAP);
    MapSnoc(ClientIpOf, before, s);
    SamplesSnoc(Map(ClientIpOf, before), s.raw.clientIp, CLIENT_SAMPLES_CAP);
    var paths := AppendUniqueCapped(existing.rawPathSamples, s.raw.sampleUrl, PATH_SAMPLES_CAP);
    var clients := AppendUniqueCapped(existing.distinctClientsSample, s.raw.clientIp, CLIENT_SAMPLES_CAP);
    row := existing.(rawPathSamples := paths, distinctClientsSample := clients, distinctClientCount := |clients|);
    assert (before + [s])[..|before|] == before;
    if s.raw.sampleStatus > 0 {
      DistinctSnoc(Statuses(before), ToInt16(s.raw.sampleStatus));
      var codes := AppendUniqueStatus(row.statusCodes, ToInt16(s.raw.sampleStatus));
      row := row.(statusCodes := codes);
    }
  }

  lemma {:induction false} PreferredSnoc(tap: Signal -> Tapped, before: seq<Signal>, s: Signal)
    ensures Preferred(Map(tap, before + [s])) ==
            var init := Preferred(Map(tap, before));
            if (init == "" || tap(s).preferred) && tap(s).value != "" then tap(s).value else init
  {
    MapSnoc(tap, before, s);
    assert (Map(tap, before) + [tap(s)])[..|before|] == Map(tap, before);
  }

  /** All updates of the row in one loop iteration, in the order of the source. */
  method FoldSignal(n: Normalizer, window: WindowId, key: MergeKey, existing: MergedRow, s: Signal,
                    ghost before: seq<Signal>)
    returns (row: MergedRow)
    requires existing == if before == [] then NewRow(n, window, key, s) else RowOf(n, window, key, before)
    ensures row == RowOf(n, window, key, before + [s])
  {
    CountsMeaning(before);
    TotalSnoc(before, s);
    row := FoldCounters(existing, s, Total(before));
    row := FoldSamples(row, s, before);
    PreferredSnoc(PodOf, before, s);
    PreferredSnoc(WorkloadOf, before, s);
    if (row.samplePod == "" || s.raw.observationPoint == TAP_SERVER_PROCESS) && s.raw.k8sPod != "" {
      row := row.(samplePod := s.raw.k8sPod);
    }
    if (row.sampleWorkload == "" || s.raw.observationPoint == TAP_SERVER_PROCESS) && s.raw.k8sWorkload != "" {
      row := row.(sampleWorkload := s.raw.k8sWorkload);
    }
    assert (before + [s])[0] == if before == [] then s else before[0];
  }
}
