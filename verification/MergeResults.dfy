/** What callers rely on in the result of a merge (internal/discovery/merger.go). */
module MergeResults {
  import opened Callers
  import opened Classifier
  import opened Clock
  import opened Counting
  import opened MergedRows
  import opened Merger
  import opened Normalizer
  import opened Ordering
  import opened Sequences
  import opened Strings

  lemma {:induction false} MergedRowFor(n: Normalizer, window: WindowId, signals: seq<Signal>, out: seq<MergedRow>, key: MergeKey)
    requires IsMerge(n, window, signals, out) && Select(n, signals, key) != []
    ensures FullRow(n, window, key, Select(n, signals, key)) in out
  {
    assert FullRow(n, window, key, Select(n, signals, key)).key == key;
  }

  /** The counters are the plain sums over these signals. */
  ghost predicate SumsUp(row: MergedRow, sel: seq<Signal>) {
    && sel != [] && row.flowCount == |sel| && row.rowCount == Sum(RowsIn, sel)
    && row.internalFlows == Sum(InternalRowsIn, sel) && row.externalFlows == Sum(ExternalRowsIn, sel)
    && row.internalFlows + row.externalFlows == row.rowCount
  }

  /** The average is the mean duration over all rows, 0 if there are none. */
  ghost predicate IsMean(average: real, rows: nat, sel: seq<Signal>) {
    average == if rows == 0 then 0.0 else SumReal(DurationIn, sel) / rows as real
  }

  /** The times are the earliest first and the latest last sighting. */
  ghost predicate Spans(row: MergedRow, sel: seq<Signal>) {
    && (forall j :: 0 <= j < |sel| ==>
          && row.firstSeen <= UnixToTime(sel[j].raw.firstSeenUnix)
          && UnixToTime(sel[j].raw.lastSeenUnix) <= row.lastSeen)
    && (exists j :: 0 <= j < |sel| && row.firstSeen == UnixToTime(sel[j].raw.firstSeenUnix))
    && (exists j :: 0 <= j < |sel| && row.lastSeen == UnixToTime(sel[j].raw.lastSeenUnix))
  }

  /** The row holds the exact aggregates of these signals. */
  ghost predicate Aggregates(row: MergedRow, sel: seq<Signal>) {
    SumsUp(row, sel) && IsMean(row.avgDurationUs, row.rowCount, sel) && Spans(row, sel)
  }

  /** Distinct non-blank values of the signals, in the order in which they came
      up; nothing is missing unless the list is full, and then it is what came
      later. */
  ghost predicate AreSamples(list: seq<string>, cap: nat, value: Signal -> string, sel: seq<Signal>) {
    && |list| <= cap && NoDuplicates(list)
    && (forall v :: v in list ==> v != "" && exists j :: 0 <= j < |sel| && value(sel[j]) == v)
    && (forall j :: 0 <= j < |sel| && value(sel[j]) != "" && value(sel[j]) !in list ==>
          |list| == cap && forall v :: v in list ==> exists i :: 0 <= i < j && value(sel[i]) == v)
  }

  /** The 16-bit codes of the positive statuses, none twice. */
  ghost predicate AreStatuses(list: seq<int>, sel: seq<Signal>) {
    && NoDuplicates(list)
    && (forall s :: s in sel && 0 < s.raw.sampleStatus <= 32767 ==> s.raw.sampleStatus in list)
    && (forall v :: v in list <==>
          -32768 <= v <= 32767
          && exists s :: s in sel && s.raw.sampleStatus > 0 && (s.raw.sampleStatus - v) % 65536 == 0)
  }

  ghost predicate HoldsSamples(row: MergedRow, sel: seq<Signal>) {
    && AreSamples(row.rawPathSamples, 20, (s: Signal) => s.raw.sampleUrl, sel)
    && AreSamples(row.distinctClientsSample, 300, (s: Signal) => s.raw.clientIp, sel)
    && row.distinctClientCount == |row.distinctClientsSample|
    && AreStatuses(row.statusCodes, sel)
  }

  /** The last value that a tap at the server's process reported; without one
      the first value reported at all; without one blank. */
  ghost predicate IsPreferred(r: string, value: Signal -> string, sel: seq<Signal>) {
    if exists i :: 0 <= i < |sel| && sel[i].raw.observationPoint == "s-p" && value(sel[i]) != "" then
      exists i :: 0 <= i < |sel| && sel[i].raw.observationPoint == "s-p" && value(sel[i]) == r != ""
                  && forall j :: i < j < |sel| && sel[j].raw.observationPoint == "s-p" ==> value(sel[j]) == ""
    else if exists i :: 0 <= i < |sel| && value(sel[i]) != "" then
      exists i :: 0 <= i < |sel| && value(sel[i]) == r != "" && forall j :: 0 <= j < i ==> value(sel[j]) == ""
    else r == ""
  }

  /** The columns that say what and where: kind by the name of the service, the
      domain of the first signal, the preferred pod and workload. */
  ghost predicate Describes(n: Normalizer, window: WindowId, row: MergedRow, sel: seq<Signal>)
    requires sel != []
  {
    && row.envKind == (if "k8s:" <= row.key.service then K8s else Legacy)
    && row.version == n.version && row.window == window && row.requestDomain == sel[0].raw.requestDomain
    && IsPreferred(row.samplePod, (s: Signal) => s.raw.k8sPod, sel)
    && IsPreferred(row.sampleWorkload, (s: Signal) => s.raw.k8sWorkload, sel)
  }

  /** Ordered by service, method and path, in this order. */
  predicate IsBefore(a: MergeKey, b: MergeKey) {
    || Less(a.service, b.service)
    || (a.service == b.service && Less(a.verb, b.verb))
    || (a.service == b.service && a.verb == b.verb && Less(a.path, b.path))
  }

  lemma {:induction false} KeysOrdered(a: MergeKey, b: MergeKey)
    requires KeyLess(a, b)
    ensures IsBefore(a, b) && a != b
  {
    LessIrreflexive(a.path);
  }

  /** All there is to say of one row. */
  ghost predicate IsRowOf(n: Normalizer, window: WindowId, row: MergedRow, sel: seq<Signal>) {
    && Aggregates(row, sel) && HoldsSamples(row, sel) && Describes(n, window, row, sel)
    && AreTopCallers(row.topClients, sel)
  }

  /** One row per distinct key, in strictly ascending key order, holding the
      exact aggregates, samples, descriptions and top callers of the signals of
      that key. */
  lemma {:induction false} MergeExact(n: Normalizer, window: WindowId, signals: seq<Signal>, out: seq<MergedRow>)
    requires IsMerge(n, window, signals, out)
    ensures forall i, j :: 0 <= i < j < |out| ==> IsBefore(out[i].key, out[j].key) && out[i].key != out[j].key
    ensures forall s :: s in signals ==> exists i :: 0 <= i < |out| && out[i].key == KeyOf(n, s)
    ensures forall row :: row in out ==>
              && (forall s :: s in Select(n, signals, row.key) <==>
                    s in signals && MergeKey(s.service, s.raw.verb, Normalize(n, s.raw.endpoint)) == row.key)
              && IsRowOf(n, window, row, Select(n, signals, row.key))
  {
    forall i, j | 0 <= i < j < |out| ensures IsBefore(out[i].key, out[j].key) && out[i].key != out[j].key {
      assert RowLess(out[i], out[j]);
      KeysOrdered(out[i].key, out[j].key);
    }
    forall s | s in signals ensures exists i :: 0 <= i < |out| && out[i].key == KeyOf(n, s) {
      FilterElements(KeyIs(n, KeyOf(n, s)), signals);
      assert s in Select(n, signals, KeyOf(n, s));
      MergedRowFor(n, window, signals, out, KeyOf(n, s));
    }
    forall row | row in out
      ensures && (forall s :: s in Select(n, signals, row.key) <==>
                    s in signals && MergeKey(s.service, s.raw.verb, Normalize(n, s.raw.endpoint)) == row.key)
              && IsRowOf(n, window, row, Select(n, signals, row.key))
    {
      SelectedExactly(n, signals, row.key);
      FullRowExact(n, window, row.key, Select(n, signals, row.key));
    }
  }

  lemma {:induction false} SelectedExactly(n: Normalizer, signals: seq<Signal>, key: MergeKey)
    ensures forall s :: s in Select(n, signals, key) <==>
              s in signals && MergeKey(s.service, s.raw.verb, Normalize(n, s.raw.endpoint)) == key
  {
    FilterElements(KeyIs(n, key), signals);
  }

  lemma {:induction false} FullRowExact(n: Normalizer, window: WindowId, key: MergeKey, sel: seq<Signal>)
    requires sel != [] && forall s :: s in sel ==> s.service == key.service
    ensures IsRowOf(n, window, FullRow(n, window, key, sel), sel)
  {
    FullRowSums(n, window, key, sel);
    AverageIsMean(sel);
    TimesMeaning(sel);
    FullRowSamples(n, window, key, sel);
    FullRowDescribes(n, window, key, sel);
    TopClientsExact(sel);
  }

  lemma {:induction false} FullRowSums(n: Normalizer, window: WindowId, key: MergeKey, sel: seq<Signal>)
    requires sel != []
    ensures SumsUp(FullRow(n, window, key, sel), sel)
  {
    CountsMeaning(sel);
    TotalsAreSums(sel);
  }

  lemma {:induction false} AverageIsMean(sel: seq<Signal>)
    ensures IsMean(Total(sel).Average(), Total(sel).Rows(), sel)
  {
    TotalsAreSums(sel);
  }

  lemma {:induction false} SamplesOf(tap: Signal -> string, cap: nat, value: Signal -> string, sel: seq<Signal>)
    requires forall s :: tap(s) == value(s)
    ensures AreSamples(Samples(Map(tap, sel), cap), cap, value, sel)
  {
    var vs := Map(tap, sel);
    var list := Samples(vs, cap);
    SamplesExact(vs, cap);
    forall v | v in list ensures v != "" && exists j :: 0 <= j < |sel| && value(sel[j]) == v {
      var j :| 0 <= j < |vs| && vs[j] == v;
      assert value(sel[j]) == v;
    }
    forall j | 0 <= j < |sel| && value(sel[j]) != "" && value(sel[j]) !in list
      ensures |list| == cap && forall v :: v in list ==> exists i :: 0 <= i < j && value(sel[i]) == v
    {
      SampleOmitted(tap, cap, value, sel, j);
    }
  }

  lemma {:induction false} SampleOmitted(
    tap: Signal -> string, cap: nat, value: Signal -> string, sel: seq<Signal>, j: nat)
    requires forall s :: tap(s) == value(s)
    requires j < |sel| && value(sel[j]) != "" && value(sel[j]) !in Samples(Map(tap, sel), cap)
    ensures |Samples(Map(tap, sel), cap)| == cap
    ensures forall v :: v in Samples(Map(tap, sel), cap) ==> exists i :: 0 <= i < j && value(sel[i]) == v
  {
    var vs := Map(tap, sel);
    SamplesExact(vs, cap);
    assert vs[j] == value(sel[j]) && vs[j] in vs;
    forall v | v in Samples(vs, cap) ensures exists i :: 0 <= i < j && value(sel[i]) == v {
      SamplesAreFirst(vs, cap, j, v);
      var i :| 0 <= i < |vs[..j]| && vs[..j][i] == v;
      assert value(sel[i]) == v;
    }
  }

  lemma {:induction false} FullRowSamples(n: Normalizer, window: WindowId, key: MergeKey, sel: seq<Signal>)
    requires sel != []
    ensures HoldsSamples(FullRow(n, window, key, sel), sel)
  {
    SamplesOf(UrlOf, PATH_SAMPLES_CAP, (s: Signal) => s.raw.sampleUrl, sel);
    SamplesOf(ClientIpOf, CLIENT_SAMPLES_CAP, (s: Signal) => s.raw.clientIp, sel);
    StatusesListed(sel);
  }

  lemma {:induction false} StatusesListed(sel: seq<Signal>)
    ensures AreStatuses(Distinct(Statuses(sel)), sel)
  {
    DistinctElements(Statuses(sel));
    forall v ensures v in Distinct(Statuses(sel)) <==>
        -32768 <= v <= 32767
        && exists s :: s in sel && s.raw.sampleStatus > 0 && (s.raw.sampleStatus - v) % 65536 == 0
    {
      StatusesExact(sel, v);
    }
    forall s | s in sel && 0 < s.raw.sampleStatus <= 32767 ensures s.raw.sampleStatus in Distinct(Statuses(sel)) {
      assert (s.raw.sampleStatus - s.raw.sampleStatus) % 65536 == 0;
    }
  }

  lemma {:induction false} PreferredIs(tap: Signal -> Tapped, value: Signal -> string, sel: seq<Signal>)
    requires forall s :: tap(s) == Tapped(s.raw.observationPoint == "s-p", value(s))
    ensures IsPreferred(Preferred(Map(tap, sel)), value, sel)
  {
    var xs := Map(tap, sel);
    PreferredMeaning(xs);
    assert forall i :: 0 <= i < |sel| ==> xs[i] == Tapped(sel[i].raw.observationPoint == "s-p", value(sel[i]));
    assert forall i :: 0 <= i < |sel| ==>
      (IsFavoured(xs[i]) <==> sel[i].raw.observationPoint == "s-p" && value(sel[i]) != "");
  }

  lemma {:induction false} FullRowDescribes(n: Normalizer, window: WindowId, key: MergeKey, sel: seq<Signal>)
    requires sel != [] && forall s :: s in sel ==> s.service == key.service
    ensures Describes(n, window, FullRow(n, window, key, sel), sel)
  {
    PreferredIs(PodOf, (s: Signal) => s.raw.k8sPod, sel);
    PreferredIs(WorkloadOf, (s: Signal) => s.raw.k8sWorkload, sel);
    assert sel[0] in sel;
  }

  // ------------------------------------------------------------- directions

  /** The rows of calls from outside. */
  function OutsideRowsIn(s: Signal): nat { if FromOutside(s.raw) then s.raw.rowCount else 0 }

  lemma {:induction false} OutsideIsExternal(sel: seq<Signal>)
    requires forall s :: s in sel ==> IsClassified(s)
    ensures Sum(ExternalRowsIn, sel) == Sum(OutsideRowsIn, sel)
  {
    forall s | s in sel ensures ExternalRowsIn(s) == OutsideRowsIn(s) {
      DirectionExact(s.raw);
    }
    SumSame(ExternalRowsIn, OutsideRowsIn, sel);
  }

  /** The external flows of a row are the rows of the calls from outside, told
      by peer and tap; the others are its internal flows. */
  lemma {:induction false} FlowsByOrigin(
    n: Normalizer, window: WindowId, raws: seq<RawSignal>, out: seq<MergedRow>, row: MergedRow)
    requires IsMerge(n, window, Kept(raws), out) && row in out
    ensures var sel := Select(n, Kept(raws), row.key);
            && row.externalFlows == Sum(OutsideRowsIn, sel)
            && row.internalFlows == Sum(RowsIn, sel) - Sum(OutsideRowsIn, sel)
  {
    var sel := Select(n, Kept(raws), row.key);
    KeptExactly(raws);
    FilterElements(KeyIs(n, row.key), Kept(raws));
    OutsideIsExternal(sel);
    FullRowSums(n, window, row.key, sel);
  }

  // ----------------------------------------------------------- conservation

  function RowsAt(n: Normalizer, signals: seq<Signal>): MergeKey -> nat {
    key => Total(Select(n, signals, key)).Rows()
  }

  lemma {:induction false} SumSame<T>(f: T -> nat, g: T -> nat, xs: seq<T>)
    requires forall x :: x in xs ==> f(x) == g(x)
    ensures Sum(f, xs) == Sum(g, xs)
  {
    if xs == [] {
    } else {
      SumSame(f, g, xs[1..]);
    }
  }

  lemma {:induction false} SumBump<T(!new)>(f: T -> nat, g: T -> nat, xs: seq<T>, at: T, extra: nat)
    requires NoDuplicates(xs) && at in xs
    requires forall x :: x in xs ==> g(x) == if x == at then f(x) + extra else f(x)
    ensures Sum(g, xs) == Sum(f, xs) + extra
  {
    if xs[0] == at {
      SumSame(f, g, xs[1..]);
    } else {
      SumBump(f, g, xs[1..], at, extra);
    }
  }

  lemma {:induction false} RowsAtSnoc(n: Normalizer, init: seq<Signal>, s: Signal, k: MergeKey)
    ensures RowsAt(n, init + [s])(k) == RowsAt(n, init)(k) + if k == KeyOf(n, s) then s.raw.rowCount else 0
  {
    SelectSnoc(n, init, s, k);
    TotalSnoc(Select(n, init, k), s);
  }

  lemma {:induction false} RowsConservedOver(n: Normalizer, signals: seq<Signal>, keys: seq<MergeKey>)
    requires NoDuplicates(keys) && forall s :: s in signals ==> KeyOf(n, s) in keys
    ensures Sum(RowsAt(n, signals), keys) == Total(signals).Rows()
  {
    if signals == [] {
      SumZeroIff(RowsAt(n, signals), keys);
    } else {
      var init, s := signals[..|signals| - 1], signals[|signals| - 1];
      assert signals == init + [s];
      RowsConservedOver(n, init, keys);
      forall k | k in keys
        ensures RowsAt(n, signals)(k) == RowsAt(n, init)(k) + if k == KeyOf(n, s) then s.raw.rowCount else 0
      {
        RowsAtSnoc(n, init, s, k);
      }
      SumBump(RowsAt(n, init), RowsAt(n, signals), keys, KeyOf(n, s), s.raw.rowCount);
    }
  }

  function RowCountOf(row: MergedRow): nat { row.rowCount }
  function RowKeyOf(row: MergedRow): MergeKey { row.key }

  lemma {:induction false} SumOverKeys(f: MergeKey -> nat, rows: seq<MergedRow>)
    requires forall row :: row in rows ==> row.rowCount == f(row.key)
    ensures Sum(RowCountOf, rows) == Sum(f, Map(RowKeyOf, rows))
  {
    if rows == [] {
    } else {
      SumOverKeys(f, rows[1..]);
      assert Map(RowKeyOf, rows)[1..] == Map(RowKeyOf, rows[1..]);
    }
  }

  lemma {:induction false} KeysCover(n: Normalizer, window: WindowId, signals: seq<Signal>, out: seq<MergedRow>)
    requires IsMerge(n, window, signals, out)
    ensures NoDuplicates(Map(RowKeyOf, out))
    ensures forall s :: s in signals ==> KeyOf(n, s) in Map(RowKeyOf, out)
  {
    var keys := Map(RowKeyOf, out);
    MergeExact(n, window, signals, out);
    forall s | s in signals ensures KeyOf(n, s) in keys {
      var i :| 0 <= i < |out| && out[i].key == KeyOf(n, s);
      assert keys[i] == KeyOf(n, s);
    }
  }

  lemma {:induction false} RowsOfRow(n: Normalizer, window: WindowId, signals: seq<Signal>, out: seq<MergedRow>, row: MergedRow)
    requires IsMerge(n, window, signals, out) && row in out
    ensures row.rowCount == RowsAt(n, signals)(row.key)
  {
  }

  /** The merge neither loses nor invents observations. */
  lemma {:induction false} RowsConserved(n: Normalizer, window: WindowId, signals: seq<Signal>, out: seq<MergedRow>)
    requires IsMerge(n, window, signals, out)
    ensures Sum(RowCountOf, out) == Sum(RowsIn, signals)
  {
    KeysCover(n, window, signals, out);
    RowsConservedOver(n, signals, Map(RowKeyOf, out));
    forall row | row in out ensures row.rowCount == RowsAt(n, signals)(row.key) {
      RowsOfRow(n, window, signals, out, row);
    }
    SumOverKeys(RowsAt(n, signals), out);
    TotalsAreSums(signals);
  }

  // ----------------------------------------------------- order independence

  /** The part of a row that does not speak of samples. */
  datatype Essence = Essence(
    key: MergeKey, rows: nat, flows: nat, internal: nat, external: nat, average: real,
    first: Time, last: Time, callers: seq<Tally>)

  function EssenceOf(row: MergedRow): Essence {
    Essence(row.key, row.rowCount, row.flowCount, row.internalFlows, row.externalFlows, row.avgDurationUs,
            row.firstSeen, row.lastSeen, Map(TallyOf, row.topClients))
  }

  function EssenceFor(key: MergeKey, sel: seq<Signal>): Essence
    requires sel != []
  {
    var t := Total(sel);
    CountsMeaning(sel);
    Essence(key, t.rows, t.flows, t.internal, t.external, t.Average(), t.first, t.last, Map(TallyOf, TopClients(sel)))
  }

  predicate EssenceLess(a: Essence, b: Essence) { KeyLess(a.key, b.key) }

  lemma {:induction false} EssenceOrder()
    ensures StrictOrder(EssenceLess)
  {
    forall a: Essence ensures !EssenceLess(a, a) {
      LessIrreflexive(a.key.path);
    }
    forall a: Essence, b: Essence, c: Essence | EssenceLess(a, b) && EssenceLess(b, c) ensures EssenceLess(a, c) {
      KeyLessTransitive(a.key, b.key, c.key);
    }
  }

  lemma {:induction false} EssenceOfRow(n: Normalizer, window: WindowId, key: MergeKey, sel: seq<Signal>)
    requires sel != []
    ensures EssenceOf(FullRow(n, window, key, sel)) == EssenceFor(key, sel)
  {
  }

  lemma {:induction false} EssencesOf(n: Normalizer, window: WindowId, signals: seq<Signal>, out: seq<MergedRow>)
    requires IsMerge(n, window, signals, out)
    ensures Ascending(EssenceLess, Map(EssenceOf, out))
    ensures forall e :: e in Map(EssenceOf, out) <==>
              var sel := Select(n, signals, e.key);
              sel != [] && e == EssenceFor(e.key, sel)
  {
    var essences := Map(EssenceOf, out);
    forall i, j | 0 <= i < j < |out| ensures EssenceLess(essences[i], essences[j]) {
      assert RowLess(out[i], out[j]);
    }
    forall e ensures e in essences <==>
        var sel := Select(n, signals, e.key);
        sel != [] && e == EssenceFor(e.key, sel)
    {
      EssenceIn(n, window, signals, out, e);
    }
  }

  lemma {:induction false} EssenceIn(n: Normalizer, window: WindowId, signals: seq<Signal>, out: seq<MergedRow>, e: Essence)
    requires IsMerge(n, window, signals, out)
    ensures e in Map(EssenceOf, out) <==>
            var sel := Select(n, signals, e.key);
            sel != [] && e == EssenceFor(e.key, sel)
  {
    var sel, essences := Select(n, signals, e.key), Map(EssenceOf, out);
    if sel != [] {
      EssenceOfRow(n, window, e.key, sel);
      MergedRowFor(n, window, signals, out, e.key);
      var i :| 0 <= i < |out| && out[i] == FullRow(n, window, e.key, sel);
      assert essences[i] in essences;
    }
    if e in essences {
      var i :| 0 <= i < |essences| && essences[i] == e;
      assert out[i] in out;
    }
  }

  /** Keys, counts, times, durations and the ranked callers with their
      observations are the same for every order of the signals (only samples
      and first-come descriptive fields may differ). */
  lemma {:induction false} MergeIgnoresSignalOrder(n: Normalizer, window: WindowId, a: seq<Signal>, b: seq<Signal>,
                                outA: seq<MergedRow>, outB: seq<MergedRow>)
    requires multiset(a) == multiset(b)
    requires IsMerge(n, window, a, outA) && IsMerge(n, window, b, outB)
    ensures Map(EssenceOf, outA) == Map(EssenceOf, outB)
  {
    EssencesOf(n, window, a, outA);
    EssencesOf(n, window, b, outB);
    forall k ensures (Select(n, a, k) == [] <==> Select(n, b, k) == [])
        && Total(Select(n, a, k)) == Total(Select(n, b, k))
        && Map(TallyOf, TopClients(Select(n, a, k))) == Map(TallyOf, TopClients(Select(n, b, k)))
    {
      FilterPermutation(KeyIs(n, k), a, b);
      TotalPermutation(Select(n, a, k), Select(n, b, k));
      CountsMeaning(Select(n, a, k));
      CountsMeaning(Select(n, b, k));
      TopClientsIgnoreOrder(Select(n, a, k), Select(n, b, k));
    }
    EssenceOrder();
    AscendingUnique(EssenceLess, Map(EssenceOf, outA), Map(EssenceOf, outB));
  }

  // --------------------------------------------------------------- services

  datatype ServiceCandidate = ServiceCandidate(service: string, envKind: EnvKind, firstSeen: Time, lastSeen: Time)

  predicate CandidateLess(a: ServiceCandidate, b: ServiceCandidate) { Less(a.service, b.service) }

  /** The candidate covers the rows of its service: it takes the kind of the
      first one, and its times are their attained bounds. */
  ghost predicate Covers(c: ServiceCandidate, rows: seq<MergedRow>) {
    HasFirstKind(c, rows) && Encloses(c, rows) && Attains(c, rows)
  }

  ghost predicate HasFirstKind(c: ServiceCandidate, rows: seq<MergedRow>) {
    exists i :: 0 <= i < |rows| && rows[i].key.service == c.service && rows[i].envKind == c.envKind
                && forall j :: 0 <= j < i ==> rows[j].key.service != c.service
  }

  ghost predicate Encloses(c: ServiceCandidate, rows: seq<MergedRow>) {
    forall i :: 0 <= i < |rows| && rows[i].key.service == c.service ==>
      c.firstSeen <= rows[i].firstSeen && rows[i].lastSeen <= c.lastSeen
  }

  ghost predicate Attains(c: ServiceCandidate, rows: seq<MergedRow>) {
    && (exists i :: 0 <= i < |rows| && rows[i].key.service == c.service && rows[i].firstSeen == c.firstSeen)
    && (exists i :: 0 <= i < |rows| && rows[i].key.service == c.service && rows[i].lastSeen == c.lastSeen)
  }

  ghost predicate Mentions(rows: seq<MergedRow>, service: string) {
    exists i :: 0 <= i < |rows| && rows[i].key.service == service
  }

  lemma {:induction false} FirstKindStays(c: ServiceCandidate, rows: seq<MergedRow>, r: MergedRow)
    requires HasFirstKind(c, rows)
    ensures HasFirstKind(c, rows + [r])
  {
    var all := rows + [r];
    var i :| 0 <= i < |rows| && rows[i].key.service == c.service && rows[i].envKind == c.envKind
      && forall j :: 0 <= j < i ==> rows[j].key.service != c.service;
    assert all[i] == rows[i] && forall j :: 0 <= j < i ==> all[j] == rows[j];
  }

  lemma {:induction false} TimesAttained(c: ServiceCandidate, c': ServiceCandidate, rows: seq<MergedRow>, r: MergedRow)
    requires Attains(c, rows) && c'.service == c.service
    requires c'.firstSeen == c.firstSeen || (c'.firstSeen == r.firstSeen && r.key.service == c.service)
    requires c'.lastSeen == c.lastSeen || (c'.lastSeen == r.lastSeen && r.key.service == c.service)
    ensures Attains(c', rows + [r])
  {
    var all := rows + [r];
    var f :| 0 <= f < |rows| && rows[f].key.service == c.service && rows[f].firstSeen == c.firstSeen;
    var l :| 0 <= l < |rows| && rows[l].key.service == c.service && rows[l].lastSeen == c.lastSeen;
    assert all[f] == rows[f] && all[l] == rows[l] && all[|rows|] == r;
  }

  lemma {:induction false} CoversSnoc(rows: seq<MergedRow>, r: MergedRow, c: ServiceCandidate, c': ServiceCandidate)
    requires if Mentions(rows, r.key.service) then Covers(c, rows) && c.service == r.key.service
             else c == ServiceCandidate(r.key.service, r.envKind, r.firstSeen, r.lastSeen)
    requires c' == c.(firstSeen := Earlier(c.firstSeen, r.firstSeen), lastSeen := Later(c.lastSeen, r.lastSeen))
    ensures Covers(c', rows + [r])
  {
    var all := rows + [r];
    assert all[|rows|] == r && forall i :: 0 <= i < |rows| ==> all[i] == rows[i];
    if Mentions(rows, r.key.service) {
      FirstKindStays(c, rows, r);
      TimesAttained(c, c', rows, r);
    } else {
      assert forall i :: 0 <= i < |rows| ==> rows[i].key.service != r.key.service;
    }
  }

  lemma {:induction false} CoversOther(rows: seq<MergedRow>, r: MergedRow, c: ServiceCandidate)
    requires Covers(c, rows) && r.key.service != c.service
    ensures Covers(c, rows + [r])
  {
    FirstKindStays(c, rows, r);
    TimesAttained(c, c, rows, r);
  }

  ghost predicate SeenOk(seen: map<string, ServiceCandidate>, rows: seq<MergedRow>) {
    && (forall s :: s in seen <==> Mentions(rows, s))
    && (forall s :: s in seen ==> seen[s].service == s && Covers(seen[s], rows))
  }

  lemma {:induction false} SeenSnoc(
    seen: map<string, ServiceCandidate>, before: seq<MergedRow>, r: MergedRow, c: ServiceCandidate)
    requires SeenOk(seen, before) && c.service == r.key.service && Covers(c, before + [r])
    ensures SeenOk(seen[r.key.service := c], before + [r])
  {
    var seen' := seen[r.key.service := c];
    MentionsSnoc(before, r);
    forall s | s in seen' ensures seen'[s].service == s && Covers(seen'[s], before + [r]) {
      if s != r.key.service {
        CoversOther(before, r, seen[s]);
      }
    }
    forall s ensures s in seen' <==> Mentions(before + [r], s) {
      assert s in seen <==> Mentions(before, s);
    }
  }

  /** One iteration of the loop of `CollectServices`. */
  method FoldService(seen: map<string, ServiceCandidate>, r: MergedRow, ghost before: seq<MergedRow>)
    returns (seen': map<string, ServiceCandidate>)
    requires SeenOk(seen, before)
    ensures SeenOk(seen', before + [r])
  {
    var c := if r.key.service in seen then seen[r.key.service]
             else ServiceCandidate(r.key.service, r.envKind, r.firstSeen, r.lastSeen);
    ghost var found := c;
    if r.firstSeen < c.firstSeen {
      c := c.(firstSeen := r.firstSeen);
    }
    if r.lastSeen > c.lastSeen {
      c := c.(lastSeen := r.lastSeen);
    }
    CoversSnoc(before, r, found, c);
    SeenSnoc(seen, before, r, c);
    seen' := seen[r.key.service := c];
  }

  ghost predicate Lists(out: seq<ServiceCandidate>, service: string) {
    exists c :: c in out && c.service == service
  }

  method CollectServices(rows: seq<MergedRow>) returns (out: seq<ServiceCandidate>)
    ensures forall i, j :: 0 <= i < j < |out| ==> Less(out[i].service, out[j].service)
    ensures forall c :: c in out ==> Covers(c, rows)
    ensures forall i :: 0 <= i < |rows| ==> Lists(out, rows[i].key.service)
  {
    var seen: map<string, ServiceCandidate> := map[];
    for i := 0 to |rows|
      invariant SeenOk(seen, rows[..i])
    {
      assert rows[..i + 1] == rows[..i] + [rows[i]];
      seen := FoldService(seen, rows[i], rows[..i]);
    }
    assert rows[..|rows|] == rows;
    ghost var keys;
    out, keys := RangeOver(seen);
    SortCandidates(seen, out, keys);
    out := Sort(CandidateLess, out);
    EveryServiceListed(rows, seen, out);
  }

  lemma {:induction false} EveryServiceListed(rows: seq<MergedRow>, seen: map<string, ServiceCandidate>, out: seq<ServiceCandidate>)
    requires SeenOk(seen, rows) && forall s :: s in seen ==> seen[s] in out
    ensures forall i :: 0 <= i < |rows| ==> Lists(out, rows[i].key.service)
  {
    forall i | 0 <= i < |rows| ensures Lists(out, rows[i].key.service) {
      var service := rows[i].key.service;
      assert Mentions(rows, service);
      assert seen[service] in out && seen[service].service == service;
    }
  }

  lemma {:induction false} MentionsSnoc(rows: seq<MergedRow>, r: MergedRow)
    ensures forall s :: Mentions(rows + [r], s) <==> Mentions(rows, s) || s == r.key.service
  {
    var all := rows + [r];
    assert all[|rows|] == r;
    forall s ensures Mentions(all, s) <==> Mentions(rows, s) || s == r.key.service {
      if i :| 0 <= i < |rows| && rows[i].key.service == s {
        assert all[i] == rows[i];
      }
    }
  }

  lemma {:induction false} SortCandidates(seen: map<string, ServiceCandidate>, list: seq<ServiceCandidate>, keys: seq<string>)
    requires forall s :: s in seen ==> seen[s].service == s
    requires NoDuplicates(keys) && forall s :: s in keys <==> s in seen
    requires |list| == |keys| && forall i :: 0 <= i < |keys| ==> list[i] == seen[keys[i]]
    ensures Ascending(CandidateLess, Sort(CandidateLess, list))
    ensures forall c :: c in Sort(CandidateLess, list) <==> c.service in seen && c == seen[c.service]
  {
    forall a: ServiceCandidate ensures !CandidateLess(a, a) {
      LessIrreflexive(a.service);
    }
    forall a: ServiceCandidate, b: ServiceCandidate, c: ServiceCandidate | CandidateLess(a, b) && CandidateLess(b, c)
      ensures CandidateLess(a, c)
    {
      LessTransitive(a.service, b.service, c.service);
    }
    assert forall i :: 0 <= i < |list| ==> keys[i] in keys && list[i].service == keys[i];
    forall i, j | 0 <= i < j < |list| ensures CandidateLess(list[i], list[j]) || CandidateLess(list[j], list[i]) {
      LessTotal(list[i].service, list[j].service);
    }
    SortSorts(CandidateLess, list);
    forall c ensures c in list <==> c.service in seen && c == seen[c.service] {
      if c.service in keys {
        var i :| 0 <= i < |keys| && keys[i] == c.service;
        assert list[i] == seen[c.service];
      }
    }
  }
}
