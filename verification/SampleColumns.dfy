/** The three array columns of a discovered row, and when the upsert of a
    cycle leaves one of them without a value (internal/store/discovered_repo.go,
    internal/store/migrations/002_phase1_normalization_version.sql). */
module SampleColumns {
  import opened Classifier
  import opened DiscoveredTable
  import opened MergedRows
  import opened Merger
  import opened Normalizer
  import opened Sequences

  predicate HasUrl(sel: seq<Signal>) { exists s :: s in sel && s.raw.sampleUrl != "" }
  predicate HasClient(sel: seq<Signal>) { exists s :: s in sel && s.raw.clientIp != "" }
  predicate HasStatus(sel: seq<Signal>) { exists s :: s in sel && s.raw.sampleStatus > 0 }

  /** What is stored and what the signals bring put a value in every column. */
  predicate Fills(stored: SampleSets, sel: seq<Signal>) {
    && (stored.paths != {} || HasUrl(sel))
    && (stored.clients != {} || HasClient(sel))
    && (stored.statuses != {} || HasStatus(sel))
  }

  const NO_SAMPLES := SampleSets({}, {}, {})

  /** The samples of the merged row of these signals. */
  function SamplesOf(sel: seq<Signal>): SampleSets {
    SampleSets(set p | p in Samples(Map(UrlOf, sel), PATH_SAMPLES_CAP),
               set c | c in Samples(Map(ClientIpOf, sel), CLIENT_SAMPLES_CAP),
               set v | v in Distinct(Statuses(sel)))
  }

  lemma {:induction false} SamplesOfRow(n: Normalizer, window: WindowId, key: MergeKey, sel: seq<Signal>)
    requires sel != []
    ensures SamplesIn(FullRow(n, window, key, sel)) == SamplesOf(sel)
  {
  }

  lemma {:induction false} SampleExists(vs: seq<string>, cap: nat)
    requires cap > 0
    ensures Samples(vs, cap) != [] <==> exists v :: v in vs && v != ""
  {
    SamplesExact(vs, cap);
    if Samples(vs, cap) != [] {
      assert Samples(vs, cap)[0] in Samples(vs, cap);
    }
  }

  lemma {:induction false} UrlColumn(sel: seq<Signal>)
    ensures SamplesOf(sel).paths != {} <==> HasUrl(sel)
  {
    var vs := Map(UrlOf, sel);
    SampleExists(vs, PATH_SAMPLES_CAP);
    assert forall i :: 0 <= i < |sel| ==> vs[i] == sel[i].raw.sampleUrl && vs[i] in vs && sel[i] in sel;
    var r := Samples(vs, PATH_SAMPLES_CAP);
    assert r != [] ==> r[0] in SamplesOf(sel).paths;
  }

  lemma {:induction false} ClientColumn(sel: seq<Signal>)
    ensures SamplesOf(sel).clients != {} <==> HasClient(sel)
  {
    var vs := Map(ClientIpOf, sel);
    SampleExists(vs, CLIENT_SAMPLES_CAP);
    assert forall i :: 0 <= i < |sel| ==> vs[i] == sel[i].raw.clientIp && vs[i] in vs && sel[i] in sel;
    var r := Samples(vs, CLIENT_SAMPLES_CAP);
    assert r != [] ==> r[0] in SamplesOf(sel).clients;
  }

  lemma {:induction false} StatusColumn(sel: seq<Signal>)
    ensures SamplesOf(sel).statuses != {} <==> HasStatus(sel)
  {
    var codes := Statuses(sel);
    StatusExists(sel);
    DistinctElements(codes);
    assert codes != [] ==> codes[0] in SamplesOf(sel).statuses;
  }

  lemma {:induction false} StatusExists(sel: seq<Signal>)
    ensures Statuses(sel) != [] <==> HasStatus(sel)
  {
    if sel == [] {
    } else {
      var init, last := sel[..|sel| - 1], sel[|sel| - 1];
      StatusExists(init);
      HasStatusConcat(init, [last]);
      assert sel == init + [last];
    }
  }

  lemma {:induction false} HasUrlConcat(a: seq<Signal>, b: seq<Signal>)
    ensures HasUrl(a + b) <==> HasUrl(a) || HasUrl(b)
  {
    assert forall s :: s in a + b <==> s in a || s in b;
  }

  lemma {:induction false} HasClientConcat(a: seq<Signal>, b: seq<Signal>)
    ensures HasClient(a + b) <==> HasClient(a) || HasClient(b)
  {
    assert forall s :: s in a + b <==> s in a || s in b;
  }

  lemma {:induction false} HasStatusConcat(a: seq<Signal>, b: seq<Signal>)
    ensures HasStatus(a + b) <==> HasStatus(a) || HasStatus(b)
  {
    assert forall s :: s in a + b <==> s in a || s in b;
  }

  /** A column of the merged row has a value exactly when some signal does:
      caps and duplicates never empty it. */
  lemma {:induction false} ColumnsOf(sel: seq<Signal>)
    ensures var a := SamplesOf(sel);
            && (a.paths != {} <==> HasUrl(sel)) && (a.clients != {} <==> HasClient(sel))
            && (a.statuses != {} <==> HasStatus(sel))
  {
    UrlColumn(sel);
    ClientColumn(sel);
    StatusColumn(sel);
  }

  lemma {:induction false} FillsIsFilled(stored: SampleSets, sel: seq<Signal>)
    ensures IsFilled(United(stored, SamplesOf(sel))) <==> Fills(stored, sel)
  {
    ColumnsOf(sel);
  }

  /** The table can take the signals that carry this key. */
  predicate Takes(n: Normalizer, d: Discovered, signals: seq<Signal>, key: MergeKey) {
    key in d.rows && Select(n, signals, key) != [] ==> Fills(d.rows[key].samples, Select(n, signals, key))
  }

  lemma {:induction false} AcceptedIff(n: Normalizer, d: Discovered, c: Cycle, r: MergedRow)
    requires ValidCycle(n, c) && r in c.merged
    ensures IsAccepted(d, r) <==> Takes(n, d, c.signals, r.key)
  {
    var sel := Select(n, c.signals, r.key);
    SamplesOfRow(n, c.window, r.key, sel);
    if r.key in d.rows {
      FillsIsFilled(d.rows[r.key].samples, sel);
    }
  }

  /** When the batch of a cycle commits. */
  lemma {:induction false} CycleCommitsIff(n: Normalizer, d: Discovered, c: Cycle)
    requires ValidCycle(n, c)
    ensures Commits(d, c.merged) <==> forall key :: Takes(n, d, c.signals, key)
  {
    MergedKeysDistinct(c.merged);
    CommitsIff(d, c.merged);
    forall r | r in c.merged ensures IsAccepted(d, r) <==> Takes(n, d, c.signals, r.key) {
      AcceptedIff(n, d, c, r);
    }
    forall key | Select(n, c.signals, key) != [] ensures exists r :: r in c.merged && r.key == key {
      assert FullRow(n, c.window, key, Select(n, c.signals, key)).key == key;
    }
  }

  lemma {:induction false} FillsPart(stored: SampleSets, a: seq<Signal>, b: seq<Signal>)
    requires !Fills(stored, a + b)
    ensures !Fills(stored, a) && !Fills(stored, b)
  {
    HasUrlConcat(a, b);
    HasClientConcat(a, b);
    HasStatusConcat(a, b);
  }

  /** A key with an empty column that the signals of the cycle do not fill
      keeps its row as it is. */
  lemma {:induction false} StuckCycle(n: Normalizer, d: Discovered, c: Cycle, key: MergeKey)
    requires ValidCycle(n, c) && key in d.rows && !Fills(d.rows[key].samples, Select(n, c.signals, key))
    ensures Commits(d, c.merged) ==> Select(n, c.signals, key) == []
    ensures RowAt(AfterBatch(d, c.merged), key) == RowAt(d, key)
  {
    CycleCommitsIff(n, d, c);
    assert Takes(n, d, c.signals, key) ==> Select(n, c.signals, key) == [];
    CycleAt(n, d, c, key);
  }

  lemma {:induction false} NoSamples()
    ensures SamplesOf([]) == NO_SAMPLES
  {
    ColumnsOf([]);
  }

  /** A cycle adds its samples to those of a row. */
  lemma {:induction false} CycleSamples(n: Normalizer, d: Discovered, c: Cycle, key: MergeKey)
    requires ValidCycle(n, c) && key in d.rows
    ensures var after, sel := UpsertAll(d, c.merged), Select(n, c.signals, key);
            key in after.rows && after.rows[key].samples == United(d.rows[key].samples, SamplesOf(sel))
  {
    var sel := Select(n, c.signals, key);
    CycleAt(n, d, c, key);
    if sel == [] {
      NoSamples();
    } else {
      SamplesOfRow(n, c.window, key, sel);
    }
  }
}
