/** Cycle after cycle: what their upserts leave in the table of discovered
    APIs, compared with one merge over everything they saw
    (internal/store/discovered_repo.go, internal/discovery/merger.go). */
module History {
  import opened Callers
  import opened Classifier
  import opened Counting
  import opened DiscoveredTable
  import opened MergedRows
  import opened Merger
  import opened Normalizer
  import opened Options
  import opened SampleColumns
  import opened Sequences

  // ---------------------------------------------------------------- cycles

  function SignalsOf(cycles: seq<Cycle>): seq<Signal> {
    if cycles == [] then [] else SignalsOf(cycles[..|cycles| - 1]) + cycles[|cycles| - 1].signals
  }

  /** The table after these cycles, starting from `d`. */
  function TableAfter(d: Discovered, cycles: seq<Cycle>): Discovered {
    if cycles == [] then d else AfterBatch(TableAfter(d, cycles[..|cycles| - 1]), cycles[|cycles| - 1].merged)
  }

  /** The cycles among them whose batch commits. */
  function Committed(d: Discovered, cycles: seq<Cycle>): seq<Cycle> {
    if cycles == [] then []
    else
      var init, c := cycles[..|cycles| - 1], cycles[|cycles| - 1];
      if Commits(TableAfter(d, init), c.merged) then Committed(d, init) + [c] else Committed(d, init)
  }

  predicate AllCommit(d: Discovered, cycles: seq<Cycle>) {
    cycles == [] ||
    (AllCommit(d, cycles[..|cycles| - 1]) &&
     Commits(TableAfter(d, cycles[..|cycles| - 1]), cycles[|cycles| - 1].merged))
  }

  ghost predicate AllValid(n: Normalizer, cycles: seq<Cycle>) {
    forall i :: 0 <= i < |cycles| ==> ValidCycle(n, cycles[i])
  }

  /** What the cycles saw of one key, cycle by cycle. */
  function Touches(n: Normalizer, cycles: seq<Cycle>, key: MergeKey): seq<seq<Signal>> {
    if cycles == [] then []
    else
      var init, sel := Touches(n, cycles[..|cycles| - 1], key), Select(n, cycles[|cycles| - 1].signals, key);
      if sel == [] then init else init + [sel]
  }

  function Flat(touches: seq<seq<Signal>>): seq<Signal> {
    if touches == [] then [] else Flat(touches[..|touches| - 1]) + touches[|touches| - 1]
  }

  lemma {:induction false} FlatSnoc(touches: seq<seq<Signal>>, sel: seq<Signal>)
    ensures Flat(touches + [sel]) == Flat(touches) + sel
  {
    assert (touches + [sel])[..|touches|] == touches;
  }

  lemma {:induction false} FlatTouches(n: Normalizer, cycles: seq<Cycle>, key: MergeKey)
    ensures Flat(Touches(n, cycles, key)) == Select(n, SignalsOf(cycles), key)
  {
    if cycles == [] {
    } else {
      var init, signals := cycles[..|cycles| - 1], cycles[|cycles| - 1].signals;
      FlatTouches(n, init, key);
      FilterConcat(KeyIs(n, key), SignalsOf(init), signals);
      FlatSnoc(Touches(n, init, key), Select(n, signals, key));
    }
  }

  lemma {:induction false} TouchesNonempty(n: Normalizer, cycles: seq<Cycle>, key: MergeKey)
    ensures Touches(n, cycles, key) != [] ==> Touches(n, cycles, key)[0] != []
  {
    if cycles == [] {
    } else {
      TouchesNonempty(n, cycles[..|cycles| - 1], key);
    }
  }

  lemma {:induction false} FlatStart(touches: seq<seq<Signal>>)
    ensures |touches| == 0 ==> Flat(touches) == []
    ensures |touches| == 1 ==> Flat(touches) == touches[0]
    ensures |touches| >= 2 ==> touches[0] + touches[1] <= Flat(touches)
  {
    if |touches| <= 1 {
    } else {
      FlatStart(touches[..|touches| - 1]);
    }
  }

  /** The samples of several cycles, united. */
  function UnionOf(touches: seq<seq<Signal>>): SampleSets {
    if touches == [] then NO_SAMPLES else United(UnionOf(touches[..|touches| - 1]), SamplesOf(touches[|touches| - 1]))
  }

  lemma {:induction false} UnionSnoc(touches: seq<seq<Signal>>, sel: seq<Signal>)
    ensures UnionOf(touches + [sel]) == United(UnionOf(touches), SamplesOf(sel))
  {
    assert (touches + [sel])[..|touches|] == touches;
  }

  lemma {:induction false} UnionColumns(touches: seq<seq<Signal>>)
    ensures var a, all := UnionOf(touches), Flat(touches);
            && (a.paths != {} <==> HasUrl(all)) && (a.clients != {} <==> HasClient(all))
            && (a.statuses != {} <==> HasStatus(all))
  {
    if touches == [] {
    } else {
      var init, last := touches[..|touches| - 1], touches[|touches| - 1];
      UnionColumns(init);
      ColumnsOf(last);
      HasUrlConcat(Flat(init), last);
      HasClientConcat(Flat(init), last);
      HasStatusConcat(Flat(init), last);
    }
  }

  lemma {:induction false} FillsConcat(a: seq<Signal>, b: seq<Signal>)
    ensures Fills(NO_SAMPLES, a) ==> Fills(NO_SAMPLES, a + b)
  {
    HasUrlConcat(a, b);
    HasClientConcat(a, b);
    HasStatusConcat(a, b);
  }

  /** The first two cycles that saw the key leave one of its columns empty. */
  predicate LeavesEmpty(touches: seq<seq<Signal>>) {
    |touches| >= 2 && !Fills(NO_SAMPLES, touches[0] + touches[1])
  }

  lemma {:induction false} LeavesEmptySnoc(touches: seq<seq<Signal>>, sel: seq<Signal>)
    requires touches != []
    ensures LeavesEmpty(touches + [sel]) <==> LeavesEmpty(touches) || !Fills(UnionOf(touches), sel)
  {
    FlatStart(touches);
    UnionColumns(touches);
    if |touches| == 1 {
      HasUrlConcat(touches[0], sel);
      HasClientConcat(touches[0], sel);
      HasStatusConcat(touches[0], sel);
    } else {
      var two := touches[0] + touches[1];
      FillsConcat(two, Flat(touches)[|two|..]);
      assert two + Flat(touches)[|two|..] == Flat(touches);
    }
  }

  /** The first two cycles that saw the key counted no rows at all. */
  predicate StartsEmpty(touches: seq<seq<Signal>>) {
    |touches| >= 2 && Total(touches[0]).Rows() + Total(touches[1]).Rows() == 0
  }

  lemma {:induction false} StartsEmptySnoc(touches: seq<seq<Signal>>, sel: seq<Signal>)
    requires touches != []
    ensures StartsEmpty(touches + [sel])
            <==> StartsEmpty(touches) || Total(Flat(touches)).Rows() + Total(sel).Rows() == 0
  {
    RowsSoFar(touches);
  }

  lemma {:induction false} RowsSoFar(touches: seq<seq<Signal>>)
    requires touches != []
    ensures if |touches| == 1 then Total(Flat(touches)).Rows() == Total(touches[0]).Rows()
            else Total(Flat(touches)).Rows() >= Total(touches[0]).Rows() + Total(touches[1]).Rows()
  {
    FlatStart(touches);
    if |touches| >= 2 {
      var two := touches[0] + touches[1];
      assert two + Flat(touches)[|two|..] == Flat(touches);
      TotalConcat(touches[0], touches[1]);
      TotalConcat(two, Flat(touches)[|two|..]);
    }
  }

  // ------------------------------------------------- histories that commit

  /** The row is what these cycles make of its key. */
  ghost predicate HistoryOf(row: DiscoveredRow, touches: seq<seq<Signal>>) {
    && touches != [] && SameCounts(row, Total(Flat(touches))) && row.isActive && row.samples == UnionOf(touches)
    && row.topClients == TopClients(touches[|touches| - 1])
    && (if StartsEmpty(touches) then row.avgDurationUs == None else MeanKept(row, Total(Flat(touches))))
  }

  lemma {:induction false} HistoryStep(
    row: DiscoveredRow, touches: seq<seq<Signal>>, n: Normalizer, window: WindowId, key: MergeKey, sel: seq<Signal>)
    requires HistoryOf(row, touches) && sel != []
    ensures HistoryOf(Updated(row, FullRow(n, window, key, sel)), touches + [sel])
  {
    CountsMeaning(Flat(touches));
    UpdateCombines(row, Total(Flat(touches)), n, window, key, sel);
    TotalConcat(Flat(touches), sel);
    FlatSnoc(touches, sel);
    StartsEmptySnoc(touches, sel);
    UnionSnoc(touches, sel);
    SamplesOfRow(n, window, key, sel);
  }

  lemma {:induction false} OneTouch(sel: seq<Signal>)
    ensures Flat([sel]) == sel && UnionOf([sel]) == SamplesOf(sel)
  {
    FlatSnoc([], sel);
    UnionSnoc([], sel);
    assert [] + [sel] == [sel];
  }

  lemma {:induction false} HistoryStart(born: nat, n: Normalizer, window: WindowId, key: MergeKey, sel: seq<Signal>)
    requires sel != []
    ensures HistoryOf(Inserted(born, FullRow(n, window, key, sel)), [sel])
  {
    InsertCounts(born, n, window, key, sel);
    OneTouch(sel);
    SamplesOfRow(n, window, key, sel);
  }

  lemma {:induction false} HistoryAt(n: Normalizer, cycles: seq<Cycle>, key: MergeKey)
    requires AllValid(n, cycles) && AllCommit(EMPTY_TABLE, cycles)
    ensures var table, touches := TableAfter(EMPTY_TABLE, cycles), Touches(n, cycles, key);
            && (key in table.rows <==> touches != [])
            && (key in table.rows ==> HistoryOf(table.rows[key], touches))
  {
    if cycles == [] {
    } else {
      var init, c := cycles[..|cycles| - 1], cycles[|cycles| - 1];
      HistoryAt(n, init, key);
      var table, sel := TableAfter(EMPTY_TABLE, init), Select(n, c.signals, key);
      CycleAt(n, table, c, key);
      if sel == [] {
      } else if key in table.rows {
        HistoryStep(table.rows[key], Touches(n, init, key), n, c.window, key, sel);
      } else {
        HistoryStart(UpsertAll(table, c.merged).rows[key].born, n, c.window, key, sel);
      }
    }
  }

  /** One more cycle commits exactly when it leaves no column empty that the
      first cycle of the key left empty. */
  lemma {:induction false} TakesIff(n: Normalizer, init: seq<Cycle>, c: Cycle, key: MergeKey)
    requires AllValid(n, init) && AllCommit(EMPTY_TABLE, init) && !LeavesEmpty(Touches(n, init, key))
    ensures Takes(n, TableAfter(EMPTY_TABLE, init), c.signals, key) <==> !LeavesEmpty(Touches(n, init + [c], key))
  {
    HistoryAt(n, init, key);
    assert (init + [c])[..|init|] == init;
    var touches, sel := Touches(n, init, key), Select(n, c.signals, key);
    if touches != [] && sel != [] {
      LeavesEmptySnoc(touches, sel);
    }
  }

  lemma {:induction false} StaysLeftEmpty(n: Normalizer, init: seq<Cycle>, c: Cycle, key: MergeKey)
    requires LeavesEmpty(Touches(n, init, key))
    ensures LeavesEmpty(Touches(n, init + [c], key))
  {
    assert (init + [c])[..|init|] == init;
  }

  ghost predicate NoneLeftEmpty(n: Normalizer, cycles: seq<Cycle>) {
    forall key :: !LeavesEmpty(Touches(n, cycles, key))
  }

  lemma {:induction false} AllCommitStep(n: Normalizer, init: seq<Cycle>, c: Cycle)
    requires AllValid(n, init) && ValidCycle(n, c) && AllCommit(EMPTY_TABLE, init) && NoneLeftEmpty(n, init)
    ensures Commits(TableAfter(EMPTY_TABLE, init), c.merged) <==> NoneLeftEmpty(n, init + [c])
  {
    CycleCommitsIff(n, TableAfter(EMPTY_TABLE, init), c);
    forall key
      ensures Takes(n, TableAfter(EMPTY_TABLE, init), c.signals, key) <==> !LeavesEmpty(Touches(n, init + [c], key))
    {
      TakesIff(n, init, c, key);
    }
  }

  /** All batches of a history commit exactly if there is no key of which the
      first two cycles that saw it bring no URL, no client address or no
      status. A batch that does not commit loses all its rows. */
  lemma {:induction false} AllCommitIff(n: Normalizer, cycles: seq<Cycle>)
    requires AllValid(n, cycles)
    ensures AllCommit(EMPTY_TABLE, cycles) <==> NoneLeftEmpty(n, cycles)
  {
    if cycles == [] {
    } else {
      var init, c := cycles[..|cycles| - 1], cycles[|cycles| - 1];
      AllCommitIff(n, init);
      assert cycles == init + [c];
      if AllCommit(EMPTY_TABLE, init) {
        AllCommitStep(n, init, c);
      } else {
        var key :| LeavesEmpty(Touches(n, init, key));
        StaysLeftEmpty(n, init, c, key);
      }
    }
  }

  // ------------------------------------------------ the two folds compared

  /** The table row says what the row of one big merge says; `lost` tells
      whether its average is NULL. */
  ghost predicate SameAsMerged(row: DiscoveredRow, r: MergedRow, lost: bool) {
    && row.observationCount == r.rowCount && row.flowCount == r.flowCount
    && row.internalFlows == r.internalFlows && row.externalFlows == r.externalFlows
    && row.firstSeen == r.firstSeen && row.lastSeen == r.lastSeen && row.isActive
    && row.avgDurationUs == if lost then None else Some(r.avgDurationUs)
  }

  /** The same keys, and under each key the same counts, flows and times, and
      the same average unless the first two of the cycles counted no rows. */
  ghost predicate Mirrors(n: Normalizer, table: Discovered, cycles: seq<Cycle>, whole: seq<MergedRow>) {
    && (forall key :: key in table.rows <==> exists r :: r in whole && r.key == key)
    && (forall r :: r in whole && r.key in table.rows ==>
          SameAsMerged(table.rows[r.key], r, StartsEmpty(Touches(n, cycles, r.key))))
  }

  lemma {:induction false} MergedKeys(
    n: Normalizer, window: WindowId, signals: seq<Signal>, whole: seq<MergedRow>, key: MergeKey)
    requires IsMerge(n, window, signals, whole)
    ensures (exists r :: r in whole && r.key == key) <==> Select(n, signals, key) != []
  {
    if Select(n, signals, key) != [] {
      assert FullRow(n, window, key, Select(n, signals, key)).key == key;
    }
  }

  lemma {:induction false} KeyMirrored(
    n: Normalizer, cycles: seq<Cycle>, window: WindowId, whole: seq<MergedRow>, key: MergeKey)
    requires AllValid(n, cycles) && AllCommit(EMPTY_TABLE, cycles) && IsMerge(n, window, SignalsOf(cycles), whole)
    ensures var table := TableAfter(EMPTY_TABLE, cycles);
            && (key in table.rows <==> exists r :: r in whole && r.key == key)
            && (forall r :: r in whole && r.key == key && key in table.rows ==>
                  SameAsMerged(table.rows[key], r, StartsEmpty(Touches(n, cycles, key))))
  {
    MergedKeys(n, window, SignalsOf(cycles), whole, key);
    HistoryAt(n, cycles, key);
    FlatTouches(n, cycles, key);
    FlatStart(Touches(n, cycles, key));
    TouchesNonempty(n, cycles, key);
    CountsMeaning(Select(n, SignalsOf(cycles), key));
  }

  lemma {:induction false} CommittingMirrors(n: Normalizer, cycles: seq<Cycle>, window: WindowId, whole: seq<MergedRow>)
    requires AllValid(n, cycles) && AllCommit(EMPTY_TABLE, cycles) && IsMerge(n, window, SignalsOf(cycles), whole)
    ensures Mirrors(n, TableAfter(EMPTY_TABLE, cycles), cycles, whole)
  {
    forall key
      ensures var table := TableAfter(EMPTY_TABLE, cycles);
              && (key in table.rows <==> exists r :: r in whole && r.key == key)
              && (forall r :: r in whole && r.key == key && key in table.rows ==>
                    SameAsMerged(table.rows[key], r, StartsEmpty(Touches(n, cycles, key))))
    {
      KeyMirrored(n, cycles, window, whole, key);
    }
  }

  lemma {:induction false} CommittedSnoc(d: Discovered, init: seq<Cycle>, c: Cycle)
    ensures Committed(d, init + [c]) ==
            if Commits(TableAfter(d, init), c.merged) then Committed(d, init) + [c] else Committed(d, init)
    ensures TableAfter(d, init + [c]) == AfterBatch(TableAfter(d, init), c.merged)
    ensures AllCommit(d, init + [c]) <==> AllCommit(d, init) && Commits(TableAfter(d, init), c.merged)
  {
    assert (init + [c])[..|init|] == init;
  }

  lemma {:induction false} CommittedValid(n: Normalizer, d: Discovered, cycles: seq<Cycle>)
    requires AllValid(n, cycles)
    ensures AllValid(n, Committed(d, cycles))
  {
    if cycles == [] {
    } else {
      CommittedValid(n, d, cycles[..|cycles| - 1]);
    }
  }

  /** A batch that is rolled back might as well not have been sent. */
  lemma {:induction false} CommittedAlone(d: Discovered, cycles: seq<Cycle>)
    ensures var committed := Committed(d, cycles);
            && AllCommit(d, committed) && TableAfter(d, committed) == TableAfter(d, cycles)
            && (AllCommit(d, cycles) ==> committed == cycles)
  {
    if cycles == [] {
    } else {
      var init, c := cycles[..|cycles| - 1], cycles[|cycles| - 1];
      CommittedAlone(d, init);
      assert init + [c] == cycles;
      CommittedSnoc(d, init, c);
      CommittedSnoc(d, Committed(d, init), c);
    }
  }

  /** The two folds are one. However a history of signals is split into
      cycles, and whichever of their batches are rolled back, the table mirrors
      one merge over all signals of the batches that committed. */
  lemma {:induction false} HistoryPreserved(n: Normalizer, cycles: seq<Cycle>, window: WindowId, whole: seq<MergedRow>)
    requires AllValid(n, cycles)
    requires IsMerge(n, window, SignalsOf(Committed(EMPTY_TABLE, cycles)), whole)
    ensures Mirrors(n, TableAfter(EMPTY_TABLE, cycles), Committed(EMPTY_TABLE, cycles), whole)
  {
    CommittedValid(n, EMPTY_TABLE, cycles);
    CommittedAlone(EMPTY_TABLE, cycles);
    CommittingMirrors(n, Committed(EMPTY_TABLE, cycles), window, whole);
  }

  lemma {:induction false} RefusedKey(n: Normalizer, d: Discovered, c: Cycle) returns (key: MergeKey)
    requires ValidCycle(n, c) && !Commits(d, c.merged)
    ensures key in d.rows && Select(n, c.signals, key) != [] && !Fills(d.rows[key].samples, Select(n, c.signals, key))
  {
    CycleCommitsIff(n, d, c);
    key :| !Takes(n, d, c.signals, key);
  }

  lemma {:induction false} SelectedSizes(n: Normalizer, d: Discovered, init: seq<Cycle>, c: Cycle, key: MergeKey)
    ensures var all, kept := SignalsOf(init + [c]), SignalsOf(Committed(d, init + [c]));
            var commits := Commits(TableAfter(d, init), c.merged);
            && |Select(n, all, key)| == |Select(n, SignalsOf(init), key)| + |Select(n, c.signals, key)|
            && |Select(n, kept, key)| == |Select(n, SignalsOf(Committed(d, init)), key)| +
                                         if commits then |Select(n, c.signals, key)| else 0
  {
    assert (init + [c])[..|init|] == init;
    CommittedSnoc(d, init, c);
    FilterConcat(KeyIs(n, key), SignalsOf(init), c.signals);
    var before := Committed(d, init);
    assert (before + [c])[..|before|] == before;
    FilterConcat(KeyIs(n, key), SignalsOf(before), c.signals);
  }

  lemma {:induction false} NothingAdded(n: Normalizer, d: Discovered, cycles: seq<Cycle>, key: MergeKey)
    ensures |Select(n, SignalsOf(Committed(d, cycles)), key)| <= |Select(n, SignalsOf(cycles), key)|
  {
    if cycles == [] {
    } else {
      var init, c := cycles[..|cycles| - 1], cycles[|cycles| - 1];
      NothingAdded(n, d, init, key);
      assert cycles == init + [c];
      SelectedSizes(n, d, init, c, key);
    }
  }

  /** Once a batch has been rolled back, some key is missing signals for good. */
  lemma {:induction false} SomethingLost(n: Normalizer, d: Discovered, cycles: seq<Cycle>) returns (key: MergeKey)
    requires AllValid(n, cycles) && !AllCommit(d, cycles)
    ensures |Select(n, SignalsOf(Committed(d, cycles)), key)| < |Select(n, SignalsOf(cycles), key)|
  {
    var init, c := cycles[..|cycles| - 1], cycles[|cycles| - 1];
    assert cycles == init + [c];
    if AllCommit(d, init) {
      key := RefusedKey(n, TableAfter(d, init), c);
      NothingAdded(n, d, init, key);
    } else {
      key := SomethingLost(n, d, init);
    }
    SelectedSizes(n, d, init, c, key);
  }

  lemma {:induction false} FlowsOfCommitted(n: Normalizer, cycles: seq<Cycle>, key: MergeKey)
    requires AllValid(n, cycles) && key in TableAfter(EMPTY_TABLE, cycles).rows
    ensures TableAfter(EMPTY_TABLE, cycles).rows[key].flowCount ==
            |Select(n, SignalsOf(Committed(EMPTY_TABLE, cycles)), key)|
  {
    var committed := Committed(EMPTY_TABLE, cycles);
    CommittedValid(n, EMPTY_TABLE, cycles);
    CommittedAlone(EMPTY_TABLE, cycles);
    HistoryAt(n, committed, key);
    FlatTouches(n, committed, key);
    CountsMeaning(Select(n, SignalsOf(committed), key));
  }

  lemma {:induction false} MirroredFlows(n: Normalizer, table: Discovered, cycles: seq<Cycle>, window: WindowId,
                                         whole: seq<MergedRow>, key: MergeKey)
    requires IsMerge(n, window, SignalsOf(cycles), whole) && Mirrors(n, table, cycles, whole)
    requires Select(n, SignalsOf(cycles), key) != []
    ensures key in table.rows && table.rows[key].flowCount == |Select(n, SignalsOf(cycles), key)|
  {
    MergedKeys(n, window, SignalsOf(cycles), whole, key);
    var r :| r in whole && r.key == key;
    CountsMeaning(Select(n, SignalsOf(cycles), key));
    assert SameAsMerged(table.rows[r.key], r, StartsEmpty(Touches(n, cycles, r.key)));
  }

  lemma {:induction false} LostIsVisible(n: Normalizer, cycles: seq<Cycle>, window: WindowId, whole: seq<MergedRow>)
    requires AllValid(n, cycles) && IsMerge(n, window, SignalsOf(cycles), whole) && !AllCommit(EMPTY_TABLE, cycles)
    ensures !Mirrors(n, TableAfter(EMPTY_TABLE, cycles), cycles, whole)
  {
    var key := SomethingLost(n, EMPTY_TABLE, cycles);
    if Mirrors(n, TableAfter(EMPTY_TABLE, cycles), cycles, whole) {
      MirroredFlows(n, TableAfter(EMPTY_TABLE, cycles), cycles, window, whole, key);
      FlowsOfCommitted(n, cycles, key);
      assert false;
    }
  }

  /** The table mirrors one merge over the whole history exactly if the first
      two cycles of no key leave one of its columns empty. */
  lemma {:induction false} HistoryMirroredIff(n: Normalizer, cycles: seq<Cycle>, window: WindowId, whole: seq<MergedRow>)
    requires AllValid(n, cycles) && IsMerge(n, window, SignalsOf(cycles), whole)
    ensures Mirrors(n, TableAfter(EMPTY_TABLE, cycles), cycles, whole) <==> NoneLeftEmpty(n, cycles)
  {
    AllCommitIff(n, cycles);
    if AllCommit(EMPTY_TABLE, cycles) {
      CommittingMirrors(n, cycles, window, whole);
    } else {
      LostIsVisible(n, cycles, window, whole);
    }
  }

  // ------------------------------------------- what else cycles accumulate

  /** The samples of a row are those of the committed cycles that saw its key,
      united: the caps hold for each cycle, not for the row. The top callers
      are those of the last such cycle. */
  lemma {:induction false} SamplesAreUnions(n: Normalizer, cycles: seq<Cycle>, key: MergeKey)
    requires AllValid(n, cycles) && key in TableAfter(EMPTY_TABLE, cycles).rows
    ensures var row, touches := TableAfter(EMPTY_TABLE, cycles).rows[key],
                                Touches(n, Committed(EMPTY_TABLE, cycles), key);
            touches != [] && row.samples == UnionOf(touches) && row.topClients == TopClients(touches[|touches| - 1])
  {
    CommittedValid(n, EMPTY_TABLE, cycles);
    CommittedAlone(EMPTY_TABLE, cycles);
    HistoryAt(n, Committed(EMPTY_TABLE, cycles), key);
  }

  /** The merged rows of the cycles that saw the key, in order. */
  function MergedFor(n: Normalizer, cycles: seq<Cycle>, key: MergeKey): seq<MergedRow> {
    if cycles == [] then []
    else
      var c := cycles[|cycles| - 1];
      var init, sel := MergedFor(n, cycles[..|cycles| - 1], key), Select(n, c.signals, key);
      if sel == [] then init else init + [FullRow(n, c.window, key, sel)]
  }

  /** The last value that is not blank; blank if all are. */
  ghost predicate IsLastFilled(r: string, value: MergedRow -> string, merged: seq<MergedRow>) {
    || (r == "" && forall i :: 0 <= i < |merged| ==> value(merged[i]) == "")
    || (exists i :: 0 <= i < |merged| && value(merged[i]) == r != ""
                    && forall j :: i < j < |merged| ==> value(merged[j]) == "")
  }

  /** The columns that are neither counted nor collected: the last pod,
      workload and domain known, the largest number of clients of one cycle,
      and version, window and top callers of the last cycle. */
  ghost predicate LatestOf(row: DiscoveredRow, merged: seq<MergedRow>) {
    && merged != []
    && IsLastFilled(row.samplePod, (r: MergedRow) => r.samplePod, merged)
    && IsLastFilled(row.sampleWorkload, (r: MergedRow) => r.sampleWorkload, merged)
    && IsLastFilled(row.requestDomain, (r: MergedRow) => r.requestDomain, merged)
    && (exists i :: 0 <= i < |merged| && merged[i].distinctClientCount == row.distinctClientCount)
    && (forall i :: 0 <= i < |merged| ==> merged[i].distinctClientCount <= row.distinctClientCount)
    && var last := merged[|merged| - 1];
       row.version == last.version && row.window == last.window && row.topClients == last.topClients
  }

  lemma {:induction false} LastFilledSnoc(
    existing: string, excluded: string, value: MergedRow -> string, merged: seq<MergedRow>, r: MergedRow)
    requires IsLastFilled(existing, value, merged) && excluded == value(r)
    ensures IsLastFilled(KeepUnlessBlank(excluded, existing), value, merged + [r])
  {
    var all := merged + [r];
    assert all[|merged|] == r && forall i :: 0 <= i < |merged| ==> all[i] == merged[i];
    if excluded == "" && existing != "" {
      var i :| 0 <= i < |merged| && value(merged[i]) == existing != ""
               && forall j :: i < j < |merged| ==> value(merged[j]) == "";
      assert value(all[i]) == existing;
    }
  }

  lemma {:induction false} LatestStep(row: DiscoveredRow, merged: seq<MergedRow>, r: MergedRow)
    requires LatestOf(row, merged)
    ensures LatestOf(Updated(row, r), merged + [r])
  {
    var all, after := merged + [r], Updated(row, r);
    LastFilledSnoc(row.samplePod, r.samplePod, (r: MergedRow) => r.samplePod, merged, r);
    LastFilledSnoc(row.sampleWorkload, r.sampleWorkload, (r: MergedRow) => r.sampleWorkload, merged, r);
    LastFilledSnoc(row.requestDomain, r.requestDomain, (r: MergedRow) => r.requestDomain, merged, r);
    MostClients(row.distinctClientCount, merged, r);
  }

  lemma {:induction false} MostClients(most: nat, merged: seq<MergedRow>, r: MergedRow)
    requires exists i :: 0 <= i < |merged| && merged[i].distinctClientCount == most
    requires forall i :: 0 <= i < |merged| ==> merged[i].distinctClientCount <= most
    ensures var all := merged + [r];
            var more := if r.distinctClientCount > most then r.distinctClientCount else most;
            && (exists i :: 0 <= i < |all| && all[i].distinctClientCount == more)
            && (forall i :: 0 <= i < |all| ==> all[i].distinctClientCount <= more)
  {
    var all := merged + [r];
    var i :| 0 <= i < |merged| && merged[i].distinctClientCount == most;
    assert all[i] == merged[i] && all[|merged|] == r;
  }

  lemma {:induction false} LatestStart(born: nat, r: MergedRow)
    ensures LatestOf(Inserted(born, r), [r])
  {
    assert [r][0] == r;
  }

  lemma {:induction false} LatestAt(n: Normalizer, cycles: seq<Cycle>, key: MergeKey)
    requires AllValid(n, cycles) && AllCommit(EMPTY_TABLE, cycles)
    ensures var table, merged := TableAfter(EMPTY_TABLE, cycles), MergedFor(n, cycles, key);
            (key in table.rows <==> merged != []) && (key in table.rows ==> LatestOf(table.rows[key], merged))
  {
    if cycles == [] {
    } else {
      var init, c := cycles[..|cycles| - 1], cycles[|cycles| - 1];
      LatestAt(n, init, key);
      var table, sel := TableAfter(EMPTY_TABLE, init), Select(n, c.signals, key);
      CycleAt(n, table, c, key);
      if sel == [] {
      } else if key in table.rows {
        LatestStep(table.rows[key], MergedFor(n, init, key), FullRow(n, c.window, key, sel));
      } else {
        LatestStart(UpsertAll(table, c.merged).rows[key].born, FullRow(n, c.window, key, sel));
        assert MergedFor(n, cycles, key) == [FullRow(n, c.window, key, sel)];
      }
    }
  }

  /** The remaining columns of every row, after every history. */
  lemma {:induction false} LatestColumns(n: Normalizer, cycles: seq<Cycle>, key: MergeKey)
    requires AllValid(n, cycles) && key in TableAfter(EMPTY_TABLE, cycles).rows
    ensures LatestOf(TableAfter(EMPTY_TABLE, cycles).rows[key], MergedFor(n, Committed(EMPTY_TABLE, cycles), key))
  {
    CommittedValid(n, EMPTY_TABLE, cycles);
    CommittedAlone(EMPTY_TABLE, cycles);
    LatestAt(n, Committed(EMPTY_TABLE, cycles), key);
  }

  /** Which samples these are. */
  lemma {:induction false} UnionElements(touches: seq<seq<Signal>>)
    ensures forall p :: p in UnionOf(touches).paths <==>
              exists i :: 0 <= i < |touches| && p in SamplesOf(touches[i]).paths
    ensures forall c :: c in UnionOf(touches).clients <==>
              exists i :: 0 <= i < |touches| && c in SamplesOf(touches[i]).clients
    ensures forall v :: v in UnionOf(touches).statuses <==>
              exists i :: 0 <= i < |touches| && v in SamplesOf(touches[i]).statuses
  {
    if touches == [] {
    } else {
      var init, last := touches[..|touches| - 1], touches[|touches| - 1];
      UnionElements(init);
      assert forall i :: 0 <= i < |touches| ==> touches[i] == if i < |init| then init[i] else last;
    }
  }

  // ----------------------------------------------------------- rolled back

  /** A row with an empty column that no later signal of its key fills stays as
      upserts found it: none of the cycles that see the key commits, and all
      their other rows are lost with it. */
  lemma {:induction false} StuckForever(n: Normalizer, d: Discovered, cycles: seq<Cycle>, key: MergeKey)
    requires AllValid(n, cycles) && key in d.rows
    requires !Fills(d.rows[key].samples, Select(n, SignalsOf(cycles), key))
    ensures RowAt(TableAfter(d, cycles), key) == RowAt(d, key)
    ensures Select(n, SignalsOf(Committed(d, cycles)), key) == []
  {
    if cycles == [] {
    } else {
      var init, c := cycles[..|cycles| - 1], cycles[|cycles| - 1];
      assert cycles == init + [c];
      FilterConcat(KeyIs(n, key), SignalsOf(init), c.signals);
      FillsPart(d.rows[key].samples, Select(n, SignalsOf(init), key), Select(n, c.signals, key));
      StuckForever(n, d, init, key);
      StuckCycle(n, TableAfter(d, init), c, key);
      SelectedSizes(n, d, init, c, key);
    }
  }

  lemma {:induction false} TableConcat(d: Discovered, a: seq<Cycle>, b: seq<Cycle>)
    ensures TableAfter(d, a + b) == TableAfter(TableAfter(d, a), b)
  {
    if b == [] {
      assert a + b == a;
    } else {
      assert (a + b)[..|a + b| - 1] == a + b[..|b| - 1];
      TableConcat(d, a, b[..|b| - 1]);
    }
  }

  /** A call without a client address is counted once: as long as its key has
      only such calls, whatever their number, its row never changes again. */
  lemma {:induction false} AnonymousCountedOnce(n: Normalizer, s: Signal, later: seq<Cycle>)
    requires AllValid(n, later) && !HasClient(Select(n, [s] + SignalsOf(later), KeyOf(n, s)))
    ensures var key := KeyOf(n, s);
            var table := TableAfter(EMPTY_TABLE, [LoneCycle(n, 1, s)] + later);
            key in table.rows && table.rows[key].flowCount == 1 && table.rows[key].observationCount == s.raw.rowCount
  {
    var key, first := KeyOf(n, s), [LoneCycle(n, 1, s)];
    TableConcat(EMPTY_TABLE, first, later);
    LoneUpsert(n, 1, s);
    assert first[..0] == [] && TableAfter(EMPTY_TABLE, []) == EMPTY_TABLE;
    FilterConcat(KeyIs(n, key), [s], SignalsOf(later));
    SelectLone(n, s, key);
    HasClientConcat([s], Select(n, SignalsOf(later), key));
    SamplesOfRow(n, 1, key, [s]);
    ColumnsOf([s]);
    StuckForever(n, TableAfter(EMPTY_TABLE, first), later, key);
    CountsMeaning([s]);
    LoneRows(s);
  }

  // ---------------------------------------------------- the average and rows

  lemma {:induction false} LoneRows(s: Signal)
    ensures Total([s]).Rows() == s.raw.rowCount
  {
    RowsAreSum([s]);
    assert Sum(RowsIn, [s]) == RowsIn(s) + Sum(RowsIn, [s][1..]);
  }

  lemma {:induction false} RowsBehind(n: Normalizer, signals: seq<Signal>, key: MergeKey)
    requires Select(n, signals, key) != [] && forall s :: s in signals ==> s.raw.rowCount >= 1
    ensures Total(Select(n, signals, key)).Rows() >= 1
  {
    var sel := Select(n, signals, key);
    FilterElements(KeyIs(n, key), signals);
    assert sel[|sel| - 1] in sel;
  }

  lemma {:induction false} TouchesWithRows(n: Normalizer, cycles: seq<Cycle>, key: MergeKey)
    requires forall i :: 0 <= i < |cycles| ==> forall s :: s in cycles[i].signals ==> s.raw.rowCount >= 1
    ensures forall i :: 0 <= i < |Touches(n, cycles, key)| ==> Total(Touches(n, cycles, key)[i]).Rows() >= 1
  {
    if cycles == [] {
    } else {
      var init, signals := cycles[..|cycles| - 1], cycles[|cycles| - 1].signals;
      TouchesWithRows(n, init, key);
      if Select(n, signals, key) != [] {
        RowsBehind(n, signals, key);
      }
    }
  }

  /** With at least one row behind every signal, which is what the query's
      Count(row) delivers, the average is never lost. */
  lemma {:induction false} NeverEmptyWithRows(n: Normalizer, cycles: seq<Cycle>, key: MergeKey)
    requires forall i :: 0 <= i < |cycles| ==> forall s :: s in cycles[i].signals ==> s.raw.rowCount >= 1
    ensures !StartsEmpty(Touches(n, cycles, key))
  {
    TouchesWithRows(n, cycles, key);
  }

  // ------------------------------------------------ signals one at a time

  /** A history in which every cycle sees one signal. */
  function LoneCycles(n: Normalizer, signals: seq<Signal>): seq<Cycle> {
    if signals == [] then []
    else LoneCycles(n, signals[..|signals| - 1]) + [LoneCycle(n, |signals|, signals[|signals| - 1])]
  }

  function Singles(signals: seq<Signal>): seq<seq<Signal>> {
    if signals == [] then [] else Singles(signals[..|signals| - 1]) + [[signals[|signals| - 1]]]
  }

  lemma {:induction false} LoneTouches(n: Normalizer, signals: seq<Signal>, key: MergeKey, other: MergeKey)
    requires forall s :: s in signals ==> KeyOf(n, s) == key
    ensures Touches(n, LoneCycles(n, signals), other) == if other == key then Singles(signals) else []
  {
    if signals == [] {
    } else {
      var init, s := signals[..|signals| - 1], signals[|signals| - 1];
      var cycles, c := LoneCycles(n, init), LoneCycle(n, |signals|, s);
      LoneTouches(n, init, key, other);
      assert (cycles + [c])[..|cycles|] == cycles;
      SelectLone(n, s, other);
    }
  }

  lemma {:induction false} LoneCyclesValid(n: Normalizer, signals: seq<Signal>)
    ensures AllValid(n, LoneCycles(n, signals))
  {
    if signals == [] {
    } else {
      LoneCyclesValid(n, signals[..|signals| - 1]);
      LoneCycleIsValid(n, |signals|, signals[|signals| - 1]);
    }
  }

  predicate EachFills(signals: seq<Signal>) {
    forall s :: s in signals ==> Fills(NO_SAMPLES, [s])
  }

  lemma {:induction false} LoneNoneLeftEmpty(n: Normalizer, signals: seq<Signal>, key: MergeKey)
    requires EachFills(signals) && forall s :: s in signals ==> KeyOf(n, s) == key
    ensures NoneLeftEmpty(n, LoneCycles(n, signals))
  {
    SinglesAt(signals);
    if |signals| >= 2 {
      FillsConcat([signals[0]], [signals[1]]);
    }
    forall other ensures !LeavesEmpty(Touches(n, LoneCycles(n, signals), other)) {
      LoneTouches(n, signals, key, other);
    }
  }

  /** When every signal has a URL, a client and a status, all such cycles commit. */
  lemma {:induction false} LoneHistory(n: Normalizer, signals: seq<Signal>, key: MergeKey)
    requires signals != [] && EachFills(signals) && forall s :: s in signals ==> KeyOf(n, s) == key
    ensures var table := TableAfter(EMPTY_TABLE, LoneCycles(n, signals));
            key in table.rows && HistoryOf(table.rows[key], Singles(signals))
  {
    LoneCyclesValid(n, signals);
    LoneTouches(n, signals, key, key);
    LoneNoneLeftEmpty(n, signals, key);
    AllCommitIff(n, LoneCycles(n, signals));
    HistoryAt(n, LoneCycles(n, signals), key);
  }

  lemma {:induction false} SinglesAt(signals: seq<Signal>)
    ensures |Singles(signals)| == |signals| && forall i :: 0 <= i < |signals| ==> Singles(signals)[i] == [signals[i]]
  {
    if signals == [] {
    } else {
      SinglesAt(signals[..|signals| - 1]);
    }
  }

  /** Two cycles that count no row make the average NULL, although one merge
      of both would report 0. */
  lemma {:induction false} AverageLost(n: Normalizer, s: Signal)
    requires s.raw.rowCount == 0 && Fills(NO_SAMPLES, [s])
    ensures var table, key := TableAfter(EMPTY_TABLE, LoneCycles(n, [s, s])), KeyOf(n, s);
            key in table.rows && table.rows[key].avgDurationUs == None
  {
    LoneHistory(n, [s, s], KeyOf(n, s));
    SinglesAt([s, s]);
    LoneRows(s);
  }

  predicate DistinctUrls(signals: seq<Signal>) {
    forall i, j :: 0 <= i < j < |signals| ==> signals[i].raw.sampleUrl != signals[j].raw.sampleUrl
  }

  lemma {:induction false} LonePath(s: Signal)
    requires s.raw.sampleUrl != ""
    ensures SamplesOf([s]).paths == {s.raw.sampleUrl}
  {
    SamplesSnoc([], s.raw.sampleUrl, PATH_SAMPLES_CAP);
    assert Map(UrlOf, [s]) == [] + [s.raw.sampleUrl];
  }

  function Urls(signals: seq<Signal>): set<string> {
    set s | s in signals :: s.raw.sampleUrl
  }

  lemma {:induction false} UrlsSnoc(init: seq<Signal>, s: Signal)
    requires DistinctUrls(init + [s])
    ensures Urls(init + [s]) == Urls(init) + {s.raw.sampleUrl} && s.raw.sampleUrl !in Urls(init) && DistinctUrls(init)
  {
    var all := init + [s];
    assert all[|init|] == s;
    assert forall i :: 0 <= i < |init| ==> all[i] == init[i];
  }

  lemma {:induction false} LonePaths(signals: seq<Signal>)
    requires DistinctUrls(signals) && forall s :: s in signals ==> s.raw.sampleUrl != ""
    ensures UnionOf(Singles(signals)).paths == Urls(signals) && |Urls(signals)| == |signals|
  {
    if signals == [] {
    } else {
      var init, s := signals[..|signals| - 1], signals[|signals| - 1];
      assert signals == init + [s];
      UrlsSnoc(init, s);
      LonePaths(init);
      LonePath(s);
      UnionSnoc(Singles(init), [s]);
    }
  }

  lemma {:induction false} UrlsNotBlank(signals: seq<Signal>)
    requires EachFills(signals)
    ensures forall s :: s in signals ==> s.raw.sampleUrl != ""
  {
    forall s | s in signals ensures s.raw.sampleUrl != "" {
      assert HasUrl([s]);
    }
  }

  /** The cap of 20 path samples does not hold over cycles: any number of
      different URLs of one key, one a cycle, all end up in its row. */
  lemma {:induction false} CapExceeded(n: Normalizer, signals: seq<Signal>, key: MergeKey)
    requires signals != [] && EachFills(signals) && DistinctUrls(signals)
    requires forall s :: s in signals ==> KeyOf(n, s) == key
    ensures var table := TableAfter(EMPTY_TABLE, LoneCycles(n, signals));
            key in table.rows && |table.rows[key].samples.paths| == |signals|
  {
    LoneHistory(n, signals, key);
    UrlsNotBlank(signals);
    LonePaths(signals);
  }
}
