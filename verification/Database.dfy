/** The repositories as they run: methods that update the tables in place,
    each statement or transaction all or nothing
    (internal/store/discovered_repo.go, managed_repo.go,
    classification_repo.go, retention_repo.go). */
module Database {
  import opened Clock
  import opened DiscoveredTable
  import opened Governance
  import opened ManagedTable
  import opened MergedRows
  import opened Options

  /** What can stop the transaction of a sync. */
  datatype Outcome = Committed | BeginFailed | RowFailed(index: nat) | SoftDeleteFailed | CommitFailed

  class Tables {
    var now: Time
    var discovered: Discovered
    var managed: Managed
    var findings: Findings
    var nextBatch: nat
    var view: View
    var lastSync: Option<Time>
    /** ads_pipeline_state.last_retention_run */
    var lastRetentionRun: Option<Time>

    ghost function State(): Db
      reads this
    {
      Db(now, discovered, managed, findings, nextBatch, view, lastSync)
    }

    constructor (start: Time)
      ensures State() == Initial(start) && lastRetentionRun == None
    {
      now := start;
      discovered, managed, findings := Discovered(map[], 0), map[], map[];
      nextBatch, view, lastSync, lastRetentionRun := 0, map[], None, None;
    }

    /** `BatchUpsert`: the queued upserts travel as one batch, which the server
        runs as one implicit transaction. A row that would be left with an
        empty array column fails; `failing` is a row that fails for any other
        reason. */
    method BatchUpsert(items: seq<MergedRow>, failing: Option<nat>) returns (ok: bool)
      modifies this`discovered
      ensures ok <==> (failing.None? || failing.value >= |items|) && Commits(old(discovered), items)
      ensures State() == if ok then old(State()).(discovered := UpsertAll(old(discovered), items)) else old(State())
    {
      var tx := discovered;
      for i := 0 to |items|
        invariant tx == UpsertAll(old(discovered), items[..i]) && discovered == old(discovered)
        invariant Commits(old(discovered), items[..i])
        invariant failing.Some? ==> i <= failing.value
      {
        assert items[..i + 1][..i] == items[..i];
        if failing == Some(i) || !IsAccepted(tx, items[i]) {
          CommitsPrefix(discovered, items, i + 1);
          return false;
        }
        tx := Upsert(tx, items[i]);
      }
      assert items[..|items|] == items;
      discovered := tx;
      ok := true;
    }

    /** `Sync`: upsert the items one by one, then switch off stale rows.
        Whatever fails, the rollback leaves the table as it was. */
    method Sync(items: seq<ManagedSync>, start: Time, fate: Outcome) returns (ok: bool)
      modifies this`managed, this`lastSync
      ensures ok <==> fate == Committed || (fate.RowFailed? && fate.index >= |items|)
      ensures State() == if ok then Apply(old(State()), SyncManaged(items, start)) else old(State())
    {
      if fate == BeginFailed {
        return false;
      }
      var tx := managed;
      for i := 0 to |items|
        invariant tx == UpsertAllManaged(managed, items[..i], start) && managed == old(managed)
        invariant fate.RowFailed? ==> i <= fate.index
      {
        if fate == RowFailed(i) {
          return false;
        }
        assert items[..i + 1][..i] == items[..i];
        tx := UpsertManaged(tx, items[i], start);
      }
      assert items[..|items|] == items;
      if fate == SoftDeleteFailed {
        return false;
      }
      tx := SoftDeleteStale(tx, start);
      if fate == CommitFailed {
        return false;
      }
      managed := tx;
      lastSync := Some(start);
      ok := true;
    }

    /** The first statement of `Classify`; returns the rows it inserted. */
    method InsertFindings(cycle: WindowId) returns (inserted: nat)
      modifies this`findings, this`nextBatch
      ensures State() == WithFindings(old(State()), cycle)
      ensures inserted == |NewFindings(old(State()), cycle)|
    {
      var db := Db(now, discovered, managed, findings, nextBatch, view, lastSync);
      assert db == old(State());
      var added := NewFindings(db, cycle);
      inserted := |added|;
      findings := findings + added;
      nextBatch := nextBatch + 1;
    }

    /** The second statement of `Classify`. */
    method MarkMatched()
      modifies this`discovered
      ensures State() == Apply(old(State()), Anchor)
    {
      discovered := MarkAnchors(Db(now, discovered, managed, findings, nextBatch, view, lastSync));
    }

    /** `Classify` when nothing runs in between; an error in one statement
        leaves what the statements before it did. */
    method Classify(cycle: WindowId, failing: nat) returns (ok: bool, inserted: nat)
      modifies this`findings, this`nextBatch, this`discovered
      ensures ok <==> failing >= 2
      ensures State() == After(old(State()), [Step.Classify(cycle), Anchor][..if ok then 2 else failing])
      ensures inserted == if ok then |NewFindings(old(State()), cycle)| else 0
    {
      ClassifyUnfolds(State(), cycle);
      if failing == 0 {
        return false, 0;
      }
      inserted := InsertFindings(cycle);
      if failing == 1 {
        return false, 0;
      }
      MarkMatched();
      ok := true;
    }

    /** `RunRetention`: the four cleanup statements and the time stamp, in
        order, stopping at the first that fails. `keep` is the subquery's result. */
    method RunRetention(findingDays: int, rowDays: int, keep: set<FindingId>, failing: nat) returns (ok: bool)
      modifies this`findings, this`discovered, this`managed, this`lastRetentionRun
      ensures ok <==> failing >= 5
      ensures State() == After(
                old(State()),
                RetentionSteps(findingDays, rowDays, keep)[..if failing < 4 then failing else 4])
      ensures lastRetentionRun == if ok then Some(now) else old(lastRetentionRun)
    {
      ghost var steps := RetentionSteps(findingDays, rowDays, keep);
      ghost var s0 := State();
      RetentionUnfolds(s0, findingDays, rowDays, keep);
      if failing == 0 {
        return false;
      }
      findings := WithoutOldFindings(
        Db(now, discovered, managed, findings, nextBatch, view, lastSync), findingDays, keep);
      assert State() == Apply(s0, steps[0]);
      if failing == 1 {
        return false;
      }
      discovered := SoftDelete(Db(now, discovered, managed, findings, nextBatch, view, lastSync));
      if failing == 2 {
        return false;
      }
      var left := HardDelete(Db(now, discovered, managed, findings, nextBatch, view, lastSync), rowDays);
      discovered, findings := left.discovered, left.findings;
      if failing == 3 {
        return false;
      }
      managed := CleanupManaged(Db(now, discovered, managed, findings, nextBatch, view, lastSync));
      if failing == 4 {
        return false;
      }
      lastRetentionRun := Some(now);
      ok := true;
    }
  }

  function RetentionSteps(findingDays: int, rowDays: int, keep: set<FindingId>): (steps: seq<Step>)
    ensures |steps| == 4
  {
    [CleanupFindings(findingDays, keep), SoftDeleteIdle, HardDeleteIdle(rowDays), CleanupManagedApis]
  }

  lemma {:induction false} ClassifyUnfolds(s: Db, cycle: WindowId)
    ensures var steps, s1 := [Step.Classify(cycle), Anchor], WithFindings(s, cycle);
            After(s, steps[..0]) == s && After(s, steps[..1]) == s1 && After(s, steps[..2]) == Apply(s1, Anchor)
  {
    var steps := [Step.Classify(cycle), Anchor];
    AfterSnoc(s, [], steps[0]);
    AfterSnoc(s, steps[..1], steps[1]);
    assert steps[..1] == [] + [steps[0]] && steps[..2] == steps[..1] + [steps[1]];
  }

  lemma {:induction false} RetentionUnfolds(s: Db, findingDays: int, rowDays: int, keep: set<FindingId>)
    ensures var steps := RetentionSteps(findingDays, rowDays, keep);
            var s1 := Apply(s, steps[0]);
            var s2 := Apply(s1, steps[1]);
            var s3 := Apply(s2, steps[2]);
            && After(s, steps[..0]) == s && After(s, steps[..1]) == s1 && After(s, steps[..2]) == s2
            && After(s, steps[..3]) == s3 && After(s, steps[..4]) == Apply(s3, steps[3])
  {
    var steps := RetentionSteps(findingDays, rowDays, keep);
    AfterSnoc(s, [], steps[0]);
    AfterSnoc(s, steps[..1], steps[1]);
    AfterSnoc(s, steps[..2], steps[2]);
    AfterSnoc(s, steps[..3], steps[3]);
    assert steps[..1] == [] + [steps[0]] && steps[..2] == steps[..1] + [steps[1]];
    assert steps[..3] == steps[..2] + [steps[2]] && steps[..4] == steps[..3] + [steps[3]];
  }

  lemma {:induction false} AfterSnoc(s: Db, steps: seq<Step>, last: Step)
    ensures After(s, steps + [last]) == Apply(After(s, steps), last)
    decreases |steps|
  {
    var all := steps + [last];
    if steps == [] {
      assert all[1..] == [];
    } else {
      assert all[1..] == steps[1..] + [last];
      AfterSnoc(Apply(s, steps[0]), steps[1..], last);
    }
  }

  // --------------------------------------------------- a whole retention run

  predicate SeenThisWeek(s: Db, k: MergeKey)
    requires k in Rows(s)
  {
    Rows(s)[k].lastSeen >= s.now - 7 * 24 * 60 * 60 * 1_000_000
  }

  /** Whether retention spares the row with this key. */
  predicate Survives(s: Db, rowDays: int, k: MergeKey) {
    k in Rows(s) ==>
      || Rows(s)[k].isAnchor
      || Rows(s)[k].lastSeen >= s.now - rowDays * DAY
      || (Rows(s)[k].isActive && SeenThisWeek(s, k))
  }

  /** A row that is no anchor and was not seen for a week is switched off. */
  function AfterWeek(s: Db, k: MergeKey): DiscoveredRow
    requires k in Rows(s)
  {
    Rows(s)[k].(isActive := Rows(s)[k].isActive && (Rows(s)[k].isAnchor || SeenThisWeek(s, k)))
  }

  predicate IsYoung(s: Db, findingDays: int, id: FindingId)
    requires id in s.findings
  {
    s.findings[id].classifiedAt >= s.now - findingDays * DAY
  }

  /** The state before the hard delete. */
  function SoftDeleted(s: Db, findingDays: int, keep: set<FindingId>): Db {
    s.(findings := WithoutOldFindings(s, findingDays, keep), discovered := SoftDelete(s))
  }

  function Retained(s: Db, findingDays: int, rowDays: int, keep: set<FindingId>): Db {
    var t := HardDelete(SoftDeleted(s, findingDays, keep), rowDays);
    t.(managed := CleanupManaged(t))
  }

  lemma {:induction false} SoftDeleteIgnoresFindings(s: Db, fs: Findings)
    ensures SoftDelete(s.(findings := fs)) == SoftDelete(s)
  {
    assert SoftDelete(s.(findings := fs)).rows == SoftDelete(s).rows;
  }

  lemma {:induction false} RetentionIsRetained(s: Db, findingDays: int, rowDays: int, keep: set<FindingId>)
    ensures After(s, RetentionSteps(findingDays, rowDays, keep)) == Retained(s, findingDays, rowDays, keep)
  {
    RetentionUnfolds(s, findingDays, rowDays, keep);
    var steps := RetentionSteps(findingDays, rowDays, keep);
    assert steps[..4] == steps;
    SoftDeleteIgnoresFindings(s, WithoutOldFindings(s, findingDays, keep));
    var s2 := Apply(Apply(s, steps[0]), steps[1]);
    assert s2 == SoftDeleted(s, findingDays, keep);
    assert Apply(Apply(s2, steps[2]), steps[3]) == Retained(s, findingDays, rowDays, keep);
  }

  lemma {:induction false} RowSpared(s: Db, findingDays: int, rowDays: int, keep: set<FindingId>, k: MergeKey)
    ensures var t := Retained(s, findingDays, rowDays, keep);
            && (k in Rows(t) <==> k in Rows(s) && Survives(s, rowDays, k))
            && (k in Rows(t) ==> Rows(t)[k] == AfterWeek(s, k))
  {
  }

  lemma {:induction false} FindingSpared(s: Db, findingDays: int, rowDays: int, keep: set<FindingId>, id: FindingId)
    requires Inv(s)
    ensures id in Retained(s, findingDays, rowDays, keep).findings <==>
            id in s.findings && Survives(s, rowDays, id.row.key) && (id in keep || IsYoung(s, findingDays, id))
  {
    if id in s.findings {
      assert Exists(s, id.row);
    }
  }

  lemma {:induction false} LatestSpared(s: Db, findingDays: int, rowDays: int, keep: set<FindingId>, id: FindingId)
    requires Inv(s) && IsOnePerRow(s.findings, keep) && id in s.findings && Survives(s, rowDays, id.row.key)
    ensures exists kept :: kept in Retained(s, findingDays, rowDays, keep).findings
                           && kept.row == id.row && IsLatest(s.findings, kept)
  {
    var kept :| kept in keep && kept.row == id.row;
    FindingSpared(s, findingDays, rowDays, keep, kept);
  }

  /** What one retention run leaves behind. A discovered row goes if it is no
      anchor, is older than its retention period, and was not seen this week
      or was switched off before; its findings go with it, and of each row
      that stays a latest finding stays. A managed row goes 90 days after it
      was last synced, if it is switched off. */
  lemma {:induction false} RetentionExact(s: Db, findingDays: int, rowDays: int, keep: set<FindingId>, k: MergeKey,
                                          id: FindingId, mk: ManagedKey)
    requires Inv(s) && IsOnePerRow(s.findings, keep)
    ensures var t := After(s, RetentionSteps(findingDays, rowDays, keep));
            && (k in Rows(t) <==> k in Rows(s) && Survives(s, rowDays, k))
            && (k in Rows(t) ==> Rows(t)[k] == AfterWeek(s, k))
            && (id in t.findings <==>
                  id in s.findings && Survives(s, rowDays, id.row.key) && (id in keep || IsYoung(s, findingDays, id)))
            && (id in s.findings && Survives(s, rowDays, id.row.key) ==>
                  exists kept :: kept in t.findings && kept.row == id.row && IsLatest(s.findings, kept))
            && (mk in t.managed <==>
                  mk in s.managed && (s.managed[mk].isActive || s.managed[mk].lastSynced >= s.now - 90 * DAY))
  {
    RetentionIsRetained(s, findingDays, rowDays, keep);
    RowSpared(s, findingDays, rowDays, keep, k);
    FindingSpared(s, findingDays, rowDays, keep, id);
    if id in s.findings && Survives(s, rowDays, id.row.key) {
      LatestSpared(s, findingDays, rowDays, keep, id);
    }
  }
}
