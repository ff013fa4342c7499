/** The tables of discovered, managed and classified APIs as one state
    machine. A step is one SQL statement or one transaction:
    internal/store/discovered_repo.go, managed_repo.go, classification_repo.go,
    retention_repo.go and the view of migrations/008_top_clients.sql. */
module Governance {
  import opened Clock
  import opened DiscoveredTable
  import opened ManagedTable
  import opened MergedRows
  import opened Normalizer
  import opened Options

  const DAY: Time := 86_400_000_000

  /** Identity of a discovered row (its UUID). */
  datatype RowId = RowId(key: MergeKey, born: nat)

  datatype Label = Drift | Shadow

  /** Identity of a classification: one row per classified row and statement. */
  datatype FindingId = FindingId(batch: nat, row: RowId)

  datatype Finding = Finding(cycle: WindowId, kind: Label, isInternal: bool, classifiedAt: Time)

  /** One row of v_current_classifications. */
  datatype ViewRow = ViewRow(id: FindingId, finding: Finding, row: DiscoveredRow)

  type Findings = map<FindingId, Finding>
  type View = map<RowId, ViewRow>

  /** `lastSync` is a history variable: the start of the last committed sync. */
  datatype Db = Db(
    now: Time, discovered: Discovered, managed: Managed, findings: Findings, nextBatch: nat,
    view: View, lastSync: Option<Time>)

  function Rows(s: Db): map<MergeKey, DiscoveredRow> { s.discovered.rows }

  function IdAt(s: Db, k: MergeKey): RowId
    requires k in Rows(s)
  {
    RowId(k, Rows(s)[k].born)
  }

  predicate Exists(s: Db, id: RowId) {
    id.key in Rows(s) && Rows(s)[id.key].born == id.born
  }

  predicate ActiveAt(s: Db, k: MergeKey) {
    k in Rows(s) && Rows(s)[k].isActive
  }

  // -------------------------------------------------------- classification

  /** The join condition: same method, and the path is the gateway path or the backend path. */
  predicate Joins(mk: ManagedKey, m: ManagedRow, k: MergeKey) {
    m.isActive && mk.verb == k.verb && (mk.gatewayPath == k.path || m.values.backendPath == k.path)
  }

  predicate IsMatched(s: Db, k: MergeKey) {
    exists mk :: mk in s.managed && Joins(mk, s.managed[mk], k)
  }

  /** `partial_managed`: some active row of the service is matched. */
  predicate IsPartiallyManaged(s: Db, service: string) {
    exists k :: k in Rows(s) && k.service == service && ActiveAt(s, k) && IsMatched(s, k)
  }

  /** The CASE over the flow counters; only 'internal' counts as internal. */
  predicate IsInternal(row: DiscoveredRow) {
    if row.internalFlows > 0 && row.externalFlows == 0 then true
    else if row.externalFlows > 0 then false
    else true
  }

  predicate IsUnmatched(s: Db, k: MergeKey) {
    ActiveAt(s, k) && !IsMatched(s, k)
  }

  /** The rows one classify statement inserts. */
  function NewFindings(s: Db, cycle: WindowId): Findings {
    map k | k in Rows(s) && IsUnmatched(s, k) ::
      FindingId(s.nextBatch, RowId(k, Rows(s)[k].born)) :=
      Finding(cycle, if IsPartiallyManaged(s, k.service) then Drift else Shadow, IsInternal(Rows(s)[k]), s.now)
  }

  function WithFindings(s: Db, cycle: WindowId): Db {
    s.(findings := s.findings + NewFindings(s, cycle), nextBatch := s.nextBatch + 1)
  }

  function MarkAnchors(s: Db): Discovered {
    s.discovered.(rows := map k | k in Rows(s) ::
      if Rows(s)[k].isActive && !Rows(s)[k].isAnchor && IsMatched(s, k) then Rows(s)[k].(isAnchor := true)
      else Rows(s)[k])
  }

  // ------------------------------------------------------------------ view

  /** A latest finding of its row; among equal times PostgreSQL may pick any. */
  ghost predicate IsLatest(fs: Findings, id: FindingId) {
    id in fs && forall other :: other in fs && other.row == id.row ==> fs[other].classifiedAt <= fs[id].classifiedAt
  }

  ghost predicate HasFinding(fs: Findings, row: RowId) {
    exists id :: id in fs && id.row == row
  }

  ghost predicate IsViewAt(s: Db, v: View, row: RowId) {
    && (row in v <==> Exists(s, row) && ActiveAt(s, row.key) && HasFinding(s.findings, row))
    && (row in v ==>
          && v[row].id.row == row && IsLatest(s.findings, v[row].id)
          && v[row].finding == s.findings[v[row].id] && v[row].row == Rows(s)[row.key])
  }

  /** A possible result of the view query (DISTINCT ON … ORDER BY classified_at DESC):
      each active row that has findings shows a latest one. */
  ghost predicate IsCurrentView(s: Db, v: View) {
    forall row :: IsViewAt(s, v, row)
  }

  // ------------------------------------------------------------- retention

  /** The subquery of the cleanup: one latest finding per row. */
  ghost predicate IsOnePerRow(fs: Findings, keep: set<FindingId>) {
    && (forall id :: id in keep ==> IsLatest(fs, id))
    && (forall id :: id in fs ==> exists kept :: kept in keep && kept.row == id.row)
    && (forall a, b :: a in keep && b in keep && a.row == b.row ==> a == b)
  }

  function WithoutOldFindings(s: Db, days: int, keep: set<FindingId>): Findings {
    map id | id in s.findings && !(s.findings[id].classifiedAt < s.now - days * DAY && id !in keep) :: s.findings[id]
  }

  function SoftDelete(s: Db): Discovered {
    s.discovered.(rows := map k | k in Rows(s) ::
      if Rows(s)[k].lastSeen < s.now - 7 * DAY && Rows(s)[k].isActive && !Rows(s)[k].isAnchor
      then Rows(s)[k].(isActive := false) else Rows(s)[k])
  }

  predicate IsHardDeleted(s: Db, days: int, k: MergeKey)
    requires k in Rows(s)
  {
    !Rows(s)[k].isActive && Rows(s)[k].lastSeen < s.now - days * DAY && !Rows(s)[k].isAnchor
  }

  /** The delete cascades to the findings of the row. */
  function HardDelete(s: Db, days: int): Db {
    s.(discovered := s.discovered.(rows := map k | k in Rows(s) && !IsHardDeleted(s, days, k) :: Rows(s)[k]),
       findings := map id | id in s.findings
                            && !(Exists(s, id.row) && IsHardDeleted(s, days, id.row.key)) :: s.findings[id])
  }

  function CleanupManaged(s: Db): Managed {
    map k | k in s.managed && !(!s.managed[k].isActive && s.managed[k].lastSynced < s.now - 90 * DAY) :: s.managed[k]
  }

  // ------------------------------------------------------------------ steps

  datatype Step =
    | BatchUpsert(cycle: Cycle)
    | SyncManaged(items: seq<ManagedSync>, start: Time)
    | Classify(cycleId: WindowId)
    | Anchor
    | RefreshView(result: View)
    | CleanupFindings(days: int, keep: set<FindingId>)
    | SoftDeleteIdle
    | HardDeleteIdle(days: int)
    | CleanupManagedApis
    | Advance(duration: nat)

  /** What the surroundings guarantee of a step: merged rows come from the
      merge, syncs start one after the other and not in the future, nothing is
      classified before a sync has succeeded, and the database picks query
      results that are possible. */
  ghost predicate Enabled(n: Normalizer, s: Db, step: Step) {
    match step
    case BatchUpsert(cycle) => ValidCycle(n, cycle)
    case SyncManaged(_, start) => (s.lastSync.Some? ==> s.lastSync.value < start) && start <= s.now
    case Classify(_) => s.lastSync.Some?
    case RefreshView(result) => IsCurrentView(s, result)
    case CleanupFindings(_, keep) => IsOnePerRow(s.findings, keep)
    case _ => true
  }

  function Apply(s: Db, step: Step): Db {
    match step
    case BatchUpsert(cycle) => s.(discovered := AfterBatch(s.discovered, cycle.merged))
    case SyncManaged(items, start) => s.(managed := Synced(s.managed, items, start), lastSync := Some(start))
    case Classify(cycle) => WithFindings(s, cycle)
    case Anchor => s.(discovered := MarkAnchors(s))
    case RefreshView(result) => s.(view := result)
    case CleanupFindings(days, keep) => s.(findings := WithoutOldFindings(s, days, keep))
    case SoftDeleteIdle => s.(discovered := SoftDelete(s))
    case HardDeleteIdle(days) => HardDelete(s, days)
    case CleanupManagedApis => s.(managed := CleanupManaged(s))
    case Advance(duration) => s.(now := s.now + duration)
  }

  ghost predicate IsRun(n: Normalizer, s: Db, steps: seq<Step>)
    decreases |steps|
  {
    steps == [] || (Enabled(n, s, steps[0]) && IsRun(n, Apply(s, steps[0]), steps[1..]))
  }

  function After(s: Db, steps: seq<Step>): Db
    decreases |steps|
  {
    if steps == [] then s else After(Apply(s, steps[0]), steps[1..])
  }

  function Initial(now: Time): Db {
    Db(now, EMPTY_TABLE, map[], map[], 0, map[], None)
  }

  // ------------------------------------------------------------- invariants

  ghost predicate Inv(s: Db) {
    && (forall k :: k in s.discovered.rows ==> s.discovered.rows[k].born < s.discovered.nextBorn)
    && (forall k :: k in s.discovered.rows && s.discovered.rows[k].isAnchor ==> s.discovered.rows[k].isActive)
    && (forall id :: id in s.findings ==> Exists(s, id.row) && id.batch < s.nextBatch)
    && (forall k :: k in s.managed ==> s.lastSync.Some? && s.managed[k].lastSynced <= s.lastSync.value)
  }

  lemma {:induction false} UpsertKeepsInv(n: Normalizer, s: Db, cycle: Cycle)
    requires Inv(s)
    ensures Inv(Apply(s, BatchUpsert(cycle)))
  {
    var d, e := s.discovered, AfterBatch(s.discovered, cycle.merged);
    forall k | k in d.rows ensures k in e.rows && e.rows[k].born == d.rows[k].born {
      BatchBorn(d, cycle.merged, k);
    }
    forall k | k in e.rows
      ensures e.rows[k].born < e.nextBorn && (e.rows[k].isAnchor ==> e.rows[k].isActive)
    {
      BatchBorn(d, cycle.merged, k);
    }
  }

  /** A key is active after an upsert if it was before, or if the batch commits
      and brings it. */
  lemma {:induction false} UpsertActive(n: Normalizer, s: Db, cycle: Cycle, k: MergeKey)
    requires ValidCycle(n, cycle)
    ensures ActiveAt(Apply(s, BatchUpsert(cycle)), k)
            <==> ActiveAt(s, k) || (Commits(s.discovered, cycle.merged) && Select(n, cycle.signals, k) != [])
  {
    if Commits(s.discovered, cycle.merged) {
      CycleAt(n, s.discovered, cycle, k);
      assert Rows(Apply(s, BatchUpsert(cycle))) == UpsertAll(s.discovered, cycle.merged).rows;
    }
  }

  lemma {:induction false} SyncKeepsInv(s: Db, items: seq<ManagedSync>, start: Time)
    requires Inv(s) && (s.lastSync.Some? ==> s.lastSync.value < start)
    ensures Inv(Apply(s, SyncManaged(items, start)))
  {
    SyncedExact(s.managed, items, start);
  }

  lemma {:induction false} ClassifyKeepsInv(s: Db, cycle: WindowId)
    requires Inv(s)
    ensures Inv(Apply(s, Classify(cycle)))
  {
  }

  lemma {:induction false} HardDeleteKeepsInv(s: Db, days: int)
    requires Inv(s)
    ensures Inv(Apply(s, HardDeleteIdle(days)))
  {
  }

  /** Steps that only change flags of rows. */
  lemma {:induction false} FlagsKeepInv(s: Db, d: Discovered)
    requires Inv(s) && d.nextBorn == s.discovered.nextBorn && d.rows.Keys == s.discovered.rows.Keys
    requires forall k :: k in d.rows ==>
               d.rows[k].born == s.discovered.rows[k].born && (d.rows[k].isAnchor ==> d.rows[k].isActive)
    ensures Inv(s.(discovered := d))
  {
    forall id | id in s.findings ensures Exists(s.(discovered := d), id.row) {
      assert Exists(s, id.row);
    }
  }

  lemma {:induction false} AnchorKeepsInv(s: Db)
    requires Inv(s)
    ensures Inv(Apply(s, Anchor))
  {
    FlagsKeepInv(s, MarkAnchors(s));
  }

  lemma {:induction false} SoftDeleteKeepsInv(s: Db)
    requires Inv(s)
    ensures Inv(Apply(s, SoftDeleteIdle))
  {
    FlagsKeepInv(s, SoftDelete(s));
  }

  lemma {:induction false} CleanupKeepsInv(s: Db, days: int, keep: set<FindingId>)
    requires Inv(s)
    ensures Inv(Apply(s, CleanupFindings(days, keep)))
    ensures Inv(Apply(s, CleanupManagedApis))
  {
  }

  lemma {:induction false} StepKeepsInv(n: Normalizer, s: Db, step: Step)
    requires Inv(s) && Enabled(n, s, step)
    ensures Inv(Apply(s, step))
  {
    match step
    case BatchUpsert(cycle) => UpsertKeepsInv(n, s, cycle);
    case SyncManaged(items, start) => SyncKeepsInv(s, items, start);
    case Classify(cycle) => ClassifyKeepsInv(s, cycle);
    case HardDeleteIdle(days) => HardDeleteKeepsInv(s, days);
    case Anchor => AnchorKeepsInv(s);
    case SoftDeleteIdle => SoftDeleteKeepsInv(s);
    case RefreshView(_) =>
    case CleanupFindings(days, keep) => CleanupKeepsInv(s, days, keep);
    case CleanupManagedApis => CleanupKeepsInv(s, 0, {});
    case Advance(_) =>
  }

  /** The invariants hold after every run. */
  lemma {:induction false} RunKeepsInv(n: Normalizer, s: Db, steps: seq<Step>)
    requires Inv(s) && IsRun(n, s, steps)
    ensures Inv(After(s, steps))
    decreases |steps|
  {
    if steps == [] {
    } else {
      StepKeepsInv(n, s, steps[0]);
      RunKeepsInv(n, Apply(s, steps[0]), steps[1..]);
    }
  }

  // ---------------------------------------------------------------- anchors

  ghost predicate IsAnchored(s: Db, id: RowId) {
    Exists(s, id) && Rows(s)[id.key].isAnchor && Rows(s)[id.key].isActive
  }

  lemma {:induction false} StepKeepsAnchor(n: Normalizer, s: Db, step: Step, id: RowId)
    requires Inv(s) && Enabled(n, s, step) && IsAnchored(s, id)
    ensures IsAnchored(Apply(s, step), id)
  {
    match step
    case BatchUpsert(cycle) => BatchBorn(s.discovered, cycle.merged, id.key);
    case _ =>
  }

  /** Once anchored, a row stays active and is never deleted, in any
      interleaving of upserts, syncs, classifications, retention and idle time. */
  lemma {:induction false} AnchorIsForever(n: Normalizer, s: Db, steps: seq<Step>, id: RowId)
    requires Inv(s) && IsRun(n, s, steps) && IsAnchored(s, id)
    ensures IsAnchored(After(s, steps), id)
    decreases |steps|
  {
    if steps == [] {
    } else {
      StepKeepsAnchor(n, s, steps[0], id);
      StepKeepsInv(n, s, steps[0]);
      AnchorIsForever(n, Apply(s, steps[0]), steps[1..], id);
    }
  }

  /** What a classify statement inserts: exactly one finding per active
      unmatched row and none else; drift exactly when the service has a
      matched active row; internal exactly when nothing came from outside. */
  lemma {:induction false} ClassifyExact(s: Db, cycle: WindowId)
    ensures var fs := NewFindings(s, cycle);
            && (forall id :: id in fs <==>
                  id.batch == s.nextBatch && Exists(s, id.row) && ActiveAt(s, id.row.key) && !IsMatched(s, id.row.key))
            && (forall id :: id in fs ==>
                  && fs[id].cycle == cycle && fs[id].classifiedAt == s.now
                  && (fs[id].isInternal <==> Rows(s)[id.row.key].externalFlows == 0)
                  && (fs[id].kind == Drift <==>
                        exists k :: ActiveAt(s, k) && k.service == id.row.key.service && IsMatched(s, k)))
  {
    var fs := NewFindings(s, cycle);
    forall id | id in fs
      ensures fs[id].kind == Drift <==>
                exists k :: ActiveAt(s, k) && k.service == id.row.key.service && IsMatched(s, k)
    {
      assert fs[id].kind == Drift <==> IsPartiallyManaged(s, id.row.key.service);
    }
  }

  /** However long an anchor has been idle: as long as a managed operation
      matches it, no unmatched row of its service is ever labelled shadow. */
  lemma {:induction false} AnchorPreventsShadow(n: Normalizer, s: Db, steps: seq<Step>, anchor: RowId, cycle: WindowId)
    requires Inv(s) && IsRun(n, s, steps) && IsAnchored(s, anchor)
    requires IsMatched(After(s, steps), anchor.key)
    ensures var fs := NewFindings(After(s, steps), cycle);
            forall id :: id in fs && id.row.key.service == anchor.key.service ==> fs[id].kind == Drift
  {
    var t := After(s, steps);
    AnchorIsForever(n, s, steps, anchor);
    ClassifyExact(t, cycle);
    assert ActiveAt(t, anchor.key);
  }

  /** When nothing runs in between, the two statements of `Classify` anchor
      exactly the matched active rows, beside the old anchors. */
  lemma {:induction false} ClassifyAnchorsMatched(s: Db, cycle: WindowId, k: MergeKey)
    requires ActiveAt(s, k)
    ensures var t := After(s, [Classify(cycle), Anchor]);
            ActiveAt(t, k) && (Rows(t)[k].isAnchor <==> Rows(s)[k].isAnchor || IsMatched(s, k))
  {
    var s1 := Apply(s, Classify(cycle));
    assert [Classify(cycle), Anchor][1..] == [Anchor];
    assert [Anchor][1..] == [];
    assert After(s, [Classify(cycle), Anchor]) == Apply(s1, Anchor);
    assert IsMatched(s1, k) == IsMatched(s, k);
  }

  // ------------------------------------------------------------- untrafficked

  /** The active operations without an active discovered row. */
  function Untrafficked(s: Db): set<ManagedKey> {
    set mk | mk in s.managed && s.managed[mk].isActive
             && !(exists k :: k in Rows(s) && k.verb == mk.verb && Rows(s)[k].isActive
                    && (k.path == mk.gatewayPath || k.path == s.managed[mk].values.backendPath))
  }

  /** Each active operation either is listed as untrafficked or makes some
      active row matched, never both. */
  lemma {:induction false} TrafficPartition(s: Db, mk: ManagedKey)
    requires mk in s.managed && s.managed[mk].isActive
    ensures mk in Untrafficked(s) <==> !exists k :: ActiveAt(s, k) && Joins(mk, s.managed[mk], k)
    ensures mk !in Untrafficked(s) ==>
              exists k :: ActiveAt(s, k) && IsMatched(s, k) && Joins(mk, s.managed[mk], k)
  {
    if mk !in Untrafficked(s) {
      var k :| k in Rows(s) && k.verb == mk.verb && Rows(s)[k].isActive
               && (k.path == mk.gatewayPath || k.path == s.managed[mk].values.backendPath);
      assert ActiveAt(s, k) && Joins(mk, s.managed[mk], k);
      assert IsMatched(s, k);
    }
  }

  /** A classify statement would report this row. */
  ghost predicate IsReported(s: Db, cycle: WindowId, k: MergeKey) {
    exists id :: id in NewFindings(s, cycle) && id.row.key == k
  }

  lemma {:induction false} ReportedIff(s: Db, cycle: WindowId, k: MergeKey)
    ensures IsReported(s, cycle, k) <==> ActiveAt(s, k) && !IsMatched(s, k)
  {
    ClassifyExact(s, cycle);
    if ActiveAt(s, k) && !IsMatched(s, k) {
      assert Exists(s, IdAt(s, k));
      assert FindingId(s.nextBatch, IdAt(s, k)) in NewFindings(s, cycle);
    }
  }

  lemma {:induction false} TrafficIsMatched(s: Db, k: MergeKey)
    requires ActiveAt(s, k) && IsMatched(s, k)
    ensures exists mk :: IsActive(s.managed, mk) && mk !in Untrafficked(s)
  {
    var mk :| mk in s.managed && Joins(mk, s.managed[mk], k);
    TrafficPartition(s, mk);
    assert IsActive(s.managed, mk);
  }

  /** The two reports agree: all active operations are listed as untrafficked
      exactly when a classify statement reports all active rows, and then it
      labels each of them shadow. */
  lemma {:induction false} NoTrafficIff(s: Db, cycle: WindowId)
    ensures (forall mk :: IsActive(s.managed, mk) ==> mk in Untrafficked(s))
            <==> (forall k :: ActiveAt(s, k) ==> IsReported(s, cycle, k))
    ensures (forall k :: ActiveAt(s, k) ==> IsReported(s, cycle, k)) ==>
              forall id :: id in NewFindings(s, cycle) ==> NewFindings(s, cycle)[id].kind == Shadow
  {
    ClassifyExact(s, cycle);
    forall k ensures IsReported(s, cycle, k) <==> ActiveAt(s, k) && !IsMatched(s, k) {
      ReportedIff(s, cycle, k);
    }
    forall mk | IsActive(s.managed, mk) && mk !in Untrafficked(s) ensures exists k :: ActiveAt(s, k) && IsMatched(s, k) {
      TrafficPartition(s, mk);
    }
    forall k | ActiveAt(s, k) && IsMatched(s, k) ensures exists mk :: IsActive(s.managed, mk) && mk !in Untrafficked(s) {
      TrafficIsMatched(s, k);
    }
  }
}
