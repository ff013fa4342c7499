/** From an observed request to its label: what the merge, the upsert, the
    sync of declared operations and the classification make of it together. */
module EndToEnd {
  import opened Classifier
  import opened Clock
  import opened Counting
  import opened DiscoveredTable
  import opened Expander
  import opened Governance
  import opened GovernanceRuns
  import opened ManagedTable
  import opened MergeResults
  import opened MergedRows
  import opened Normalizer
  import opened Options
  import opened Pipeline
  import opened Sequences
  import opened Strings

  /** What the expander makes of a declared path with these parts. */
  function DeclaredPath(n: Normalizer, parts: seq<Part>): string
    requires parts != []
  {
    NormalizePath(Some(n), Join(TemplateSegments(parts)))
  }

  /** The table holds an active operation with this path, as it is seen at the
      gateway or at the backend. */
  ghost predicate Declares(n: Normalizer, s: Db, mk: ManagedKey, parts: seq<Part>) {
    && parts != [] && IsActive(s.managed, mk)
    && (mk.gatewayPath == DeclaredPath(n, parts) || s.managed[mk].values.backendPath == DeclaredPath(n, parts))
  }

  /** The request `sig` calls an operation with this verb and these path parts,
      filling the placeholders with `values`. */
  ghost predicate Calls(sig: Signal, verb: string, parts: seq<Part>, values: seq<string>, query: string) {
    && WellFormed(parts) && |values| == |parts|
    && (forall i :: 0 <= i < |parts| ==> parts[i].Placeholder? ==> IsSegmentValue(values[i]))
    && (query == "" || query[0] == '?')
    && sig.raw.verb == verb
    && sig.raw.endpoint == Join(FilledSegments(parts, values)) + query
  }

  /** Every filled-in value is of a kind the normaliser replaces. */
  ghost predicate AllDynamic(n: Normalizer, parts: seq<Part>, values: seq<string>)
    requires |values| == |parts|
  {
    forall i :: 0 <= i < |parts| ==> parts[i].Placeholder? ==> IsDynamic(n, values[i]) || values[i] == ID
  }

  // ------------------------------------------------------------ declarations

  /** The operation is in the batch, as the last item of its key. */
  ghost predicate IsSynced(env: Env, items: seq<ManagedSync>, api: ApiDetail, op: Operation) {
    exists i :: 0 <= i < |items| && IsLast(items, i) && items[i] == ItemFor(env, api, op)
  }

  /** The path of an operation, through the gateway or straight to the backend. */
  predicate IsPathOf(env: Env, api: ApiDetail, op: Operation, path: string) {
    || path == ComposeGatewayPath(api.context, api.version, op.target)
    || path == BackendBasePath(env.urlPath, BackendURL(api)) + op.target
  }

  /** After a sync, the operations of its batch are declared. */
  lemma {:induction false} SyncDeclares(
    n: Normalizer, env: Env, s: Db, items: seq<ManagedSync>, start: Time, api: ApiDetail, op: Operation, parts: seq<Part>)
    requires env.norm == Some(n) && IsSynced(env, items, api, op)
    requires parts != [] && IsPathOf(env, api, op, Join(TemplateSegments(parts)))
    ensures Declares(n, Apply(s, SyncManaged(items, start)), KeyFor(env, api, op), parts)
  {
    SyncedExact(s.managed, items, start);
    var i :| 0 <= i < |items| && IsLast(items, i) && items[i] == ItemFor(env, api, op);
    assert items[i].key in Synced(s.managed, items, start);
  }

  // ---------------------------------------------------------------- requests

  lemma {:induction false} SignalIsSelected(n: Normalizer, signals: seq<Signal>, sig: Signal)
    requires sig in signals
    ensures Select(n, signals, KeyOf(n, sig)) != []
  {
    FilterElements(KeyIs(n, KeyOf(n, sig)), signals);
    assert sig in Select(n, signals, KeyOf(n, sig));
  }

  /** After the cycle that saw it, the row of a request is in the table and
      active, exactly if the batch of the cycle commits or it was before. */
  lemma {:induction false} SeenIsActive(n: Normalizer, s: Db, cycle: Cycle, sig: Signal)
    requires ValidCycle(n, cycle) && sig in cycle.signals
    ensures var t := Apply(s, BatchUpsert(cycle));
            && (ActiveAt(t, KeyOf(n, sig)) <==> Commits(s.discovered, cycle.merged) || ActiveAt(s, KeyOf(n, sig)))
            && t.managed == s.managed
  {
    SignalIsSelected(n, cycle.signals, sig);
    UpsertActive(n, s, cycle, KeyOf(n, sig));
  }

  /** The path of a request is the declared path exactly when every filled-in
      value is dynamic. */
  lemma {:induction false} PathsMeetIff(
    n: Normalizer, sig: Signal, verb: string, parts: seq<Part>, values: seq<string>, query: string)
    requires Calls(sig, verb, parts, values, query)
    ensures DeclaredPath(n, parts) == KeyOf(n, sig).path <==> AllDynamic(n, parts, values)
  {
    TemplateMatchesRequestIff(n, parts, values, query);
  }

  /** A request to a declared operation, with dynamic values in place of the
      placeholders, is governed: it is matched and a classify statement finds
      nothing about it, and once its row is in the table, whatever else is
      unmatched on the same service is drift, never shadow. */
  lemma {:induction false} DeclaredCallIsGoverned(
    n: Normalizer, s: Db, mk: ManagedKey, cycle: Cycle, sig: Signal,
    parts: seq<Part>, values: seq<string>, query: string, at: WindowId)
    requires Declares(n, s, mk, parts) && ValidCycle(n, cycle) && sig in cycle.signals
    requires Calls(sig, mk.verb, parts, values, query) && AllDynamic(n, parts, values)
    ensures var t := Apply(s, BatchUpsert(cycle));
            var key, fs := KeyOf(n, sig), NewFindings(t, at);
            && IsMatched(t, key) && (forall id :: id in fs ==> id.row.key != key)
            && (Commits(s.discovered, cycle.merged) || ActiveAt(s, key) ==>
                  && ActiveAt(t, key)
                  && forall id :: id in fs && id.row.key.service == key.service ==> fs[id].kind == Drift)
  {
    var t, key := Apply(s, BatchUpsert(cycle)), KeyOf(n, sig);
    SeenIsActive(n, s, cycle, sig);
    PathsMeetIff(n, sig, mk.verb, parts, values, query);
    assert Joins(mk, t.managed[mk], key);
    assert IsMatched(t, key);
    ClassifyExact(t, at);
  }

  /** Besides the declared path of `mk` with these parts, the request's path
      meets another declared path of its method: that of another operation, or
      the other one of `mk`. */
  ghost predicate MeetsAnother(n: Normalizer, s: Db, mk: ManagedKey, parts: seq<Part>, path: string)
    requires parts != []
  {
    exists other :: IsActive(s.managed, other) && other.verb == mk.verb
                    && (IsAnotherPath(n, mk, parts, other, other.gatewayPath, path)
                        || IsAnotherPath(n, mk, parts, other, s.managed[other].values.backendPath, path))
  }

  predicate IsAnotherPath(n: Normalizer, mk: ManagedKey, parts: seq<Part>, other: ManagedKey, declared: string, path: string)
    requires parts != []
  {
    declared == path && (other != mk || declared != DeclaredPath(n, parts))
  }

  lemma {:induction false} MatchedIff(
    n: Normalizer, s: Db, mk: ManagedKey, key: MergeKey, parts: seq<Part>, meets: bool)
    requires Declares(n, s, mk, parts) && mk.verb == key.verb
    requires meets <==> DeclaredPath(n, parts) == key.path
    ensures IsMatched(s, key) <==> meets || MeetsAnother(n, s, mk, parts, key.path)
  {
    if meets {
      assert Joins(mk, s.managed[mk], key);
    }
    if MeetsAnother(n, s, mk, parts, key.path) {
      var other :| IsActive(s.managed, other) && other.verb == mk.verb
                   && (IsAnotherPath(n, mk, parts, other, other.gatewayPath, key.path)
                       || IsAnotherPath(n, mk, parts, other, s.managed[other].values.backendPath, key.path));
      assert Joins(other, s.managed[other], key);
    }
    if IsMatched(s, key) && !meets {
      var k :| k in s.managed && Joins(k, s.managed[k], key);
      assert IsActive(s.managed, k);
    }
  }

  /** The row of a request to a declared operation is reported exactly when it
      is active, some filled-in value is not dynamic and the request's path
      does not happen to be another declared path of that method: the promise
      "declared means governed" stands or falls with the normaliser. */
  lemma {:induction false} DeclaredRowReportedIff(
    n: Normalizer, s: Db, mk: ManagedKey, sig: Signal, parts: seq<Part>, values: seq<string>, query: string, at: WindowId)
    requires Declares(n, s, mk, parts) && Calls(sig, mk.verb, parts, values, query)
    ensures IsReported(s, at, KeyOf(n, sig))
            <==> ActiveAt(s, KeyOf(n, sig)) && !AllDynamic(n, parts, values)
                 && !MeetsAnother(n, s, mk, parts, KeyOf(n, sig).path)
  {
    PathsMeetIff(n, sig, mk.verb, parts, values, query);
    MatchedIff(n, s, mk, KeyOf(n, sig), parts, AllDynamic(n, parts, values));
    ReportedIff(s, at, KeyOf(n, sig));
  }

  /** And so it is for every request, after the cycle that saw it: as long as
      the cycle commits, or the row was there before. */
  lemma {:induction false} DeclaredCallReportedIff(
    n: Normalizer, s: Db, mk: ManagedKey, cycle: Cycle, sig: Signal,
    parts: seq<Part>, values: seq<string>, query: string, at: WindowId)
    requires Declares(n, s, mk, parts) && ValidCycle(n, cycle) && sig in cycle.signals
    requires Calls(sig, mk.verb, parts, values, query)
    ensures IsReported(Apply(s, BatchUpsert(cycle)), at, KeyOf(n, sig))
            <==> (Commits(s.discovered, cycle.merged) || ActiveAt(s, KeyOf(n, sig)))
                 && !AllDynamic(n, parts, values) && !MeetsAnother(n, s, mk, parts, KeyOf(n, sig).path)
  {
    SeenIsActive(n, s, cycle, sig);
    DeclaredRowReportedIff(n, Apply(s, BatchUpsert(cycle)), mk, sig, parts, values, query, at);
  }

  // -------------------------------------------------------------- directions

  /** The upserts of the run bring what the classifier made of its rows. */
  ghost predicate AreClassified(steps: seq<Step>) {
    forall i :: 0 <= i < |steps| && steps[i].BatchUpsert? ==> forall sig :: sig in steps[i].cycle.signals ==> IsClassified(sig)
  }

  lemma {:induction false} RowIsClassified(n: Normalizer, s: Db, steps: seq<Step>, id: RowId)
    requires AreClassified(steps)
    ensures forall sig :: sig in SignalsOfRow(n, s, steps, id) ==> IsClassified(sig)
    decreases |steps|
  {
    if steps == [] {
    } else {
      RowIsClassified(n, Apply(s, steps[0]), steps[1..], id);
      FilterElements(KeyIs(n, id.key), SignalsOfStep(s, steps[0]));
    }
  }

  lemma {:induction false} ExternalIff(sel: seq<Signal>)
    requires forall sig :: sig in sel ==> IsClassified(sig)
    ensures Total(sel).External() == 0 <==> forall sig :: sig in sel && sig.raw.rowCount > 0 ==> !FromOutside(sig.raw)
  {
    TotalsAreSums(sel);
    OutsideIsExternal(sel);
    SumZeroIff(OutsideRowsIn, sel);
    assert forall sig :: OutsideRowsIn(sig) == 0 <==> (sig.raw.rowCount > 0 ==> !FromOutside(sig.raw));
  }

  /** After every run: a new finding is internal exactly if no call from
      outside has ever been counted for its row, as told by peer and tap. */
  lemma {:induction false} InternalExactly(n: Normalizer, now: Time, steps: seq<Step>, at: WindowId, f: FindingId)
    requires IsRun(n, Initial(now), steps) && AreClassified(steps)
    requires f in NewFindings(After(Initial(now), steps), at)
    ensures NewFindings(After(Initial(now), steps), at)[f].isInternal
            <==> forall sig :: sig in SignalsOfRow(n, Initial(now), steps, f.row) && sig.raw.rowCount > 0 ==>
                   !FromOutside(sig.raw)
  {
    var t, sel := After(Initial(now), steps), SignalsOfRow(n, Initial(now), steps, f.row);
    ClassifyExact(t, at);
    LifeCounts(n, Initial(now), steps, f.row);
    RowIsClassified(n, Initial(now), steps, f.row);
    ExternalIff(sel);
  }
}
