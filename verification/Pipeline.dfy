/** One cycle of phase 2 (internal/managed/pipeline.go): list, fetch, expand,
    sync. What could not be fetched is left out of the sync. */
module Pipeline {
  import D = Database
  import F = FetchDetails
  import P = Publisher
  import opened Clock
  import opened Expander
  import opened Governance
  import opened ManagedTable
  import opened Normalizer
  import opened Options
  import opened Sequences

  /** The configured normaliser, the URL parser and the time parser. */
  datatype Env = Env(norm: Option<Normalizer>, urlPath: string -> Option<string>, parseTime: string -> Time)

  function GatewayPathOf(env: Env, api: ApiDetail, op: Operation): string {
    NormalizePath(env.norm, ComposeGatewayPath(api.context, api.version, op.target))
  }

  function BackendPathOf(env: Env, api: ApiDetail, op: Operation): string {
    NormalizePath(env.norm, BackendBasePath(env.urlPath, BackendURL(api)) + op.target)
  }

  function KeyFor(env: Env, api: ApiDetail, op: Operation): ManagedKey {
    ManagedKey(api.id, ToUpper(op.verb), GatewayPathOf(env, api, op))
  }

  /** The row that is synced for one operation; the expander sets no warnings. */
  function ItemFor(env: Env, api: ApiDetail, op: Operation): ManagedSync {
    ManagedSync(KeyFor(env, api, op), ManagedValues(
      api.name, api.version, api.context, api.provider, api.lifeCycleStatus, BackendPathOf(env, api, op),
      op.authType, op.throttlingPolicy, BackendURL(api), env.parseTime(api.updatedTime), []))
  }

  function ItemsOfApi(env: Env, api: ApiDetail): (items: seq<ManagedSync>)
    ensures |items| == |api.operations|
    ensures forall j :: 0 <= j < |items| ==> items[j] == ItemFor(env, api, api.operations[j])
  {
    seq(|api.operations|, j requires 0 <= j < |api.operations| => ItemFor(env, api, api.operations[j]))
  }

  function ItemsOf(env: Env, details: seq<ApiDetail>): seq<ManagedSync> {
    if details == [] then []
    else ItemsOf(env, details[..|details| - 1]) + ItemsOfApi(env, details[|details| - 1])
  }

  method CollectItems(env: Env, details: seq<ApiDetail>) returns (ops: seq<ManagedSync>)
    ensures ops == ItemsOf(env, details)
  {
    ops := [];
    for i := 0 to |details|
      invariant ops == ItemsOf(env, details[..i])
    {
      var api := details[i];
      assert details[..i + 1][..i] == details[..i];
      if |api.operations| == 0 {
        assert ItemsOfApi(env, api) == [];
        continue;
      }
      var expanded := Expand(env.norm, env.urlPath, api);
      ghost var before := ops;
      for j := 0 to |expanded|
        invariant ops == before + ItemsOfApi(env, api)[..j]
      {
        var op := expanded[j];
        var item := ManagedSync(
          ManagedKey(op.apiId, op.verb, op.gatewayPath),
          ManagedValues(op.apiName, op.apiVersion, op.apiContext, op.apiProvider, op.lifecycleStatus, op.backendPath,
                        op.authType, op.throttlingPolicy, op.backendURL, env.parseTime(api.updatedTime), []));
        assert item == ItemsOfApi(env, api)[j];
        assert ItemsOfApi(env, api)[..j + 1] == ItemsOfApi(env, api)[..j] + [item];
        ops := ops + [item];
      }
      assert ItemsOfApi(env, api)[..|expanded|] == ItemsOfApi(env, api);
    }
    assert details[..|details|] == details;
  }

  ghost predicate IsOperation(env: Env, api: ApiDetail, k: ManagedKey) {
    exists j :: 0 <= j < |api.operations| && k == KeyFor(env, api, api.operations[j])
  }

  lemma {:induction false} InBatchConcat(a: seq<ManagedSync>, b: seq<ManagedSync>, k: ManagedKey)
    ensures InBatch(a + b, k) <==> InBatch(a, k) || InBatch(b, k)
  {
    var all := a + b;
    forall i | 0 <= i < |a| ensures all[i] == a[i] {}
    forall i | 0 <= i < |b| ensures all[|a| + i] == b[i] {}
  }

  lemma {:induction false} KeysOfApi(env: Env, api: ApiDetail, k: ManagedKey)
    ensures InBatch(ItemsOfApi(env, api), k) <==> IsOperation(env, api, k)
  {
    var items := ItemsOfApi(env, api);
    assert forall j :: 0 <= j < |items| ==> items[j].key == KeyFor(env, api, api.operations[j]);
  }

  /** The keys of the batch are the operations of the fetched APIs. */
  lemma {:induction false} KeysOfItems(env: Env, details: seq<ApiDetail>, k: ManagedKey)
    ensures InBatch(ItemsOf(env, details), k) <==> exists api :: api in details && IsOperation(env, api, k)
  {
    if details == [] {
    } else {
      var init, last := details[..|details| - 1], details[|details| - 1];
      assert details == init + [last];
      KeysOfItems(env, init, k);
      InBatchConcat(ItemsOf(env, init), ItemsOfApi(env, last), k);
      KeysOfApi(env, last, k);
    }
  }

  /** The row says of the operation what the API and the operation say. */
  ghost predicate IsStoredAs(env: Env, api: ApiDetail, op: Operation, k: ManagedKey, v: ManagedValues) {
    && k.apiId == api.id && k.verb == ToUpper(op.verb)
    && k.gatewayPath == NormalizePath(env.norm, ComposeGatewayPath(api.context, api.version, op.target))
    && v.apiName == api.name && v.apiVersion == api.version && v.apiContext == api.context
    && v.apiProvider == api.provider && v.lifecycleStatus == api.lifeCycleStatus
    && v.authType == op.authType && v.throttlingPolicy == op.throttlingPolicy
    && v.backendURL == (if api.productionURL.Some? then api.productionURL.value else "")
    && v.backendPath == NormalizePath(env.norm, BackendBasePath(env.urlPath, v.backendURL) + op.target)
    && v.updatedTime == env.parseTime(api.updatedTime) && v.warnings == []
  }

  ghost predicate IsStored(env: Env, details: seq<ApiDetail>, k: ManagedKey, v: ManagedValues) {
    exists api, op :: api in details && op in api.operations && IsStoredAs(env, api, op, k, v)
  }

  lemma {:induction false} ItemsStored(env: Env, details: seq<ApiDetail>, x: ManagedSync)
    requires x in ItemsOf(env, details)
    ensures IsStored(env, details, x.key, x.values)
  {
    var init, last := details[..|details| - 1], details[|details| - 1];
    assert details == init + [last];
    if x in ItemsOf(env, init) {
      ItemsStored(env, init, x);
      var api, op :| api in init && op in api.operations && IsStoredAs(env, api, op, x.key, x.values);
      assert api in details;
    } else {
      var j :| 0 <= j < |last.operations| && x == ItemFor(env, last, last.operations[j]);
      assert IsStoredAs(env, last, last.operations[j], x.key, x.values);
    }
  }

  /** After a sync every active row holds what one of the fetched APIs says of
      one of its operations. */
  lemma {:induction false} StoredExactly(env: Env, details: seq<ApiDetail>, db: Db, start: Time, k: ManagedKey)
    requires CanSync(db, start)
    ensures var t := Apply(db, SyncManaged(ItemsOf(env, details), start));
            IsActive(t.managed, k) ==> IsStored(env, details, k, t.managed[k].values)
  {
    var items, t := ItemsOf(env, details), Apply(db, SyncManaged(ItemsOf(env, details), start));
    BatchBecomesActive(db, items, start);
    SyncedExact(db.managed, items, start);
    if IsActive(t.managed, k) {
      LastExists(items, k);
      var i :| 0 <= i < |items| && items[i].key == k && IsLast(items, i);
      assert items[i] in items;
      ItemsStored(env, details, items[i]);
    }
  }

  function IdOf(a: P.Summary): string { a.id }

  /** One cycle of phase 2. `fetch` stands for `FetchDetails`, which returns
      what could be fetched. A listing that fails ends the cycle with the table
      as it was: nothing is ever switched off for want of a page. */
  method RunCycle(
    tables: D.Tables, env: Env, server: P.Server, fetch: seq<string> -> seq<ApiDetail>, start: Time, fate: D.Outcome)
    returns (ok: bool)
    requires CanSync(tables.State(), start)
    modifies tables`managed, tables`lastSync
    ensures (exists k: nat :: P.FailsAt(server, k)) ==> !ok
    ensures fate == D.Committed && !(exists k: nat :: P.FailsAt(server, k)) ==> ok
    ensures !ok ==> tables.State() == old(tables.State())
    ensures forall k: nat :: P.EndsAt(server, k) && ok ==>
              var details := fetch(Map(IdOf, P.PublishedBefore(server, k + 1)));
              && tables.State() == Apply(old(tables.State()), SyncManaged(ItemsOf(env, details), start))
              && forall mk :: (IsActive(tables.managed, mk) <==> exists api :: api in details && IsOperation(env, api, mk))
                              && (IsActive(tables.managed, mk) ==> IsStored(env, details, mk, tables.managed[mk].values))
  {
    var summaries := P.ListPublishedAPIs(server);
    if summaries.None? {
      return false;
    }
    var ids: seq<string> := [];
    for i := 0 to |summaries.value|
      invariant ids == Map(IdOf, summaries.value[..i])
    {
      assert summaries.value[..i + 1] == summaries.value[..i] + [summaries.value[i]];
      ids := ids + [summaries.value[i].id];
    }
    assert summaries.value[..|summaries.value|] == summaries.value;
    var details := fetch(ids);
    var ops := CollectItems(env, details);
    ghost var before := tables.State();
    ok := tables.Sync(ops, start, fate);
    if ok {
      forall mk
        ensures IsActive(tables.managed, mk) <==> exists api :: api in details && IsOperation(env, api, mk)
        ensures IsActive(tables.managed, mk) ==> IsStored(env, details, mk, tables.managed[mk].values)
      {
        CycleStores(env, details, before, start, mk);
      }
    }
  }

  lemma {:induction false} CycleStores(env: Env, details: seq<ApiDetail>, db: Db, start: Time, mk: ManagedKey)
    requires CanSync(db, start)
    ensures var t := Apply(db, SyncManaged(ItemsOf(env, details), start));
            && (IsActive(t.managed, mk) <==> exists api :: api in details && IsOperation(env, api, mk))
            && (IsActive(t.managed, mk) ==> IsStored(env, details, mk, t.managed[mk].values))
  {
    BatchBecomesActive(db, ItemsOf(env, details), start);
    KeysOfItems(env, details, mk);
    StoredExactly(env, details, db, start, mk);
  }

  function DetailOf(r: F.Result): ApiDetail { r.detail }

  /** The caller of `FetchDetails` got its answer. */
  ghost predicate Returns(cfg: F.Config, fetches: seq<F.Step>) {
    F.IsRun(cfg, F.INITIAL, fetches) && F.After(cfg, F.INITIAL, fetches).caller.Returned?
  }

  /** The fetch of the `i`-th id brought this detail. */
  predicate Fetched(s: F.State, i: nat, api: ApiDetail) {
    i < |s.workers| && s.workers[i] == F.Gone(Some(api))
  }

  ghost predicate IsFetchedOperation(env: Env, s: F.State, k: ManagedKey) {
    exists i: nat, api :: Fetched(s, i, api) && IsOperation(env, api, k)
  }

  function Items(env: Env, s: F.State): seq<ManagedSync> {
    ItemsOf(env, Map(DetailOf, s.results))
  }

  lemma {:induction false} FetchedDetails(cfg: F.Config, fetches: seq<F.Step>, api: ApiDetail)
    requires Returns(cfg, fetches)
    ensures var s := F.After(cfg, F.INITIAL, fetches);
            api in Map(DetailOf, s.results) <==> exists i: nat :: Fetched(s, i, api)
  {
    F.EveryIdOnce(cfg, fetches);
    var s := F.After(cfg, F.INITIAL, fetches);
    var details := Map(DetailOf, s.results);
    if api in details {
      var j :| 0 <= j < |details| && details[j] == api;
      assert s.results[j] in s.results;
      assert Fetched(s, s.results[j].index, api);
    }
    forall i: nat | Fetched(s, i, api) ensures api in details {
      assert F.Result(i, api) in s.results;
      var j :| 0 <= j < |s.results| && s.results[j] == F.Result(i, api);
      assert details[j] == api;
    }
  }

  lemma {:induction false} KeysOfFetched(env: Env, cfg: F.Config, fetches: seq<F.Step>, k: ManagedKey)
    requires Returns(cfg, fetches)
    ensures var s := F.After(cfg, F.INITIAL, fetches);
            InBatch(Items(env, s), k) <==> IsFetchedOperation(env, s, k)
  {
    var s := F.After(cfg, F.INITIAL, fetches);
    KeysOfItems(env, Map(DetailOf, s.results), k);
    forall api ensures api in Map(DetailOf, s.results) <==> exists i: nat :: Fetched(s, i, api) {
      FetchedDetails(cfg, fetches, api);
    }
  }

  /** A sync that starts after the last one, as it may happen in any run. */
  ghost predicate CanSync(db: Db, start: Time) {
    Inv(db) && (db.lastSync.Some? ==> db.lastSync.value < start)
  }

  lemma {:induction false} BatchBecomesActive(db: Db, items: seq<ManagedSync>, start: Time)
    requires CanSync(db, start)
    ensures forall k :: IsActive(Apply(db, SyncManaged(items, start)).managed, k) <==> InBatch(items, k)
  {
    SyncReplacesIff(db.managed, items, start);
  }

  /** After a cycle the active managed rows are exactly the operations of the
      APIs whose details were fetched in it, in whatever order the fetches
      finished and however many failed. */
  lemma {:induction false} SyncMirrorsFetches(
    env: Env, cfg: F.Config, fetches: seq<F.Step>, db: Db, start: Time, k: ManagedKey)
    requires Returns(cfg, fetches) && CanSync(db, start)
    ensures var s := F.After(cfg, F.INITIAL, fetches);
            IsActive(Apply(db, SyncManaged(Items(env, s), start)).managed, k) <==> IsFetchedOperation(env, s, k)
  {
    BatchBecomesActive(db, Items(env, F.After(cfg, F.INITIAL, fetches)), start);
    KeysOfFetched(env, cfg, fetches, k);
  }

  /** The server answers each id with the API of that id. */
  ghost predicate AnswersIds(s: F.State, ids: seq<string>) {
    forall r :: r in s.results && r.index < |ids| ==> r.detail.id == ids[r.index]
  }

  /** An API whose fetch failed loses all its operations in the sync that
      follows, although it is still published. */
  lemma {:induction false} FailedFetchRetires(
    env: Env, cfg: F.Config, ids: seq<string>, fetches: seq<F.Step>, db: Db, start: Time, failed: nat, k: ManagedKey)
    requires |ids| == cfg.ids && NoDuplicates(ids) && Returns(cfg, fetches) && CanSync(db, start)
    requires failed in F.After(cfg, F.INITIAL, fetches).errs && AnswersIds(F.After(cfg, F.INITIAL, fetches), ids)
    ensures failed < |ids|
    ensures k.apiId == ids[failed] ==>
              !IsActive(Apply(db, SyncManaged(Items(env, F.After(cfg, F.INITIAL, fetches)), start)).managed, k)
  {
    var s := F.After(cfg, F.INITIAL, fetches);
    F.EveryIdOnce(cfg, fetches);
    SyncMirrorsFetches(env, cfg, fetches, db, start, k);
    OtherIds(s, ids, failed);
  }

  lemma {:induction false} OtherIds(s: F.State, ids: seq<string>, failed: nat)
    requires |ids| == |s.workers| && NoDuplicates(ids) && AnswersIds(s, ids)
    requires failed < |ids| && s.workers[failed] == F.Gone(None)
    requires forall r :: r in s.results <==> r.index < |ids| && s.workers[r.index] == F.Gone(Some(r.detail))
    ensures forall i: nat, api :: Fetched(s, i, api) ==> api.id != ids[failed]
  {
    forall i: nat, api | Fetched(s, i, api) ensures api.id != ids[failed] {
      var r := F.Result(i, api);
      assert r in s.results;
      assert r.detail.id == ids[r.index] && i != failed;
    }
  }
}
