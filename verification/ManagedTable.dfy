/** The table of operations declared in APIM and the transaction that
    synchronises it (internal/store/managed_repo.go). */
module ManagedTable {
  import opened Clock

  /** The unique constraint (apim_api_id, method, gateway_path). */
  datatype ManagedKey = ManagedKey(apiId: string, verb: string, gatewayPath: string)

  datatype ManagedValues = ManagedValues(
    apiName: string, apiVersion: string, apiContext: string, apiProvider: string, lifecycleStatus: string,
    backendPath: string, authType: string, throttlingPolicy: string, backendURL: string,
    updatedTime: Time, warnings: seq<string>)

  datatype ManagedSync = ManagedSync(key: ManagedKey, values: ManagedValues)

  datatype ManagedRow = ManagedRow(values: ManagedValues, lastSynced: Time, isActive: bool)

  type Managed = map<ManagedKey, ManagedRow>

  /** INSERT … ON CONFLICT DO UPDATE: every column but the key is overwritten. */
  function UpsertManaged(t: Managed, x: ManagedSync, start: Time): Managed {
    t[x.key := ManagedRow(x.values, start, true)]
  }

  function UpsertAllManaged(t: Managed, items: seq<ManagedSync>, start: Time): Managed {
    if items == [] then t else UpsertManaged(UpsertAllManaged(t, items[..|items| - 1], start), items[|items| - 1], start)
  }

  function SoftDeleteStale(t: Managed, start: Time): Managed {
    map k | k in t :: if t[k].lastSynced < start && t[k].isActive then t[k].(isActive := false) else t[k]
  }

  /** The table after a committed sync. */
  function Synced(t: Managed, items: seq<ManagedSync>, start: Time): Managed {
    SoftDeleteStale(UpsertAllManaged(t, items, start), start)
  }

  ghost predicate InBatch(items: seq<ManagedSync>, k: ManagedKey) {
    exists i :: 0 <= i < |items| && items[i].key == k
  }

  /** Item `i` is the last one with its key. */
  ghost predicate IsLast(items: seq<ManagedSync>, i: nat)
    requires i < |items|
  {
    forall j :: i < j < |items| ==> items[j].key != items[i].key
  }

  lemma {:induction false} BatchSnoc(items: seq<ManagedSync>, x: ManagedSync, k: ManagedKey)
    ensures InBatch(items + [x], k) <==> InBatch(items, k) || k == x.key
    ensures forall i :: 0 <= i < |items| && IsLast(items + [x], i) ==> IsLast(items, i) && items[i].key != x.key
  {
    var all := items + [x];
    assert all[|items|] == x;
    assert forall i :: 0 <= i < |items| ==> all[i] == items[i];
  }

  lemma {:induction false} UpsertAllManagedAt(t: Managed, items: seq<ManagedSync>, start: Time, k: ManagedKey)
    ensures var after := UpsertAllManaged(t, items, start);
            && (k in after <==> k in t || InBatch(items, k))
            && (k in t && !InBatch(items, k) ==> after[k] == t[k])
            && (InBatch(items, k) ==> after[k].lastSynced == start && after[k].isActive)
            && (forall i :: 0 <= i < |items| && IsLast(items, i) && items[i].key == k ==>
                  k in after && after[k] == ManagedRow(items[i].values, start, true))
  {
    if items == [] {
    } else {
      var init, x := items[..|items| - 1], items[|items| - 1];
      assert items == init + [x];
      UpsertAllManagedAt(t, init, start, k);
      BatchSnoc(init, x, k);
    }
  }

  ghost predicate IsActive(t: Managed, k: ManagedKey) {
    k in t && t[k].isActive
  }

  /** After a committed sync: every key of the batch is active with the values
      of its last occurrence and this start time; any other row is untouched
      except that it is switched off if it was synced before this start. */
  lemma {:induction false} SyncedExact(t: Managed, items: seq<ManagedSync>, start: Time)
    ensures var after := Synced(t, items, start);
            && (forall i :: 0 <= i < |items| && IsLast(items, i) ==>
                  items[i].key in after && after[items[i].key] == ManagedRow(items[i].values, start, true))
            && (forall k :: InBatch(items, k) ==> IsActive(after, k) && after[k].lastSynced == start)
            && (forall k :: k in after <==> k in t || InBatch(items, k))
            && (forall k :: k in t && !InBatch(items, k) ==>
                  after[k] == t[k].(isActive := t[k].isActive && start <= t[k].lastSynced))
  {
    forall k: ManagedKey {:trigger InBatch(items, k)}
      ensures var upserted := UpsertAllManaged(t, items, start);
              && (k in upserted <==> k in t || InBatch(items, k))
              && (k in t && !InBatch(items, k) ==> upserted[k] == t[k])
              && (InBatch(items, k) ==> upserted[k].lastSynced == start && upserted[k].isActive)
    {
      UpsertAllManagedAt(t, items, start, k);
    }
    forall i | 0 <= i < |items| && IsLast(items, i)
      ensures items[i].key in Synced(t, items, start)
      ensures Synced(t, items, start)[items[i].key] == ManagedRow(items[i].values, start, true)
    {
      UpsertAllManagedAt(t, items, start, items[i].key);
    }
  }

  /** The batch becomes exactly the set of active operations if and only if
      every other active row was last synced before this start. */
  lemma {:induction false} SyncReplacesIff(t: Managed, items: seq<ManagedSync>, start: Time)
    ensures (forall k :: IsActive(Synced(t, items, start), k) <==> InBatch(items, k))
            <==> (forall k :: IsActive(t, k) && !InBatch(items, k) ==> t[k].lastSynced < start)
  {
    SyncedExact(t, items, start);
    var after := Synced(t, items, start);
    forall k | k in t && !InBatch(items, k)
      ensures IsActive(after, k) <==> IsActive(t, k) && !(t[k].lastSynced < start)
    {
      assert after[k] == t[k].(isActive := t[k].isActive && start <= t[k].lastSynced);
    }
  }

  /** Every key of the batch has a last occurrence, so its values are determined. */
  lemma {:induction false} LastExists(items: seq<ManagedSync>, k: ManagedKey)
    requires InBatch(items, k)
    ensures exists i :: 0 <= i < |items| && items[i].key == k && IsLast(items, i)
  {
    var last := |items| - 1;
    if items[last].key == k {
      assert IsLast(items, last);
    } else {
      var init := items[..last];
      var i :| 0 <= i < |items| && items[i].key == k;
      assert init[i].key == k;
      LastExists(init, k);
      var j :| 0 <= j < |init| && init[j].key == k && IsLast(init, j);
      forall m | j < m < |items| ensures items[m].key != items[j].key {
        assert m < last ==> init[m].key != init[j].key;
      }
      assert IsLast(items, j);
    }
  }
}
