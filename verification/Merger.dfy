/** `MergeAndNormalize` and `CollectServices` (internal/discovery/merger.go):
    one row per (service, method, normalised path), in ascending key order. */
module Merger {
  import opened Callers
  import opened Classifier
  import opened MergedRows
  import opened Normalizer
  import opened Ordering
  import opened Sequences
  import opened Strings

  function FullRow(n: Normalizer, window: WindowId, key: MergeKey, signals: seq<Signal>): MergedRow
    requires signals != []
  {
    RowOf(n, window, key, signals).(topClients := TopClients(signals))
  }

  predicate KeyLess(a: MergeKey, b: MergeKey) {
    if a.service != b.service then Less(a.service, b.service)
    else if a.verb != b.verb then Less(a.verb, b.verb)
    else Less(a.path, b.path)
  }

  predicate RowLess(a: MergedRow, b: MergedRow) {
    KeyLess(a.key, b.key)
  }

  lemma {:induction false} KeyLessTransitive(a: MergeKey, b: MergeKey, c: MergeKey)
    requires KeyLess(a, b) && KeyLess(b, c)
    ensures KeyLess(a, c)
  {
    LessIrreflexive(a.service);
    LessIrreflexive(a.verb);
    if a.service != b.service {
      if b.service != c.service { LessTransitive(a.service, b.service, c.service); }
    } else if b.service == c.service && a.verb != b.verb {
      if b.verb != c.verb { LessTransitive(a.verb, b.verb, c.verb); }
    } else if b.service == c.service && b.verb == c.verb {
      LessTransitive(a.path, b.path, c.path);
    }
    if a.service == c.service && a.service != b.service {
      LessIrreflexive(b.service);
    }
  }

  lemma {:induction false} KeyOrder()
    ensures StrictOrder(RowLess)
  {
    forall r: MergedRow ensures !RowLess(r, r) {
      LessIrreflexive(r.key.path);
    }
    forall a: MergedRow, b: MergedRow, c: MergedRow | RowLess(a, b) && RowLess(b, c) ensures RowLess(a, c) {
      KeyLessTransitive(a.key, b.key, c.key);
    }
  }

  ghost predicate DistinctKeys(rows: seq<MergedRow>) {
    forall i, j :: 0 <= i < j < |rows| ==> rows[i].key != rows[j].key
  }

  lemma {:induction false} RowsComparable(rows: seq<MergedRow>)
    requires DistinctKeys(rows)
    ensures Comparable(RowLess, rows)
  {
    forall i, j | 0 <= i < j < |rows| ensures RowLess(rows[i], rows[j]) || RowLess(rows[j], rows[i]) {
      var a, b := rows[i].key, rows[j].key;
      LessTotal(a.service, b.service);
      LessTotal(a.verb, b.verb);
      LessTotal(a.path, b.path);
    }
  }

  /** What the merge of a cycle is: exactly one row per key that occurs, each
      the full row of that key's signals, in strictly ascending key order. */
  ghost predicate IsMerge(n: Normalizer, window: WindowId, signals: seq<Signal>, out: seq<MergedRow>) {
    && Ascending(RowLess, out)
    && forall row :: row in out <==>
         var sel := Select(n, signals, row.key); sel != [] && row == FullRow(n, window, row.key, sel)
  }

  /** There is only one such sequence: map iteration order cannot show. */
  lemma {:induction false} MergeUnique(
    n: Normalizer, window: WindowId, signals: seq<Signal>, a: seq<MergedRow>, b: seq<MergedRow>)
    requires IsMerge(n, window, signals, a) && IsMerge(n, window, signals, b)
    ensures a == b
  {
    KeyOrder();
    AscendingUnique(RowLess, a, b);
  }

  ghost predicate RowOk(n: Normalizer, window: WindowId, signals: seq<Signal>, resolved: bool,
                        bucket: map<MergeKey, MergedRow>, key: MergeKey) {
    && (key in bucket <==> signals != [])
    && (key in bucket && resolved ==> bucket[key] == FullRow(n, window, key, signals))
    && (key in bucket && !resolved ==> bucket[key] == RowOf(n, window, key, signals))
  }

  /** The bucket after some signals, with the top callers resolved for the keys in `done`. */
  ghost predicate BucketOk(n: Normalizer, window: WindowId, seen: seq<Signal>, done: set<MergeKey>,
                           bucket: map<MergeKey, MergedRow>) {
    forall k :: RowOk(n, window, Select(n, seen, k), k in done, bucket, k)
  }

  type ClientMaps = map<MergeKey, map<string, ClientObservation>>

  ghost predicate ClientsOkAt(signals: seq<Signal>, clients: ClientMaps, key: MergeKey) {
    && (key in clients <==> Identities(signals) != [])
    && (key in clients ==> clients[key] == ClientsOf(signals))
  }

  ghost predicate ClientsOk(n: Normalizer, seen: seq<Signal>, clients: ClientMaps) {
    forall k :: ClientsOkAt(Select(n, seen, k), clients, k)
  }

  lemma {:induction false} SelectSnoc(n: Normalizer, seen: seq<Signal>, s: Signal, key: MergeKey)
    ensures Select(n, seen + [s], key) ==
            if KeyOf(n, s) == key then Select(n, seen, key) + [s] else Select(n, seen, key)
  {
    FilterSnoc(KeyIs(n, key), seen, s);
  }

  lemma {:induction false} BucketStep(n: Normalizer, window: WindowId, seen: seq<Signal>, s: Signal,
                   bucket: map<MergeKey, MergedRow>, row: MergedRow)
    requires BucketOk(n, window, seen, {}, bucket)
    requires row == RowOf(n, window, KeyOf(n, s), Select(n, seen, KeyOf(n, s)) + [s])
    ensures BucketOk(n, window, seen + [s], {}, bucket[KeyOf(n, s) := row])
  {
    var after := bucket[KeyOf(n, s) := row];
    forall k ensures RowOk(n, window, Select(n, seen + [s], k), k in {}, after, k) {
      assert RowOk(n, window, Select(n, seen, k), k in {}, bucket, k);
      SelectSnoc(n, seen, s, k);
    }
  }

  lemma {:induction false} ClientsStep(n: Normalizer, seen: seq<Signal>, s: Signal, clients: ClientMaps, after: ClientMaps)
    requires ClientsOk(n, seen, clients)
    requires after == if s.client.Identity() == "" then clients
                      else clients[KeyOf(n, s) := ClientsOf(Select(n, seen, KeyOf(n, s)) + [s])]
    ensures ClientsOk(n, seen + [s], after)
  {
    forall k ensures ClientsOkAt(Select(n, seen + [s], k), after, k) {
      var sel := Select(n, seen, k);
      assert ClientsOkAt(sel, clients, k);
      SelectSnoc(n, seen, s, k);
      if k == KeyOf(n, s) {
        IdentitiesSnoc(sel, s);
        if s.client.Identity() == "" {
          SameClients(sel, s);
        }
      }
    }
  }

  lemma {:induction false} SameClients(before: seq<Signal>, s: Signal)
    requires s.client.Identity() == ""
    ensures ClientsOf(before + [s]) == ClientsOf(before)
  {
    IdentitiesSnoc(before, s);
    IdentitiesExact(before);
    OthersUnchanged(before, s);
  }

  /** One iteration of the first loop. */
  method FoldInto(n: Normalizer, window: WindowId, s: Signal, bucket: map<MergeKey, MergedRow>,
                  clientsByBucket: ClientMaps, ghost seen: seq<Signal>)
    returns (bucket': map<MergeKey, MergedRow>, clientsByBucket': ClientMaps)
    requires BucketOk(n, window, seen, {}, bucket) && ClientsOk(n, seen, clientsByBucket)
    ensures BucketOk(n, window, seen + [s], {}, bucket')
    ensures ClientsOk(n, seen + [s], clientsByBucket')
  {
    var key := MergeKey(s.service, s.raw.verb, Normalize(n, s.raw.endpoint));
    ghost var before := Select(n, seen, key);
    assert RowOk(n, window, before, key in {}, bucket, key);
    var existing := if key in bucket then bucket[key] else NewRow(n, window, key, s);
    var row := FoldSignal(n, window, key, existing, s, before);
    bucket' := bucket[key := row];
    clientsByBucket' := clientsByBucket;
    if s.client.Identity() != "" {
      assert ClientsOkAt(before, clientsByBucket, key);
      var clients := if key in clientsByBucket then clientsByBucket[key] else map[];
      clients := FoldClient(clients, s, before);
      clientsByBucket' := clientsByBucket[key := clients];
    }
    BucketStep(n, window, seen, s, bucket, row);
    ClientsStep(n, seen, s, clientsByBucket, clientsByBucket');
  }

  method MergeAndNormalize(signals: seq<Signal>, n: Normalizer, window: WindowId) returns (out: seq<MergedRow>)
    ensures IsMerge(n, window, signals, out)
  {
    var bucket: map<MergeKey, MergedRow> := map[];
    var clientsByBucket: ClientMaps := map[];
    for i := 0 to |signals|
      invariant BucketOk(n, window, signals[..i], {}, bucket)
      invariant ClientsOk(n, signals[..i], clientsByBucket)
    {
      assert signals[..i + 1] == signals[..i] + [signals[i]];
      bucket, clientsByBucket := FoldInto(n, window, signals[i], bucket, clientsByBucket, signals[..i]);
    }
    assert signals[..|signals|] == signals;
    bucket := ResolveAll(n, window, signals, bucket, clientsByBucket);
    out := CollectRows(n, window, signals, bucket);
  }

  lemma {:induction false} ResolveStep(n: Normalizer, window: WindowId, signals: seq<Signal>, done: set<MergeKey>,
                    bucket: map<MergeKey, MergedRow>, key: MergeKey)
    requires BucketOk(n, window, signals, done, bucket) && key !in done && key in bucket
    ensures BucketOk(n, window, signals, done + {key},
                     bucket[key := bucket[key].(topClients := TopClients(Select(n, signals, key)))])
  {
    var after := bucket[key := bucket[key].(topClients := TopClients(Select(n, signals, key)))];
    forall k ensures RowOk(n, window, Select(n, signals, k), k in done + {key}, after, k) {
      assert RowOk(n, window, Select(n, signals, k), k in done, bucket, k);
    }
  }

  /** A key without identified callers needs no resolving. */
  lemma {:induction false} NothingLeft(n: Normalizer, window: WindowId, signals: seq<Signal>, clients: ClientMaps,
                    bucket: map<MergeKey, MergedRow>)
    requires ClientsOk(n, signals, clients) && BucketOk(n, window, signals, clients.Keys, bucket)
    ensures BucketOk(n, window, signals, bucket.Keys, bucket)
  {
    forall k ensures RowOk(n, window, Select(n, signals, k), k in bucket.Keys, bucket, k) {
      assert RowOk(n, window, Select(n, signals, k), k in clients.Keys, bucket, k);
      assert ClientsOkAt(Select(n, signals, k), clients, k);
      RankedSorts(Select(n, signals, k));
    }
  }

  /** The second loop: top callers per key, the keys taken in any order. */
  method ResolveAll(n: Normalizer, window: WindowId, ghost signals: seq<Signal>, rows: map<MergeKey, MergedRow>,
                    clientsByBucket: ClientMaps)
    returns (bucket: map<MergeKey, MergedRow>)
    requires BucketOk(n, window, signals, {}, rows) && ClientsOk(n, signals, clientsByBucket)
    ensures BucketOk(n, window, signals, bucket.Keys, bucket)
  {
    bucket := rows;
    var todo := clientsByBucket.Keys;
    ghost var done := {};
    while todo != {}
      invariant todo <= clientsByBucket.Keys && done == clientsByBucket.Keys - todo
      invariant BucketOk(n, window, signals, done, bucket)
    {
      var key :| key in todo;
      ghost var sel := Select(n, signals, key);
      assert ClientsOkAt(sel, clientsByBucket, key);
      assert RowOk(n, window, sel, key in done, bucket, key);
      var list := ResolveTopClients(clientsByBucket[key], sel);
      ResolveStep(n, window, signals, done, bucket, key);
      TakeOne(clientsByBucket.Keys, todo, key);
      bucket := bucket[key := bucket[key].(topClients := list)];
      todo, done := todo - {key}, done + {key};
    }
    assert done == clientsByBucket.Keys;
    NothingLeft(n, window, signals, clientsByBucket, bucket);
  }

  /** The third loop and the final sort; afterwards the order of collection is gone. */
  method CollectRows(n: Normalizer, window: WindowId, ghost signals: seq<Signal>, bucket: map<MergeKey, MergedRow>)
    returns (out: seq<MergedRow>)
    requires BucketOk(n, window, signals, bucket.Keys, bucket)
    ensures IsMerge(n, window, signals, out)
  {
    ghost var keys;
    out, keys := RangeOver(bucket);
    forall i | 0 <= i < |keys| ensures keys[i] in bucket && out[i] == bucket[keys[i]] && out[i].key == keys[i] {
      assert keys[i] in keys;
      assert RowOk(n, window, Select(n, signals, keys[i]), keys[i] in bucket.Keys, bucket, keys[i]);
    }
    SortedRows(n, window, signals, bucket, out, keys);
    out := Sort(RowLess, out);
  }

  lemma {:induction false} FoundByKey(bucket: map<MergeKey, MergedRow>, rows: seq<MergedRow>, keys: seq<MergeKey>, row: MergedRow)
    requires forall k :: k in keys <==> k in bucket
    requires |rows| == |keys|
    requires forall i :: 0 <= i < |keys| ==> keys[i] in bucket && rows[i] == bucket[keys[i]] && rows[i].key == keys[i]
    ensures row in rows <==> row.key in bucket && row == bucket[row.key]
  {
    if row.key in keys {
      var i :| 0 <= i < |keys| && keys[i] == row.key;
      assert rows[i] in rows;
    }
  }

  lemma {:induction false} SortedRows(n: Normalizer, window: WindowId, signals: seq<Signal>, bucket: map<MergeKey, MergedRow>,
                   rows: seq<MergedRow>, keys: seq<MergeKey>)
    requires BucketOk(n, window, signals, bucket.Keys, bucket)
    requires NoDuplicates(keys) && forall k :: k in keys <==> k in bucket
    requires |rows| == |keys|
    requires forall i :: 0 <= i < |keys| ==> keys[i] in bucket && rows[i] == bucket[keys[i]] && rows[i].key == keys[i]
    ensures IsMerge(n, window, signals, Sort(RowLess, rows))
  {
    KeyOrder();
    RowsComparable(rows);
    SortSorts(RowLess, rows);
    forall row ensures row in Sort(RowLess, rows) <==>
        var sel := Select(n, signals, row.key); sel != [] && row == FullRow(n, window, row.key, sel)
    {
      FoundByKey(bucket, rows, keys, row);
      assert RowOk(n, window, Select(n, signals, row.key), row.key in bucket.Keys, bucket, row.key);
    }
  }
}
