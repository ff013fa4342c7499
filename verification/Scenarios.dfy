/** Small reachable states, from which the examples are built: one request has
    been seen, and an operation has been declared for it. */
module Scenarios {
  import opened Classifier
  import opened Clock
  import opened Counting
  import opened DiscoveredTable
  import opened Governance
  import opened GovernanceRuns
  import opened ManagedTable
  import opened MergedRows
  import opened Normalizer
  import opened Options

  /** After a first sync, which declared nothing. */
  function Started(now: Time): Db {
    Apply(Initial(now), SyncManaged([], now - 1))
  }

  /** And the first cycle, which saw one request. */
  function Seen(n: Normalizer, s: Signal, now: Time): Db {
    Apply(Started(now), BatchUpsert(LoneCycle(n, 1, s)))
  }

  function Opening(n: Normalizer, s: Signal, now: Time): seq<Step> {
    [SyncManaged([], now - 1), BatchUpsert(LoneCycle(n, 1, s))]
  }

  function SeenRow(n: Normalizer, s: Signal): RowId {
    RowId(KeyOf(n, s), 0)
  }

  lemma {:induction false} StartedEmpty(now: Time)
    ensures Started(now) == Initial(now).(lastSync := Some(now - 1)) && Inv(Started(now))
  {
    assert Synced(map[], [], now - 1) == map[];
  }

  /** All that the examples need to know about the state after that. */
  ghost predicate HasSeen(t: Db, n: Normalizer, s: Signal, now: Time) {
    && t.now == now && t.lastSync == Some(now - 1) && t.managed == map[] && t.findings == map[]
    && (forall k :: k in Rows(t) <==> k == KeyOf(n, s))
    && var row := Rows(t)[KeyOf(n, s)];
       row.born == 0 && row.isActive && !row.isAnchor && row.lastSeen == UnixToTime(s.raw.lastSeenUnix)
  }

  lemma {:induction false} SeenIsThere(n: Normalizer, s: Signal, now: Time)
    ensures HasSeen(Seen(n, s, now), n, s, now)
  {
    LoneUpsert(n, 1, s);
    StartedEmpty(now);
  }

  lemma {:induction false} OpeningRuns(n: Normalizer, s: Signal, now: Time)
    ensures IsRun(n, Initial(now), Opening(n, s, now)) && After(Initial(now), Opening(n, s, now)) == Seen(n, s, now)
  {
    LoneCycleIsValid(n, 1, s);
    TwoSteps(n, Initial(now), SyncManaged([], now - 1), BatchUpsert(LoneCycle(n, 1, s)));
  }

  /** The operation that declares exactly this request. */
  function Declaration(n: Normalizer, s: Signal, values: ManagedValues): ManagedSync {
    ManagedSync(ManagedKey("api", KeyOf(n, s).verb, KeyOf(n, s).path), values)
  }

  function Declaring(n: Normalizer, s: Signal, values: ManagedValues, start: Time): Step {
    SyncManaged([Declaration(n, s, values)], start)
  }

  lemma {:induction false} DeclaredIsMatched(n: Normalizer, s: Signal, values: ManagedValues, start: Time, db: Db)
    ensures IsMatched(Apply(db, Declaring(n, s, values, start)), KeyOf(n, s))
    ensures Rows(Apply(db, Declaring(n, s, values, start))) == Rows(db)
  {
    var item, t := Declaration(n, s, values), Apply(db, Declaring(n, s, values, start));
    SyncedExact(db.managed, [item], start);
    assert [item][0] == item;
    assert InBatch([item], item.key);
    assert Joins(item.key, t.managed[item.key], KeyOf(n, s));
  }
}
