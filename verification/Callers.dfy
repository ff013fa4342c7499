/** The callers of one merged row, ranked (internal/discovery/merger.go). */
module Callers {
  import opened Classifier
  import opened Counting
  import opened MergedRows
  import opened Ordering
  import opened Sequences
  import opened Strings

  const CLIENTS_CAP := 20

  function SentBy(identity: string): Signal -> bool {
    (s: Signal) => s.client.Identity() == identity
  }

  function By(signals: seq<Signal>, identity: string): seq<Signal> {
    Filter(SentBy(identity), signals)
  }

  /** The identities seen, without anonymous callers, in order of appearance. */
  function Identities(signals: seq<Signal>): seq<string> {
    Distinct(Filter(NonBlank, Map(IdentityOf, signals)))
  }

  /** The port of the first signal, or the first positive one when that is 0. */
  function SamplePort(signals: seq<Signal>): int
    requires signals != []
  {
    var last := signals[|signals| - 1];
    if |signals| == 1 then last.raw.clientPort
    else
      var port := SamplePort(signals[..|signals| - 1]);
      if port == 0 && last.raw.clientPort > 0 then last.raw.clientPort else port
  }

  /** The observation of one caller; blank for a caller not seen. */
  function ClientOf(signals: seq<Signal>, identity: string): ClientObservation {
    var calls := By(signals, identity);
    if calls == [] then ClientObservation(identity, false, "", "", "", 0, 0)
    else
      ClientObservation(
        identity, calls[0].client.K8sClient?, calls[0].raw.clientNamespace, calls[0].raw.clientWorkload,
        calls[0].raw.clientIp, SamplePort(calls), Total(calls).Rows())
  }

  function ClientsOf(signals: seq<Signal>): map<string, ClientObservation> {
    map identity | identity in Identities(signals) :: ClientOf(signals, identity)
  }

  lemma {:induction false} IdentitiesSnoc(signals: seq<Signal>, s: Signal)
    ensures var ids, id := Identities(signals), s.client.Identity();
            Identities(signals + [s]) == if id == "" || id in ids then ids else ids + [id]
  {
    MapSnoc(IdentityOf, signals, s);
    FilterSnoc(NonBlank, Map(IdentityOf, signals), s.client.Identity());
    DistinctSnoc(Filter(NonBlank, Map(IdentityOf, signals)), s.client.Identity());
  }

  lemma {:induction false} IdentitiesExact(signals: seq<Signal>)
    ensures NoDuplicates(Identities(signals))
    ensures forall id :: id in Identities(signals) <==> id != "" && By(signals, id) != []
  {
    DistinctElements(Filter(NonBlank, Map(IdentityOf, signals)));
    if signals == [] {
    } else {
      var init, last := signals[..|signals| - 1], signals[|signals| - 1];
      IdentitiesExact(init);
      assert signals == init + [last];
      IdentitiesSnoc(init, last);
    }
  }

  lemma {:induction false} ClientOfSnoc(before: seq<Signal>, s: Signal, identity: string)
    ensures By(before + [s], identity) ==
            if s.client.Identity() == identity then By(before, identity) + [s] else By(before, identity)
    ensures Total(By(before, identity) + [s]).Rows() == Total(By(before, identity)).Rows() + s.raw.rowCount
  {
    FilterSnoc(SentBy(identity), before, s);
    TotalSnoc(By(before, identity), s);
  }

  function NewClient(s: Signal): ClientObservation {
    ClientObservation(
      s.client.Identity(), s.client.K8sClient?, s.raw.clientNamespace, s.raw.clientWorkload,
      s.raw.clientIp, s.raw.clientPort, 0)
  }

  lemma {:induction false} ObservationSnoc(before: seq<Signal>, s: Signal)
    ensures var identity := s.client.Identity();
            var obs := if By(before, identity) == [] then NewClient(s) else ClientOf(before, identity);
            ClientOf(before + [s], identity) == obs.(
              observations := obs.observations + s.raw.rowCount,
              port := if obs.port == 0 && s.raw.clientPort > 0 then s.raw.clientPort else obs.port)
  {
    var identity := s.client.Identity();
    var calls := By(before, identity);
    ClientOfSnoc(before, s, identity);
    assert (calls + [s])[..|calls|] == calls;
    if calls == [] {
      assert calls + [s] == [s];
    }
  }

  lemma {:induction false} FoldClientExact(before: seq<Signal>, s: Signal)
    requires s.client.Identity() != ""
    ensures var identity := s.client.Identity();
            && ClientsOf(before + [s]) == ClientsOf(before)[identity := ClientOf(before + [s], identity)]
            && (identity in ClientsOf(before) <==> By(before, identity) != [])
            && (identity in ClientsOf(before) ==> ClientsOf(before)[identity] == ClientOf(before, identity))
  {
    var identity := s.client.Identity();
    IdentitiesExact(before);
    IdentitiesSnoc(before, s);
    OthersUnchanged(before, s);
  }

  lemma {:induction false} OthersUnchanged(before: seq<Signal>, s: Signal)
    ensures forall id {:trigger ClientOf(before + [s], id)} ::
              id != s.client.Identity() ==> ClientOf(before + [s], id) == ClientOf(before, id)
  {
    forall id: string {:trigger ClientOf(before + [s], id)} | id != s.client.Identity()
      ensures ClientOf(before + [s], id) == ClientOf(before, id)
    {
      ClientOfSnoc(before, s, id);
    }
  }

  /** One loop iteration for a caller with an identity: look it up or create
      it, add the rows, keep the first port. */
  method FoldClient(clients: map<string, ClientObservation>, s: Signal, ghost before: seq<Signal>)
    returns (r: map<string, ClientObservation>)
    requires clients == ClientsOf(before) && s.client.Identity() != ""
    ensures r == ClientsOf(before + [s])
  {
    FoldClientExact(before, s);
    ObservationSnoc(before, s);
    var identity := s.client.Identity();
    var obs;
    if identity in clients {
      obs := clients[identity];
    } else {
      obs := NewClient(s);
    }
    obs := obs.(observations := obs.observations + s.raw.rowCount);
    if obs.port == 0 && s.raw.clientPort > 0 {
      obs := obs.(port := s.raw.clientPort);
    }
    assert obs == ClientOf(before + [s], identity);
    r := clients[identity := obs];
  }

  // --------------------------------------------------------------- ranking

  /** More observations first; the identity breaks ties. */
  predicate RanksAbove(a: ClientObservation, b: ClientObservation) {
    a.observations > b.observations || (a.observations == b.observations && Less(a.identity, b.identity))
  }

  function Observed(signals: seq<Signal>): (r: seq<ClientObservation>)
    ensures |r| == |Identities(signals)|
    ensures forall i :: 0 <= i < |r| ==> r[i] == ClientOf(signals, Identities(signals)[i])
  {
    seq(|Identities(signals)|, i requires 0 <= i < |Identities(signals)| => ClientOf(signals, Identities(signals)[i]))
  }

  function Ranked(signals: seq<Signal>): seq<ClientObservation> {
    Sort(RanksAbove, Observed(signals))
  }

  function TopClients(signals: seq<Signal>): seq<ClientObservation> {
    Take(Ranked(signals), CLIENTS_CAP)
  }

  lemma {:induction false} RankIsStrict()
    ensures StrictOrder(RanksAbove)
  {
    forall a: ClientObservation ensures !RanksAbove(a, a) {
      LessIrreflexive(a.identity);
    }
    forall a: ClientObservation, b: ClientObservation, c: ClientObservation | RanksAbove(a, b) && RanksAbove(b, c)
      ensures RanksAbove(a, c)
    {
      if Less(a.identity, b.identity) && Less(b.identity, c.identity) {
        LessTransitive(a.identity, b.identity, c.identity);
      }
    }
  }

  ghost predicate DistinctIdentities(xs: seq<ClientObservation>) {
    forall i, j :: 0 <= i < j < |xs| ==> xs[i].identity != xs[j].identity
  }

  lemma {:induction false} RankComparable(xs: seq<ClientObservation>)
    requires DistinctIdentities(xs)
    ensures Comparable(RanksAbove, xs)
  {
    forall i, j | 0 <= i < j < |xs| ensures RanksAbove(xs[i], xs[j]) || RanksAbove(xs[j], xs[i]) {
      LessTotal(xs[i].identity, xs[j].identity);
    }
  }

  lemma {:induction false} RankedSorts(signals: seq<Signal>)
    ensures Ascending(RanksAbove, Ranked(signals)) && SameElements(Ranked(signals), Observed(signals))
    ensures |Ranked(signals)| == |Identities(signals)|
    ensures DistinctIdentities(Observed(signals))
  {
    IdentitiesExact(signals);
    RankIsStrict();
    RankComparable(Observed(signals));
    SortSorts(RanksAbove, Observed(signals));
  }

  /** `clientsByBucket[key]` turned into the sorted, capped list; the map is
      walked in an arbitrary order, which the result does not show. */
  method ResolveTopClients(clients: map<string, ClientObservation>, ghost signals: seq<Signal>)
    returns (list: seq<ClientObservation>)
    requires clients == ClientsOf(signals)
    ensures list == TopClients(signals)
  {
    ghost var keys;
    list, keys := RangeOver(clients);
    CallersInAnyOrder(signals, list, keys);
    list := Sort(RanksAbove, list);
    if |list| > CLIENTS_CAP {
      list := list[..CLIENTS_CAP];
    }
  }

  lemma {:induction false} ObservedExactly(signals: seq<Signal>, c: ClientObservation)
    ensures c in Observed(signals) <==> c.identity in ClientsOf(signals) && c == ClientOf(signals, c.identity)
  {
    var ids := Identities(signals);
    if c.identity in ids {
      var i :| 0 <= i < |ids| && ids[i] == c.identity;
      assert Observed(signals)[i] == ClientOf(signals, c.identity);
    }
  }

  lemma {:induction false} CallersInAnyOrder(signals: seq<Signal>, list: seq<ClientObservation>, keys: seq<string>)
    requires NoDuplicates(keys) && forall id :: id in keys <==> id in ClientsOf(signals)
    requires |list| == |keys| && forall i :: 0 <= i < |keys| ==> list[i] == ClientOf(signals, keys[i])
    ensures Sort(RanksAbove, list) == Ranked(signals)
  {
    var observed := Observed(signals);
    assert forall i :: 0 <= i < |list| ==> list[i].identity == keys[i];
    forall c ensures c in list <==> c in observed {
      ObservedExactly(signals, c);
      if c.identity in keys {
        var i :| 0 <= i < |keys| && keys[i] == c.identity;
        assert list[i] == ClientOf(signals, c.identity);
      }
    }
    RankedSorts(signals);
    RankIsStrict();
    RankComparable(list);
    RankComparable(observed);
    SortIgnoresOrder(RanksAbove, list, observed);
  }

  /** The rows behind one caller. */
  function RowsSentBy(identity: string): Signal -> nat {
    (s: Signal) => if s.client.Identity() == identity then s.raw.rowCount else 0
  }

  lemma {:induction false} RowsOfCaller(signals: seq<Signal>, identity: string)
    ensures Total(By(signals, identity)).Rows() == Sum(RowsSentBy(identity), signals)
  {
    if signals == [] {
    } else {
      var init, last := signals[..|signals| - 1], signals[|signals| - 1];
      assert signals == init + [last];
      RowsOfCaller(init, identity);
      ClientOfSnoc(init, last, identity);
      SumSnoc(RowsSentBy(identity), init, last);
    }
  }

  /** Signal `i` is the first one of the caller. */
  predicate IsFirstCall(signals: seq<Signal>, identity: string, i: nat) {
    && i < |signals| && signals[i].client.Identity() == identity
    && forall j :: 0 <= j < i ==> signals[j].client.Identity() != identity
  }

  lemma {:induction false} FirstCall(signals: seq<Signal>, identity: string)
    requires By(signals, identity) != []
    ensures exists i: nat :: IsFirstCall(signals, identity, i) && By(signals, identity)[0] == signals[i]
  {
    var init, last := signals[..|signals| - 1], signals[|signals| - 1];
    assert signals == init + [last];
    ClientOfSnoc(init, last, identity);
    if By(init, identity) != [] {
      FirstCall(init, identity);
      var i: nat :| IsFirstCall(init, identity, i) && By(init, identity)[0] == init[i];
      assert IsFirstCall(signals, identity, i);
    } else {
      FilterElements(SentBy(identity), init);
      assert forall j :: 0 <= j < |init| ==> init[j] in init && init[j].client.Identity() != identity by {
        assert forall x :: x !in By(init, identity);
      }
      assert IsFirstCall(signals, identity, |init|);
    }
  }

  /** The port of the first call if it has one, else the first positive one. */
  ghost predicate IsSamplePort(port: int, calls: seq<Signal>)
    requires calls != []
  {
    if calls[0].raw.clientPort != 0 then port == calls[0].raw.clientPort
    else if forall i :: 0 <= i < |calls| ==> calls[i].raw.clientPort <= 0 then port == 0
    else exists i :: 0 <= i < |calls| && port == calls[i].raw.clientPort > 0
                     && forall j :: 0 <= j < i ==> calls[j].raw.clientPort <= 0
  }

  lemma {:induction false} SamplePortSnoc(init: seq<Signal>, last: Signal, port: int)
    requires init != [] && IsSamplePort(port, init)
    ensures IsSamplePort(if port == 0 && last.raw.clientPort > 0 then last.raw.clientPort else port, init + [last])
  {
    var calls := init + [last];
    assert calls[0] == init[0] && calls[|init|] == last;
    if init[0].raw.clientPort != 0 {
    } else if forall i :: 0 <= i < |init| ==> init[i].raw.clientPort <= 0 {
      assert forall j :: 0 <= j < |init| ==> calls[j].raw.clientPort <= 0;
    } else {
      var i :| 0 <= i < |init| && port == init[i].raw.clientPort > 0
               && forall j :: 0 <= j < i ==> init[j].raw.clientPort <= 0;
      assert calls[i] == init[i] && forall j :: 0 <= j < i ==> calls[j] == init[j];
    }
  }

  lemma {:induction false} SamplePortExact(calls: seq<Signal>)
    requires calls != []
    ensures IsSamplePort(SamplePort(calls), calls)
  {
    if |calls| == 1 {
    } else {
      var init, last := calls[..|calls| - 1], calls[|calls| - 1];
      SamplePortExact(init);
      assert calls == init + [last];
      SamplePortSnoc(init, last, SamplePort(init));
    }
  }

  /** The entry of a caller: its rows in all, what its first call says of it,
      and a port. */
  ghost predicate IsCaller(c: ClientObservation, signals: seq<Signal>) {
    && c.identity != "" && c.observations == Sum(RowsSentBy(c.identity), signals)
    && By(signals, c.identity) != [] && IsSamplePort(c.port, By(signals, c.identity))
    && exists i: nat :: IsFirstCall(signals, c.identity, i) && SaysOf(signals[i], c)
  }

  predicate SaysOf(s: Signal, c: ClientObservation) {
    && c.isK8s == s.client.K8sClient? && c.namespace == s.raw.clientNamespace
    && c.workload == s.raw.clientWorkload && c.ip == s.raw.clientIp
  }

  /** More observations, or as many and a smaller identity. */
  predicate IsAhead(observations: nat, identity: string, other: nat, otherIdentity: string) {
    if observations == other then Less(identity, otherIdentity) else observations > other
  }

  /** Ranked by observations, then by identity; at most 20; and whoever is
      missing ranks below 20 others. */
  ghost predicate AreTopCallers(top: seq<ClientObservation>, signals: seq<Signal>) {
    && |top| <= 20
    && (forall i, j :: 0 <= i < j < |top| ==>
          IsAhead(top[i].observations, top[i].identity, top[j].observations, top[j].identity))
    && (forall c :: c in top ==> IsCaller(c, signals))
    && (forall s :: s in signals && s.client.Identity() != "" && (forall c :: c in top ==> c.identity != s.client.Identity()) ==>
          |top| == 20 && forall c :: c in top ==>
            IsAhead(c.observations, c.identity, Sum(RowsSentBy(s.client.Identity()), signals), s.client.Identity()))
  }

  lemma {:induction false} CallerExact(signals: seq<Signal>, c: ClientObservation)
    requires c in TopClients(signals)
    ensures IsCaller(c, signals)
  {
    RankedSorts(signals);
    IdentitiesExact(signals);
    assert c in Ranked(signals);
    assert c in Observed(signals);
    RowsOfCaller(signals, c.identity);
    FirstCall(signals, c.identity);
    SamplePortExact(By(signals, c.identity));
  }

  /** The list is the exact top 20. */
  lemma {:induction false} TopClientsExact(signals: seq<Signal>)
    ensures AreTopCallers(TopClients(signals), signals)
  {
    var top := TopClients(signals);
    RankedSorts(signals);
    forall c | c in top ensures IsCaller(c, signals) {
      CallerExact(signals, c);
    }
    forall s | s in signals && s.client.Identity() != "" && (forall c :: c in top ==> c.identity != s.client.Identity())
      ensures |top| == 20 && forall c :: c in top ==>
                IsAhead(c.observations, c.identity, Sum(RowsSentBy(s.client.Identity()), signals), s.client.Identity())
    {
      OmittedSignal(signals, s);
    }
  }

  lemma {:induction false} OmittedSignal(signals: seq<Signal>, s: Signal)
    requires s in signals && s.client.Identity() != ""
    requires forall c :: c in TopClients(signals) ==> c.identity != s.client.Identity()
    ensures |TopClients(signals)| == 20
    ensures forall c :: c in TopClients(signals) ==>
              IsAhead(c.observations, c.identity, Sum(RowsSentBy(s.client.Identity()), signals), s.client.Identity())
  {
    var id := s.client.Identity();
    FilterElements(SentBy(id), signals);
    assert s in By(signals, id);
    IdentitiesExact(signals);
    OmittedRanksBelow(signals, id);
    RowsOfCaller(signals, id);
  }

  lemma {:induction false} OmittedRanksBelow(signals: seq<Signal>, id: string)
    requires id in Identities(signals) && forall c :: c in TopClients(signals) ==> c.identity != id
    ensures |TopClients(signals)| == CLIENTS_CAP
    ensures forall c :: c in TopClients(signals) ==> RanksAbove(c, ClientOf(signals, id))
  {
    var top, ids, ranked := TopClients(signals), Identities(signals), Ranked(signals);
    RankedSorts(signals);
    var i :| 0 <= i < |ids| && ids[i] == id;
    assert Observed(signals)[i] in ranked;
    var j :| 0 <= j < |ranked| && ranked[j] == ClientOf(signals, id);
    assert forall k :: 0 <= k < |top| ==> top[k] == ranked[k] && top[k] in top;
  }

  // ----------------------------------------------------- order independence

  datatype Tally = Tally(identity: string, observations: nat)

  function TallyOf(c: ClientObservation): Tally { Tally(c.identity, c.observations) }

  predicate TallyAbove(a: Tally, b: Tally) {
    a.observations > b.observations || (a.observations == b.observations && Less(a.identity, b.identity))
  }

  lemma {:induction false} TallyIsStrict()
    ensures StrictOrder(TallyAbove)
  {
    forall a: Tally ensures !TallyAbove(a, a) {
      LessIrreflexive(a.identity);
    }
    forall a: Tally, b: Tally, c: Tally | TallyAbove(a, b) && TallyAbove(b, c) ensures TallyAbove(a, c) {
      if Less(a.identity, b.identity) && Less(b.identity, c.identity) {
        LessTransitive(a.identity, b.identity, c.identity);
      }
    }
  }

  lemma {:induction false} TalliesExact(signals: seq<Signal>)
    ensures var tallies := Map(TallyOf, Ranked(signals));
            && Ascending(TallyAbove, tallies)
            && forall t :: t in tallies <==>
                 t.identity != "" && By(signals, t.identity) != []
                 && t.observations == Total(By(signals, t.identity)).Rows()
  {
    var ranked := Ranked(signals);
    var tallies := Map(TallyOf, ranked);
    RankedSorts(signals);
    IdentitiesExact(signals);
    forall t ensures t in tallies <==>
        t.identity in Identities(signals) && t.observations == Total(By(signals, t.identity)).Rows()
    {
      if t in tallies {
        var i :| 0 <= i < |tallies| && tallies[i] == t;
        assert ranked[i] in Observed(signals);
      }
      if t.identity in Identities(signals) && t.observations == Total(By(signals, t.identity)).Rows() {
        var i :| 0 <= i < |Identities(signals)| && Identities(signals)[i] == t.identity;
        assert Observed(signals)[i] in ranked;
        var j :| 0 <= j < |ranked| && ranked[j] == Observed(signals)[i];
        assert tallies[j] == t;
      }
    }
  }

  /** Who is listed, in which order and with how many observations, does not
      depend on the order of the signals. */
  lemma {:induction false} TopClientsIgnoreOrder(a: seq<Signal>, b: seq<Signal>)
    requires multiset(a) == multiset(b)
    ensures Map(TallyOf, TopClients(a)) == Map(TallyOf, TopClients(b))
  {
    var ta, tb := Map(TallyOf, Ranked(a)), Map(TallyOf, Ranked(b));
    TalliesExact(a);
    TalliesExact(b);
    forall id: string ensures (By(a, id) == [] <==> By(b, id) == []) && Total(By(a, id)) == Total(By(b, id)) {
      FilterPermutation(SentBy(id), a, b);
      TotalPermutation(By(a, id), By(b, id));
      CountsMeaning(By(a, id));
      CountsMeaning(By(b, id));
    }
    assert SameElements(ta, tb);
    TallyIsStrict();
    AscendingUnique(TallyAbove, ta, tb);
    assert Map(TallyOf, TopClients(a)) == Take(ta, CLIENTS_CAP);
    assert Map(TallyOf, TopClients(b)) == Take(tb, CLIENTS_CAP);
  }
}
