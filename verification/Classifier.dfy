/** Classification of decoded DeepFlow rows (internal/discovery/classifier.go):
    who served the request, who sent it, and from which side it came. */
module Classifier {
  import opened Sequences
  import opened Strings

  const TYPE_CHOST := 1
  const TYPE_K8S_POD := 10
  const TYPE_K8S_NODE := 14
  const TYPE_INTERNET := 255

  const TAP_SERVER_PROCESS := "s-p"
  const TAP_CLIENT := "c"
  const TAP_CLIENT_PROCESS := "c-p"

  /** One decoded row. `rowCount` is a `Count(row)`, hence not negative. */
  datatype RawSignal = RawSignal(
    verb: string, endpoint: string, observationPoint: string, serverPort: int, rowCount: nat,
    sampleUrl: string, requestDomain: string, sampleStatus: int,
    k8sService: string, k8sNamespace: string, k8sWorkload: string, k8sPod: string, serverIp: string,
    instanceTypeS: int, instanceTypeC: int,
    clientIp: string, clientNamespace: string, clientWorkload: string, clientPort: int,
    firstSeenUnix: int, lastSeenUnix: int, avgDurationUs: real)

  datatype EnvKind = K8s | Legacy | Skip
  datatype Direction = Internal | External

  datatype Client = Anonymous | K8sClient(identity: string) | LegacyClient(identity: string) {
    function Identity(): string {
      if Anonymous? then "" else identity
    }
  }

  datatype Signal = Signal(raw: RawSignal, envKind: EnvKind, service: string, direction: Direction, client: Client)

  function Digits(n: nat): (s: string)
    ensures |s| >= 1
  {
    var digit := [('0' as int + n % 10) as char];
    if n < 10 then digit else Digits(n / 10) + digit
  }

  predicate IsK8sType(instanceType: int) {
    instanceType == TYPE_K8S_POD || instanceType == TYPE_K8S_NODE
  }

  function DirectionFor(r: RawSignal): Direction {
    if r.observationPoint == TAP_CLIENT || r.observationPoint == TAP_CLIENT_PROCESS then
      if r.instanceTypeC == TYPE_CHOST || IsK8sType(r.instanceTypeC) then Internal else External
    else if r.instanceTypeC == TYPE_INTERNET then External
    else Internal
  }

  function ClassifyClient(r: RawSignal): Client {
    if IsK8sType(r.instanceTypeC) && r.clientNamespace != "" && r.clientWorkload != "" then
      K8sClient("k8s:" + r.clientNamespace + "/" + r.clientWorkload)
    else if r.instanceTypeC == TYPE_CHOST && r.clientIp != "" then LegacyClient("host:" + r.clientIp)
    else if r.clientIp != "" then LegacyClient("host:" + r.clientIp)
    else Anonymous
  }

  function Classify(r: RawSignal): Signal {
    if IsK8sType(r.instanceTypeS) && r.k8sService != "" && r.k8sNamespace != "" then
      Signal(r, K8s, "k8s:" + r.k8sNamespace + "/" + r.k8sService, DirectionFor(r), ClassifyClient(r))
    else if r.instanceTypeS == TYPE_CHOST && r.serverIp != "" && r.serverPort > 0 then
      Signal(r, Legacy, "host:" + r.serverIp + ":" + Digits(r.serverPort), DirectionFor(r), ClassifyClient(r))
    else Signal(r, Skip, "", DirectionFor(r), ClassifyClient(r))
  }

  function EnvKindForService(s: Signal): EnvKind {
    if HasPrefix(s.service, "k8s:") then K8s else Legacy
  }

  /** The kind read back from the identity prefix is the kind that was decided,
      and exactly the anonymous callers have an empty identity. */
  lemma {:induction false} IdentityTellsKind(r: RawSignal)
    ensures Classify(r).envKind != Skip ==>
              Classify(r).service != "" && EnvKindForService(Classify(r)) == Classify(r).envKind
    ensures Classify(r).client.Identity() == "" <==> Classify(r).client == Anonymous
  {
    var s := Classify(r);
    if s.envKind == Legacy {
      assert s.service[0] == 'h';
    } else if s.envKind == K8s {
      assert s.service[..4] == "k8s:";
    }
  }

  // ------------------------------------------------------- what decides what

  /** By peer: pods, nodes and tracked hosts. */
  predicate IsTracked(instanceType: int) {
    instanceType == 1 || instanceType == 10 || instanceType == 14
  }

  /** The call came from outside: from the internet, or, if it was tapped at the
      client's side, from a peer that is not tracked. */
  predicate FromOutside(r: RawSignal) {
    r.instanceTypeC == 255 || (!IsTracked(r.instanceTypeC) && (r.observationPoint == "c" || r.observationPoint == "c-p"))
  }

  /** By peer type: a tracked peer is internal under every tap, the internet is
      external under every tap, and any other peer is external exactly at a
      client's tap. */
  lemma {:induction false} DirectionExact(r: RawSignal)
    ensures IsTracked(r.instanceTypeC) ==> Classify(r).direction == Internal
    ensures r.instanceTypeC == 255 ==> Classify(r).direction == External
    ensures !IsTracked(r.instanceTypeC) && r.instanceTypeC != 255 ==>
              (Classify(r).direction == External <==> r.observationPoint in ["c", "c-p"])
    ensures Classify(r).direction == External <==> FromOutside(r)
  {
  }

  /** Served by a labelled pod or node. */
  predicate IsK8sServer(r: RawSignal) {
    (r.instanceTypeS == 10 || r.instanceTypeS == 14) && r.k8sService != "" && r.k8sNamespace != ""
  }

  /** Served by a tracked host at a known address. */
  predicate IsHostServer(r: RawSignal) {
    r.instanceTypeS == 1 && r.serverIp != "" && r.serverPort > 0
  }

  /** A signal is kept exactly if it was served by one of the two, and its
      service says by which. */
  lemma {:induction false} ServiceExact(r: RawSignal)
    ensures Classify(r).raw == r
    ensures Classify(r).envKind != Skip <==> IsK8sServer(r) || IsHostServer(r)
    ensures IsK8sServer(r) ==>
              Classify(r).envKind == K8s && Classify(r).service == "k8s:" + r.k8sNamespace + "/" + r.k8sService
    ensures IsHostServer(r) ==>
              Classify(r).envKind == Legacy
              && exists digits :: Classify(r).service == "host:" + r.serverIp + ":" + digits
                                  && IsNumeral(digits) && ValueOf(digits) == r.serverPort
  {
    if IsHostServer(r) {
      DigitsExact(r.serverPort);
    }
  }

  /** A caller with pod labels is named by them, every other one by its
      address; without an address it is anonymous. */
  lemma {:induction false} ClientExact(r: RawSignal)
    ensures var client := Classify(r).client;
            if r.instanceTypeC in [10, 14] && "" !in [r.clientNamespace, r.clientWorkload] then
              client == K8sClient("k8s:" + r.clientNamespace + "/" + r.clientWorkload)
            else if r.clientIp != "" then client == LegacyClient("host:" + r.clientIp)
            else client == Anonymous
  {
    assert "" in [r.clientNamespace, r.clientWorkload] <==> r.clientNamespace == "" || r.clientWorkload == "";
  }

  // ---------------------------------------------------------------- numerals

  predicate IsNumeral(s: string) {
    s != "" && forall i :: 0 <= i < |s| ==> '0' <= s[i] <= '9'
  }

  function ValueOf(s: string): nat
    requires forall i :: 0 <= i < |s| ==> '0' <= s[i] <= '9'
  {
    if s == "" then 0 else 10 * ValueOf(s[..|s| - 1]) + (s[|s| - 1] - '0') as nat
  }

  lemma {:induction false} DigitsExact(n: nat)
    ensures IsNumeral(Digits(n)) && ValueOf(Digits(n)) == n
  {
    var s := Digits(n);
    if n < 10 {
      assert s[..0] == "";
    } else {
      DigitsExact(n / 10);
      assert s[..|s| - 1] == Digits(n / 10);
    }
  }

  lemma {:induction false} SplitAtColon(a: string, x: string, b: string, y: string)
    requires a + ":" + x == b + ":" + y && ':' !in x && ':' !in y
    ensures a == b && x == y
  {
    var s, t := a + ":" + x, b + ":" + y;
    assert s[|a|] == ':' && forall i :: |a| < i < |s| ==> s[i] != ':';
    assert t[|b|] == ':' && forall i :: |b| < i < |t| ==> t[i] != ':';
    assert a == s[..|a|] && b == t[..|b|];
    assert x == s[|a| + 1..] && y == t[|b| + 1..];
  }

  lemma {:induction false} SplitAtSlash(a: string, x: string, b: string, y: string)
    requires a + "/" + x == b + "/" + y && '/' !in a && '/' !in b
    ensures a == b && x == y
  {
    var s, t := a + "/" + x, b + "/" + y;
    assert s[|a|] == '/' && forall i :: 0 <= i < |a| ==> s[i] != '/';
    assert t[|b|] == '/' && forall i :: 0 <= i < |b| ==> t[i] != '/';
    assert a == s[..|a|] && b == t[..|b|];
    assert x == s[|a| + 1..] && y == t[|b| + 1..];
  }

  /** Different services never share a name: hosts are told apart by address
      and port, and services in a cluster by namespace and name, since a
      namespace holds no '/'. */
  lemma {:induction false} ServiceIsUnique(p: RawSignal, q: RawSignal)
    requires Classify(p).envKind != Skip && Classify(q).envKind != Skip && Classify(p).service == Classify(q).service
    ensures Classify(p).envKind == Classify(q).envKind
    ensures Classify(p).envKind == Legacy ==> p.serverIp == q.serverIp && p.serverPort == q.serverPort
    ensures Classify(p).envKind == K8s && '/' !in p.k8sNamespace && '/' !in q.k8sNamespace ==>
              p.k8sNamespace == q.k8sNamespace && p.k8sService == q.k8sService
  {
    IdentityTellsKind(p);
    IdentityTellsKind(q);
    if Classify(p).envKind == Legacy {
      DigitsExact(p.serverPort);
      DigitsExact(q.serverPort);
      SplitAtColon("host:" + p.serverIp, Digits(p.serverPort), "host:" + q.serverIp, Digits(q.serverPort));
      assert p.serverIp == ("host:" + p.serverIp)[5..] == ("host:" + q.serverIp)[5..] == q.serverIp;
    } else if '/' !in p.k8sNamespace && '/' !in q.k8sNamespace {
      SplitAtSlash("k8s:" + p.k8sNamespace, p.k8sService, "k8s:" + q.k8sNamespace, q.k8sService);
      assert p.k8sNamespace == ("k8s:" + p.k8sNamespace)[4..] == ("k8s:" + q.k8sNamespace)[4..] == q.k8sNamespace;
    }
  }

  // --------------------------------------------------------------- the loop

  /** The classified signals that are not skipped, in order. */
  function Kept(signals: seq<RawSignal>): seq<Signal> {
    if signals == [] then []
    else
      var init, c := Kept(signals[..|signals| - 1]), Classify(signals[|signals| - 1]);
      if c.envKind == Skip then init else init + [c]
  }

  method ClassifyAndDrop(signals: seq<RawSignal>) returns (out: seq<Signal>)
    ensures out == Kept(signals)
  {
    out := [];
    for i := 0 to |signals|
      invariant out == Kept(signals[..i])
    {
      var c := Classify(signals[i]);
      assert signals[..i + 1][..i] == signals[..i];
      if c.envKind == Skip {
        continue;
      }
      out := out + [c];
    }
    assert signals[..|signals|] == signals;
  }

  /** The raw signals behind the result are those served by a labelled pod or
      node or by a tracked host: each as often as it came and in the order
      they came; and each with its direction and kind. */
  lemma {:induction false} KeptExactly(signals: seq<RawSignal>)
    ensures Map(RawOf, Kept(signals)) == Filter(IsServed, signals)
    ensures forall s :: s in Kept(signals) ==>
              && (s.direction == External <==> FromOutside(s.raw)) && (s.envKind == K8s <==> IsK8sServer(s.raw))
              && s.service != "" && EnvKindForService(s) == s.envKind != Skip && IsClassified(s)
  {
    if signals == [] {
    } else {
      var init, r := signals[..|signals| - 1], signals[|signals| - 1];
      KeptExactly(init);
      IdentityTellsKind(r);
      DirectionExact(r);
      ServiceExact(r);
      if IsServed(r) {
        MapSnoc(RawOf, Kept(init), Classify(r));
      }
    }
  }

  function RawOf(s: Signal): RawSignal { s.raw }

  predicate IsServed(r: RawSignal) { IsK8sServer(r) || IsHostServer(r) }

  /** The signal is what the classifier makes of its row. */
  predicate IsClassified(s: Signal) { s == Classify(s.raw) }
}
