/** Expansion of a published API into managed operations
    (internal/managed/expander.go): compose the gateway and backend paths,
    collapse APIM placeholders, then apply the shared normaliser. */
module Expander {
  import opened Normalizer
  import opened Options
  import opened Strings

  datatype Operation = Operation(verb: string, target: string, authType: string, throttlingPolicy: string)

  /** `productionURL` is None when the endpoint configuration names no production endpoint. */
  datatype ApiDetail = ApiDetail(
    id: string, name: string, version: string, context: string, provider: string, lifeCycleStatus: string,
    updatedTime: string, productionURL: Option<string>, operations: seq<Operation>)

  datatype ManagedOperation = ManagedOperation(
    apiId: string, apiName: string, apiVersion: string, apiContext: string, apiProvider: string,
    lifecycleStatus: string, verb: string, gatewayPath: string, backendPath: string, backendURL: string,
    authType: string, throttlingPolicy: string)

  /** Length of the longest prefix without '}' and '/'. */
  function NameLength(s: string): (k: nat)
    ensures k <= |s|
    ensures forall i :: 0 <= i < k ==> s[i] != '}' && s[i] != '/'
    ensures k < |s| ==> s[k] == '}' || s[k] == '/'
  {
    if s == "" || s[0] == '}' || s[0] == '/' then 0 else 1 + NameLength(s[1..])
  }

  predicate StartsWithPlaceholder(s: string) {
    s != "" && s[0] == '{'
    && var k := NameLength(s[1..]); k > 0 && 1 + k < |s| && s[1 + k] == '}'
  }

  /** Replaces every leftmost match of `\{[^}/]+\}` by "{id}". */
  function CollapsePlaceholders(s: string): string
    decreases |s|
  {
    if s == "" then ""
    else if StartsWithPlaceholder(s) then ID + CollapsePlaceholders(s[NameLength(s[1..]) + 2..])
    else [s[0]] + CollapsePlaceholders(s[1..])
  }

  /** Pass A, then pass B; the latter only when a normaliser is configured. */
  function NormalizePath(n: Option<Normalizer>, path: string): string {
    var passA := CollapsePlaceholders(path);
    match n
    case None => passA
    case Some(normalizer) => Normalize(normalizer, passA)
  }

  function ComposeGatewayPath(context: string, version: string, target: string): string {
    if version != "" && HasSuffix(context, "/" + version) then context + target
    else if version != "" then context + "/" + version + target
    else context + target
  }

  function TrimRightSlashes(s: string): string {
    if s != "" && s[|s| - 1] == '/' then TrimRightSlashes(s[..|s| - 1]) else s
  }

  /** `urlPath` is the URL parser: the path component, or None for a malformed URL. */
  function BackendBasePath(urlPath: string -> Option<string>, rawURL: string): string {
    if rawURL == "" then ""
    else match urlPath(rawURL)
      case None => ""
      case Some(path) => TrimRightSlashes(path)
  }

  function BackendURL(api: ApiDetail): string {
    match api.productionURL case None => "" case Some(url) => url
  }

  function UpperChar(c: char): (r: char)
    ensures 'a' <= c <= 'z' ==> 'A' <= r <= 'Z' && r - 'A' == c - 'a'
    ensures !('a' <= c <= 'z') ==> r == c
  {
    if 'a' <= c <= 'z' then c - 32 as char else c
  }

  function ToUpper(s: string): (r: string)
    ensures |r| == |s| && forall i :: 0 <= i < |s| ==> r[i] == UpperChar(s[i])
  {
    seq(|s|, i requires 0 <= i < |s| => UpperChar(s[i]))
  }

  /** `Expand`: one managed operation per API operation, in order. */
  method Expand(n: Option<Normalizer>, urlPath: string -> Option<string>, api: ApiDetail)
    returns (out: seq<ManagedOperation>)
    ensures |out| == |api.operations|
    ensures forall i :: 0 <= i < |out| ==>
              var op := api.operations[i];
              && out[i].apiId == api.id && out[i].apiName == api.name && out[i].apiVersion == api.version
              && out[i].apiContext == api.context && out[i].apiProvider == api.provider
              && out[i].lifecycleStatus == api.lifeCycleStatus && out[i].verb == ToUpper(op.verb)
              && out[i].gatewayPath == NormalizePath(n, ComposeGatewayPath(api.context, api.version, op.target))
              && out[i].backendPath == NormalizePath(n, BackendBasePath(urlPath, BackendURL(api)) + op.target)
              && out[i].backendURL == BackendURL(api)
              && out[i].authType == op.authType && out[i].throttlingPolicy == op.throttlingPolicy
  {
    var rawBackend := BackendURL(api);
    var backendBase := BackendBasePath(urlPath, rawBackend);
    out := [];
    for i := 0 to |api.operations|
      invariant |out| == i
      invariant forall j :: 0 <= j < i ==>
                  var op := api.operations[j];
                  && out[j].apiId == api.id && out[j].apiName == api.name && out[j].apiVersion == api.version
                  && out[j].apiContext == api.context && out[j].apiProvider == api.provider
                  && out[j].lifecycleStatus == api.lifeCycleStatus && out[j].verb == ToUpper(op.verb)
                  && out[j].gatewayPath == NormalizePath(n, ComposeGatewayPath(api.context, api.version, op.target))
                  && out[j].backendPath == NormalizePath(n, backendBase + op.target)
                  && out[j].backendURL == rawBackend
                  && out[j].authType == op.authType && out[j].throttlingPolicy == op.throttlingPolicy
    {
      var op := api.operations[i];
      var gateway := ComposeGatewayPath(api.context, api.version, op.target);
      var backend := backendBase + op.target;
      out := out + [ManagedOperation(
        api.id, api.name, api.version, api.context, api.provider, api.lifeCycleStatus,
        ToUpper(op.verb), NormalizePath(n, gateway), NormalizePath(n, backend), rawBackend,
        op.authType, op.throttlingPolicy)];
    }
  }

  /** Both APIM conventions give one gateway path: the context may or may not
      already end in the version. Without a version there is nothing to add. */
  lemma {:induction false} GatewayConventionsAgree(context: string, version: string, target: string)
    ensures version != "" && !HasSuffix(context, "/" + version) ==>
              ComposeGatewayPath(context + "/" + version, version, target)
              == ComposeGatewayPath(context, version, target)
              == context + "/" + version + target
    ensures version == "" ==> ComposeGatewayPath(context, version, target) == context + target
  {
    var suffix := "/" + version;
    var full := context + "/" + version;
    assert full == context + suffix;
    assert full[|full| - |suffix|..] == suffix;
  }

  lemma {:induction false} TrimmedExactly(base: string, slashes: string)
    requires (base == "" || base[|base| - 1] != '/') && forall i :: 0 <= i < |slashes| ==> slashes[i] == '/'
    ensures TrimRightSlashes(base + slashes) == base
  {
    if slashes == "" {
      assert base + slashes == base;
    } else {
      assert (base + slashes)[..|base + slashes| - 1] == base + slashes[..|slashes| - 1];
      TrimmedExactly(base, slashes[..|slashes| - 1]);
    }
  }

  /** The base path is the path of the URL without the slashes at its end, and
      empty if there is no URL or it cannot be parsed. */
  lemma {:induction false} BackendBaseExact(
    urlPath: string -> Option<string>, rawURL: string, base: string, slashes: string)
    requires (base == "" || base[|base| - 1] != '/') && forall i :: 0 <= i < |slashes| ==> slashes[i] == '/'
    ensures rawURL != "" && urlPath(rawURL) == Some(base + slashes) ==> BackendBasePath(urlPath, rawURL) == base
    ensures rawURL == "" || urlPath(rawURL) == None ==> BackendBasePath(urlPath, rawURL) == ""
  {
    TrimmedExactly(base, slashes);
  }

  lemma {:induction false} NameStopsAtSlash(a: string, rest: string)
    requires '/' !in a
    ensures NameLength(a + "/" + rest) == NameLength(a)
  {
    var s := a + "/" + rest;
    if a != "" && a[0] != '}' {
      assert s[1..] == a[1..] + "/" + rest;
      NameStopsAtSlash(a[1..], rest);
    }
  }

  lemma {:induction false} CollapseStep(s: string)
    requires s != ""
    ensures CollapsePlaceholders(s) ==
            if StartsWithPlaceholder(s) then ID + CollapsePlaceholders(s[NameLength(s[1..]) + 2..])
            else [s[0]] + CollapsePlaceholders(s[1..])
  {
  }

  lemma {:induction false} StartsAlike(a: string, rest: string)
    requires a != "" && '/' !in a
    ensures var s := a + "/" + rest;
            && s[0] == a[0] && s[1..] == a[1..] + "/" + rest
            && NameLength(s[1..]) == NameLength(a[1..])
            && StartsWithPlaceholder(s) == StartsWithPlaceholder(a)
  {
    var s := a + "/" + rest;
    assert s[1..] == a[1..] + "/" + rest;
    NameStopsAtSlash(a[1..], rest);
  }

  lemma {:induction false} CollapseAtSlash(a: string, rest: string)
    requires '/' !in a
    ensures CollapsePlaceholders(a + "/" + rest) == CollapsePlaceholders(a) + ("/" + CollapsePlaceholders(rest))
    decreases |a|
  {
    var s := a + "/" + rest;
    if a == "" {
      assert s[0] == '/' && s[1..] == rest;
    } else {
      StartsAlike(a, rest);
      var k := if StartsWithPlaceholder(a) then NameLength(a[1..]) + 2 else 1;
      assert s[k..] == a[k..] + "/" + rest;
      CollapseAtSlash(a[k..], rest);
      CollapseStep(s);
      CollapseStep(a);
      Associative(if StartsWithPlaceholder(a) then ID else [a[0]],
                  CollapsePlaceholders(a[k..]), "/" + CollapsePlaceholders(rest));
    }
  }

  lemma {:induction false} Associative(a: string, b: string, c: string)
    ensures a + (b + c) == (a + b) + c
  {
  }

  function CollapseEach(segments: seq<string>): (r: seq<string>)
    ensures |r| == |segments|
    ensures forall i :: 0 <= i < |r| ==> r[i] == CollapsePlaceholders(segments[i])
  {
    seq(|segments|, i requires 0 <= i < |segments| => CollapsePlaceholders(segments[i]))
  }

  /** No placeholder reaches across a '/': collapsing works segment by segment. */
  lemma {:induction false} CollapseSegmentwise(segments: seq<string>)
    requires |segments| >= 1 && SlashFree(segments)
    ensures CollapsePlaceholders(Join(segments)) == Join(CollapseEach(segments))
  {
    if |segments| > 1 {
      var each, rest := CollapseEach(segments), Join(segments[1..]);
      CollapseSegmentwise(segments[1..]);
      assert each[1..] == CollapseEach(segments[1..]);
      CollapseAtSlash(segments[0], rest);
      assert each[0] + ("/" + CollapsePlaceholders(rest)) == each[0] + "/" + Join(each[1..]);
    }
  }

  lemma {:induction false} CollapseLiteral(text: string)
    requires '{' !in text
    ensures CollapsePlaceholders(text) == text
  {
    if text == "" {
    } else {
      CollapseLiteral(text[1..]);
    }
  }

  /** One whole match of the placeholder pattern. */
  predicate IsPlaceholder(s: string) {
    && |s| >= 3 && s[0] == '{' && s[|s| - 1] == '}'
    && forall i :: 1 <= i < |s| - 1 ==> s[i] != '}' && s[i] != '/'
  }

  lemma {:induction false} StartsIff(s: string)
    ensures StartsWithPlaceholder(s) <==> exists j :: 0 <= j <= |s| && IsPlaceholder(s[..j])
    ensures StartsWithPlaceholder(s) ==> IsPlaceholder(s[..NameLength(s[1..]) + 2])
    ensures forall j :: 0 <= j <= |s| && IsPlaceholder(s[..j]) ==> j == NameLength(s[1..]) + 2
  {
    if StartsWithPlaceholder(s) {
      var k := NameLength(s[1..]);
      assert forall i :: 1 <= i < k + 1 ==> s[i] == s[1..][i - 1];
      assert IsPlaceholder(s[..k + 2]);
    }
    forall j | 0 <= j <= |s| && IsPlaceholder(s[..j])
      ensures StartsWithPlaceholder(s) && j == NameLength(s[1..]) + 2
    {
      assert s[1..] == s[1..j - 1] + "}" + s[j..];
      NameLengthBefore(s[1..j - 1], s[j..]);
    }
  }

  lemma {:induction false} NameLengthBefore(name: string, rest: string)
    requires '}' !in name && '/' !in name
    ensures NameLength(name + "}" + rest) == |name|
  {
    if name == "" {
    } else {
      assert (name + "}" + rest)[1..] == name[1..] + "}" + rest;
      NameLengthBefore(name[1..], rest);
    }
  }

  lemma {:induction false} CollapseAtStart(placeholder: string, rest: string)
    requires IsPlaceholder(placeholder)
    ensures CollapsePlaceholders(placeholder + rest) == "{id}" + CollapsePlaceholders(rest)
  {
    var s := placeholder + rest;
    assert s[..|placeholder|] == placeholder && s[|placeholder|..] == rest;
    StartsIff(s);
  }

  /** No placeholder begins among the first `k` characters. */
  ghost predicate NoneBegins(s: string, k: nat) {
    forall i, j :: 0 <= i < k && i <= j <= |s| ==> !IsPlaceholder(s[i..j])
  }

  lemma {:induction false} CollapseSkips(s: string, k: nat)
    requires s != "" && k > 0 && NoneBegins(s, k)
    ensures CollapsePlaceholders(s) == [s[0]] + CollapsePlaceholders(s[1..])
    ensures NoneBegins(s[1..], k - 1)
  {
    StartsIff(s);
    forall j | 0 <= j <= |s| ensures !IsPlaceholder(s[..j]) {
      assert s[..j] == s[0..j];
    }
    forall i, j | 0 <= i < k - 1 && i <= j <= |s[1..]| ensures !IsPlaceholder(s[1..][i..j]) {
      assert s[1..][i..j] == s[i + 1..j + 1];
    }
  }

  /** Pass A is the leftmost replacement of every placeholder: the text before
      the first one stays, the first one becomes "{id}", and pass A goes on
      behind it. */
  lemma {:induction false} CollapsesLeftmost(before: string, placeholder: string, rest: string)
    requires IsPlaceholder(placeholder) && NoneBegins(before + placeholder + rest, |before|)
    ensures CollapsePlaceholders(before + placeholder + rest) == before + "{id}" + CollapsePlaceholders(rest)
  {
    var s := before + placeholder + rest;
    if before == "" {
      assert s == placeholder + rest;
      CollapseAtStart(placeholder, rest);
    } else {
      assert s[1..] == before[1..] + placeholder + rest;
      CollapseSkips(s, |before|);
      CollapsesLeftmost(before[1..], placeholder, rest);
    }
  }

  /** Text without a placeholder stays as it is. */
  lemma {:induction false} CollapseKeeps(s: string)
    requires NoneBegins(s, |s|)
    ensures CollapsePlaceholders(s) == s
  {
    if s == "" {
    } else {
      CollapseSkips(s, |s|);
      CollapseKeeps(s[1..]);
    }
  }

  lemma {:induction false} CollapsePlaceholder(name: string)
    requires name != "" && '}' !in name && '/' !in name
    ensures CollapsePlaceholders("{" + name + "}") == ID
  {
    var s := "{" + name + "}";
    assert s[1..] == name + "}" + "";
    NameLengthBefore(name, "");
    assert s[|name| + 2..] == "";
  }

  /** One segment of an operation target. */
  datatype Part = Literal(text: string) | Placeholder(name: string) {
    predicate WellFormed() {
      match this
      case Literal(text) => '/' !in text && '{' !in text && '?' !in text
      case Placeholder(name) => name != "" && '/' !in name && '}' !in name
    }
    function Template(): string {
      match this case Literal(text) => text case Placeholder(name) => "{" + name + "}"
    }
    function Collapsed(): string {
      match this case Literal(text) => text case Placeholder(_) => ID
    }
    function Filled(value: string): string {
      match this case Literal(text) => text case Placeholder(_) => value
    }
  }

  ghost predicate WellFormed(parts: seq<Part>) {
    |parts| >= 1 && forall i :: 0 <= i < |parts| ==> parts[i].WellFormed()
  }

  function TemplateSegments(parts: seq<Part>): seq<string> {
    seq(|parts|, i requires 0 <= i < |parts| => parts[i].Template())
  }

  function CollapsedSegments(parts: seq<Part>): seq<string> {
    seq(|parts|, i requires 0 <= i < |parts| => parts[i].Collapsed())
  }

  function FilledSegments(parts: seq<Part>, values: seq<string>): seq<string>
    requires |values| == |parts|
  {
    seq(|parts|, i requires 0 <= i < |parts| => parts[i].Filled(values[i]))
  }

  /** A value a client can put in place of a whole path segment. */
  predicate IsSegmentValue(value: string) {
    value != "" && '/' !in value && '?' !in value
  }

  lemma {:induction false} CollapseTemplate(parts: seq<Part>)
    requires WellFormed(parts)
    ensures SlashFree(TemplateSegments(parts))
    ensures CollapsePlaceholders(Join(TemplateSegments(parts))) == Join(CollapsedSegments(parts))
  {
    var template := TemplateSegments(parts);
    forall i | 0 <= i < |parts|
      ensures '/' !in template[i] && CollapsePlaceholders(template[i]) == parts[i].Collapsed()
    {
      match parts[i]
      case Literal(text) => CollapseLiteral(text);
      case Placeholder(name) => CollapsePlaceholder(name);
    }
    CollapseSegmentwise(template);
    assert CollapseEach(template) == CollapsedSegments(parts);
  }

  /** Without a normaliser, placeholders are collapsed and nothing else happens. */
  lemma {:induction false} PassAOnly(parts: seq<Part>)
    requires WellFormed(parts)
    ensures NormalizePath(None, Join(TemplateSegments(parts))) == Join(CollapsedSegments(parts))
  {
    CollapseTemplate(parts);
  }

  lemma {:induction false} QueryIsCut(path: string, query: string)
    requires '?' !in path && (query == "" || query[0] == '?')
    ensures CutQuery(path + query) == path
  {
    if path == "" {
      assert path + query == query;
    } else {
      assert (path + query)[1..] == path[1..] + query;
      QueryIsCut(path[1..], query);
    }
  }

  lemma {:induction false} QueryIsIgnored(n: Normalizer, path: string, query: string)
    requires '?' !in path && (query == "" || query[0] == '?')
    ensures Normalize(n, path + query) == Normalize(n, path)
  {
    QueryIsCut(path, query);
    NoQueryIsKept(path);
  }

  lemma {:induction false} SegmentsWithoutQuery(segments: seq<string>)
    requires |segments| >= 1 && forall i :: 0 <= i < |segments| ==> '?' !in segments[i]
    ensures '?' !in Join(segments)
  {
    InJoin(segments, '?');
  }

  lemma {:induction false} NormalizedPrefix(n: Normalizer, segments: seq<string>, k: nat)
    requires k <= |segments|
    ensures NormalizeSegments(n, segments[..k]) == NormalizeSegments(n, segments)[..k]
  {
  }

  /** Two paths of the same shape normalise alike iff their segments do. */
  lemma {:induction false} NormalizeSameIff(n: Normalizer, a: seq<string>, b: seq<string>)
    requires |a| == |b| >= 1 && SlashFree(a) && SlashFree(b)
    requires '?' !in Join(a) && '?' !in Join(b)
    requires forall i :: 0 <= i < |a| ==> (a[i] == "" <==> b[i] == "")
    ensures Normalize(n, Join(a)) == Normalize(n, Join(b))
            <==> NormalizeSegments(n, a) == NormalizeSegments(n, b)
  {
    NormalizeOfJoin(n, a);
    NormalizeOfJoin(n, b);
    var fa, fb := NormalizeSegments(n, a), NormalizeSegments(n, b);
    assert SlashFree(fa) && SlashFree(fb);
    var k := |TrimSegments(a)|;
    TrimSameShape(a, b);
    NormalizedPrefix(n, a, k);
    NormalizedPrefix(n, b, k);
    SplitOfJoin(fa[..k]);
    SplitOfJoin(fb[..k]);
    if fa[..k] == fb[..k] {
      forall i | 0 <= i < |a| ensures fa[i] == fb[i] {
        if i < k { assert fa[i] == fa[..k][i] && fb[i] == fb[..k][i]; }
      }
      assert fa == fb;
    }
  }

  lemma {:induction false} TrimSameShape(a: seq<string>, b: seq<string>)
    requires |a| == |b| >= 1
    requires forall i :: 0 <= i < |a| ==> (a[i] == "" <==> b[i] == "")
    ensures |TrimSegments(a)| == |TrimSegments(b)|
    ensures forall i :: |TrimSegments(a)| <= i < |a| ==> a[i] == ""
  {
    assert |a| == 2 ==> (a == ["", ""] <==> b == ["", ""]);
  }

  lemma {:induction false} PartNormalForm(n: Normalizer, part: Part, value: string)
    requires part.WellFormed() && (part.Placeholder? ==> value != "")
    ensures NormalizeSegment(n, ID) == ID
    ensures part.Collapsed() == "" <==> part.Filled(value) == ""
    ensures part.Collapsed() == ""
            || (NormalizeSegment(n, part.Collapsed()) == NormalizeSegment(n, part.Filled(value))
                <==> (part.Placeholder? ==> IsDynamic(n, value) || value == ID))
  {
  }

  /** The join key of phase 3. A template of whole-segment placeholders and a
      request that fills them normalise to the same path exactly when every
      filled-in value is dynamic for the shared normaliser. */
  lemma {:induction false} TemplateMatchesRequestIff(n: Normalizer, parts: seq<Part>, values: seq<string>, query: string)
    requires WellFormed(parts) && |values| == |parts|
    requires forall i :: 0 <= i < |parts| ==> parts[i].Placeholder? ==> IsSegmentValue(values[i])
    requires query == "" || query[0] == '?'
    ensures NormalizePath(Some(n), Join(TemplateSegments(parts)))
            == Normalize(n, Join(FilledSegments(parts, values)) + query)
            <==> forall i :: 0 <= i < |parts| ==>
                   parts[i].Placeholder? ==> IsDynamic(n, values[i]) || values[i] == ID
  {
    var a, b := CollapsedSegments(parts), FilledSegments(parts, values);
    CollapseTemplate(parts);
    SameShape(parts, values);
    QueryIsIgnored(n, Join(b), query);
    NormalizeSameIff(n, a, b);
    SegmentsSameIff(n, parts, values);
  }

  lemma {:induction false} SameShape(parts: seq<Part>, values: seq<string>)
    requires WellFormed(parts) && |values| == |parts|
    requires forall i :: 0 <= i < |parts| ==> parts[i].Placeholder? ==> IsSegmentValue(values[i])
    ensures var a, b := CollapsedSegments(parts), FilledSegments(parts, values);
            && SlashFree(a) && SlashFree(b) && '?' !in Join(a) && '?' !in Join(b)
            && forall i :: 0 <= i < |a| ==> (a[i] == "" <==> b[i] == "")
  {
    var a, b := CollapsedSegments(parts), FilledSegments(parts, values);
    forall i | 0 <= i < |parts|
      ensures '/' !in a[i] && '/' !in b[i] && '?' !in a[i] && '?' !in b[i] && (a[i] == "" <==> b[i] == "")
    {
      assert parts[i].WellFormed();
    }
    SegmentsWithoutQuery(a);
    SegmentsWithoutQuery(b);
  }

  lemma {:induction false} SegmentsSameIff(n: Normalizer, parts: seq<Part>, values: seq<string>)
    requires WellFormed(parts) && |values| == |parts|
    requires forall i :: 0 <= i < |parts| ==> parts[i].Placeholder? ==> IsSegmentValue(values[i])
    ensures NormalizeSegments(n, CollapsedSegments(parts)) == NormalizeSegments(n, FilledSegments(parts, values))
            <==> forall i :: 0 <= i < |parts| ==>
                   parts[i].Placeholder? ==> IsDynamic(n, values[i]) || values[i] == ID
  {
    var na := NormalizeSegments(n, CollapsedSegments(parts));
    var nb := NormalizeSegments(n, FilledSegments(parts, values));
    forall i | 0 <= i < |parts|
      ensures na[i] == nb[i] <==> (parts[i].Placeholder? ==> IsDynamic(n, values[i]) || values[i] == ID)
    {
      PartNormalForm(n, parts[i], values[i]);
    }
  }

  /** Which requests join a declared path at all: those with as many segments
      as the collapsed template that differ from it only where both segments
      are replaced. Two different dynamic literals are such a case. */
  lemma {:induction false} TemplateMeetsPathIff(n: Normalizer, parts: seq<Part>, raw: string)
    requires WellFormed(parts)
    ensures NormalizePath(Some(n), Join(TemplateSegments(parts))) == Normalize(n, raw)
            <==> SameSegments(n, Split(TrimmedPath(Join(CollapsedSegments(parts)))), Split(TrimmedPath(raw)))
  {
    CollapseTemplate(parts);
    NormalizeEqualIff(n, Join(CollapsedSegments(parts)), raw);
  }

  /** A declared "/{name}" and a request "/value". */
  lemma {:induction false} OnePlaceholder(n: Normalizer, name: string, value: string)
    requires Placeholder(name).WellFormed() && IsSegmentValue(value)
    ensures NormalizePath(Some(n), Join(["", "{" + name + "}"])) == Normalize(n, Join(["", value]))
            <==> IsDynamic(n, value) || value == ID
  {
    var parts, values := [Literal(""), Placeholder(name)], ["", value];
    assert TemplateSegments(parts) == ["", "{" + name + "}"] && FilledSegments(parts, values) == ["", value];
    assert Join(["", value]) + "" == Join(["", value]);
    TemplateMatchesRequestIff(n, parts, values, "");
    assert parts[0].Literal? && parts[1].Placeholder?;
  }

  /** Without patterns every value is such a failing input. */
  lemma {:induction false} StaticValueMissed(name: string, value: string)
    requires Placeholder(name).WellFormed() && IsSegmentValue(value) && value != ID
    ensures NormalizePath(Some(NO_PATTERNS), Join(["", "{" + name + "}"])) != Normalize(NO_PATTERNS, Join(["", value]))
  {
    OnePlaceholder(NO_PATTERNS, name, value);
  }
}
