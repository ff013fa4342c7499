/** Path normalisation of phase 1 (internal/discovery/normalizer.go). */
module Normalizer {
  import opened Strings

  /** A compiled regular expression, seen as the set of segments it matches. */
  type Pattern = string -> bool

  datatype Normalizer = Normalizer(version: string, builtin: seq<Pattern>, user: seq<Pattern>, exclude: seq<Pattern>)

  const ID := "{id}"

  const NO_PATTERNS: Normalizer := Normalizer("v2", [], [], [])

  predicate AnyMatches(patterns: seq<Pattern>, segment: string) {
    exists i :: 0 <= i < |patterns| && patterns[i](segment)
  }

  /** A segment some pattern calls dynamic and no exclude pattern protects. */
  predicate IsDynamic(n: Normalizer, segment: string) {
    !AnyMatches(n.exclude, segment) && (AnyMatches(n.builtin, segment) || AnyMatches(n.user, segment))
  }

  function NormalizeSegment(n: Normalizer, segment: string): string {
    if AnyMatches(n.exclude, segment) then segment
    else if AnyMatches(n.builtin, segment) then ID
    else if AnyMatches(n.user, segment) then ID
    else segment
  }

  /** Empty segments come from doubled or leading slashes and are kept. */
  function NormalizeSegments(n: Normalizer, segments: seq<string>): (r: seq<string>)
    ensures |r| == |segments|
    ensures forall i :: 0 <= i < |r| ==> r[i] == if segments[i] == "" then "" else NormalizeSegment(n, segments[i])
    ensures SlashFree(segments) ==> SlashFree(r)
  {
    seq(|segments|, i requires 0 <= i < |segments| =>
      if segments[i] == "" then "" else NormalizeSegment(n, segments[i]))
  }

  function CutQuery(raw: string): (r: string)
    ensures '?' !in r
    ensures r <= raw && (r == raw || raw[|r|] == '?')
  {
    if raw == "" || raw[0] == '?' then "" else [raw[0]] + CutQuery(raw[1..])
  }

  function TrimSlash(path: string): string {
    if |path| > 1 && path[|path| - 1] == '/' then path[..|path| - 1] else path
  }

  /** The path whose segments are looked at: no query, one trailing slash less. */
  function TrimmedPath(raw: string): string {
    TrimSlash(CutQuery(raw))
  }

  function Normalize(n: Normalizer, raw: string): string {
    var path := TrimmedPath(raw);
    if path == "" || path == "/" then path
    else Join(NormalizeSegments(n, Split(path)))
  }

  /** `Normalize` as it runs: the segments are overwritten one by one. */
  method NormalizeInPlace(n: Normalizer, rawPath: string) returns (r: string)
    ensures r == Normalize(n, rawPath)
  {
    var path := TrimSlash(CutQuery(rawPath));
    if path == "" || path == "/" {
      return path;
    }
    var original := Split(path);
    var segments := original;
    for i := 0 to |segments|
      invariant |segments| == |original|
      invariant forall j :: 0 <= j < i ==> segments[j] == NormalizeSegments(n, original)[j]
      invariant forall j :: i <= j < |segments| ==> segments[j] == original[j]
    {
      if segments[i] != "" {
        segments := segments[i := NormalizeSegment(n, segments[i])];
      }
    }
    assert segments == NormalizeSegments(n, original);
    r := Join(segments);
  }

  /** The early return for "" and "/" is only a shortcut. */
  lemma {:induction false} NormalizeIsJoin(n: Normalizer, raw: string)
    ensures Normalize(n, raw) == Join(NormalizeSegments(n, Split(TrimmedPath(raw))))
  {
    var path := TrimmedPath(raw);
    if path == "/" {
      assert Split(path[1..]) == [""];
      assert Split(path) == ["", ""];
      assert NormalizeSegments(n, ["", ""]) == ["", ""];
      assert ["", ""][1..] == [""];
      assert Join(["", ""]) == "/";
    } else if path == "" {
      assert NormalizeSegments(n, [""]) == [""];
    }
  }

  /** Normalising splits back into the same number of segments; every empty
      segment stays, every other one stays or becomes "{id}", and it becomes
      "{id}" exactly when a built-in or user pattern matches it and no exclude
      pattern does (or it already reads "{id}"). */
  lemma {:induction false} NormalizeSegmentwise(n: Normalizer, raw: string)
    ensures var before, after := Split(TrimmedPath(raw)), Split(Normalize(n, raw));
            && |after| == |before|
            && forall i :: 0 <= i < |before| ==>
                 && (before[i] == "" ==> after[i] == "")
                 && (before[i] != "" ==>
                       && (after[i] == before[i] || after[i] == ID)
                       && (after[i] == ID <==> IsDynamic(n, before[i]) || before[i] == ID))
    ensures forall segment :: IsDynamic(n, segment) <==>
              && (forall i :: 0 <= i < |n.exclude| ==> !n.exclude[i](segment))
              && ((exists i :: 0 <= i < |n.builtin| && n.builtin[i](segment))
                  || (exists i :: 0 <= i < |n.user| && n.user[i](segment)))
    ensures ID == "{id}"
  {
    var segments := NormalizeSegments(n, Split(TrimmedPath(raw)));
    NormalizeIsJoin(n, raw);
    SplitOfJoin(segments);
  }

  lemma {:induction false} SegmentsIdempotent(n: Normalizer, segments: seq<string>)
    ensures NormalizeSegments(n, NormalizeSegments(n, segments)) == NormalizeSegments(n, segments)
  {
  }

  lemma {:induction false} NoQueryIsKept(path: string)
    requires '?' !in path
    ensures CutQuery(path) == path
  {
  }

  lemma {:induction false} NoQueryInNormalized(n: Normalizer, raw: string)
    ensures '?' !in Normalize(n, raw)
  {
    var path := TrimmedPath(raw);
    var segments := NormalizeSegments(n, Split(path));
    NormalizeIsJoin(n, raw);
    InJoin(segments, '?');
    InSplit(path, '?');
  }

  lemma {:induction false} LastSegmentEmpty(segments: seq<string>)
    requires |segments| >= 1 && SlashFree(segments)
    ensures Join(segments) != "" && Join(segments)[|Join(segments)| - 1] == '/'
            <==> |segments| >= 2 && segments[|segments| - 1] == ""
  {
    var k := |segments| - 1;
    var last := segments[k];
    assert last != "" ==> last[|last| - 1] in last;
    if k > 0 {
      assert segments == segments[..k] + [last];
      JoinSnoc(segments[..k], last);
    }
  }

  /** Trimming one slash, seen on the segments. */
  function TrimSegments(segments: seq<string>): (r: seq<string>)
    requires |segments| >= 1
    ensures 1 <= |r| <= |segments| && r == segments[..|r|]
  {
    var k := |segments| - 1;
    if k >= 1 && segments[k] == "" && segments != ["", ""] then segments[..k] else segments
  }

  lemma {:induction false} JoinTrailingEmpty(segments: seq<string>)
    requires |segments| >= 2 && segments[|segments| - 1] == ""
    ensures Join(segments) == Join(segments[..|segments| - 1]) + "/"
  {
    var init := segments[..|segments| - 1];
    JoinSnoc(init, "");
    assert init + [""] == segments;
    assert Join(init) + "/" + "" == Join(init) + "/";
  }

  lemma {:induction false} TrimOfJoin(segments: seq<string>)
    requires |segments| >= 1 && SlashFree(segments)
    ensures TrimSlash(Join(segments)) == Join(TrimSegments(segments))
  {
    var k := |segments| - 1;
    LastSegmentEmpty(segments);
    if k >= 1 && segments[k] == "" {
      JoinLongerThanSlash(segments);
      JoinTrailingEmpty(segments);
    }
  }

  lemma {:induction false} NormalizeOfJoin(n: Normalizer, segments: seq<string>)
    requires |segments| >= 1 && SlashFree(segments) && '?' !in Join(segments)
    ensures Normalize(n, Join(segments)) == Join(NormalizeSegments(n, TrimSegments(segments)))
  {
    var path := Join(segments);
    NoQueryIsKept(path);
    TrimOfJoin(segments);
    SplitOfJoin(TrimSegments(segments));
    NormalizeIsJoin(n, path);
  }

  /** Normalising an already normalised path only trims one more slash. */
  lemma {:induction false} NormalFormTrims(n: Normalizer, segments: seq<string>)
    requires |segments| >= 1 && SlashFree(segments) && '?' !in Join(segments)
    requires NormalizeSegments(n, segments) == segments
    ensures Normalize(n, Join(segments)) == TrimSlash(Join(segments))
  {
    var trimmed := TrimSegments(segments);
    var r := NormalizeSegments(n, trimmed);
    forall i | 0 <= i < |r| ensures r[i] == trimmed[i] {
      assert segments[i] == NormalizeSegments(n, segments)[i];
    }
    assert r == trimmed;
    TrimOfJoin(segments);
    NormalizeOfJoin(n, segments);
  }

  /** Normalising twice is normalising once, except for the paths whose
      query-free part is longer than "//" and ends in a doubled slash: only
      one trailing slash is trimmed, and the next pass trims another. */
  lemma {:induction false} NormalizeIdempotentIff(n: Normalizer, raw: string)
    ensures Normalize(n, Normalize(n, raw)) == Normalize(n, raw)
            <==> CutQuery(raw) == "//" || !HasSuffix(CutQuery(raw), "//")
  {
    var once, parts := Normalize(n, raw), Split(TrimmedPath(raw));
    var segments := NormalizeSegments(n, parts);
    NormalizeIsJoin(n, raw);
    NoQueryInNormalized(n, raw);
    SegmentsIdempotent(n, parts);
    NormalFormTrims(n, segments);
    TrailingSlash(raw, once, parts, segments);
  }

  lemma {:induction false} JoinLongerThanSlash(segments: seq<string>)
    requires |segments| >= 2 && SlashFree(segments)
    ensures Join(segments) != ""
    ensures Join(segments) == "/" <==> segments == ["", ""]
  {
    if Join(segments) == "/" {
      SplitOfJoin(segments);
      assert Split("/"[1..]) == [""];
      assert Split("/") == ["", ""];
    }
    if segments == ["", ""] {
      assert segments[1..] == [""];
      assert Join([""]) == "";
    }
  }

  /** What a trailing slash of the normalised path says about the raw one. */
  lemma {:induction false} TrailingSlash(raw: string, once: string, parts: seq<string>, segments: seq<string>)
    requires parts == Split(TrimmedPath(raw)) && |segments| == |parts| && SlashFree(segments)
    requires forall i :: 0 <= i < |parts| ==> (parts[i] == "" <==> segments[i] == "")
    requires once == Join(segments)
    ensures |once| > 1 && once[|once| - 1] == '/'
            <==> CutQuery(raw) != "//" && HasSuffix(CutQuery(raw), "//")
  {
    var cut, path := CutQuery(raw), TrimmedPath(raw);
    LastSegmentEmpty(segments);
    LastSegmentEmpty(parts);
    JoinOfSplit(path);
    if |parts| >= 2 {
      JoinLongerThanSlash(parts);
      JoinLongerThanSlash(segments);
      assert parts == ["", ""] <==> segments == ["", ""];
    }
    assert |once| > 1 && once[|once| - 1] == '/' <==> |path| > 1 && path[|path| - 1] == '/';
    DoubleSlash(cut);
  }

  /** "/a//" is one of them, whatever the patterns say of "a". */
  lemma {:induction false} DoubledSlashTakesTwoPasses(n: Normalizer)
    ensures Normalize(n, Normalize(n, "/a//")) != Normalize(n, "/a//")
  {
    NoQueryIsKept("/a//");
    assert HasSuffix("/a//", "//");
    NormalizeIdempotentIff(n, "/a//");
  }

  // ------------------------------------------------- paths that become equal

  /** The segment reads "{id}" once normalised. */
  predicate IsReplaced(n: Normalizer, segment: string) {
    segment != "" && (IsDynamic(n, segment) || segment == ID)
  }

  ghost predicate SameSegments(n: Normalizer, a: seq<string>, b: seq<string>) {
    |a| == |b| && forall i :: 0 <= i < |a| ==> a[i] == b[i] || (IsReplaced(n, a[i]) && IsReplaced(n, b[i]))
  }

  /** Any two paths normalise alike exactly when they have the same number of
      segments and differ only where both segments are replaced. */
  lemma {:induction false} NormalizeEqualIff(n: Normalizer, a: string, b: string)
    ensures Normalize(n, a) == Normalize(n, b) <==> SameSegments(n, Split(TrimmedPath(a)), Split(TrimmedPath(b)))
  {
    var x, y := NormalizeSegments(n, Split(TrimmedPath(a))), NormalizeSegments(n, Split(TrimmedPath(b)));
    NormalizeIsJoin(n, a);
    NormalizeIsJoin(n, b);
    SplitOfJoin(x);
    SplitOfJoin(y);
    assert Normalize(n, a) == Normalize(n, b) <==> x == y;
    EqualSegmentsIff(n, Split(TrimmedPath(a)), Split(TrimmedPath(b)));
  }

  lemma {:induction false} EqualSegmentsIff(n: Normalizer, a: seq<string>, b: seq<string>)
    ensures NormalizeSegments(n, a) == NormalizeSegments(n, b) <==> SameSegments(n, a, b)
  {
    var x, y := NormalizeSegments(n, a), NormalizeSegments(n, b);
    if |a| == |b| {
      forall i | 0 <= i < |a|
        ensures x[i] == y[i] <==> a[i] == b[i] || (IsReplaced(n, a[i]) && IsReplaced(n, b[i]))
      {
      }
    }
  }
}
