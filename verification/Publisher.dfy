/** Reading the Publisher: the paging loop of `ListPublishedAPIs`
    (internal/apim/publisher.go). The HTTP calls are a parameter: what the
    server answers at each offset. Offsets only grow, so no offset is asked twice. */
module Publisher {
  import opened Arithmetic
  import opened Options
  import opened Sequences

  const MAX_INT: int := 0x7FFF_FFFF_FFFF_FFFF

  type Int64 = x: int | -MAX_INT - 1 <= x <= MAX_INT

  datatype Summary = Summary(id: string, name: string, version: string, lifeCycleStatus: string)

  datatype Page = Page(list: seq<Summary>, total: Int64, next: string)

  /** None: the call failed. */
  type Server = nat -> Option<Page>

  const PAGE_SIZE: nat := 200

  predicate IsPublished(a: Summary) {
    a.lifeCycleStatus == "PUBLISHED"
  }

  predicate IsLast(page: Page, offset: nat) {
    page.next == "" || offset + PAGE_SIZE >= page.total
  }

  function Prepend(some: seq<Summary>, rest: Option<seq<Summary>>): Option<seq<Summary>> {
    if rest.None? then None else Some(some + rest.value)
  }

  /** What is listed from an offset on; one failed page fails the listing. */
  function ListFrom(server: Server, offset: nat): Option<seq<Summary>>
    decreases MAX_INT - offset
  {
    match server(offset)
    case None => None
    case Some(page) =>
      var here := Filter(IsPublished, page.list);
      if IsLast(page, offset) then Some(here)
      else Prepend(here, ListFrom(server, offset + PAGE_SIZE))
  }

  lemma {:induction false} PrependTwice(a: seq<Summary>, b: seq<Summary>, rest: Option<seq<Summary>>)
    ensures Prepend([], rest) == rest
    ensures Prepend(a, Prepend(b, rest)) == Prepend(a + b, rest)
  {
    if rest.Some? {
      assert [] + rest.value == rest.value;
      assert a + (b + rest.value) == (a + b) + rest.value;
    }
  }

  // ------------------------------------------------ what a listing comes to

  /** Page number `i` arrives, and another one is asked for. */
  predicate GoesOn(server: Server, i: nat) {
    && server(200 * i).Some?
    && server(200 * i).value.next != "" && 200 * i + 200 < server(200 * i).value.total
  }

  /** Page number `k` is the first one that does not arrive. */
  ghost predicate FailsAt(server: Server, k: nat) {
    (forall i: nat :: i < k ==> GoesOn(server, i)) && server(200 * k).None?
  }

  /** Page number `k` is the last one. */
  ghost predicate EndsAt(server: Server, k: nat) {
    (forall i: nat :: i < k ==> GoesOn(server, i)) && server(200 * k).Some? && !GoesOn(server, k)
  }

  ghost predicate IsListing(server: Server, apis: Option<seq<Summary>>) {
    && (apis == None <==> exists k: nat :: FailsAt(server, k))
    && (forall k: nat :: EndsAt(server, k) ==> apis == Some(PublishedBefore(server, k + 1)))
  }

  function PublishedOn(server: Server, i: nat): seq<Summary> {
    if server(200 * i).None? then [] else Filter((a: Summary) => a.lifeCycleStatus == "PUBLISHED", server(200 * i).value.list)
  }

  /** The published entries of the pages before page number `k`. */
  function PublishedBefore(server: Server, k: nat): seq<Summary> {
    if k == 0 then [] else PublishedBefore(server, k - 1) + PublishedOn(server, k - 1)
  }

  lemma {:induction false} FilterSame<T>(p: T -> bool, q: T -> bool, xs: seq<T>)
    requires forall x :: p(x) <==> q(x)
    ensures Filter(p, xs) == Filter(q, xs)
  {
    if xs == [] {
    } else {
      FilterSame(p, q, xs[..|xs| - 1]);
    }
  }

  lemma {:induction false} ListsPage(server: Server, j: nat)
    requires server(200 * j).Some?
    ensures ListFrom(server, 200 * j) ==
            if GoesOn(server, j) then Prepend(PublishedOn(server, j), ListFrom(server, 200 * (j + 1)))
            else Some(PublishedOn(server, j))
  {
    FilterSame(IsPublished, (a: Summary) => a.lifeCycleStatus == "PUBLISHED", server(200 * j).value.list);
    assert 200 * j + PAGE_SIZE == 200 * (j + 1);
  }

  lemma {:induction false} ListsFrom(server: Server, j: nat) returns (k: nat)
    requires forall i: nat :: i < j ==> GoesOn(server, i)
    ensures FailsAt(server, k) || EndsAt(server, k)
    ensures Prepend(PublishedBefore(server, j), ListFrom(server, 200 * j)) ==
            if FailsAt(server, k) then None else Some(PublishedBefore(server, k + 1))
    decreases MAX_INT - 200 * j
  {
    if server(200 * j).None? {
      k := j;
    } else {
      ListsPage(server, j);
      if GoesOn(server, j) {
        k := ListsFrom(server, j + 1);
        PrependTwice(PublishedBefore(server, j), PublishedOn(server, j), ListFrom(server, 200 * (j + 1)));
      } else {
        k := j;
      }
    }
  }

  /** Against every server: the listing fails exactly if some page it asks for
      does not arrive, which is to say that all pages before that one arrive
      and announce another; otherwise there is a first page that announces none,
      and the listing is what is published on the pages up to that one. */
  lemma {:induction false} ListsExactly(server: Server)
    ensures IsListing(server, ListFrom(server, 0))
    ensures (exists k: nat :: FailsAt(server, k)) || (exists k: nat :: EndsAt(server, k))
  {
    var k := ListsFrom(server, 0);
    PrependTwice([], [], ListFrom(server, 0));
    forall l: nat | FailsAt(server, l) || EndsAt(server, l) ensures l == k {
      assert l < k ==> GoesOn(server, l);
      assert k < l ==> GoesOn(server, k);
    }
  }

  /** The loop over one page. */
  method AppendPublished(all: seq<Summary>, list: seq<Summary>) returns (more: seq<Summary>)
    ensures more == all + Filter(IsPublished, list)
  {
    more := all;
    for i := 0 to |list|
      invariant more == all + Filter(IsPublished, list[..i])
    {
      FilterSnoc(IsPublished, list[..i], list[i]);
      assert list[..i + 1] == list[..i] + [list[i]];
      if IsPublished(list[i]) {
        more := more + [list[i]];
      }
    }
    assert list[..|list|] == list;
  }

  method ListPublishedAPIs(server: Server) returns (apis: Option<seq<Summary>>)
    ensures IsListing(server, apis)
    ensures apis == ListFrom(server, 0)
  {
    ListsExactly(server);
    var all: seq<Summary> := [];
    var offset: nat := 0;
    PrependTwice([], [], ListFrom(server, 0));
    while true
      invariant ListFrom(server, 0) == Prepend(all, ListFrom(server, offset))
      decreases MAX_INT - offset
    {
      var answer := server(offset);
      if answer.None? {
        return None;
      }
      var page := answer.value;
      ghost var before := all;
      all := AppendPublished(all, page.list);
      PrependTwice(before, Filter(IsPublished, page.list), ListFrom(server, offset + PAGE_SIZE));
      if page.next == "" {
        break;
      }
      offset := offset + PAGE_SIZE;
      if offset >= page.total {
        break;
      }
    }
    return Some(all);
  }

  // --------------------------------------------------- against an honest server

  /** The server pages through `apis`, at most `limit` of them a page, and says
      so when there are more. */
  ghost predicate Serves(server: Server, apis: seq<Summary>, limit: nat) {
    && |apis| <= MAX_INT
    && forall offset: nat :: offset < |apis| || offset == 0 ==>
         && server(offset).Some?
         && server(offset).value.list == apis[offset..Least(offset + limit, |apis|)]
         && server(offset).value.total == |apis|
         && (offset + PAGE_SIZE < |apis| ==> server(offset).value.next != "")
  }

  /** What the pages at offsets 0, 200, 400, ... show, and what they skip. */
  function Shown(apis: seq<Summary>, limit: nat): seq<Summary>
    requires limit <= PAGE_SIZE
    decreases |apis|
  {
    if |apis| <= PAGE_SIZE then apis[..Least(limit, |apis|)]
    else apis[..limit] + Shown(apis[PAGE_SIZE..], limit)
  }

  function Skipped(apis: seq<Summary>, limit: nat): seq<Summary>
    requires limit <= PAGE_SIZE
    decreases |apis|
  {
    if |apis| <= PAGE_SIZE then apis[Least(limit, |apis|)..]
    else apis[limit..PAGE_SIZE] + Skipped(apis[PAGE_SIZE..], limit)
  }

  /** The listing is the published part of what the pages show. */
  lemma {:induction false} ListsShown(server: Server, apis: seq<Summary>, limit: nat, offset: nat)
    requires Serves(server, apis, limit) && limit <= PAGE_SIZE && (offset == 0 || offset < |apis|)
    ensures ListFrom(server, offset) == Some(Filter(IsPublished, Shown(apis[offset..], limit)))
    decreases |apis| - offset
  {
    var rest, page := apis[offset..], server(offset).value;
    assert page.list == rest[..Least(limit, |rest|)];
    assert IsLast(page, offset) <==> offset + PAGE_SIZE >= |apis|;
    if offset + PAGE_SIZE < |apis| {
      var shown := Shown(rest[PAGE_SIZE..], limit);
      assert Shown(rest, limit) == page.list + shown;
      assert rest[PAGE_SIZE..] == apis[offset + PAGE_SIZE..];
      ListsShown(server, apis, limit, offset + PAGE_SIZE);
      FilterConcat(IsPublished, page.list, shown);
    } else {
      assert Shown(rest, limit) == page.list;
    }
  }

  lemma {:induction false} ShownPlusSkipped(apis: seq<Summary>, limit: nat)
    requires limit <= PAGE_SIZE
    ensures var shown, skipped := Filter(IsPublished, Shown(apis, limit)), Filter(IsPublished, Skipped(apis, limit));
            && |Filter(IsPublished, apis)| == |shown| + |skipped|
            && (skipped == [] ==> Filter(IsPublished, apis) == shown)
    decreases |apis|
  {
    var n := Least(limit, |apis|);
    if |apis| <= PAGE_SIZE {
      FilterConcat(IsPublished, apis[..n], apis[n..]);
      assert apis[..n] + apis[n..] == apis;
    } else {
      var a, b, rest := apis[..limit], apis[limit..PAGE_SIZE], apis[PAGE_SIZE..];
      assert apis == a + b + rest;
      ShownPlusSkipped(rest, limit);
      SkippedPage(a, b, rest, Shown(rest, limit), Skipped(rest, limit));
    }
  }

  lemma {:induction false} SkippedPage(
    a: seq<Summary>, b: seq<Summary>, rest: seq<Summary>, shown: seq<Summary>, skipped: seq<Summary>)
    requires |Filter(IsPublished, rest)| == |Filter(IsPublished, shown)| + |Filter(IsPublished, skipped)|
    requires Filter(IsPublished, skipped) == [] ==> Filter(IsPublished, rest) == Filter(IsPublished, shown)
    ensures |Filter(IsPublished, a + b + rest)| == |Filter(IsPublished, a + shown)| + |Filter(IsPublished, b + skipped)|
    ensures Filter(IsPublished, b + skipped) == [] ==> Filter(IsPublished, a + b + rest) == Filter(IsPublished, a + shown)
  {
    FilterConcat(IsPublished, a + b, rest);
    FilterConcat(IsPublished, a, b);
    FilterConcat(IsPublished, a, shown);
    FilterConcat(IsPublished, b, skipped);
  }

  /** The client asks for pages of 200. If the server caps its pages below
      that, the listing is complete exactly when nothing published was skipped;
      with full pages it always is. */
  lemma {:induction false} ListsPublishedIff(server: Server, apis: seq<Summary>, limit: nat)
    requires Serves(server, apis, limit) && limit <= PAGE_SIZE
    ensures ListFrom(server, 0) == Some(Filter(IsPublished, apis))
            <==> forall a :: a in Skipped(apis, limit) ==> !IsPublished(a)
    ensures limit == PAGE_SIZE ==> Skipped(apis, limit) == []
  {
    ListsShown(server, apis, limit, 0);
    assert apis[0..] == apis;
    ShownPlusSkipped(apis, limit);
    FilterElements(IsPublished, Skipped(apis, limit));
    var skipped := Filter(IsPublished, Skipped(apis, limit));
    assert skipped == [] <==> forall a :: a !in skipped by {
      if skipped != [] {
        assert skipped[0] in skipped;
      }
    }
    if limit == PAGE_SIZE {
      FullPagesSkipNothing(apis);
    }
  }

  lemma {:induction false} FullPagesSkipNothing(apis: seq<Summary>)
    ensures Skipped(apis, PAGE_SIZE) == []
    decreases |apis|
  {
    if |apis| > PAGE_SIZE {
      FullPagesSkipNothing(apis[PAGE_SIZE..]);
    }
  }
}
