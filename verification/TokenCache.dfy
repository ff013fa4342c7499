/** The token cache as the daemon builds it: a map from tokens to the nodes of
    a doubly linked ring (internal/bff/token_cache.go). */
module TokenCache {
  import opened Clock
  import opened Options
  import opened RecencyList

  /** A node of the ring with the entry it carries. */
  class Element {
    var next: Element
    var prev: Element
    var value: Entry

    /** A node that is a ring by itself. */
    constructor (value: Entry)
      ensures this.value == value && next == this && prev == this
    {
      this.value := value;
      next, prev := this, this;
    }
  }

  /** `container/list`: a ring closed by a sentinel that carries no entry. */
  class Ring {
    const root: Element
    var len: nat
    ghost var elements: seq<Element>

    /** The element at a position; the sentinel before the first and after the last. */
    ghost function At(i: int): Element
      reads this
    {
      if 0 <= i < |elements| then elements[i] else root
    }

    /** Following `next` from the sentinel visits `elements` and comes back;
        following `prev` does the same backwards. */
    ghost predicate Linked()
      reads this, root, elements
    {
      && root.next == At(0) && root.prev == At(|elements| - 1)
      && (forall i {:trigger elements[i].next} :: 0 <= i < |elements| ==> elements[i].next == At(i + 1))
      && (forall i {:trigger elements[i].prev} :: 0 <= i < |elements| ==> elements[i].prev == At(i - 1))
    }

    ghost predicate Valid()
      reads this, root, elements
    {
      && len == |elements|
      && root !in elements
      && (forall i, j :: 0 <= i < j < |elements| ==> elements[i] != elements[j])
      && Linked()
    }

    constructor ()
      ensures Valid() && elements == [] && fresh(root)
    {
      var sentinel := new Element(Entry("", TokenInfo(false, "", "", "", 0, 0), 0));
      root := sentinel;
      len := 0;
      elements := [];
    }

    /** The next position, passing over `at`. */
    ghost function Beside(xs: seq<Element>, at: nat, i: int, step: int): Element
      reads this
    {
      var j := if i + step == at then at + step else i + step;
      if 0 <= j < |xs| then xs[j] else root
    }

    /** The ring passes over the element at one position. */
    ghost predicate LinkedPast(xs: seq<Element>, at: nat)
      reads this, root, xs
    {
      && root.next == Beside(xs, at, -1, 1) && root.prev == Beside(xs, at, |xs|, -1)
      && (forall i {:trigger xs[i].next} :: 0 <= i < |xs| && i != at ==> xs[i].next == Beside(xs, at, i, 1))
      && (forall i {:trigger xs[i].prev} :: 0 <= i < |xs| && i != at ==> xs[i].prev == Beside(xs, at, i, -1))
    }

    lemma {:induction false} Relinked(xs: seq<Element>, at: nat)
      requires at < |xs| && LinkedPast(xs, at) && elements == RemoveAt(xs, at)
      ensures Linked()
    {
      RemoveAtExact(xs, at);
      forall k | 0 <= k < |elements|
        ensures elements[k].next == At(k + 1) && elements[k].prev == At(k - 1)
      {
        assert elements[k] == xs[if k < at then k else k + 1];
      }
    }

    method Unlink(e: Element, ghost at: nat)
      requires Valid() && at < |elements| && elements[at] == e
      modifies root`next, root`prev, elements`next, elements`prev
      ensures LinkedPast(elements, at)
    {
      e.prev.next := e.next;
      e.next.prev := e.prev;
    }

    method Remove(e: Element, ghost at: nat)
      requires Valid() && at < |elements| && elements[at] == e
      modifies this`len, this`elements, root`next, root`prev, elements`next, elements`prev
      ensures Valid() && elements == RemoveAt(old(elements), at)
    {
      RemoveAtExact(elements, at);
      Unlink(e, at);
      len := len - 1;
      elements := RemoveAt(elements, at);
      Relinked(old(elements), at);
    }

    method PushFront(e: Element)
      requires Valid() && e !in elements && e != root
      modifies this`len, this`elements, root`next, root`prev, elements`next, elements`prev, e`next, e`prev
      ensures Valid() && elements == [e] + old(elements)
    {
      e.prev := root;
      e.next := root.next;
      e.prev.next := e;
      e.next.prev := e;
      len := len + 1;
      elements := [e] + elements;
    }

    method MoveToFront(e: Element, ghost at: nat)
      requires Valid() && at < |elements| && elements[at] == e
      modifies this`len, this`elements, root`next, root`prev, elements`next, elements`prev
      ensures Valid() && elements == [e] + RemoveAt(old(elements), at)
    {
      if root.next == e {
        assert elements[0] == e;
        return;
      }
      RemoveAtExact(elements, at);
      Remove(e, at);
      PushFront(e);
    }

    method Back() returns (e: Element?)
      requires Valid()
      ensures e == if elements == [] then null else elements[|elements| - 1]
    {
      if len == 0 {
        return null;
      }
      return root.prev;
    }
  }

  const DEFAULT_CAPACITY: nat := 1000

  // ---------------------------------------------------- the map of the nodes

  /** The map holds exactly the cached tokens, each with the node of its entry. */
  ghost predicate Indexed(items: map<string, Element>, nodes: seq<Element>, c: Cache) {
    && |nodes| == |c| && DistinctTokens(c)
    && (forall token :: token in items <==> Holds(c, token))
    && (forall token :: token in items ==> items[token] == nodes[IndexOf(c, token)])
  }

  lemma {:induction false} IndexOfKept(c: Cache, at: nat, token: string)
    requires DistinctTokens(c) && at < |c| && token != c[at].token
    ensures var i, j := IndexOf(c, token), IndexOf(RemoveAt(c, at), token);
            j == if i < at then i else i - 1
  {
    var i, rest := IndexOf(c, token), RemoveAt(c, at);
    RemoveAtExact(c, at);
    if i < |c| {
      assert rest[if i < at then i else i - 1] == c[i];
    }
    assert forall k :: 0 <= k < |rest| ==> rest[k] == c[if k < at then k else k + 1];
  }

  lemma {:induction false} IndexOfGone(c: Cache, at: nat)
    requires DistinctTokens(c) && at < |c|
    ensures !Holds(RemoveAt(c, at), c[at].token)
  {
    RemoveAtExact(c, at);
  }

  lemma {:induction false} HoldsKept(c: Cache, at: nat, token: string)
    requires DistinctTokens(c) && at < |c|
    ensures Holds(RemoveAt(c, at), token) <==> Holds(c, token) && token != c[at].token
  {
    RemoveAtExact(c, at);
    if token == c[at].token {
      IndexOfGone(c, at);
    } else {
      IndexOfKept(c, at, token);
    }
  }

  lemma {:induction false} NodeKept(nodes: seq<Element>, c: Cache, at: nat, token: string)
    requires |nodes| == |c| && DistinctTokens(c) && at < |c| && token != c[at].token && Holds(c, token)
    ensures IndexOf(RemoveAt(c, at), token) < |RemoveAt(nodes, at)|
    ensures RemoveAt(nodes, at)[IndexOf(RemoveAt(c, at), token)] == nodes[IndexOf(c, token)]
  {
    IndexOfKept(c, at, token);
    RemoveAtExact(nodes, at);
  }

  lemma {:induction false} Forgotten(items: map<string, Element>, nodes: seq<Element>, c: Cache, at: nat)
    requires Indexed(items, nodes, c) && at < |c|
    ensures Indexed(items - {c[at].token}, RemoveAt(nodes, at), RemoveAt(c, at))
  {
    var items' := items - {c[at].token};
    RemovedAt(c, at);
    RemoveAtExact(nodes, at);
    forall token ensures token in items' <==> Holds(RemoveAt(c, at), token) {
      HoldsKept(c, at, token);
    }
    forall token | token in items'
      ensures items'[token] == RemoveAt(nodes, at)[IndexOf(RemoveAt(c, at), token)]
    {
      NodeKept(nodes, c, at, token);
    }
  }

  lemma {:induction false} Pushed(items: map<string, Element>, nodes: seq<Element>, c: Cache, node: Element, entry: Entry)
    requires Indexed(items, nodes, c) && entry.token !in items
    ensures Indexed(items[entry.token := node], [node] + nodes, [entry] + c)
  {
    var c' := [entry] + c;
    assert c'[1..] == c;
    forall i, j | 0 <= i < j < |c'| ensures c'[i].token != c'[j].token {
      assert !Holds(c, entry.token);
      assert c'[j] == c[j - 1];
    }
  }

  lemma {:induction false} Moved(items: map<string, Element>, nodes: seq<Element>, c: Cache, at: nat)
    requires Indexed(items, nodes, c) && at < |c|
    ensures Indexed(items, [nodes[at]] + RemoveAt(nodes, at), [c[at]] + RemoveAt(c, at))
  {
    var token := c[at].token;
    assert items[token] == nodes[at] by {
      assert IndexOf(c, token) == at;
    }
    assert (items - {token})[token := nodes[at]] == items;
    Forgotten(items, nodes, c, at);
    Pushed(items - {token}, RemoveAt(nodes, at), RemoveAt(c, at), nodes[at], c[at]);
  }

  lemma {:induction false} Refreshed(items: map<string, Element>, nodes: seq<Element>, c: Cache, at: nat, entry: Entry)
    requires Indexed(items, nodes, c) && at < |c| && entry.token == c[at].token
    ensures Indexed(items, nodes, c[at := entry])
  {
    var c' := c[at := entry];
    assert forall k :: 0 <= k < |c| ==> c'[k].token == c[k].token;
    forall token ensures IndexOf(c', token) == IndexOf(c, token) {
      if IndexOf(c', token) < |c| { assert c[IndexOf(c', token)].token == token; }
      if IndexOf(c, token) < |c| { assert c'[IndexOf(c, token)].token == token; }
    }
  }

  lemma {:induction false} RefreshedRest(c: Cache, at: nat, entry: Entry)
    requires at < |c|
    ensures RemoveAt(c[at := entry], at) == RemoveAt(c, at)
  {
  }

  lemma {:induction false} RemoveAtMembers(nodes: seq<Element>, at: nat)
    requires at < |nodes|
    ensures forall e :: e in RemoveAt(nodes, at) ==> e in nodes
  {
  }

  /** The nodes carry these entries. */
  ghost predicate Carry(nodes: seq<Element>, c: Cache)
    reads nodes`value
  {
    |nodes| == |c| && forall i :: 0 <= i < |c| ==> nodes[i].value == c[i]
  }

  lemma {:induction false} CarryPushed(nodes: seq<Element>, c: Cache, node: Element)
    requires Carry(nodes, c)
    ensures Carry([node] + nodes, [node.value] + c)
  {
  }

  lemma {:induction false} CarryRemoved(nodes: seq<Element>, c: Cache, at: nat)
    requires Carry(nodes, c) && at < |c|
    ensures Carry(RemoveAt(nodes, at), RemoveAt(c, at))
  {
    RemoveAtExact(nodes, at);
    RemoveAtExact(c, at);
  }

  class Tokens {
    const ttl: Instant
    const max: nat
    const lru: Ring
    var items: map<string, Element>
    /** What the cache holds, most recently used first. */
    ghost var contents: Cache

    ghost predicate Valid()
      reads this, lru, lru.root, lru.elements
    {
      && lru.Valid() && 1 <= max && |contents| <= max
      && Indexed(items, lru.elements, contents)
      && Carry(lru.elements, contents)
    }

    ghost function Nodes(): set<Element>
      reads lru
    {
      set e | e in lru.elements
    }

    constructor (ttl: Instant, max: int)
      ensures Valid() && fresh(lru) && fresh(lru.root) && contents == [] && lru.elements == []
      ensures this.ttl == ttl && this.max == if max <= 0 then 1000 else max
    {
      this.ttl := ttl;
      this.max := if max <= 0 then DEFAULT_CAPACITY else max;
      items := map[];
      contents := [];
      lru := new Ring();
    }

    method Forget(elem: Element, ghost at: nat)
      requires Valid() && at < |contents| && elem == lru.elements[at]
      modifies this`items, this`contents, lru`len, lru`elements,
               lru.root`next, lru.root`prev, Nodes()`next, Nodes()`prev
      ensures Valid() && contents == RemoveAt(old(contents), at)
      ensures Nodes() <= old(Nodes())
    {
      ghost var nodes, was := lru.elements, contents;
      RemoveAtMembers(nodes, at);
      lru.Remove(elem, at);
      items := items - {elem.value.token};
      contents := RemoveAt(was, at);
      Forgotten(old(items), nodes, was, at);
      CarryRemoved(nodes, was, at);
    }

    method MoveToFront(elem: Element, ghost at: nat)
      requires Valid() && at < |contents| && elem == lru.elements[at]
      modifies this`contents, lru`len, lru`elements,
               lru.root`next, lru.root`prev, Nodes()`next, Nodes()`prev
      ensures Valid() && contents == [old(contents)[at]] + RemoveAt(old(contents), at)
      ensures Nodes() <= old(Nodes())
    {
      ghost var nodes, was := lru.elements, contents;
      RemoveAtMembers(nodes, at);
      lru.MoveToFront(elem, at);
      contents := [was[at]] + RemoveAt(was, at);
      Moved(items, nodes, was, at);
      CarryRemoved(nodes, was, at);
      CarryPushed(RemoveAt(nodes, at), RemoveAt(was, at), nodes[at]);
    }

    method EvictIfFull(ghost token: string)
      requires Valid() && token !in items
      modifies this`items, this`contents, lru`len, lru`elements,
               lru.root`next, lru.root`prev, Nodes()`next, Nodes()`prev
      ensures Valid() && token !in items && Nodes() <= old(Nodes())
      ensures |old(contents)| < max ==> contents == old(contents)
      ensures |old(contents)| == max ==> contents == old(contents)[..max - 1]
    {
      if lru.len >= max {
        var oldest := lru.Back();
        if oldest != null {
          ghost var last := |contents| - 1;
          IndexOfGone(contents, last);
          IndexOfKept(contents, last, token);
          assert RemoveAt(contents, last) == contents[..last];
          Forget(oldest, last);
        }
      }
    }

    method Insert(elem: Element)
      requires Valid() && elem.value.token !in items && |contents| < max
      requires elem !in lru.elements && elem != lru.root
      modifies this`items, this`contents, lru`len, lru`elements,
               lru.root`next, lru.root`prev, Nodes()`next, Nodes()`prev, elem`next, elem`prev
      ensures Valid() && contents == [elem.value] + old(contents)
      ensures lru.elements == [elem] + old(lru.elements)
    {
      ghost var nodes, was := lru.elements, contents;
      lru.PushFront(elem);
      items := items[elem.value.token := elem];
      contents := [elem.value] + contents;
      Pushed(old(items), nodes, was, elem, elem.value);
      CarryPushed(nodes, was, elem);
    }

    method Renew(elem: Element, ghost at: nat, info: TokenInfo, now: Instant)
      requires Valid() && at < |contents| && elem == lru.elements[at]
      modifies this`contents, elem`value
      ensures Valid() && lru.elements == old(lru.elements)
      ensures contents == old(contents)[at := Entry(old(contents)[at].token, info, now)]
    {
      ghost var entry := Entry(contents[at].token, info, now);
      Refreshed(items, lru.elements, contents, at, entry);
      elem.value := elem.value.(info := info, cached := now);
      contents := contents[at := entry];
    }

    method Refresh(elem: Element, ghost at: nat, info: TokenInfo, now: Instant)
      requires Valid() && at < |contents| && elem == lru.elements[at]
      modifies this`contents, lru`len, lru`elements, lru.root`next, lru.root`prev,
               Nodes()`next, Nodes()`prev, elem`value
      ensures Valid() && Nodes() <= old(Nodes())
      ensures contents == [Entry(old(contents)[at].token, info, now)] + RemoveAt(old(contents), at)
    {
      RefreshedRest(contents, at, Entry(contents[at].token, info, now));
      Renew(elem, at, info, now);
      MoveToFront(elem, at);
    }

    method InsertNew(entry: Entry)
      requires Valid() && entry.token !in items
      modifies this`items, this`contents, lru`len, lru`elements,
               lru.root`next, lru.root`prev, Nodes()`next, Nodes()`prev
      ensures Valid() && fresh(Nodes() - old(Nodes()))
      ensures contents == [entry] + if |old(contents)| < max then old(contents) else old(contents)[..max - 1]
    {
      EvictIfFull(entry.token);
      var elem := new Element(entry);
      Insert(elem);
    }

    method Get(token: string, now: Instant) returns (info: Option<TokenInfo>)
      requires Valid()
      modifies this`items, this`contents, lru`len, lru`elements,
               lru.root`next, lru.root`prev, Nodes()`next, Nodes()`prev
      ensures Valid() && info == GetResult(old(contents), ttl, token, now)
      ensures contents == AfterGet(old(contents), ttl, token, now)
      ensures Nodes() <= old(Nodes())
    {
      if token !in items {
        return None;
      }
      ghost var at := IndexOf(contents, token);
      var elem := items[token];
      if now - elem.value.cached > ttl {
        Forget(elem, at);
        return None;
      }
      MoveToFront(elem, at);
      return Some(elem.value.info);
    }

    method Put(token: string, info: TokenInfo, now: Instant)
      requires Valid()
      modifies this`items, this`contents, lru`len, lru`elements, lru.root`next, lru.root`prev,
               Nodes()`next, Nodes()`prev, Nodes()`value
      ensures Valid() && contents == AfterPut(old(contents), max, token, info, now)
      ensures fresh(Nodes() - old(Nodes()))
    {
      if token in items {
        Refresh(items[token], IndexOf(contents, token), info, now);
      } else {
        InsertNew(Entry(token, info, now));
      }
    }

    method Size() returns (n: nat)
      requires Valid()
      ensures n == |contents| <= max
    {
      return lru.len;
    }
  }
}
