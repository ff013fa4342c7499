/** Sorting. `Sort` stands for Go's
    `sort.Slice`; only what its contract says is used of it. */
module Ordering {
  import opened Sequences

  ghost predicate StrictOrder<T(!new)>(less: (T, T) -> bool) {
    && (forall x :: !less(x, x))
    && (forall x, y, z :: less(x, y) && less(y, z) ==> less(x, z))
  }

  /** Any two elements at different positions are ordered one way or the other. */
  ghost predicate Comparable<T(!new)>(less: (T, T) -> bool, xs: seq<T>) {
    forall i, j :: 0 <= i < j < |xs| ==> less(xs[i], xs[j]) || less(xs[j], xs[i])
  }

  ghost predicate Ascending<T(!new)>(less: (T, T) -> bool, xs: seq<T>) {
    forall i, j :: 0 <= i < j < |xs| ==> less(xs[i], xs[j])
  }

  function Insert<T>(less: (T, T) -> bool, x: T, ys: seq<T>): seq<T> {
    if ys == [] || less(x, ys[0]) then [x] + ys else [ys[0]] + Insert(less, x, ys[1..])
  }

  function Sort<T>(less: (T, T) -> bool, xs: seq<T>): seq<T> {
    if xs == [] then [] else Insert(less, xs[0], Sort(less, xs[1..]))
  }

  lemma {:induction false} InsertKeepsOrder<T(!new)>(less: (T, T) -> bool, x: T, ys: seq<T>)
    requires StrictOrder(less) && Ascending(less, ys)
    requires forall y :: y in ys ==> less(x, y) || less(y, x)
    ensures var r := Insert(less, x, ys);
            Ascending(less, r) && |r| == |ys| + 1 && forall z :: z in r <==> z == x || z in ys
  {
    if ys == [] {
    } else if !less(x, ys[0]) {
      InsertKeepsOrder(less, x, ys[1..]);
      var r := Insert(less, x, ys);
      var rest := Insert(less, x, ys[1..]);
      forall i, j | 0 <= i < j < |r| ensures less(r[i], r[j]) {
        if i == 0 {
          assert r[j] == rest[j - 1] && rest[j - 1] in rest;
          if r[j] != x {
            var k :| 0 <= k < |ys[1..]| && ys[1..][k] == r[j];
            assert less(ys[0], ys[k + 1]);
          } else {
            assert ys[0] in ys;
          }
        }
      }
      assert forall z :: z in ys <==> z == ys[0] || z in ys[1..];
    }
  }

  /** Sorting yields the same elements in strictly ascending order. */
  lemma {:induction false} SortSorts<T(!new)>(less: (T, T) -> bool, xs: seq<T>)
    requires StrictOrder(less) && Comparable(less, xs)
    ensures Ascending(less, Sort(less, xs)) && SameElements(Sort(less, xs), xs) && |Sort(less, xs)| == |xs|
  {
    if xs == [] {
    } else {
      var tail := xs[1..];
      SortSorts(less, tail);
      forall y | y in Sort(less, tail) ensures less(xs[0], y) || less(y, xs[0]) {
        assert y in tail;
        var k :| 0 <= k < |tail| && tail[k] == y;
        assert xs[k + 1] == y;
      }
      InsertKeepsOrder(less, xs[0], Sort(less, tail));
      assert forall x :: x in xs <==> x == xs[0] || x in tail;
    }
  }

  lemma {:induction false} EmptyTogether<T(!new)>(a: seq<T>, b: seq<T>)
    requires SameElements(a, b)
    ensures a == [] <==> b == []
  {
    assert |a| > 0 ==> a[0] in b;
    assert |b| > 0 ==> b[0] in a;
  }

  /** A strictly ascending sequence is determined by its elements: the order
      in which they were collected cannot be seen any more. */
  lemma {:induction false} AscendingUnique<T(!new)>(less: (T, T) -> bool, a: seq<T>, b: seq<T>)
    requires StrictOrder(less) && Ascending(less, a) && Ascending(less, b)
    requires SameElements(a, b)
    ensures a == b
  {
    EmptyTogether(a, b);
    if a == [] {
    } else {
      assert a[0] in b;
      assert b[0] in a;
      assert a[0] == b[0];
      var at, bt := a[1..], b[1..];
      assert a[0] !in at && b[0] !in bt;
      assert forall x :: x in a <==> x == a[0] || x in at;
      assert forall x :: x in b <==> x == b[0] || x in bt;
      AscendingUnique(less, at, bt);
      assert a == [a[0]] + at && b == [b[0]] + bt;
    }
  }

  /** Sorting two collections of the same elements gives one result. */
  lemma {:induction false} SortIgnoresOrder<T(!new)>(less: (T, T) -> bool, xs: seq<T>, ys: seq<T>)
    requires StrictOrder(less) && Comparable(less, xs) && Comparable(less, ys) && SameElements(xs, ys)
    ensures Sort(less, xs) == Sort(less, ys)
  {
    SortSorts(less, xs);
    SortSorts(less, ys);
    AscendingUnique(less, Sort(less, xs), Sort(less, ys));
  }
}
