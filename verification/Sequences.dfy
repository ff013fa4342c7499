/** Filtering, mapping, summing and removing duplicates on sequences. */
module Sequences {

  ghost predicate SameElements<T(!new)>(xs: seq<T>, ys: seq<T>) {
    forall x :: x in xs <==> x in ys
  }

  ghost predicate NoDuplicates<T(!new)>(xs: seq<T>) {
    forall i, j :: 0 <= i < j < |xs| ==> xs[i] != xs[j]
  }

  function Map<A, B>(f: A -> B, xs: seq<A>): (r: seq<B>)
    ensures |r| == |xs| && forall i :: 0 <= i < |xs| ==> r[i] == f(xs[i])
  {
    seq(|xs|, i requires 0 <= i < |xs| => f(xs[i]))
  }

  lemma {:induction false} MapSnoc<A, B>(f: A -> B, xs: seq<A>, x: A)
    ensures Map(f, xs + [x]) == Map(f, xs) + [f(x)]
  {
  }

  function Filter<T>(p: T -> bool, xs: seq<T>): seq<T> {
    if xs == [] then []
    else
      var init, last := Filter(p, xs[..|xs| - 1]), xs[|xs| - 1];
      if p(last) then init + [last] else init
  }

  lemma {:induction false} FilterSnoc<T>(p: T -> bool, xs: seq<T>, x: T)
    ensures Filter(p, xs + [x]) == if p(x) then Filter(p, xs) + [x] else Filter(p, xs)
  {
    assert (xs + [x])[..|xs|] == xs;
  }

  lemma {:induction false} FilterElements<T(!new)>(p: T -> bool, xs: seq<T>)
    ensures forall x :: x in Filter(p, xs) <==> x in xs && p(x)
  {
    if xs == [] {
    } else {
      FilterElements(p, xs[..|xs| - 1]);
      assert xs == xs[..|xs| - 1] + [xs[|xs| - 1]];
    }
  }

  lemma {:induction false} FilterConcat<T>(p: T -> bool, xs: seq<T>, ys: seq<T>)
    ensures Filter(p, xs + ys) == Filter(p, xs) + Filter(p, ys)
  {
    if ys == [] {
      assert xs + ys == xs;
    } else {
      var k := |ys| - 1;
      assert xs + ys == (xs + ys[..k]) + [ys[k]];
      assert ys == ys[..k] + [ys[k]];
      FilterConcat(p, xs, ys[..k]);
      FilterSnoc(p, xs + ys[..k], ys[k]);
      FilterSnoc(p, ys[..k], ys[k]);
    }
  }

  /** Where a permutation keeps the last element of the original. */
  lemma {:induction false} FindLast<T>(xs: seq<T>, ys: seq<T>) returns (j: nat)
    requires xs != [] && multiset(xs) == multiset(ys)
    ensures j < |ys| && ys[j] == xs[|xs| - 1]
    ensures multiset(xs[..|xs| - 1]) == multiset(ys[..j] + ys[j + 1..])
    ensures ys == ys[..j] + [ys[j]] + ys[j + 1..]
  {
    var init, last := xs[..|xs| - 1], xs[|xs| - 1];
    assert xs == init + [last];
    assert last in multiset(xs);
    assert last in ys;
    j :| 0 <= j < |ys| && ys[j] == last;
    SplitAt(ys, j);
    assert multiset(init) == multiset(xs) - multiset{last};
  }

  lemma {:induction false} SplitAt<T>(ys: seq<T>, j: nat)
    requires j < |ys|
    ensures ys == ys[..j] + [ys[j]] + ys[j + 1..]
    ensures multiset(ys[..j] + ys[j + 1..]) == multiset(ys) - multiset{ys[j]}
  {
    assert ys == ys[..j] + [ys[j]] + ys[j + 1..];
  }

  lemma {:induction false} FilterPermutation<T>(p: T -> bool, xs: seq<T>, ys: seq<T>)
    requires multiset(xs) == multiset(ys)
    ensures multiset(Filter(p, xs)) == multiset(Filter(p, ys))
    decreases |xs|
  {
    if xs == [] {
      assert |ys| == |multiset(ys)| == 0;
    } else {
      var k := |xs| - 1;
      var j := FindLast(xs, ys);
      FilterPermutation(p, xs[..k], ys[..j] + ys[j + 1..]);
      FilterConcat(p, ys[..j], ys[j + 1..]);
      FilterConcat(p, ys[..j] + [ys[j]], ys[j + 1..]);
      FilterSnoc(p, ys[..j], ys[j]);
    }
  }

  /** The first `cap` elements, or all if there are fewer. */
  function Take<T>(xs: seq<T>, cap: nat): seq<T> {
    if |xs| <= cap then xs else xs[..cap]
  }

  function Sum<T>(f: T -> nat, xs: seq<T>): nat {
    if xs == [] then 0 else f(xs[0]) + Sum(f, xs[1..])
  }

  lemma {:induction false} SumSnoc<T>(f: T -> nat, xs: seq<T>, x: T)
    ensures Sum(f, xs + [x]) == Sum(f, xs) + f(x)
  {
    if xs == [] {
    } else {
      assert (xs + [x])[1..] == xs[1..] + [x];
      SumSnoc(f, xs[1..], x);
    }
  }

  lemma {:induction false} SumZeroIff<T(!new)>(f: T -> nat, xs: seq<T>)
    ensures Sum(f, xs) == 0 <==> forall x :: x in xs ==> f(x) == 0
  {
    if xs == [] {
    } else {
      SumZeroIff(f, xs[1..]);
      assert forall x :: x in xs <==> x == xs[0] || x in xs[1..];
    }
  }

  /** The distinct elements, each at its first occurrence. */
  function Distinct<T(==)>(xs: seq<T>): seq<T> {
    if xs == [] then []
    else
      var init, last := Distinct(xs[..|xs| - 1]), xs[|xs| - 1];
      if last in init then init else init + [last]
  }

  lemma {:induction false} DistinctElements<T(!new)>(xs: seq<T>)
    ensures SameElements(Distinct(xs), xs) && NoDuplicates(Distinct(xs)) && |Distinct(xs)| <= |xs|
  {
    if xs == [] {
    } else {
      var init := xs[..|xs| - 1];
      DistinctElements(init);
      assert xs == init + [xs[|xs| - 1]];
    }
  }

  lemma {:induction false} DistinctSnoc<T>(xs: seq<T>, x: T)
    ensures Distinct(xs + [x]) == if x in Distinct(xs) then Distinct(xs) else Distinct(xs) + [x]
  {
    assert (xs + [x])[..|xs|] == xs;
  }

  lemma {:induction false} TakeOne<T>(all: set<T>, todo: set<T>, x: T)
    requires x in todo && todo <= all
    ensures all - (todo - {x}) == (all - todo) + {x}
  {
  }

  /** Ranging over a Go map: every value once, in an order nobody controls. */
  method RangeOver<K(!new), V(!new)>(m: map<K, V>) returns (values: seq<V>, ghost keys: seq<K>)
    ensures NoDuplicates(keys) && forall k :: k in keys <==> k in m
    ensures |values| == |keys| && forall i :: 0 <= i < |keys| ==> values[i] == m[keys[i]]
  {
    values, keys := [], [];
    var todo := m.Keys;
    while todo != {}
      invariant todo <= m.Keys
      invariant NoDuplicates(keys) && forall k :: k in keys <==> k in m && k !in todo
      invariant |values| == |keys| && forall i :: 0 <= i < |keys| ==> keys[i] in m && values[i] == m[keys[i]]
    {
      var key :| key in todo;
      todo := todo - {key};
      values, keys := values + [m[key]], keys + [key];
    }
  }
}
