/** What a collection of signals adds up to: counts, time bounds and the
    row-weighted duration (internal/discovery/merger.go). */
module Counting {
  import opened Classifier
  import opened Clock
  import opened Sequences

  /** Go's zero time, 1 January of year 1. */
  const ZERO_TIME: Time := -62135596800 * 1_000_000

  function UnixToTime(unix: int): Time {
    if unix <= 0 then ZERO_TIME else unix * 1_000_000
  }

  /** Known times are whole seconds after the epoch; an unknown one is the first
      day of year 1, 719162 days before it, and earlier than all known ones. */
  lemma {:induction false} UnixToTimeExact(a: int, b: int)
    ensures UnixToTime(1) == 1_000_000
    ensures a > 0 && b > 0 ==> UnixToTime(b) - UnixToTime(a) == (b - a) * 1_000_000
    ensures a <= 0 ==> UnixToTime(a) == -719162 * 24 * 60 * 60 * 1_000_000
    ensures a <= 0 < b ==> UnixToTime(a) < UnixToTime(b)
  {
  }

  function Mean(weight: real, rows: nat): real {
    if rows == 0 then 0.0 else weight / rows as real
  }

  /** What a collection of signals of one key adds up to. */
  datatype Totals =
    | Empty
    | Totals(rows: nat, flows: nat, internal: nat, external: nat, weighted: real, first: Time, last: Time)
  {
    function Rows(): nat { if Empty? then 0 else rows }
    function Flows(): nat { if Empty? then 0 else flows }
    function Internal(): nat { if Empty? then 0 else internal }
    function External(): nat { if Empty? then 0 else external }
    function Weighted(): real { if Empty? then 0.0 else weighted }
    /** The row-weighted mean duration; 0 while there are no rows. */
    function Average(): real { Mean(Weighted(), Rows()) }
  }

  function Earlier(a: Time, b: Time): Time { if b < a then b else a }
  function Later(a: Time, b: Time): Time { if b > a then b else a }

  function Combine(a: Totals, b: Totals): Totals {
    if a.Empty? then b
    else if b.Empty? then a
    else Totals(a.rows + b.rows, a.flows + b.flows, a.internal + b.internal, a.external + b.external,
                a.weighted + b.weighted, Earlier(a.first, b.first), Later(a.last, b.last))
  }

  function TotalsOf(s: Signal): Totals {
    var internal := s.direction == Internal;
    Totals(s.raw.rowCount, 1,
           if internal then s.raw.rowCount else 0, if internal then 0 else s.raw.rowCount,
           s.raw.avgDurationUs * s.raw.rowCount as real,
           UnixToTime(s.raw.firstSeenUnix), UnixToTime(s.raw.lastSeenUnix))
  }

  function Total(signals: seq<Signal>): Totals {
    if signals == [] then Empty
    else Combine(Total(signals[..|signals| - 1]), TotalsOf(signals[|signals| - 1]))
  }

  lemma {:induction false} TotalSnoc(signals: seq<Signal>, s: Signal)
    ensures Total(signals + [s]) == Combine(Total(signals), TotalsOf(s))
  {
    assert (signals + [s])[..|signals|] == signals;
  }

  lemma {:induction false} CombineAssociative(p: Totals, q: Totals, x: Totals)
    ensures Combine(Combine(p, q), x) == Combine(p, Combine(q, x))
  {
  }

  lemma {:induction false} TotalConcat(a: seq<Signal>, b: seq<Signal>)
    ensures Total(a + b) == Combine(Total(a), Total(b))
  {
    if b == [] {
      assert a + b == a;
    } else {
      var k := |b| - 1;
      assert a + b == (a + b[..k]) + [b[k]];
      TotalSnoc(a + b[..k], b[k]);
      TotalConcat(a, b[..k]);
      assert b == b[..k] + [b[k]];
      TotalSnoc(b[..k], b[k]);
      CombineAssociative(Total(a), Total(b[..k]), TotalsOf(b[k]));
    }
  }

  lemma {:induction false} CombineSwap(p: Totals, q: Totals, x: Totals)
    ensures Combine(Combine(p, x), q) == Combine(Combine(p, q), x)
  {
  }

  lemma {:induction false} TotalPermutation(a: seq<Signal>, b: seq<Signal>)
    requires multiset(a) == multiset(b)
    ensures Total(a) == Total(b)
    decreases |a|
  {
    if a == [] {
      assert |b| == |multiset(b)| == 0;
    } else {
      var k := |a| - 1;
      var j := FindLast(a, b);
      var front, back := b[..j], b[j + 1..];
      TotalPermutation(a[..k], front + back);
      TotalConcat(front, back);
      TotalConcat(front + [b[j]], back);
      TotalSnoc(front, b[j]);
      CombineSwap(Total(front), Total(back), TotalsOf(b[j]));
    }
  }

  /** The totals mean what their names say: every signal is one flow, its rows
      are either internal or external, and no rows means no weight. */
  lemma {:induction false} CountsMeaning(signals: seq<Signal>)
    ensures var t := Total(signals);
            && (t.Empty? <==> signals == [])
            && t.Flows() == |signals|
            && t.Internal() + t.External() == t.Rows()
            && (t.Rows() == 0 ==> t.Weighted() == 0.0)
  {
    if signals == [] {
    } else {
      CountsMeaning(signals[..|signals| - 1]);
    }
  }

  function RowsIn(s: Signal): nat { s.raw.rowCount }
  function InternalRowsIn(s: Signal): nat { if s.direction == Internal then s.raw.rowCount else 0 }
  function ExternalRowsIn(s: Signal): nat { if s.direction == External then s.raw.rowCount else 0 }
  function DurationIn(s: Signal): real { s.raw.avgDurationUs * s.raw.rowCount as real }

  function SumReal(f: Signal -> real, signals: seq<Signal>): real {
    if signals == [] then 0.0 else SumReal(f, signals[..|signals| - 1]) + f(signals[|signals| - 1])
  }

  lemma {:induction false} RowsAreSum(signals: seq<Signal>)
    ensures Total(signals).Rows() == Sum(RowsIn, signals)
  {
    if signals == [] {
    } else {
      var init, last := signals[..|signals| - 1], signals[|signals| - 1];
      RowsAreSum(init);
      assert signals == init + [last];
      SumSnoc(RowsIn, init, last);
    }
  }

  lemma {:induction false} InternalIsSum(signals: seq<Signal>)
    ensures Total(signals).Internal() == Sum(InternalRowsIn, signals)
  {
    if signals == [] {
    } else {
      var init, last := signals[..|signals| - 1], signals[|signals| - 1];
      InternalIsSum(init);
      assert signals == init + [last];
      SumSnoc(InternalRowsIn, init, last);
    }
  }

  lemma {:induction false} ExternalIsSum(signals: seq<Signal>)
    ensures Total(signals).External() == Sum(ExternalRowsIn, signals)
  {
    if signals == [] {
    } else {
      var init, last := signals[..|signals| - 1], signals[|signals| - 1];
      ExternalIsSum(init);
      assert signals == init + [last];
      SumSnoc(ExternalRowsIn, init, last);
    }
  }

  lemma {:induction false} WeightIsSum(signals: seq<Signal>)
    ensures Total(signals).Weighted() == SumReal(DurationIn, signals)
  {
    if signals == [] {
    } else {
      WeightIsSum(signals[..|signals| - 1]);
    }
  }

  /** The folded totals are the plain sums over the signals. */
  lemma {:induction false} TotalsAreSums(signals: seq<Signal>)
    ensures var t := Total(signals);
            && t.Rows() == Sum(RowsIn, signals)
            && t.Internal() == Sum(InternalRowsIn, signals) && t.External() == Sum(ExternalRowsIn, signals)
            && t.Weighted() == SumReal(DurationIn, signals)
  {
    RowsAreSum(signals);
    InternalIsSum(signals);
    ExternalIsSum(signals);
    WeightIsSum(signals);
  }

  lemma {:induction false} AverageTimesRows(t: Totals)
    requires t.Rows() == 0 ==> t.Weighted() == 0.0
    ensures t.Average() * t.Rows() as real == t.Weighted()
  {
  }

  /** The times are attained bounds over all signals. */
  lemma {:induction false} TimesMeaning(signals: seq<Signal>)
    requires signals != []
    ensures var t := Total(signals);
            && !t.Empty?
            && (forall i :: 0 <= i < |signals| ==>
                  && t.first <= UnixToTime(signals[i].raw.firstSeenUnix)
                  && UnixToTime(signals[i].raw.lastSeenUnix) <= t.last)
            && (exists i :: 0 <= i < |signals| && t.first == UnixToTime(signals[i].raw.firstSeenUnix))
            && (exists i :: 0 <= i < |signals| && t.last == UnixToTime(signals[i].raw.lastSeenUnix))
  {
    var k := |signals| - 1;
    var init, t := signals[..k], Total(signals);
    assert t.first <= UnixToTime(signals[k].raw.firstSeenUnix);
    if k == 0 {
      assert t.first == UnixToTime(signals[0].raw.firstSeenUnix) && t.last == UnixToTime(signals[0].raw.lastSeenUnix);
    } else {
      TimesMeaning(init);
      var i :| 0 <= i < |init| && Total(init).first == UnixToTime(init[i].raw.firstSeenUnix);
      var j :| 0 <= j < |init| && Total(init).last == UnixToTime(init[j].raw.lastSeenUnix);
      assert signals[i] == init[i] && signals[j] == init[j];
      assert t.first == UnixToTime(signals[i].raw.firstSeenUnix) || t.first == UnixToTime(signals[k].raw.firstSeenUnix);
      assert t.last == UnixToTime(signals[j].raw.lastSeenUnix) || t.last == UnixToTime(signals[k].raw.lastSeenUnix);
    }
  }
}
