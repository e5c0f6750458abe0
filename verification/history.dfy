/**
 The day-by-day history comparison: sessions are bucketed by date exactly as
 the main screen does, the date keys are sorted by their "yyyy-mm-dd"
 rewriting, each day gets one row computed from its whole bucket, the rows
 are averaged, and the comparison shows only when there are at least two
 days. Display rounding (`toFixed`, `Math.round`) is not modelled: rows carry
 the exact values.
 */
module History {
  import opened Model
  import opened Text
  import opened DateKeys
  import opened Statistics
  import opened Grouping

  /** Consecutive keys are in non-decreasing sort-key order. */
  predicate Ascending(ds: seq<string>)
  {
    forall i :: 0 <= i < |ds| - 1 ==> LexLe(SortKey(ds[i]), SortKey(ds[i + 1]))
  }

  /** Insert `d` before the first key it does not follow. */
  function InsertDate(d: string, ds: seq<string>): (r: seq<string>)
    requires Ascending(ds)
    ensures Ascending(r)
    ensures multiset(r) == multiset(ds) + multiset{d}
    ensures |r| == |ds| + 1
    ensures |ds| > 0 ==> r[0] == d || r[0] == ds[0]
  {
    if |ds| == 0 then [d]
    else if LexLe(SortKey(d), SortKey(ds[0])) then [d] + ds
    else
      LexTotal(SortKey(d), SortKey(ds[0]));
      var rest := InsertDate(d, ds[1..]);
      assert ds == [ds[0]] + ds[1..];
      [ds[0]] + rest
  }

  /** The date keys sorted ascending by sort key (a stable insertion sort,
      as the engine's sort is stable). */
  function SortDates(ds: seq<string>): (r: seq<string>)
    ensures Ascending(r)
    ensures multiset(r) == multiset(ds)
    ensures forall x :: x in r <==> x in ds
  {
    if |ds| == 0 then []
    else
      assert ds == [ds[0]] + ds[1..];
      var r := InsertDate(ds[0], SortDates(ds[1..]));
      assert forall x :: x in r <==> x in multiset(r);
      r
  }

  /** Ascending consecutive keys are ascending pairwise. */
  lemma {:induction false} AscendingPairwise(ds: seq<string>, i: nat, j: nat)
    requires Ascending(ds) && i <= j < |ds|
    ensures LexLe(SortKey(ds[i]), SortKey(ds[j]))
    decreases j - i
  {
    if i < j {
      AscendingPairwise(ds, i + 1, j);
      LexLeTransitive(SortKey(ds[i]), SortKey(ds[i + 1]), SortKey(ds[j]));
    }
  }

  /** One day of the comparison chart. */
  datatype DayRow = DayRow(
    date: string,        // "dd/mm"
    efficiency: real,    // percent
    castsPerHour: real,
    hookupRate: real,    // percent
    fishPerHour: real,
    originalDate: string)

  function Row(d: string, day: seq<Session>, now: int): DayRow
  {
    var stats := CalculateStats(day, now);
    DayRow(Label(d), stats.efficiency * 100.0, stats.castsPerHour,
           stats.hookupRate * 100.0, stats.fishPerHour, d)
  }

  function Rows(keys: seq<string>, bs: seq<Bucket>, now: int): (rows: seq<DayRow>)
    requires forall k :: k in keys ==> k in Keys(bs)
    ensures |rows| == |keys|
    ensures forall i :: 0 <= i < |keys| ==>
      rows[i] == Row(keys[i], Lookup(bs, keys[i]).value, now)
  {
    if |keys| == 0 then []
    else [Row(keys[0], Lookup(bs, keys[0]).value, now)] + Rows(keys[1..], bs, now)
  }

  /** `dataByDay`: the rows of the comparison, one per day, ascending. */
  function DataByDay(ss: seq<Session>, now: int): seq<DayRow>
  {
    var bs := GroupByDate(ss);
    Rows(SortDates(Keys(bs)), bs, now)
  }

  function OriginalDates(rows: seq<DayRow>): (ds: seq<string>)
    ensures |ds| == |rows|
    ensures forall i :: 0 <= i < |rows| ==> ds[i] == rows[i].originalDate
  {
    if |rows| == 0 then [] else [rows[0].originalDate] + OriginalDates(rows[1..])
  }

  /** The rows are keyed by the sorted bucket keys. */
  lemma RowKeys(ss: seq<Session>, now: int)
    ensures OriginalDates(DataByDay(ss, now)) == SortDates(Keys(GroupByDate(ss)))
  {
  }

  /** There is exactly one row per distinct date: row keys are repeat-free
      and are exactly the dates the sessions carry. */
  lemma OneRowPerDate(ss: seq<Session>, now: int)
    ensures var keys := OriginalDates(DataByDay(ss, now));
      && |keys| == |Distinct(Dates(ss))|
      && (forall i, j :: 0 <= i < j < |keys| ==> keys[i] != keys[j])
      && (forall d :: d in keys <==> d in Dates(ss))
  {
    var bs := GroupByDate(ss);
    var keys := OriginalDates(DataByDay(ss, now));
    RowKeys(ss, now);
    GroupByDateCharacterized(ss);
    BucketKeys(ss);
    assert Keys(bs) == Distinct(Dates(ss));
    assert |keys| == |Keys(bs)| by {
      assert |multiset(keys)| == |multiset(Keys(bs))|;
    }
    forall i, j | 0 <= i < j < |keys| ensures keys[i] != keys[j] {
      DistinctAfterPermutation(Keys(bs), keys, i, j);
    }
    forall d ensures d in keys <==> d in Dates(ss) {
      assert d in keys <==> d in multiset(keys);
      assert d in Keys(bs) <==> d in multiset(Keys(bs));
    }
  }

  /** Rows are in ascending sort-key order. */
  lemma RowsAscending(ss: seq<Session>, now: int)
    ensures var rows := DataByDay(ss, now);
      forall i, j :: 0 <= i <= j < |rows| ==>
        LexLe(SortKey(rows[i].originalDate), SortKey(rows[j].originalDate))
  {
    RowKeys(ss, now);
    var rows := DataByDay(ss, now);
    var keys := OriginalDates(rows);
    forall i, j | 0 <= i <= j < |rows|
      ensures LexLe(SortKey(rows[i].originalDate), SortKey(rows[j].originalDate))
    {
      AscendingPairwise(keys, i, j);
    }
  }

  /** Each row is labelled with its date's first two parts and computed on
      every session of that day. */
  lemma RowsComputedPerDay(ss: seq<Session>, now: int)
    ensures var rows := DataByDay(ss, now);
      forall i :: 0 <= i < |rows| ==>
        rows[i] == Row(rows[i].originalDate, SessionsOn(ss, rows[i].originalDate), now)
  {
    RowKeys(ss, now);
    var rows := DataByDay(ss, now);
    var keys := OriginalDates(rows);
    var bs := GroupByDate(ss);
    forall i | 0 <= i < |rows|
      ensures rows[i] == Row(rows[i].originalDate, SessionsOn(ss, rows[i].originalDate), now)
    {
      var k := keys[i];
      assert rows == Rows(SortDates(Keys(bs)), bs, now);
      assert rows[i] == Row(k, Lookup(bs, k).value, now);
      LookupGroup(ss, k);
      assert Lookup(bs, k).value == SessionsOn(ss, k);
    }
  }

  /** A permutation of a repeat-free sequence is repeat-free. */
  lemma DistinctAfterPermutation(a: seq<string>, b: seq<string>, i: nat, j: nat)
    requires forall x, y :: 0 <= x < y < |a| ==> a[x] != a[y]
    requires multiset(a) == multiset(b)
    requires i < j < |b|
    ensures b[i] != b[j]
  {
    UniqueCount(a, b[i]);
    if b[i] == b[j] {
      TwoOccurrences(b, i, j);
    }
  }

  lemma TwoOccurrences(b: seq<string>, i: nat, j: nat)
    requires i < j < |b| && b[i] == b[j]
    ensures multiset(b)[b[i]] >= 2
  {
    assert b == b[..i] + [b[i]] + b[i + 1..j] + [b[j]] + b[j + 1..];
  }

  lemma {:induction false} UniqueCount(a: seq<string>, m: string)
    requires forall x, y :: 0 <= x < y < |a| ==> a[x] != a[y]
    ensures multiset(a)[m] <= 1
  {
    if |a| > 0 {
      UniqueCount(a[1..], m);
      assert a == [a[0]] + a[1..];
      if a[0] == m {
        assert m !in a[1..];
      }
    }
  }

  /** The summary cards: per-column averages over the day rows. */
  datatype Averages = Averages(efficiency: real, castsPerHour: real, hookupRate: real, fishPerHour: real)

  /** The four numeric columns of the chart. */
  datatype Column = Efficiency | CastsPerHour | HookupRate | FishPerHour

  function Cell(row: DayRow, c: Column): real
  {
    match c
    case Efficiency => row.efficiency
    case CastsPerHour => row.castsPerHour
    case HookupRate => row.hookupRate
    case FishPerHour => row.fishPerHour
  }

  function AverageOf(a: Averages, c: Column): real
  {
    match c
    case Efficiency => a.efficiency
    case CastsPerHour => a.castsPerHour
    case HookupRate => a.hookupRate
    case FishPerHour => a.fishPerHour
  }

  function ColumnOf(rows: seq<DayRow>, c: Column): (xs: seq<real>)
    ensures |xs| == |rows|
    ensures forall i :: 0 <= i < |rows| ==> xs[i] == Cell(rows[i], c)
  {
    if |rows| == 0 then [] else [Cell(rows[0], c)] + ColumnOf(rows[1..], c)
  }

  function Sum(xs: seq<real>): real
  {
    if |xs| == 0 then 0.0 else Sum(xs[..|xs| - 1]) + xs[|xs| - 1]
  }

  function Mean(xs: seq<real>): real
    requires |xs| > 0
  {
    Sum(xs) / |xs| as real
  }

  /** `averages`: null exactly when there are no days, else the mean of each
      column over the days. */
  function ComputeAverages(rows: seq<DayRow>): (r: Option<Averages>)
    ensures r.None? <==> |rows| == 0
    ensures r.Some? ==> forall c :: AverageOf(r.value, c) == Mean(ColumnOf(rows, c))
  {
    if |rows| == 0 then None
    else Some(Averages(
      Mean(ColumnOf(rows, Efficiency)), Mean(ColumnOf(rows, CastsPerHour)),
      Mean(ColumnOf(rows, HookupRate)), Mean(ColumnOf(rows, FishPerHour))))
  }

  /** Each average lies within the range of its column: between the worst
      and the best day. */
  lemma AverageWithinDailyRange(rows: seq<DayRow>, c: Column, lo: real, hi: real)
    requires |rows| > 0
    requires forall i :: 0 <= i < |rows| ==> lo <= Cell(rows[i], c) <= hi
    ensures lo <= AverageOf(ComputeAverages(rows).value, c) <= hi
  {
    MeanWithinBounds(ColumnOf(rows, c), lo, hi);
  }

  /** Days that all agree on a column average to that common value. */
  lemma AverageOfEqualDays(rows: seq<DayRow>, c: Column, v: real)
    requires |rows| > 0
    requires forall i :: 0 <= i < |rows| ==> Cell(rows[i], c) == v
    ensures AverageOf(ComputeAverages(rows).value, c) == v
  {
    AverageWithinDailyRange(rows, c, v, v);
  }

  lemma {:induction false} SumBounds(xs: seq<real>, lo: real, hi: real)
    requires forall i :: 0 <= i < |xs| ==> lo <= xs[i] <= hi
    ensures |xs| as real * lo <= Sum(xs) <= |xs| as real * hi
  {
    if |xs| > 0 {
      SumBounds(xs[..|xs| - 1], lo, hi);
    }
  }

  /** An average lies between any bounds of the averaged values. */
  lemma MeanWithinBounds(xs: seq<real>, lo: real, hi: real)
    requires |xs| > 0
    requires forall i :: 0 <= i < |xs| ==> lo <= xs[i] <= hi
    ensures lo <= Mean(xs) <= hi
  {
    SumBounds(xs, lo, hi);
    var n := |xs| as real;
    DivideBounds(Sum(xs), n, lo, hi);
  }

  lemma DivideBounds(s: real, n: real, lo: real, hi: real)
    requires n > 0.0 && n * lo <= s <= n * hi
    ensures lo <= s / n <= hi
  {
    var q := s / n;
    assert q * n == s;
    assert (q - lo) * n >= 0.0;
    assert (hi - q) * n >= 0.0;
  }

  /** The comparison is rendered only when there are at least two days. */
  predicate ShowsComparison(ss: seq<Session>, now: int)
  {
    |DataByDay(ss, now)| >= 2
  }

  /** The comparison shows exactly when two sessions carry different dates. */
  lemma ShowsComparisonIffTwoDates(ss: seq<Session>, now: int)
    ensures ShowsComparison(ss, now) <==>
      exists k, l :: 0 <= k < |ss| && 0 <= l < |ss| && ss[k].date != ss[l].date
  {
    OneRowPerDate(ss, now);
    var keys := OriginalDates(DataByDay(ss, now));
    if |keys| >= 2 {
      assert keys[0] in Dates(ss) && keys[1] in Dates(ss);
      var k :| 0 <= k < |ss| && Dates(ss)[k] == keys[0];
      var l :| 0 <= l < |ss| && Dates(ss)[l] == keys[1];
      assert ss[k].date != ss[l].date;
    }
    if exists k, l :: 0 <= k < |ss| && 0 <= l < |ss| && ss[k].date != ss[l].date {
      var k, l :| 0 <= k < |ss| && 0 <= l < |ss| && ss[k].date != ss[l].date;
      assert Dates(ss)[k] in Dates(ss) && Dates(ss)[l] in Dates(ss);
      assert Dates(ss)[k] in keys && Dates(ss)[l] in keys;
      TwoDistinctElements(keys, Dates(ss)[k], Dates(ss)[l]);
    }
  }

  lemma TwoDistinctElements(xs: seq<string>, a: string, b: string)
    requires a in xs && b in xs && a != b
    ensures |xs| >= 2
  {
    var i :| 0 <= i < |xs| && xs[i] == a;
    var j :| 0 <= j < |xs| && xs[j] == b;
    assert i != j;
  }
}
