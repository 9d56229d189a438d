/**
 The `avg` column of the transposed monthly table (compile_data.py, lines
 71-74): every row of the monthly table averaged over the months, with the
 percentage rows averaged over the months that have them.
 */
module Averages {
  import opened Results
  import opened Tariff
  import opened SortedKeys
  import opened Grouping
  import opened Aggregate

  /** The `avg` column. `days` is a mean, so it is no longer whole. */
  datatype Average = Average(columns: Columns, days: real, shares: Option<Shares>)

  function MonthColumns(m: MonthTotal): Columns {
    m.columns
  }

  function Scale(c: Columns, k: real): Columns {
    Columns(k * c.usage, k * c.usageCharge, k * c.dailyCharge, k * c.totalCharge,
            k * c.weekendKWh, k * c.nightKWh, k * c.weekdayKWh)
  }

  function ScaleShares(s: Shares, k: real): Shares {
    Shares(k * s.night, k * s.weekend, k * s.weekday, k * s.offPeak)
  }

  function AddShares(a: Shares, b: Shares): Shares {
    Shares(a.night + b.night, a.weekend + b.weekend, a.weekday + b.weekday, a.offPeak + b.offPeak)
  }

  const NoShares := Shares(0.0, 0.0, 0.0, 0.0)

  /** The total of the `days` row. */
  function DaysSum(ms: seq<MonthTotal>): nat {
    if |ms| == 0 then 0 else ms[0].days + DaysSum(ms[1..])
  }

  /** How many months have percentages (a non-zero usage). */
  function SharesCount(ms: seq<MonthTotal>): nat {
    if |ms| == 0 then 0 else (if ms[0].shares.Some? then 1 else 0) + SharesCount(ms[1..])
  }

  /** The totals of the percentage rows over the months that have them. */
  function SharesSum(ms: seq<MonthTotal>): Shares {
    if |ms| == 0 then NoShares
    else AddShares(if ms[0].shares.Some? then ms[0].shares.value else NoShares, SharesSum(ms[1..]))
  }

  lemma Unscale(x: real, n: real)
    requires n != 0.0
    ensures n * (1.0 / n * x) == x
  {
  }

  /** Scaling by `1 / n` is undone by scaling by `n`. */
  lemma ScaleBack(c: Columns, n: real)
    requires n != 0.0
    ensures Scale(Scale(c, 1.0 / n), n) == c
  {
    Unscale(c.usage, n); Unscale(c.usageCharge, n); Unscale(c.dailyCharge, n);
    Unscale(c.totalCharge, n); Unscale(c.weekendKWh, n); Unscale(c.nightKWh, n);
    Unscale(c.weekdayKWh, n);
  }

  lemma ScaleSharesBack(s: Shares, n: real)
    requires n != 0.0
    ensures ScaleShares(ScaleShares(s, 1.0 / n), n) == s
  {
    Unscale(s.night, n); Unscale(s.weekend, n); Unscale(s.weekday, n); Unscale(s.offPeak, n);
  }

  /** The mean of the percentage rows over the months that have them. */
  function SharesMean(ms: seq<MonthTotal>): (m: Option<Shares>)
    ensures m.Some? <==> SharesCount(ms) > 0
    ensures m.Some? ==> ScaleShares(m.value, SharesCount(ms) as real) == SharesSum(ms)
  {
    var k := SharesCount(ms);
    if k == 0 then None
    else
      ScaleSharesBack(SharesSum(ms), k as real);
      Some(ScaleShares(SharesSum(ms), 1.0 / k as real))
  }

  /** `mean(axis=1)` over the months, skipping the missing percentages; there
      is no mean of no months. */
  function Mean(ms: seq<MonthTotal>): (a: Option<Average>)
    ensures a.Some? <==> |ms| > 0
    ensures a.Some? ==> Scale(a.value.columns, |ms| as real) == Total(ms, MonthColumns)
    ensures a.Some? ==> a.value.days * |ms| as real == DaysSum(ms) as real
    ensures a.Some? ==> a.value.shares == SharesMean(ms)
  {
    if |ms| == 0 then None
    else
      var n := |ms| as real;
      var c := Total(ms, MonthColumns);
      ScaleBack(c, n);
      Some(Average(Scale(c, 1.0 / n), DaysSum(ms) as real / n, SharesMean(ms)))
  }

  // ---------------------------------------------------------------------
  // The mean keeps the relations every month satisfies.

  /** Scaling keeps the relations between the columns. */
  lemma ScaleConsistent(c: Columns, k: real)
    requires Consistent(c)
    ensures Consistent(Scale(c, k))
  {
    assert k * c.nightKWh + k * c.weekendKWh + k * c.weekdayKWh == k * (c.nightKWh + c.weekendKWh + c.weekdayKWh);
    assert k * c.usageCharge == OffPeakRate * (k * c.nightKWh + k * c.weekendKWh) + PeakRate * (k * c.weekdayKWh);
  }

  /** The percentages of a month: the periods make up the whole usage and
      off-peak is night plus weekend. */
  predicate SharesAddUp(s: Shares) {
    && s.night + s.weekend + s.weekday == 100.0
    && s.offPeak == s.night + s.weekend
  }

  /** Summed over the months that have percentages, the periods make up
      100 per month. */
  lemma {:induction false} SharesSumAddsUp(ms: seq<MonthTotal>)
    requires forall i :: 0 <= i < |ms| && ms[i].shares.Some? ==> SharesAddUp(ms[i].shares.value)
    ensures SharesSum(ms).night + SharesSum(ms).weekend + SharesSum(ms).weekday == 100.0 * SharesCount(ms) as real
    ensures SharesSum(ms).offPeak == SharesSum(ms).night + SharesSum(ms).weekend
  {
    if |ms| > 0 {
      assert forall i :: 0 <= i < |ms[1..]| ==> ms[1..][i] == ms[i + 1];
      SharesSumAddsUp(ms[1..]);
    }
  }

  /** Summed over the months that have percentages, each percentage row
      stays between 0 and 100 per month. */
  lemma {:induction false} SharesSumInRange(ms: seq<MonthTotal>)
    requires forall i :: 0 <= i < |ms| && ms[i].shares.Some? ==> SharesInRange(ms[i].shares.value)
    ensures var s, k := SharesSum(ms), SharesCount(ms) as real;
            && 0.0 <= s.night <= 100.0 * k && 0.0 <= s.weekend <= 100.0 * k
            && 0.0 <= s.weekday <= 100.0 * k && 0.0 <= s.offPeak <= 100.0 * k
  {
    if |ms| > 0 {
      assert forall i :: 0 <= i < |ms[1..]| ==> ms[1..][i] == ms[i + 1];
      SharesSumInRange(ms[1..]);
    }
  }

  /** Dividing totals over `k` months by `k` keeps the relations. */
  lemma DivideAddUp(m: Shares, k: real)
    requires k > 0.0
    requires var t := ScaleShares(m, k);
             t.night + t.weekend + t.weekday == 100.0 * k && t.offPeak == t.night + t.weekend
    ensures SharesAddUp(m)
  {
    Distribute(k, m.night, m.weekend);
    Distribute(k, m.night + m.weekend, m.weekday);
    Cancel(k, m.night + m.weekend + m.weekday, 100.0);
    Cancel(k, m.offPeak, m.night + m.weekend);
  }

  lemma Distribute(k: real, x: real, y: real)
    ensures k * x + k * y == k * (x + y)
  {
  }

  lemma Cancel(k: real, x: real, y: real)
    requires k != 0.0 && k * x == k * y
    ensures x == y
  {
    assert k * (x - y) == 0.0;
  }

  lemma WithinBound(k: real, x: real)
    requires k > 0.0 && 0.0 <= k * x <= 100.0 * k
    ensures 0.0 <= x <= 100.0
  {
    assert k * (100.0 - x) >= 0.0;
  }

  /** The mean percentages add up like each month's do. */
  lemma MeanSharesAddUp(ms: seq<MonthTotal>)
    requires forall i :: 0 <= i < |ms| && ms[i].shares.Some? ==> SharesAddUp(ms[i].shares.value)
    ensures SharesMean(ms).Some? ==> SharesAddUp(SharesMean(ms).value)
  {
    if SharesMean(ms).Some? {
      SharesSumAddsUp(ms);
      DivideAddUp(SharesMean(ms).value, SharesCount(ms) as real);
    }
  }

  /** The mean percentages stay between 0 and 100 when each month's do. */
  lemma MeanSharesInRange(ms: seq<MonthTotal>)
    requires forall i :: 0 <= i < |ms| && ms[i].shares.Some? ==> SharesInRange(ms[i].shares.value)
    ensures SharesMean(ms).Some? ==> SharesInRange(SharesMean(ms).value)
  {
    if SharesMean(ms).Some? {
      SharesSumInRange(ms);
      DivideInRange(SharesMean(ms).value, SharesCount(ms) as real);
    }
  }

  /** Dividing totals over `k` months by `k` brings them back into range. */
  lemma DivideInRange(m: Shares, k: real)
    requires k > 0.0
    requires var t := ScaleShares(m, k);
             && 0.0 <= t.night <= 100.0 * k && 0.0 <= t.weekend <= 100.0 * k
             && 0.0 <= t.weekday <= 100.0 * k && 0.0 <= t.offPeak <= 100.0 * k
    ensures SharesInRange(m)
  {
    WithinBound(k, m.night);
    WithinBound(k, m.weekend);
    WithinBound(k, m.weekday);
    WithinBound(k, m.offPeak);
  }

  // ---------------------------------------------------------------------
  // The average column agrees with the hourly rows.

  lemma {:induction false} TotalMonthEntries(daily: seq<DayTotal>, ms: seq<MonthKey>)
    ensures Total(MonthEntries(daily, ms), MonthColumns) == TotalByKey(daily, EntryColumns, EntryMonth, ms)
  {
    if |ms| > 0 {
      assert MonthEntries(daily, ms)[1..] == MonthEntries(daily, ms[1..]);
      TotalMonthEntries(daily, ms[1..]);
    }
  }

  lemma {:induction false} DaysSumMonthEntries(daily: seq<DayTotal>, ms: seq<MonthKey>)
    ensures DaysSum(MonthEntries(daily, ms)) == CountByKey(daily, EntryMonth, ms)
  {
    if |ms| > 0 {
      assert MonthEntries(daily, ms)[1..] == MonthEntries(daily, ms[1..]);
      DaysSumMonthEntries(daily, ms[1..]);
    }
  }

  /** The months of the monthly table are distinct and cover every daily row. */
  lemma MonthKeysCover(daily: seq<DayTotal>)
    ensures NoDuplicates(MonthKeys(daily))
    ensures forall i :: 0 <= i < |daily| ==> EntryMonth(daily[i]) in MonthKeys(daily)
  {
    MonthOrder();
    KeysAscending(daily, EntryMonth, MonthBefore);
    AscendingNoDuplicates(MonthKeys(daily), MonthBefore);
  }

  /** The monthly rows add up to the daily rows, and those to the hourly rows. */
  lemma MonthlyTableTotal(rs: seq<Reading>)
    ensures Total(MonthlyTable(DailyTable(rs)), MonthColumns) == Total(rs, Rated)
  {
    var daily, ks := DailyTable(rs), DayKeys(rs);
    var ms := MonthKeys(daily);
    TotalMonthEntries(daily, ms);
    MonthKeysCover(daily);
    TotalByDistinctKeys(daily, EntryColumns, EntryMonth, ms);
    TotalDayEntries(rs, ks);
    DayOrder();
    KeysAscending(rs, DayOf, DayBefore);
    AscendingNoDuplicates(ks, DayBefore);
    TotalByDistinctKeys(rs, Rated, DayOf, ks);
  }

  /** The `days` row adds up to the number of daily rows. */
  lemma MonthlyTableDays(rs: seq<Reading>)
    ensures DaysSum(MonthlyTable(DailyTable(rs))) == |DailyTable(rs)|
  {
    var daily := DailyTable(rs);
    DaysSumMonthEntries(daily, MonthKeys(daily));
    MonthKeysCover(daily);
    CountByDistinctKeys(daily, EntryMonth, MonthKeys(daily));
  }

  /** Readings give a non-empty monthly table. */
  lemma MonthlyTableNonEmpty(rs: seq<Reading>)
    requires |rs| > 0
    ensures |MonthlyTable(DailyTable(rs))| > 0
  {
    assert DayOf(rs[0]) in DayKeys(rs);
    var daily := DailyTable(rs);
    assert EntryMonth(daily[0]) in MonthKeys(daily);
  }

  /** The average column times the number of months gives back the totals of
      all readings and the number of days with readings; the averaged columns
      keep the relations of the hourly rows. */
  lemma AverageFromRows(rs: seq<Reading>)
    requires |rs| > 0
    ensures Mean(MonthlyTable(DailyTable(rs))).Some?
    ensures var n := |MonthlyTable(DailyTable(rs))| as real;
            Scale(Mean(MonthlyTable(DailyTable(rs))).value.columns, n) == Total(rs, Rated)
    ensures Mean(MonthlyTable(DailyTable(rs))).value.days * |MonthlyTable(DailyTable(rs))| as real
              == |DailyTable(rs)| as real
    ensures Consistent(Mean(MonthlyTable(DailyTable(rs))).value.columns)
  {
    var t := MonthlyTable(DailyTable(rs));
    MonthlyTableNonEmpty(rs);
    MonthlyTableTotal(rs);
    MonthlyTableDays(rs);
    RatedRowsConsistent(rs);
    ScaleConsistent(Total(t, MonthColumns), 1.0 / |t| as real);
    MeanDays(t, |DailyTable(rs)|);
  }

  /** Months of at least one day each number no more than their days. */
  lemma {:induction false} MonthsAtMostDays(ms: seq<MonthTotal>)
    requires forall i :: 0 <= i < |ms| ==> ms[i].days >= 1
    ensures |ms| <= DaysSum(ms)
  {
    if |ms| > 0 {
      MonthsAtMostDays(ms[1..]);
    }
  }

  lemma MeanDays(ms: seq<MonthTotal>, d: nat)
    requires |ms| > 0 && DaysSum(ms) == d
    ensures Mean(ms).value.days * |ms| as real == d as real
  {
  }

  /** The percentages of each monthly row add up, and lie between 0 and 100
      when no reading is negative. */
  lemma MonthlyTableShares(rs: seq<Reading>)
    ensures forall i :: 0 <= i < |MonthlyTable(DailyTable(rs))| && MonthlyTable(DailyTable(rs))[i].shares.Some? ==>
              SharesAddUp(MonthlyTable(DailyTable(rs))[i].shares.value)
    ensures (forall r :: r in rs ==> r.usage >= 0.0) ==>
              forall i :: 0 <= i < |MonthlyTable(DailyTable(rs))| && MonthlyTable(DailyTable(rs))[i].shares.Some? ==>
                SharesInRange(MonthlyTable(DailyTable(rs))[i].shares.value)
  {
    var t := MonthlyTable(DailyTable(rs));
    MonthlyTableRows(rs);
    forall i | 0 <= i < |t| && t[i].shares.Some?
      ensures SharesAddUp(t[i].shares.value)
      ensures (forall r :: r in rs ==> r.usage >= 0.0) ==> SharesInRange(t[i].shares.value)
    {
      if forall r :: r in rs ==> r.usage >= 0.0 {
        var group := Pick(rs, MonthOf, t[i].key);
        PickMembers(rs, MonthOf, t[i].key);
        forall j | 0 <= j < |group|
          ensures NonNegative(Rated(group[j]))
        {
          assert group[j] in group;
        }
        TotalNonNegative(group, Rated);
      }
    }
  }

  /** The average percentages add up, and lie between 0 and 100 when no
      reading is negative. */
  lemma AverageShares(rs: seq<Reading>)
    requires SharesMean(MonthlyTable(DailyTable(rs))).Some?
    ensures SharesAddUp(SharesMean(MonthlyTable(DailyTable(rs))).value)
    ensures (forall r :: r in rs ==> r.usage >= 0.0) ==>
              SharesInRange(SharesMean(MonthlyTable(DailyTable(rs))).value)
  {
    var t := MonthlyTable(DailyTable(rs));
    MonthlyTableShares(rs);
    MeanSharesAddUp(t);
    if forall r :: r in rs ==> r.usage >= 0.0 {
      MeanSharesInRange(t);
    }
  }
}
