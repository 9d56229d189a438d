/**
 The daily and monthly tables with the monthly percentages
 (compile_data.py, lines 61-70).
 */
module Aggregate {
  import opened Results
  import opened Tariff
  import opened SortedKeys
  import opened Grouping

  datatype DayKey = DayKey(year: int, month: nat, day: nat)
  datatype MonthKey = MonthKey(year: int, month: nat)

  function DayOf(r: Reading): DayKey {
    DayKey(r.year, r.month, r.day)
  }

  function MonthOfDay(d: DayKey): MonthKey {
    MonthKey(d.year, d.month)
  }

  function MonthOf(r: Reading): MonthKey {
    MonthOfDay(DayOf(r))
  }

  /** Lexicographic order on (year, month, day): the order of the daily index. */
  predicate DayBefore(a: DayKey, b: DayKey) {
    || a.year < b.year
    || (a.year == b.year && a.month < b.month)
    || (a.year == b.year && a.month == b.month && a.day < b.day)
  }

  /** Lexicographic order on (year, month): the order of the monthly index. */
  predicate MonthBefore(a: MonthKey, b: MonthKey) {
    a.year < b.year || (a.year == b.year && a.month < b.month)
  }

  lemma DayOrder()
    ensures StrictOrder(DayBefore)
  {
  }

  lemma MonthOrder()
    ensures StrictOrder(MonthBefore)
  {
  }

  // ---------------------------------------------------------------------
  // Daily table: `pivot_table(cols, ['year', 'month', 'day'], aggfunc='sum')`.

  /** One row of the daily table. */
  datatype DayTotal = DayTotal(key: DayKey, columns: Columns)

  /** The distinct days with readings, ascending. */
  function DayKeys(rs: seq<Reading>): seq<DayKey> {
    Keys(rs, DayOf, DayBefore)
  }

  function DayEntry(rs: seq<Reading>, k: DayKey): DayTotal {
    DayTotal(k, Total(Pick(rs, DayOf, k), Rated))
  }

  function DayEntries(rs: seq<Reading>, ks: seq<DayKey>): seq<DayTotal> {
    seq(|ks|, i requires 0 <= i < |ks| => DayEntry(rs, ks[i]))
  }

  /** The daily table: one row per day, in ascending day order. */
  function DailyTable(rs: seq<Reading>): (t: seq<DayTotal>)
    ensures forall i, j :: 0 <= i < j < |t| ==> DayBefore(t[i].key, t[j].key)
  {
    DayOrder();
    KeysAscending(rs, DayOf, DayBefore);
    DayEntries(rs, DayKeys(rs))
  }

  /** The daily table has a row for exactly the days that have readings. */
  lemma DailyTableDays(rs: seq<Reading>)
    ensures forall r :: r in rs ==> exists i :: 0 <= i < |DailyTable(rs)| && DailyTable(rs)[i].key == DayOf(r)
    ensures forall i :: 0 <= i < |DailyTable(rs)| ==> exists r :: r in rs && DayOf(r) == DailyTable(rs)[i].key
  {
    var ks, t := DayKeys(rs), DailyTable(rs);
    forall r | r in rs
      ensures exists i :: 0 <= i < |t| && t[i].key == DayOf(r)
    {
      var j :| 0 <= j < |rs| && rs[j] == r;
      assert DayOf(rs[j]) in ks;
      var i :| 0 <= i < |ks| && ks[i] == DayOf(r);
      assert t[i].key == ks[i];
    }
    forall i | 0 <= i < |t|
      ensures exists r :: r in rs && DayOf(r) == t[i].key
    {
      assert ks[i] in ks;
      var j :| 0 <= j < |rs| && DayOf(rs[j]) == ks[i];
      assert rs[j] in rs;
    }
  }

  /** Each row of the daily table sums exactly that day's readings, and keeps
      the relations every hourly row satisfies. */
  lemma DailyTableColumns(rs: seq<Reading>)
    ensures forall i :: 0 <= i < |DailyTable(rs)| ==>
              DailyTable(rs)[i].columns == Total(Pick(rs, DayOf, DailyTable(rs)[i].key), Rated)
    ensures forall i :: 0 <= i < |DailyTable(rs)| ==> Consistent(DailyTable(rs)[i].columns)
  {
    var t := DailyTable(rs);
    forall i | 0 <= i < |t|
      ensures t[i].columns == Total(Pick(rs, DayOf, t[i].key), Rated)
      ensures Consistent(t[i].columns)
    {
      assert t[i] == DayEntry(rs, DayKeys(rs)[i]);
      RatedRowsConsistent(Pick(rs, DayOf, t[i].key));
    }
  }

  lemma RatedRowsConsistent(rs: seq<Reading>)
    ensures Consistent(Total(rs, Rated))
  {
    TotalConsistent(rs, Rated);
  }

  /** Every hourly row carries an equal 1/24 share of the daily fixed charge. */
  lemma {:induction false} FixedChargeOfRows(rs: seq<Reading>)
    ensures Total(rs, Rated).dailyCharge == |rs| as real * HourlyFixedCharge
  {
    EqualShares(rs, Rated, HourlyFixedCharge);
  }

  /** Summing `n` rows that each carry fixed charge `h` gives `n * h`. */
  lemma {:induction false} EqualShares<T>(xs: seq<T>, col: T -> Columns, h: real)
    requires forall i :: 0 <= i < |xs| ==> col(xs[i]).dailyCharge == h
    ensures Total(xs, col).dailyCharge == |xs| as real * h
  {
    if |xs| > 0 {
      assert forall i :: 0 <= i < |xs[1..]| ==> xs[1..][i] == xs[i + 1];
      EqualShares(xs[1..], col, h);
      assert (|xs[1..]| + 1) as real * h == h + |xs[1..]| as real * h;
    }
  }

  /** A day accrues exactly the daily fixed charge exactly when it has 24
      hourly readings. */
  lemma FullDayFixedCharge(rs: seq<Reading>, k: DayKey)
    ensures DayEntry(rs, k).columns.dailyCharge == DailyFixedCharge <==> |Pick(rs, DayOf, k)| == HoursPerDay
  {
    FixedChargeOfRows(Pick(rs, DayOf, k));
  }

  // ---------------------------------------------------------------------
  // Monthly table: `daily_totals.groupby(['year', 'month']).sum()`, its
  // `size()` as `days`, and the percentage columns.

  /** The monthly percentage columns. */
  datatype Shares = Shares(night: real, weekend: real, weekday: real, offPeak: real)

  /** One row of the monthly table; `shares` is absent where the source
      divides by a zero usage. */
  datatype MonthTotal = MonthTotal(key: MonthKey, columns: Columns, days: nat, shares: Option<Shares>)

  predicate SharesInRange(s: Shares) {
    && 0.0 <= s.night <= 100.0
    && 0.0 <= s.weekend <= 100.0
    && 0.0 <= s.weekday <= 100.0
    && 0.0 <= s.offPeak <= 100.0
  }

  /** `100 * <period kWh> / usage_kWh` for each period and for off-peak. */
  function Percentages(c: Columns): (p: Option<Shares>)
    ensures p.Some? <==> c.usage != 0.0
    ensures p.Some? ==> && p.value.night * c.usage == 100.0 * c.nightKWh
                        && p.value.weekend * c.usage == 100.0 * c.weekendKWh
                        && p.value.weekday * c.usage == 100.0 * c.weekdayKWh
    ensures p.Some? ==> p.value.offPeak == p.value.night + p.value.weekend
    ensures p.Some? && Consistent(c) ==> p.value.night + p.value.weekend + p.value.weekday == 100.0
    ensures p.Some? && Consistent(c) && NonNegative(c) ==> SharesInRange(p.value)
  {
    if c.usage == 0.0 then None
    else
      var u := c.usage;
      var s := Shares(100.0 * c.nightKWh / u, 100.0 * c.weekendKWh / u,
                      100.0 * c.weekdayKWh / u, 100.0 * (c.nightKWh + c.weekendKWh) / u);
      ShareFacts(c.nightKWh, u);
      ShareFacts(c.weekendKWh, u);
      ShareFacts(c.weekdayKWh, u);
      ShareFacts(c.nightKWh + c.weekendKWh, u);
      ShareSums(c.nightKWh, c.weekendKWh, c.weekdayKWh, u);
      Some(s)
  }

  lemma ShareFacts(x: real, u: real)
    requires u != 0.0
    ensures (100.0 * x / u) * u == 100.0 * x
    ensures 0.0 <= x <= u ==> 0.0 <= 100.0 * x / u <= 100.0
  {
  }

  lemma ShareSums(n: real, w: real, d: real, u: real)
    requires u != 0.0
    ensures 100.0 * (n + w) / u == 100.0 * n / u + 100.0 * w / u
    ensures n + w + d == u ==> 100.0 * n / u + 100.0 * w / u + 100.0 * d / u == 100.0
  {
    var q := 1.0 / u;
    assert 100.0 * (n + w) / u == 100.0 * (n + w) * q;
    assert 100.0 * n / u + 100.0 * w / u == 100.0 * n * q + 100.0 * w * q;
    if n + w + d == u {
      assert 100.0 * n / u + 100.0 * w / u + 100.0 * d / u == 100.0 * (n + w + d) * q;
    }
  }

  function EntryMonth(d: DayTotal): MonthKey {
    MonthOfDay(d.key)
  }

  function EntryColumns(d: DayTotal): Columns {
    d.columns
  }

  /** The monthly row of `mk`: the sum of its daily rows, their count, and
      the percentages of that sum. */
  function MonthEntry(daily: seq<DayTotal>, mk: MonthKey): (m: MonthTotal)
    ensures m.key == mk
    ensures m.days == 0 <==> forall i :: 0 <= i < |daily| ==> EntryMonth(daily[i]) != mk
    ensures m.days == 0 ==> m.columns == Zero
    ensures m.shares.Some? <==> m.columns.usage != 0.0
    ensures m.shares.Some? ==> m.shares.value.offPeak == m.shares.value.night + m.shares.value.weekend
    ensures (forall i :: 0 <= i < |daily| ==> Consistent(daily[i].columns)) && m.shares.Some? ==>
              m.shares.value.night + m.shares.value.weekend + m.shares.value.weekday == 100.0
  {
    var group := Pick(daily, EntryMonth, mk);
    var c := Total(group, EntryColumns);
    GroupEmpty(daily, mk);
    GroupConsistent(daily, mk);
    MonthTotal(mk, c, |group|, Percentages(c))
  }

  lemma GroupEmpty(daily: seq<DayTotal>, mk: MonthKey)
    ensures |Pick(daily, EntryMonth, mk)| == 0 <==> forall i :: 0 <= i < |daily| ==> EntryMonth(daily[i]) != mk
  {
    var group := Pick(daily, EntryMonth, mk);
    PickMembers(daily, EntryMonth, mk);
    if |group| > 0 {
      assert group[0] in group;
    } else {
      assert forall i :: 0 <= i < |daily| ==> daily[i] !in group;
    }
  }

  lemma GroupConsistent(daily: seq<DayTotal>, mk: MonthKey)
    ensures (forall i :: 0 <= i < |daily| ==> Consistent(daily[i].columns)) ==>
              Consistent(Total(Pick(daily, EntryMonth, mk), EntryColumns))
  {
    if forall i :: 0 <= i < |daily| ==> Consistent(daily[i].columns) {
      var group := Pick(daily, EntryMonth, mk);
      PickMembers(daily, EntryMonth, mk);
      forall i | 0 <= i < |group| ensures Consistent(EntryColumns(group[i])) {
        assert group[i] in group;
      }
      TotalConsistent(group, EntryColumns);
    }
  }

  /** The distinct months of the daily rows, ascending. */
  function MonthKeys(daily: seq<DayTotal>): seq<MonthKey> {
    Keys(daily, EntryMonth, MonthBefore)
  }

  function MonthEntries(daily: seq<DayTotal>, ms: seq<MonthKey>): seq<MonthTotal> {
    seq(|ms|, i requires 0 <= i < |ms| => MonthEntry(daily, ms[i]))
  }

  /** The monthly table: one row per month, in ascending month order. */
  function MonthlyTable(daily: seq<DayTotal>): (t: seq<MonthTotal>)
    ensures forall i, j :: 0 <= i < j < |t| ==> MonthBefore(t[i].key, t[j].key)
  {
    MonthOrder();
    KeysAscending(daily, EntryMonth, MonthBefore);
    MonthEntries(daily, MonthKeys(daily))
  }

  // ---------------------------------------------------------------------
  // The monthly table agrees with the hourly rows.

  lemma DayEntriesCons(rs: seq<Reading>, ks: seq<DayKey>)
    requires |ks| > 0
    ensures DayEntries(rs, ks) == [DayEntry(rs, ks[0])] + DayEntries(rs, ks[1..])
  {
  }

  lemma DayEntriesAppend(rs: seq<Reading>, a: seq<DayKey>, b: seq<DayKey>)
    ensures DayEntries(rs, a + b) == DayEntries(rs, a) + DayEntries(rs, b)
  {
  }

  /** Grouping the daily rows by month picks the rows of that month's days. */
  lemma {:induction false} PickDayEntries(rs: seq<Reading>, ks: seq<DayKey>, mk: MonthKey)
    ensures Pick(DayEntries(rs, ks), EntryMonth, mk) == DayEntries(rs, Pick(ks, MonthOfDay, mk))
  {
    if |ks| > 0 {
      var head: seq<DayKey> := if MonthOfDay(ks[0]) == mk then [ks[0]] else [];
      DayEntriesCons(rs, ks);
      assert DayEntries(rs, ks)[1..] == DayEntries(rs, ks[1..]);
      PickDayEntries(rs, ks[1..], mk);
      DayEntriesAppend(rs, head, Pick(ks[1..], MonthOfDay, mk));
    }
  }

  /** Summing the daily rows sums the readings day by day. */
  lemma {:induction false} TotalDayEntries(rs: seq<Reading>, ks: seq<DayKey>)
    ensures Total(DayEntries(rs, ks), EntryColumns) == TotalByKey(rs, Rated, DayOf, ks)
  {
    if |ks| > 0 {
      DayEntriesCons(rs, ks);
      assert DayEntries(rs, ks)[1..] == DayEntries(rs, ks[1..]);
      TotalDayEntries(rs, ks[1..]);
    }
  }

  /** The readings of a day of month `mk` are the same whether taken from all
      readings or from that month's. */
  lemma {:induction false} PickDayWithinMonth(rs: seq<Reading>, k: DayKey, mk: MonthKey)
    requires MonthOfDay(k) == mk
    ensures Pick(Pick(rs, MonthOf, mk), DayOf, k) == Pick(rs, DayOf, k)
  {
    if |rs| > 0 {
      PickDayWithinMonth(rs[1..], k, mk);
      if MonthOf(rs[0]) == mk {
        assert Pick(rs, MonthOf, mk) == [rs[0]] + Pick(rs[1..], MonthOf, mk);
      } else {
        PickSkipsFirst(rs, MonthOf, mk);
        PickSkipsFirst(rs, DayOf, k);
      }
    }
  }

  lemma {:induction false} TotalByDayWithinMonth(rs: seq<Reading>, ks: seq<DayKey>, mk: MonthKey)
    requires forall i :: 0 <= i < |ks| ==> MonthOfDay(ks[i]) == mk
    ensures TotalByKey(rs, Rated, DayOf, ks) == TotalByKey(Pick(rs, MonthOf, mk), Rated, DayOf, ks)
  {
    if |ks| > 0 {
      PickDayWithinMonth(rs, ks[0], mk);
      TotalByDayWithinMonth(rs, ks[1..], mk);
    }
  }

  /** The days of month `mk` that have readings, ascending. */
  lemma DaysOfMonth(rs: seq<Reading>, mk: MonthKey)
    ensures NoDuplicates(Pick(DayKeys(rs), MonthOfDay, mk))
    ensures forall k :: k in Pick(DayKeys(rs), MonthOfDay, mk) <==> exists r :: r in rs && MonthOf(r) == mk && DayOf(r) == k
  {
    var ks := DayKeys(rs);
    DayOrder();
    KeysAscending(rs, DayOf, DayBefore);
    PickAscending(ks, MonthOfDay, mk, DayBefore);
    AscendingNoDuplicates(Pick(ks, MonthOfDay, mk), DayBefore);
    PickMembers(ks, MonthOfDay, mk);
    forall k
      ensures k in Pick(ks, MonthOfDay, mk) <==> exists r :: r in rs && MonthOf(r) == mk && DayOf(r) == k
    {
      if k in Pick(ks, MonthOfDay, mk) {
        var j :| 0 <= j < |rs| && DayOf(rs[j]) == k;
        assert rs[j] in rs;
      }
      if exists r :: r in rs && MonthOf(r) == mk && DayOf(r) == k {
        var r :| r in rs && MonthOf(r) == mk && DayOf(r) == k;
        var j :| 0 <= j < |rs| && rs[j] == r;
        assert k in ks;
      }
    }
  }

  /** A row of the monthly table sums exactly the readings of its month. */
  lemma MonthColumnsFromRows(rs: seq<Reading>, mk: MonthKey)
    ensures MonthEntry(DailyTable(rs), mk).columns == Total(Pick(rs, MonthOf, mk), Rated)
  {
    MonthColumnsByDay(rs, mk);
    MonthReadingsByDay(rs, mk);
  }

  /** A monthly row sums the daily sums of the days of its month. */
  lemma MonthColumnsByDay(rs: seq<Reading>, mk: MonthKey)
    ensures MonthEntry(DailyTable(rs), mk).columns == TotalByKey(rs, Rated, DayOf, Pick(DayKeys(rs), MonthOfDay, mk))
  {
    var ks := DayKeys(rs);
    PickDayEntries(rs, ks, mk);
    TotalDayEntries(rs, Pick(ks, MonthOfDay, mk));
  }

  /** Summed day by day, the readings of a month give their total. */
  lemma MonthReadingsByDay(rs: seq<Reading>, mk: MonthKey)
    ensures TotalByKey(rs, Rated, DayOf, Pick(DayKeys(rs), MonthOfDay, mk)) == Total(Pick(rs, MonthOf, mk), Rated)
  {
    var ks := DayKeys(rs);
    var ks' := Pick(ks, MonthOfDay, mk);
    var inMonth := Pick(rs, MonthOf, mk);
    PickMembers(ks, MonthOfDay, mk);
    TotalByDayWithinMonth(rs, ks', mk);
    DaysOfMonth(rs, mk);
    PickMembers(rs, MonthOf, mk);
    forall i | 0 <= i < |inMonth|
      ensures DayOf(inMonth[i]) in ks'
    {
      assert inMonth[i] in inMonth;
    }
    TotalByDistinctKeys(inMonth, Rated, DayOf, ks');
  }

  /** `days` of a monthly row is the number of distinct days of that month
      that have readings. */
  lemma MonthDaysFromRows(rs: seq<Reading>, mk: MonthKey)
    ensures MonthEntry(DailyTable(rs), mk).days == |set r | r in rs && MonthOf(r) == mk :: DayOf(r)|
  {
    var ks' := Pick(DayKeys(rs), MonthOfDay, mk);
    PickDayEntries(rs, DayKeys(rs), mk);
    DaysOfMonth(rs, mk);
    NoDuplicatesCardinality(ks');
    assert (set k | k in ks') == (set r | r in rs && MonthOf(r) == mk :: DayOf(r));
  }

  /** Some reading falls in month `mk`. */
  predicate MonthHasReadings(rs: seq<Reading>, mk: MonthKey) {
    exists r :: r in rs && MonthOf(r) == mk
  }

  /** The months of the daily table are the months that have readings. */
  lemma MonthKeysFromRows(rs: seq<Reading>)
    ensures forall mk :: mk in MonthKeys(DailyTable(rs)) <==> MonthHasReadings(rs, mk)
  {
    var ks, daily := DayKeys(rs), DailyTable(rs);
    forall mk
      ensures mk in MonthKeys(daily) <==> MonthHasReadings(rs, mk)
    {
      if mk in MonthKeys(daily) {
        var i :| 0 <= i < |daily| && EntryMonth(daily[i]) == mk;
        assert ks[i] in ks;
        var j :| 0 <= j < |rs| && DayOf(rs[j]) == ks[i];
        assert rs[j] in rs && MonthOf(rs[j]) == mk;
      }
      if MonthHasReadings(rs, mk) {
        var r :| r in rs && MonthOf(r) == mk;
        var j :| 0 <= j < |rs| && rs[j] == r;
        assert DayOf(r) in ks;
        var i :| 0 <= i < |ks| && ks[i] == DayOf(r);
        assert EntryMonth(daily[i]) == mk;
      }
    }
  }

  /** The monthly table has a row for exactly the months that have readings. */
  lemma MonthlyTableMonths(rs: seq<Reading>)
    ensures forall r :: r in rs ==>
              exists i :: 0 <= i < |MonthlyTable(DailyTable(rs))| && MonthlyTable(DailyTable(rs))[i].key == MonthOf(r)
    ensures forall i :: 0 <= i < |MonthlyTable(DailyTable(rs))| ==>
              MonthHasReadings(rs, MonthlyTable(DailyTable(rs))[i].key)
  {
    var daily := DailyTable(rs);
    var ms, t := MonthKeys(daily), MonthlyTable(daily);
    MonthKeysFromRows(rs);
    forall r | r in rs
      ensures exists i :: 0 <= i < |t| && t[i].key == MonthOf(r)
    {
      assert MonthOf(r) in ms;
      var i :| 0 <= i < |ms| && ms[i] == MonthOf(r);
      assert t[i].key == ms[i];
    }
    forall i | 0 <= i < |t|
      ensures MonthHasReadings(rs, t[i].key)
    {
      assert ms[i] in ms;
      var r :| r in rs && MonthOf(r) == ms[i];
      assert t[i].key == MonthOf(r);
    }
  }

  /** A month with readings has at least one day in the monthly table. */
  lemma MonthDaysPositive(rs: seq<Reading>, mk: MonthKey)
    requires MonthHasReadings(rs, mk)
    ensures MonthEntry(DailyTable(rs), mk).days >= 1
  {
    MonthDaysFromRows(rs, mk);
    var r :| r in rs && MonthOf(r) == mk;
    var days := set r | r in rs && MonthOf(r) == mk :: DayOf(r);
    assert DayOf(r) in days;
    assert days != {};
  }

  /** Every row of the monthly table is such a row. */
  lemma MonthlyTableRows(rs: seq<Reading>)
    ensures forall i :: 0 <= i < |MonthlyTable(DailyTable(rs))| ==>
              MonthlyTable(DailyTable(rs))[i].columns == Total(Pick(rs, MonthOf, MonthlyTable(DailyTable(rs))[i].key), Rated)
    ensures forall i :: 0 <= i < |MonthlyTable(DailyTable(rs))| ==>
              MonthlyTable(DailyTable(rs))[i].days >= 1 && Consistent(MonthlyTable(DailyTable(rs))[i].columns)
  {
    var daily := DailyTable(rs);
    var ms, t := MonthKeys(daily), MonthlyTable(daily);
    MonthKeysFromRows(rs);
    forall i | 0 <= i < |t|
      ensures t[i].columns == Total(Pick(rs, MonthOf, t[i].key), Rated)
      ensures t[i].days >= 1 && Consistent(t[i].columns)
    {
      assert ms[i] in ms;
      assert t[i] == MonthEntry(daily, ms[i]);
      MonthColumnsFromRows(rs, ms[i]);
      RatedRowsConsistent(Pick(rs, MonthOf, ms[i]));
      MonthDaysPositive(rs, ms[i]);
    }
  }
}
