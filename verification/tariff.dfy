/**
 Classification and rating of one hourly reading: the calendar flags, the
 rate, the split of usage into night / weekend / weekday kWh and the charges
 (compile_data.py, lines 42-59). The usage conversion of line 48 is in
 `UsageParse`; the calendar fields of lines 38-40 are taken as given.
 */
module Tariff {

  /** One hourly reading after its timestamp has been split into calendar
      fields. `dayOfWeek` counts Monday = 0 .. Sunday = 6, as pandas'
      `dayofweek` does; `usage` is the parsed kWh value. */
  datatype Reading = Reading(year: int, month: nat, day: nat, hour: nat, dayOfWeek: nat, usage: real)

  /** Night runs from 21:00 up to (not including) 07:00. */
  const NightEnd: nat := 7
  const NightStart: nat := 21
  /** Saturday in pandas' Monday-based numbering; Saturday and Sunday are the weekend. */
  const Saturday: nat := 5

  const OffPeakRate: real := 0.1347
  const PeakRate: real := 0.2332
  /** The fixed charge per day, spread evenly over a fixed 24 hours. */
  const DailyFixedCharge: real := 0.3450
  const HoursPerDay: nat := 24
  const HourlyFixedCharge: real := DailyFixedCharge / HoursPerDay as real

  predicate IsNight(r: Reading) {
    r.hour < NightEnd || r.hour >= NightStart
  }

  predicate IsWeekend(r: Reading) {
    r.dayOfWeek >= Saturday
  }

  predicate IsOffPeak(r: Reading) {
    IsNight(r) || IsWeekend(r)
  }

  /** The rate per kWh: the lower rate for every off-peak hour. */
  function Rate(r: Reading): (rate: real)
    ensures rate == OffPeakRate || rate == PeakRate
    ensures rate == OffPeakRate <==> IsOffPeak(r)
    ensures rate <= PeakRate
  {
    if IsOffPeak(r) then OffPeakRate else PeakRate
  }

  /** The period an hour is booked under, by priority night > weekend > weekday:
      a weekend night hour is a night hour. */
  datatype Period = Night | Weekend | Weekday

  function PeriodOf(r: Reading): (p: Period)
    ensures p != Weekday <==> IsOffPeak(r)
  {
    if IsNight(r) then Night
    else if IsWeekend(r) then Weekend
    else Weekday
  }

  /** The three usage columns, each filled through its own mask. Together
      the masks book an hour's usage under its period and nowhere else. */
  function NightKWh(r: Reading): (kwh: real)
    ensures kwh == if PeriodOf(r) == Night then r.usage else 0.0
  {
    if IsNight(r) then r.usage else 0.0
  }

  function WeekendKWh(r: Reading): (kwh: real)
    ensures kwh == if PeriodOf(r) == Weekend then r.usage else 0.0
  {
    if IsWeekend(r) && !IsNight(r) then r.usage else 0.0
  }

  function WeekdayKWh(r: Reading): (kwh: real)
    ensures kwh == if PeriodOf(r) == Weekday then r.usage else 0.0
  {
    if !IsOffPeak(r) then r.usage else 0.0
  }

  /** The energy charge: the off-peak kWh at the off-peak rate plus the
      weekday kWh at the peak rate, which for a non-negative usage lies
      between the two rates applied to the whole usage. */
  function UsageCharge(r: Reading): (charge: real)
    ensures charge == OffPeakRate * (NightKWh(r) + WeekendKWh(r)) + PeakRate * WeekdayKWh(r)
    ensures r.usage >= 0.0 ==> OffPeakRate * r.usage <= charge <= PeakRate * r.usage
  {
    Rate(r) * r.usage
  }

  /** The energy charge plus one hour's share of the fixed charge: 24 such
      shares make up the daily fixed charge. */
  function TotalCharge(r: Reading): (charge: real)
    ensures HoursPerDay as real * (charge - UsageCharge(r)) == DailyFixedCharge
    ensures r.usage >= 0.0 ==> charge >= HourlyFixedCharge
  {
    UsageCharge(r) + HourlyFixedCharge
  }

  // ---------------------------------------------------------------------
  // How many hours of a day each flag covers.

  /** A reading at hour `h` of a day with day of week `dow`; only these two
      fields decide the flags. */
  function HourOf(dow: nat, h: nat): Reading {
    Reading(0, 1, 1, h, dow, 0.0)
  }

  /** The two flags that decide the rate. */
  datatype Flag = NightFlag | OffPeakFlag

  predicate Flagged(f: Flag, r: Reading) {
    match f
    case NightFlag => IsNight(r)
    case OffPeakFlag => IsOffPeak(r)
  }

  /** The number of hours in [lo, hi) of a day with day of week `dow` that
      carry flag `f`. */
  function CountHours(f: Flag, dow: nat, lo: nat, hi: nat): nat
    decreases hi - lo
  {
    if lo >= hi then 0 else (if Flagged(f, HourOf(dow, lo)) then 1 else 0) + CountHours(f, dow, lo + 1, hi)
  }

  lemma {:induction false} CountHoursSplit(f: Flag, dow: nat, a: nat, b: nat, c: nat)
    requires a <= b <= c
    ensures CountHours(f, dow, a, c) == CountHours(f, dow, a, b) + CountHours(f, dow, b, c)
    decreases b - a
  {
    if a < b {
      CountHoursSplit(f, dow, a + 1, b, c);
    }
  }

  lemma {:induction false} CountHoursAll(f: Flag, dow: nat, lo: nat, hi: nat)
    requires lo <= hi
    requires forall h :: lo <= h < hi ==> Flagged(f, HourOf(dow, h))
    ensures CountHours(f, dow, lo, hi) == hi - lo
    decreases hi - lo
  {
    if lo < hi {
      CountHoursAll(f, dow, lo + 1, hi);
    }
  }

  lemma {:induction false} CountHoursNone(f: Flag, dow: nat, lo: nat, hi: nat)
    requires lo <= hi
    requires forall h :: lo <= h < hi ==> !Flagged(f, HourOf(dow, h))
    ensures CountHours(f, dow, lo, hi) == 0
    decreases hi - lo
  {
    if lo < hi {
      CountHoursNone(f, dow, lo + 1, hi);
    }
  }

  /** A day falls into the hours before 07:00, the hours up to 21:00 and the
      rest. */
  lemma CountDayParts(f: Flag, dow: nat)
    ensures CountHours(f, dow, 0, HoursPerDay) ==
            CountHours(f, dow, 0, NightEnd) + CountHours(f, dow, NightEnd, NightStart) + CountHours(f, dow, NightStart, HoursPerDay)
  {
    CountHoursSplit(f, dow, 0, NightEnd, HoursPerDay);
    CountHoursSplit(f, dow, NightEnd, NightStart, HoursPerDay);
  }

  /** Night covers ten hours of every day (by `IsNight`, 00:00 to 06:59 and
      21:00 to 23:59). */
  lemma NightHoursOfDay(dow: nat)
    ensures CountHours(NightFlag, dow, 0, HoursPerDay) == 10
  {
    CountDayParts(NightFlag, dow);
    CountHoursAll(NightFlag, dow, 0, NightEnd);
    CountHoursNone(NightFlag, dow, NightEnd, NightStart);
    CountHoursAll(NightFlag, dow, NightStart, HoursPerDay);
  }

  /** Off-peak covers all 24 hours of a Saturday or Sunday and only the ten
      night hours of any other day, which leaves 14 peak hours on a weekday. */
  lemma OffPeakHoursOfDay(dow: nat)
    ensures CountHours(OffPeakFlag, dow, 0, HoursPerDay) == if dow >= Saturday then 24 else 10
  {
    CountDayParts(OffPeakFlag, dow);
    CountHoursAll(OffPeakFlag, dow, 0, NightEnd);
    CountHoursAll(OffPeakFlag, dow, NightStart, HoursPerDay);
    if dow >= Saturday {
      CountHoursAll(OffPeakFlag, dow, NightEnd, NightStart);
    } else {
      CountHoursNone(OffPeakFlag, dow, NightEnd, NightStart);
    }
  }

  /** The summed columns of the daily and monthly tables, in the order the
      source lists them. */
  datatype Columns = Columns(
    usage: real,
    usageCharge: real,
    dailyCharge: real,
    totalCharge: real,
    weekendKWh: real,
    nightKWh: real,
    weekdayKWh: real)

  const Zero: Columns := Columns(0.0, 0.0, 0.0, 0.0, 0.0, 0.0, 0.0)

  /** The relations every row of the hourly table satisfies and every sum of
      rows inherits: the three periods split the usage, the usage charge is
      the off-peak kWh at the off-peak rate plus the weekday kWh at the peak
      rate, and the total charge adds the fixed charge. */
  predicate Consistent(c: Columns) {
    && c.nightKWh + c.weekendKWh + c.weekdayKWh == c.usage
    && c.usageCharge == OffPeakRate * (c.nightKWh + c.weekendKWh) + PeakRate * c.weekdayKWh
    && c.totalCharge == c.usageCharge + c.dailyCharge
  }

  /** No period holds a negative amount of energy. */
  predicate NonNegative(c: Columns) {
    c.nightKWh >= 0.0 && c.weekendKWh >= 0.0 && c.weekdayKWh >= 0.0
  }

  /** Column-wise sum. */
  function Plus(a: Columns, b: Columns): (c: Columns)
    ensures Consistent(a) && Consistent(b) ==> Consistent(c)
    ensures NonNegative(a) && NonNegative(b) ==> NonNegative(c)
    ensures c.usage == a.usage + b.usage && c.dailyCharge == a.dailyCharge + b.dailyCharge
  {
    Columns(
      a.usage + b.usage,
      a.usageCharge + b.usageCharge,
      a.dailyCharge + b.dailyCharge,
      a.totalCharge + b.totalCharge,
      a.weekendKWh + b.weekendKWh,
      a.nightKWh + b.nightKWh,
      a.weekdayKWh + b.weekdayKWh)
  }

  /** The hourly table's columns for one reading: the column of the hour's
      period holds all of its usage and the other two hold nothing. */
  function Rated(r: Reading): (c: Columns)
    ensures c.nightKWh == (if PeriodOf(r) == Night then r.usage else 0.0)
    ensures c.weekendKWh == (if PeriodOf(r) == Weekend then r.usage else 0.0)
    ensures c.weekdayKWh == (if PeriodOf(r) == Weekday then r.usage else 0.0)
    ensures c.usage == r.usage
    ensures c.dailyCharge == HourlyFixedCharge
    ensures c.usageCharge == Rate(r) * r.usage
    ensures Consistent(c)
    ensures r.usage >= 0.0 ==> NonNegative(c) && c.totalCharge >= c.dailyCharge
  {
    Columns(r.usage, UsageCharge(r), HourlyFixedCharge, TotalCharge(r),
            WeekendKWh(r), NightKWh(r), WeekdayKWh(r))
  }
}
