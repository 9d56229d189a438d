/**
 The whole compilation (compile_data.py, lines 36-74): hourly readings with
 their usage still as text go in; the daily table, the monthly table and
 its average column come out, or the reason there are none.
 */
module Pipeline {
  import opened Results
  import opened UsageParse
  import opened Tariff
  import opened SortedKeys
  import opened Grouping
  import opened Aggregate
  import opened Averages

  /** A scraped reading: the calendar fields of its timestamp and the usage
      cell as written, such as "0.52 kWh". */
  datatype RawReading = RawReading(year: int, month: nat, day: nat, hour: nat, dayOfWeek: nat, usage: string)

  /** Why there is no report: no readings at all, or a usage cell that does
      not hold a number. */
  datatype LoadError = NoReadings | BadUsage(cell: string)

  /** The three tables the script derives. */
  datatype Report = Report(daily: seq<DayTotal>, monthly: seq<MonthTotal>, average: Option<Average>)

  /** The reading with its usage converted, if the cell holds a number. */
  function ParseReading(raw: RawReading): (r: Option<Reading>)
    ensures r.Some? <==> ParseUsage(raw.usage).Some?
    ensures r.Some? ==> && r.value.usage == ParseUsage(raw.usage).value
                        && r.value.year == raw.year && r.value.month == raw.month && r.value.day == raw.day
                        && r.value.hour == raw.hour && r.value.dayOfWeek == raw.dayOfWeek
  {
    match ParseUsage(raw.usage)
    case None => None
    case Some(u) => Some(Reading(raw.year, raw.month, raw.day, raw.hour, raw.dayOfWeek, u))
  }

  /** The usage column converted row by row; the first cell that is not a
      number stops the conversion. */
  function ParseReadings(raws: seq<RawReading>): (r: Result<seq<Reading>, LoadError>)
    ensures r.Ok? <==> forall i :: 0 <= i < |raws| ==> ParseReading(raws[i]).Some?
    ensures r.Ok? ==> |r.value| == |raws| &&
                      forall i :: 0 <= i < |raws| ==> ParseReading(raws[i]) == Some(r.value[i])
    ensures r.Err? ==> exists i :: FirstRejected(raws, i) && r.error == BadUsage(raws[i].usage)
  {
    if |raws| == 0 then Ok([])
    else
      match ParseReading(raws[0])
      case None =>
        assert FirstRejected(raws, 0);
        Err(BadUsage(raws[0].usage))
      case Some(first) =>
        match ParseReadings(raws[1..])
        case Err(e) =>
          RejectedLater(raws);
          Err(e)
        case Ok(rest) =>
          assert forall i :: 1 <= i < |raws| ==> raws[i] == raws[1..][i - 1];
          Ok([first] + rest)
  }

  /** Reading `i` is the first one whose usage cell does not convert. */
  predicate FirstRejected(raws: seq<RawReading>, i: int) {
    && 0 <= i < |raws|
    && ParseReading(raws[i]).None?
    && forall j :: 0 <= j < i ==> ParseReading(raws[j]).Some?
  }

  /** Behind a reading that converts, the first rejected reading of the rest
      is the first rejected reading of all. */
  lemma RejectedLater(raws: seq<RawReading>)
    requires |raws| > 0 && ParseReading(raws[0]).Some?
    ensures forall i :: FirstRejected(raws[1..], i) ==> FirstRejected(raws, i + 1) && raws[1..][i] == raws[i + 1]
  {
  }

  /** The tables of a set of parsed readings. There is an average exactly
      when there are readings, and it gives back the totals of all readings.
      No month has fewer than one day, so there are no more monthly rows
      than daily rows. */
  function Summarise(rs: seq<Reading>): (r: Report)
    ensures r.average.Some? <==> |rs| > 0
    ensures r.average.Some? ==> Scale(r.average.value.columns, |r.monthly| as real) == Total(rs, Rated)
    ensures |r.monthly| <= |r.daily|
  {
    var daily := DailyTable(rs);
    var monthly := MonthlyTable(daily);
    MonthlyTableRows(rs);
    MonthlyTableDays(rs);
    MonthsAtMostDays(monthly);
    NoReadingsNoMonths();
    if |rs| > 0 then
      AverageFromRows(rs);
      Report(daily, monthly, Mean(monthly))
    else
      Report(daily, monthly, Mean(monthly))
  }

  lemma NoReadingsNoMonths()
    ensures |MonthlyTable(DailyTable([]))| == 0
  {
  }

  /** The whole script: no readings is an error, as is any usage cell that
      is not a number; otherwise the report of the parsed readings. */
  function Compile(raws: seq<RawReading>): (r: Result<Report, LoadError>)
    ensures r == Err(NoReadings) <==> |raws| == 0
    ensures r.Ok? <==> |raws| > 0 && forall i :: 0 <= i < |raws| ==> ParseUsage(raws[i].usage).Some?
    ensures r.Ok? ==> |r.value.monthly| > 0 && r.value.average.Some?
    ensures r.Err? && |raws| > 0 ==> exists i :: FirstRejected(raws, i) && r.error == BadUsage(raws[i].usage)
    ensures r.Ok? ==> ParseReadings(raws).Ok?
    ensures r.Ok? ==> Scale(r.value.average.value.columns, |r.value.monthly| as real) == Total(ParseReadings(raws).value, Rated)
  {
    if |raws| == 0 then Err(NoReadings)
    else
      match ParseReadings(raws)
      case Err(e) => Err(e)
      case Ok(rs) =>
        MonthlyTableNonEmpty(rs);
        Ok(Summarise(rs))
  }

  // ---------------------------------------------------------------------
  // Properties of the whole compilation.

  /** The daily table does not depend on the order of the readings. */
  lemma DailyTableIgnoresOrder(a: seq<Reading>, b: seq<Reading>)
    requires multiset(a) == multiset(b)
    ensures DailyTable(a) == DailyTable(b)
  {
    DayOrder();
    KeysPermutation(a, b, DayOf, DayBefore);
    var ks := DayKeys(a);
    forall i | 0 <= i < |ks|
      ensures DayEntry(a, ks[i]) == DayEntry(b, ks[i])
    {
      PickPermutation(a, b, DayOf, ks[i]);
      TotalPermutation(Pick(a, DayOf, ks[i]), Pick(b, DayOf, ks[i]), Rated);
    }
  }

  /** The report does not depend on the order the readings arrive in, so
      neither the order of the files nor the sort by date changes it. */
  lemma SummariseIgnoresOrder(a: seq<Reading>, b: seq<Reading>)
    requires multiset(a) == multiset(b)
    ensures Summarise(a) == Summarise(b)
  {
    DailyTableIgnoresOrder(a, b);
  }
}
