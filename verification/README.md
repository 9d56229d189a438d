# Electricity usage compilation — a Dafny model

`compile_data.py` takes the hourly electricity readings scraped from a
retailer's site and turns them into a monthly tariff summary. Each hourly
row is handled in turn:

- it is flagged *night* (before 07:00 or from 21:00 on), *weekend*
  (Saturday or Sunday) and *off-peak* (either of the two);
- it gets the off-peak rate 0.1347 or the peak rate 0.2332;
- its usage cell (`"0.52 kWh"`) is converted to a number;
- its usage is booked under exactly one of night, weekend or weekday, with
  night taking priority;
- it is charged `rate * usage` plus 1/24 of the 0.3450 daily fixed charge.

The rows are then summed per day (year, month, day). The daily rows are
summed per month (year, month), with `days` counting the daily rows of each
month. Each month gets night / weekend / weekday / off-peak percentages of
its usage. A final `avg` column averages every monthly row over the months.

The model works on exact `real` arithmetic. It is split into these modules:

- `Results` (`results.dfy`): `Option` and `Result`.
- `Tariff` (`tariff.dfy`): the hourly reading, its flags and rate, the
  period split and the charge columns (`Columns`).
- `UsageParse` (`usage_parse.dfy`): the usage cell conversion. It models
  Python's `s[:-4]` followed by `float` on decimal numerals.
- `SortedKeys` (`sorted_keys.dfy`): the ascending, duplicate-free group keys
  that pandas' `pivot_table` and `groupby` produce.
- `Grouping` (`grouping.dfy`): column sums, the rows of one group, and sums
  and counts taken group by group.
- `Aggregate` (`aggregate.dfy`): the daily table, the monthly table and the
  percentages.
- `Averages` (`averages.dfy`): the `avg` column.
- `Pipeline` (`pipeline.dfy`): the whole run, from readings with textual
  usage cells to the report or the reason there is none.

A month whose usage is 0 has no percentages (pandas produces NaN there).
The average skips such months in the percentage rows, as pandas'
`mean` skips NaN. A run with no readings at all is an error, and so is a
usage cell that `float` rejects.

The script builds no hourly grid, so it has no days of 23 or 25 hours. It
divides the fixed charge by a constant 24 and has one pair of rates. It does
not detect missing or duplicate hours and estimates no bill. It also cuts
off the last four characters of a usage cell without looking at them
(`SuffixNotChecked`). The model follows the script in all of this.

The fixed charge is spread as 1/24 per hourly row. A day therefore accrues
0.3450 if and only if it has exactly 24 readings (`FullDayFixedCharge`).
A day with missing hours accrues less, and a 25-hour day accrues more.

## Model

| member | source | states |
|---|---|---|
| Tariff.Rate | compile_data.py:42-46 | The rate is always one of the two tariff rates. It is the off-peak rate exactly when the hour is night or weekend. |
| Tariff.NightHoursOfDay | compile_data.py:42 | The night flag covers exactly ten of the 24 hours of every day, whatever the day of week. |
| Tariff.OffPeakHoursOfDay | compile_data.py:42-44 | The off-peak flag covers all 24 hours of a Saturday or Sunday and only the ten night hours of any other day, leaving 14 peak hours on a weekday. |
| Tariff.PeriodOf | compile_data.py:42-44 | Under the night > weekend > weekday priority, an hour falls outside the weekday period exactly when it is off-peak. |
| Tariff.NightKWh | compile_data.py:50-51 | The night mask books an hour's usage exactly when its period is night, and 0 otherwise. |
| Tariff.WeekendKWh | compile_data.py:52-53 | The weekend-and-not-night mask books an hour's usage exactly when its period is weekend, so a weekend night is not counted here. |
| Tariff.WeekdayKWh | compile_data.py:54-55 | The not-off-peak mask books an hour's usage exactly when its period is weekday. |
| Tariff.UsageCharge | compile_data.py:57 | The usage charge is the off-peak kWh at the off-peak rate plus the weekday kWh at the peak rate. For non-negative usage it lies between the off-peak and the peak rate applied to the whole usage. |
| Tariff.TotalCharge | compile_data.py:58-59 | The total charge exceeds the usage charge by one 24th share of the fixed charge, so 24 shares make 0.3450. It is at least that share when usage is non-negative. |
| Tariff.Rated | compile_data.py:50-59 | The mask-built columns of an hourly row follow the priority rule. The period's column holds all of the usage and the other two hold 0, so a weekend night counts only as night. The usage charge is rate times usage, the fixed share is 0.3450/24, and the total adds them. Non-negative usage gives non-negative period columns and a total charge of at least the fixed share. |
| Tariff.Plus | compile_data.py:63-64 | Adding two rows of columns keeps their relations: the periods add up to the usage, and the charges follow the rates and fixed charge. It also keeps non-negativity. |
| UsageParse.DropSuffix | compile_data.py:48 | `s[:-4]` leaves all but the last four characters, and the empty string for shorter cells. |
| UsageParse.ParseUsage | compile_data.py:48 | A cell of four characters or fewer is rejected. |
| UsageParse.ParseNumber | compile_data.py:48 | Blank text is not a number. |
| UsageParse.ParseUsageOfCell | compile_data.py:48 | A cell `d + " kWh"` converts to whatever `float(d)` gives. |
| UsageParse.SuffixNotChecked | compile_data.py:48 | Any last four characters are cut off unchecked. A cell `d + u` with four-character `u` converts like `float(d)`, whether or not `u` is " kWh". |
| UsageParse.ParseDecimalNumeral | compile_data.py:48 | `"<digits>.<digits>"`, with at least one digit, converts to its decimal value. |
| UsageParse.ParseIntegerNumeral | compile_data.py:48 | A digit string converts to its integer value. |
| UsageParse.NegatedNumeral | compile_data.py:48 | A leading minus negates the numeral's value and keeps rejections rejected. |
| UsageParse.NoDigitRejected | compile_data.py:48 | A cell with no digit before its last four characters is rejected. |
| UsageParse.ParseRenderedUsage | compile_data.py:48 | Round trip: a usage written as `<whole>[.<k digits>] kWh` converts back to exactly its value `v = whole + frac / 10^k`. |
| SortedKeys.Keys | compile_data.py:63-65 | The group keys are exactly the keys that occur among the rows. |
| SortedKeys.KeysAscending | compile_data.py:63-65 | The group keys come out in ascending order, as pandas sorts group keys. |
| SortedKeys.AscendingUnique | compile_data.py:63-65 | An ascending key list is determined by its set of keys. |
| SortedKeys.KeysPermutation | compile_data.py:36 | The group keys do not depend on the order of the rows. |
| Grouping.PickMembers | compile_data.py:63-64 | A group holds exactly the rows with its key. |
| Grouping.PickPermutation | compile_data.py:36 | Reordering the rows reorders each group, no more. |
| Grouping.TotalPermutation | compile_data.py:36 | A column sum does not depend on the order of the rows. |
| Grouping.TotalConsistent | compile_data.py:63-64 | A sum of rows keeps the period and charge relations every row has. |
| Grouping.TotalByDistinctKeys | compile_data.py:63-64 | Summing group by group over the distinct keys gives the sum of all rows. |
| Grouping.CountByDistinctKeys | compile_data.py:65 | The group sizes over the distinct keys add up to the number of rows. |
| Aggregate.DailyTable | compile_data.py:61-63 | The daily table is in strictly ascending (year, month, day) order, so it has one row per day. |
| Aggregate.DailyTableDays | compile_data.py:61-63 | The daily table has a row for exactly the days that have readings. |
| Aggregate.DailyTableColumns | compile_data.py:61-63 | Each daily row is the sum of that day's hourly rows and keeps their relations. |
| Aggregate.FixedChargeOfRows | compile_data.py:58 | The fixed-charge column of n hourly rows sums to n × 0.3450/24. |
| Aggregate.FullDayFixedCharge | compile_data.py:58 | A day accrues exactly the 0.3450 daily charge if and only if it has exactly 24 readings. |
| Aggregate.Percentages | compile_data.py:67-70 | The percentages exist exactly when the month's usage is non-zero. Each is 100 × period kWh / usage, and off-peak is night plus weekend. With consistent columns, night + weekend + weekday = 100. Each lies in [0, 100] when the period columns are non-negative. |
| Aggregate.MonthColumnsFromRows | compile_data.py:63-64 | A monthly row, summed from the daily rows, equals the sum of all hourly rows of that (year, month). |
| Aggregate.MonthDaysFromRows | compile_data.py:65 | `days` is the number of distinct (year, month, day) keys among the month's readings. |
| Aggregate.MonthKeysFromRows | compile_data.py:64 | The months of the monthly table are exactly the months that have readings. |
| Aggregate.MonthEntry | compile_data.py:64-70 | A monthly row has `days` = 0 exactly when no daily row falls in its month, and then its columns are 0. It has percentages exactly when its usage is non-zero. Off-peak is night plus weekend, and the three periods make 100 when the daily rows are consistent. |
| Aggregate.MonthlyTable | compile_data.py:64 | The monthly table is in strictly ascending (year, month) order, so it has one row per month. |
| Aggregate.MonthlyTableMonths | compile_data.py:64 | Every reading's month has a monthly row, and every monthly row has a reading. |
| Aggregate.MonthDaysPositive | compile_data.py:65 | Every month that appears has `days` ≥ 1. |
| Aggregate.MonthlyTableRows | compile_data.py:63-65 | Every monthly row sums its month's readings, has `days` ≥ 1 and keeps the column relations. |
| Averages.SharesMean | compile_data.py:74 | The mean percentages exist exactly when some month has percentages. Times that count of months, they give the percentage totals. |
| Averages.Mean | compile_data.py:72-74 | There is an `avg` column exactly when there is a month. The average columns and `days` times the number of months give back the monthly totals. |
| Averages.MeanSharesAddUp | compile_data.py:74 | When every month's percentages make up 100, the averaged ones do too. Off-peak remains night plus weekend. |
| Averages.MeanSharesInRange | compile_data.py:74 | Averaged percentages stay in [0, 100] when every month's do. |
| Averages.MonthlyTableTotal | compile_data.py:63-64 | The monthly rows sum to the sum of all hourly rows. |
| Averages.MonthlyTableDays | compile_data.py:65 | The `days` row sums to the number of daily rows. |
| Averages.MonthlyTableNonEmpty | compile_data.py:64 | Readings give at least one month. |
| Averages.AverageFromRows | compile_data.py:74 | For any readings, `avg` times the number of months gives back the totals of all readings. `avg` days times the number of months gives the number of days with readings. The averaged columns keep the column relations. |
| Averages.MonthlyTableShares | compile_data.py:67-70 | Every monthly row's percentages make up 100, with off-peak = night + weekend. They lie in [0, 100] when no reading is negative. |
| Averages.AverageShares | compile_data.py:67-74 | The average percentages make up 100, with off-peak = night + weekend. They lie in [0, 100] when no reading is negative. |
| Pipeline.ParseReading | compile_data.py:48 | A reading converts exactly when its usage cell does, and keeps its calendar fields. |
| Pipeline.ParseReadings | compile_data.py:48 | Conversion succeeds exactly when every cell converts, row for row. Otherwise the error names a rejected cell that no earlier rejected cell precedes. |
| Pipeline.Summarise | compile_data.py:61-74 | A report has an `avg` column exactly when there are readings. That average times the number of months gives back the totals of all readings. There are no more monthly rows than daily rows. |
| Pipeline.Compile | compile_data.py:36-74 | No readings is the `NoReadings` error. A report exists exactly when there are readings and every usage cell converts, and it has a monthly row and an average. That average times the number of months gives back the totals of the parsed readings. Otherwise the error names the first reading whose usage cell is rejected. |
| Pipeline.DailyTableIgnoresOrder | compile_data.py:36 | The daily table does not depend on the order of the readings. |
| Pipeline.SummariseIgnoresOrder | compile_data.py:36 | The whole report does not depend on the order of the readings, so neither the file order nor the sort by date changes it. |

## Left out

- Loading the readings (compile_data.py:24-33) is I/O and is not modelled: listing the output folder, `read_csv` and `to_datetime`. A quirk of line 33 also falls outside the model: it runs for every directory entry, so a non-file entry re-appends the previous file's rows.
- Splitting timestamps into calendar fields (compile_data.py:38-40, and the hour and day of week used on lines 42-43) is taken as given. A reading carries year, month, day, hour and day of week, with Monday = 0. Out-of-range values are not rejected.
- The sort by date (compile_data.py:36) is not modelled as an operation. `SummariseIgnoresOrder` shows the report cannot depend on it.
- Pipeline.ParseReadings: reports the first rejected cell in input order. The script raises on the first rejected cell in date order, because it converts after sorting.
- The transpose (compile_data.py:72) and the CSV output (compile_data.py:76) only change layout and are not modelled. That includes the alphabetical column order `pivot_table` produces.
- Binary floating point is not modelled. Sums, the 0.3450/24 share and the percentages are exact reals, so rounding differences from pandas are not captured.
- UsageParse.ParseNumber: accepts only decimal numerals with ASCII white space and an optional sign. Python's `float` also accepts exponents, `inf`/`nan`, digit-group underscores, and non-ASCII digits and white space. The model rejects all of these.
- UsageParse.NoDigitRejected: a cell whose numeral part is "nan", "inf" or "infinity" (any case, optionally signed) is rejected. Python's `float` accepts these and gives NaN or ±inf, which the model's exact reals cannot hold.
- Aggregate.Percentages: a zero-usage month is treated as having no percentages at all. In pandas, a period whose kWh is 0 gives NaN, but a period whose kWh is not 0 gives ±inf. The latter is possible only with negative readings, and it would make that row's `avg` infinite.
- Pipeline.Compile: a run with no readings is the `NoReadings` error. The script fails when the folder holds no files, because there is no `date` column to sort. The model does not distinguish that from files that hold only a header line.
