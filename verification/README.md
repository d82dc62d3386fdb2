# LeanTicksToBars: tick-to-bar aggregation, modelled in Dafny

LeanTicksToBars converts a day's archived bid/ask quote ticks into OHLC
(open/high/low/close) bars at four resolutions: second, minute, hour and day.
It does this for every day of a date range. This project models two parts of
`Program.cs`:

- **`AggregateTicks`** groups ticks by `t.Time.RoundDown(resolution)` with LINQ
  `group ... by` semantics. Groups appear in order of the first appearance of
  their key, and ticks keep their input order inside a group. Each group
  becomes one bar: open is the first price, high the maximum, low the
  minimum, close the last price.
- **The day-range driver in `Main`**: a date cursor from the start date to the
  end date, inclusive. It skips a day whose quote archive is absent. Otherwise
  it stamps each quote line at the day start plus its millisecond offset, then
  aggregates the day's full tick list at Second, Minute, Hour and Daily, in
  that order, and hands each result to the writer.

Modules, one per file:

- `Market` (`market.dfy`): ticks, bars, and `RoundDown` on whole milliseconds.
- `Aggregation` (`aggregation.dfy`): the `GroupBy` lookup, the bar of a group,
  and `AggregateTicks`. Grouping is generic over a key function.
  `AggregateTicks` uses the key `RoundDown(time, r)`.
- `BarProperties` (`bar_properties.dfy`): what the bars mean in terms of the
  input ticks. This covers the bucket interval, open/close as first/last tick,
  high/low as extremes, partition, count, and order.
- `SinglePass` (`single_pass.dfy`): a one-pass aggregator, as a function and
  as a loop. It equals `AggregateTicks` on time-ordered input and differs on
  unordered input.
- `Driver` (`driver.dfy`): resolutions, quote-line stamping, the day cursor,
  and the sequence of writes it issues.
- `Scenarios` (`scenarios.dfy`): worked examples on concrete ticks.

Representation:

- Instants are `nat` milliseconds since the calendar epoch, and day `d`
  starts at `d * DayMs`.
- Prices are integers standing in for `decimal`.
- A tick's price (`LastPrice`) comes from its bid and ask by a rule in a
  library outside this model. The driver therefore takes that rule as a
  parameter `quote`.
- The archive lookup is a parameter too. `load(symbol, day)` returns `None`
  when the day's archive file does not exist, and otherwise returns the
  quote lines it holds.
- Each call to the writer is recorded as a `Write` value, in issue order.
  The `day` field of a `Write` is bookkeeping of the model. The code builds
  a writer from the symbol and the resolution and passes it only the bars
  (`Program.cs:82-83`). The day is implicit in the bar times.

Points of the code's behaviour worth stating plainly:

- An archive that exists but holds no lines is not skipped. It still gives
  four writes with empty bar lists (`Scenarios.EmptyArchiveWritten`). Only a
  day whose archive file is absent is skipped.
- The code floors instants from the calendar epoch (`t - t % r`), not from
  the day start. The two agree for every interval that divides a day
  (`Market.RoundDownFromDayStart`), and all four resolutions do.
- Bars come out in order of first appearance of their bucket, not sorted.
  They are guaranteed to increase strictly when the ticks are in time order
  (`BarProperties.SortedBarsIncrease`). Out of order, a later bucket can come
  first (`SinglePass.UnsortedInputDiffers`).
- There is no error for a non-positive resolution in the code. The driver
  only ever passes the four fixed positive durations.

## Model

| member | source | states |
|---|---|---|
| Market.RoundDown | Program.cs:96 | the bucket start `k` of instant `t` satisfies `k <= t < k + r` |
| Market.RoundDownAligned | Program.cs:96 | every bucket start is a multiple of the interval |
| Market.RoundDownUnique | Program.cs:96 | the bucket start is the only multiple of `r` in `(t - r, t]` |
| Market.RoundDownMonotone | Program.cs:96 | a later instant never lands in an earlier bucket |
| Market.SameBucket | Program.cs:96 | two instants share a bucket exactly when the second lies in `[k, k + r)` of the first's bucket `k` |
| Market.RoundDownFromDayStart | Program.cs:68 | for an interval dividing a day, the bucket of `off` ms into day `d` is the day start plus the floored offset, so flooring from the epoch equals flooring from the day start |
| Aggregation.Bucket | Program.cs:95-97 | the ticks of one key: all have that key, and the bucket is empty exactly when no input tick has it |
| Aggregation.IndexOfKey | Program.cs:95-97 | the lookup finds the first group with a key, or reports that none has it |
| Aggregation.MaxPrice | Program.cs:103 | the high is at least every price of the group and is one of them |
| Aggregation.MinPrice | Program.cs:104 | the low is at most every price of the group and is one of them |
| Aggregation.ToBar | Program.cs:98-106 | a group's bar carries the symbol and the group key as time, and keeps `low <= open, close <= high` |
| Aggregation.FirstIndex | Program.cs:102 | the position of the first input tick with a key, or the input length when none has it |
| Aggregation.LookupInvariant | Program.cs:94-97 | the scan builds the grouping: distinct keys, each group is exactly the non-empty bucket of its key, every tick's key has a group, groups in order of first appearance |
| BarProperties.BarsAreBuckets | Program.cs:94-106 | every bar carries the symbol and is the bar of the non-empty bucket of its own time |
| BarProperties.BucketFirst | Program.cs:102 | the first tick of a bucket is the first input tick with that key |
| BarProperties.LastIndex | Program.cs:105 | the position of the last input tick with a key, or -1 when none has it |
| BarProperties.BucketLast | Program.cs:105 | the last tick of a bucket is the last input tick with that key |
| BarProperties.BarOpenClose | Program.cs:102-105 | each bar opens at the price of the first input tick of its bucket and closes at the price of the last |
| BarProperties.BucketMembers | Program.cs:95-97 | a tick is in a bucket exactly when it is an input tick with that key |
| BarProperties.BarHighLow | Program.cs:103-104 | every price of a bar's bucket lies in `[low, high]`, both bounds are attained, and `low <= open, close <= high` |
| BarProperties.GroupsPartitionTicks | Program.cs:94-97 | the groups together hold every input tick exactly as often as the input does |
| BarProperties.BarsPartitionTicks | Program.cs:94-97 | every tick's bucket has a bar, no two bars share a time, no bar is empty, and there are as many bars as distinct bucket starts |
| BarProperties.BarsCoverTicks | Program.cs:94-97 | every tick's bucket has a bar and bar times are distinct |
| BarProperties.BarsNonEmpty | Program.cs:94-97 | every bar's time is the key of some input tick |
| BarProperties.BarCount | Program.cs:94-97 | the number of groups equals the number of distinct keys |
| BarProperties.BarsInFirstAppearanceOrder | Program.cs:95-97 | bars come out in order of the first appearance of their keys |
| BarProperties.BarInterval | Program.cs:96-101 | a bar's time is a multiple of the resolution, and a tick belongs to it exactly when `time <= t.time < time + r` |
| BarProperties.SingleTickBar | Program.cs:98-106 | a single tick gives one bar at its bucket with open = high = low = close = its price |
| BarProperties.NoTicksNoBars | Program.cs:94-97 | no ticks give no bars at every resolution |
| BarProperties.SortedBarsIncrease | Program.cs:95-97 | with ticks in time order, bar times strictly increase |
| BarProperties.OneKeyOneBar | Program.cs:94-101 | ticks that all share one key give at most one bar, at that key |
| SinglePass.ForwardPassBounds | Program.cs:103-105 | the one-pass bars carry the symbol and keep `low <= open, close <= high` |
| SinglePass.ToBarSnoc | Program.cs:102-105 | one more tick in a group leaves open, raises high or lowers low to its price, and moves close to it |
| SinglePass.ForwardPassMatchesGroupBy | Program.cs:94-106 | for keys that never decrease, the one-pass bars equal the `GroupBy` bars |
| SinglePass.SortedForwardPass | Program.cs:94-106 | for ticks in time order, the one-pass bars equal `AggregateTicks` at every resolution |
| SinglePass.UnsortedInputDiffers | Program.cs:95-97 | for ticks at 0, r, 1 ms, `GroupBy` merges the first and third into one bar, while the one pass gives three bars |
| SinglePass.AggregateInOnePass | Program.cs:92-107 | a loop holding one open bar computes the one-pass bars, hence `AggregateTicks` for time-ordered ticks |
| Driver.Duration | Program.cs:78-80 | each resolution is a positive number of milliseconds dividing a day, and only Daily is a whole day |
| Driver.StampTicks | Program.cs:65-73 | one tick per quote line |
| Driver.StampTicksLines | Program.cs:68-71 | tick `i` is line `i` stamped at the day start plus its offset, with its bid, ask and derived price |
| Driver.StampedBucket | Program.cs:68 | a stamped tick lies its offset after the day start, and its bucket is the day start plus the floored offset |
| Driver.DailyBarIsTheDay | Program.cs:78-80 | with offsets within the day, the daily aggregation gives at most one bar, starting at the day start |
| Driver.DataDays | Program.cs:48-53 | the days from start to end whose archive exists, strictly ascending, each one in range and present, and none missed |
| Driver.DriveIndex | Program.cs:48-87 | the writes are the four writes of each day with data, day by day |
| Driver.DriveWrites | Program.cs:48-87 | write `i` has the symbol, the `i / 4`-th day with data and the `i % 4`-th resolution, and holds the aggregation of that day's full tick list at that resolution |
| Driver.WritesInOrder | Program.cs:48-87 | days are written in ascending order, and within a day in the order Second, Minute, Hour, Daily |
| Driver.Index | Program.cs:78 | the position of a resolution in the writing order |
| Driver.WrittenDays | Program.cs:48-53 | a day is written at a resolution exactly when it lies in the range and its archive exists |
| Driver.RunDays | Program.cs:48-87 | the date-cursor loop issues exactly the driver's writes, four per day with data |
| Driver.WriteDay | Program.cs:78-84 | the per-day loop writes the four resolutions in order over the same tick list |
| Driver.ReadTicks | Program.cs:65-73 | reading an archive gives one tick per line, stamped at the day start plus its offset |
| Scenarios.MinuteBarsOfThreeQuotes | Program.cs:92-107 | quotes at 09:30:00.100, 09:30:45.000 and 09:31:00.050 give a 09:30 bar (1.1000, 1.1005, 1.1000, 1.1005) and a flat 09:31 bar at 1.0998 |
| Scenarios.DailyBarOfMidnightQuote | Program.cs:92-107 | one quote at midnight, at daily resolution, gives one flat bar at the day start |
| Scenarios.AbsentDaySkipped | Program.cs:53 | a day without an archive adds no writes and leaves the later days' writes unchanged |
| Scenarios.EmptyArchiveWritten | Program.cs:53-84 | an archive with no lines still gives four writes, each with no bars |

## Left out

- Argument count check, usage text, and parsing of symbols, security type,
  market and dates (`Program.cs:17-34`). This is command-line plumbing.
- The loop over tickers (`Program.cs:41-46`). The model drives one symbol.
  As long as nothing throws, symbols are independent, because each one's
  writes depend on nothing else.
- Config lookup and path construction (`Program.cs:37-45`, `51`). These are
  filesystem layout.
- `File.Exists`, zip decompression and line reading (`Program.cs:53-66`).
  These are I/O, modelled by the `load` parameter, where `None` means the
  file does not exist.
- CSV field parsing with `ToCsv`, `ToInt64` and `ToDecimal`
  (`Program.cs:67-70`). This belongs to an external library. Quote lines
  arrive already parsed.
- Driver.StampTick: offsets are non-negative. A negative offset would place a
  tick before its day start, and `DateTime` arithmetic outside the model would
  decide what happens.
- `Tick` construction and the `LastPrice` rule (`Program.cs:71`, `102-105`).
  They live in a library outside this model. The price rule is the
  uninterpreted parameter `quote`.
- `LeanDataWriter.Write` (`Program.cs:82-83`). Its merge into stored series
  is not visible. Writes are recorded, not performed.
- `Symbol.Create` and `Resolution.ToTimeSpan` (`Program.cs:43`, `80`). These
  are library calls. Symbols are strings, and resolutions are the fixed
  durations 1000, 60000, 3600000 and 86400000 ms.
- Aggregation.AggregateTicks: requires a positive resolution. `RoundDown` for
  a zero or negative interval is in a library outside this model, and the
  driver never passes one.
- `decimal` prices. These are modelled as integers, exact in a fixed unit.
- `TradeBar` fields the code leaves at their defaults (volume, period).
- Console output.
- Exceptions in the day loop. `Main` catches none, so a throw ends the whole
  run, and the remaining days and tickers are not written. The throw can come
  from the CSV parsers (`Program.cs:67-70`), from `AddMilliseconds` past
  `DateTime.MaxValue` (`Program.cs:68`), or from the writer
  (`Program.cs:83`). `DriveFrom` and `RunDays` always finish and write every
  day with data.
- The calendar limit. `date.AddDays(1)` throws after 9999-12-31
  (`Program.cs:87`), so an end date of 9999-12-31 ends the run with an
  exception after its last day. Days in the model are unbounded `nat`
  values.
- Timestamps are whole milliseconds. The 100-ns ticks of `DateTime` are not
  modelled, because every instant the driver builds is a whole number of
  milliseconds.
