/**
 The day-range driver: walk the days from the start date to the end date,
 skip a day whose quote archive is absent, and otherwise stamp the day's
 quote lines as ticks and aggregate them at the four resolutions, in a
 fixed order, handing each result to the writer.

 Days are whole day numbers since the calendar epoch, so day `d` starts at
 instant `d * DayMs`. The archive lookup, the bid/ask-to-price rule and the
 writer are outside the model: the first two are parameters, and a write is
 recorded as a `Write` value in the order the driver issues it.
 */
module Driver {
  import opened Market
  import opened Aggregation
  import opened BarProperties

  datatype Option<T> = None | Some(value: T)

  /** The bar resolutions the converter writes. */
  datatype Resolution = Second | Minute | Hour | Daily

  /** Length of a resolution's bucket in milliseconds. Each divides a day. */
  function Duration(res: Resolution): (ms: nat)
    ensures ms > 0 && DayMs % ms == 0
    ensures res == Daily <==> ms == DayMs
  {
    match res
    case Second => 1000
    case Minute => 60000
    case Hour => 3600000
    case Daily => DayMs
  }

  /** The resolutions, in the order each day is written. */
  const Resolutions: seq<Resolution> := [Second, Minute, Hour, Daily]

  /** One line of a day's quote archive: milliseconds since the start of the
      day, bid and ask. */
  datatype QuoteLine = QuoteLine(offset: nat, bid: int, ask: int)

  /** One aggregation handed to the writer. */
  datatype Write = Write(symbol: Symbol, day: nat, resolution: Resolution, bars: seq<Bar>)

  /** The tick a quote line of day `day` stands for; `quote` is the rule
      that turns bid and ask into the tick's price. */
  function StampTick(day: nat, line: QuoteLine, quote: (int, int) -> int): Tick {
    Tick(day * DayMs + line.offset, line.bid, line.ask, quote(line.bid, line.ask))
  }

  /** A day's ticks, one per quote line, in file order. */
  function StampTicks(day: nat, lines: seq<QuoteLine>, quote: (int, int) -> int): (ticks: seq<Tick>)
    ensures |ticks| == |lines|
  {
    if |lines| == 0 then []
    else StampTicks(day, lines[..|lines| - 1], quote) + [StampTick(day, lines[|lines| - 1], quote)]
  }

  /** The four writes for one day with data. */
  function DayWrites(symbol: Symbol, day: nat, ticks: seq<Tick>): seq<Write> {
    seq(4, i requires 0 <= i < 4 =>
      Write(symbol, day, Resolutions[i], AggregateTicks(symbol, ticks, Duration(Resolutions[i]))))
  }

  /** The four writes for a day whose archive exists. */
  function WritesOfDay(symbol: Symbol, day: nat,
                       load: (Symbol, nat) -> Option<seq<QuoteLine>>,
                       quote: (int, int) -> int): seq<Write>
    requires load(symbol, day).Some?
  {
    DayWrites(symbol, day, StampTicks(day, load(symbol, day).value, quote))
  }

  /** Everything the driver writes for `symbol`, from day `day` to day `end`
      inclusive. */
  function DriveFrom(symbol: Symbol, day: nat, end: nat,
                     load: (Symbol, nat) -> Option<seq<QuoteLine>>,
                     quote: (int, int) -> int): seq<Write>
    decreases if day <= end then end + 1 - day else 0
  {
    if day > end then []
    else
      var here := if load(symbol, day).Some? then WritesOfDay(symbol, day, load, quote) else [];
      here + DriveFrom(symbol, day + 1, end, load, quote)
  }

  /** The days from `day` to `end` whose archive exists, ascending. */
  function DataDays(symbol: Symbol, day: nat, end: nat,
                    load: (Symbol, nat) -> Option<seq<QuoteLine>>): (days: seq<nat>)
    ensures forall i :: 0 <= i < |days| ==> day <= days[i] <= end && load(symbol, days[i]).Some?
    ensures forall i, j :: 0 <= i < j < |days| ==> days[i] < days[j]
    ensures forall d :: day <= d <= end && load(symbol, d).Some? ==> d in days
    decreases if day <= end then end + 1 - day else 0
  {
    if day > end then []
    else (if load(symbol, day).Some? then [day] else []) + DataDays(symbol, day + 1, end, load)
  }

  // ---------------------------------------------------------------------
  // What the driver writes

  /** `ws` holds, for each day of `days` in turn, that day's four writes:
      write `i` is the `i % 4`-th write of day `days[i / 4]`. */
  ghost predicate DayByDay(symbol: Symbol, ws: seq<Write>, days: seq<nat>,
                           load: (Symbol, nat) -> Option<seq<QuoteLine>>,
                           quote: (int, int) -> int)
  {
    && |ws| == 4 * |days|
    && forall i :: 0 <= i < |ws| ==>
         && i / 4 < |days| && load(symbol, days[i / 4]).Some?
         && ws[i] == WritesOfDay(symbol, days[i / 4], load, quote)[i % 4]
  }

  /** The driver's writes are the writes of the days with data, day by day. */
  lemma {:induction false} DriveIndex(symbol: Symbol, start: nat, end: nat,
                                      load: (Symbol, nat) -> Option<seq<QuoteLine>>,
                                      quote: (int, int) -> int)
    ensures DayByDay(symbol, DriveFrom(symbol, start, end, load, quote),
                     DataDays(symbol, start, end, load), load, quote)
    decreases if start <= end then end + 1 - start else 0
  {
    if start <= end {
      var rest := DriveFrom(symbol, start + 1, end, load, quote);
      var restDays := DataDays(symbol, start + 1, end, load);
      DriveIndex(symbol, start + 1, end, load, quote);
      if load(symbol, start).Some? {
        DayByDayCons(symbol, start, rest, restDays, load, quote);
        assert DriveFrom(symbol, start, end, load, quote) == WritesOfDay(symbol, start, load, quote) + rest;
        assert DataDays(symbol, start, end, load) == [start] + restDays;
      } else {
        assert DriveFrom(symbol, start, end, load, quote) == rest;
        assert DataDays(symbol, start, end, load) == restDays;
      }
    }
  }

  lemma {:induction false} DayByDayCons(symbol: Symbol, d: nat, rest: seq<Write>, restDays: seq<nat>,
                                        load: (Symbol, nat) -> Option<seq<QuoteLine>>,
                                        quote: (int, int) -> int)
    requires load(symbol, d).Some?
    requires DayByDay(symbol, rest, restDays, load, quote)
    ensures DayByDay(symbol, WritesOfDay(symbol, d, load, quote) + rest, [d] + restDays, load, quote)
  {
    var here := WritesOfDay(symbol, d, load, quote);
    var ws, days := here + rest, [d] + restDays;
    forall i | 0 <= i < |ws|
      ensures i / 4 < |days| && load(symbol, days[i / 4]).Some?
      ensures ws[i] == WritesOfDay(symbol, days[i / 4], load, quote)[i % 4]
    {
      QuarterBound(i, |days|);
      if i < 4 {
        assert ws[i] == here[i];
      } else {
        ConcatIndex(here, rest, i);
        assert days[i / 4] == restDays[(i - 4) / 4];
      }
    }
  }

  lemma {:induction false} QuarterBound(i: nat, n: nat)
    requires i < 4 * n
    ensures i / 4 < n
  {
  }

  lemma {:induction false} ConcatIndex(here: seq<Write>, rest: seq<Write>, i: nat)
    requires |here| == 4 && 4 <= i < 4 + |rest|
    ensures (here + rest)[i] == rest[i - 4]
    ensures (i - 4) / 4 == i / 4 - 1 && (i - 4) % 4 == i % 4
  {
    DivModUnique(i, 4, (i - 4) / 4 + 1, (i - 4) % 4);
  }

  /** Write `i` carries the symbol, the `i / 4`-th day with data and the
      `i % 4`-th resolution, and holds the aggregation of that day's full
      tick list at that resolution. */
  lemma {:induction false} DriveWrites(symbol: Symbol, start: nat, end: nat,
                                       load: (Symbol, nat) -> Option<seq<QuoteLine>>,
                                       quote: (int, int) -> int)
    ensures var ws := DriveFrom(symbol, start, end, load, quote);
      var days := DataDays(symbol, start, end, load);
      && |ws| == 4 * |days|
      && forall i :: 0 <= i < |ws| ==>
           && i / 4 < |days|
           && ws[i].symbol == symbol
           && ws[i].day == days[i / 4]
           && ws[i].resolution == Resolutions[i % 4]
           && load(symbol, ws[i].day).Some?
           && ws[i].bars == AggregateTicks(symbol,
                StampTicks(ws[i].day, load(symbol, ws[i].day).value, quote),
                Duration(ws[i].resolution))
  {
    DriveIndex(symbol, start, end, load, quote);
  }

  /** Days are written in ascending order, each day's writes together, and
      within a day in the order Second, Minute, Hour, Daily. */
  lemma {:induction false} WritesInOrder(symbol: Symbol, start: nat, end: nat,
                                         load: (Symbol, nat) -> Option<seq<QuoteLine>>,
                                         quote: (int, int) -> int)
    ensures var ws := DriveFrom(symbol, start, end, load, quote);
      forall i, j :: 0 <= i < j < |ws| ==>
        || ws[i].day < ws[j].day
        || (ws[i].day == ws[j].day && Index(ws[i].resolution) < Index(ws[j].resolution))
  {
    var ws := DriveFrom(symbol, start, end, load, quote);
    var days := DataDays(symbol, start, end, load);
    DriveIndex(symbol, start, end, load, quote);
    forall i, j | 0 <= i < j < |ws|
      ensures || ws[i].day < ws[j].day
              || (ws[i].day == ws[j].day && Index(ws[i].resolution) < Index(ws[j].resolution))
    {
      if i / 4 < j / 4 {
        assert days[i / 4] < days[j / 4];
      } else {
        DivModUnique(i, 4, i / 4, i % 4);
        DivModUnique(j, 4, j / 4, j % 4);
        IndexOfResolution(i % 4);
        IndexOfResolution(j % 4);
      }
    }
  }

  /** Position of a resolution in the writing order. */
  function Index(res: Resolution): (i: nat)
    ensures i < 4 && Resolutions[i] == res
  {
    match res
    case Second => 0
    case Minute => 1
    case Hour => 2
    case Daily => 3
  }

  lemma {:induction false} IndexOfResolution(i: nat)
    requires i < 4
    ensures Index(Resolutions[i]) == i
  {
  }

  /** A day is written exactly when it lies in the range and its archive
      exists; then it is written once at each resolution. */
  lemma {:induction false} WrittenDays(symbol: Symbol, start: nat, end: nat,
                                       load: (Symbol, nat) -> Option<seq<QuoteLine>>,
                                       quote: (int, int) -> int, d: nat, res: Resolution)
    ensures var ws := DriveFrom(symbol, start, end, load, quote);
      (exists i :: 0 <= i < |ws| && ws[i].day == d && ws[i].resolution == res)
      <==> (start <= d <= end && load(symbol, d).Some?)
  {
    var ws := DriveFrom(symbol, start, end, load, quote);
    var days := DataDays(symbol, start, end, load);
    DriveIndex(symbol, start, end, load, quote);
    if start <= d <= end && load(symbol, d).Some? {
      var k :| 0 <= k < |days| && days[k] == d;
      var i := 4 * k + Index(res);
      DivModUnique(i, 4, k, Index(res));
      assert ws[i].day == d && ws[i].resolution == res;
    }
  }

  // ---------------------------------------------------------------------
  // Stamping

  /** A stamped tick lies `offset` milliseconds after the start of its day,
      and in a bucket that starts at the day start plus the floored offset. */
  lemma {:induction false} StampedBucket(day: nat, line: QuoteLine, quote: (int, int) -> int, res: Resolution)
    ensures StampTick(day, line, quote).time - day * DayMs == line.offset
    ensures Key(StampTick(day, line, quote), Duration(res))
            == day * DayMs + RoundDown(line.offset, Duration(res))
  {
    RoundDownFromDayStart(day, line.offset, Duration(res));
  }

  /** The ticks of a day are its quote lines, each stamped at the day start
      plus its offset, with the price given by `quote`. */
  lemma {:induction false} StampTicksLines(day: nat, lines: seq<QuoteLine>, quote: (int, int) -> int)
    ensures var ticks := StampTicks(day, lines, quote);
      forall i :: 0 <= i < |lines| ==>
        && ticks[i].time == day * DayMs + lines[i].offset
        && ticks[i].bid == lines[i].bid && ticks[i].ask == lines[i].ask
        && ticks[i].price == quote(lines[i].bid, lines[i].ask)
  {
    if |lines| > 0 {
      StampTicksLines(day, lines[..|lines| - 1], quote);
    }
  }

  /** When every offset stays within the day, the daily aggregation of a day
      yields at most one bar, and it starts at the day start. */
  lemma {:induction false} DailyBarIsTheDay(symbol: Symbol, day: nat, lines: seq<QuoteLine>,
                                            quote: (int, int) -> int)
    requires forall i :: 0 <= i < |lines| ==> lines[i].offset < DayMs
    ensures var bars := AggregateTicks(symbol, StampTicks(day, lines, quote), DayMs);
      |bars| <= 1 && forall j :: 0 <= j < |bars| ==> bars[j].time == day * DayMs
  {
    var ticks := StampTicks(day, lines, quote);
    var key := BucketOf(DayMs);
    StampTicksLines(day, lines, quote);
    forall q | 0 <= q < |ticks| ensures key(ticks[q]) == day * DayMs {
      RoundDownFromDayStart(day, lines[q].offset, DayMs);
      RoundDownUnique(lines[q].offset, DayMs, 0);
    }
    OneKeyOneBar(symbol, ticks, key, day * DayMs);
  }

  // ---------------------------------------------------------------------
  // The loops of the driver

  /** The driver as written: a date cursor from `start` to `end`, a read of
      each existing archive into a tick list, then one aggregation and write
      per resolution. */
  method RunDays(symbol: Symbol, start: nat, end: nat,
                 load: (Symbol, nat) -> Option<seq<QuoteLine>>,
                 quote: (int, int) -> int) returns (writes: seq<Write>)
    ensures writes == DriveFrom(symbol, start, end, load, quote)
    ensures |writes| == 4 * |DataDays(symbol, start, end, load)|
  {
    writes := [];
    var date := start;
    ghost var all := DriveFrom(symbol, start, end, load, quote);
    while date <= end
      invariant start <= date
      invariant start <= end ==> date <= end + 1
      invariant writes + DriveFrom(symbol, date, end, load, quote) == all
      decreases if date <= end then end + 1 - date else 0
    {
      DriveStep(symbol, date, end, load, quote);
      var archive := load(symbol, date);
      if archive.Some? {
        var lines := archive.value;
        var ticks := ReadTicks(date, lines, quote);
        var day := WriteDay(symbol, date, ticks);
        writes := writes + day;
      }
      date := date + 1;
    }
    DriveIndex(symbol, start, end, load, quote);
  }

  /** The writes of one day with data: one aggregation of the day's full
      tick list per resolution, in the fixed order. */
  method WriteDay(symbol: Symbol, day: nat, ticks: seq<Tick>) returns (ws: seq<Write>)
    ensures ws == DayWrites(symbol, day, ticks)
    ensures |ws| == 4 && forall k :: 0 <= k < 4 ==> ws[k].resolution == Resolutions[k]
  {
    ws := [];
    var k := 0;
    while k < 4
      invariant 0 <= k <= 4
      invariant ws == DayWrites(symbol, day, ticks)[..k]
    {
      var res := Resolutions[k];
      var bars := AggregateTicks(symbol, ticks, Duration(res));
      ws := ws + [Write(symbol, day, res, bars)];
      k := k + 1;
    }
  }

  /** One turn of the date cursor. */
  lemma {:induction false} DriveStep(symbol: Symbol, day: nat, end: nat,
                                     load: (Symbol, nat) -> Option<seq<QuoteLine>>,
                                     quote: (int, int) -> int)
    requires day <= end
    ensures DriveFrom(symbol, day, end, load, quote)
            == (if load(symbol, day).Some? then WritesOfDay(symbol, day, load, quote) else [])
               + DriveFrom(symbol, day + 1, end, load, quote)
  {
  }

  /** Reading an archive: one tick per line, stamped at the day start. */
  method ReadTicks(day: nat, lines: seq<QuoteLine>, quote: (int, int) -> int) returns (ticks: seq<Tick>)
    ensures ticks == StampTicks(day, lines, quote)
    ensures forall i :: 0 <= i < |lines| ==> ticks[i].time == day * DayMs + lines[i].offset
  {
    ticks := [];
    var j := 0;
    while j < |lines|
      invariant 0 <= j <= |lines|
      invariant ticks == StampTicks(day, lines[..j], quote)
    {
      assert lines[..j + 1][..j] == lines[..j];
      ticks := ticks + [StampTick(day, lines[j], quote)];
      j := j + 1;
    }
    assert lines[..|lines|] == lines;
    StampTicksLines(day, lines, quote);
  }
}
