/**
 Worked examples of the converter on concrete days. Prices are in units of
 0.0001, so 1.1000 is written 11000.
 */
module Scenarios {
  import opened Market
  import opened Aggregation
  import opened BarProperties
  import opened Driver

  /** `GroupBy` over keys `x, x, y`: the first two ticks share a bar. */
  lemma {:induction false} TwoThenOne(symbol: Symbol, a: Tick, b: Tick, c: Tick, key: Tick -> nat)
    requires key(a) == key(b) != key(c)
    ensures AggregateBy(symbol, [a, b, c], key)
            == [ToBar(symbol, Group(key(a), [a, b])), ToBar(symbol, Group(key(c), [c]))]
  {
    assert [a, b, c][..2] == [a, b];
    assert [a, b][..1] == [a];
    assert [a][..0] == [];
    assert GroupByKey([a], key) == [Group(key(a), [a])];
    assert IndexOfKey([Group(key(a), [a])], key(b)) == 0;
    assert [a] + [b] == [a, b];
    assert GroupByKey([a, b], key) == [Group(key(a), [a, b])];
    assert IndexOfKey([Group(key(a), [a, b])], key(c)) == 1;
    assert GroupByKey([a, b, c], key) == [Group(key(a), [a, b]), Group(key(c), [c])];
  }

  /** One-minute bars of three quotes at 09:30:00.100, 09:30:45.000 and
      09:31:00.050 on any day: two bars, 09:30 and 09:31. */
  lemma {:induction false} MinuteBarsOfThreeQuotes(symbol: Symbol, day: nat)
    ensures var d := day * DayMs;
      var ticks := [Tick(d + 34200100, 0, 0, 11000), Tick(d + 34245000, 0, 0, 11005),
                    Tick(d + 34260050, 0, 0, 10998)];
      AggregateTicks(symbol, ticks, 60000)
      == [Bar(symbol, d + 34200000, 11000, 11005, 11000, 11005),
          Bar(symbol, d + 34260000, 10998, 10998, 10998, 10998)]
  {
    var d := day * DayMs;
    var a, b, c := Tick(d + 34200100, 0, 0, 11000), Tick(d + 34245000, 0, 0, 11005),
                   Tick(d + 34260050, 0, 0, 10998);
    var key := BucketOf(60000);
    MinuteOf(day, 34200100, 34200000);
    MinuteOf(day, 34245000, 34200000);
    MinuteOf(day, 34260050, 34260000);
    TwoThenOne(symbol, a, b, c, key);
    assert MaxPrice([a, b]) == 11005 && MinPrice([a, b]) == 11000;
    assert MaxPrice([c]) == 10998 && MinPrice([c]) == 10998;
  }

  /** The one-minute bucket of offset `off` into day `day`, given the
      bucket `m` of the offset within the day. */
  lemma {:induction false} MinuteOf(day: nat, off: nat, m: nat)
    requires m % 60000 == 0 && m <= off < m + 60000
    ensures RoundDown(day * DayMs + off, 60000) == day * DayMs + m
  {
    RoundDownFromDayStart(day, off, 60000);
    RoundDownUnique(off, 60000, m);
  }

  /** A single quote at midnight, at daily resolution: one flat bar starting
      at the day start. */
  lemma {:induction false} DailyBarOfMidnightQuote(symbol: Symbol, day: nat)
    ensures AggregateTicks(symbol, [Tick(day * DayMs, 0, 0, 12500)], Duration(Daily))
            == [Bar(symbol, day * DayMs, 12500, 12500, 12500, 12500)]
  {
    SingleTickBar(symbol, Tick(day * DayMs, 0, 0, 12500), DayMs);
    RoundDownFromDayStart(day, 0, DayMs);
  }

  /** A day whose archive is absent adds no writes: the writes of the range
      are those of the days after it. */
  lemma {:induction false} AbsentDaySkipped(symbol: Symbol, day: nat, end: nat,
                                            load: (Symbol, nat) -> Option<seq<QuoteLine>>,
                                            quote: (int, int) -> int)
    requires day <= end && load(symbol, day) == None
    ensures DriveFrom(symbol, day, end, load, quote) == DriveFrom(symbol, day + 1, end, load, quote)
  {
    DriveStep(symbol, day, end, load, quote);
  }

  /** An archive that exists but holds no quotes is not skipped: the day is
      still written four times, each time with no bars. */
  lemma {:induction false} EmptyArchiveWritten(symbol: Symbol, day: nat,
                                               load: (Symbol, nat) -> Option<seq<QuoteLine>>,
                                               quote: (int, int) -> int)
    requires load(symbol, day) == Some([])
    ensures DriveFrom(symbol, day, day, load, quote)
            == [Write(symbol, day, Second, []), Write(symbol, day, Minute, []),
                Write(symbol, day, Hour, []), Write(symbol, day, Daily, [])]
  {
    DriveStep(symbol, day, day, load, quote);
    assert StampTicks(day, [], quote) == [];
    forall r: nat | r > 0 ensures AggregateTicks(symbol, [], r) == [] {
      NoTicksNoBars(symbol, r);
    }
  }
}
