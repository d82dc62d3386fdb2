/**
 The market data entities of the tick-to-bar converter: a quote tick, an OHLC
 bar, and the time bucketing (`RoundDown`) that assigns a tick to a bar.

 Instants are whole milliseconds since the calendar epoch, so they are never
 negative; prices are integers standing in for the source's decimals.
 */
module Market {

  /** Milliseconds in one calendar day. */
  const DayMs: nat := 86400000

  /** Instrument identity; opaque to the aggregation and carried through unchanged. */
  type Symbol = string

  /** One quote observation. `price` is the single price the aggregation uses
      (the tick's last price), derived from `bid` and `ask` by a rule the
      model leaves open. */
  datatype Tick = Tick(time: nat, bid: int, ask: int, price: int)

  /** An open/high/low/close bar; `time` is the start of its bucket. */
  datatype Bar = Bar(symbol: Symbol, time: nat, open: int, high: int, low: int, close: int)

  /** Floors instant `t` to a multiple of the interval `r`: the start of the
      bucket `[k, k + r)` holding `t`. */
  function RoundDown(t: nat, r: nat): (k: nat)
    requires r > 0
    ensures k <= t < k + r
  {
    t - t % r
  }

  /** Every bucket starts on a multiple of the interval. */
  lemma {:induction false} RoundDownAligned(t: nat, r: nat)
    requires r > 0
    ensures RoundDown(t, r) % r == 0
  {
    DivModUnique(t - t % r, r, t / r, 0);
  }

  /** The bucket start is the only multiple of `r` within `r` below `t`. */
  lemma {:induction false} RoundDownUnique(t: nat, r: nat, k: nat)
    requires r > 0
    requires k % r == 0 && k <= t < k + r
    ensures RoundDown(t, r) == k
  {
    RoundDownAligned(t, r);
    MultiplesApart(k, RoundDown(t, r), r);
  }

  /** Bucketing is monotone: a later instant never lands in an earlier bucket. */
  lemma {:induction false} RoundDownMonotone(t: nat, u: nat, r: nat)
    requires r > 0
    requires t <= u
    ensures RoundDown(t, r) <= RoundDown(u, r)
  {
    var a, b := RoundDown(t, r), RoundDown(u, r);
    RoundDownAligned(t, r);
    RoundDownAligned(u, r);
    if b < a {
      MultiplesApart(a, b, r);
    }
  }

  /** Two instants share a bucket exactly when the second lies in the
      interval that starts at the first one's bucket. */
  lemma {:induction false} SameBucket(t: nat, u: nat, r: nat)
    requires r > 0
    ensures RoundDown(t, r) == RoundDown(u, r)
            <==> (RoundDown(t, r) <= u < RoundDown(t, r) + r)
  {
    var a := RoundDown(t, r);
    RoundDownAligned(t, r);
    if a <= u < a + r {
      RoundDownUnique(u, r, a);
    }
  }

  /** Flooring from the absolute epoch agrees with flooring from the start of
      the day when the interval divides a day: the bucket of `off`
      milliseconds into day `day` is the day start plus the floored offset. */
  lemma {:induction false} RoundDownFromDayStart(day: nat, off: nat, r: nat)
    requires r > 0 && DayMs % r == 0
    ensures RoundDown(day * DayMs + off, r) == day * DayMs + RoundDown(off, r)
  {
    var m := DayMs / r;
    var f := RoundDown(off, r);
    RoundDownAligned(off, r);
    assert DayMs == r * m;
    assert day * DayMs == r * (day * m);
    assert f == r * (f / r);
    var k := day * DayMs + f;
    assert k == r * (day * m + f / r);
    DivModUnique(k, r, day * m + f / r, 0);
    RoundDownUnique(day * DayMs + off, r, k);
  }

  /** Two multiples of `r` closer than `r` to each other are equal. */
  lemma {:induction false} MultiplesApart(a: nat, b: nat, r: nat)
    requires r > 0
    requires a % r == 0 && b % r == 0
    requires a < b + r && b < a + r
    ensures a == b
  {
    var qa, qb := a / r, b / r;
    assert r * qa - r * qb == r * (qa - qb);
    SmallMultipleIsZero(r, qa - qb);
  }

  /** Quotient and remainder are determined by any decomposition
      `x == d * q + m` with `0 <= m < d`. */
  lemma {:induction false} DivModUnique(x: int, d: int, q: int, m: int)
    requires d > 0 && 0 <= m < d && x == d * q + m
    ensures x / d == q && x % d == m
  {
    var q' := x / d;
    assert d * q - d * q' == d * (q - q');
    SmallMultipleIsZero(d, q - q');
  }

  lemma {:induction false} SmallMultipleIsZero(d: int, z: int)
    requires d > 0 && -d < d * z < d
    ensures z == 0
  {
    if z >= 1 {
      MulNonNegative(d, z - 1);
      MulPred(d, z);
    } else if z <= -1 {
      MulNonNegative(d, -z - 1);
      MulPred(d, -z);
    }
  }

  lemma {:induction false} MulNonNegative(a: int, b: int)
    requires a >= 0 && b >= 0
    ensures a * b >= 0
  {
  }

  lemma {:induction false} MulPred(d: int, z: int)
    ensures d * z == d * (z - 1) + d
  {
  }
}
