/**
 The revenue forecast: a mean scaled by weekday factors and a clamped trend, with a confidence
 band. Amounts are real numbers; `int()` drops the fraction.
 */
module Forecast {
  import opened Numbers

  type Weekday = w: int | 0 <= w < 7

  datatype Day = Day(weekday: Weekday, revenue: real)

  datatype Point = Point(predicted: int, low: int, high: int)

  function Clamp(x: real, lo: real, hi: real): real { MaxR(lo, MinR(hi, x)) }

  function Truncate(x: real): int { if x < 0.0 then -((-x).Floor) else x.Floor }

  function Ratio(a: real, d: real): real
    requires d != 0.0
  {
    a / d
  }

  function Sum(values: seq<real>): real {
    if values == [] then 0.0 else Sum(values[..|values| - 1]) + values[|values| - 1]
  }

  function Average(values: seq<real>): real
    requires values != []
  {
    Ratio(Sum(values), |values| as real)
  }

  function Revenues(series: seq<Day>): (r: seq<real>)
    ensures |r| == |series| && forall i :: 0 <= i < |r| ==> r[i] == series[i].revenue
  {
    seq(|series|, i requires 0 <= i < |series| => series[i].revenue)
  }

  /** `day_factors[w]`: the revenues of one weekday, in order. */
  function RevenuesOn(series: seq<Day>, w: Weekday): seq<real> {
    if series == [] then []
    else
      var last := series[|series| - 1];
      RevenuesOn(series[..|series| - 1], w) + if last.weekday == w then [last.revenue] else []
  }

  function Mean(series: seq<Day>): real
    requires series != []
  {
    Average(Revenues(series))
  }

  function WeekdayAverage(series: seq<Day>, w: Weekday): real
    requires series != []
  {
    if RevenuesOn(series, w) != [] then Average(RevenuesOn(series, w)) else Mean(series)
  }

  function WeekdayFactor(series: seq<Day>, w: Weekday): real
    requires series != []
  {
    Ratio(WeekdayAverage(series, w), MaxR(Mean(series), 1.0))
  }

  /** The number of days the trend looks at, at most two weeks. */
  function TrendWindow(series: seq<Day>): nat { if |series| < 14 then |series| else 14 }

  function RecentAverage(series: seq<Day>): real
    requires series != []
  {
    Average(Revenues(series)[|series| - TrendWindow(series)..])
  }

  /** The average of the window before the recent one, or the mean when there is none. */
  function PastAverage(series: seq<Day>): real
    requires series != []
  {
    var window := TrendWindow(series);
    if |series| >= window * 2 then Average(Revenues(series)[|series| - window * 2..|series| - window]) else Mean(series)
  }

  function TrendRatio(series: seq<Day>): real
    requires series != []
  {
    Clamp(Ratio(RecentAverage(series), MaxR(PastAverage(series), 1.0)), 0.85, 1.2)
  }

  function AbsR(x: real): real { if x < 0.0 then -x else x }

  function ConfidenceBand(trend: real): real {
    Clamp(Clamp(AbsR(trend - 1.0) * 100.0 + 7.5, 5.0, 25.0) / 100.0, 0.08, 0.2)
  }

  function Span(days: nat): (r: real)
    ensures r >= 1.0
  {
    if days > 1 then (days - 1) as real else 1.0
  }

  /** How much of the trend has been reached on day `idx`. */
  function Progress(idx: nat, days: nat): real { MinR(1.0, Ratio(idx as real, Span(days))) }

  function StepTrend(trend: real, idx: nat, days: nat): real {
    1.0 + (trend - 1.0) * Progress(idx, days)
  }

  /** The level of a weekday before the trend. */
  function Level(series: seq<Day>, w: Weekday): real
    requires series != []
  {
    Mean(series) * WeekdayFactor(series, w)
  }

  /** The prediction before truncation, for the `idx`-th day counted from weekday `first`. */
  function Predicted(series: seq<Day>, first: Weekday, days: nat, idx: nat): real
    requires series != []
  {
    MaxR(0.0, Level(series, (first + idx) % 7) * StepTrend(TrendRatio(series), idx, days))
  }

  function Banded(predicted: real, band: real): Point {
    Point(
      Truncate(predicted),
      Truncate(MaxR(0.0, predicted * (1.0 - band))),
      Truncate(MaxR(0.0, predicted * (1.0 + band))))
  }

  function ForecastPoint(series: seq<Day>, first: Weekday, days: nat, idx: nat): Point
    requires series != []
  {
    Banded(Predicted(series, first, days, idx), ConfidenceBand(TrendRatio(series)))
  }

  const BASELINE: real := 4200000.0

  /** Without history a fixed weekly wave around the baseline is returned. */
  function FallbackPoint(idx: nat): Point {
    var predicted := BASELINE * (1.0 + 0.015 * (idx % 7 - 3) as real);
    Point(Truncate(MaxR(0.0, predicted)), Truncate(MaxR(0.0, predicted * 0.86)), Truncate(MaxR(0.0, predicted * 1.14)))
  }

  method BuildRevenueForecast(rows: seq<Day>, first: Weekday, days: nat) returns (points: seq<Point>)
    ensures |points| == days
    ensures rows == [] ==> forall i :: 0 <= i < days ==> points[i] == FallbackPoint(i)
    ensures rows != [] ==> forall i :: 0 <= i < days ==> points[i] == ForecastPoint(Floored(rows), first, days, i)
  {
    hide WeekdayFactor, RevenuesOn, TrendRatio, StepTrend, ConfidenceBand, Banded, Mean, FallbackPoint, Average;
    points := [];
    if rows == [] {
      for idx := 0 to days
        invariant |points| == idx && forall i :: 0 <= i < idx ==> points[i] == FallbackPoint(i)
      {
        points := points + [FallbackPoint(idx)];
      }
      return;
    }
    var series := Floored(rows);
    NoRevenues(series);
    var dayFactors: seq<seq<real>> := [[], [], [], [], [], [], []];   // one list per weekday
    for n := 0 to |series|
      invariant |dayFactors| == 7
      invariant forall w: Weekday :: dayFactors[w] == RevenuesOn(series[..n], w)
    {
      RevenuesOnStep(series, n);
      var day := series[n];
      dayFactors := dayFactors[day.weekday := dayFactors[day.weekday] + [day.revenue]];
    }
    assert series[..|series|] == series;
    var mean := Mean(series);
    var weekdayFactor: seq<real> := [];
    for w := 0 to 7
      invariant |weekdayFactor| == w
      invariant forall v: Weekday :: v < w ==> weekdayFactor[v] == WeekdayFactor(series, v)
    {
      FactorIs(series, w);
      var average := if dayFactors[w] != [] then Average(dayFactors[w]) else mean;
      weekdayFactor := weekdayFactor + [Ratio(average, MaxR(mean, 1.0))];
    }
    var trend := TrendRatio(series);
    var band := ConfidenceBand(trend);
    for idx := 0 to days
      invariant |points| == idx
      invariant forall i :: 0 <= i < idx ==> points[i] == ForecastPoint(series, first, days, i)
    {
      var seasonal := weekdayFactor[(first + idx) % 7];
      var predicted := MaxR(0.0, mean * seasonal * StepTrend(trend, idx, days));
      assert predicted == Predicted(series, first, days, idx);
      points := points + [Banded(predicted, band)];
    }
  }

  lemma RevenuesOnStep(series: seq<Day>, n: nat)
    requires n < |series|
    ensures forall w: Weekday :: (RevenuesOn(series[..n + 1], w) ==
      RevenuesOn(series[..n], w) + if series[n].weekday == w then [series[n].revenue] else [])
  {
    assert series[..n + 1][..n] == series[..n];
  }

  lemma NoRevenues(series: seq<Day>)
    ensures forall w: Weekday :: RevenuesOn(series[..0], w) == []
  {
  }

  lemma FactorIs(series: seq<Day>, w: Weekday)
    requires series != []
    ensures WeekdayFactor(series, w) ==
      Ratio(if RevenuesOn(series, w) != [] then Average(RevenuesOn(series, w)) else Mean(series),
            MaxR(Mean(series), 1.0))
  {
  }

  /** Negative revenues are read as zero. */
  function Floored(rows: seq<Day>): (series: seq<Day>)
    ensures |series| == |rows| && NonNegative(series)
  {
    seq(|rows|, i requires 0 <= i < |rows| => rows[i].(revenue := MaxR(0.0, rows[i].revenue)))
  }

  ghost predicate NonNegative(series: seq<Day>) {
    forall i :: 0 <= i < |series| ==> series[i].revenue >= 0.0
  }

  // ----- real arithmetic -----

  lemma MulNonNegative(x: real, y: real)
    requires x >= 0.0 && y >= 0.0
    ensures x * y >= 0.0
  {
  }

  lemma MulMonotone(x: real, a: real, b: real)
    requires x >= 0.0 && a <= b
    ensures x * a <= x * b
  {
    MulNonNegative(x, b - a);
    assert x * (b - a) == x * b - x * a;
  }

  lemma NegateTimes(x: real, y: real)
    ensures (-x) * y == -(x * y)
  {
  }

  lemma MulCancel(x: real, a: real, b: real)
    requires x > 0.0 && x * a <= x * b
    ensures a <= b
  {
  }

  lemma RatioTimes(a: real, d: real)
    requires d != 0.0
    ensures d * Ratio(a, d) == a
  {
  }

  lemma RatioSum(a: real, b: real, d: real)
    requires d > 0.0
    ensures Ratio(a, d) + Ratio(b, d) == Ratio(a + b, d)
  {
  }

  lemma RatioIs(q: real, a: real, d: real)
    requires d > 0.0 && d * q == a
    ensures q == Ratio(a, d)
  {
  }

  /** `n` times the average of `n` values is their sum, whatever both are divided by. */
  lemma RatioOfAverage(s: real, n: real, d: real)
    requires n > 0.0 && d > 0.0
    ensures n * Ratio(Ratio(s, n), d) == Ratio(s, d)
  {
    hide Ratio;
    var a := Ratio(s, n);
    var q := Ratio(a, d);
    RatioTimes(s, n);
    RatioTimes(a, d);
    assert d * (n * q) == n * (d * q);
    RatioIs(n * q, s, d);
  }

  // ----- bounds -----

  ghost predicate Within(values: seq<real>, lo: real, hi: real) {
    forall i :: 0 <= i < |values| ==> lo <= values[i] <= hi
  }

  lemma {:induction false} SumWithin(values: seq<real>, lo: real, hi: real)
    requires Within(values, lo, hi)
    ensures |values| as real * lo <= Sum(values) <= |values| as real * hi
  {
    if values != [] {
      var n := |values| - 1;
      SumWithin(values[..n], lo, hi);
      assert |values| as real * lo == n as real * lo + lo;
      assert |values| as real * hi == n as real * hi + hi;
    }
  }

  lemma RatioBounds(s: real, n: real, lo: real, hi: real)
    requires n > 0.0 && n * lo <= s <= n * hi
    ensures lo <= Ratio(s, n) <= hi
  {
    hide Ratio;
    RatioTimes(s, n);
    MulCancel(n, lo, Ratio(s, n));
    MulCancel(n, Ratio(s, n), hi);
  }

  lemma AverageWithin(values: seq<real>, lo: real, hi: real)
    requires values != [] && Within(values, lo, hi)
    ensures lo <= Average(values) <= hi
  {
    SumWithin(values, lo, hi);
    RatioBounds(Sum(values), |values| as real, lo, hi);
  }

  lemma {:induction false} RevenuesOnWithin(series: seq<Day>, w: Weekday, lo: real, hi: real)
    requires Within(Revenues(series), lo, hi)
    ensures Within(RevenuesOn(series, w), lo, hi)
  {
    if series != [] {
      var front := series[..|series| - 1];
      assert forall i :: 0 <= i < |front| ==> Revenues(front)[i] == Revenues(series)[i];
      assert Revenues(series)[|series| - 1] == series[|series| - 1].revenue;
      RevenuesOnWithin(front, w, lo, hi);
    }
  }

  /** Mean times weekday factor is at most the weekday average, and equal to it for a mean of at least one. */
  lemma SeasonalLevel(mean: real, average: real)
    requires mean >= 0.0 && average >= 0.0
    ensures 0.0 <= mean * Ratio(average, MaxR(mean, 1.0)) <= average
    ensures mean >= 1.0 ==> mean * Ratio(average, MaxR(mean, 1.0)) == average
  {
    hide Ratio;
    RatioTimes(average, MaxR(mean, 1.0));
    ShareOf(mean, MaxR(mean, 1.0), Ratio(average, MaxR(mean, 1.0)), average);
  }

  lemma ShareOf(mean: real, d: real, q: real, average: real)
    requires 0.0 <= mean <= d && d > 0.0 && d * q == average && average >= 0.0
    ensures 0.0 <= mean * q <= average
    ensures mean == d ==> mean * q == average
  {
    MulCancel(d, 0.0, q);
    MulNonNegative(mean, q);
    MulMonotone(q, mean, d);
  }

  lemma TrendWithin(series: seq<Day>)
    requires series != []
    ensures 0.85 <= TrendRatio(series) <= 1.2
  {
  }

  lemma StepTrendWithin(trend: real, idx: nat, days: nat)
    requires 0.85 <= trend <= 1.2
    ensures 0.85 <= StepTrend(trend, idx, days) <= 1.2
  {
    hide Progress;
    var f := Progress(idx, days);
    ProgressWithin(idx, days);
    assert StepTrend(trend, idx, days) == 1.0 + (trend - 1.0) * f;
    if trend >= 1.0 {
      ScaledPositive(trend - 1.0, f);
    } else {
      var y := trend - 1.0;
      ScaledNegative(y, f);
      assert y >= -0.15;
      assert (trend - 1.0) * f == y * f;
    }
  }

  lemma ScaledPositive(y: real, f: real)
    requires y >= 0.0 && 0.0 <= f <= 1.0
    ensures 0.0 <= y * f <= y
  {
    MulNonNegative(y, f);
    MulMonotone(y, f, 1.0);
  }

  lemma ScaledNegative(y: real, f: real)
    requires y <= 0.0 && 0.0 <= f <= 1.0
    ensures y <= y * f <= 0.0
  {
    MulNonNegative(-y, f);
    MulMonotone(-y, f, 1.0);
    NegateTimes(y, f);
  }

  lemma ProgressWithin(idx: nat, days: nat)
    ensures 0.0 <= Progress(idx, days) <= 1.0
  {
    hide Ratio;
    RatioTimes(idx as real, Span(days));
    MulCancel(Span(days), 0.0, Ratio(idx as real, Span(days)));
  }

  lemma BandWithin(trend: real)
    ensures 0.08 <= ConfidenceBand(trend) <= 0.2
  {
  }

  lemma TimesAtMost(x: real, s: real, hi: real, c: real)
    requires 0.0 <= x <= hi && s <= c && c >= 0.0
    ensures x * s <= c * hi
  {
    MulMonotone(x, s, c);
    MulMonotone(c, x, hi);
  }

  lemma TrendedWithin(x: real, s: real, lo: real, hi: real)
    requires 0.0 <= x <= hi && 0.85 <= s <= 1.2
    ensures 0.0 <= MaxR(0.0, x * s) <= 1.2 * hi
    ensures x >= lo >= 0.0 ==> MaxR(0.0, x * s) >= 0.85 * lo
  {
    MulNonNegative(x, s);
    TimesAtMost(x, s, hi, 1.2);
    if x >= lo >= 0.0 {
      MulMonotone(x, 0.85, s);
      MulMonotone(0.85, lo, x);
    }
  }

  /** The level before the trend. */
  lemma LevelWithin(series: seq<Day>, w: Weekday, lo: real, hi: real)
    requires series != [] && 0.0 <= lo && Within(Revenues(series), lo, hi)
    ensures 0.0 <= Level(series, w) <= hi
    ensures Mean(series) >= 1.0 ==> Level(series, w) >= lo
  {
    hide Average, Within, Ratio;
    AverageWithin(Revenues(series), lo, hi);
    RevenuesOnWithin(series, w, lo, hi);
    if RevenuesOn(series, w) != [] { AverageWithin(RevenuesOn(series, w), lo, hi); }
    SeasonalLevel(Mean(series), WeekdayAverage(series, w));
  }

  /** Every prediction lies between zero and 1.2 times the largest revenue, and, for a mean of at
      least one, not below 0.85 times the smallest. */
  lemma PredictedWithin(series: seq<Day>, first: Weekday, days: nat, idx: nat, lo: real, hi: real)
    requires series != [] && 0.0 <= lo && Within(Revenues(series), lo, hi)
    ensures 0.0 <= Predicted(series, first, days, idx) <= 1.2 * hi
    ensures Mean(series) >= 1.0 ==> Predicted(series, first, days, idx) >= 0.85 * lo
  {
    hide TrendRatio, StepTrend, Mean, Level, Within;
    LevelWithin(series, (first + idx) % 7, lo, hi);
    TrendWithin(series);
    StepTrendWithin(TrendRatio(series), idx, days);
    TrendedWithin(Level(series, (first + idx) % 7), StepTrend(TrendRatio(series), idx, days), lo, hi);
  }

  lemma BandedOrdered(predicted: real, band: real)
    requires predicted >= 0.0 && 0.08 <= band <= 0.2
    ensures var p := Banded(predicted, band);
            && 0 <= p.low <= p.predicted <= p.high
            && 0.8 * predicted - 1.0 < p.low as real && p.high as real <= 1.2 * predicted
  {
    var margin := predicted * band;
    MulNonNegative(predicted, band);
    MulMonotone(predicted, band, 0.2);
    assert margin <= 0.2 * predicted;
    assert predicted * (1.0 - band) == predicted - margin;
    assert predicted * (1.0 + band) == predicted + margin;
    TruncateNear(predicted);
    TruncateNear(predicted - margin);
    TruncateNear(predicted + margin);
    TruncateOrdered(predicted - margin, predicted);
    TruncateOrdered(predicted, predicted + margin);
  }

  lemma TruncateNear(x: real)
    requires x >= 0.0
    ensures 0 <= Truncate(x) && x - 1.0 < Truncate(x) as real <= x
  {
  }

  lemma TruncateOrdered(x: real, y: real)
    requires 0.0 <= x <= y
    ensures Truncate(x) <= Truncate(y)
  {
  }

  /** The forecast, point by point, for any history of daily revenues between `lo` and `hi`. */
  lemma ForecastBounds(series: seq<Day>, first: Weekday, days: nat, idx: nat, lo: real, hi: real)
    requires series != [] && 0.0 <= lo && Within(Revenues(series), lo, hi)
    ensures var p, exact := ForecastPoint(series, first, days, idx), Predicted(series, first, days, idx);
            && 0 <= p.low <= p.predicted <= p.high && p.predicted as real <= 1.2 * hi
            && 0.8 * exact - 1.0 < p.low as real && p.high as real <= 1.2 * exact
    ensures Mean(series) >= 1.0 ==> Predicted(series, first, days, idx) >= 0.85 * lo
  {
    hide Predicted, TrendRatio, ConfidenceBand, Mean;
    PredictedWithin(series, first, days, idx, lo, hi);
    BandWithin(TrendRatio(series));
    BandedOrdered(Predicted(series, first, days, idx), ConfidenceBand(TrendRatio(series)));
    TruncateNear(Predicted(series, first, days, idx));
  }

  /** The points returned without history are ordered as well. */
  lemma FallbackOrdered(idx: nat)
    ensures var p := FallbackPoint(idx); 0 < p.low < p.predicted < p.high
  {
    var d := (idx % 7 - 3) as real;
    assert -3.0 <= d <= 3.0;
    var predicted := BASELINE * (1.0 + 0.015 * d);
    assert 4011000.0 <= predicted <= 4389000.0;
    assert predicted * 0.86 + 2.0 < predicted && predicted + 2.0 < predicted * 1.14;
  }

  /** For a mean of at least one the first day is forecast at its weekday average, and the last of
      several days at that average times the whole trend. */
  lemma FirstAndLastDay(series: seq<Day>, first: Weekday, days: nat)
    requires series != [] && NonNegative(series) && Mean(series) >= 1.0 && days >= 2
    ensures Predicted(series, first, days, 0) == WeekdayAverage(series, first)
    ensures Predicted(series, first, days, days - 1) ==
      WeekdayAverage(series, (first + (days - 1)) % 7) * TrendRatio(series)
  {
    hide TrendRatio, WeekdayAverage, Mean;
    var trend, last := TrendRatio(series), (first + (days - 1)) % 7;
    AveragesNonNegative(series, first);
    AveragesNonNegative(series, last);
    SeasonalLevel(Mean(series), WeekdayAverage(series, first));
    SeasonalLevel(Mean(series), WeekdayAverage(series, last));
    assert first % 7 == first;
    TrendEnds(trend, days);
    TrendWithin(series);
    MulNonNegative(WeekdayAverage(series, last), trend);
  }

  lemma TrendEnds(trend: real, days: nat)
    requires days >= 2
    ensures StepTrend(trend, 0, days) == 1.0 && StepTrend(trend, days - 1, days) == trend
  {
    RatioIs(0.0, 0.0, Span(days));
    RatioIs(1.0, (days - 1) as real, Span(days));
  }

  lemma AveragesNonNegative(series: seq<Day>, w: Weekday)
    requires series != [] && NonNegative(series)
    ensures WeekdayAverage(series, w) >= 0.0
  {
    var hi := Largest(Revenues(series));
    RevenuesOnWithin(series, w, 0.0, hi);
    AverageWithin(Revenues(series), 0.0, hi);
    if RevenuesOn(series, w) != [] { AverageWithin(RevenuesOn(series, w), 0.0, hi); }
  }

  function Largest(values: seq<real>): (r: real)
    ensures forall i :: 0 <= i < |values| ==> values[i] <= r
  {
    if values == [] then 0.0 else MaxR(Largest(values[..|values| - 1]), values[|values| - 1])
  }

  /** The trend rises exactly when the recent average exceeds the one before it (or one, if that is less). */
  lemma TrendRisesIff(series: seq<Day>)
    requires series != []
    ensures TrendRatio(series) > 1.0 <==> RecentAverage(series) > MaxR(PastAverage(series), 1.0)
    ensures TrendRatio(series) < 1.0 <==> RecentAverage(series) < MaxR(PastAverage(series), 1.0)
  {
    hide RecentAverage, PastAverage, Ratio;
    var r, d := RecentAverage(series), MaxR(PastAverage(series), 1.0);
    RatioTimes(r, d);
    QuotientAgainstOne(r, d, Ratio(r, d));
  }

  lemma QuotientAgainstOne(r: real, d: real, q: real)
    requires d > 0.0 && d * q == r
    ensures (q > 1.0 <==> r > d) && (q < 1.0 <==> r < d)
  {
    var gap := d * (q - 1.0);
    assert gap == r - d;
    if q >= 1.0 { MulNonNegative(d, q - 1.0); } else { MulNonNegative(d, 1.0 - q); }
    if gap >= 0.0 { MulCancel(d, 0.0, q - 1.0); }
    if gap <= 0.0 { MulCancel(d, q - 1.0, 0.0); }
  }

  // ----- the parts of the forecast, number by number -----

  /** Negative revenues are read as zero; nothing else changes. */
  lemma FlooredIs(rows: seq<Day>, i: nat)
    requires i < |rows|
    ensures Floored(rows)[i] == if rows[i].revenue < 0.0 then Day(rows[i].weekday, 0.0) else rows[i]
  {
  }

  function SumAll(series: seq<Day>): real {
    if series == [] then 0.0 else SumAll(series[..|series| - 1]) + series[|series| - 1].revenue
  }

  function SumOn(series: seq<Day>, w: Weekday): real {
    if series == [] then 0.0
    else
      var last := series[|series| - 1];
      SumOn(series[..|series| - 1], w) + if last.weekday == w then last.revenue else 0.0
  }

  function CountOn(series: seq<Day>, w: Weekday): nat {
    if series == [] then 0
    else CountOn(series[..|series| - 1], w) + if series[|series| - 1].weekday == w then 1 else 0
  }

  lemma {:induction false} RevenuesOnSums(series: seq<Day>, w: Weekday)
    ensures |RevenuesOn(series, w)| == CountOn(series, w) && Sum(RevenuesOn(series, w)) == SumOn(series, w)
  {
    if series != [] {
      RevenuesOnSums(series[..|series| - 1], w);
      SumAppend(RevenuesOn(series[..|series| - 1], w), series[|series| - 1].revenue);
    }
  }

  lemma {:induction false} RevenuesSum(series: seq<Day>)
    ensures Sum(Revenues(series)) == SumAll(series)
  {
    if series != [] {
      RevenuesSum(series[..|series| - 1]);
      assert Revenues(series)[..|series| - 1] == Revenues(series[..|series| - 1]);
    }
  }

  /** The mean, and the average of a weekday: its own revenues, or the mean where it has none. */
  lemma AveragesAre(series: seq<Day>, w: Weekday)
    requires series != []
    ensures |series| as real * Mean(series) == SumAll(series)
    ensures CountOn(series, w) > 0 ==> CountOn(series, w) as real * WeekdayAverage(series, w) == SumOn(series, w)
    ensures CountOn(series, w) == 0 ==> WeekdayAverage(series, w) == Mean(series)
  {
    hide Ratio, Sum, RevenuesOn, SumOn, CountOn, SumAll;
    RevenuesOnSums(series, w);
    RevenuesSum(series);
    RatioTimes(Sum(Revenues(series)), |series| as real);
    if RevenuesOn(series, w) != [] { RatioTimes(Sum(RevenuesOn(series, w)), |RevenuesOn(series, w)| as real); }
  }

  lemma AverageOfSlice(series: seq<Day>, lo: nat, hi: nat)
    requires lo < hi <= |series|
    ensures (hi - lo) as real * Average(Revenues(series)[lo..hi]) == SumAll(series[lo..hi])
  {
    hide Ratio, Sum, SumAll;
    assert Revenues(series)[lo..hi] == Revenues(series[lo..hi]);
    RevenuesSum(series[lo..hi]);
    RatioTimes(Sum(Revenues(series[lo..hi])), (hi - lo) as real);
  }

  /** The trend compares the last fourteen days with the fourteen before them; a shorter history is
      taken whole, and compared with the mean. */
  lemma TrendAveragesAre(series: seq<Day>)
    requires series != []
    ensures var n := |series|;
            && (n >= 14 ==> 14.0 * RecentAverage(series) == SumAll(series[n - 14..]))
            && (n < 14 ==> n as real * RecentAverage(series) == SumAll(series))
            && (n >= 28 ==> 14.0 * PastAverage(series) == SumAll(series[n - 28..n - 14]))
            && (n < 28 ==> PastAverage(series) == Mean(series))
  {
    hide RecentAverage, PastAverage, SumAll, Mean;
    RecentIs(series);
    PastIs(series);
  }

  lemma SliceToEnd<T>(s: seq<T>, lo: nat)
    requires lo <= |s|
    ensures s[lo..] == s[lo..|s|] && s[0..|s|] == s
  {
  }

  lemma RecentIs(series: seq<Day>)
    requires series != []
    ensures |series| >= 14 ==> 14.0 * RecentAverage(series) == SumAll(series[|series| - 14..])
    ensures |series| < 14 ==> |series| as real * RecentAverage(series) == SumAll(series)
  {
    hide Average, SumAll, Revenues;
    var n := |series|;
    if n >= 14 {
      SliceToEnd(series, n - 14);
      SliceToEnd(Revenues(series), n - 14);
      AverageOfSlice(series, n - 14, n);
    } else {
      SliceToEnd(series, 0);
      SliceToEnd(Revenues(series), 0);
      AverageOfSlice(series, 0, n);
    }
  }

  lemma PastIs(series: seq<Day>)
    requires series != []
    ensures |series| >= 28 ==> 14.0 * PastAverage(series) == SumAll(series[|series| - 28..|series| - 14])
    ensures |series| < 28 ==> PastAverage(series) == Mean(series)
  {
    hide Average, SumAll, Revenues, Mean;
    if |series| >= 28 { AverageOfSlice(series, |series| - 28, |series| - 14); }
  }

  /** The trend is the recent average over the past one (at least one), between 0.85 and 1.2. */
  lemma TrendIs(series: seq<Day>)
    requires series != []
    ensures var r, d, t := RecentAverage(series), MaxR(PastAverage(series), 1.0), TrendRatio(series);
            if r < d * 0.85 then t == 0.85 else if r > d * 1.2 then t == 1.2 else d * t == r
  {
    hide RecentAverage, PastAverage, Ratio;
    var r, d := RecentAverage(series), MaxR(PastAverage(series), 1.0);
    RatioTimes(r, d);
    ClampedQuotient(r, d, Ratio(r, d));
  }

  lemma QuotientAgainst(r: real, d: real, q: real, c: real)
    requires d > 0.0 && d * q == r
    ensures (r < d * c <==> q < c) && (r > d * c <==> q > c)
  {
    if q < c { TimesLess(d, q, c); } else { MulMonotone(d, c, q); }
    if q > c { TimesLess(d, c, q); } else { MulMonotone(d, q, c); }
  }

  lemma ClampedQuotient(r: real, d: real, q: real)
    requires d > 0.0 && d * q == r
    ensures var t := Clamp(q, 0.85, 1.2);
            if r < d * 0.85 then t == 0.85 else if r > d * 1.2 then t == 1.2 else d * t == r
  {
    QuotientAgainst(r, d, q, 0.85);
    QuotientAgainst(r, d, q, 1.2);
  }

  lemma TimesLess(d: real, a: real, b: real)
    requires d > 0.0 && a < b
    ensures d * a < d * b
  {
    MulMonotone(d, a, b);
    if d * a == d * b { MulCancel(d, b, a); }
  }

  /** The band widens with the distance of the trend from one, between 8 and 20 percent. */
  lemma BandIs(trend: real)
    ensures var away, band := if trend < 1.0 then 1.0 - trend else trend - 1.0, ConfidenceBand(trend);
            band == if away < 0.005 then 0.08 else if away > 0.125 then 0.2 else away + 0.075
  {
  }

  /** The trend comes in linearly from the first day to the last. */
  lemma StepTrendIs(trend: real, idx: nat, days: nat)
    requires idx < days
    ensures (days - 1) as real * (StepTrend(trend, idx, days) - 1.0) == idx as real * (trend - 1.0)
    ensures idx == 0 ==> StepTrend(trend, idx, days) == 1.0
  {
    hide Ratio;
    var span, f := (days - 1) as real, Ratio(idx as real, Span(days));
    RatioTimes(idx as real, Span(days));
    if days == 1 {
      assert f == 0.0;
    } else {
      MulCancel(span, f, 1.0);
      assert span * ((trend - 1.0) * f) == (span * f) * (trend - 1.0);
    }
  }

  /** The prediction: the weekday's average, scaled down by a mean of less than one, times the trend of
      the day. */
  lemma PredictedIs(series: seq<Day>, first: Weekday, days: nat, idx: nat)
    requires series != [] && NonNegative(series)
    ensures var w, mean := (first + idx) % 7, Mean(series);
            && Predicted(series, first, days, idx) == Level(series, w) * StepTrend(TrendRatio(series), idx, days)
            && (mean >= 1.0 ==> Level(series, w) == WeekdayAverage(series, w))
            && (mean < 1.0 ==> Level(series, w) == mean * WeekdayAverage(series, w))
  {
    hide TrendRatio, WeekdayAverage, Mean, StepTrend;
    var w, mean, step := (first + idx) % 7, Mean(series), StepTrend(TrendRatio(series), idx, days);
    AveragesNonNegative(series, w);
    MeanNonNegative(series);
    SeasonalLevel(mean, WeekdayAverage(series, w));
    TrendWithin(series);
    StepTrendWithin(TrendRatio(series), idx, days);
    MulNonNegative(Level(series, w), step);
    if mean < 1.0 { OverOne(WeekdayAverage(series, w)); }
  }

  lemma OverOne(x: real)
    ensures Ratio(x, 1.0) == x
  {
  }

  lemma MeanNonNegative(series: seq<Day>)
    requires series != [] && NonNegative(series)
    ensures Mean(series) >= 0.0
  {
    AverageWithin(Revenues(series), 0.0, Largest(Revenues(series)));
  }

  /** The three amounts of a point are the prediction and its band without their fractions. */
  lemma PointIs(series: seq<Day>, first: Weekday, days: nat, idx: nat)
    requires series != [] && NonNegative(series)
    ensures var exact, band := Predicted(series, first, days, idx), ConfidenceBand(TrendRatio(series));
            var p := ForecastPoint(series, first, days, idx);
            && p.predicted as real <= exact < (p.predicted + 1) as real
            && p.low as real <= exact * (1.0 - band) < (p.low + 1) as real
            && p.high as real <= exact * (1.0 + band) < (p.high + 1) as real
  {
    hide Predicted, TrendRatio, ConfidenceBand;
    var exact, band := Predicted(series, first, days, idx), ConfidenceBand(TrendRatio(series));
    BandWithin(TrendRatio(series));
    PredictedNonNegative(series, first, days, idx);
    MulNonNegative(exact, 1.0 - band);
    MulNonNegative(exact, 1.0 + band);
    TruncateNear(exact);
    TruncateNear(exact * (1.0 - band));
    TruncateNear(exact * (1.0 + band));
  }

  lemma PredictedNonNegative(series: seq<Day>, first: Weekday, days: nat, idx: nat)
    requires series != []
    ensures Predicted(series, first, days, idx) >= 0.0
  {
  }

  /** Without history: a weekly wave of whole amounts around 4.2 million, with a band of 14 percent. */
  lemma FallbackIs(idx: nat)
    ensures var d := idx % 7 - 3;
            FallbackPoint(idx) == Point(4200000 + 63000 * d, 3612000 + 54180 * d, 4788000 + 71820 * d)
  {
    var d := idx % 7 - 3;
    var predicted := BASELINE * (1.0 + 0.015 * d as real);
    assert predicted == (4200000 + 63000 * d) as real;
    assert predicted * 0.86 == (3612000 + 54180 * d) as real;
    assert predicted * 1.14 == (4788000 + 71820 * d) as real;
  }

  // ----- the weekday factors balance -----

  function FactorsOver(series: seq<Day>, days: seq<Day>): real
    requires series != []
  {
    if days == [] then 0.0
    else FactorsOver(series, days[..|days| - 1]) + WeekdayFactor(series, days[|days| - 1].weekday)
  }

  function Scale(n: nat, x: real): real { n as real * x }

  /** `Count * g(w)` over the weekdays below `k`. */
  function Weighted(days: seq<Day>, g: int -> real, k: nat): real
    requires k <= 7
  {
    if k == 0 then 0.0 else Weighted(days, g, k - 1) + Scale(|RevenuesOn(days, k - 1)|, g(k - 1))
  }

  function SumWeek(days: seq<Day>, k: nat): real
    requires k <= 7
  {
    if k == 0 then 0.0 else SumWeek(days, k - 1) + Sum(RevenuesOn(days, k - 1))
  }

  lemma SumAppend(a: seq<real>, x: real)
    ensures Sum(a + [x]) == Sum(a) + x
    ensures Sum(a + []) == Sum(a)
  {
    assert (a + [x])[..|a|] == a;
    assert a + [] == a;
  }

  lemma {:induction false} SumWeekStep(days: seq<Day>, k: nat)
    requires days != [] && k <= 7
    ensures SumWeek(days, k) ==
      SumWeek(days[..|days| - 1], k) + if days[|days| - 1].weekday < k then days[|days| - 1].revenue else 0.0
  {
    if k > 0 {
      SumWeekStep(days, k - 1);
      SumAppend(RevenuesOn(days[..|days| - 1], k - 1), days[|days| - 1].revenue);
    }
  }

  lemma {:induction false} SumByWeekday(days: seq<Day>)
    ensures SumWeek(days, 7) == Sum(Revenues(days))
  {
    if days == [] {
      EmptyWeek(7);
    } else {
      var front := days[..|days| - 1];
      SumByWeekday(front);
      SumWeekStep(days, 7);
      assert Revenues(days)[..|days| - 1] == Revenues(front);
    }
  }

  lemma {:induction false} EmptyWeek(k: nat)
    requires k <= 7
    ensures SumWeek([], k) == 0.0
  {
    if k > 0 { EmptyWeek(k - 1); }
  }

  lemma {:induction false} EmptyWeights(g: int -> real, k: nat)
    requires k <= 7
    ensures Weighted([], g, k) == 0.0
  {
    if k > 0 { EmptyWeights(g, k - 1); }
  }

  lemma OneMore(n: nat, x: real)
    ensures Scale(n + 1, x) == Scale(n, x) + x
  {
  }

  lemma {:induction false} WeightedStep(days: seq<Day>, g: int -> real, k: nat)
    requires days != [] && k <= 7
    ensures Weighted(days, g, k) ==
      Weighted(days[..|days| - 1], g, k) + if days[|days| - 1].weekday < k then g(days[|days| - 1].weekday) else 0.0
  {
    hide Scale;
    if k > 0 {
      WeightedStep(days, g, k - 1);
      var n := |RevenuesOn(days[..|days| - 1], k - 1)|;
      OneMore(n, g(k - 1));
    }
  }

  function FactorOf(series: seq<Day>): int -> real
    requires series != []
  {
    (w: int) => if 0 <= w < 7 then WeekdayFactor(series, w) else 0.0
  }

  lemma {:induction false} FactorsByWeekday(series: seq<Day>, days: seq<Day>)
    requires series != []
    ensures FactorsOver(series, days) == Weighted(days, FactorOf(series), 7)
  {
    hide WeekdayFactor;
    if days == [] {
      EmptyWeights(FactorOf(series), 7);
    } else {
      FactorsByWeekday(series, days[..|days| - 1]);
      WeightedStep(days, FactorOf(series), 7);
    }
  }

  lemma MaxPositive(x: real)
    ensures MaxR(x, 1.0) >= 1.0
  {
  }

  lemma CountTimesFactor(series: seq<Day>, w: Weekday)
    requires series != []
    ensures Scale(|RevenuesOn(series, w)|, WeekdayFactor(series, w)) ==
      Ratio(Sum(RevenuesOn(series, w)), MaxR(Mean(series), 1.0))
  {
    hide Mean, Ratio;
    var values, d := RevenuesOn(series, w), MaxR(Mean(series), 1.0);
    MaxPositive(Mean(series));
    if values != [] {
      RatioOfAverage(Sum(values), |values| as real, d);
    } else {
      RatioIs(0.0, 0.0, d);
    }
  }

  lemma {:induction false} WeightedFactors(series: seq<Day>, k: nat)
    requires series != [] && k <= 7
    ensures Weighted(series, FactorOf(series), k) == Ratio(SumWeek(series, k), MaxR(Mean(series), 1.0))
  {
    hide Mean, WeekdayFactor, RevenuesOn, Sum, MaxR, Ratio, Scale;
    MaxPositive(Mean(series));
    RatioIs(0.0, 0.0, MaxR(Mean(series), 1.0));
    if k > 0 {
      WeightedFactors(series, k - 1);
      CountTimesFactor(series, k - 1);
      RatioSum(SumWeek(series, k - 1), Sum(RevenuesOn(series, k - 1)), MaxR(Mean(series), 1.0));
    }
  }

  /** Summed over the history, the weekday factors give the number of days exactly when the mean
      daily revenue is at least one. */
  lemma FactorsBalanceIff(series: seq<Day>)
    requires series != [] && NonNegative(series)
    ensures FactorsOver(series, series) == |series| as real <==> Mean(series) >= 1.0
  {
    hide FactorsOver, Weighted, SumWeek, WeekdayFactor, Sum, Revenues, Ratio;
    var n, mean := |series| as real, Mean(series);
    FactorsByWeekday(series, series);
    WeightedFactors(series, 7);
    SumByWeekday(series);
    RatioTimes(Sum(Revenues(series)), n);
    assert mean == Ratio(Sum(Revenues(series)), n);
    assert Sum(Revenues(series)) == n * mean;
    QuotientIsCountIff(mean, n);
  }

  lemma QuotientIsCountIff(mean: real, n: real)
    requires n > 0.0
    ensures Ratio(n * mean, MaxR(mean, 1.0)) == n <==> mean >= 1.0
  {
    var d := MaxR(mean, 1.0);
    RatioTimes(n * mean, d);
    if mean < 1.0 && n * mean == n { MulCancel(n, 1.0, mean); }
  }
}
