/** The SuperTrend line: a band that ratchets with the trend and flips when crossed. */
module SuperTrends {
  import opened Models
  import opened MovingAverages
  import opened TrendIndicators

  datatype Direction = Up | Down

  datatype Point = Point(line: real, direction: Direction)

  function Middle(c: Candle): real {
    (c.high + c.low) / 2.0
  }

  /** How far the bands stand from the middle of a bar. */
  function Reach(multiplier: real, a: real): real {
    multiplier * a
  }

  /** The line and direction after one more bar with average range `a`. */
  function Advance(prev: Option<Point>, c: Candle, a: real, multiplier: real): Point {
    var upper, lower := Middle(c) + Reach(multiplier, a), Middle(c) - Reach(multiplier, a);
    match prev
    case None => Point(lower, Up)
    case Some(Point(line, Up)) =>
      var floor := Max(lower, line);
      if c.close < floor then Point(upper, Down) else Point(floor, Up)
    case Some(Point(line, Down)) =>
      var ceiling := if line < upper then line else upper;
      if c.close > ceiling then Point(lower, Up) else Point(ceiling, Down)
  }

  function PointAt(c: Candles, period: nat, multiplier: real, i: nat): Point
    requires 1 <= period <= i + 1 <= |c|
    decreases i
  {
    var a := Wilder(TrueRanges(c), period, i);
    Advance(if i + 1 == period then None else Some(PointAt(c, period, multiplier, i - 1)), c[i], a, multiplier)
  }

  /** One bar of the loop. */
  method Ratchet(prevLine: Option<real>, prevDir: Direction, c: Candle, a: real, multiplier: real)
    returns (line: Option<real>, direction: Direction)
    ensures line.Some?
    ensures Point(line.value, direction)
            == Advance(if prevLine.None? then None else Some(Point(prevLine.value, prevDir)), c, a, multiplier)
  {
    hide Middle, Reach;
    var upper := Middle(c) + Reach(multiplier, a);
    var lower := Middle(c) - Reach(multiplier, a);
    if prevLine.None? {
      return Some(lower), Up;
    }
    if prevDir.Up? {
      lower := Max(lower, prevLine.value);
      if c.close < lower {
        return Some(upper), Down;
      }
      return Some(lower), Up;
    }
    upper := if prevLine.value < upper then prevLine.value else upper;
    if c.close > upper {
      return Some(lower), Up;
    }
    return Some(upper), Down;
  }

  method SuperTrend(c: Candles, period: int, multiplier: real)
    returns (r: Result<(OptSeries, seq<Option<Direction>>)>)
    ensures r.Err? <==> period <= 0
    ensures r.Ok? ==> |r.value.0| == |r.value.1| == |c|
    ensures r.Ok? ==> forall i | 0 <= i < |c| ::
      if i + 1 < period then r.value.0[i].None? && r.value.1[i].None?
      else r.value.0[i] == Some(PointAt(c, period, multiplier, i).line)
           && r.value.1[i] == Some(PointAt(c, period, multiplier, i).direction)
  {
    hide Wilder, Middle, Reach, TrueRanges, Max, Advance;
    var n := |c|;
    var line: OptSeries := seq(n, _ => None);
    var direction: seq<Option<Direction>> := seq(n, _ => None);
    var tr := TrueRange(c);
    var atr := WilderSmoothing(tr, period);
    if atr.Err? {
      return Err(InvalidInput);
    }
    var prevLine: Option<real> := None;
    var prevDir := Up;
    for i := 0 to n
      invariant |line| == |direction| == n
      invariant prevLine.Some? <==> i >= period
      invariant prevLine.Some? ==> Point(prevLine.value, prevDir) == PointAt(c, period, multiplier, i - 1)
      invariant prevLine.None? ==> prevDir == Up
      invariant forall k | 0 <= k < n :: i <= k || k + 1 < period ==> line[k].None? && direction[k].None?
      invariant forall k | 0 <= k < i && k + 1 >= period ::
        line[k] == Some(PointAt(c, period, multiplier, k).line)
        && direction[k] == Some(PointAt(c, period, multiplier, k).direction)
    {
      var a := atr.value[i];
      if a.Some? {
        prevLine, prevDir := Ratchet(prevLine, prevDir, c[i], a.value, multiplier);
        assert Point(prevLine.value, prevDir) == PointAt(c, period, multiplier, i);
        line := line[i := prevLine];
        direction := direction[i := Some(prevDir)];
      }
    }
    return Ok((line, direction));
  }

  /** The bands stand a multiple of the average range from the middle of the bar. */
  lemma BandsAre(c: Candle, multiplier: real, a: real)
    ensures Middle(c) + Middle(c) == c.high + c.low && Reach(multiplier, a) == multiplier * a
  {
  }

  /** The line, bar by bar: it starts on the lower band in an uptrend; a trend that holds keeps the
      further of its band and its line; a close beyond that turns it, onto the other band. */
  lemma LineExactly(c: Candles, period: nat, multiplier: real, i: nat)
    requires 1 <= period <= i + 1 <= |c|
    ensures var (p, middle) := (PointAt(c, period, multiplier, i), Middle(c[i]));
            var reach := Reach(multiplier, Wilder(TrueRanges(c), period, i));
            if i + 1 == period then p == Point(middle - reach, Up)
            else
              var prev := PointAt(c, period, multiplier, i - 1);
              if prev.direction.Up? then
                var floor := if middle - reach > prev.line then middle - reach else prev.line;
                p == if c[i].close < floor then Point(middle + reach, Down) else Point(floor, Up)
              else
                var ceiling := if middle + reach < prev.line then middle + reach else prev.line;
                p == if c[i].close > ceiling then Point(middle - reach, Up) else Point(ceiling, Down)
  {
    hide Wilder, TrueRanges, Middle, Reach;
  }

  /** The direction never changes between bars `i` and `j`. */
  predicate Steady(c: Candles, period: nat, multiplier: real, i: nat, j: nat)
    requires 1 <= period <= i + 1 && i <= j < |c|
  {
    forall k | i <= k <= j :: PointAt(c, period, multiplier, k).direction == PointAt(c, period, multiplier, i).direction
  }

  /** Within a run of one direction the line never moves against the trend. */
  lemma {:induction false} LineNeverRetreats(c: Candles, period: nat, multiplier: real, i: nat, j: nat)
    requires 1 <= period <= i + 1 && i <= j < |c| && Steady(c, period, multiplier, i, j)
    ensures var (from, to) := (PointAt(c, period, multiplier, i), PointAt(c, period, multiplier, j));
            if from.direction.Up? then to.line >= from.line else to.line <= from.line
    decreases j
  {
    hide Wilder, TrueRanges, Middle, Reach;
    if i < j {
      LineNeverRetreats(c, period, multiplier, i, j - 1);
    }
  }

  /** A bar that continues its direction closes on the trend's side of the line. */
  lemma ContinuationOnTrendSide(c: Candles, period: nat, multiplier: real, i: nat)
    requires 1 <= period <= i && i < |c|
    requires PointAt(c, period, multiplier, i).direction == PointAt(c, period, multiplier, i - 1).direction
    ensures var p := PointAt(c, period, multiplier, i);
            if p.direction.Up? then c[i].close >= p.line else c[i].close <= p.line
  {
    hide Wilder, TrueRanges, Middle, Reach;
  }

  /** The direction flips exactly when the close crosses the band the trend would have drawn:
      the previous line, or the bar's own band when that is further along. */
  lemma FlipsExactlyOnCrossing(c: Candles, period: nat, multiplier: real, i: nat)
    requires 1 <= period <= i && i < |c|
    ensures var (prev, p) := (PointAt(c, period, multiplier, i - 1), PointAt(c, period, multiplier, i));
            var reach := Reach(multiplier, Wilder(TrueRanges(c), period, i));
            p.direction != prev.direction <==>
              if prev.direction.Up? then c[i].close < prev.line || c[i].close < Middle(c[i]) - reach
              else c[i].close > prev.line || c[i].close > Middle(c[i]) + reach
  {
  }
}
