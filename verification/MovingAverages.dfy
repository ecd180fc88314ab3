/** Moving averages computed by running sums and recurrences, against their definitions. */
module MovingAverages {
  import opened Models

  type Series = seq<real>
  type OptSeries = seq<Option<real>>

  function Sum(s: Series): real {
    if s == [] then 0.0 else Sum(s[..|s| - 1]) + s[|s| - 1]
  }

  function Per(total: real, n: nat): real
    requires n >= 1
  {
    total / n as real
  }

  function Average(s: Series): real
    requires s != []
  {
    Per(Sum(s), |s|)
  }

  /** The plain mean of the `period` values ending at `i`. */
  function WindowMean(values: Series, period: nat, i: nat): real
    requires 1 <= period <= i + 1 <= |values|
  {
    Average(values[i + 1 - period..i + 1])
  }

  /** `x` mixed into a running average with weight 1/period. */
  function Mixed(prev: real, x: real, period: nat): real
    requires period >= 1
  {
    (prev * (period - 1) as real + x) / period as real
  }

  /** A step from `prev` towards `x`, of weight 2/(period + 1). */
  function Stepped(prev: real, x: real, period: nat): real {
    (x - prev) * (2.0 / (period + 1) as real) + prev
  }

  /** Wilder's smoothing: a mean, then each value mixed in. */
  function Wilder(values: Series, period: nat, i: nat): real
    requires 1 <= period <= i + 1 <= |values|
    decreases i
  {
    if i + 1 == period then Average(values[..period]) else Mixed(Wilder(values, period, i - 1), values[i], period)
  }

  /** The exponential average, seeded with a mean. */
  function Exponential(values: Series, period: nat, i: nat): real
    requires 1 <= period <= i + 1 <= |values|
    decreases i
  {
    if i + 1 == period then Average(values[..period])
    else Stepped(Exponential(values, period, i - 1), values[i], period)
  }

  /** Wilder's average at each position, undefined before the first full window. */
  function WilderSeries(values: Series, period: nat): (s: OptSeries)
    requires period >= 1
    ensures |s| == |values|
  {
    seq(|values|, i requires 0 <= i < |values| => if i + 1 < period then None else Some(Wilder(values, period, i)))
  }

  // -- sums ---------------------------------------------------------------

  lemma {:induction false} SumAppendFront(x: real, s: Series)
    ensures Sum([x] + s) == x + Sum(s)
    decreases |s|
  {
    if s == [] {
      assert ([x] + s)[..0] == [];
    } else {
      assert ([x] + s)[..|s|] == [x] + s[..|s| - 1];
      SumAppendFront(x, s[..|s| - 1]);
    }
  }

  /** Moving a window one step adds the value entering and takes off the one leaving. */
  lemma SumSlides(values: Series, period: nat, i: nat)
    requires 1 <= period <= i < |values|
    ensures Sum(values[i + 1 - period..i + 1]) == Sum(values[i - period..i]) + (values[i] - values[i - period])
  {
    var middle := values[i + 1 - period..i];
    assert values[i - period..i] == [values[i - period]] + middle;
    SumAppendFront(values[i - period], middle);
    assert values[i + 1 - period..i + 1][..period - 1] == middle;
  }

  method SumOf(s: Series) returns (total: real)
    ensures total == Sum(s)
  {
    total := 0.0;
    for i := 0 to |s|
      invariant total == Sum(s[..i])
    {
      assert s[..i + 1][..i] == s[..i];
      total := total + s[i];
    }
    assert s[..|s|] == s;
  }

  // -- the loops ----------------------------------------------------------

  method Sma(values: Series, period: int) returns (r: Result<OptSeries>)
    ensures r.Err? <==> period <= 0
    ensures r.Ok? ==> |r.value| == |values| && forall i | 0 <= i < |values| ::
      r.value[i] == if i + 1 < period then None else Some(WindowMean(values, period, i))
  {
    if period <= 0 {
      return Err(InvalidInput);
    }
    var out: OptSeries := seq(|values|, _ => None);
    if |values| < period {
      return Ok(out);
    }
    hide Sum, Per;
    var windowSum := SumOf(values[..period]);
    assert values[0..period] == values[..period];
    out := out[period - 1 := Some(Per(windowSum, period))];
    for i := period to |values|
      invariant |out| == |values| && windowSum == Sum(values[i - period..i])
      invariant forall k | 0 <= k < i :: out[k] == if k + 1 < period then None else Some(WindowMean(values, period, k))
    {
      SumSlides(values, period, i);
      windowSum := windowSum + (values[i] - values[i - period]);
      out := out[i := Some(Per(windowSum, period))];
    }
    return Ok(out);
  }

  method Ema(values: Series, period: int) returns (r: Result<OptSeries>)
    ensures r.Err? <==> period <= 0
    ensures r.Ok? ==> |r.value| == |values| && forall i | 0 <= i < |values| ::
      r.value[i] == if i + 1 < period then None else Some(Exponential(values, period, i))
  {
    if period <= 0 {
      return Err(InvalidInput);
    }
    var out: OptSeries := seq(|values|, _ => None);
    if |values| < period {
      return Ok(out);
    }
    hide Sum, Per, Stepped;
    var total := SumOf(values[..period]);
    var prev := Per(total, period);
    out := out[period - 1 := Some(prev)];
    for i := period to |values|
      invariant |out| == |values| && prev == Exponential(values, period, i - 1)
      invariant forall k | 0 <= k < i :: out[k] == if k + 1 < period then None else Some(Exponential(values, period, k))
    {
      prev := Stepped(prev, values[i], period);
      out := out[i := Some(prev)];
    }
    return Ok(out);
  }

  method WilderSmoothing(values: Series, period: int) returns (r: Result<OptSeries>)
    ensures r == if period <= 0 then Err(InvalidInput) else Ok(WilderSeries(values, period))
  {
    if period <= 0 {
      return Err(InvalidInput);
    }
    var out: OptSeries := seq(|values|, _ => None);
    hide Sum, Per, Mixed, WilderSeries, Wilder;
    if |values| >= period {
      var total := SumOf(values[..period]);
      var prev := Per(total, period);
      WilderUnfolds(values, period, period - 1);
      out := out[period - 1 := Some(prev)];
      for i := period to |values|
        invariant |out| == |values| && prev == Wilder(values, period, i - 1)
        invariant forall k | 0 <= k < i :: out[k] == if k + 1 < period then None else Some(Wilder(values, period, k))
        invariant forall k | i <= k < |values| :: out[k] == None
      {
        WilderUnfolds(values, period, i);
        prev := Mixed(prev, values[i], period);
        out := out[i := Some(prev)];
      }
    }
    WilderSeriesIs(values, period, out);
    return Ok(out);
  }

  lemma WilderUnfolds(values: Series, period: nat, i: nat)
    requires 1 <= period <= i + 1 <= |values|
    ensures Wilder(values, period, i) ==
      if i + 1 == period then Per(Sum(values[..period]), period) else Mixed(Wilder(values, period, i - 1), values[i], period)
  {
  }

  lemma WilderSeriesIs(values: Series, period: nat, s: OptSeries)
    requires period >= 1 && |s| == |values|
    requires forall k | 0 <= k < |s| :: s[k] == if k + 1 < period then None else Some(Wilder(values, period, k))
    ensures s == WilderSeries(values, period)
  {
  }

  // -- averages stay among the values they consume ------------------------

  predicate Between(s: Series, low: real, high: real) {
    forall i | 0 <= i < |s| :: low <= s[i] <= high
  }

  lemma Divides(x: real, y: real, n: real)
    requires n > 0.0 && x <= y * n
    ensures x / n <= y
  {
  }

  lemma DividesUp(x: real, y: real, n: real)
    requires n > 0.0 && x >= y * n
    ensures x / n >= y
  {
  }

  lemma {:induction false} SumBetween(s: Series, low: real, high: real)
    requires Between(s, low, high)
    ensures low * |s| as real <= Sum(s) <= high * |s| as real
    decreases |s|
  {
    if s != [] {
      SumBetween(s[..|s| - 1], low, high);
      assert low * (|s| - 1) as real + low == low * |s| as real;
      assert high * (|s| - 1) as real + high == high * |s| as real;
    }
  }

  lemma AverageBetween(s: Series, low: real, high: real)
    requires s != [] && Between(s, low, high)
    ensures low <= Average(s) <= high
  {
    SumBetween(s, low, high);
    Divides(Sum(s), high, |s| as real);
    DividesUp(Sum(s), low, |s| as real);
  }

  lemma MixBetween(prev: real, x: real, n: nat, low: real, high: real)
    requires n >= 1 && low <= prev <= high && low <= x <= high
    ensures low <= Mixed(prev, x, n) <= high
  {
    var m := (n - 1) as real;
    assert low * m <= prev * m <= high * m;
    var all := n as real;
    assert all == m + 1.0;
    assert low * all == low * m + low;
    assert high * all == high * m + high;
    Divides(prev * m + x, high, all);
    DividesUp(prev * m + x, low, all);
  }

  /** Wilder's average lies between the least and greatest value it has consumed. */
  lemma {:induction false} WilderBetween(values: Series, period: nat, i: nat, low: real, high: real)
    requires 1 <= period <= i + 1 <= |values| && Between(values[..i + 1], low, high)
    ensures low <= Wilder(values, period, i) <= high
    decreases i
  {
    hide Mixed, Stepped, Average;
    if i + 1 == period {
      AverageBetween(values[..period], low, high);
    } else {
      assert forall k | 0 <= k < i :: values[..i][k] == values[..i + 1][k];
      WilderBetween(values, period, i - 1, low, high);
      assert values[i] == values[..i + 1][i];
      MixBetween(Wilder(values, period, i - 1), values[i], period, low, high);
    }
  }

  lemma Fraction(a: real, w: real)
    requires a >= 0.0 && 0.0 <= w <= 1.0
    ensures 0.0 <= a * w <= a
  {
    var rest := 1.0 - w;
    assert a * rest >= 0.0 && a * rest == a - a * w;
  }

  lemma NegatedProduct(a: real, w: real)
    ensures a * w == -((-a) * w)
  {
  }

  lemma StepBetween(prev: real, x: real, period: nat, low: real, high: real)
    requires period >= 1 && low <= prev <= high && low <= x <= high
    ensures low <= Stepped(prev, x, period) <= high
  {
    var w := 2.0 / (period + 1) as real;
    Divides(2.0, 1.0, (period + 1) as real);
    DividesUp(2.0, 0.0, (period + 1) as real);
    var up, down := (x - prev) * w, (prev - x) * w;
    assert up == -down by {
      NegatedProduct(x - prev, w);
    }
    if x >= prev {
      Fraction(x - prev, w);
    } else {
      Fraction(prev - x, w);
    }
  }

  /** So does the exponential average. */
  lemma {:induction false} ExponentialBetween(values: Series, period: nat, i: nat, low: real, high: real)
    requires 1 <= period <= i + 1 <= |values| && Between(values[..i + 1], low, high)
    ensures low <= Exponential(values, period, i) <= high
    decreases i
  {
    hide Mixed, Stepped, Average;
    if i + 1 == period {
      AverageBetween(values[..period], low, high);
    } else {
      assert forall k | 0 <= k < i :: values[..i][k] == values[..i + 1][k];
      ExponentialBetween(values, period, i - 1, low, high);
      assert values[i] == values[..i + 1][i];
      StepBetween(Exponential(values, period, i - 1), values[i], period, low, high);
    }
  }

  // -- the relative strength index ----------------------------------------

  /** The rises (or, with `up` false, the falls) from each close to the next. */
  function Moves(closes: Series, up: bool): (moves: Series)
    ensures |moves| == if closes == [] then 0 else |closes| - 1
  {
    seq(if closes == [] then 0 else |closes| - 1, i requires 0 <= i < |closes| - 1 =>
      var change := closes[i + 1] - closes[i];
      Max(if up then change else -change, 0.0))
  }

  function RsiFrom(gain: real, loss: real): (r: real)
    requires gain >= 0.0 && loss >= 0.0
  {
    if loss == 0.0 then 100.0
    else
      assert gain / loss >= 0.0;
      100.0 - 100.0 / (1.0 + gain / loss)
  }

  /** RSI of the Wilder averages of the rises and of the falls; a move belongs to the later close. */
  function RsiAt(closes: Series, period: nat, i: nat): real
    requires 1 <= period <= i < |closes|
  {
    AveragesNonNegative(closes, period, i);
    RsiFrom(Wilder(Moves(closes, true), period, i - 1), Wilder(Moves(closes, false), period, i - 1))
  }

  method GainsAndLosses(closes: Series) returns (gains: Series, losses: Series)
    requires closes != []
    ensures |gains| == |losses| == |closes|
    ensures gains[1..] == Moves(closes, true) && losses[1..] == Moves(closes, false)
  {
    var n := |closes|;
    gains, losses := seq(n, _ => 0.0), seq(n, _ => 0.0);
    ghost var (rises, falls) := (Moves(closes, true), Moves(closes, false));
    for i := 1 to n
      invariant |gains| == |losses| == n
      invariant forall k | 1 <= k < i :: gains[k] == rises[k - 1] && losses[k] == falls[k - 1]
    {
      var change := closes[i] - closes[i - 1];
      gains := gains[i := Max(change, 0.0)];
      losses := losses[i := Max(-change, 0.0)];
    }
  }

  method Rsi(closes: Series, period: int) returns (r: Result<OptSeries>)
    ensures r.Err? <==> period <= 0
    ensures r.Ok? ==> |r.value| == |closes| && forall i | 0 <= i < |closes| ::
      r.value[i] == if i < period then None else Some(RsiAt(closes, period, i))
  {
    if period <= 0 {
      return Err(InvalidInput);
    }
    var n := |closes|;
    var out: OptSeries := seq(n, _ => None);
    if n <= period {
      return Ok(out);
    }
    ghost var (rises, falls) := (Moves(closes, true), Moves(closes, false));
    hide Mixed, Average, Moves, Sum, RsiFrom, Max, Per, Wilder, RsiAt;
    var gains, losses := GainsAndLosses(closes);
    assert gains[1..period + 1] == rises[..period] && losses[1..period + 1] == falls[..period];
    var gainSum := SumOf(gains[1..period + 1]);
    var lossSum := SumOf(losses[1..period + 1]);
    var avgGain, avgLoss := Per(gainSum, period), Per(lossSum, period);
    AveragesNonNegative(closes, period, period);
    WilderUnfolds(rises, period, period - 1);
    WilderUnfolds(falls, period, period - 1);
    RsiAtUnfolds(closes, period, period);
    out := out[period := Some(RsiFrom(avgGain, avgLoss))];
    for i := period + 1 to n
      invariant |out| == n
      invariant avgGain == Wilder(rises, period, i - 2) && avgLoss == Wilder(falls, period, i - 2)
      invariant forall k | 0 <= k < i :: out[k] == if k < period then None else Some(RsiAt(closes, period, k))
    {
      WilderUnfolds(rises, period, i - 1);
      WilderUnfolds(falls, period, i - 1);
      avgGain := Mixed(avgGain, gains[i], period);
      avgLoss := Mixed(avgLoss, losses[i], period);
      AveragesNonNegative(closes, period, i);
      RsiAtUnfolds(closes, period, i);
      out := out[i := Some(RsiFrom(avgGain, avgLoss))];
    }
    return Ok(out);
  }

  lemma RsiAtUnfolds(closes: Series, period: nat, i: nat)
    requires 1 <= period <= i < |closes|
    ensures Wilder(Moves(closes, true), period, i - 1) >= 0.0 && Wilder(Moves(closes, false), period, i - 1) >= 0.0
    ensures RsiAt(closes, period, i)
            == RsiFrom(Wilder(Moves(closes, true), period, i - 1), Wilder(Moves(closes, false), period, i - 1))
  {
    AveragesNonNegative(closes, period, i);
    hide Wilder, Moves, RsiFrom;
  }

  lemma AveragesNonNegative(closes: Series, period: nat, i: nat)
    requires 1 <= period <= i < |closes|
    ensures Wilder(Moves(closes, true), period, i - 1) >= 0.0
    ensures Wilder(Moves(closes, false), period, i - 1) >= 0.0
  {
    WilderNonNegative(Moves(closes, true), period, i - 1);
    WilderNonNegative(Moves(closes, false), period, i - 1);
  }

  /** The greatest value consumed so far. */
  function Greatest(s: Series): real
    requires s != []
  {
    if |s| == 1 then s[0] else Max(Greatest(s[..|s| - 1]), s[|s| - 1])
  }

  lemma {:induction false} GreatestIs(s: Series)
    requires s != []
    ensures forall i | 0 <= i < |s| :: s[i] <= Greatest(s)
    decreases |s|
  {
    if |s| > 1 {
      GreatestIs(s[..|s| - 1]);
      assert forall i | 0 <= i < |s| - 1 :: s[i] == s[..|s| - 1][i];
    }
  }

  lemma WilderNonNegative(values: Series, period: nat, i: nat)
    requires 1 <= period <= i + 1 <= |values| && forall k | 0 <= k <= i :: values[k] >= 0.0
    ensures Wilder(values, period, i) >= 0.0
  {
    GreatestIs(values[..i + 1]);
    WilderBetween(values, period, i, 0.0, Greatest(values[..i + 1]));
  }

  lemma RsiFromInRange(gain: real, loss: real)
    requires gain >= 0.0 && loss >= 0.0
    ensures 0.0 <= RsiFrom(gain, loss) <= 100.0
  {
  }

  /** RSI never leaves [0, 100]. */
  lemma RsiInRange(closes: Series, period: nat, i: nat)
    requires 1 <= period <= i < |closes|
    ensures 0.0 <= RsiAt(closes, period, i) <= 100.0
  {
    AveragesNonNegative(closes, period, i);
    RsiFromInRange(Wilder(Moves(closes, true), period, i - 1), Wilder(Moves(closes, false), period, i - 1));
  }

  // -- the formulas, multiplied out -----------------------------------------

  lemma PerTimes(total: real, n: nat)
    requires n >= 1
    ensures Per(total, n) * n as real == total
  {
  }

  /** The mean of a window, times its length, is its sum. */
  lemma MeanTimesLength(values: Series, period: nat, i: nat)
    requires 1 <= period <= i + 1 <= |values|
    ensures WindowMean(values, period, i) * period as real == Sum(values[i + 1 - period..i + 1])
  {
    PerTimes(Sum(values[i + 1 - period..i + 1]), period);
    hide Per, Sum;
  }

  /** Wilder's average starts with a mean and gives each new value one part in `period`. */
  lemma WilderRecurrence(values: Series, period: nat, i: nat)
    requires 1 <= period <= i + 1 <= |values|
    ensures i + 1 == period ==> Wilder(values, period, i) * period as real == Sum(values[..period])
    ensures i + 1 > period ==>
      Wilder(values, period, i) * period as real == Wilder(values, period, i - 1) * (period - 1) as real + values[i]
  {
    if i + 1 == period {
      PerTimes(Sum(values[..period]), period);
    } else {
      MixedTimes(Wilder(values, period, i - 1), values[i], period);
    }
    hide Per, Sum, Mixed;
  }

  lemma MixedTimes(prev: real, x: real, n: nat)
    requires n >= 1
    ensures Mixed(prev, x, n) * n as real == prev * (n - 1) as real + x
  {
  }

  /** The exponential average starts with a mean and moves towards each new value by two parts
      in `period` + 1. */
  lemma ExponentialRecurrence(values: Series, period: nat, i: nat)
    requires 1 <= period <= i + 1 <= |values|
    ensures i + 1 == period ==> Exponential(values, period, i) * period as real == Sum(values[..period])
    ensures i + 1 > period ==>
      var prev := Exponential(values, period, i - 1);
      (Exponential(values, period, i) - prev) * (period + 1) as real == 2.0 * (values[i] - prev)
  {
    if i + 1 == period {
      PerTimes(Sum(values[..period]), period);
    } else {
      SteppedTimes(Exponential(values, period, i - 1), values[i], period);
    }
    hide Per, Sum, Stepped;
  }

  lemma SteppedTimes(prev: real, x: real, n: nat)
    ensures (Stepped(prev, x, n) - prev) * (n + 1) as real == 2.0 * (x - prev)
  {
    var (step, all) := (x - prev, (n + 1) as real);
    var w := 2.0 / all;
    assert w * all == 2.0;
    assert (step * w) * all == step * (w * all);
  }

  /** Each change is a rise or a fall, and the other one is zero. */
  lemma MovesAreChanges(closes: Series, i: nat)
    requires i + 1 < |closes|
    ensures var (rise, fall) := (Moves(closes, true)[i], Moves(closes, false)[i]);
            rise >= 0.0 && fall >= 0.0 && (rise == 0.0 || fall == 0.0) && rise - fall == closes[i + 1] - closes[i]
  {
  }

  /** `v` is the share of the gain in gain and loss together, in percent; all of it without a loss. */
  predicate GainShare(v: real, gain: real, loss: real) {
    && (gain + loss > 0.0 ==> v * (gain + loss) == 100.0 * gain)
    && (loss == 0.0 ==> v == 100.0)
  }

  lemma RsiFromIsShare(gain: real, loss: real)
    requires gain >= 0.0 && loss >= 0.0
    ensures GainShare(RsiFrom(gain, loss), gain, loss)
  {
    if loss > 0.0 {
      var rs := gain / loss;
      var d := 1.0 + rs;
      assert rs >= 0.0 && rs * loss == gain && d * loss == loss + gain;
      var q := 100.0 / d;
      assert q * d == 100.0;
      assert q * (gain + loss) == q * (d * loss) == (q * d) * loss;
    }
  }

  /** RSI is the share of the average rise in average rise and fall together. */
  lemma RsiIsGainShare(closes: Series, period: nat, i: nat)
    requires 1 <= period <= i < |closes|
    ensures Wilder(Moves(closes, true), period, i - 1) >= 0.0 && Wilder(Moves(closes, false), period, i - 1) >= 0.0
    ensures GainShare(RsiAt(closes, period, i), Wilder(Moves(closes, true), period, i - 1),
                      Wilder(Moves(closes, false), period, i - 1))
  {
    hide GainShare, RsiFrom, Wilder, Moves;
    AveragesNonNegative(closes, period, i);
    RsiFromIsShare(Wilder(Moves(closes, true), period, i - 1), Wilder(Moves(closes, false), period, i - 1));
  }

  lemma Scales(x: real, y: real, k: real)
    requires k > 0.0
    ensures x * k <= y * k ==> x <= y
  {
  }

  lemma CrossProducts(gain: real, loss: real, gain': real, loss': real)
    requires 0.0 <= gain <= gain' && 0.0 <= loss' <= loss
    ensures gain * (gain' + loss') <= gain' * (gain + loss)
  {
    assert gain * loss' <= gain' * loss';
    assert gain' * loss' <= gain' * loss;
    var (both, one, other) := (gain * gain', gain * loss', gain' * loss);
    assert gain * (gain' + loss') == both + one;
    assert gain' * (gain + loss) == both + other;
  }

  lemma Associates(v: real, all: real, other: real, gain: real)
    requires v * all == 100.0 * gain
    ensures v * (all * other) == 100.0 * (gain * other)
  {
    assert v * (all * other) == (v * all) * other;
  }

  lemma SharesFollow(v: real, gain: real, loss: real, v': real, gain': real, loss': real)
    requires 0.0 <= gain <= gain' && 0.0 <= loss' <= loss && gain + loss > 0.0 && gain' + loss' > 0.0
    requires GainShare(v, gain, loss) && GainShare(v', gain', loss')
    ensures v <= v'
  {
    var (all, all') := (gain + loss, gain' + loss');
    CrossProducts(gain, loss, gain', loss');
    Associates(v, all, all', gain);
    Associates(v', all', all, gain');
    assert all * all' > 0.0 && all' * all == all * all';
    Scales(v, v', all * all');
  }

  /** It grows with the average rise and falls with the average fall. */
  lemma RsiFollowsGains(closes: Series, closes': Series, period: nat, i: nat, j: nat)
    requires 1 <= period <= i < |closes| && period <= j < |closes'|
    requires Wilder(Moves(closes, true), period, i - 1) <= Wilder(Moves(closes', true), period, j - 1)
    requires Wilder(Moves(closes, false), period, i - 1) >= Wilder(Moves(closes', false), period, j - 1)
    requires Wilder(Moves(closes, true), period, i - 1) + Wilder(Moves(closes, false), period, i - 1) > 0.0
    requires Wilder(Moves(closes', true), period, j - 1) + Wilder(Moves(closes', false), period, j - 1) > 0.0
    ensures RsiAt(closes, period, i) <= RsiAt(closes', period, j)
  {
    hide RsiAt, Wilder, Moves, GainShare;
    RsiIsGainShare(closes, period, i);
    RsiIsGainShare(closes', period, j);
    SharesFollow(RsiAt(closes, period, i), Wilder(Moves(closes, true), period, i - 1),
                 Wilder(Moves(closes, false), period, i - 1),
                 RsiAt(closes', period, j), Wilder(Moves(closes', true), period, j - 1),
                 Wilder(Moves(closes', false), period, j - 1));
  }
}
