/** True range, directional movement and ADX, whose undefined entries are realigned. */
module TrendIndicators {
  import opened Models
  import opened MovingAverages

  datatype Candle = Candle(timestamp: int, open: real, high: real, low: real, close: real, volume: real)

  type Candles = seq<Candle>

  function Abs(x: real): real { if x < 0.0 then -x else x }

  function TrueRangeAt(c: Candles, i: nat): real
    requires i < |c|
  {
    if i == 0 then c[0].high - c[0].low
    else Max(Max(c[i].high - c[i].low, Abs(c[i].high - c[i - 1].close)), Abs(c[i].low - c[i - 1].close))
  }

  function TrueRanges(c: Candles): (s: Series)
    ensures |s| == |c|
  {
    seq(|c|, i requires 0 <= i < |c| => TrueRangeAt(c, i))
  }

  /** How far the range moved up (or down) beyond its move the other way. */
  function DirectionalMove(c: Candles, up: bool, i: nat): real
    requires i < |c|
  {
    if i == 0 then 0.0
    else
      var rise, fall := c[i].high - c[i - 1].high, c[i - 1].low - c[i].low;
      var (own, other) := if up then (rise, fall) else (fall, rise);
      if own > other && own > 0.0 then own else 0.0
  }

  function DirectionalMoves(c: Candles, up: bool): (s: Series)
    ensures |s| == |c|
  {
    seq(|c|, i requires 0 <= i < |c| => DirectionalMove(c, up, i))
  }

  /** The directional index of one candle, from its three smoothed values. */
  function DxFrom(range: real, plus: real, minus: real): Option<real> {
    if range == 0.0 then None
    else
      var plusDi, minusDi := 100.0 * plus / range, 100.0 * minus / range;
      var denom := plusDi + minusDi;
      Some(if denom > 0.0 then 100.0 * Abs(plusDi - minusDi) / denom else 0.0)
  }

  function DxAt(c: Candles, period: nat, i: nat): Option<real>
    requires period >= 1 && i < |c|
  {
    if i + 1 < period then None
    else DxFrom(Wilder(TrueRanges(c), period, i), Wilder(DirectionalMoves(c, true), period, i),
                Wilder(DirectionalMoves(c, false), period, i))
  }

  function DxSeries(c: Candles, period: nat): (s: OptSeries)
    requires period >= 1
    ensures |s| == |c|
  {
    seq(|c|, i requires 0 <= i < |c| => DxAt(c, period, i))
  }

  function Defined(s: OptSeries): (d: Series)
    ensures |d| <= |s|
  {
    if s == [] then []
    else (if s[0].Some? then [s[0].value] else []) + Defined(s[1..])
  }

  /** The smoothed defined values, pushed to the end of a series of length `n`. */
  function Realigned(s: OptSeries, period: nat): (r: OptSeries)
    requires period >= 1
    ensures |r| == |s|
  {
    var d := Defined(s);
    seq(|s| - |d|, _ => None) + WilderSeries(d, period)
  }

  method TrueRange(c: Candles) returns (tr: Series)
    ensures tr == TrueRanges(c)
  {
    tr := [];
    for i := 0 to |c|
      invariant |tr| == i && forall k | 0 <= k < i :: tr[k] == TrueRangeAt(c, k)
    {
      if i == 0 {
        tr := tr + [c[0].high - c[0].low];
      } else {
        var prevClose := c[i - 1].close;
        tr := tr + [Max(Max(c[i].high - c[i].low, Abs(c[i].high - prevClose)), Abs(c[i].low - prevClose))];
      }
    }
  }

  method DirectionalMovement(c: Candles) returns (plus: Series, minus: Series)
    ensures plus == DirectionalMoves(c, true) && minus == DirectionalMoves(c, false)
  {
    plus, minus := seq(|c|, _ => 0.0), seq(|c|, _ => 0.0);
    var i := 1;
    while i < |c|
      invariant 1 <= i && |plus| == |minus| == |c|
      invariant forall k | 0 <= k < i && k < |c| ::
        plus[k] == DirectionalMove(c, true, k) && minus[k] == DirectionalMove(c, false, k)
    {
      var upMove, downMove := c[i].high - c[i - 1].high, c[i - 1].low - c[i].low;
      plus := plus[i := if upMove > downMove && upMove > 0.0 then upMove else 0.0];
      minus := minus[i := if downMove > upMove && downMove > 0.0 then downMove else 0.0];
      i := i + 1;
    }
  }

  method DirectionalIndex(c: Candles, period: nat, atr: OptSeries, plus: OptSeries, minus: OptSeries)
    returns (dx: OptSeries)
    requires period >= 1 && atr == WilderSeries(TrueRanges(c), period)
    requires plus == WilderSeries(DirectionalMoves(c, true), period)
    requires minus == WilderSeries(DirectionalMoves(c, false), period)
    ensures dx == DxSeries(c, period)
  {
    hide Wilder, DxFrom, TrueRanges, DirectionalMoves;
    var n := |c|;
    dx := seq(n, _ => None);
    for i := 0 to n
      invariant |dx| == n && forall k | 0 <= k < i :: dx[k] == DxAt(c, period, k)
      invariant forall k | i <= k < n :: dx[k] == None
    {
      if atr[i].Some? && plus[i].Some? && minus[i].Some? {
        dx := dx[i := DxFrom(atr[i].value, plus[i].value, minus[i].value)];
      }
    }
  }

  method DefinedOf(s: OptSeries) returns (defined: Series)
    ensures defined == Defined(s)
  {
    defined := [];
    for i := 0 to |s|
      invariant defined + Defined(s[i..]) == Defined(s)
    {
      assert s[i..][1..] == s[i + 1..];
      if s[i].Some? {
        defined := defined + [s[i].value];
      }
    }
  }

  method Adx(c: Candles, period: int) returns (r: Result<OptSeries>)
    ensures r.Err? <==> period <= 0
    ensures r.Ok? ==> |r.value| == |c|
    ensures r.Ok? && |c| < 2 * period - 1 ==> forall i | 0 <= i < |c| :: r.value[i] == None
    ensures r.Ok? && |c| >= 2 * period - 1 ==> r.value == Realigned(DxSeries(c, period), period)
  {
    hide Wilder, DxFrom, Realigned, WilderSeries, DxSeries, TrueRanges, DirectionalMoves, Defined;
    var n := |c|;
    var out: OptSeries := seq(n, _ => None);
    if n < 2 * period - 1 {
      return Ok(out);
    }
    var tr := TrueRange(c);
    var plusDm, minusDm := DirectionalMovement(c);
    var atr := WilderSmoothing(tr, period);
    if atr.Err? {
      return Err(InvalidInput);
    }
    var plus := WilderSmoothing(plusDm, period);
    var minus := WilderSmoothing(minusDm, period);
    var dx := DirectionalIndex(c, period, atr.value, plus.value, minus.value);
    var defined := DefinedOf(dx);
    var smoothed := WilderSmoothing(defined, period);
    var offset := n - |defined|;
    for j := 0 to |defined|
      invariant |out| == n && forall k | 0 <= k < offset :: out[k] == None
      invariant forall k | 0 <= k < j :: out[offset + k] == smoothed.value[k]
    {
      out := out[offset + j := smoothed.value[j]];
    }
    RealignedIs(dx, period, out);
    return Ok(out);
  }

  lemma RealignedIs(s: OptSeries, period: nat, out: OptSeries)
    requires period >= 1 && |out| == |s|
    requires forall k | 0 <= k < |s| - |Defined(s)| :: out[k] == None
    requires forall k | 0 <= k < |Defined(s)| :: out[|s| - |Defined(s)| + k] == WilderSeries(Defined(s), period)[k]
    ensures out == Realigned(s, period)
  {
  }

  // -- the three inputs of ADX ------------------------------------------------

  /** The first true range is the bar's own; any other is the largest distance between the bar's
      ends and the close before it. */
  lemma TrueRangeIsLargest(c: Candles, i: nat)
    requires i < |c|
    ensures i == 0 ==> TrueRanges(c)[0] == c[0].high - c[0].low
    ensures i > 0 ==>
      var (range, high, low, before) := (TrueRanges(c)[i], c[i].high, c[i].low, c[i - 1].close);
      && range >= high - low && range >= high - before && range >= before - high
      && range >= low - before && range >= before - low
      && range in {high - low, high - before, before - high, low - before, before - low}
  {
  }

  /** A move counts in one direction only: upwards if the high rose, by more than the low fell;
      downwards if the low fell, by more than the high rose. */
  lemma MovesOneWay(c: Candles, i: nat)
    requires i < |c|
    ensures var (plus, minus) := (DirectionalMoves(c, true)[i], DirectionalMoves(c, false)[i]);
            if i == 0 then plus == minus == 0.0
            else
              var (rise, fall) := (c[i].high - c[i - 1].high, c[i - 1].low - c[i].low);
              && (rise > fall && rise > 0.0 ==> plus == rise && minus == 0.0)
              && (fall > rise && fall > 0.0 ==> minus == fall && plus == 0.0)
              && (!(rise > fall && rise > 0.0) && !(fall > rise && fall > 0.0) ==> plus == minus == 0.0)
  {
  }

  /** The directional index is the share that the two moves differ by, in percent. */
  lemma DxIsShare(range: real, plus: real, minus: real)
    requires range > 0.0 && plus >= 0.0 && minus >= 0.0
    ensures DxFrom(range, plus, minus).Some?
    ensures plus + minus > 0.0 ==>
      DxFrom(range, plus, minus).value * (plus + minus) == 100.0 * (if plus >= minus then plus - minus else minus - plus)
    ensures plus + minus == 0.0 ==> DxFrom(range, plus, minus).value == 0.0
  {
    var (plusDi, minusDi) := (100.0 * plus / range, 100.0 * minus / range);
    assert plusDi * range == 100.0 * plus && minusDi * range == 100.0 * minus;
    var (denom, spread) := (plusDi + minusDi, Abs(plusDi - minusDi));
    assert denom * range == 100.0 * (plus + minus);
    assert (plusDi - minusDi) * range == 100.0 * (plus - minus);
    var apart := if plus >= minus then plus - minus else minus - plus;
    assert spread * range == 100.0 * apart by {
      SpreadScales(plusDi - minusDi, range, 100.0 * (plus - minus));
    }
    if plus + minus > 0.0 {
      assert denom > 0.0;
      var v := 100.0 * spread / denom;
      assert v * denom == 100.0 * spread;
      assert (v * denom) * range == 100.0 * (spread * range);
      assert v * (denom * range) == (v * denom) * range;
      assert v * (100.0 * (plus + minus)) == 100.0 * (v * (plus + minus));
    }
  }

  lemma SpreadScales(d: real, range: real, x: real)
    requires range > 0.0 && d * range == x
    ensures Abs(d) * range == Abs(x)
  {
  }

  // -- where ADX values land ----------------------------------------------

  /** Undefined entries come first. */
  predicate PrefixUndefined(s: OptSeries, first: nat) {
    && first <= |s| && (forall i | 0 <= i < first :: s[i].None?)
    && (forall i | first <= i < |s| :: s[i].Some?)
  }

  function Values(s: OptSeries): (d: Series)
    requires forall i | 0 <= i < |s| :: s[i].Some?
    ensures |d| == |s|
  {
    seq(|s|, i requires 0 <= i < |s| => s[i].value)
  }

  lemma {:induction false} DefinedAfterPrefix(s: OptSeries, first: nat)
    requires PrefixUndefined(s, first)
    ensures Defined(s) == Values(s[first..])
    decreases |s|
  {
    if s != [] {
      if first > 0 {
        DefinedAfterPrefix(s[1..], first - 1);
        assert s[1..][first - 1..] == s[first..];
      } else {
        DefinedAfterPrefix(s[1..], 0);
        assert s[0..] == s;
        assert Values(s) == [s[0].value] + Values(s[1..]);
      }
    }
  }

  /** With its undefined entries first, a realigned series puts at each position the
      average of the values up to that very position. */
  lemma RealignedInPlace(s: OptSeries, period: nat, first: nat, i: nat)
    requires period >= 1 && PrefixUndefined(s, first) && i < |s|
    ensures Realigned(s, period)[i]
            == if i + 1 < first + period then None else Some(Wilder(Values(s[first..]), period, i - first))
  {
    DefinedAfterPrefix(s, first);
  }

  lemma TrueRangeNonNegative(c: Candles, i: nat)
    requires i < |c| && c[0].low <= c[0].high
    ensures TrueRangeAt(c, i) >= 0.0
  {
  }

  lemma RangesNonNegative(c: Candles, period: nat, i: nat)
    requires c != [] && c[0].low <= c[0].high && 1 <= period <= i + 1 <= |c|
    ensures Wilder(TrueRanges(c), period, i) >= 0.0
    ensures Wilder(DirectionalMoves(c, true), period, i) >= 0.0
    ensures Wilder(DirectionalMoves(c, false), period, i) >= 0.0
  {
    forall k | 0 <= k <= i
      ensures TrueRanges(c)[k] >= 0.0 && DirectionalMoves(c, true)[k] >= 0.0 && DirectionalMoves(c, false)[k] >= 0.0
    {
      TrueRangeNonNegative(c, k);
    }
    WilderNonNegative(TrueRanges(c), period, i);
    WilderNonNegative(DirectionalMoves(c, true), period, i);
    WilderNonNegative(DirectionalMoves(c, false), period, i);
  }

  lemma MixedStaysPositive(prev: real, x: real, n: nat)
    requires n >= 2 && prev > 0.0 && x >= 0.0
    ensures Mixed(prev, x, n) > 0.0
  {
  }

  /** For periods of at least two, a smoothed range that is positive stays positive. */
  lemma {:induction false} RangeStaysPositive(c: Candles, period: nat, i: nat, j: nat)
    requires c != [] && c[0].low <= c[0].high && 2 <= period <= i + 1 && i <= j < |c|
    requires Wilder(TrueRanges(c), period, i) > 0.0
    ensures Wilder(TrueRanges(c), period, j) > 0.0
    decreases j
  {
    if i < j {
      RangeStaysPositive(c, period, i, j - 1);
      TrueRangeNonNegative(c, j);
      MixedStaysPositive(Wilder(TrueRanges(c), period, j - 1), TrueRanges(c)[j], period);
    }
  }

  /** The first candle with a directional index: the first full window whose range is not zero. */
  function FirstDefined(c: Candles, period: nat, i: nat): (first: nat)
    requires 1 <= period && period - 1 <= i <= |c|
    ensures i <= first <= |c|
    ensures forall k | i <= k < first :: Wilder(TrueRanges(c), period, k) == 0.0
    ensures first < |c| ==> Wilder(TrueRanges(c), period, first) != 0.0
    decreases |c| - i
  {
    if i == |c| || Wilder(TrueRanges(c), period, i) != 0.0 then i else FirstDefined(c, period, i + 1)
  }

  lemma UndefinedFirst(c: Candles, period: nat)
    requires c != [] && c[0].low <= c[0].high && 2 <= period && period - 1 <= |c|
    ensures PrefixUndefined(DxSeries(c, period), FirstDefined(c, period, period - 1))
  {
    var first := FirstDefined(c, period, period - 1);
    forall i | first <= i < |c| ensures DxAt(c, period, i).Some? {
      RangesNonNegative(c, period, first);
      RangeStaysPositive(c, period, first, i);
    }
  }

  lemma DxFromInRange(range: real, plus: real, minus: real)
    requires range > 0.0 && plus >= 0.0 && minus >= 0.0
    ensures DxFrom(range, plus, minus).Some? && 0.0 <= DxFrom(range, plus, minus).value <= 100.0
  {
    var plusDi, minusDi := 100.0 * plus / range, 100.0 * minus / range;
    assert plusDi >= 0.0 && minusDi >= 0.0;
    var denom := plusDi + minusDi;
    if denom > 0.0 {
      var spread := Abs(plusDi - minusDi);
      assert 0.0 <= spread <= denom;
      Divides(100.0 * spread, 100.0, denom);
      DividesUp(100.0 * spread, 0.0, denom);
    }
  }

  lemma DxInRange(c: Candles, period: nat, i: nat)
    requires c != [] && c[0].low <= c[0].high && 2 <= period && i < |c| && DxSeries(c, period)[i].Some?
    ensures 0.0 <= DxSeries(c, period)[i].value <= 100.0
  {
    hide Wilder, DxFrom;
    RangesNonNegative(c, period, i);
    var range := Wilder(TrueRanges(c), period, i);
    NoRangeNoDx(range, Wilder(DirectionalMoves(c, true), period, i), Wilder(DirectionalMoves(c, false), period, i));
    DxFromInRange(range, Wilder(DirectionalMoves(c, true), period, i), Wilder(DirectionalMoves(c, false), period, i));
  }

  lemma NoRangeNoDx(range: real, plus: real, minus: real)
    ensures DxFrom(range, plus, minus).None? <==> range == 0.0
  {
  }

  /** With a period of at least two and a sane first candle, every ADX value stands at its own
      candle, smooths the directional indices up to that candle, and lies in [0, 100]. */
  lemma AdxInPlace(c: Candles, period: nat, i: nat)
    requires c != [] && c[0].low <= c[0].high && 2 <= period && period - 1 <= |c| && i < |c|
    ensures var (dx, first) := (DxSeries(c, period), FirstDefined(c, period, period - 1));
            && PrefixUndefined(dx, first)
            && Realigned(dx, period)[i]
               == (if i + 1 < first + period then None else Some(Wilder(Values(dx[first..]), period, i - first)))
            && (Realigned(dx, period)[i].Some? ==> 0.0 <= Realigned(dx, period)[i].value <= 100.0)
  {
    var (dx, first) := (DxSeries(c, period), FirstDefined(c, period, period - 1));
    UndefinedFirst(c, period);
    hide Wilder, DxSeries, FirstDefined, Realigned;
    RealignedInPlace(dx, period, first, i);
    if i + 1 >= first + period {
      var values := Values(dx[first..]);
      forall k | 0 <= k < |values| ensures 0.0 <= values[k] <= 100.0 {
        DxInRange(c, period, first + k);
      }
      WilderBetween(values, period, i - first, 0.0, 100.0);
    }
  }

  // -- period one ---------------------------------------------------------

  lemma {:induction false} WilderOfOne(values: Series, i: nat)
    requires i < |values|
    ensures Wilder(values, 1, i) == values[i]
  {
    if i == 0 {
      assert values[..1][..0] == [] && Sum(values[..1]) == values[0];
    }
  }

  lemma RealignedByOne(s: OptSeries, i: nat)
    requires i < |s|
    ensures var offset := |s| - |Defined(s)|;
            Realigned(s, 1)[i] == if i < offset then None else Some(Defined(s)[i - offset])
  {
    if i >= |s| - |Defined(s)| {
      WilderOfOne(Defined(s), i - (|s| - |Defined(s)|));
    }
  }

  /** Once a candle has a range, every later one has. */
  predicate RangesNeverVanish(c: Candles) {
    forall i, j | 0 <= i < j < |c| :: TrueRangeAt(c, i) != 0.0 ==> TrueRangeAt(c, j) != 0.0
  }

  lemma PeriodOneUndefined(c: Candles, i: nat)
    requires i < |c|
    ensures DxSeries(c, 1)[i].None? <==> TrueRangeAt(c, i) == 0.0
  {
    WilderOfOne(TrueRanges(c), i);
    hide Wilder;
  }

  lemma InPlaceIsPrefix(s: OptSeries)
    requires Realigned(s, 1) == s
    ensures PrefixUndefined(s, |s| - |Defined(s)|)
  {
    forall i | 0 <= i < |s| ensures s[i].None? <==> i < |s| - |Defined(s)| {
      RealignedByOne(s, i);
    }
    hide Realigned, Defined;
  }

  lemma PrefixIsInPlace(s: OptSeries, first: nat)
    requires PrefixUndefined(s, first)
    ensures Realigned(s, 1) == s
  {
    DefinedAfterPrefix(s, first);
    hide Realigned, Defined;
    forall i | 0 <= i < |s| ensures Realigned(s, 1)[i] == s[i] {
      RealignedByOne(s, i);
    }
  }

  /** For period one the series stands in place exactly when no candle after the first one
      with a range lacks a range. */
  lemma PeriodOneInPlaceIff(c: Candles)
    ensures Realigned(DxSeries(c, 1), 1) == DxSeries(c, 1) <==> RangesNeverVanish(c)
  {
    var s := DxSeries(c, 1);
    forall i: nat | i < |c| ensures s[i].None? <==> TrueRangeAt(c, i) == 0.0 {
      PeriodOneUndefined(c, i);
    }
    hide DxSeries, TrueRangeAt, Defined, Realigned;
    if Realigned(s, 1) == s {
      InPlaceIsPrefix(s);
    }
    if RangesNeverVanish(c) {
      PrefixIsInPlace(s, FirstSome(s, 0));
    }
  }

  function FirstSome(s: OptSeries, i: nat): (first: nat)
    requires i <= |s|
    ensures i <= first <= |s| && (forall k | i <= k < first :: s[k].None?) && (first < |s| ==> s[first].Some?)
    decreases |s| - i
  {
    if i == |s| || s[i].Some? then i else FirstSome(s, i + 1)
  }

  /** A flat candle between two others shifts the first value onto the flat one. */
  lemma PeriodOneMisplaces() returns (c: Candles)
    ensures |c| == 3 && forall i | 0 <= i < 3 :: c[i].low <= c[i].close <= c[i].high
    ensures DxAt(c, 1, 0).Some? && DxAt(c, 1, 1).None?
    ensures Realigned(DxSeries(c, 1), 1)[0].None? && Realigned(DxSeries(c, 1), 1)[1] == DxAt(c, 1, 0)
  {
    c := [Candle(0, 1.0, 2.0, 1.0, 1.0, 0.0), Candle(1, 1.0, 1.0, 1.0, 1.0, 0.0), Candle(2, 1.0, 2.0, 1.0, 1.0, 0.0)];
    var s := DxSeries(c, 1);
    forall i | 0 <= i < 3 ensures DxAt(c, 1, i).None? <==> TrueRangeAt(c, i) == 0.0 {
      WilderOfOne(TrueRanges(c), i);
    }
    assert s[0].Some? && s[1].None? && s[2].Some?;
    assert s == [s[0]] + ([None] + [s[2]]);
    hide DxSeries, DxAt, TrueRangeAt;
    assert Defined(s) == [s[0].value, s[2].value] by {
      assert s[1..][1..] == [s[2]] && [s[2]][1..] == [];
      assert Defined([s[2]]) == [s[2].value];
    }
    RealignedByOne(s, 0);
    RealignedByOne(s, 1);
  }
}
