/**
 * Statistics over fetched data: the extreme prices of a candle series and
 * the percentage change of a price against a reference price.
 */
module Statistics {
  import opened Wrappers
  import opened Candles

  /** The largest `high` of a non-empty candle series. */
  function HighestHigh(candles: seq<Candle>): (m: real)
    requires |candles| > 0
    ensures forall i :: 0 <= i < |candles| ==> candles[i].high <= m
    ensures exists i :: 0 <= i < |candles| && candles[i].high == m
  {
    if |candles| == 1 then candles[0].high
    else
      var rest := HighestHigh(candles[1..]);
      assert forall i :: 1 <= i < |candles| ==> candles[i] == candles[1..][i - 1];
      if candles[0].high >= rest then candles[0].high else rest
  }

  /** The smallest `low` of a non-empty candle series. */
  function LowestLow(candles: seq<Candle>): (m: real)
    requires |candles| > 0
    ensures forall i :: 0 <= i < |candles| ==> m <= candles[i].low
    ensures exists i :: 0 <= i < |candles| && candles[i].low == m
  {
    if |candles| == 1 then candles[0].low
    else
      var rest := LowestLow(candles[1..]);
      assert forall i :: 1 <= i < |candles| ==> candles[i] == candles[1..][i - 1];
      if candles[0].low <= rest then candles[0].low else rest
  }

  /**
   * `find_highest_and_lowest`: the highest high and the lowest low of a
   * series. Python's `max`/`min` raise on an empty series, so callers must
   * pass at least one candle.
   */
  function FindHighestAndLowest(candles: seq<Candle>): (r: (real, real))
    requires |candles| > 0
    ensures forall i :: 0 <= i < |candles| ==> candles[i].high <= r.0
    ensures exists i :: 0 <= i < |candles| && candles[i].high == r.0
    ensures forall i :: 0 <= i < |candles| ==> r.1 <= candles[i].low
    ensures exists i :: 0 <= i < |candles| && candles[i].low == r.1
  {
    (HighestHigh(candles), LowestLow(candles))
  }

  /** A candle whose low does not exceed its high. */
  predicate WellFormed(c: Candle) {
    c.low <= c.high
  }

  /** Over well-formed candles the lowest low never exceeds the highest high. */
  lemma LowestBelowHighest(candles: seq<Candle>)
    requires |candles| > 0
    requires forall i :: 0 <= i < |candles| ==> WellFormed(candles[i])
    ensures FindHighestAndLowest(candles).1 <= FindHighestAndLowest(candles).0
  {
  }

  /**
   * The two bounds pin the pair down: any pair that bounds the series and
   * is attained by it is the pair `FindHighestAndLowest` returns.
   */
  lemma ExtremaUnique(candles: seq<Candle>, hi: real, lo: real)
    requires |candles| > 0
    requires forall i :: 0 <= i < |candles| ==> candles[i].high <= hi
    requires exists i :: 0 <= i < |candles| && candles[i].high == hi
    requires forall i :: 0 <= i < |candles| ==> lo <= candles[i].low
    requires exists i :: 0 <= i < |candles| && candles[i].low == lo
    ensures FindHighestAndLowest(candles) == (hi, lo)
  {
  }

  /**
   * `percentage_change`: the change from `oldPrice` to `newPrice` in percent
   * of `oldPrice`, absent when the reference price is zero.
   */
  function PercentageChange(newPrice: real, oldPrice: real): (r: Option<real>)
    ensures r.None? <==> oldPrice == 0.0
    ensures r.Some? ==> r.value * oldPrice == (newPrice - oldPrice) * 100.0
  {
    if oldPrice == 0.0 then None else Some((newPrice - oldPrice) / oldPrice * 100.0)
  }

  /**
   * `calculate_percentage_change`: the 24-hour and the 7-day change of the
   * current price, each by the same rule against its own reference.
   */
  function CalculatePercentageChange(currentPrice: real, price24hrAgo: real, price7daysAgo: real)
    : (r: (Option<real>, Option<real>))
    ensures r.0 == PercentageChange(currentPrice, price24hrAgo)
    ensures r.1 == PercentageChange(currentPrice, price7daysAgo)
  {
    (PercentageChange(currentPrice, price24hrAgo), PercentageChange(currentPrice, price7daysAgo))
  }

  /** Applying a present change to the reference price gives back the new price. */
  lemma ChangeRoundTrip(newPrice: real, oldPrice: real)
    requires oldPrice != 0.0
    ensures oldPrice + oldPrice * PercentageChange(newPrice, oldPrice).value / 100.0 == newPrice
  {
  }

  /** Against a positive reference, the change is positive exactly when the price rose. */
  lemma ChangeSign(newPrice: real, oldPrice: real)
    requires oldPrice > 0.0
    ensures PercentageChange(newPrice, oldPrice).value > 0.0 <==> newPrice > oldPrice
    ensures PercentageChange(newPrice, oldPrice).value == 0.0 <==> newPrice == oldPrice
  {
  }
}
