/**
 * Candle history requests: which sampling interval to ask for, from which
 * start time, and how an empty answer is reported.
 */
module Candles {
  import opened Wrappers

  /** One time bucket of price history, as the candles endpoint returns it. */
  datatype Candle = Candle(timestamp: int, open: real, high: real, low: real, close: real, volume: real)

  /** The parameters of one candles request that the bot computes itself. */
  datatype CandleQuery = CandleQuery(interval: nat, start: int)

  const SecondsPerDay: int := 24 * 3600

  /**
   * Sampling interval (seconds) for an asset that is `age` seconds old:
   * the younger the asset, the finer the candles. Thresholds are inclusive.
   */
  function CandleInterval(age: int): (interval: nat)
    ensures interval in {30, 60, 300, 7200}
  {
    if age <= 1800 then 30
    else if age <= 3600 then 60
    else if age <= 86400 then 300
    else 7200
  }

  /**
   * The request `get_ticker_candles` issues at wall-clock time `now` for a
   * token created at `creationTimestamp`, looking back `startNumDaysAgo` days.
   */
  function CandleQueryFor(now: int, creationTimestamp: int, startNumDaysAgo: int): (q: CandleQuery)
    ensures q.interval == CandleInterval(now - creationTimestamp)
    ensures now - q.start == startNumDaysAgo * SecondsPerDay
  {
    CandleQuery(CandleInterval(now - creationTimestamp), now - startNumDaysAgo * SecondsPerDay)
  }

  /** A successful but empty candles answer is reported as no data at all. */
  function CandlesOrNone(candles: seq<Candle>): (r: Option<seq<Candle>>)
    ensures r.None? <==> |candles| == 0
    ensures r.Some? ==> r.value == candles
  {
    if |candles| == 0 then None else Some(candles)
  }

  /** Each tier of the interval table, in both directions. */
  lemma IntervalTiers(age: int)
    ensures CandleInterval(age) == 30 <==> age <= 1800
    ensures CandleInterval(age) == 60 <==> 1800 < age <= 3600
    ensures CandleInterval(age) == 300 <==> 3600 < age <= 86400
    ensures CandleInterval(age) == 7200 <==> 86400 < age
  {
  }

  /** An older asset never gets a finer interval than a younger one. */
  lemma IntervalMonotone(younger: int, older: int)
    requires younger <= older
    ensures CandleInterval(younger) <= CandleInterval(older)
  {
  }

  /** The boundary cases: each threshold belongs to the finer tier. */
  lemma IntervalBoundaries()
    ensures CandleInterval(1799) == 30 && CandleInterval(1800) == 30 && CandleInterval(1801) == 60
    ensures CandleInterval(3600) == 60 && CandleInterval(3601) == 300
    ensures CandleInterval(86400) == 300 && CandleInterval(86401) == 7200
    ensures CandleInterval(90000) == 7200
  {
  }

  /**
   * Two requests, each reading its own clock: a look-back at least as long,
   * issued no later, starts no later and never uses a coarser interval (it
   * may use a finer one, see `LookbackIntervalsCanDiffer`). The workflow
   * issues the 7-day request before the 1-day one, so the 7-day window
   * begins no later than the 1-day window.
   */
  lemma LongerLookbackStartsEarlier(nowLong: int, nowShort: int, creationTimestamp: int, shortDays: int, longDays: int)
    requires nowLong <= nowShort
    requires shortDays <= longDays
    ensures CandleQueryFor(nowLong, creationTimestamp, longDays).start
         <= CandleQueryFor(nowShort, creationTimestamp, shortDays).start
    ensures CandleQueryFor(nowLong, creationTimestamp, longDays).interval
         <= CandleQueryFor(nowShort, creationTimestamp, shortDays).interval
  {
    IntervalMonotone(nowLong - creationTimestamp, nowShort - creationTimestamp);
  }

  /** The intervals of two such requests can differ: one second apart across the 1800 s threshold. */
  lemma LookbackIntervalsCanDiffer()
    ensures CandleQueryFor(1800, 0, 7).interval == 30
    ensures CandleQueryFor(1801, 0, 1).interval == 60
  {
  }
}
