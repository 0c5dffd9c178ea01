/**
 * Currency conversion of a token for display (`conversion`): every
 * monetary field is multiplied by the rate of the chosen currency and
 * tagged with that currency's glyph, and as a side effect the token's own
 * percentage-change fields are recomputed from the rate-scaled prices.
 */
module Conversion {
  import opened Wrappers
  import opened Tokens
  import opened Statistics

  /** The currency codes that have a glyph of their own. */
  const KnownCurrencies: set<string> := {"ALGO", "USD", "EUR", "GBP"}

  /** The display suffix for a currency: a space and one glyph. */
  function Postfix(currency: string): (p: string)
    ensures |p| == 2 && p[0] == ' '
    ensures p == " ?" <==> currency !in KnownCurrencies
  {
    if currency == "ALGO" then " Ⱥ"
    else if currency == "USD" then " $"
    else if currency == "EUR" then " €"
    else if currency == "GBP" then " £"
    else " ?"
  }

  /** The glyph table, and that no two known currencies share a glyph. */
  lemma PostfixTable(a: string, b: string)
    ensures Postfix("ALGO") == " Ⱥ" && Postfix("USD") == " $"
    ensures Postfix("EUR") == " €" && Postfix("GBP") == " £"
    ensures a in KnownCurrencies && b in KnownCurrencies && a != b ==> Postfix(a) != Postfix(b)
  {
  }

  /** Why a conversion can fail: Python's KeyError and TypeError. */
  datatype ConversionError =
    | UnknownCurrency   // `currencies[currency]` with a code missing from the table
    | AbsentField       // arithmetic or number formatting applied to an absent (`None`) field

  /**
   * The converted copy of a token. Its monetary fields hold the scaled
   * values that the source renders as text with `postfix` appended.
   */
  datatype DisplayToken = DisplayToken(
    assetId: int, ticker: string, rank: int,
    price: real, highest24h: real, highest7d: real, lowest24h: real, lowest7d: real,
    change24Hrs: Option<real>, change7Days: Option<real>,
    volume1d: real, marketCap: real, postfix: string)

  /** An amount of the base asset expressed in a currency of the given rate. */
  function InCurrency(amount: real, rate: real): real {
    amount * rate
  }

  /**
   * Scaling both prices by the same exchange rate leaves the change alone
   * when the rate is non-zero, and makes it absent when the rate is zero.
   */
  lemma ChangeIndependentOfRate(newPrice: real, oldPrice: real, rate: real)
    ensures rate != 0.0 ==> PercentageChange(InCurrency(newPrice, rate), InCurrency(oldPrice, rate)) == PercentageChange(newPrice, oldPrice)
    ensures rate == 0.0 ==> PercentageChange(InCurrency(newPrice, rate), InCurrency(oldPrice, rate)) == None
  {
    if rate != 0.0 && oldPrice != 0.0 {
      var scaled := PercentageChange(InCurrency(newPrice, rate), InCurrency(oldPrice, rate)).value;
      var plain := PercentageChange(newPrice, oldPrice).value;
      assert scaled * (oldPrice * rate) == (newPrice * rate - oldPrice * rate) * 100.0;
      assert plain * oldPrice == (newPrice - oldPrice) * 100.0;
      assert (scaled * oldPrice) * rate == (plain * oldPrice) * rate;
      assert scaled * oldPrice == plain * oldPrice;
    }
  }

  /** All four candle extrema of the token have been recorded. */
  predicate ExtremaSet(token: TokenInfo)
    reads token
  {
    token.highest24h.Some? && token.lowest24h.Some? && token.highest7d.Some? && token.lowest7d.Some?
  }

  /**
   * The converted copy built from the token's current fields. An extremum
   * that was never recorded cannot be scaled; an absent percentage change
   * is carried over as absent ("change unavailable").
   */
  function Display(token: TokenInfo, rate: real, postfix: string): (r: Result<DisplayToken, ConversionError>)
    reads token
    ensures r.Success? <==> ExtremaSet(token)
    ensures r.Failure? ==> r.error == AbsentField
    ensures r.Success? ==>
      var d := r.value;
      && d.assetId == token.assetId && d.ticker == token.ticker && d.rank == token.rank
      && d.price == InCurrency(token.price, rate)
      && d.highest24h == InCurrency(token.highest24h.value, rate) && d.lowest24h == InCurrency(token.lowest24h.value, rate)
      && d.highest7d == InCurrency(token.highest7d.value, rate) && d.lowest7d == InCurrency(token.lowest7d.value, rate)
      && d.volume1d == InCurrency(token.volume1d, rate) && d.marketCap == InCurrency(token.marketCap, rate)
      && d.change24Hrs == token.change24Hrs && d.change7Days == token.change7Days
      && d.postfix == postfix
  {
    if !ExtremaSet(token) then Failure(AbsentField)
    else
      Success(DisplayToken(
        token.assetId, token.ticker, token.rank,
        InCurrency(token.price, rate),
        InCurrency(token.highest24h.value, rate), InCurrency(token.highest7d.value, rate),
        InCurrency(token.lowest24h.value, rate), InCurrency(token.lowest7d.value, rate),
        token.change24Hrs, token.change7Days,
        InCurrency(token.volume1d, rate), InCurrency(token.marketCap, rate), postfix))
  }

  /**
   * The converted copy exactly as the source builds it: the percentage
   * changes are formatted as numbers, so an absent change fails like an
   * absent extremum does.
   */
  function DisplayAsWritten(token: TokenInfo, rate: real, postfix: string): (r: Result<DisplayToken, ConversionError>)
    reads token
    ensures r.Success? <==> ExtremaSet(token) && token.change24Hrs.Some? && token.change7Days.Some?
    ensures r.Success? ==> r == Display(token, rate, postfix)
    ensures r.Failure? ==> r.error == AbsentField
  {
    if !ExtremaSet(token) || token.change24Hrs.None? || token.change7Days.None? then Failure(AbsentField)
    else Display(token, rate, postfix)
  }

  /**
   * `conversion`: look up the rate (failing, with the token untouched, for
   * an unknown currency), overwrite the token's percentage changes with
   * those of the rate-scaled prices, then build the converted copy. The
   * token's prices and extrema are left as they were.
   */
  method Conversion(currencies: map<string, real>, currency: string, token: TokenInfo)
    returns (r: Result<DisplayToken, ConversionError>)
    modifies token`change24Hrs, token`change7Days
    ensures currency !in currencies ==> r == Failure(UnknownCurrency) && unchanged(token)
    ensures currency in currencies ==>
      var rate := currencies[currency];
      && token.change24Hrs == PercentageChange(InCurrency(token.price, rate), InCurrency(token.price1d, rate))
      && token.change7Days == PercentageChange(InCurrency(token.price, rate), InCurrency(token.price7d, rate))
      && r == Display(token, rate, Postfix(currency))
    ensures currency in currencies && currencies[currency] != 0.0 ==>
      token.change24Hrs == PercentageChange(token.price, token.price1d)
      && token.change7Days == PercentageChange(token.price, token.price7d)
  {
    var postfix := Postfix(currency);
    if currency !in currencies {
      return Failure(UnknownCurrency);
    }
    var rate := currencies[currency];
    var changes := CalculatePercentageChange(
      InCurrency(token.price, rate), InCurrency(token.price1d, rate), InCurrency(token.price7d, rate));
    ChangeIndependentOfRate(token.price, token.price1d, rate);
    ChangeIndependentOfRate(token.price, token.price7d, rate);
    token.change24Hrs, token.change7Days := changes.0, changes.1;
    r := Display(token, rate, postfix);
  }

  /** `conversion` exactly as written: the same steps, ending in `DisplayAsWritten`. */
  method ConversionAsWritten(currencies: map<string, real>, currency: string, token: TokenInfo)
    returns (r: Result<DisplayToken, ConversionError>)
    modifies token`change24Hrs, token`change7Days
    ensures currency !in currencies ==> r == Failure(UnknownCurrency) && unchanged(token)
    ensures currency in currencies ==>
      var rate := currencies[currency];
      && token.change24Hrs == PercentageChange(InCurrency(token.price, rate), InCurrency(token.price1d, rate))
      && token.change7Days == PercentageChange(InCurrency(token.price, rate), InCurrency(token.price7d, rate))
      && r == DisplayAsWritten(token, rate, Postfix(currency))
  {
    var postfix := Postfix(currency);
    if currency !in currencies {
      return Failure(UnknownCurrency);
    }
    var rate := currencies[currency];
    var changes := CalculatePercentageChange(
      InCurrency(token.price, rate), InCurrency(token.price1d, rate), InCurrency(token.price7d, rate));
    token.change24Hrs, token.change7Days := changes.0, changes.1;
    r := DisplayAsWritten(token, rate, postfix);
  }

  /**
   * A token whose 24-hour-ago price is zero (or a currency whose rate is
   * zero) gets no 24-hour change; the source then formats that absent
   * change as a number and fails, where the corrected conversion reports
   * the change as unavailable.
   */
  lemma ZeroReferenceBreaksAsWritten(token: TokenInfo, rate: real, postfix: string)
    requires ExtremaSet(token)
    requires InCurrency(token.price1d, rate) == 0.0
    requires token.change24Hrs == PercentageChange(InCurrency(token.price, rate), InCurrency(token.price1d, rate))
    ensures DisplayAsWritten(token, rate, postfix) == Failure(AbsentField)
    ensures Display(token, rate, postfix).Success?
    ensures Display(token, rate, postfix).value.change24Hrs == None
  {
  }
}
