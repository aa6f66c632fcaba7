/**
 * Fiat currencies, rate tables, cross-rate conversion and the satoshi unit
 * (src/ContentManager.backup.tsx, convertCurrency, and the satoshi
 * conversions shared by both screens).
 */
module Money {
  import opened Wrappers

  /** The four fiat currencies the tracker offers. */
  datatype Currency = BRL | USD | EUR | GBP

  /** A rate table: units of each currency per one US dollar. */
  datatype Rates = Rates(brl: real, usd: real, eur: real, gbp: real)

  /** Satoshis in one bitcoin. */
  const SatsPerBtc: real := 100000000.0

  function RateOf(rates: Rates, c: Currency): real
  {
    match c
    case BRL => rates.brl
    case USD => rates.usd
    case EUR => rates.eur
    case GBP => rates.gbp
  }

  predicate PositiveRates(rates: Rates)
  {
    rates.brl > 0.0 && rates.usd > 0.0 && rates.eur > 0.0 && rates.gbp > 0.0
  }

  /** The table a conversion uses: a transaction's own snapshot when present, else the live table. */
  function EffectiveRates(snapshot: Option<Rates>, live: Rates): (rates: Rates)
    ensures snapshot.Some? ==> rates == snapshot.value
    ensures snapshot.None? ==> rates == live
  {
    match snapshot
    case Some(s) => s
    case None => live
  }

  /** The table used when the rate request fails: USD 1, BRL 5, EUR 0.92, GBP 0.79 per dollar. */
  const DefaultRates := Rates(5.0, 1.0, 0.92, 0.79)

  /** The three quotes a rate reply may carry; a missing quote is None. */
  datatype RateReply = RateReply(brl: Option<real>, eur: Option<real>, gbp: Option<real>)

  /** `quote || fallback`: a missing or zero quote reads as the fallback. */
  function QuoteOr(quote: Option<real>, fallback: real): (r: real)
    ensures quote.Some? && quote.value != 0.0 ==> r == quote.value
    ensures quote.None? || quote.value == 0.0 ==> r == fallback
  {
    if quote.Some? && quote.value != 0.0 then quote.value else fallback
  }

  /**
   * The table fetchExchangeRates produces from the reply (None when the
   * request failed): USD pinned to 1, each other quote falling back to its
   * default when missing or zero.
   */
  function FetchedRates(reply: Option<RateReply>): (rates: Rates)
    ensures rates.usd == 1.0
    ensures reply.None? ==> rates == DefaultRates
    ensures reply.Some? ==>
      && rates.brl == QuoteOr(reply.value.brl, DefaultRates.brl)
      && rates.eur == QuoteOr(reply.value.eur, DefaultRates.eur)
      && rates.gbp == QuoteOr(reply.value.gbp, DefaultRates.gbp)
  {
    match reply
    case None => DefaultRates
    case Some(q) => Rates(QuoteOr(q.brl, 5.0), 1.0, QuoteOr(q.eur, 0.92), QuoteOr(q.gbp, 0.79))
  }

  /** A quote that is not negative, when present. */
  predicate NonNegativeQuote(quote: Option<real>)
  {
    quote.Some? ==> quote.value >= 0.0
  }

  /**
   * A fetched table has no zero rate as long as the reply carries no
   * negative quote, so every conversion through it is defined and keeps
   * the dollar value.
   */
  lemma FetchedRatesPositive(reply: Option<RateReply>)
    requires reply.Some? ==>
      NonNegativeQuote(reply.value.brl) && NonNegativeQuote(reply.value.eur) && NonNegativeQuote(reply.value.gbp)
    ensures PositiveRates(FetchedRates(reply))
    ensures forall from, to :: CanConvert(from, to, FetchedRates(reply))
  {
    var rates := FetchedRates(reply);
    forall from, to
      ensures CanConvert(from, to, rates)
    {
      assert RateOf(rates, from) > 0.0 by {
        match from
        case BRL =>
        case USD =>
        case EUR =>
        case GBP =>
      }
    }
  }

  /** A conversion is defined unless it would divide by a zero source rate. */
  predicate CanConvert(from: Currency, to: Currency, rates: Rates)
  {
    from == to || RateOf(rates, from) != 0.0
  }

  /** Re-expresses an amount held at `fromRate` units per dollar at `toRate` units per dollar. */
  function Cross(amount: real, fromRate: real, toRate: real): real
    requires fromRate != 0.0
  {
    amount / fromRate * toRate
  }

  /**
   * Converts `amount` from one currency to another through US dollars.
   * Equal currencies return the amount untouched, with no rate lookup
   * (even through a table that could not convert them).
   */
  function Convert(amount: real, from: Currency, to: Currency, snapshot: Option<Rates>, live: Rates): (r: real)
    requires CanConvert(from, to, EffectiveRates(snapshot, live))
    ensures from == to ==> r == amount
  {
    if from == to then amount
    else
      var rates := EffectiveRates(snapshot, live);
      Cross(amount, RateOf(rates, from), RateOf(rates, to))
  }

  /** Dividing by a non-zero rate and multiplying back is the identity. */
  lemma DivMulCancel(x: real, c: real)
    requires c != 0.0
    ensures x / c * c == x
  {
  }

  /** Multiplying by a non-zero rate and dividing back is the identity. */
  lemma MulDivCancel(x: real, c: real)
    requires c != 0.0
    ensures x * c / c == x
  {
  }

  /** A conversion between different currencies keeps the dollar value of the amount. */
  lemma ConvertKeepsDollarValue(amount: real, from: Currency, to: Currency, snapshot: Option<Rates>, live: Rates)
    requires PositiveRates(EffectiveRates(snapshot, live))
    ensures var rates := EffectiveRates(snapshot, live);
      Convert(amount, from, to, snapshot, live) / RateOf(rates, to) == amount / RateOf(rates, from)
  {
    var rates := EffectiveRates(snapshot, live);
    if from != to {
      var u, rb := amount / RateOf(rates, from), RateOf(rates, to);
      assert Convert(amount, from, to, snapshot, live) == Cross(amount, RateOf(rates, from), rb);
      assert Cross(amount, RateOf(rates, from), rb) == u * rb;
      MulDivCancel(u, rb);
    }
  }

  /** With a snapshot present, the live table has no influence on a conversion. */
  lemma SnapshotTakesPrecedence(amount: real, from: Currency, to: Currency, snapshot: Rates, live1: Rates, live2: Rates)
    requires CanConvert(from, to, snapshot)
    ensures Convert(amount, from, to, Some(snapshot), live1) == Convert(amount, from, to, Some(snapshot), live2)
  {
  }

  /** Over positive rates, converting A to B and back to A returns the original amount. */
  lemma ConvertRoundTrip(amount: real, a: Currency, b: Currency, snapshot: Option<Rates>, live: Rates)
    requires PositiveRates(EffectiveRates(snapshot, live))
    ensures Convert(Convert(amount, a, b, snapshot, live), b, a, snapshot, live) == amount
  {
    if a != b {
      var rates := EffectiveRates(snapshot, live);
      var ra, rb := RateOf(rates, a), RateOf(rates, b);
      var u := amount / ra;
      var there := Convert(amount, a, b, snapshot, live);
      assert there == Cross(amount, ra, rb) == u * rb;
      assert Convert(there, b, a, snapshot, live) == Cross(there, rb, ra) == there / rb * ra;
      MulDivCancel(u, rb);
      DivMulCancel(amount, ra);
    }
  }

  /** When the table pins USD to 1, a direct conversion equals going through USD explicitly. */
  lemma ConvertThroughUsd(amount: real, from: Currency, to: Currency, snapshot: Option<Rates>, live: Rates)
    requires PositiveRates(EffectiveRates(snapshot, live))
    requires EffectiveRates(snapshot, live).usd == 1.0
    ensures Convert(amount, from, to, snapshot, live)
         == Convert(Convert(amount, from, USD, snapshot, live), USD, to, snapshot, live)
  {
  }

  /** Conversion is additive: converting a sum is the sum of the conversions. */
  lemma ConvertAdditive(x: real, y: real, from: Currency, to: Currency, snapshot: Option<Rates>, live: Rates)
    requires CanConvert(from, to, EffectiveRates(snapshot, live))
    ensures Convert(x + y, from, to, snapshot, live)
         == Convert(x, from, to, snapshot, live) + Convert(y, from, to, snapshot, live)
  {
    if from != to {
      var rates := EffectiveRates(snapshot, live);
      var ra := RateOf(rates, from);
      assert (x + y) / ra == x / ra + y / ra;
    }
  }

  /**
   * Math.round over the reals: the nearest integer, halves rounded up,
   * i.e. the floor of x + 1/2.
   */
  function Round(x: real): (n: int)
    ensures x - 0.5 < n as real <= x + 0.5
  {
    (x + 0.5).Floor
  }

  /** Satoshis for a bitcoin amount, as both screens derive them on creation. */
  function SatoshisOf(bitcoinAmount: real): (sats: int)
    ensures bitcoinAmount * SatsPerBtc - 0.5 < sats as real <= bitcoinAmount * SatsPerBtc + 0.5
  {
    Round(bitcoinAmount * SatsPerBtc)
  }

  /** A bitcoin amount that is a whole number of satoshis is converted exactly. */
  lemma SatoshisOfExact(k: int)
    ensures SatoshisOf(k as real / SatsPerBtc) == k
  {
    var n := SatoshisOf(k as real / SatsPerBtc);
    assert k as real / SatsPerBtc * SatsPerBtc == k as real;
    assert k as real - 0.5 < n as real <= k as real + 0.5;
  }
}
