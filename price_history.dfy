/**
 * Historical price lookup of src/ContentManager.backup.tsx
 * (fetchHistoricalBitcoinPrice): from an already fetched list of
 * [timestamp in ms, USD price] samples, pick the one closest in time to the
 * requested instant, then express it in the requested currency.
 */
module PriceHistory {
  import opened Wrappers
  import opened Money

  /** One sample of the historical feed: a millisecond timestamp and a USD price. */
  type Sample = (int, real)

  /** |a - b|. */
  function Distance(a: int, b: int): (d: nat)
    ensures d == a - b || d == b - a
  {
    if a >= b then a - b else b - a
  }

  /**
   * Sample k is at minimal distance from `targetMs`, and every earlier sample
   * is strictly farther: among equally close samples, k is the first.
   */
  ghost predicate EarliestClosest(prices: seq<Sample>, targetMs: int, k: int)
  {
    && 0 <= k < |prices|
    && (forall j :: 0 <= j < |prices| ==> Distance(prices[k].0, targetMs) <= Distance(prices[j].0, targetMs))
    && (forall j :: 0 <= j < k ==> Distance(prices[j].0, targetMs) > Distance(prices[k].0, targetMs))
  }

  /** The closest-price loop: keeps the first sample, replacing it only by a strictly closer one. */
  method ClosestPrice(prices: seq<Sample>, targetSeconds: int) returns (closestPrice: real)
    requires |prices| > 0
    ensures exists k :: EarliestClosest(prices, targetSeconds * 1000, k) && closestPrice == prices[k].1
  {
    var targetMs := targetSeconds * 1000;
    closestPrice := prices[0].1;
    var minDiff := Distance(prices[0].0, targetMs);
    ghost var k := 0;
    for i := 0 to |prices|
      invariant 0 <= k < |prices| && (k == 0 || k < i)
      invariant closestPrice == prices[k].1 && minDiff == Distance(prices[k].0, targetMs)
      invariant forall j :: 0 <= j < i ==> minDiff <= Distance(prices[j].0, targetMs)
      invariant forall j :: 0 <= j < k ==> Distance(prices[j].0, targetMs) > minDiff
    {
      var diff := Distance(prices[i].0, targetMs);
      if diff < minDiff {
        minDiff := diff;
        closestPrice := prices[i].1;
        k := i;
      }
    }
    assert EarliestClosest(prices, targetMs, k);
  }

  /**
   * The price fetchHistoricalBitcoinPrice resolves to.
   * `samples` is the historical reply: None when the request failed, else
   * its price list. `rateReply` is the exchange-rate reply: None when that
   * request failed, Some(None) when it lacks the currency, Some(Some(r))
   * otherwise. Any failure, or an empty list, yields `fallback` (the live
   * price); a missing or zero rate counts as 1.
   */
  method HistoricalPrice(samples: Option<seq<Sample>>, targetSeconds: int, currency: Currency,
                         rateReply: Option<Option<real>>, fallback: real) returns (price: real)
    ensures samples.None? || samples.value == [] ==> price == fallback
    ensures samples.Some? && samples.value != [] && currency != USD && rateReply.None? ==> price == fallback
    ensures samples.Some? && samples.value != [] && currency == USD ==>
      exists k :: EarliestClosest(samples.value, targetSeconds * 1000, k) && price == samples.value[k].1
    ensures samples.Some? && samples.value != [] && currency != USD && rateReply.Some? ==>
      exists k :: EarliestClosest(samples.value, targetSeconds * 1000, k)
        && price == samples.value[k].1 * RateOrOne(rateReply.value)
  {
    if samples.None? || |samples.value| == 0 {
      return fallback;
    }
    var closest := ClosestPrice(samples.value, targetSeconds);
    if currency == USD {
      price := closest;
    } else if rateReply.None? {
      price := fallback;
    } else {
      price := closest * RateOrOne(rateReply.value);
    }
  }

  /** `rates[currency] || 1`: an absent or zero rate reads as 1. */
  function RateOrOne(rate: Option<real>): (r: real)
    ensures r != 0.0
    ensures rate.Some? && rate.value != 0.0 ==> r == rate.value
    ensures rate.None? || rate.value == 0.0 ==> r == 1.0
  {
    if rate.Some? && rate.value != 0.0 then rate.value else 1.0
  }
}
