/** Currency conversion and the one-hour rate cache of
    `src/lib/exchange-rates.ts`.  Amounts and rates are real numbers. */
module ExchangeRates {
  import opened Wrappers

  /** `Currency` */
  datatype Currency = PLN | USD | EUR

  /** `ExchangeRates`: how much of each currency one złoty buys. */
  datatype Rates = Rates(pln: real, usd: real, eur: real)

  function Rate(rates: Rates, c: Currency): real {
    match c
    case PLN => rates.pln
    case USD => rates.usd
    case EUR => rates.eur
  }

  /** `FALLBACK_RATES` */
  const FallbackRates: Rates := Rates(1.0, 0.25, 0.23)

  /** `CACHE_DURATION`: one hour in milliseconds. */
  const CacheDuration: int := 60 * 60 * 1000

  /** The rates worth bookkeeping: the złoty is the base. */
  predicate PlnBased(rates: Rates) {
    rates.pln == 1.0
  }

  /** `convertAmount(amount, from, to, rates)`: through the złoty.  JavaScript
      would divide by a zero rate to an infinity; the model asks for a nonzero
      rate where it divides. */
  function ConvertAmount(amount: real, from: Currency, to: Currency, rates: Rates): (r: real)
    requires from != to && from != PLN ==> Rate(rates, from) != 0.0
    ensures from == to ==> r == amount
    ensures from != to && to == PLN ==> r * Rate(rates, from) == amount
    ensures from != to && from == PLN ==> r == amount * Rate(rates, to)
    ensures amount >= 0.0 && Rate(rates, from) > 0.0 && Rate(rates, to) > 0.0 ==> r >= 0.0
  {
    if from == to then amount
    else if from == PLN then
      ScaleKeepsSign(amount, Rate(rates, to));
      amount * Rate(rates, to)
    else
      var amountInPln := amount / Rate(rates, from);
      ScaleKeepsSign(amount, Rate(rates, from));
      ScaleKeepsSign(amountInPln, Rate(rates, to));
      if to == PLN then amountInPln else amountInPln * Rate(rates, to)
  }

  /** Dividing by a nonzero rate is undone by multiplying, and dividing or
      multiplying by a positive rate keeps a non-negative amount non-negative. */
  lemma ScaleKeepsSign(a: real, b: real)
    ensures b != 0.0 ==> (a / b) * b == a
    ensures a >= 0.0 && b > 0.0 ==> a / b >= 0.0 && a * b >= 0.0
  {
    if b != 0.0 {
      assert (a / b) * b == a;
    }
  }

  /** The three cases the comment in the source states, and the identity. */
  lemma ConvertAmountCases(amount: real, x: Currency, y: Currency, rates: Rates)
    requires Rate(rates, x) != 0.0
    requires x != PLN && y != PLN && x != y
    ensures ConvertAmount(amount, x, x, rates) == amount
    ensures ConvertAmount(amount, PLN, x, rates) == amount * Rate(rates, x)
    ensures ConvertAmount(amount, x, PLN, rates) == amount / Rate(rates, x)
    ensures ConvertAmount(amount, x, y, rates) == (amount / Rate(rates, x)) * Rate(rates, y)
  {
  }

  /** Converting there and back returns the amount when the rates are positive. */
  lemma ConvertAmountRoundTrip(amount: real, x: Currency, y: Currency, rates: Rates)
    requires Rate(rates, USD) > 0.0 && Rate(rates, EUR) > 0.0
    ensures ConvertAmount(ConvertAmount(amount, x, y, rates), y, x, rates) == amount
  {
    if x != y {
      RoundTripVia(amount, x, y, rates);
    }
  }

  lemma RoundTripVia(amount: real, x: Currency, y: Currency, rates: Rates)
    requires Rate(rates, USD) > 0.0 && Rate(rates, EUR) > 0.0 && x != y
    ensures ConvertAmount(ConvertAmount(amount, x, y, rates), y, x, rates) == amount
  {
    if x != PLN && y != PLN {
      CrossRoundTrip(amount, x, y, rates);
    } else if x == PLN {
      PlnRoundTrip(amount, y, rates);
    } else {
      BackToPln(amount, x, rates);
    }
  }

  /** Between two foreign currencies. */
  lemma CrossRoundTrip(amount: real, x: Currency, y: Currency, rates: Rates)
    requires Rate(rates, USD) > 0.0 && Rate(rates, EUR) > 0.0 && x != y && x != PLN && y != PLN
    ensures ConvertAmount(ConvertAmount(amount, x, y, rates), y, x, rates) == amount
  {
    var rx, ry := Rate(rates, x), Rate(rates, y);
    var there := ConvertAmount(amount, x, y, rates);
    assert there == amount / rx * ry;
    assert ConvertAmount(there, y, x, rates) == there / ry * rx;
    Cancel(there, ry, amount / rx);
    Cancel(amount / rx, rx, amount);
  }

  /** From the złoty and back. */
  lemma PlnRoundTrip(amount: real, y: Currency, rates: Rates)
    requires Rate(rates, USD) > 0.0 && Rate(rates, EUR) > 0.0 && y != PLN
    ensures ConvertAmount(ConvertAmount(amount, PLN, y, rates), y, PLN, rates) == amount
  {
    var ry := Rate(rates, y);
    assert ConvertAmount(amount, PLN, y, rates) == amount * ry;
    Cancel(amount * ry, ry, amount);
  }

  /** To the złoty and back. */
  lemma BackToPln(amount: real, x: Currency, rates: Rates)
    requires Rate(rates, USD) > 0.0 && Rate(rates, EUR) > 0.0 && x != PLN
    ensures ConvertAmount(ConvertAmount(amount, x, PLN, rates), PLN, x, rates) == amount
  {
    var rx := Rate(rates, x);
    assert ConvertAmount(amount, x, PLN, rates) == amount / rx;
    Cancel(amount / rx, rx, amount);
  }

  /** Multiplying and dividing by the same nonzero rate cancel. */
  lemma Cancel(t: real, r: real, a: real)
    requires r != 0.0
    ensures t == a * r ==> t / r == a
    ensures t == a / r ==> t * r == a
  {
  }

  /** The module-level cache `cachedRates` / `cacheTimestamp`. */
  class RateCache {
    var cachedRates: Option<Rates>
    var cacheTimestamp: int

    ghost predicate Valid()
      reads this
    {
      cachedRates.Some? ==> PlnBased(cachedRates.value)
    }

    /** The state the module starts in. */
    constructor ()
      ensures Valid()
      ensures cachedRates == None && cacheTimestamp == 0
    {
      cachedRates := None;
      cacheTimestamp := 0;
    }

    /** Whether a lookup at `now` is answered from the cache. */
    predicate Fresh(now: int)
      reads this
    {
      cachedRates.Some? && now - cacheTimestamp < CacheDuration
    }

    /** `getExchangeRates()` at time `now`.  `fetched` is what the request to
        the rates service would produce: the USD and EUR rates, or `None` when
        the request or its decoding fails.  It is consulted only when the cache
        is not fresh, which the ghost result `fetchedUsed` records. */
    method GetExchangeRates(now: int, fetched: Option<(real, real)>) returns (rates: Rates, ghost fetchedUsed: bool)
      requires Valid()
      modifies this
      ensures Valid()
      ensures PlnBased(rates)
      ensures fetchedUsed <==> !old(Fresh(now))
      ensures old(Fresh(now)) ==> rates == old(cachedRates).value && unchanged(this)
      ensures !old(Fresh(now)) && fetched.Some? ==>
        && rates == Rates(1.0, fetched.value.0, fetched.value.1)
        && cachedRates == Some(rates) && cacheTimestamp == now
      ensures !old(Fresh(now)) && fetched.None? ==>
        && rates == (if old(cachedRates).Some? then old(cachedRates).value else FallbackRates)
        && unchanged(this)
    {
      if cachedRates.Some? && now - cacheTimestamp < CacheDuration {
        return cachedRates.value, false;
      }
      fetchedUsed := true;
      match fetched {
        case Some((usd, eur)) =>
          cachedRates := Some(Rates(1.0, usd, eur));
          cacheTimestamp := now;
          rates := cachedRates.value;
        case None =>
          if cachedRates.Some? {
            rates := cachedRates.value;
          } else {
            rates := FallbackRates;
          }
      }
    }
  }
}
