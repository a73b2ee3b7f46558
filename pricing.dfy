/** Price derivation: from the lowest competing listing to the price the card
    is listed at, and from that listing price to what the seller receives.
    Money is an exact `real` amount of pounds; every derived price is
    truncated toward zero, never rounded. */
module Pricing {

  /** Fraction of the listing price kept by the marketplace. */
  const MARKET_FEE: real := 0.05
  /** Flat fee subtracted from the proceeds, and the floor of the proceeds. */
  const MINIMUM_FEE: real := 0.01
  /** Factor applied to the lowest competing listing to undercut it. */
  const REDUCTION: real := 0.90

  /** An amount is a whole number of pennies. */
  predicate CentAligned(x: real)
  {
    (100.0 * x).Floor as real == 100.0 * x
  }

  /** Truncation toward zero: the integer part of `x`, dropping the fraction
      whatever the sign. */
  function Trunc(x: real): (n: int)
    ensures 0.0 <= x ==> 0 <= n && n as real <= x < n as real + 1.0
    ensures x < 0.0 ==> n <= 0 && n as real - 1.0 < x <= n as real
  {
    if x >= 0.0 then x.Floor else -((-x).Floor)
  }

  /** Truncation is monotone. */
  lemma TruncMonotone(x: real, y: real)
    requires x <= y
    ensures Trunc(x) <= Trunc(y)
  {
  }

  /** `truncate_to_price`: drops everything past the second decimal. */
  function TruncateToPrice(price: real): (r: real)
    ensures CentAligned(r)
    ensures 0.0 <= price ==> 0.0 <= r <= price < r + 0.01
    ensures price < 0.0 ==> r - 0.01 < price <= r <= 0.0
  {
    Trunc(price * 100.0) as real / 100.0
  }

  /** The amounts `truncate_to_price` leaves alone are exactly the whole
      numbers of pennies. */
  lemma TruncateToPriceFixpoint(x: real)
    ensures TruncateToPrice(x) == x <==> CentAligned(x)
  {
    if CentAligned(x) {
      var n := (100.0 * x).Floor;
      assert x * 100.0 == n as real;
      assert Trunc(n as real) == n;
    }
  }

  /** Truncating a price that was already truncated changes nothing. */
  lemma TruncateToPriceIdempotent(price: real)
    ensures TruncateToPrice(TruncateToPrice(price)) == TruncateToPrice(price)
  {
    TruncateToPriceFixpoint(TruncateToPrice(price));
  }

  /** `truncate_to_price_pennies`: the amount as a whole number of pennies,
      truncated toward zero. */
  function TruncateToPricePennies(price: real): (p: int)
    ensures 0.0 <= price ==> 0 <= p && p as real <= 100.0 * price < p as real + 1.0
    ensures price < 0.0 ==> p <= 0 && p as real - 1.0 < 100.0 * price <= p as real
  {
    Trunc(price * 100.0)
  }

  /** Proceeds before truncation: the listing price with the percentage fee
      taken out, minus the flat fee. A buyer paying `sale` covers exactly these
      proceeds plus both fees. */
  function SteamPrice(sale: real): (r: real)
    ensures (r + MINIMUM_FEE) * (1.0 + MARKET_FEE) == sale
  {
    sale / (1.0 + MARKET_FEE) - MINIMUM_FEE
  }

  /** The two forms `get_steam_price` hands back: a count of pennies (what a
      sell order is submitted with) or an amount of pounds (what is reported
      and added to the running total). */
  datatype Quote = Pennies(cents: int) | Pounds(amount: real)

  /** `get_steam_price`. The floor at MINIMUM_FEE applies to the pounds form
      only: the pennies form is the plain truncation, whatever its sign. */
  function GetSteamPrice(sale: real, pennies: bool): (q: Quote)
    ensures q.Pennies? == pennies
    ensures pennies && SteamPrice(sale) >= 0.0 ==>
      0 <= q.cents && q.cents as real <= 100.0 * SteamPrice(sale) < q.cents as real + 1.0
    ensures pennies && SteamPrice(sale) < 0.0 ==>
      q.cents <= 0 && q.cents as real - 1.0 < 100.0 * SteamPrice(sale) <= q.cents as real
    ensures !pennies ==> MINIMUM_FEE <= q.amount && CentAligned(q.amount)
    ensures !pennies && SteamPrice(sale) <= MINIMUM_FEE ==> q.amount == MINIMUM_FEE
    ensures !pennies && SteamPrice(sale) > MINIMUM_FEE ==>
      q.amount <= SteamPrice(sale) < q.amount + 0.01
  {
    var steamPrice := SteamPrice(sale);
    if pennies then Pennies(TruncateToPricePennies(steamPrice))
    else if steamPrice > MINIMUM_FEE then Pounds(TruncateToPrice(steamPrice))
    else Pounds(MINIMUM_FEE)
  }

  /** The price a card is listed at: the lowest competing listing scaled by
      REDUCTION, truncated to pennies. It never exceeds the scaled price, and
      falls short of it by less than a penny. */
  function ListingPrice(lowestPrice: real): (r: real)
    ensures CentAligned(r)
    ensures 0.0 <= lowestPrice ==>
      0.0 <= r <= lowestPrice * REDUCTION < r + 0.01 && r <= lowestPrice
  {
    TruncateToPrice(lowestPrice * REDUCTION)
  }

  /** What the seller is told they will receive for a card (pounds form). */
  function ExpectedProceeds(lowestPrice: real): (r: real)
    ensures MINIMUM_FEE <= r
  {
    GetSteamPrice(ListingPrice(lowestPrice), false).amount
  }

  /** What the sell order is submitted with (pennies form). It never exceeds
      the reported proceeds, and for a non-negative lowest listing falls short
      of them by at most two pennies. */
  function OrderPennies(lowestPrice: real): (r: int)
    ensures r as real <= 100.0 * ExpectedProceeds(lowestPrice)
    ensures 0.0 <= lowestPrice ==> 100.0 * ExpectedProceeds(lowestPrice) <= r as real + 2.0
  {
    ReportedCoversSubmitted(ListingPrice(lowestPrice));
    GetSteamPrice(ListingPrice(lowestPrice), true).cents
  }

  /** Truncation, not rounding: 10.999 scaled by 0.9 is 9.8991, listed at 9.89. */
  lemma ListingPriceTruncates()
    ensures ListingPrice(10.999) == 9.89
  {
    assert 10.999 * REDUCTION * 100.0 == 989.91;
    assert Trunc(989.91) == 989;
  }

  /** Above the floor, the submitted order and the reported proceeds agree:
      the pennies are exactly 100 times the pounds, and at least one penny. */
  lemma PenniesMatchPoundsAboveFloor(sale: real)
    requires SteamPrice(sale) > MINIMUM_FEE
    ensures GetSteamPrice(sale, true).cents as real == 100.0 * GetSteamPrice(sale, false).amount
    ensures GetSteamPrice(sale, true).cents >= 1
  {
  }

  /** In every case the reported proceeds are never below the submitted order,
      and for a non-negative listing price they exceed it by at most two
      pennies (the floor lifts 0 or -1 pennies to 1). */
  lemma ReportedCoversSubmitted(sale: real)
    ensures GetSteamPrice(sale, true).cents as real <= 100.0 * GetSteamPrice(sale, false).amount
    ensures 0.0 <= sale ==>
      100.0 * GetSteamPrice(sale, false).amount <= GetSteamPrice(sale, true).cents as real + 2.0
  {
    var steamPrice := SteamPrice(sale);
    if steamPrice > MINIMUM_FEE {
      PenniesMatchPoundsAboveFloor(sale);
    } else {
      TruncMonotone(steamPrice * 100.0, 1.0);
      if 0.0 <= sale {
        TruncMonotone(-1.0, steamPrice * 100.0);
      }
    }
  }

  /** At the floor the two forms part ways: a card whose lowest listing is
      0.03 is listed at 0.02, submitted at 0 pennies, and reported as 0.01. A
      lowest listing of 0.01 is listed at 0.00 and submitted at -1 pennies. */
  lemma PenniesDivergeAtFloor()
    ensures ListingPrice(0.03) == 0.02
    ensures OrderPennies(0.03) == 0 && ExpectedProceeds(0.03) == 0.01
    ensures ListingPrice(0.01) == 0.0
    ensures OrderPennies(0.01) == -1 && ExpectedProceeds(0.01) == 0.01
  {
    assert 0.03 * REDUCTION * 100.0 == 2.7;
    assert Trunc(2.7) == 2;
    assert SteamPrice(0.02) * 100.0 == 2.0 / 1.05 - 1.0;
    assert Trunc(2.0 / 1.05 - 1.0) == 0;
    assert 0.01 * REDUCTION * 100.0 == 0.9;
    assert Trunc(0.9) == 0;
    assert SteamPrice(0.0) * 100.0 == -1.0;
    assert Trunc(-1.0) == -1;
  }

  /** A higher listing price never yields a smaller order. */
  lemma OrderPenniesMonotone(sale1: real, sale2: real)
    requires sale1 <= sale2
    ensures GetSteamPrice(sale1, true).cents <= GetSteamPrice(sale2, true).cents
  {
    TruncMonotone(SteamPrice(sale1) * 100.0, SteamPrice(sale2) * 100.0);
  }
}
