/** The price of one rental, from the base price onward, and what rounding an advance can cost. */
module Pricing {
  /** Math.round. */
  function Round(x: real): (r: int)
    ensures r as real - 0.5 <= x < r as real + 0.5
  {
    (x + 0.5).Floor
  }

  lemma RoundWhole(x: real, n: int)
    requires x == n as real
    ensures Round(x) == n
  {
  }

  lemma RoundAtMost(x: real, n: int)
    ensures Round(x) <= n <==> x < n as real + 0.5
    ensures Round(x) >= n <==> x >= n as real - 0.5
  {
  }

  /** The configured percentages, as fractions. */
  datatype Rates = Rates(platform: real, passengerShare: real, advance: real)

  /** Whole rupees. `fee` is the passenger's share of the platform fee, `ownerFee` the owner's. */
  datatype Breakdown = Breakdown(
    base: int, gst: int, fee: int, totalFee: int, ownerFee: int, discount: int, total: int, advance: int, balance: int)

  const ADVANCE: real := 0.25

  /** A fraction of a whole amount, rounded. */
  function PartOf(n: int, f: real): int {
    Round(n as real * f)
  }

  /** calculatePricing, after the base price. */
  function Price(base: real, rates: Rates, discount: int): Breakdown {
    var rounded := Round(base);
    var totalFee := PartOf(rounded, rates.platform);
    var fee := PartOf(totalFee, rates.passengerShare);
    var total := rounded + fee - discount;
    var advance := PartOf(total, rates.advance);
    Breakdown(rounded, 0, fee, totalFee, totalFee - fee, discount, total, advance, total - advance)
  }

  /** n is x rounded to a whole number, halves up. */
  predicate IsRounded(n: int, x: real) {
    n as real - 0.5 <= x < n as real + 0.5
  }

  /**
   What a price means: the base in whole rupees, the platform's fee on it, the passenger's share of that fee
   and the owner's the rest; the passenger pays base and share less the discount, a part of it in advance.
   */
  predicate IsPriceOf(b: Breakdown, base: real, rates: Rates, discount: int) {
    && IsRounded(b.base, base) && IsRounded(b.totalFee, rates.platform * b.base as real)
    && IsRounded(b.fee, rates.passengerShare * b.totalFee as real) && b.fee + b.ownerFee == b.totalFee
    && b.gst == 0 && b.discount == discount && b.total == b.base + b.fee - discount
    && IsRounded(b.advance, rates.advance * b.total as real) && b.advance + b.balance == b.total
  }

  lemma RoundedProduct(n: int, f: real)
    ensures IsRounded(PartOf(n, f), f * n as real)
  {
    assert n as real * f == f * n as real;
  }

  /** calculatePricing gives that price, and there is only one. */
  lemma PriceIsMeant(b: Breakdown, base: real, rates: Rates, discount: int)
    ensures IsPriceOf(b, base, rates, discount) <==> b == Price(base, rates, discount)
  {
    var price := Price(base, rates, discount);
    RoundedProduct(price.base, rates.platform);
    RoundedProduct(price.totalFee, rates.passengerShare);
    RoundedProduct(price.total, rates.advance);
    OneRounding(b.base, price.base, base);
    OneRounding(b.totalFee, price.totalFee, rates.platform * price.base as real);
    OneRounding(b.fee, price.fee, rates.passengerShare * price.totalFee as real);
    OneRounding(b.advance, price.advance, rates.advance * price.total as real);
  }

  lemma OneRounding(n: int, m: int, x: real)
    ensures IsRounded(n, x) && IsRounded(m, x) ==> n == m
  {
  }

  /** A rounded part of a whole amount is not negative, and a fraction of it is not more than all. */
  lemma RoundedPart(n: int, f: real)
    requires n >= 0 && f >= 0.0
    ensures PartOf(n, f) >= 0
    ensures f <= 1.0 ==> PartOf(n, f) <= n
  {
  }

  /** With shares between 0 and 1 both sides of the fee are non-negative, and neither exceeds the whole. */
  lemma FeeIsSplit(base: real, rates: Rates)
    requires base >= 0.0 && rates.platform >= 0.0 && 0.0 <= rates.passengerShare <= 1.0
    ensures
      var b := Price(base, rates, 0);
      0 <= b.fee <= b.totalFee && 0 <= b.ownerFee <= b.totalFee && 0 <= b.base <= b.total
  {
    RoundAtMost(base, 0);
    var rounded := Round(base);
    RoundedPart(rounded, rates.platform);
    var totalFee := PartOf(rounded, rates.platform);
    RoundedPart(totalFee, rates.passengerShare);
    var fee := PartOf(totalFee, rates.passengerShare);
    assert Price(base, rates, 0).fee == fee && Price(base, rates, 0).totalFee == totalFee;
  }

  /** Without negative fees, a base price that rounds to a rupee or more makes a total of a rupee or more. */
  lemma PriceIsPositive(base: real, rates: Rates)
    requires base >= 0.5 && rates.platform >= 0.0 && rates.passengerShare >= 0.0
    ensures Price(base, rates, 0).total >= 1
  {
    RoundAtMost(base, 1);
    RoundedPart(Round(base), rates.platform);
    RoundedPart(PartOf(Round(base), rates.platform), rates.passengerShare);
  }

  function SumTotals(bs: seq<Breakdown>): int {
    if bs == [] then 0 else SumTotals(bs[..|bs| - 1]) + bs[|bs| - 1].total
  }

  function SumAdvances(bs: seq<Breakdown>): int {
    if bs == [] then 0 else SumAdvances(bs[..|bs| - 1]) + bs[|bs| - 1].advance
  }

  /** Four times a rounded quarter is at most 2 above and 1 below. */
  lemma QuarterError(total: int)
    ensures -1 <= 4 * PartOf(total, ADVANCE) - total <= 2
  {
  }

  lemma {:induction false} SumOfAdvances(bs: seq<Breakdown>)
    requires forall b <- bs :: b.advance == PartOf(b.total, ADVANCE)
    ensures -|bs| <= 4 * SumAdvances(bs) - SumTotals(bs) <= 2 * |bs|
  {
    if bs != [] {
      SumOfAdvances(bs[..|bs| - 1]);
      QuarterError(bs[|bs| - 1].total);
      assert bs[|bs| - 1] in bs;
    }
  }

  /**
   At the default 25%, the advance of n vehicles together differs from the sum of their advances by at
   most (2n + 1) / 4 below and (n + 2) / 4 above, so by at most (n + 1) / 2.
   */
  lemma OrderAdvanceNearSum(bs: seq<Breakdown>)
    requires forall b <- bs :: b.advance == PartOf(b.total, ADVANCE)
    ensures
      var apart := PartOf(SumTotals(bs), ADVANCE) - SumAdvances(bs);
      -(2 * |bs| + 1) <= 4 * apart <= |bs| + 2 && -(|bs| + 1) <= 2 * apart <= |bs| + 1
  {
    SumOfAdvances(bs);
    QuarterError(SumTotals(bs));
  }

  /** n vehicles of 2 rupees each, n even: the advances sum to n, the order's advance is n / 2. */
  lemma {:induction false} AdvancesOfTwos(bs: seq<Breakdown>)
    requires forall b <- bs :: b.total == 2 && b.advance == PartOf(2, ADVANCE)
    ensures SumTotals(bs) == 2 * |bs| && SumAdvances(bs) == |bs|
    ensures |bs| % 2 == 0 ==> 2 * (SumAdvances(bs) - PartOf(SumTotals(bs), ADVANCE)) == |bs|
  {
    if bs != [] {
      AdvancesOfTwos(bs[..|bs| - 1]);
      assert bs[|bs| - 1] in bs;
    }
    QuarterError(2 * |bs|);
  }
}
