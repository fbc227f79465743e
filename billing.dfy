/** The cost of the period between two meter readings (lib/billing.js). */
module Billing {
  import opened Wrappers
  import opened Records

  /** `price.baseFeeSplit`, or 50 when it is undefined. */
  function Split(price: PriceConfig): real {
    price.baseFeeSplit.GetOr(50.0)
  }

  /** The details echoed with a computed cost. */
  datatype CostDetails = CostDetails(priceHT: real, priceNT: real, baseFee: real, baseFeeSplit: real)

  datatype PeriodCost = PeriodCost(
    total: real,
    energyCost: real,
    baseFeeCost: real,
    billingMonths: nat,
    diffHT: real,
    diffNT: real,
    details: Option<CostDetails>)

  /** The result for a missing argument. */
  const NoCost := PeriodCost(0.0, 0.0, 0.0, 0, 0.0, 0.0, None)

  // ---------------------------------------------------------------------------
  // Rounding: `parseFloat(x.toFixed(n))` on exact reals. `toFixed` rounds the
  // magnitude to the nearest multiple of 10^-n, ties upwards, and keeps the sign.


  /** Rounds `y` to an integer, halves away from zero. */
  function RoundHalfAway(y: real): real {
    if y < 0.0 then -((-y + 0.5).Floor as real) else (y + 0.5).Floor as real
  }

  function Round2(x: real): real { RoundHalfAway(x * 100.0) / 100.0 }
  function Round1(x: real): real { RoundHalfAway(x * 10.0) / 10.0 }

  lemma RoundHalfAwayError(y: real)
    ensures y - 0.5 <= RoundHalfAway(y) <= y + 0.5
    ensures y >= 0.0 ==> RoundHalfAway(y) >= 0.0
    ensures y <= 0.0 ==> RoundHalfAway(y) <= 0.0
  {
    if y == 0.0 {
      assert (0.0 + 0.5).Floor == 0;
    }
  }

  /** Rounding moves a value by at most half a unit in the last kept place and
      keeps its sign. */
  lemma Round2Error(x: real)
    ensures x - 0.005 <= Round2(x) <= x + 0.005
    ensures x >= 0.0 ==> Round2(x) >= 0.0
    ensures x <= 0.0 ==> Round2(x) <= 0.0
  {
    RoundHalfAwayError(x * 100.0);
  }

  lemma Round1Error(x: real)
    ensures x - 0.05 <= Round1(x) <= x + 0.05
    ensures x >= 0.0 ==> Round1(x) >= 0.0
    ensures x <= 0.0 ==> Round1(x) <= 0.0
  {
    RoundHalfAwayError(x * 10.0);
  }

  // ---------------------------------------------------------------------------
  // The formulas, on exact values.

  /** The number of the calendar month of `d`, counted from year 0. */
  function MonthIndex(cal: Calendar, d: Date): int {
    12 * cal.year(d) + cal.month(d)
  }

  /** `Math.max(0, (yearDiff * 12) + monthDiff)`: day of month is ignored. */
  function BillingMonths(cal: Calendar, prev: Date, curr: Date): nat {
    var diffMonths := (cal.year(curr) - cal.year(prev)) * 12 + (cal.month(curr) - cal.month(prev));
    if diffMonths > 0 then diffMonths else 0
  }

  function BaseFeeCost(price: PriceConfig, months: nat): real {
    (price.baseFee * months as real) * (Split(price) / 100.0)
  }

  function EnergyCost(diffHT: real, diffNT: real, price: PriceConfig): real {
    diffHT * price.priceHT + diffNT * price.priceNT
  }

  /** `calculatePeriodCost(prevReading, currReading, priceConfig)`. */
  function CalculatePeriodCost(cal: Calendar, prev: Option<Reading>, curr: Option<Reading>, price: Option<PriceConfig>)
    : (r: PeriodCost)
    ensures (prev.None? || curr.None? || price.None?) <==> r.details.None?
    ensures r.details.None? ==> r == NoCost
    ensures r.details.Some? ==>
      && r.details.value == CostDetails(price.value.priceHT, price.value.priceNT, price.value.baseFee, Split(price.value))
      && r.billingMonths == BillingMonths(cal, prev.value.date, curr.value.date)
    ensures r.details.Some? ==>
      var dHT := curr.value.valueHT - prev.value.valueHT;
      var dNT := curr.value.valueNT - prev.value.valueNT;
      var energy := EnergyCost(dHT, dNT, price.value);
      var baseFee := BaseFeeCost(price.value, r.billingMonths);
      && dHT - 0.05 <= r.diffHT <= dHT + 0.05
      && dNT - 0.05 <= r.diffNT <= dNT + 0.05
      && energy - 0.005 <= r.energyCost <= energy + 0.005
      && baseFee - 0.005 <= r.baseFeeCost <= baseFee + 0.005
      && energy + baseFee - 0.005 <= r.total <= energy + baseFee + 0.005
  {
    if prev.None? || curr.None? || price.None? then NoCost
    else
      var p, c, q := prev.value, curr.value, price.value;
      var diffHT := c.valueHT - p.valueHT;
      var diffNT := c.valueNT - p.valueNT;
      var billingMonths := BillingMonths(cal, p.date, c.date);
      var split := Split(q);
      var baseFeeCost := BaseFeeCost(q, billingMonths);
      var energyCost := EnergyCost(diffHT, diffNT, q);
      var totalCost := energyCost + baseFeeCost;
      Round2Error(totalCost);
      Round2Error(energyCost);
      Round2Error(baseFeeCost);
      Round1Error(diffHT);
      Round1Error(diffNT);
      PeriodCost(
        Round2(totalCost),
        Round2(energyCost),
        Round2(baseFeeCost),
        billingMonths,
        Round1(diffHT),
        Round1(diffNT),
        Some(CostDetails(q.priceHT, q.priceNT, q.baseFee, split)))
  }

  /** The total is the once-rounded sum of the unrounded energy and base-fee
      costs, not the sum of the rounded parts. */
  lemma TotalRoundedOnce(cal: Calendar, prev: Reading, curr: Reading, price: PriceConfig)
    ensures var r := CalculatePeriodCost(cal, Some(prev), Some(curr), Some(price));
      r.total == Round2(EnergyCost(curr.valueHT - prev.valueHT, curr.valueNT - prev.valueNT, price)
                        + BaseFeeCost(price, r.billingMonths))
  {
  }

  // ---------------------------------------------------------------------------
  // billingMonths

  lemma BillingMonthsFromMonthIndex(cal: Calendar, prev: Date, curr: Date)
    ensures BillingMonths(cal, prev, curr) ==
      if MonthIndex(cal, curr) > MonthIndex(cal, prev) then MonthIndex(cal, curr) - MonthIndex(cal, prev) else 0
  {
  }

  /** Only the calendar year and month of the two dates matter, never the day. */
  lemma BillingMonthsCalendarOnly(cal: Calendar, prev: Date, curr: Date, prev': Date, curr': Date)
    requires cal.year(prev) == cal.year(prev') && cal.month(prev) == cal.month(prev')
    requires cal.year(curr) == cal.year(curr') && cal.month(curr) == cal.month(curr')
    ensures BillingMonths(cal, prev, curr) == BillingMonths(cal, prev', curr')
  {
  }

  /** Two dates in the same calendar month (Jan 1 and Jan 31) give 0 months. */
  lemma SameMonthIsZero(cal: Calendar, prev: Date, curr: Date)
    requires cal.year(prev) == cal.year(curr) && cal.month(prev) == cal.month(curr)
    ensures BillingMonths(cal, prev, curr) == 0
  {
  }

  /** Dates in adjacent calendar months (Jan 31 and Feb 1, or Dec 31 and Jan 1)
      give 1 month, however few days apart they are. */
  lemma AdjacentMonthsIsOne(cal: Calendar, prev: Date, curr: Date)
    requires
      || (cal.year(curr) == cal.year(prev) && cal.month(curr) == cal.month(prev) + 1)
      || (cal.year(curr) == cal.year(prev) + 1 && cal.month(prev) == 11 && cal.month(curr) == 0)
    ensures BillingMonths(cal, prev, curr) == 1
  {
  }

  /** Billing consecutive periods charges as many base-fee months as billing
      their union, as long as the dates are in calendar order. */
  lemma BillingMonthsAdditive(cal: Calendar, a: Date, b: Date, c: Date)
    requires MonthIndex(cal, a) <= MonthIndex(cal, b) <= MonthIndex(cal, c)
    ensures BillingMonths(cal, a, c) == BillingMonths(cal, a, b) + BillingMonths(cal, b, c)
  {
  }

  /** A period ending in an earlier calendar month than it starts is charged no
      base fee rather than a negative one. */
  lemma BackwardsPeriodHasNoBaseFee(cal: Calendar, prev: Reading, curr: Reading, price: PriceConfig)
    requires MonthIndex(cal, curr.date) <= MonthIndex(cal, prev.date)
    ensures var r := CalculatePeriodCost(cal, Some(prev), Some(curr), Some(price));
      r.billingMonths == 0 && r.baseFeeCost == 0.0
  {
    assert BillingMonths(cal, prev.date, curr.date) == 0;
    assert (0.0 * 100.0 + 0.5).Floor == 0;
  }

  // ---------------------------------------------------------------------------
  // Base fee and energy cost

  /** With no months to bill, the base fee is zero and the total is the energy
      cost alone. */
  lemma ZeroMonthsEnergyOnly(cal: Calendar, prev: Reading, curr: Reading, price: PriceConfig)
    requires BillingMonths(cal, prev.date, curr.date) == 0
    ensures var r := CalculatePeriodCost(cal, Some(prev), Some(curr), Some(price));
      r.baseFeeCost == 0.0 && r.total == r.energyCost
  {
    assert BaseFeeCost(price, 0) == 0.0;
    assert (0.0 * 100.0 + 0.5).Floor == 0;
  }

  /** Without a configured split, half of the base fee is charged. */
  lemma DefaultSplitIsHalf(price: PriceConfig, months: nat)
    requires price.baseFeeSplit.None?
    ensures Split(price) == 50.0
    ensures BaseFeeCost(price, months) == price.baseFee * months as real / 2.0
  {
  }

  /** The energy cost is linear in each price: scaling `priceHT` by `k` scales
      the high-tariff part by `k` and leaves the low-tariff part alone. */
  lemma EnergyCostLinearInPriceHT(diffHT: real, diffNT: real, price: PriceConfig, k: real)
    ensures EnergyCost(diffHT, diffNT, price.(priceHT := k * price.priceHT))
         == k * (diffHT * price.priceHT) + diffNT * price.priceNT
  {
  }

  lemma EnergyCostLinearInPriceNT(diffHT: real, diffNT: real, price: PriceConfig, k: real)
    ensures EnergyCost(diffHT, diffNT, price.(priceNT := k * price.priceNT))
         == diffHT * price.priceHT + k * (diffNT * price.priceNT)
  {
  }

  lemma NonPositiveProduct(a: real, b: real)
    requires a <= 0.0 && b >= 0.0
    ensures a * b <= 0.0
  {
  }

  /** Non-positive deltas at non-negative prices cost nothing or less. */
  lemma NonPositiveEnergy(dHT: real, dNT: real, price: PriceConfig)
    requires dHT <= 0.0 && dNT <= 0.0
    requires price.priceHT >= 0.0 && price.priceNT >= 0.0
    ensures EnergyCost(dHT, dNT, price) <= 0.0
  {
    NonPositiveProduct(dHT, price.priceHT);
    NonPositiveProduct(dNT, price.priceNT);
  }

  /** The rounded amounts of a full calculation: each is its exact formula on
      the counter deltas, rounded once to its number of decimals. */
  lemma RoundedAmounts(cal: Calendar, prev: Reading, curr: Reading, price: PriceConfig)
    ensures var r := CalculatePeriodCost(cal, Some(prev), Some(curr), Some(price));
      var dHT, dNT := curr.valueHT - prev.valueHT, curr.valueNT - prev.valueNT;
      && r.details.Some?
      && r.diffHT == Round1(dHT) && r.diffNT == Round1(dNT)
      && r.energyCost == Round2(EnergyCost(dHT, dNT, price))
      && r.baseFeeCost == Round2(BaseFeeCost(price, BillingMonths(cal, prev.date, curr.date)))
  {
  }

  /** A counter that went down is not rejected: the negative consumption flows
      into a non-positive rounded difference and, at non-negative prices, a
      non-positive energy cost. */
  lemma NegativeConsumptionFlowsThrough(cal: Calendar, prev: Reading, curr: Reading, price: PriceConfig)
    requires curr.valueHT < prev.valueHT && curr.valueNT <= prev.valueNT
    requires price.priceHT >= 0.0 && price.priceNT >= 0.0
    ensures var r := CalculatePeriodCost(cal, Some(prev), Some(curr), Some(price));
      r.details.Some? && r.diffHT <= 0.0 && r.energyCost <= 0.0
  {
    var dHT, dNT := curr.valueHT - prev.valueHT, curr.valueNT - prev.valueNT;
    RoundedAmounts(cal, prev, curr, price);
    Round1Error(dHT);
    NonPositiveEnergy(dHT, dNT, price);
    Round2Error(EnergyCost(dHT, dNT, price));
  }

  /** The worked example: Jan 1 to Mar 15 2024, 150 HT and 100 NT units at 0.30
      and 0.20, a base fee of 12 split 50/50. */
  lemma WorkedExample(cal: Calendar, d1: Date, d2: Date)
    requires cal.year(d1) == 2024 && cal.month(d1) == 0
    requires cal.year(d2) == 2024 && cal.month(d2) == 2
    ensures
      var prev := Reading(1, d1, 1000.0, 2000.0, None, None, None);
      var curr := Reading(2, d2, 1150.0, 2100.0, None, None, None);
      var price := PriceConfig(0.30, 0.20, 12.0, Some(50.0), d1);
      CalculatePeriodCost(cal, Some(prev), Some(curr), Some(price))
        == PeriodCost(77.0, 65.0, 12.0, 2, 150.0, 100.0, Some(CostDetails(0.30, 0.20, 12.0, 50.0)))
  {
    assert (77.0 * 100.0 + 0.5).Floor == 7700;
    assert (65.0 * 100.0 + 0.5).Floor == 6500;
    assert (12.0 * 100.0 + 0.5).Floor == 1200;
    assert (150.0 * 10.0 + 0.5).Floor == 1500;
    assert (100.0 * 10.0 + 0.5).Floor == 1000;
  }
}
