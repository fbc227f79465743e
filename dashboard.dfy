/** The dashboard's data (`getDashboardData` in app/page.js): a chart entry
    per pair of consecutive readings, priced at the latest tariff. */
module Dashboard {
  import opened Wrappers
  import opened Records
  import opened Queries
  import opened Billing

  /** One point of the consumption chart, at the date of the later reading. */
  datatype ChartEntry = ChartEntry(date: Date, ht: real, nt: real, cost: real)

  datatype DashboardData = DashboardData(
    latestReading: Option<Reading>,
    readingsCount: nat,
    currentPrice: Option<PriceConfig>,
    lastPeriodCost: real,
    chartData: seq<ChartEntry>)

  /** `priceConfig.findFirst({ orderBy: { validFrom: 'desc' } })`. */
  function LatestPrice(prices: seq<PriceConfig>): (p: Option<PriceConfig>)
    ensures p.None? <==> prices == []
    ensures p.Some? ==> p.value in prices && forall q :: q in prices ==> q.validFrom <= p.value.validFrom
  {
    if prices == [] then None
    else
      var rest := LatestPrice(prices[1..]);
      assert forall q :: q in prices <==> q == prices[0] || q in prices[1..];
      if rest.None? || prices[0].validFrom >= rest.value.validFrom then Some(prices[0]) else rest
  }

  /** The chart entry for the readings `prev` and `curr`: consumption deltas
      rounded to one decimal and their energy cost rounded to two. */
  function ChartEntryOf(prev: Reading, curr: Reading, price: PriceConfig): ChartEntry {
    var deltaHT := curr.valueHT - prev.valueHT;
    var deltaNT := curr.valueNT - prev.valueNT;
    var cost := EnergyCost(deltaHT, deltaNT, price);
    ChartEntry(curr.date, Round1(deltaHT), Round1(deltaNT), Round2(cost))
  }

  /** A chart entry shows the same consumption and energy cost as the period
      cost of the same two readings at the same price; the base fee is not
      part of the chart. */
  lemma ChartEntryAgreesWithPeriodCost(cal: Calendar, prev: Reading, curr: Reading, price: PriceConfig)
    ensures var e := ChartEntryOf(prev, curr, price);
      var c := CalculatePeriodCost(cal, Some(prev), Some(curr), Some(price));
      e.ht == c.diffHT && e.nt == c.diffNT && e.cost == c.energyCost
  {
  }

  /** The chart of `readings` at `price`: one entry per consecutive pair. */
  ghost predicate IsChartOf(chart: seq<ChartEntry>, readings: seq<Reading>, price: PriceConfig) {
    && |readings| >= 1
    && |chart| == |readings| - 1
    && forall k :: 0 <= k < |chart| ==> chart[k] == ChartEntryOf(readings[k], readings[k + 1], price)
  }

  /** One more step of the chart loop: the entry for the next pair extends the chart of the prefix. */
  lemma ChartExtends(chart: seq<ChartEntry>, readings: seq<Reading>, i: nat, price: PriceConfig)
    requires 1 <= i < |readings|
    requires IsChartOf(chart, readings[..i], price)
    ensures IsChartOf(chart + [ChartEntryOf(readings[i - 1], readings[i], price)], readings[..i + 1], price)
  {
    var next := chart + [ChartEntryOf(readings[i - 1], readings[i], price)];
    var prefix := readings[..i + 1];
    forall k | 0 <= k < |next| ensures next[k] == ChartEntryOf(prefix[k], prefix[k + 1], price) {
      if k < |chart| {
        assert readings[..i][k] == prefix[k] && readings[..i][k + 1] == prefix[k + 1];
      }
    }
  }

  /** Over readings sorted by date, the chart's dates never go backwards. */
  lemma ChartDatesOrdered(chart: seq<ChartEntry>, readings: seq<Reading>, price: PriceConfig)
    requires IsChartOf(chart, readings, price)
    requires SortedBy(readings, DateOf)
    ensures forall i, j :: 0 <= i < j < |chart| ==> chart[i].date <= chart[j].date
  {
    forall i, j | 0 <= i < j < |chart| ensures chart[i].date <= chart[j].date {
      assert chart[i].date == readings[i + 1].date && chart[j].date == readings[j + 1].date;
      assert DateOf(readings[i + 1]) <= DateOf(readings[j + 1]);
    }
  }

  /** The last reading of the date-sorted table is one of the newest. */
  lemma LastSortedIsNewest(table: seq<Reading>)
    requires table != []
    ensures var readings := SortBy(table, DateOf);
      var newest := readings[|readings| - 1];
      newest in table && forall x :: x in table ==> x.date <= newest.date
  {
    var readings := SortBy(table, DateOf);
    var newest := readings[|readings| - 1];
    SortByMembers(table, DateOf, newest);
    forall x | x in table ensures x.date <= newest.date {
      SortByMembers(table, DateOf, x);
      LastIsLargest(readings, DateOf, x);
    }
  }

  /** The loop of `getDashboardData()`: one entry per consecutive pair of
      readings, pushed in order. */
  method ChartSeries(readings: seq<Reading>, price: PriceConfig) returns (chartData: seq<ChartEntry>)
    requires |readings| >= 1
    ensures IsChartOf(chartData, readings, price)
  {
    chartData := [];
    var i := 1;
    while i < |readings|
      invariant 1 <= i <= |readings|
      invariant IsChartOf(chartData, readings[..i], price)
    {
      var prev, curr := readings[i - 1], readings[i];
      ChartExtends(chartData, readings, i, price);
      chartData := chartData + [ChartEntryOf(prev, curr, price)];
      i := i + 1;
    }
    assert readings[..i] == readings;
  }

  /** `getDashboardData()` over the reading table and the price table. */
  method GetDashboardData(table: seq<Reading>, prices: seq<PriceConfig>) returns (d: DashboardData)
    ensures d.readingsCount == |table|
    ensures d.currentPrice == LatestPrice(prices)
    ensures var readings := SortBy(table, DateOf);
      if |readings| < 2 || d.currentPrice.None? then
        d.chartData == [] && d.lastPeriodCost == 0.0
      else
        && IsChartOf(d.chartData, readings, d.currentPrice.value)
        && d.lastPeriodCost == d.chartData[|d.chartData| - 1].cost
    ensures forall i, j :: 0 <= i < j < |d.chartData| ==> d.chartData[i].date <= d.chartData[j].date
    ensures d.latestReading.None? <==> table == []
    ensures d.latestReading.Some? ==>
      d.latestReading.value in table && forall x :: x in table ==> x.date <= d.latestReading.value.date
  {
    var readings := SortBy(table, DateOf);
    var currentPrice := LatestPrice(prices);

    var lastPeriodCost := 0.0;
    var chartData: seq<ChartEntry> := [];

    if |readings| >= 2 && currentPrice.Some? {
      chartData := ChartSeries(readings, currentPrice.value);
      lastPeriodCost := chartData[|chartData| - 1].cost;
      ChartDatesOrdered(chartData, readings, currentPrice.value);
    }

    var latestReading: Option<Reading> := None;
    if |readings| > 0 {
      latestReading := Some(readings[|readings| - 1]);
      LastSortedIsNewest(table);
    }

    d := DashboardData(latestReading, |table|, currentPrice, lastPeriodCost, chartData);
  }
}
