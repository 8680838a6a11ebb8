/** Per-region emissions and cost derived from the workload parameters. */
module Emissions {
  import opened Regions

  /** A region together with the three columns the calculation adds. */
  datatype Row = Row(region: Region, monthlyTco2e: real, annualTco2e: real, annualCarbonCostEur: real)

  /** The derived columns of one region: monthly tonnes from kWh, PUE and
      intensity (1,000,000 grams to the tonne), annual tonnes over a fixed
      twelve-month year, and their carbon cost. The annual figure agrees
      with the closed formula the methodology text states,
      kWh x 12 x PUE x intensity / 1,000,000. The two constants are written
      as literals so that the solver treats the scaling as linear. */
  function Enrich(region: Region, w: Workload): (row: Row)
    ensures row.region == region
    ensures row.annualTco2e == (w.kwhMonth * 12.0 * w.pue * region.intensity) / 1_000_000.0
    ensures row.annualTco2e == row.monthlyTco2e * 12.0
    ensures row.annualCarbonCostEur == row.annualTco2e * w.carbonPrice
  {
    var monthly := (w.kwhMonth * w.pue * region.intensity) / 1_000_000.0;
    var annual := monthly * 12.0;
    Row(region, monthly, annual, annual * w.carbonPrice)
  }

  /** The whole table with the derived columns added, row for row. */
  function EnrichAll(regions: seq<Region>, w: Workload): (rows: seq<Row>)
    ensures |rows| == |regions|
    ensures forall i :: 0 <= i < |regions| ==> rows[i] == Enrich(regions[i], w)
  {
    seq(|regions|, i requires 0 <= i < |regions| => Enrich(regions[i], w))
  }

  /** The regions a sequence of rows carries, in order. */
  function RegionsOf(rows: seq<Row>): (rs: seq<Region>)
    ensures |rs| == |rows|
    ensures forall i :: 0 <= i < |rows| ==> rs[i] == rows[i].region
  {
    seq(|rows|, i requires 0 <= i < |rows| => rows[i].region)
  }

  /** Within the widget ranges every derived figure is non-negative. */
  lemma DerivedNonNegative(region: Region, w: Workload)
    requires ValidWorkload(w)
    ensures 0.0 <= Enrich(region, w).monthlyTco2e
    ensures 0.0 <= Enrich(region, w).annualTco2e
    ensures 0.0 <= Enrich(region, w).annualCarbonCostEur
  {
  }

  /** A zero carbon price makes the cost zero whatever the emissions. */
  lemma ZeroPriceZeroCost(region: Region, w: Workload)
    requires w.carbonPrice == 0.0
    ensures Enrich(region, w).annualCarbonCostEur == 0.0
  {
  }

  /** Annual emissions are intensity scaled by one positive factor, so
      comparing two regions' annual emissions is comparing their
      intensities. */
  lemma AnnualOrderIsIntensityOrder(a: Region, b: Region, w: Workload)
    requires ValidWorkload(w)
    ensures Enrich(a, w).annualTco2e <= Enrich(b, w).annualTco2e <==> a.intensity <= b.intensity
  {
    var c := w.kwhMonth * 12.0 * w.pue;
    assert 0.0 < c by {
      assert 0.0 < w.kwhMonth * 12.0;
    }
    ScaleByPositive(c, a.intensity, b.intensity);
    ScaleByPositive(c, b.intensity, a.intensity);
  }

  /** Multiplying by a positive factor keeps the order, strict or not. */
  lemma ScaleByPositive(c: real, x: real, y: real)
    requires 0.0 < c
    ensures x <= y ==> c * x <= c * y
    ensures x < y ==> c * x < c * y
  {
  }

  /** Linearity in the energy: doubling the monthly kWh doubles every
      derived figure of a region. */
  lemma DoublingEnergyDoubles(region: Region, w: Workload)
    ensures var w2 := w.(kwhMonth := 2.0 * w.kwhMonth);
      && Enrich(region, w2).monthlyTco2e == 2.0 * Enrich(region, w).monthlyTco2e
      && Enrich(region, w2).annualTco2e == 2.0 * Enrich(region, w).annualTco2e
      && Enrich(region, w2).annualCarbonCostEur == 2.0 * Enrich(region, w).annualCarbonCostEur
  {
  }
}
