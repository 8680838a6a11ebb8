/** The headline figures read off the ranked table: the optimal and the
    highest-emitting region, the annual savings between them and the carbon
    cost those savings avoid. */
module Kpi {
  import opened Regions
  import opened Emissions
  import opened Ranking

  datatype Summary = Summary(best: RankedRow, worst: RankedRow, savingsTco2e: real, savingsEur: real)

  /** Reading the first and last row of an empty table fails. */
  datatype SummaryError = EmptyResult

  datatype Outcome = Ok(summary: Summary) | Err(error: SummaryError)

  /** Non-decreasing annual emissions from first row to last. */
  predicate AscendingByAnnual(result: seq<RankedRow>) {
    forall i, j :: 0 <= i <= j < |result| ==> result[i].row.annualTco2e <= result[j].row.annualTco2e
  }

  /** The summary of a ranked table and the carbon price the caller used.
      It fails exactly on an empty table. On an ascending table the best row
      emits least, the worst most, and the savings are non-negative. The
      price is taken from the caller, not from the rows. */
  function Summarize(result: seq<RankedRow>, carbonPrice: real): (o: Outcome)
    ensures o.Err? <==> |result| == 0
    ensures o.Ok? ==> o.summary.best in result && o.summary.worst in result
    ensures o.Ok? ==> o.summary.savingsTco2e == o.summary.worst.row.annualTco2e - o.summary.best.row.annualTco2e
    ensures o.Ok? ==> o.summary.savingsEur == o.summary.savingsTco2e * carbonPrice
    ensures o.Ok? && AscendingByAnnual(result) ==>
      && 0.0 <= o.summary.savingsTco2e
      && forall i :: 0 <= i < |result| ==>
           o.summary.best.row.annualTco2e <= result[i].row.annualTco2e <= o.summary.worst.row.annualTco2e
  {
    if |result| == 0 then Err(EmptyResult)
    else
      var best := result[0];
      var worst := result[|result| - 1];
      var savings := worst.row.annualTco2e - best.row.annualTco2e;
      Ok(Summary(best, worst, savings, savings * carbonPrice))
  }

  /** The summary of `compute`'s result, with the same carbon price: it
      exists exactly when there is a region, names the rank-1 and the
      rank-N row, and its savings are non-negative. */
  lemma SummaryOfCompute(regions: seq<Region>, w: Workload)
    ensures var o := Summarize(Compute(regions, w), w.carbonPrice);
      && (o.Err? <==> |regions| == 0)
      && (o.Ok? ==> o.summary.best.rankCleanest == 1 && o.summary.worst.rankCleanest == |regions|)
      && (o.Ok? ==> 0.0 <= o.summary.savingsTco2e)
  {
    var out := Compute(regions, w);
    assert AscendingByAnnual(out);
  }

  /** Savings are the spread of annual emissions over the input regions:
      the best row is a region with the least annual emissions, the worst
      one with the most, and savings are the difference of the two. */
  lemma SavingsIsSpread(regions: seq<Region>, w: Workload)
    requires 0 < |regions|
    ensures var o := Summarize(Compute(regions, w), w.carbonPrice);
      && o.Ok?
      && o.summary.best.row.region in regions
      && o.summary.worst.row.region in regions
      && o.summary.savingsTco2e
           == Enrich(o.summary.worst.row.region, w).annualTco2e - Enrich(o.summary.best.row.region, w).annualTco2e
      && forall r :: r in regions ==>
           Enrich(o.summary.best.row.region, w).annualTco2e <= Enrich(r, w).annualTco2e
             <= Enrich(o.summary.worst.row.region, w).annualTco2e
  {
    var out := Compute(regions, w);
    ComputeRowsAreInputRegions(regions, w);
    forall r | r in regions
      ensures out[0].row.annualTco2e <= Enrich(r, w).annualTco2e <= out[|out| - 1].row.annualTco2e
    {
      var i :| 0 <= i < |out| && out[i].row.region == r;
    }
  }

  /** Within the widget ranges the optimal region has the lowest grid
      intensity and the highest-emitting one the highest. */
  lemma OptimalRegionHasMinimumIntensity(regions: seq<Region>, w: Workload)
    requires ValidWorkload(w)
    requires 0 < |regions|
    ensures var o := Summarize(Compute(regions, w), w.carbonPrice);
      && o.Ok?
      && forall r :: r in regions ==>
           o.summary.best.row.region.intensity <= r.intensity <= o.summary.worst.row.region.intensity
  {
    CleanestHasMinimumIntensity(regions, w);
  }

  /** A non-negative carbon price makes the avoided cost non-negative. */
  lemma AvoidedCostNonNegative(regions: seq<Region>, w: Workload)
    requires 0.0 <= w.carbonPrice
    requires 0 < |regions|
    ensures var o := Summarize(Compute(regions, w), w.carbonPrice);
      o.Ok? && 0.0 <= o.summary.savingsEur
  {
    SummaryOfCompute(regions, w);
    var o := Summarize(Compute(regions, w), w.carbonPrice);
    assert 0.0 <= o.summary.savingsTco2e * w.carbonPrice;
  }

  /** With one region, best and worst coincide: nothing is saved and no
      cost is avoided. */
  lemma SingleRegionNoSavings(region: Region, w: Workload)
    ensures var o := Summarize(Compute([region], w), w.carbonPrice);
      && o.Ok?
      && o.summary.best == o.summary.worst
      && o.summary.best.row.region == region
      && o.summary.savingsTco2e == 0.0
      && o.summary.savingsEur == 0.0
  {
    var out := Compute([region], w);
    assert multiset(RankedRegions(out)) == multiset{region};
    assert RankedRegions(out)[0] in multiset{region};
  }
}
