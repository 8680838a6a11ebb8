/** The `compute` step: enrich every region, order the rows cleanest first
    and number them. */
module Ranking {
  import opened Regions
  import opened Emissions
  import opened Sorting
  import opened Permutation

  /** An enriched row with its 1-based position in the cleanest-first order. */
  datatype RankedRow = RankedRow(row: Row, rankCleanest: int)

  /** Numbers the rows 1, 2, ... in their given order. */
  function AssignRanks(rows: seq<Row>): (out: seq<RankedRow>)
    ensures |out| == |rows|
    ensures forall i :: 0 <= i < |rows| ==> out[i].row == rows[i]
    ensures forall i :: 0 <= i < |rows| ==> out[i].rankCleanest == i + 1
  {
    seq(|rows|, i requires 0 <= i < |rows| => RankedRow(rows[i], i + 1))
  }

  /** The rows of a ranked table, rank dropped. */
  function RowsOf(out: seq<RankedRow>): (rows: seq<Row>)
    ensures |rows| == |out|
    ensures forall i :: 0 <= i < |out| ==> rows[i] == out[i].row
  {
    seq(|out|, i requires 0 <= i < |out| => out[i].row)
  }

  /** The regions of a ranked table, in rank order. */
  function RankedRegions(out: seq<RankedRow>): (rs: seq<Region>)
    ensures |rs| == |out|
    ensures forall i :: 0 <= i < |out| ==> rs[i] == out[i].row.region
  {
    RegionsOf(RowsOf(out))
  }

  /** Every row carries exactly the figures `Enrich` derives from its own
      region. */
  predicate AllEnriched(rows: seq<Row>, w: Workload) {
    forall i :: 0 <= i < |rows| ==> rows[i] == Enrich(rows[i].region, w)
  }

  /** Rearranging enriched rows leaves every row enriched. */
  lemma PermutationKeepsEnriched(a: seq<Row>, b: seq<Row>, w: Workload)
    requires multiset(a) == multiset(b)
    requires AllEnriched(b, w)
    ensures AllEnriched(a, w)
  {
    forall i | 0 <= i < |a| ensures a[i] == Enrich(a[i].region, w) {
      assert a[i] in multiset(b);
    }
  }

  /** The ranked table: one row per input region, each region unchanged and
      carrying its derived figures, ordered by non-decreasing annual
      emissions and ranked by position. */
  function Compute(regions: seq<Region>, w: Workload): (out: seq<RankedRow>)
    ensures |out| == |regions|
    ensures multiset(RankedRegions(out)) == multiset(regions)
    ensures forall i :: 0 <= i < |out| ==> out[i].row == Enrich(out[i].row.region, w)
    ensures forall i, j :: 0 <= i <= j < |out| ==> out[i].row.annualTco2e <= out[j].row.annualTco2e
    ensures forall i :: 0 <= i < |out| ==> out[i].rankCleanest == i + 1
  {
    var rows := EnrichAll(regions, w);
    var sorted := SortByAnnual(rows);
    assert RegionsOf(rows) == regions;
    PermutationKeepsRegions(sorted, rows);
    PermutationKeepsEnriched(sorted, rows, w);
    RanksKeepRows(sorted);
    RanksKeepOrder(sorted);
    AssignRanks(sorted)
  }

  /** Numbering the rows keeps the regions they carry, in order. */
  lemma RanksKeepRows(rows: seq<Row>)
    ensures RankedRegions(AssignRanks(rows)) == RegionsOf(rows)
  {
  }

  /** Numbering an ascending sequence leaves it ascending. This follows
      from `AssignRanks`' contract; stating it apart keeps the proof of
      `Compute` small. */
  lemma RanksKeepOrder(rows: seq<Row>)
    requires SortedByAnnual(rows)
    ensures forall i, j :: 0 <= i <= j < |rows| ==>
      AssignRanks(rows)[i].row.annualTco2e <= AssignRanks(rows)[j].row.annualTco2e
  {
  }

  /** Every row of the result is some input region enriched with the
      workload, and every input region appears in the result. */
  lemma {:induction false} ComputeRowsAreInputRegions(regions: seq<Region>, w: Workload)
    ensures forall i :: 0 <= i < |Compute(regions, w)| ==> Compute(regions, w)[i].row.region in regions
    ensures forall r :: r in regions ==> exists i :: 0 <= i < |Compute(regions, w)| && Compute(regions, w)[i].row.region == r
  {
    var out := Compute(regions, w);
    var rs := RankedRegions(out);
    forall i | 0 <= i < |out| ensures out[i].row.region in regions {
      assert rs[i] in multiset(rs);
    }
    forall r | r in regions ensures exists i :: 0 <= i < |out| && out[i].row.region == r {
      assert r in multiset(rs);
      var i :| 0 <= i < |rs| && rs[i] == r;
    }
  }

  /** The integers 1..n. */
  function OneTo(n: nat): (s: set<int>)
    ensures forall k :: k in s <==> 1 <= k <= n
  {
    if n == 0 then {} else OneTo(n - 1) + {n}
  }

  /** Ranks that are positions plus one are exactly 1..N: no gaps, and no
      two rows share a rank. `Compute` numbers its rows this way. */
  lemma PositionalRanksAreOneToN(out: seq<RankedRow>)
    requires forall i :: 0 <= i < |out| ==> out[i].rankCleanest == i + 1
    ensures (set i | 0 <= i < |out| :: out[i].rankCleanest) == OneTo(|out|)
    ensures forall i, j :: 0 <= i < |out| && 0 <= j < |out| && i != j ==> out[i].rankCleanest != out[j].rankCleanest
  {
    var ranks := set i | 0 <= i < |out| :: out[i].rankCleanest;
    forall k | k in OneTo(|out|) ensures k in ranks {
      assert out[k - 1].rankCleanest == k;
    }
  }

  /** The ranks of the computed table are exactly 1..N. */
  lemma RanksAreOneToN(regions: seq<Region>, w: Workload)
    ensures var out := Compute(regions, w);
      && (set i | 0 <= i < |out| :: out[i].rankCleanest) == OneTo(|regions|)
      && forall i, j :: 0 <= i < |out| && 0 <= j < |out| && i != j ==> out[i].rankCleanest != out[j].rankCleanest
  {
    PositionalRanksAreOneToN(Compute(regions, w));
  }

  /** Within the widget ranges every derived figure of every row is
      non-negative. */
  lemma ComputeNonNegative(regions: seq<Region>, w: Workload)
    requires ValidWorkload(w)
    ensures forall i :: 0 <= i < |Compute(regions, w)| ==>
      var row := Compute(regions, w)[i].row;
      0.0 <= row.monthlyTco2e && 0.0 <= row.annualTco2e && 0.0 <= row.annualCarbonCostEur
  {
    var out := Compute(regions, w);
    forall i | 0 <= i < |out|
      ensures 0.0 <= out[i].row.monthlyTco2e && 0.0 <= out[i].row.annualTco2e && 0.0 <= out[i].row.annualCarbonCostEur
    {
      DerivedNonNegative(out[i].row.region, w);
    }
  }

  /** With a zero carbon price every annual cost is zero. */
  lemma ComputeZeroPrice(regions: seq<Region>, w: Workload)
    requires w.carbonPrice == 0.0
    ensures forall i :: 0 <= i < |Compute(regions, w)| ==> Compute(regions, w)[i].row.annualCarbonCostEur == 0.0
  {
  }

  /** Within the widget ranges the emissions order is the intensity order:
      the result is also non-decreasing in grid intensity. */
  lemma ComputeSortedByIntensity(regions: seq<Region>, w: Workload)
    requires ValidWorkload(w)
    ensures var out := Compute(regions, w);
      forall i, j :: 0 <= i <= j < |out| ==> out[i].row.region.intensity <= out[j].row.region.intensity
  {
    var out := Compute(regions, w);
    forall i, j | 0 <= i <= j < |out| ensures out[i].row.region.intensity <= out[j].row.region.intensity {
      AnnualOrderIsIntensityOrder(out[i].row.region, out[j].row.region, w);
    }
  }

  /** The rank-1 region has the lowest grid intensity of all input regions,
      and the last-ranked the highest. */
  lemma CleanestHasMinimumIntensity(regions: seq<Region>, w: Workload)
    requires ValidWorkload(w)
    requires 0 < |regions|
    ensures var out := Compute(regions, w);
      forall r :: r in regions ==>
        out[0].row.region.intensity <= r.intensity <= out[|out| - 1].row.region.intensity
  {
    var out := Compute(regions, w);
    ComputeRowsAreInputRegions(regions, w);
    ComputeSortedByIntensity(regions, w);
    forall r | r in regions
      ensures out[0].row.region.intensity <= r.intensity <= out[|out| - 1].row.region.intensity
    {
      var i :| 0 <= i < |out| && out[i].row.region == r;
    }
  }
}
