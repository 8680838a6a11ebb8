/** A worked two-region example of the ranking and the summary. */
module Scenario {
  import opened Regions
  import opened Emissions
  import opened Sorting
  import opened Ranking
  import opened Kpi

  /** Two regions at 100 and 50 gCO2e/kWh, 1000 kWh a month, PUE 1.0 and a
      price of 100 EUR/t: the cleaner region ranks first at 0.6 t a year
      costing 60 EUR, the other follows at 1.2 t costing 120 EUR, and
      choosing the first saves 0.6 t and 60 EUR. */
  lemma TwoRegionExample()
    ensures var a := Region("A", "Region A", "X", 100.0);
      var b := Region("B", "Region B", "Y", 50.0);
      var w := Workload(1000.0, 1.0, 100.0);
      && Compute([a, b], w) == [RankedRow(Row(b, 0.05, 0.6, 60.0), 1), RankedRow(Row(a, 0.1, 1.2, 120.0), 2)]
      && Summarize(Compute([a, b], w), w.carbonPrice)
           == Ok(Summary(RankedRow(Row(b, 0.05, 0.6, 60.0), 1), RankedRow(Row(a, 0.1, 1.2, 120.0), 2), 0.6, 60.0))
  {
    var a := Region("A", "Region A", "X", 100.0);
    var b := Region("B", "Region B", "Y", 50.0);
    var w := Workload(1000.0, 1.0, 100.0);
    var ra, rb := Row(a, 0.1, 1.2, 120.0), Row(b, 0.05, 0.6, 60.0);
    assert Enrich(a, w) == ra;
    assert Enrich(b, w) == rb;
    assert EnrichAll([a, b], w) == [ra, rb];
    assert SortByAnnual([rb]) == [rb];
    assert SortByAnnual([ra, rb]) == Insert(ra, [rb]) by {
      assert [ra, rb][1..] == [rb];
    }
    assert Insert(ra, [rb]) == [rb, ra] by {
      assert [rb][1..] == [];
    }
  }
}
