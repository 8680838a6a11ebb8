/** Ordering the enriched rows cleanest first, by annual emissions. */
module Sorting {
  import opened Emissions

  /** Every earlier row emits no more per year than every later row. */
  predicate SortedByAnnual(rows: seq<Row>) {
    forall i, j :: 0 <= i < j < |rows| ==> rows[i].annualTco2e <= rows[j].annualTco2e
  }

  /** Places one row into an ascending sequence, ahead of the first row
      that emits at least as much. */
  function Insert(x: Row, rows: seq<Row>): (r: seq<Row>)
    requires SortedByAnnual(rows)
    ensures |r| == |rows| + 1
    ensures multiset(r) == multiset(rows) + multiset{x}
    ensures SortedByAnnual(r)
    ensures r[0] == x || (0 < |rows| && r[0] == rows[0])
    decreases |rows|
  {
    if |rows| == 0 then [x]
    else if x.annualTco2e <= rows[0].annualTco2e then [x] + rows
    else
      var tail := Insert(x, rows[1..]);
      assert rows == [rows[0]] + rows[1..];
      assert rows[0].annualTco2e <= tail[0].annualTco2e;
      [rows[0]] + tail
  }

  /** An ascending rearrangement of the rows: nothing dropped, nothing
      duplicated. */
  function SortByAnnual(rows: seq<Row>): (r: seq<Row>)
    ensures |r| == |rows|
    ensures multiset(r) == multiset(rows)
    ensures SortedByAnnual(r)
    decreases |rows|
  {
    if |rows| == 0 then []
    else
      assert rows == [rows[0]] + rows[1..];
      Insert(rows[0], SortByAnnual(rows[1..]))
  }
}
