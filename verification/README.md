# Carbon-aware cloud region ranking

A Dafny model of the emissions ranking behind the carbon-aware cloud
decision dashboard. For a workload (monthly energy in kWh, a data-centre
PUE multiplier and an internal carbon price in EUR per tCO2e), `compute`
takes the table of cloud regions, each with a grid carbon intensity in
gCO2e per kWh. It derives each region's monthly and annual tCO2e and the
annual carbon cost. It then orders the regions cleanest first and numbers
them `rank_cleanest` = 1..N. The dashboard then reads the best (first) and
worst (last) rows and shows the annual savings between them and the carbon
cost those savings avoid.

Quantities are exact `real`s. Files:

- `regions.dfy` (`Regions`): the region record (identifier, label, country,
  non-negative intensity), the workload parameters, and `ValidWorkload`.
  That predicate holds the sidebar widget ranges: kWh at least 1, PUE
  between 1.0 and 2.0, price at least 0.
- `emissions.dfy` (`Emissions`): the per-region derivation `Enrich` and its
  properties: the closed formula, non-negativity, linearity in kWh, and
  that the emissions order is the intensity order.
- `sorting.dfy` (`Sorting`): an insertion sort of the enriched rows by
  annual tCO2e. It is proved ascending and a permutation of its input.
- `permutation.dfy` (`Permutation`): a permutation of rows permutes their
  regions the same way.
- `ranking.dfy` (`Ranking`): `Compute`, which enriches, sorts and assigns
  ranks, and the lemmas about its result.
- `summary.dfy` (`Kpi`): `Summarize`, which computes best, worst, savings
  and avoided cost, and the lemmas that relate it to the input regions.
- `scenario.dfy` (`Scenario`): a worked two-region example.

The workload bounds are not preconditions of `Compute` or `Summarize`. The
source function accepts any numbers. The bounds appear only on the lemmas
whose conclusions need them: non-negativity, and ordering by intensity.

On two points the model follows the code where a cleaner design might
differ:

- A stable sort would make tie order deterministic. The code calls pandas'
  `sort_values` with its default algorithm, which is not stable. So the
  model makes no claim about the relative order of regions with equal
  emissions. The insertion sort used here happens to be stable, but no
  contract says so.
- An empty region set could be rejected up front as invalid input. The
  code's `compute` returns an empty table instead. Only the
  summary step fails, when it reads the first row. The model returns the
  empty ranking from `Compute` and `Err(EmptyResult)` from `Summarize`.

## Model

| member | source | states |
|---|---|---|
| Emissions.Enrich | app/app.py:37-41 | the row keeps its region; annual tCO2e equals kWh x 12 x PUE x intensity / 1,000,000 (the methodology formula at line 199); annual equals monthly x 12, so together the two give monthly tCO2e = kWh x PUE x intensity / 1,000,000; cost equals annual x price |
| Emissions.EnrichAll | app/app.py:37-41 | the derived columns are added row for row: as many rows as regions, and row i is `Enrich` of region i, so `Enrich`'s contract (the formulas above) holds at every index |
| Emissions.DerivedNonNegative | app/app.py:37-41 | within the widget ranges, monthly, annual and cost are all at least 0 |
| Emissions.ZeroPriceZeroCost | app/app.py:41 | a zero carbon price gives zero annual cost |
| Emissions.AnnualOrderIsIntensityOrder | app/app.py:37-40 | within the widget ranges, one region's annual tCO2e is at most another's exactly when its intensity is at most the other's |
| Emissions.DoublingEnergyDoubles | app/app.py:37-41 | doubling monthly kWh doubles monthly tCO2e, annual tCO2e and cost |
| Sorting.Insert | app/app.py:44 | inserting into an ascending sequence gives an ascending sequence, one longer, whose multiset is the old one plus the new row |
| Sorting.SortByAnnual | app/app.py:44 | the result is ascending in annual tCO2e and is a permutation (same length, same multiset) of the input rows |
| Permutation.PermutationKeepsRegions | app/app.py:34-44 | two row sequences with the same multiset of rows carry the same multiset of regions |
| Ranking.Compute | app/app.py:33-46 | as many rows as regions; the multiset of regions is that of the input; every row has exactly the derived figures of its own region; annual tCO2e is non-decreasing; the row at position i has rank i + 1 |
| Ranking.ComputeRowsAreInputRegions | app/app.py:34-46 | every result row is an input region, and every input region appears in the result |
| Ranking.AssignRanks | app/app.py:44-45 | after the index reset, the rows keep their order and the row at position i gets rank i + 1; `PositionalRanksAreOneToN` is its partner, showing those ranks are exactly {1..N} with none shared |
| Ranking.PositionalRanksAreOneToN | app/app.py:45 | any table whose ranks are positions plus one has exactly the ranks {1..N}, with no two rows sharing a rank |
| Ranking.RanksAreOneToN | app/app.py:44-45 | the set of ranks is exactly {1..N}, and distinct rows have distinct ranks |
| Ranking.ComputeNonNegative | app/app.py:37-41 | within the widget ranges, every row's monthly, annual and cost are at least 0 |
| Ranking.ComputeZeroPrice | app/app.py:41 | with carbon price 0, every row's annual cost is 0 |
| Ranking.ComputeSortedByIntensity | app/app.py:37-44 | within the widget ranges, the result is also non-decreasing in grid intensity |
| Ranking.CleanestHasMinimumIntensity | app/app.py:37-45 | within the widget ranges, the rank-1 region has the lowest intensity of all input regions and the last-ranked one the highest |
| Kpi.Summarize | app/app.py:100-104 | fails exactly on an empty table; best and worst are rows of the table; savings are worst minus best annual tCO2e; avoided cost is savings x price; on an ascending table best is the minimum, worst the maximum, and savings are at least 0 |
| Kpi.SummaryOfCompute | app/app.py:98-103 | the summary of the computed ranking fails exactly when there are no regions; otherwise best has rank 1, worst has rank N, and savings are at least 0 |
| Kpi.SavingsIsSpread | app/app.py:100-103 | best and worst are input regions with the least and the most annual tCO2e of all input regions, and savings are the difference of their annual tCO2e |
| Kpi.OptimalRegionHasMinimumIntensity | app/app.py:100-101 | within the widget ranges, the optimal region has the lowest grid intensity and the worst region the highest |
| Kpi.AvoidedCostNonNegative | app/app.py:104 | with a non-negative price, the avoided cost is at least 0 |
| Kpi.SingleRegionNoSavings | app/app.py:100-104 | with a single region, best and worst are that region, savings are 0 and the avoided cost is 0 |
| Scenario.TwoRegionExample | app/app.py:33-46 | regions at 100 and 50 gCO2e/kWh, 1000 kWh, PUE 1 and price 100 rank as [50-region (0.05, 0.6 t, 60 EUR), 100-region (0.1, 1.2 t, 120 EUR)], with savings 0.6 t and 60 EUR |

## Left out

- Page setup, sidebar widgets, KPI cards, map, bar chart, detail table and methodology text (app/app.py:9, 61-206): presentation through Streamlit and Plotly. Only the widget bounds are kept, as `ValidWorkload`.
- Reading the region CSV and `pd.to_numeric(..., errors="coerce")` (app/app.py:51-56): file I/O. A coerced NaN intensity is not modelled. Intensities are assumed to be valid non-negative numbers (the `NonNegReal` field type).
- Latitude and longitude (app/app.py:55-56, 121-124): display only.
- The workload presets and default constants (app/app.py:20-28): UI configuration.
- Floating-point rounding and display formatting (app/app.py:111-112): all quantities are exact reals.
- Relative order of regions with equal annual emissions (app/app.py:44): the source's pandas sort does not promise one, so no contract states one.
- Repeated calls giving identical results: every member is a pure function, so this holds by construction and is not stated separately.
