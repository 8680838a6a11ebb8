/** The inputs of the emissions calculation: the region table and the
    workload parameters chosen in the sidebar. */
module Regions {

  /** Grid intensities are non-negative; the loader's coercion of
      non-numeric cells to NaN is outside the model. */
  type NonNegReal = x: real | 0.0 <= x

  /** One row of the region table: the cloud region identifier, its display
      label, its country and the grid's carbon intensity in gCO2e per kWh. */
  datatype Region = Region(regionId: string, regionLabel: string, country: string, intensity: NonNegReal)

  /** The workload profile: monthly energy in kWh, the data-centre PUE
      multiplier, and the internal carbon price in EUR per tCO2e. */
  datatype Workload = Workload(kwhMonth: real, pue: real, carbonPrice: real)

  /** The ranges the sidebar widgets admit: at least 1 kWh a month, a PUE
      slider from 1.0 to 2.0, and a non-negative carbon price. */
  predicate ValidWorkload(w: Workload) {
    && 1.0 <= w.kwhMonth
    && 1.0 <= w.pue <= 2.0
    && 0.0 <= w.carbonPrice
  }
}
