/** The state of `src/features/filters/hooks/useFlightFilters.ts`: the
  filter state with its two updaters, the "any filter active" flag, and the
  two derived values (facet options from the unfiltered flights, filtered
  flights).
*/
module FilterHook {
  import opened Wrappers
  import opened FlightTypes
  import opened Filters

  /** `updateFilter(key, value)`: the key together with a value of its type. */
  datatype FilterUpdate =
    | SetStops(stops: seq<int>)
    | SetPriceRange(priceRange: Option<(real, real)>)
    | SetAirlines(airlines: seq<string>)

  /** `setFilters(prev => ({ ...prev, [key]: value }))`: the named field takes
      the value and the other two keep theirs. */
  function UpdateFilter(prev: FilterState, update: FilterUpdate): (r: FilterState)
    ensures update.SetStops? ==>
      r.stops == update.stops && r.priceRange == prev.priceRange && r.airlines == prev.airlines
    ensures update.SetPriceRange? ==>
      r.stops == prev.stops && r.priceRange == update.priceRange && r.airlines == prev.airlines
    ensures update.SetAirlines? ==>
      r.stops == prev.stops && r.priceRange == prev.priceRange && r.airlines == update.airlines
  {
    match update
    case SetStops(stops) => prev.(stops := stops)
    case SetPriceRange(range) => prev.(priceRange := range)
    case SetAirlines(airlines) => prev.(airlines := airlines)
  }

  /** Which field an update writes. */
  function Field(update: FilterUpdate): nat
  {
    match update
    case SetStops(_) => 0
    case SetPriceRange(_) => 1
    case SetAirlines(_) => 2
  }

  /** Setting the same value twice is setting it once. */
  lemma UpdateFilterIdempotent(prev: FilterState, update: FilterUpdate)
    ensures UpdateFilter(UpdateFilter(prev, update), update) == UpdateFilter(prev, update)
  {
  }

  /** Updates of different fields commute; of the same field, the later wins. */
  lemma UpdateFilterOrder(prev: FilterState, a: FilterUpdate, b: FilterUpdate)
    ensures Field(a) != Field(b) ==>
      UpdateFilter(UpdateFilter(prev, a), b) == UpdateFilter(UpdateFilter(prev, b), a)
    ensures Field(a) == Field(b) ==>
      UpdateFilter(UpdateFilter(prev, a), b) == UpdateFilter(prev, b)
  {
  }

  /** `hasActiveFilters`. */
  predicate HasActiveFilters(filters: FilterState)
  {
    |filters.stops| > 0 || filters.priceRange.Some? || |filters.airlines| > 0
  }

  /** No filter is active exactly in the default state, which is the state
      `resetFilters` restores. */
  lemma InactiveIsDefault(filters: FilterState)
    ensures !HasActiveFilters(filters) <==> filters == DefaultFilters
  {
  }

  /** The hook for one list of flights: the flights, the carrier names and
      the current filter state. */
  datatype Hook = Hook(flights: seq<Flight>, carriers: map<string, string>, filters: FilterState)

  /** The first render: `useState(DEFAULT_FILTERS)`. */
  function InitHook(flights: seq<Flight>, carriers: map<string, string>): (h: Hook)
    ensures !HasActiveFilters(h.filters)
  {
    Hook(flights, carriers, DefaultFilters)
  }

  function ResetFilters(h: Hook): (r: Hook)
    ensures !HasActiveFilters(r.filters)
    ensures r.flights == h.flights && r.carriers == h.carriers
  {
    h.(filters := DefaultFilters)
  }

  function ApplyUpdate(h: Hook, update: FilterUpdate): Hook
  {
    h.(filters := UpdateFilter(h.filters, update))
  }

  function Options(h: Hook): FilterOptions
  {
    DeriveFilterOptions(h.flights, h.carriers)
  }

  function FilteredFlights(h: Hook): seq<Flight>
  {
    FilterFlights(h.flights, h.filters)
  }

  /** The options come from the unfiltered flights: no update or reset
      changes them. */
  lemma OptionsIgnoreFilters(h: Hook, update: FilterUpdate)
    ensures Options(ApplyUpdate(h, update)) == Options(h)
    ensures Options(ResetFilters(h)) == Options(h)
  {
  }

  /** With no active filter the filtered list is the whole list; in
      particular right after the first render and after a reset. */
  lemma InactiveShowsAll(h: Hook)
    ensures !HasActiveFilters(h.filters) ==> FilteredFlights(h) == h.flights
  {
    if !HasActiveFilters(h.filters) {
      InactiveIsDefault(h.filters);
      FilterDefault(h.flights);
    }
  }
}
