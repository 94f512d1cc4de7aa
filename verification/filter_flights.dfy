/** `src/features/filters/utils/filterFlights.ts`: the filter the results
  list applies, and the facets (stop buckets, airline buckets, price range)
  derived from the unfiltered flights.
*/
module Filters {
  import opened Wrappers
  import opened Seqs
  import opened FlightTypes
  import Format
  import opened JsMath

  /** `FilterState`: an empty list or a missing range means "no constraint". */
  datatype FilterState = FilterState(stops: seq<int>, priceRange: Option<(real, real)>, airlines: seq<string>)

  /** `DEFAULT_FILTERS`. */
  const DefaultFilters: FilterState := FilterState([], None, [])

  predicate StopsAllowed(filters: FilterState, f: Flight)
  {
    |filters.stops| == 0 || f.stops in filters.stops
  }

  /** The range is inclusive at both ends. */
  predicate PriceAllowed(filters: FilterState, f: Flight)
  {
    filters.priceRange.None? || filters.priceRange.value.0 <= f.price <= filters.priceRange.value.1
  }

  predicate AirlineAllowed(filters: FilterState, f: Flight)
  {
    |filters.airlines| == 0 || f.airlineCode in filters.airlines
  }

  /** The callback given to `flights.filter`, with its three early returns. */
  function Keep(filters: FilterState): Flight -> bool
  {
    (f: Flight) =>
      if |filters.stops| > 0 && f.stops !in filters.stops then false
      else if filters.priceRange.Some? && (f.price < filters.priceRange.value.0 || f.price > filters.priceRange.value.1) then false
      else if |filters.airlines| > 0 && f.airlineCode !in filters.airlines then false
      else true
  }

  /** `filterFlights(flights, filters)`: the flights meeting all three
      constraints, in input order, none added or repeated. */
  function FilterFlights(flights: seq<Flight>, filters: FilterState): (r: seq<Flight>)
    ensures Subsequence(r, flights)
    ensures forall i :: 0 <= i < |r| ==>
      StopsAllowed(filters, r[i]) && PriceAllowed(filters, r[i]) && AirlineAllowed(filters, r[i])
    ensures forall i :: 0 <= i < |flights| ==>
      (StopsAllowed(filters, flights[i]) && PriceAllowed(filters, flights[i]) && AirlineAllowed(filters, flights[i]))
      ==> flights[i] in r
    ensures forall x ::
              multiset(r)[x] ==
                if StopsAllowed(filters, x) && PriceAllowed(filters, x) && AirlineAllowed(filters, x)
                then multiset(flights)[x] else 0
  {
    FilterMultiset(flights, Keep(filters));
    Filter(flights, Keep(filters))
  }

  /** Without constraints every flight is kept. */
  lemma FilterDefault(flights: seq<Flight>)
    ensures FilterFlights(flights, DefaultFilters) == flights
  {
    FilterAll(flights, Keep(DefaultFilters));
  }

  /** Filtering twice with the same state is filtering once. */
  lemma FilterFlightsIdempotent(flights: seq<Flight>, filters: FilterState)
    ensures FilterFlights(FilterFlights(flights, filters), filters) == FilterFlights(flights, filters)
  {
    FilterIdempotent(flights, Keep(filters));
  }

  // ---------------------------------------------------------------------
  // deriveFilterOptions

  datatype StopOption = StopOption(value: int, labelText: string, count: nat)

  datatype AirlineOption = AirlineOption(code: string, name: string, count: nat)

  datatype PriceBounds = PriceBounds(min: int, max: int)

  datatype FilterOptions = FilterOptions(
    stopsOptions: seq<StopOption>,
    priceRange: PriceBounds,
    airlines: seq<AirlineOption>)

  function EntryKey<K, V>(e: (K, V)): K
  {
    e.0
  }

  function EntryValue(e: (int, nat)): real
  {
    e.0 as real
  }

  function ToStopOption(e: (int, nat)): StopOption
  {
    StopOption(e.0, Format.StopsLabel(e.0), e.1)
  }

  function ToAirlineOption(carriers: map<string, string>): ((string, nat)) -> AirlineOption
  {
    (e: (string, nat)) => AirlineOption(e.0, NameOr(carriers, e.0), e.1)
  }

  function OptionCode(o: AirlineOption): string
  {
    o.code
  }

  function StopCount(o: StopOption): int
  {
    o.count
  }

  function AirlineCount(o: AirlineOption): int
  {
    o.count
  }

  /** The comparator `(a, b) => b.count - a.count` as an ascending key. */
  function ByCountDescending(o: AirlineOption): real
  {
    -(o.count as real)
  }

  /** Stop counts sorted by `(a, b) => a - b`, then labelled. */
  function StopOptions(counts: seq<(int, nat)>): seq<StopOption>
  {
    MapSeq(InsertionSort(counts, EntryValue), ToStopOption)
  }

  /** Airline counts named, then sorted by descending count. */
  function AirlineOptions(counts: seq<(string, nat)>, carriers: map<string, string>): seq<AirlineOption>
  {
    InsertionSort(MapSeq(counts, ToAirlineOption(carriers)), ByCountDescending)
  }

  /** The price facet: 0 to 1000 without flights, otherwise the whole-number
      range that just covers every price. */
  function PriceBoundsOf(flights: seq<Flight>): (r: PriceBounds)
    ensures |flights| == 0 ==> r == PriceBounds(0, 1000)
    ensures forall i :: 0 <= i < |flights| ==> r.min as real <= flights[i].price <= r.max as real
    ensures |flights| > 0 ==>
      && (exists i :: 0 <= i < |flights| && flights[i].price < r.min as real + 1.0)
      && (exists i :: 0 <= i < |flights| && r.max as real - 1.0 < flights[i].price)
  {
    if |flights| == 0 then PriceBounds(0, 1000)
    else PriceBounds(MinPrice(flights).Floor, Ceil(MaxPrice(flights)))
  }

  function StopBuckets(flights: seq<Flight>): seq<StopOption>
  {
    StopOptions(Tally(flights, StopsOf))
  }

  function AirlineBuckets(flights: seq<Flight>, carriers: map<string, string>): seq<AirlineOption>
  {
    AirlineOptions(Tally(flights, CodeOf), carriers)
  }

  /** `deriveFilterOptions(flights, carriers)`. */
  function DeriveFilterOptions(flights: seq<Flight>, carriers: map<string, string>): FilterOptions
  {
    FilterOptions(StopBuckets(flights), PriceBoundsOf(flights), AirlineBuckets(flights, carriers))
  }

  /** The single loop of `deriveFilterOptions`: both counts and both price
      extremes gathered in one pass, then sorted. */
  method DeriveFilterOptionsPass(flights: seq<Flight>, carriers: map<string, string>) returns (r: FilterOptions)
    ensures r == DeriveFilterOptions(flights, carriers)
  {
    var stopsCounts: seq<(int, nat)> := [];
    var airlineCounts: seq<(string, nat)> := [];
    var minPrice: Option<real> := None;
    var maxPrice: Option<real> := None;
    for i := 0 to |flights|
      invariant stopsCounts == Tally(flights[..i], StopsOf)
      invariant airlineCounts == Tally(flights[..i], CodeOf)
      invariant i == 0 ==> minPrice.None? && maxPrice.None?
      invariant i > 0 ==> minPrice == Some(MinPrice(flights[..i])) && maxPrice == Some(MaxPrice(flights[..i]))
    {
      var f := flights[i];
      assert flights[..i + 1][..i] == flights[..i];
      stopsCounts := AddCount(stopsCounts, f.stops);
      if minPrice.None? || f.price < minPrice.value {
        minPrice := Some(f.price);
      }
      if maxPrice.None? || f.price > maxPrice.value {
        maxPrice := Some(f.price);
      }
      airlineCounts := AddCount(airlineCounts, f.airlineCode);
    }
    assert flights[..|flights|] == flights;
    var bounds := PriceBounds(
      if minPrice.None? then 0 else minPrice.value.Floor,
      if maxPrice.None? then 1000 else Ceil(maxPrice.value));
    r := FilterOptions(StopOptions(stopsCounts), bounds, AirlineOptions(airlineCounts, carriers));
  }

  // ---------------------------------------------------------------------
  // Stop buckets

  /** Stop buckets are strictly ascending by value: one per stop count. */
  lemma StopOptionsAscending(flights: seq<Flight>)
    ensures var o := StopBuckets(flights);
      forall i, j :: 0 <= i < j < |o| ==> o[i].value < o[j].value
  {
    var c := Tally(flights, StopsOf);
    var sorted := InsertionSort(c, EntryValue);
    TallyKeys(flights, StopsOf);
    assert MapSeq(c, EntryKey) == Keys(c);
    PermutationDistinctBy(c, sorted, EntryKey);
    forall i, j | 0 <= i < j < |sorted| ensures sorted[i].0 < sorted[j].0 {
      assert EntryValue(sorted[i]) <= EntryValue(sorted[j]);
      assert MapSeq(sorted, EntryKey)[i] != MapSeq(sorted, EntryKey)[j];
    }
  }

  /** Each stop bucket counts exactly the flights with that many stops (so
      at least one), and carries the label `getStopsLabel` gives. */
  lemma StopOptionsCounts(flights: seq<Flight>)
    ensures var o := StopBuckets(flights);
      forall i :: 0 <= i < |o| ==>
        && o[i].count == |Filter(flights, KeyIs(StopsOf, o[i].value))| >= 1
        && o[i].labelText == Format.StopsLabel(o[i].value)
  {
    var c := Tally(flights, StopsOf);
    TallyCounts(flights, StopsOf);
    PermutedCounts(c, InsertionSort(c, EntryValue), flights, StopsOf);
  }

  /** Every flight's stop count has a bucket. */
  lemma StopOptionsCover(flights: seq<Flight>)
    ensures var o := StopBuckets(flights);
      forall f :: f in flights ==> exists i :: 0 <= i < |o| && o[i].value == f.stops
  {
    var c := Tally(flights, StopsOf);
    var sorted := InsertionSort(c, EntryValue);
    var o := StopBuckets(flights);
    forall f | f in flights ensures exists i :: 0 <= i < |o| && o[i].value == f.stops {
      var j :| 0 <= j < |flights| && flights[j] == f;
      TallyCovers(flights, StopsOf, j);
      var k :| 0 <= k < |c| && Keys(c)[k] == f.stops;
      assert c[k] in multiset(sorted);
      var i :| 0 <= i < |sorted| && sorted[i] == c[k];
      assert o[i].value == f.stops;
    }
  }

  /** The stop buckets together count every flight once. */
  lemma StopOptionsTotal(flights: seq<Flight>)
    ensures SumBy(StopBuckets(flights), StopCount) == |flights|
  {
    var c := Tally(flights, StopsOf);
    var sorted := InsertionSort(c, EntryValue);
    SumByMapSeq(sorted, ToStopOption, StopCount, Count);
    InsertionSortSum(c, EntryValue, Count);
    TallyTotal(flights, StopsOf);
  }

  // ---------------------------------------------------------------------
  // Airline buckets

  /** Airline buckets are ordered by non-increasing count; buckets with
      equal counts keep the order in which their codes first appear among
      the flights (the sort is stable). */
  lemma AirlineOptionsOrdered(flights: seq<Flight>, carriers: map<string, string>)
    ensures var o := AirlineBuckets(flights, carriers);
      var codes := MapSeq(flights, CodeOf);
      forall i, j :: 0 <= i < j < |o| ==>
        o[i].count > o[j].count
        || (o[i].count == o[j].count && FirstIndex(codes, o[i].code) < FirstIndex(codes, o[j].code))
  {
    var codes := MapSeq(flights, CodeOf);
    var c := Tally(flights, CodeOf);
    var u := MapSeq(c, ToAirlineOption(carriers));
    var tie := (x: AirlineOption) => FirstIndex(codes, x.code);
    TallyKeys(flights, CodeOf);
    DedupFirstAppearance(codes);
    forall i, j | 0 <= i < j < |u| ensures tie(u[i]) < tie(u[j]) {
      assert u[i].code == Keys(c)[i] && u[j].code == Keys(c)[j];
    }
    InsertionSortStable(u, ByCountDescending, tie);
  }

  /** Each airline bucket counts exactly the flights of that code (so at
      least one) and is named from the carriers dictionary, falling back to
      the code. */
  lemma AirlineOptionsCounts(flights: seq<Flight>, carriers: map<string, string>)
    ensures var o := AirlineBuckets(flights, carriers);
      forall i :: 0 <= i < |o| ==>
        && o[i].count == |Filter(flights, KeyIs(CodeOf, o[i].code))| >= 1
        && o[i].name == NameOr(carriers, o[i].code)
  {
    var c := Tally(flights, CodeOf);
    var u := MapSeq(c, ToAirlineOption(carriers));
    var o := InsertionSort(u, ByCountDescending);
    TallyCounts(flights, CodeOf);
    forall i | 0 <= i < |o|
      ensures o[i].count == |Filter(flights, KeyIs(CodeOf, o[i].code))| >= 1
      ensures o[i].name == NameOr(carriers, o[i].code)
    {
      var k := PermutedElement(u, o, i);
      assert u[k] == ToAirlineOption(carriers)(c[k]);
    }
  }

  /** No two airline buckets share a code. */
  lemma AirlineOptionsDistinct(flights: seq<Flight>, carriers: map<string, string>)
    ensures Distinct(MapSeq(AirlineBuckets(flights, carriers), OptionCode))
  {
    var c := Tally(flights, CodeOf);
    var u := MapSeq(c, ToAirlineOption(carriers));
    TallyKeys(flights, CodeOf);
    assert MapSeq(u, OptionCode) == Keys(c);
    PermutationDistinctBy(u, InsertionSort(u, ByCountDescending), OptionCode);
  }

  /** Every flight's airline code has a bucket. */
  lemma AirlineOptionsCover(flights: seq<Flight>, carriers: map<string, string>)
    ensures var o := AirlineBuckets(flights, carriers);
      forall f :: f in flights ==> exists i :: 0 <= i < |o| && o[i].code == f.airlineCode
  {
    var c := Tally(flights, CodeOf);
    var u := MapSeq(c, ToAirlineOption(carriers));
    var o := AirlineBuckets(flights, carriers);
    assert o == InsertionSort(u, ByCountDescending);
    forall f | f in flights ensures exists i :: 0 <= i < |o| && o[i].code == f.airlineCode {
      var j :| 0 <= j < |flights| && flights[j] == f;
      TallyCovers(flights, CodeOf, j);
      var k :| 0 <= k < |c| && Keys(c)[k] == f.airlineCode;
      var i := PermutedElement(o, u, k);
      assert u[k] == ToAirlineOption(carriers)(c[k]);
      assert o[i].code == f.airlineCode;
    }
  }

  /** The airline buckets together count every flight once. */
  lemma AirlineOptionsTotal(flights: seq<Flight>, carriers: map<string, string>)
    ensures SumBy(AirlineBuckets(flights, carriers), AirlineCount) == |flights|
  {
    var c := Tally(flights, CodeOf);
    var u := MapSeq(c, ToAirlineOption(carriers));
    InsertionSortSum(u, ByCountDescending, AirlineCount);
    SumByMapSeq(c, ToAirlineOption(carriers), AirlineCount, Count);
    TallyTotal(flights, CodeOf);
  }
}
