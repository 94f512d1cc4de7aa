/** The records of `src/shared/types/api.types.ts` that the modelled code
  reads or builds: the raw flight offer of the Amadeus search response and
  the flattened `Flight` the user interface works with.

  Only the fields the code touches are kept. Prices are exact reals.
*/
module FlightTypes {
  import opened Wrappers

  // ---------------------------------------------------------------------
  // Raw offers

  datatype RawEndpoint = RawEndpoint(iataCode: string, terminal: Option<string>, at: string)

  datatype RawSegment = RawSegment(
    departure: RawEndpoint,
    arrival: RawEndpoint,
    carrierCode: string,
    number: string,
    aircraftCode: string,
    duration: string)

  datatype Itinerary = Itinerary(duration: string, segments: seq<RawSegment>)

  datatype FareDetail = FareDetail(cabin: string)

  datatype TravelerPricing = TravelerPricing(fareDetailsBySegment: seq<FareDetail>)

  datatype RawPrice = RawPrice(currency: string, grandTotal: string)

  datatype Offer = Offer(
    id: string,
    numberOfBookableSeats: int,
    itineraries: seq<Itinerary>,
    price: RawPrice,
    validatingAirlineCodes: seq<string>,
    travelerPricings: seq<TravelerPricing>)

  /** The `aircraft` and `carriers` dictionaries of the response: code to name. */
  datatype Dictionaries = Dictionaries(aircraft: map<string, string>, carriers: map<string, string>)

  /** `dict[code] || code`: the name, or the code itself when the name is
      missing or empty. */
  function NameOr(dict: map<string, string>, code: string): (name: string)
    ensures name == code || (code in dict && name == dict[code])
    ensures code != "" ==> name != ""
    ensures code in dict && dict[code] != "" ==> name == dict[code]
    ensures !(code in dict && dict[code] != "") ==> name == code
  {
    if code in dict && dict[code] != "" then dict[code] else code
  }

  // ---------------------------------------------------------------------
  // Flattened flights

  datatype Place = Place(airport: string, time: string, date: string)

  datatype SegmentEnd = SegmentEnd(airport: string, time: string, terminal: Option<string>)

  datatype FlightSegment = FlightSegment(
    departure: SegmentEnd,
    arrival: SegmentEnd,
    airline: string,
    airlineCode: string,
    flightNumber: string,
    duration: string,
    aircraft: string)

  datatype Flight = Flight(
    id: string,
    price: real,
    currency: string,
    airline: string,
    airlineCode: string,
    departure: Place,
    arrival: Place,
    duration: string,
    durationMinutes: int,
    stops: int,
    stopLocations: seq<string>,
    segments: seq<FlightSegment>,
    cabin: string,
    seatsAvailable: int)

  /** The consistency every transformed flight has: one stop between each
      pair of consecutive segments, listed at the arrival airport of the
      earlier segment. */
  predicate WellFormedFlight(f: Flight)
  {
    && |f.segments| >= 1
    && f.stops == |f.segments| - 1
    && |f.stopLocations| == f.stops
    && (forall i :: 0 <= i < f.stops ==> f.stopLocations[i] == f.segments[i].arrival.airport)
    && f.departure.airport == f.segments[0].departure.airport
    && f.arrival.airport == f.segments[|f.segments| - 1].arrival.airport
  }

  function StopsOf(f: Flight): int
  {
    f.stops
  }

  function CodeOf(f: Flight): string
  {
    f.airlineCode
  }

  function Prices(flights: seq<Flight>): (r: seq<real>)
    ensures |r| == |flights|
    ensures forall i :: 0 <= i < |flights| ==> r[i] == flights[i].price
  {
    seq(|flights|, i requires 0 <= i < |flights| => flights[i].price)
  }

  /** The lowest price: `Math.min` over the prices, and the running
      minimum of a left-to-right loop. */
  function MinPrice(flights: seq<Flight>): (m: real)
    requires |flights| > 0
    ensures forall i :: 0 <= i < |flights| ==> m <= flights[i].price
    ensures exists i :: 0 <= i < |flights| && m == flights[i].price
  {
    if |flights| == 1 then flights[0].price
    else
      var rest := MinPrice(flights[..|flights| - 1]);
      var p := flights[|flights| - 1].price;
      assert forall i :: 0 <= i < |flights| - 1 ==> flights[..|flights| - 1][i] == flights[i];
      if p < rest then p else rest
  }

  /** The highest price, likewise. */
  function MaxPrice(flights: seq<Flight>): (m: real)
    requires |flights| > 0
    ensures forall i :: 0 <= i < |flights| ==> flights[i].price <= m
    ensures exists i :: 0 <= i < |flights| && m == flights[i].price
  {
    if |flights| == 1 then flights[0].price
    else
      var rest := MaxPrice(flights[..|flights| - 1]);
      var p := flights[|flights| - 1].price;
      assert forall i :: 0 <= i < |flights| - 1 ==> flights[..|flights| - 1][i] == flights[i];
      if p > rest then p else rest
  }
}
