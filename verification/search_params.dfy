/** `FlightSearchParams`, the request body shared by the search form, the
  search history and both server handlers (`src/shared/types/api.types.ts`
  and its copy in `api/flights.ts`).

  An optional field is `None` when the key is missing or `undefined`.
*/
module SearchTypes {
  import opened Wrappers

  datatype SearchParams = SearchParams(
    origin: string,
    destination: string,
    departureDate: string,
    returnDate: Option<string>,
    adults: int,
    travelClass: Option<string>,
    nonStop: Option<bool>,
    maxPrice: Option<int>)

  /** JavaScript truthiness of an optional string: present and not empty. */
  predicate TruthyText(s: Option<string>)
  {
    s.Some? && s.value != ""
  }

  /** JavaScript truthiness of an optional number: present and not zero. */
  predicate TruthyNumber(n: Option<int>)
  {
    n.Some? && n.value != 0
  }
}
