# Spotter flight search, modelled in Dafny

Spotter is a flight-search web application. A search form sends a
`FlightSearchParams` body to a server endpoint. The endpoint exists twice:
the Vercel function `api/flights.ts` and the Express route in `server.js`.
The endpoint validates the body, obtains an OAuth token from Amadeus (and
caches it), and forwards the search as a query string. The client turns
Amadeus flight offers into `Flight` records, filters them by stops, price
and airline, derives the filter panel's options, summarises the results,
and aggregates them for two charts. It also keeps a short search history.

This project models that logic as pure Dafny functions over immutable data
and proves what the code promises about it. There is one module per source
file:

- `Transform`: offers to flights, and ISO 8601 durations.
- `Filters` and `FilterHook`: `filterFlights`, `deriveFilterOptions` and `useFlightFilters`.
- `FilterToggles`, `PriceSlider` and `FlightSummary`: the filter and summary components.
- `ChartData`: the chart aggregations.
- `Format`: the shared formatting helpers.
- `Airports`, `AirportPicker` and `SearchForm`: the search UI.
- `SearchHistory`: the history hook.
- `FlightApi` and `Server`: the two server endpoints.

Shared pieces live in their own modules:

- `Wrappers`: `Option` and `Result`.
- `Seqs`: filtering, grouping, a stable sort and subsequences.
- `Text`: decimal text, ASCII lower-casing, JavaScript `trim` and string `<`.
- `JsMath`: JavaScript's `%`, `Math.round` and `Math.ceil`.
- `Calendar`: proleptic Gregorian dates.
- `FlightTypes` and `SearchTypes`: the record types.

JavaScript semantics are written out where they matter:

- `%` truncates toward zero (`JsMath.JsRem`).
- `||` and `if (x)` test truthiness (`SearchTypes.TruthyText`, `TruthyNumber`).
- A `Map` iterates in insertion order. It is modelled as a sequence of groups in first-appearance order.
- `Array.prototype.sort` is stable. It is modelled as a stable insertion sort.
- React state updates are functions from the old state to the new one.
- A `useEffect` on `[query]` runs only when the query changed.

Several facts about the code are stated as lemmas:

- Prices on a shared edge between two histogram buckets are counted in both (`ChartData.SharedEdgeCountedTwice`).
- The server's date check accepts shapes such as `2024-02-30` that are not dates (`FlightApi.ShapeOnly`).
- The price slider's reset control and the filter hook disagree about when a price range is "active" (`PriceSlider.FullRangeStillFilters`).
- For a POST request the two endpoints differ only in the wording of the missing-credentials error (`Server.RouteAgrees`, `Server.MissingCredentialsWording`). Only the serverless handler answers OPTIONS and other methods itself (200 and 405).

## Model

| member | source | states |
|---|---|---|
| Transform.FindPTContains | src/features/flights/utils/transform.ts:10-11 | the duration pattern finds a match exactly when the text contains `PT` anywhere |
| Transform.ParseDuration | src/features/flights/utils/transform.ts:8-15 | parsed minutes are never negative, and a text without `PT` parses to 0 |
| Transform.ParseIsoDurationText | src/features/flights/utils/transform.ts:10-14 | `PT<h>H<m>M` parses back to `h*60+m` for all hours and minutes |
| Transform.ParseHoursOnly | src/features/flights/utils/transform.ts:10-14 | `PT<h>H` parses to `h*60`: a missing minutes group counts as 0 |
| Transform.ParseMinutesOnly | src/features/flights/utils/transform.ts:10-14 | `PT<m>M` parses to `m`: a missing hours group counts as 0 |
| Transform.FormatDurationAgrees | src/features/flights/utils/transform.ts:17-24 | the local `formatDuration` of an ISO duration equals the shared `formatDuration` of its parsed minutes |
| Transform.MainCarrier | src/features/flights/utils/transform.ts:80 | the code is the first segment's carrier or the first validating airline, the latter whenever it is non-empty; it is never empty when the segment names a carrier |
| Transform.Cabin | src/features/flights/utils/transform.ts:59 | the cabin class is never empty, and it is the first fare detail's cabin whenever that one is present and non-empty |
| Transform.CabinDefault | src/features/flights/utils/transform.ts:59 | the cabin is `ECONOMY` exactly when the first fare detail is missing or empty, or is itself `ECONOMY` |
| Transform.TransformSegment | src/features/flights/utils/transform.ts:62-78 | a segment keeps its airports, terminals and carrier code; its times are the formatted departure and arrival times; its flight number is the carrier code followed by the number; the airline and aircraft are their dictionary names, falling back to the codes; the duration is the formatted ISO duration |
| Transform.TransformOffer | src/features/flights/utils/transform.ts:44-106 | fails exactly when the first itinerary or its first segment is missing; otherwise the flight is well formed, has one segment per raw segment, lists the intermediate arrival airports as stops, and carries the main carrier with its dictionary name, the cabin, the parsed and formatted duration, the offer id, the parsed grand total, the currency, the bookable seats, and the first segment's departure and the last segment's arrival with their formatted times and dates |
| Transform.FlightDurationText | src/features/flights/utils/transform.ts:98-99 | a transformed flight's duration text is the shared formatter's text for its duration in minutes |
| Transform.MapResults | src/features/flights/utils/transform.ts:112 | mapping succeeds exactly when every element succeeds, keeps order and length, and otherwise reports the first failure |
| Transform.TransformOffers | src/features/flights/utils/transform.ts:108-113 | all offers convert, in order, exactly when each has a first itinerary with a segment; otherwise the error is that of the first offer that does not, every earlier offer converting |
| Transform.TransformedWellFormed | src/features/flights/utils/transform.ts:100-101 | every converted flight has `stops` one less than its segment count and one stop location per stop |
| FlightTypes.NameOr | src/features/flights/utils/transform.ts:73 | the result is the code or the code's dictionary entry, the entry whenever it is non-empty; a non-empty code never yields an empty name |
| FlightTypes.MinPrice | src/features/charts/utils/chartData.ts:57 | `Math.min(...prices)`: a price of the list, and no larger than any |
| FlightTypes.MaxPrice | src/features/charts/utils/chartData.ts:58 | `Math.max(...prices)`: a price of the list, and no smaller than any |
| Filters.FilterFlights | src/features/filters/utils/filterFlights.ts:4-26 | the result is an order-preserving subsequence; a flight is kept if and only if it passes the stops, price and airline tests, and then every copy of it is kept |
| Filters.FilterDefault | src/features/filters/filter.types.ts:13-17 | the default filters (no stops, no range, no airlines) keep every flight in order |
| Filters.FilterFlightsIdempotent | src/features/filters/utils/filterFlights.ts:4-26 | filtering a filtered list again with the same filters changes nothing |
| Filters.PriceBoundsOf | src/features/filters/utils/filterFlights.ts:70-77 | `[0, 1000]` for no flights; otherwise integer bounds enclosing every price, each within 1 of an actual price |
| Filters.DeriveFilterOptionsPass | src/features/filters/utils/filterFlights.ts:38-50 | the single counting loop over the flights computes the same options as the grouped definition |
| Filters.StopOptionsAscending | src/features/filters/utils/filterFlights.ts:53-54 | stop options are in strictly increasing stop count |
| Filters.StopOptionsCounts | src/features/filters/utils/filterFlights.ts:40-41 | each stop option's count is the number of flights with that stop count, at least 1, and its label is `getStopsLabel` of the value |
| Filters.StopOptionsCover | src/features/filters/utils/filterFlights.ts:53-59 | every flight's stop count has an option |
| Filters.StopOptionsTotal | src/features/filters/utils/filterFlights.ts:38-59 | the stop option counts add up to the number of flights |
| Filters.AirlineOptionsOrdered | src/features/filters/utils/filterFlights.ts:62-68 | airline options are by count descending; equal counts keep first-appearance order (stable sort) |
| Filters.AirlineOptionsCounts | src/features/filters/utils/filterFlights.ts:48-49 | each airline option's count is the number of its flights, at least 1, and its name is the carrier name or the code |
| Filters.AirlineOptionsDistinct | src/features/filters/utils/filterFlights.ts:62-67 | no airline code appears twice among the options |
| Filters.AirlineOptionsCover | src/features/filters/utils/filterFlights.ts:62-67 | every flight's airline has an option |
| Filters.AirlineOptionsTotal | src/features/filters/utils/filterFlights.ts:38-68 | the airline option counts add up to the number of flights |
| FilterHook.UpdateFilter | src/features/filters/hooks/useFlightFilters.ts:35-40 | an update replaces exactly its own field and keeps the other two |
| FilterHook.UpdateFilterIdempotent | src/features/filters/hooks/useFlightFilters.ts:35-40 | applying the same update twice is the same as once |
| FilterHook.UpdateFilterOrder | src/features/filters/hooks/useFlightFilters.ts:35-40 | updates to different fields commute; on the same field the later one wins |
| FilterHook.InactiveIsDefault | src/features/filters/hooks/useFlightFilters.ts:48-54 | no filter is active exactly when the state equals `DEFAULT_FILTERS` |
| FilterHook.InitHook | src/features/filters/hooks/useFlightFilters.ts:20 | the hook starts with no active filter |
| FilterHook.ResetFilters | src/features/filters/hooks/useFlightFilters.ts:43-45 | a reset leaves no active filter and keeps the flights and carriers |
| FilterHook.OptionsIgnoreFilters | src/features/filters/hooks/useFlightFilters.ts:23-26 | the derived options depend on the flights and carriers only, never on filter updates or resets |
| FilterHook.InactiveShowsAll | src/features/filters/hooks/useFlightFilters.ts:29-32 | with no active filter the filtered list is the whole list |
| FilterToggles.Toggle | src/features/filters/components/AirlineFilter.tsx:12-18 | the toggled value's membership flips, every other value's membership is unchanged, an absent value is appended, a present one is removed from a shorter subsequence |
| FilterToggles.RemoveKeepsCounts | src/features/filters/components/AirlineFilter.tsx:14 | removing a value keeps every other value's multiplicity |
| FilterToggles.ToggleTwiceAbsent | src/features/filters/components/AirlineFilter.tsx:12-18 | toggling an unselected value twice restores the selection |
| FilterToggles.ToggleTwicePresent | src/features/filters/components/AirlineFilter.tsx:12-18 | toggling a selected value twice moves it to the end |
| FilterToggles.ToggleKeepsDistinct | src/features/filters/components/StopsFilter.tsx:8-14 | a selection without repeats keeps none after a toggle |
| FilterToggles.StopsToggleIsLocal | src/features/filters/components/StopsFilter.tsx:8-14 | toggling one stop count does not change whether flights with other counts pass, while the selection stays non-empty |
| FilterToggles.ClearAll | src/features/filters/components/AirlineFilter.tsx:20-22 | "Clear all" selects nothing |
| FilterToggles.ClearAllAdmitsAll | src/features/filters/components/AirlineFilter.tsx:20-22 | after "Clear all" every airline passes the airline filter |
| FilterToggles.Displayed | src/features/filters/components/AirlineFilter.tsx:26 | collapsed, the first `min(5, n)` options; expanded, all of them; always a prefix |
| FilterToggles.DisplayedAll | src/features/filters/components/AirlineFilter.tsx:26-27 | all options show exactly when expanded or at most five; the expand control exists exactly when collapsing hides some |
| FilterToggles.ExpandText | src/features/filters/components/AirlineFilter.tsx:72 | `Show less` when expanded, `Show all N airlines` with the option count otherwise |
| FilterToggles.ExpandTextReadBack | src/features/filters/components/AirlineFilter.tsx:72 | the expanded and collapsed texts differ, and the collapsed one's digits after `Show all ` read back as the number of airlines |
| FilterToggles.RenderAirlines | src/features/filters/components/AirlineFilter.tsx:24-33 | nothing for no options; otherwise the displayed rows, an expand control exactly when there are more than five, and "Clear all" exactly when something is selected |
| PriceSlider.MinChange | src/features/filters/components/PriceSlider.tsx:14-19 | the lower handle emits `[newMin, currentMax]` exactly when it does not pass the upper bound |
| PriceSlider.MaxChange | src/features/filters/components/PriceSlider.tsx:21-26 | the upper handle emits `[currentMin, newMax]` exactly when it does not pass the lower bound |
| PriceSlider.Reset | src/features/filters/components/PriceSlider.tsx:28-30 | the reset emits `null` |
| PriceSlider.EmittedRangesOrdered | src/features/filters/components/PriceSlider.tsx:14-26 | every emitted range has its lower end at or below its upper end |
| PriceSlider.HandleMovesOneBound | src/features/filters/components/PriceSlider.tsx:11-26 | a handle move sets its own bound and keeps the other; a refused move changes nothing |
| PriceSlider.OrderKept | src/features/filters/components/PriceSlider.tsx:11-26 | an ordered range stays ordered through any handle move |
| PriceSlider.ActiveMeaning | src/features/filters/components/PriceSlider.tsx:32 | the reset control shows exactly when a range is set and is strictly inside `[min, max]` on some side; never after a reset |
| PriceSlider.FullRangeStillFilters | src/features/filters/components/PriceSlider.tsx:32 | dragging back to the full range hides the reset control, yet the hook still reports an active filter |
| FlightSummary.HeaderTail | src/features/flights/components/FlightSummary.tsx:22-24 | the text after the count is ` flights` exactly when the count is the total, and ` of M flights` with the total otherwise |
| FlightSummary.Summarize | src/features/flights/components/FlightSummary.tsx:10-17 | nothing for no flights; otherwise the header for the list's length and the total, the lowest price (a price of the list, no larger than any), the first flight's currency, and the nonstop, one-stop and multi-stop counts |
| FlightSummary.CountersPartition | src/features/flights/components/FlightSummary.tsx:15-17 | with non-negative stop counts the three counters partition the flights |
| FlightSummary.SummaryCountsAll | src/features/flights/components/FlightSummary.tsx:15-17 | the summary's counters add up to the number of flights shown |
| FlightSummary.HeaderReadBack | src/features/flights/components/FlightSummary.tsx:22-24 | the header's leading digits read back as the shown count, and it is the short form exactly when that count is the total |
| ChartData.Shorten | src/features/charts/utils/chartData.ts:31 | names up to 15 characters are kept; longer ones become their first 15 characters and `...` |
| ChartData.SliceFront | src/features/charts/utils/chartData.ts:38 | `slice(0, limit)` with JavaScript's negative-end rule: a prefix of the clamped length |
| ChartData.AggregateByAirline | src/features/charts/utils/chartData.ts:11-41 | points are sorted by minimum price; for a non-negative limit there are exactly as many as the smaller of `limit` and the number of airlines |
| ChartData.PointOfFlight | src/features/charts/utils/chartData.ts:15-37 | every flight's airline has a sorted point whose lowest price is at most the flight's |
| ChartData.CheapestKept | src/features/charts/utils/chartData.ts:37-38 | an airline cut off by the limit has no flight cheaper than any kept point's lowest price |
| ChartData.PointSource | src/features/charts/utils/chartData.ts:15-36 | each point is computed from exactly the flights of its airline, a non-empty group |
| ChartData.AggregateDistinct | src/features/charts/utils/chartData.ts:15-27 | no airline appears twice, and there are at most as many points as airlines |
| ChartData.AggregateCounts | src/features/charts/utils/chartData.ts:35 | each point's count is the number of its airline's flights |
| ChartData.AggregateMinPrice | src/features/charts/utils/chartData.ts:33 | each point's minimum is a price of its airline and no larger than any of them |
| ChartData.AggregateAverageAndName | src/features/charts/utils/chartData.ts:22-34 | each point's average is the rounded mean of its airline's prices, and its name is the shortened name of that airline's first flight |
| ChartData.AggregateTotal | src/features/charts/utils/chartData.ts:15-38 | when the limit keeps every airline the counts add up to the number of flights |
| ChartData.BucketSize | src/features/charts/utils/chartData.ts:59 | the bucket width is `ceil(range / buckets)`, or 1 when that is 0: the buckets together span the price range, one less would not, and the width is 1 exactly when the range is at most the bucket count |
| ChartData.FirstBucketHoldsMin | src/features/charts/utils/chartData.ts:63-68 | the first bucket always counts the cheapest flight, so leading empty buckets are never dropped |
| ChartData.GetPriceDistribution | src/features/charts/utils/chartData.ts:50-79 | empty for no flights or no buckets; otherwise exactly `buckets` entries in order, the first starting at the lowest price, the last ending at the highest, each with its bounds, range text and inclusive count |
| ChartData.EveryFlightCounted | src/features/charts/utils/chartData.ts:63-67 | every flight is counted by some bucket |
| ChartData.SharedEdgeCountedTwice | src/features/charts/utils/chartData.ts:64-66 | a price on the edge between two buckets is counted by both |
| Format.FormatDuration | src/shared/utils/format.ts:28-34 | `Mm` below an hour, `Hh` on whole hours, `Hh Mm` otherwise, minutes between 1 and 59 |
| Format.ReadFormatDuration | src/shared/utils/format.ts:28-34 | every non-negative duration reads back from its text |
| Format.StopsLabelInjective | src/shared/utils/format.ts:36-40 | different stop counts get different labels |
| Format.AddDays | src/shared/utils/format.ts:50-54 | for a real `YYYY-MM-DD` date the result is a real date whose day number is `days` more |
| Format.AddDaysZero | src/shared/utils/format.ts:50-54 | adding no days returns the same text |
| Format.AddDaysAdditive | src/shared/utils/format.ts:50-54 | adding `a` then `b` days equals adding `a+b` |
| Format.AddDaysSameMonth | src/shared/utils/format.ts:50-54 | within a month only the day changes |
| Format.AddDaysNextMonth | src/shared/utils/format.ts:50-54 | passing a month's end rolls into the next month |
| Format.AddDaysNextYear | src/shared/utils/format.ts:50-54 | passing December 31 rolls into January of the next year |
| Airports.SearchAirports | src/data/airports.ts:113-123 | nothing for a blank query; otherwise a prefix of the matching airports (code, city or name containing the lower-cased trimmed query) in table order, of length the smaller of ten and their number |
| Airports.SearchComplete | src/data/airports.ts:117-122 | with fewer than ten suggestions every match is shown; a match left out has at least ten matches before it in the table, and there are then exactly ten suggestions |
| Airports.SearchIgnoresCase | src/data/airports.ts:114 | a query and its lower-case form give the same suggestions |
| Airports.AirportByCode | src/data/airports.ts:125-127 | no airport exactly when no entry has the code; otherwise an entry with that code |
| Airports.AirportByCodeFirst | src/data/airports.ts:125-127 | the airport found is the first entry with the code |
| Airports.AirportByCodeOfMember | src/data/airports.ts:125-127 | with unique codes, looking up an entry's code finds that entry |
| AirportPicker.SetQuery | src/features/search/components/AirportPicker.tsx:27-35 | a changed non-empty query fetches its suggestions and highlights the top row; a changed empty one drops them; an unchanged one changes nothing |
| AirportPicker.Down | src/features/search/components/AirportPicker.tsx:66 | ArrowDown moves one row down and wraps from the last row to the first |
| AirportPicker.Up | src/features/search/components/AirportPicker.tsx:70 | ArrowUp moves one row up and wraps from the first row to the last |
| AirportPicker.DownUpInverse | src/features/search/components/AirportPicker.tsx:64-71 | ArrowDown and ArrowUp undo each other |
| AirportPicker.DownsMove | src/features/search/components/AirportPicker.tsx:66 | `k` ArrowDowns within one round move `k` rows, wrapping once |
| AirportPicker.FullCycle | src/features/search/components/AirportPicker.tsx:66 | as many ArrowDowns as rows return to the starting row |
| AirportPicker.Select | src/features/search/components/AirportPicker.tsx:53-58 | choosing an airport selects it, reports its code, empties the query and closes the dropdown |
| AirportPicker.ClearPicker | src/features/search/components/AirportPicker.tsx:82-87 | a clear drops the selection, reports the empty code and empties the query |
| AirportPicker.KeyDown | src/features/search/components/AirportPicker.tsx:60-80 | keys do nothing while closed or without rows; Enter selects the highlighted row; the arrows move the highlight; Escape closes the dropdown; other keys do nothing |
| AirportPicker.KeyKeepsInv | src/features/search/components/AirportPicker.tsx:60-80 | key presses keep the suggestions belonging to the query and the highlight on a row |
| AirportPicker.StepKeepsInv | src/features/search/components/AirportPicker.tsx:27-136 | every event keeps that invariant |
| AirportPicker.Run | src/features/search/components/AirportPicker.tsx:19-35 | every state reachable from the first render satisfies the invariant |
| AirportPicker.ReportedCodes | src/features/search/components/AirportPicker.tsx:72-75 | Enter reports only codes of airports in the table |
| AirportPicker.TypeShowsSuggestions | src/features/search/components/AirportPicker.tsx:132-136 | typing non-empty text opens the dropdown on that text's suggestions, with the top row highlighted when the text changed |
| AirportPicker.DisplayValue | src/features/search/components/AirportPicker.tsx:89-93 | `CODE - City` for a selection, else the parent's value; empty exactly when both are missing |
| AirportPicker.ClearShowsNothing | src/features/search/components/AirportPicker.tsx:82-93 | after a clear the parent holds the empty code and the picker shows nothing |
| AirportPicker.ChooseShowsAirport | src/features/search/components/AirportPicker.tsx:53-58 | after a choice the parent holds the airport's code and the picker shows it |
| SearchForm.Validate | src/features/search/components/SearchForm.tsx:29-54 | each field's message appears exactly under its condition; same airports replace the destination message; a return date earlier in string order gets the return message |
| SearchForm.ValidIff | src/features/search/components/SearchForm.tsx:29-54 | the form is valid exactly when both airports are set and differ, a departure date is set, and a return date, if any, is not before it |
| SearchForm.ReturnErrorIsDateOrder | src/features/search/components/SearchForm.tsx:48 | on real dates the string comparison is the calendar comparison, so a same-day return is accepted |
| SearchForm.Params | src/features/search/components/SearchForm.tsx:61-67 | the search carries the form's fields, no return date when it is empty, and the passenger count as adults |
| SearchForm.Submit | src/features/search/components/SearchForm.tsx:56-68 | submitting stores the new errors and starts a search exactly when the form is valid |
| SearchForm.SubmittedSearchIsOrdered | src/features/search/components/SearchForm.tsx:56-68 | a submitted search has different airports and a non-empty return date not before the departure |
| SearchForm.SubmittedSearchOnServer | src/features/search/components/SearchForm.tsx:56-68 | a submitted search passes the server's checks exactly when its airports are IATA-shaped and its date has the `YYYY-MM-DD` shape |
| SearchForm.Swap | src/features/search/components/SearchForm.tsx:70-75 | origin and destination are exchanged, the dates and passengers kept, and every error cleared |
| SearchForm.SwapTwice | src/features/search/components/SearchForm.tsx:70-75 | swapping twice restores both airports |
| SearchForm.SwapKeepsAirportChecks | src/features/search/components/SearchForm.tsx:32-42 | the airport checks accept a swapped pair exactly when they accept the original |
| SearchForm.EditField | src/features/search/components/SearchForm.tsx:85-155 | each input sets its own field, leaves the other four unchanged and clears only its own error; the passenger select clears none |
| SearchForm.EditOnlyRemoves | src/features/search/components/SearchForm.tsx:85-155 | an edit never adds or changes a message and removes at most one |
| SearchForm.InitForm | src/features/search/components/SearchForm.tsx:22-27 | the first render has no airports, no return date, one passenger, no errors, and a departure date a week after today |
| SearchForm.InitThenPick | src/features/search/components/SearchForm.tsx:22-88 | the first render cannot be submitted; picking two different airports makes it valid |
| SearchHistory.FindSearch | src/features/search/hooks/useSearchHistory.ts:41-46 | the first entry with the same origin, destination and departure date, or the length when there is none |
| SearchHistory.Without | src/features/search/hooks/useSearchHistory.ts:55-56 | the history without one entry, the others in order |
| SearchHistory.AddSearch | src/features/search/hooks/useSearchHistory.ts:38-71 | the search goes to the front with the new timestamp; a repeated search keeps its id and the others, and a new one gets the new id and drops the oldest beyond five |
| SearchHistory.AddExistingKeepsOrder | src/features/search/hooks/useSearchHistory.ts:53-57 | moving a repeated search to the front keeps the rest in their order |
| SearchHistory.AddSearchBounded | src/features/search/hooks/useSearchHistory.ts:65 | a history of at most five entries stays at most five |
| SearchHistory.AddSearchKeepsDistinct | src/features/search/hooks/useSearchHistory.ts:41-65 | no two entries are the same search, before and after an add |
| SearchHistory.RemoveItem | src/features/search/hooks/useSearchHistory.ts:73-78 | removing an id keeps exactly the other entries, in order, each as many times as before, and none with that id |
| SearchHistory.RemoveAbsent | src/features/search/hooks/useSearchHistory.ts:75 | removing an unknown id changes nothing |
| SearchHistory.RemoveKeepsDistinct | src/features/search/hooks/useSearchHistory.ts:73-78 | removal keeps searches distinct |
| SearchHistory.ClearThenAdd | src/features/search/hooks/useSearchHistory.ts:81-84 | after clearing, an add leaves exactly the new search |
| FlightApi.IataPatternMeaning | api/flights.ts:129-130 | `/^[A-Z]{3}$/` matches exactly three upper-case ASCII letters |
| FlightApi.DatePatternMeaning | api/flights.ts:138-139 | `/^\d{4}-\d{2}-\d{2}$/` matches exactly four digits, a dash, two digits, a dash, two digits |
| FlightApi.CalendarDatesPass | api/flights.ts:138-139 | every real `YYYY-MM-DD` date passes the date check |
| FlightApi.ShapeOnly | api/flights.ts:138-139 | the check tests the shape only: `2024-02-30` passes and is no date |
| FlightApi.ValidationError | api/flights.ts:121-144 | the missing-field, IATA and date messages each appear exactly when that check is the first to fail; none exactly when all pass |
| FlightApi.AccessToken | api/flights.ts:23-58 | a reusable token is returned with the cache unchanged; missing credentials fail without touching the cache; with credentials and no reusable token, a successful exchange returns the new token and caches it with its expiry, and a failed one fails with `Failed to get access token: ` and the response text, cache unchanged |
| FlightApi.RefreshedReuse | api/flights.ts:25-27 | a freshly fetched token is reused exactly while it is non-empty and more than 60 s from expiry |
| FlightApi.StaleStaysStale | api/flights.ts:25 | once the cached token is not reusable it stays so |
| FlightApi.ShortGrantNeverReused | api/flights.ts:25-55 | a token valid for 60 s or less is never reused |
| FlightApi.SearchQuery | api/flights.ts:60-84 | the query starts with the six fixed parameters and has at most four more |
| FlightApi.Lookup | api/flights.ts:60-84 | a key is missing exactly when no entry has it |
| FlightApi.LookupAppend | api/flights.ts:70-84 | appended parameters are looked up after the existing ones |
| FlightApi.QueryRequiredFields | api/flights.ts:61-68 | the query carries origin, destination, date, adults as decimal text, `USD` and `50` |
| FlightApi.QueryOptionalFields | api/flights.ts:70-84 | the return date, class, `nonStop=true` and maximum price appear exactly when the field is truthy |
| FlightApi.QueryKeysDistinct | api/flights.ts:60-84 | no query parameter appears twice |
| FlightApi.Handle | api/flights.ts:103-161 | OPTIONS gives 200 with no body; other non-POST methods 405; 400 exactly when validation fails, with its message; a valid POST leaves the cache the token step leaves, and answers 500 with the token error, 500 with `Flight search failed: ` and the upstream text, or 200 with the offers and dictionaries the upstream search returned for the request's query |
| FlightApi.CachedTokenSearch | api/flights.ts:146-153 | a valid search with a reusable cached token keeps the cache and returns what the upstream search gives for the request's query and that token |
| FlightApi.RejectedBeforeNetwork | api/flights.ts:109-144 | a rejected request's reply and cache do not depend on the clock, credentials, token exchange or upstream |
| Server.FirstFailure | server.js:103-126 | the message of the first failing check, and none exactly when no check fails |
| Server.ValidationAgrees | server.js:103-126 | the Express route validates exactly like the serverless handler |
| Server.ErrorText | server.js:144 | an error reply is never empty and keeps a non-empty message |
| Server.Route | server.js:98-147 | every reply is 200, 400 or 500; 400 exactly when validation fails; 500 carries a non-empty error; 200 exactly when data is sent; a valid request leaves the cache the token step leaves and answers with the token error, the search failure, or the offers and dictionaries found for the request's query |
| Server.RouteAgrees | server.js:17-147 | with a reusable token or configured credentials the route and the serverless handler give the same reply and cache |
| Server.MissingCredentialsWording | server.js:26-28 | without credentials the two differ only in the wording of the 500 error |
| JsMath.JsRem | src/features/search/components/AirportPicker.tsx:66-70 | JavaScript `%` for a positive divisor: the remainder takes the sign of the dividend |
| JsMath.Ceil | src/features/charts/utils/chartData.ts:59 | `Math.ceil`: the least integer not below `x` |
| JsMath.Round | src/features/charts/utils/chartData.ts:34 | `Math.round`: the integer within half of `x`, halves rounding up |

## Left out

- Sorting, quick-filter tabs and other list presentation: `filterFlights` only filters, and sorting lives in components outside this core.
- Network and I/O are left out: `fetch`, the OAuth and flight-offer requests, `response.json()` and its parse failures, `localStorage`, `console` and `crypto.randomUUID`. The token exchange and the upstream search are parameters (`Result` values), and so are the clock (`now`, `later`) and the new history id.
- `formatPrice`, `formatDate` and `formatTime` use `Intl`/`Date` locale formatting. They are parameters (`Transform.Locale`). `parseFloat` of the grand total is one of them.
- Floating point: prices are exact reals and durations exact integers. Rounding error, `NaN` and `Infinity` are not modelled, and nor are non-integer or `NaN` adult counts.
- Format.AddDays: covers real `YYYY-MM-DD` dates with results in years 0000 to 9999, in UTC. Time zones, `Invalid Date`, and the `Date` parser's other accepted forms are left out, and the result is `None` there. `getTodayDate` is a parameter.
- SearchForm.InitForm: returns `None` where the JavaScript date code would throw or produce an out-of-range date.
- Text: lower-casing is ASCII-only, and `trim` knows only the common JavaScript whitespace characters.
- SearchHistory.AddSearch: `{ ...existing, ...params }` is modelled as the new parameters replacing the stored ones while the id is kept. Stored fields that the new parameters leave `undefined` are not kept.
- FlightApi.SearchQuery: `maxPrice` is a whole number here. A fractional JSON number such as 499.5, which the code sends as `499.5`, cannot be represented, and nor can `NaN`.
- AirportPicker.KeyDown: requires the invariant `Inv` (suggestions belong to the query, and the highlight names a row when there are rows). `AirportPicker.Run` proves every reachable state keeps it. The code would index past the results if it failed.
- AirportPicker.Step: requires the same invariant, for the same reason.
- AirportPicker: focus management, mouse hovering and the DOM containment test of the click-outside listener are left out. A click outside is one event. The input is assumed visible whenever text is typed.
- Server.Route: only `POST /api/flights` is modelled. Express's replies for other paths and methods, CORS preflight and `app.listen` are left out.
- Server.ErrorText: its fallback text is only reached for an empty error message, which the modelled errors never produce.
- ChartData.Shorten: JavaScript's `length` and `slice` count UTF-16 code units, while the model counts characters. Names with characters outside the Basic Multilingual Plane can be cut at a different place. The same holds for `Text` lengths.
- FlightApi: requests that run at the same time can interleave at each `await`, and each can refresh the module-level token cache. The model handles one request at a time.
- The React rendering itself (markup, class names, icons, the chart components) is left out, as is the `memo` caching in `useFlightFilters`, which does not change results.
