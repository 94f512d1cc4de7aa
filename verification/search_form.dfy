/** The search form of `src/features/search/components/SearchForm.tsx`: its
  field state, `validate`, the parameters `handleSubmit` hands to
  `onSearch`, `handleSwapLocations`, and the field edits that clear their
  own error. `getTodayDate()` is a parameter of the first render.
*/
module SearchForm {
  import opened Wrappers
  import opened Text
  import opened SearchTypes
  import Calendar
  import Format
  import FlightApi

  /** `FormErrors`: one optional message per field. */
  datatype FormErrors = FormErrors(
    origin: Option<string>,
    destination: Option<string>,
    departureDate: Option<string>,
    returnDate: Option<string>)

  /** `{}`. */
  const NoErrors: FormErrors := FormErrors(None, None, None, None)

  datatype FormState = FormState(
    origin: string,
    destination: string,
    departureDate: string,
    returnDate: string,
    passengers: int,
    errors: FormErrors)

  const OriginMessage: string := "Please select an origin"
  const DestinationMessage: string := "Please select a destination"
  const SameAirportMessage: string := "Destination must be different from origin"
  const DepartureMessage: string := "Please select a departure date"
  const ReturnMessage: string := "Return date must be after departure date"

  /** `validate()`'s `newErrors`, built by its five `if`s in order; the
      same-airport check overwrites the destination message. */
  function Validate(f: FormState): (e: FormErrors)
    ensures e.origin == (if f.origin == "" then Some(OriginMessage) else None)
    ensures e.destination == Some(DestinationMessage) <==> f.destination == ""
    ensures e.destination == Some(SameAirportMessage) <==> f.origin != "" && f.origin == f.destination
    ensures e.destination.None? <==> f.destination != "" && f.origin != f.destination
    ensures e.departureDate == (if f.departureDate == "" then Some(DepartureMessage) else None)
    ensures e.returnDate.Some? <==> f.returnDate != "" && LexLess(f.returnDate, f.departureDate)
    ensures e.returnDate.Some? ==> e.returnDate.value == ReturnMessage
  {
    var e0 := NoErrors;
    var e1 := if f.origin == "" then e0.(origin := Some(OriginMessage)) else e0;
    var e2 := if f.destination == "" then e1.(destination := Some(DestinationMessage)) else e1;
    var e3 := if f.origin != "" && f.destination != "" && f.origin == f.destination
              then e2.(destination := Some(SameAirportMessage)) else e2;
    var e4 := if f.departureDate == "" then e3.(departureDate := Some(DepartureMessage)) else e3;
    if f.returnDate != "" && LexLess(f.returnDate, f.departureDate) then e4.(returnDate := Some(ReturnMessage)) else e4
  }

  /** `Object.keys(newErrors).length === 0`. */
  predicate IsValid(f: FormState)
  {
    Validate(f) == NoErrors
  }

  /** The form is valid exactly when both airports are chosen and differ, a
      departure date is set, and a return date, if any, is not before it. */
  lemma ValidIff(f: FormState)
    ensures IsValid(f) <==>
      && f.origin != "" && f.destination != "" && f.origin != f.destination
      && f.departureDate != ""
      && (f.returnDate == "" || !LexLess(f.returnDate, f.departureDate))
  {
  }

  /** On two real `YYYY-MM-DD` dates the string comparison is the calendar
      comparison: the return-date error appears exactly when the return day
      comes strictly before the departure day, so a same-day return passes. */
  lemma ReturnErrorIsDateOrder(f: FormState)
    requires Calendar.ParseIsoDate(f.returnDate).Some? && Calendar.ParseIsoDate(f.departureDate).Some?
    ensures Validate(f).returnDate.Some? <==>
      Calendar.DayNumber(Calendar.ParseIsoDate(f.returnDate).value)
        < Calendar.DayNumber(Calendar.ParseIsoDate(f.departureDate).value)
  {
    var r := Calendar.ParseIsoDate(f.returnDate).value;
    var d := Calendar.ParseIsoDate(f.departureDate).value;
    Calendar.IsoTextOfParse(f.returnDate);
    Calendar.IsoTextOfParse(f.departureDate);
    Calendar.IsoTextOrder(r, d);
  }

  /** The parameters `onSearch` receives: an empty return date is left out
      and the passenger count is the adult count. */
  function Params(f: FormState): (p: SearchParams)
    ensures p.origin == f.origin && p.destination == f.destination && p.departureDate == f.departureDate
    ensures p.returnDate.None? <==> f.returnDate == ""
    ensures p.returnDate.Some? ==> p.returnDate.value == f.returnDate
    ensures p.adults == f.passengers
    ensures p.travelClass.None? && p.nonStop.None? && p.maxPrice.None?
  {
    SearchParams(f.origin, f.destination, f.departureDate,
                 if f.returnDate == "" then None else Some(f.returnDate),
                 f.passengers, None, None, None)
  }

  /** `handleSubmit`: the form with its new errors, and the search it starts,
      if any. */
  function Submit(f: FormState): (r: (FormState, Option<SearchParams>))
    ensures r.0 == f.(errors := Validate(f))
    ensures r.1.Some? <==> IsValid(f)
    ensures r.1.Some? ==> r.1.value == Params(f)
  {
    var errors := Validate(f);
    (f.(errors := errors), if errors == NoErrors then Some(Params(f)) else None)
  }

  /** A submitted search is one the form accepted: its date order is right
      and its return date, when present, is non-empty. */
  lemma SubmittedSearchIsOrdered(f: FormState)
    requires Submit(f).1.Some?
    ensures var p := Submit(f).1.value;
      && p.origin != p.destination
      && (p.returnDate.Some? ==> p.returnDate.value != "" && !LexLess(p.returnDate.value, p.departureDate))
  {
    ValidIff(f);
  }

  /** A search the form submits passes the server's checks exactly when its
      airports are IATA codes and its date has the `YYYY-MM-DD` shape: the
      form guarantees the fields are present, not their format. */
  lemma SubmittedSearchOnServer(f: FormState)
    requires Submit(f).1.Some? && f.passengers != 0
    ensures var p := Submit(f).1.value;
      FlightApi.ValidationError(p).None? <==>
        FlightApi.IsIataCode(f.origin) && FlightApi.IsIataCode(f.destination)
        && FlightApi.IsDateShaped(f.departureDate)
  {
    ValidIff(f);
  }

  /** `handleSwapLocations`. */
  function Swap(f: FormState): (r: FormState)
    ensures r.origin == f.destination && r.destination == f.origin
    ensures r.origin == f.origin && r.destination == f.destination ==> f.origin == f.destination
    ensures r.departureDate == f.departureDate && r.returnDate == f.returnDate && r.passengers == f.passengers
    ensures r.errors == NoErrors
  {
    f.(origin := f.destination, destination := f.origin, errors := NoErrors)
  }

  /** Swapping twice restores the pair and leaves the errors cleared. */
  lemma SwapTwice(f: FormState)
    ensures Swap(Swap(f)) == f.(errors := NoErrors)
  {
  }

  /** Swapping keeps a form's validity when its return date is not the
      issue: the airport checks are symmetric. */
  lemma SwapKeepsAirportChecks(f: FormState)
    ensures (Validate(Swap(f)).origin == None && Validate(Swap(f)).destination == None)
        <==> (Validate(f).origin == None && Validate(f).destination == None)
  {
  }

  /** A change in one input. The passenger select clears no error. */
  datatype Edit =
    | PickOrigin(code: string)
    | PickDestination(code: string)
    | SetDeparture(date: string)
    | SetReturn(date: string)
    | SetPassengers(count: int)

  /** The input handlers: the field takes the value and its own error is
      dropped (`{ ...prev, field: undefined }`). */
  function EditField(f: FormState, edit: Edit): (r: FormState)
    ensures edit.PickOrigin? ==>
      && r.origin == edit.code && r.errors == f.errors.(origin := None)
      && r.destination == f.destination && r.departureDate == f.departureDate
      && r.returnDate == f.returnDate && r.passengers == f.passengers
    ensures edit.PickDestination? ==>
      && r.destination == edit.code && r.errors == f.errors.(destination := None)
      && r.origin == f.origin && r.departureDate == f.departureDate
      && r.returnDate == f.returnDate && r.passengers == f.passengers
    ensures edit.SetDeparture? ==>
      && r.departureDate == edit.date && r.errors == f.errors.(departureDate := None)
      && r.origin == f.origin && r.destination == f.destination
      && r.returnDate == f.returnDate && r.passengers == f.passengers
    ensures edit.SetReturn? ==>
      && r.returnDate == edit.date && r.errors == f.errors.(returnDate := None)
      && r.origin == f.origin && r.destination == f.destination
      && r.departureDate == f.departureDate && r.passengers == f.passengers
    ensures edit.SetPassengers? ==>
      && r.passengers == edit.count && r.errors == f.errors
      && r.origin == f.origin && r.destination == f.destination
      && r.departureDate == f.departureDate && r.returnDate == f.returnDate
  {
    match edit
    case PickOrigin(code) => f.(origin := code, errors := f.errors.(origin := None))
    case PickDestination(code) => f.(destination := code, errors := f.errors.(destination := None))
    case SetDeparture(date) => f.(departureDate := date, errors := f.errors.(departureDate := None))
    case SetReturn(date) => f.(returnDate := date, errors := f.errors.(returnDate := None))
    case SetPassengers(count) => f.(passengers := count)
  }

  /** The number of messages shown. */
  function ErrorCount(e: FormErrors): nat
  {
    (if e.origin.Some? then 1 else 0) + (if e.destination.Some? then 1 else 0)
    + (if e.departureDate.Some? then 1 else 0) + (if e.returnDate.Some? then 1 else 0)
  }

  /** An edit never adds or changes a message; it removes at most one. */
  lemma EditOnlyRemoves(f: FormState, edit: Edit)
    ensures var e := EditField(f, edit).errors;
      && (e.origin.Some? ==> e.origin == f.errors.origin)
      && (e.destination.Some? ==> e.destination == f.errors.destination)
      && (e.departureDate.Some? ==> e.departureDate == f.errors.departureDate)
      && (e.returnDate.Some? ==> e.returnDate == f.errors.returnDate)
      && ErrorCount(f.errors) - 1 <= ErrorCount(e) <= ErrorCount(f.errors)
  {
  }

  /** The first render: no airports, departure a week after `today`, no
      return date, one passenger, no errors. `None` where the date code
      would throw: `today` is not a real date of years 0000 to 9999, or a
      week later leaves that range. */
  function InitForm(today: string): (r: Option<FormState>)
    ensures r.Some? <==> Format.AddDays(today, 7).Some?
    ensures r.Some? ==>
      && r.value.origin == "" && r.value.destination == "" && r.value.returnDate == ""
      && r.value.passengers == 1 && r.value.errors == NoErrors
      && Calendar.ParseIsoDate(r.value.departureDate).Some?
      && Calendar.DayNumber(Calendar.ParseIsoDate(r.value.departureDate).value)
         == Calendar.DayNumber(Calendar.ParseIsoDate(today).value) + 7
  {
    match Format.AddDays(today, 7)
    case None => None
    case Some(week) => Some(FormState("", "", week, "", 1, NoErrors))
  }

  /** The first render cannot be submitted; picking two different airports
      is all it takes. */
  lemma InitThenPick(today: string, a: string, b: string)
    requires InitForm(today).Some?
    ensures !IsValid(InitForm(today).value)
    ensures a != "" && b != "" && a != b ==>
      IsValid(EditField(EditField(InitForm(today).value, PickOrigin(a)), PickDestination(b)))
  {
    var f := InitForm(today).value;
    assert Validate(f).origin.Some?;
    if a != "" && b != "" && a != b {
      var g := EditField(EditField(f, PickOrigin(a)), PickDestination(b));
      assert g.departureDate != "" by {
        assert Calendar.ParseIsoDate(g.departureDate).Some?;
      }
      ValidIff(g);
    }
  }
}
