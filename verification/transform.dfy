/** Offer normalisation of `src/features/flights/utils/transform.ts`: the
  hour/minute durations of ISO 8601:2004 section 4.4.3.2 (only the `H` and
  `M` parts after a literal `PT`), their "Hh Mm" rendering, and the
  flattening of a raw offer into a `Flight`.

  Locale-dependent rendering (`toLocaleTimeString`, `toLocaleDateString`)
  and `parseFloat` are parameters: a `Locale` supplies them.
*/
module Transform {
  import opened Wrappers
  import opened Text
  import opened FlightTypes
  import Format

  // ---------------------------------------------------------------------
  // parseDuration: the first match of /PT(?:(\d+)H)?(?:(\d+)M)?/

  /** `PT` occurs at offset `j`. */
  predicate PTAt(s: string, j: int)
  {
    0 <= j && j + 1 < |s| && s[j] == 'P' && s[j + 1] == 'T'
  }

  /** The offset of the leftmost `PT`, where the unanchored match starts:
      both groups are optional, so the match succeeds at the first `PT`. */
  function FindPT(s: string): (r: Option<nat>)
    ensures r.Some? ==> PTAt(s, r.value)
    ensures forall j :: 0 <= j < (if r.Some? then r.value else |s|) ==> !PTAt(s, j)
  {
    if |s| < 2 then None
    else if s[0] == 'P' && s[1] == 'T' then Some(0)
    else
      match FindPT(s[1..])
      case None =>
        assert forall j :: 1 <= j < |s| ==> (PTAt(s, j) <==> PTAt(s[1..], j - 1));
        None
      case Some(k) =>
        assert forall j :: 1 <= j < |s| ==> (PTAt(s, j) <==> PTAt(s[1..], j - 1));
        Some(k + 1)
  }

  /** There is a match exactly when the text contains `PT`. */
  lemma FindPTContains(s: string)
    ensures FindPT(s).Some? <==> Contains(s, "PT")
  {
    match FindPT(s)
    case Some(k) =>
      assert s[k..k + 2] == "PT";
      ContainsAt(s, "PT", k);
    case None =>
      if Contains(s, "PT") {
        var k := ContainsWitness(s, "PT");
        assert s[k] == "PT"[0] && s[k + 1] == "PT"[1];
        assert PTAt(s, k);
      }
  }

  /** The optional group `(?:(\d+)X)?` at the start of `s`: greedy digits
      followed by the designator `X`, or nothing. Returns the group's value
      (0 when absent, as `parseInt('0')`) and the text after it. */
  function Group(s: string, designator: char): (r: (nat, string))
    ensures |r.1| <= |s|
  {
    var d := DigitRun(s);
    if 0 < d < |s| && s[d] == designator then (DigitsValue(s[..d]), s[d + 1..])
    else (0, s)
  }

  /** Hours and minutes read right after the `PT`. */
  function MinutesAfterPT(rest: string): nat
  {
    var (hours, afterHours) := Group(rest, 'H');
    var (minutes, _) := Group(afterHours, 'M');
    hours * 60 + minutes
  }

  /** `parseDuration(isoDuration)`: minutes of the first `PT` match, 0 when
      there is none. */
  function ParseDuration(isoDuration: string): (minutes: int)
    ensures minutes >= 0
    ensures !Contains(isoDuration, "PT") ==> minutes == 0
  {
    FindPTContains(isoDuration);
    match FindPT(isoDuration)
    case None => 0
    case Some(k) => MinutesAfterPT(isoDuration[k + 2..])
  }

  /** A group present in the text is read whole. */
  lemma GroupOf(a: string, x: char, tail: string, s: string)
    requires AllDigits(a) && |a| > 0 && !IsDigit(x)
    requires s == a + [x] + tail
    ensures Group(s, x) == (DigitsValue(a), tail)
  {
    assert s[..|a|] == a && s[|a|] == x && s[|a| + 1..] == tail;
    assert s == a + s[|a|..];
    DigitRunOf(a, s[|a|..]);
  }

  /** A group whose designator differs is absent. */
  lemma GroupAbsent(a: string, y: char, x: char, tail: string, s: string)
    requires AllDigits(a) && |a| > 0 && !IsDigit(y) && y != x
    requires s == a + [y] + tail
    ensures Group(s, x) == (0, s)
  {
    assert s[|a|] == y;
    assert s == a + s[|a|..];
    DigitRunOf(a, s[|a|..]);
  }

  /** `PT<h>H<m>M`, the form the search API writes durations in. */
  function IsoDurationText(hours: nat, minutes: nat): string
  {
    "PT" + NatText(hours) + "H" + NatText(minutes) + "M"
  }

  /** The parser reads back what `IsoDurationText` writes. */
  lemma ParseIsoDurationText(hours: nat, minutes: nat)
    ensures ParseDuration(IsoDurationText(hours, minutes)) == hours * 60 + minutes
  {
    var t := IsoDurationText(hours, minutes);
    var rest := NatText(hours) + "H" + NatText(minutes) + "M";
    var afterHours := NatText(minutes) + "M";
    assert t == "PT" + rest && t[2..] == rest;
    assert FindPT(t) == Some(0);
    NatTextRoundTrip(hours);
    NatTextRoundTrip(minutes);
    GroupOf(NatText(hours), 'H', afterHours, rest);
    GroupOf(NatText(minutes), 'M', [], afterHours);
  }

  /** `PT<h>H` reads as whole hours. */
  lemma ParseHoursOnly(hours: nat)
    ensures ParseDuration("PT" + NatText(hours) + "H") == hours * 60
  {
    var t := "PT" + NatText(hours) + "H";
    var rest := NatText(hours) + "H";
    assert t[2..] == rest;
    assert FindPT(t) == Some(0);
    NatTextRoundTrip(hours);
    GroupOf(NatText(hours), 'H', [], rest);
    assert Group([], 'M') == (0, []);
  }

  /** `PT<m>M` reads as minutes. */
  lemma ParseMinutesOnly(minutes: nat)
    ensures ParseDuration("PT" + NatText(minutes) + "M") == minutes
  {
    var t := "PT" + NatText(minutes) + "M";
    var rest := NatText(minutes) + "M";
    assert t[2..] == rest;
    assert FindPT(t) == Some(0);
    NatTextRoundTrip(minutes);
    GroupAbsent(NatText(minutes), 'M', 'H', [], rest);
    GroupOf(NatText(minutes), 'M', [], rest);
  }

  /** `formatDuration(isoDuration)` of this file: the parsed minutes as
      "Mm", "Hh" or "Hh Mm". */
  function FormatDuration(isoDuration: string): string
  {
    var minutes := ParseDuration(isoDuration);
    var hours := minutes / 60;
    var mins := minutes % 60;
    if hours == 0 then NatText(mins) + "m"
    else if mins == 0 then NatText(hours) + "h"
    else NatText(hours) + "h " + NatText(mins) + "m"
  }

  /** The two `formatDuration`s agree: rendering an ISO duration is
      rendering its parsed minutes with the shared helper. */
  lemma FormatDurationAgrees(isoDuration: string)
    ensures FormatDuration(isoDuration) == Format.FormatDuration(ParseDuration(isoDuration))
  {
  }

  // ---------------------------------------------------------------------
  // transformFlightOffer

  /** The locale-dependent helpers the transform calls, as parameters. */
  datatype Locale = Locale(
    formatTime: string -> string,
    formatDate: string -> string,
    parseFloat: string -> real)

  /** `validatingAirlineCodes[0] || segments[0].carrierCode`. */
  function MainCarrier(offer: Offer, firstSegment: RawSegment): (code: string)
    ensures code == firstSegment.carrierCode
      || (|offer.validatingAirlineCodes| > 0 && code == offer.validatingAirlineCodes[0])
    ensures firstSegment.carrierCode != "" ==> code != ""
    ensures |offer.validatingAirlineCodes| > 0 && offer.validatingAirlineCodes[0] != "" ==>
      code == offer.validatingAirlineCodes[0]
    ensures !(|offer.validatingAirlineCodes| > 0 && offer.validatingAirlineCodes[0] != "") ==>
      code == firstSegment.carrierCode
  {
    if |offer.validatingAirlineCodes| > 0 && offer.validatingAirlineCodes[0] != "" then
      offer.validatingAirlineCodes[0]
    else firstSegment.carrierCode
  }

  /** `travelerPricings[0]?.fareDetailsBySegment[0]?.cabin || 'ECONOMY'`. */
  function Cabin(offer: Offer): (cabin: string)
    ensures cabin != ""
    ensures |offer.travelerPricings| > 0
      && |offer.travelerPricings[0].fareDetailsBySegment| > 0
      && offer.travelerPricings[0].fareDetailsBySegment[0].cabin != ""
      ==> cabin == offer.travelerPricings[0].fareDetailsBySegment[0].cabin
  {
    if |offer.travelerPricings| > 0
      && |offer.travelerPricings[0].fareDetailsBySegment| > 0
      && offer.travelerPricings[0].fareDetailsBySegment[0].cabin != ""
    then offer.travelerPricings[0].fareDetailsBySegment[0].cabin
    else "ECONOMY"
  }

  /** The cabin is the first fare detail's when there is a non-empty one,
      and "ECONOMY" otherwise. */
  lemma CabinDefault(offer: Offer)
    ensures Cabin(offer) == "ECONOMY" <==>
      !(|offer.travelerPricings| > 0
        && |offer.travelerPricings[0].fareDetailsBySegment| > 0
        && offer.travelerPricings[0].fareDetailsBySegment[0].cabin != "")
      || offer.travelerPricings[0].fareDetailsBySegment[0].cabin == "ECONOMY"
  {
  }

  function TransformSegment(segment: RawSegment, dictionaries: Dictionaries, locale: Locale): (r: FlightSegment)
    ensures r.departure.airport == segment.departure.iataCode
    ensures r.arrival.airport == segment.arrival.iataCode
    ensures r.airlineCode == segment.carrierCode
    ensures r.flightNumber == segment.carrierCode + segment.number
    ensures r.departure.time == locale.formatTime(segment.departure.at)
      && r.departure.terminal == segment.departure.terminal
    ensures r.arrival.time == locale.formatTime(segment.arrival.at)
      && r.arrival.terminal == segment.arrival.terminal
    ensures r.airline == NameOr(dictionaries.carriers, segment.carrierCode)
    ensures r.aircraft == NameOr(dictionaries.aircraft, segment.aircraftCode)
    ensures r.duration == FormatDuration(segment.duration)
  {
    FlightSegment(
      SegmentEnd(segment.departure.iataCode, locale.formatTime(segment.departure.at), segment.departure.terminal),
      SegmentEnd(segment.arrival.iataCode, locale.formatTime(segment.arrival.at), segment.arrival.terminal),
      NameOr(dictionaries.carriers, segment.carrierCode),
      segment.carrierCode,
      segment.carrierCode + segment.number,
      FormatDuration(segment.duration),
      NameOr(dictionaries.aircraft, segment.aircraftCode))
  }

  /** The `TypeError` the code throws on an offer without a first itinerary
      or without a first segment. */
  function TransformError(offer: Offer): string
  {
    if |offer.itineraries| == 0 then "Cannot read properties of undefined (reading 'segments')"
    else if |offer.validatingAirlineCodes| > 0 && offer.validatingAirlineCodes[0] != "" then
      "Cannot read properties of undefined (reading 'departure')"
    else "Cannot read properties of undefined (reading 'carrierCode')"
  }

  /** An offer with a first itinerary holding a first segment. */
  predicate Transformable(offer: Offer)
  {
    |offer.itineraries| > 0 && |offer.itineraries[0].segments| > 0
  }

  /** `transformFlightOffer(offer, dictionaries)`. */
  function TransformOffer(offer: Offer, dictionaries: Dictionaries, locale: Locale): (r: Result<Flight>)
    ensures r.Success? <==> Transformable(offer)
    ensures r.Failure? ==> r.error == TransformError(offer)
    ensures r.Success? ==>
      var itinerary := offer.itineraries[0];
      var segments := itinerary.segments;
      var f := r.value;
      && WellFormedFlight(f)
      && |f.segments| == |segments|
      && (forall i :: 0 <= i < |segments| ==> f.segments[i] == TransformSegment(segments[i], dictionaries, locale))
      && (forall i :: 0 <= i < f.stops ==> f.stopLocations[i] == segments[i].arrival.iataCode)
      && f.airlineCode == MainCarrier(offer, segments[0])
      && f.airline == NameOr(dictionaries.carriers, f.airlineCode)
      && f.cabin == Cabin(offer)
      && f.durationMinutes == ParseDuration(itinerary.duration)
      && f.duration == FormatDuration(itinerary.duration)
      && f.id == offer.id
      && f.price == locale.parseFloat(offer.price.grandTotal)
      && f.currency == offer.price.currency
      && f.seatsAvailable == offer.numberOfBookableSeats
      && f.departure == Place(segments[0].departure.iataCode,
           locale.formatTime(segments[0].departure.at), locale.formatDate(segments[0].departure.at))
      && f.arrival == Place(segments[|segments| - 1].arrival.iataCode,
           locale.formatTime(segments[|segments| - 1].arrival.at), locale.formatDate(segments[|segments| - 1].arrival.at))
  {
    if |offer.itineraries| == 0 then Failure(TransformError(offer))
    else
      var itinerary := offer.itineraries[0];
      var raw := itinerary.segments;
      if |raw| == 0 then Failure(TransformError(offer))
      else
        var first := raw[0];
        var last := raw[|raw| - 1];
        var stopLocations := seq(|raw| - 1, i requires 0 <= i < |raw| - 1 => raw[i].arrival.iataCode);
        var segments := seq(|raw|, i requires 0 <= i < |raw| => TransformSegment(raw[i], dictionaries, locale));
        var mainCarrier := MainCarrier(offer, first);
        Success(Flight(
          offer.id,
          locale.parseFloat(offer.price.grandTotal),
          offer.price.currency,
          NameOr(dictionaries.carriers, mainCarrier),
          mainCarrier,
          Place(first.departure.iataCode, locale.formatTime(first.departure.at), locale.formatDate(first.departure.at)),
          Place(last.arrival.iataCode, locale.formatTime(last.arrival.at), locale.formatDate(last.arrival.at)),
          FormatDuration(itinerary.duration),
          ParseDuration(itinerary.duration),
          |raw| - 1,
          stopLocations,
          segments,
          Cabin(offer),
          offer.numberOfBookableSeats))
  }

  /** `items.map(f)` where `f` throws: every result on success, else the
      error of the first item that fails. */
  function MapResults<T, U>(items: seq<T>, f: T -> Result<U>): (r: Result<seq<U>>)
    ensures r.Success? <==> forall i :: 0 <= i < |items| ==> f(items[i]).Success?
    ensures r.Success? ==>
      && |r.value| == |items|
      && forall i :: 0 <= i < |items| ==> r.value[i] == f(items[i]).value
    ensures r.Failure? ==> exists i :: 0 <= i < |items| && f(items[i]) == Failure(r.error)
                                       && forall j :: 0 <= j < i ==> f(items[j]).Success?
  {
    if |items| == 0 then Success([])
    else
      assert forall i :: 1 <= i < |items| ==> items[i] == items[1..][i - 1];
      match f(items[0])
      case Failure(e) => Failure(e)
      case Success(x) =>
        match MapResults(items[1..], f)
        case Failure(e) =>
          var k :| 0 <= k < |items[1..]| && f(items[1..][k]) == Failure(e)
            && forall j :: 0 <= j < k ==> f(items[1..][j]).Success?;
          assert f(items[k + 1]) == Failure(e);
          Failure(e)
        case Success(xs) => Success([x] + xs)
  }

  /** A transformed flight's duration text is the shared formatter's text
      for its duration in minutes. */
  lemma FlightDurationText(offer: Offer, dictionaries: Dictionaries, locale: Locale)
    requires TransformOffer(offer, dictionaries, locale).Success?
    ensures var f := TransformOffer(offer, dictionaries, locale).value;
      f.duration == Format.FormatDuration(f.durationMinutes)
  {
    FormatDurationAgrees(offer.itineraries[0].duration);
  }

  /** `transformFlightOffers`: `offers.map(transformFlightOffer)`, which
      throws the first offer's error when any offer cannot be transformed. */
  function TransformOffers(offers: seq<Offer>, dictionaries: Dictionaries, locale: Locale): (r: Result<seq<Flight>>)
    ensures r.Success? <==> forall i :: 0 <= i < |offers| ==> Transformable(offers[i])
    ensures r.Success? ==>
      && |r.value| == |offers|
      && forall i :: 0 <= i < |offers| ==> r.value[i] == TransformOffer(offers[i], dictionaries, locale).value
    ensures r.Failure? ==>
      exists i :: 0 <= i < |offers| && !Transformable(offers[i]) && r.error == TransformError(offers[i])
        && forall j :: 0 <= j < i ==> Transformable(offers[j])
  {
    MapResults(offers, o => TransformOffer(o, dictionaries, locale))
  }

  /** Every transformed flight is well formed. */
  lemma TransformedWellFormed(offers: seq<Offer>, dictionaries: Dictionaries, locale: Locale)
    requires TransformOffers(offers, dictionaries, locale).Success?
    ensures forall f :: f in TransformOffers(offers, dictionaries, locale).value ==> WellFormedFlight(f)
  {
  }
}
