/** The serverless handler of `api/flights.ts`: method handling, request
  validation, the cached OAuth token and the query sent to the flight-offers
  endpoint.

  Everything the handler awaits is a parameter: the clock readings before
  and after the token exchange, the configured credentials, the outcome of
  the token exchange and the upstream search (a function of the query and
  the bearer token). The module-level `cachedToken`/`tokenExpiry` pair is a
  `TokenCache` value passed in and returned.
*/
module FlightApi {
  import opened Wrappers
  import opened Text
  import opened FlightTypes
  import opened SearchTypes
  import Calendar

  // ---------------------------------------------------------------------
  // The two anchored regular expressions

  /** One position of an anchored pattern: `[A-Z]`, `\d` or a literal. */
  datatype CharClass = UpperLetter | AnyDigit | Literal(c: char)

  predicate ClassHas(k: CharClass, c: char)
  {
    match k
    case UpperLetter => 'A' <= c <= 'Z'
    case AnyDigit => IsDigit(c)
    case Literal(l) => c == l
  }

  /** `pattern.test(s)` for a pattern anchored by `^` and `$` whose every
      position matches exactly one character. */
  predicate FullMatch(pattern: seq<CharClass>, s: string)
  {
    |s| == |pattern| && forall i :: 0 <= i < |s| ==> ClassHas(pattern[i], s[i])
  }

  /** `/^[A-Z]{3}$/`. */
  const IataPattern: seq<CharClass> := [UpperLetter, UpperLetter, UpperLetter]

  /** `/^\d{4}-\d{2}-\d{2}$/`. */
  const DatePattern: seq<CharClass> :=
    [AnyDigit, AnyDigit, AnyDigit, AnyDigit, Literal('-'), AnyDigit, AnyDigit, Literal('-'), AnyDigit, AnyDigit]

  /** Three upper-case ASCII letters. */
  predicate IsIataCode(s: string)
  {
    |s| == 3 && 'A' <= s[0] <= 'Z' && 'A' <= s[1] <= 'Z' && 'A' <= s[2] <= 'Z'
  }

  /** Four digits, a dash, two digits, a dash, two digits: the shape
      `Calendar.ParseIsoDate` reads, with no check that the numbers name a
      date. */
  predicate IsDateShaped(s: string)
  {
    |s| == 10 && AllDigits(s[..4]) && s[4] == '-' && AllDigits(s[5..7]) && s[7] == '-' && AllDigits(s[8..])
  }

  lemma IataPatternMeaning(s: string)
    ensures FullMatch(IataPattern, s) <==> IsIataCode(s)
  {
    if IsIataCode(s) {
      assert forall i :: 0 <= i < 3 ==> ClassHas(IataPattern[i], s[i]);
    }
    if FullMatch(IataPattern, s) {
      assert ClassHas(IataPattern[0], s[0]) && ClassHas(IataPattern[1], s[1]) && ClassHas(IataPattern[2], s[2]);
    }
  }

  lemma DatePatternMeaning(s: string)
    ensures FullMatch(DatePattern, s) <==> IsDateShaped(s)
  {
    if FullMatch(DatePattern, s) {
      forall i | 0 <= i < 4 ensures IsDigit(s[..4][i]) {
        assert ClassHas(DatePattern[i], s[i]);
      }
      forall i | 0 <= i < 2 ensures IsDigit(s[5..7][i]) && IsDigit(s[8..][i]) {
        assert ClassHas(DatePattern[5 + i], s[5 + i]);
        assert ClassHas(DatePattern[8 + i], s[8 + i]);
      }
      assert ClassHas(DatePattern[4], s[4]) && ClassHas(DatePattern[7], s[7]);
    }
    if IsDateShaped(s) {
      forall i | 0 <= i < 10 ensures ClassHas(DatePattern[i], s[i]) {
        if i < 4 {
          assert s[i] == s[..4][i];
        } else if 5 <= i < 7 {
          assert s[i] == s[5..7][i - 5];
        } else if 8 <= i {
          assert s[i] == s[8..][i - 8];
        }
      }
    }
  }

  /** Every real `YYYY-MM-DD` date passes the date check. */
  lemma CalendarDatesPass(s: string)
    requires Calendar.ParseIsoDate(s).Some?
    ensures FullMatch(DatePattern, s)
  {
    DatePatternMeaning(s);
  }

  /** The check is on the shape only: 30 February passes it. */
  lemma ShapeOnly()
    ensures FullMatch(DatePattern, "2024-02-30")
    ensures Calendar.ParseIsoDate("2024-02-30").None?
  {
    var s := "2024-02-30";
    DatePatternMeaning(s);
    assert s[..4] == "2024" && s[5..7] == "02" && s[8..] == "30";
    assert DigitsValue("02") == 2 by {
      assert "02"[..1] == "0";
    }
    assert DigitsValue("30") == 30 by {
      assert "30"[..1] == "3";
    }
    var d := Calendar.Date(DigitsValue(s[..4]), DigitsValue(s[5..7]), DigitsValue(s[8..]));
    assert d.month == 2 && d.day == 30;
    assert !Calendar.ValidDate(d);
  }

  // ---------------------------------------------------------------------
  // Request validation

  const MissingMessage: string := "Missing required parameters: origin, destination, departureDate, adults"
  const IataMessage: string := "Invalid IATA code. Must be 3 uppercase letters."
  const DateMessage: string := "Invalid date format. Use YYYY-MM-DD."

  /** `!params.origin || ... || !params.adults`: an empty string or a zero
      count is missing. */
  predicate MissingField(p: SearchParams)
  {
    p.origin == "" || p.destination == "" || p.departureDate == "" || p.adults == 0
  }

  /** The three checks of the handler in their order; `None` when all pass. */
  function ValidationError(p: SearchParams): (r: Option<string>)
    ensures r == Some(MissingMessage) <==> MissingField(p)
    ensures r == Some(IataMessage) <==> !MissingField(p) && !(IsIataCode(p.origin) && IsIataCode(p.destination))
    ensures r == Some(DateMessage) <==>
      !MissingField(p) && IsIataCode(p.origin) && IsIataCode(p.destination) && !IsDateShaped(p.departureDate)
    ensures r.None? <==>
      !MissingField(p) && IsIataCode(p.origin) && IsIataCode(p.destination) && IsDateShaped(p.departureDate)
  {
    IataPatternMeaning(p.origin);
    IataPatternMeaning(p.destination);
    DatePatternMeaning(p.departureDate);
    if MissingField(p) then Some(MissingMessage)
    else if !FullMatch(IataPattern, p.origin) || !FullMatch(IataPattern, p.destination) then Some(IataMessage)
    else if !FullMatch(DatePattern, p.departureDate) then Some(DateMessage)
    else None
  }

  // ---------------------------------------------------------------------
  // The token cache

  /** `cachedToken` (`None` for `null`) and `tokenExpiry`, in milliseconds. */
  datatype TokenCache = TokenCache(token: Option<string>, expiry: int)

  /** `let cachedToken = null; let tokenExpiry = 0`. */
  const InitialCache: TokenCache := TokenCache(None, 0)

  /** A token is dropped one minute before it expires. */
  const ExpiryBuffer: int := 60000

  /** `cachedToken && Date.now() < tokenExpiry - 60000`. */
  predicate Reusable(cache: TokenCache, now: int)
  {
    TruthyText(cache.token) && now < cache.expiry - ExpiryBuffer
  }

  /** `process.env.AMADEUS_CLIENT_ID` and `AMADEUS_CLIENT_SECRET`. */
  datatype Credentials = Credentials(clientId: Option<string>, clientSecret: Option<string>)

  /** The fields of the token response the handler reads. */
  datatype TokenGrant = TokenGrant(accessToken: string, expiresIn: int)

  /** `getAccessToken()`, with the missing-credentials message as a
      parameter (the Express server words it differently). `exchange` is the
      token endpoint's answer: a grant, or the failed response's text;
      `later` is the clock after the exchange. */
  function AccessToken(
    cache: TokenCache, now: int, creds: Credentials, exchange: Result<TokenGrant>, later: int,
    missingCredentials: string): (r: (Result<string>, TokenCache))
    ensures Reusable(cache, now) ==> r == (Success(cache.token.value), cache)
    ensures !Reusable(cache, now) && !(TruthyText(creds.clientId) && TruthyText(creds.clientSecret)) ==>
      r == (Failure(missingCredentials), cache)
    ensures r.1 != cache ==>
      && !Reusable(cache, now)
      && exchange.Success?
      && r.0 == Success(exchange.value.accessToken)
      && r.1 == TokenCache(Some(exchange.value.accessToken), later + exchange.value.expiresIn * 1000)
    ensures r.0.Failure? ==> r.1 == cache
    ensures !Reusable(cache, now) && TruthyText(creds.clientId) && TruthyText(creds.clientSecret) ==>
      && (exchange.Success? ==>
           r == (Success(exchange.value.accessToken),
                 TokenCache(Some(exchange.value.accessToken), later + exchange.value.expiresIn * 1000)))
      && (exchange.Failure? ==> r == (Failure("Failed to get access token: " + exchange.error), cache))
  {
    if Reusable(cache, now) then (Success(cache.token.value), cache)
    else if !TruthyText(creds.clientId) || !TruthyText(creds.clientSecret) then (Failure(missingCredentials), cache)
    else
      match exchange
      case Failure(text) => (Failure("Failed to get access token: " + text), cache)
      case Success(grant) =>
        (Success(grant.accessToken), TokenCache(Some(grant.accessToken), later + grant.expiresIn * 1000))
  }

  const CredentialsMessage: string := "Amadeus API credentials not configured"

  function GetAccessToken(cache: TokenCache, now: int, creds: Credentials, exchange: Result<TokenGrant>, later: int): (r: (Result<string>, TokenCache))
  {
    AccessToken(cache, now, creds, exchange, later, CredentialsMessage)
  }

  /** A freshly granted token is reused exactly until one minute before
      `expires_in` seconds have passed, and never when it is empty. */
  lemma RefreshedReuse(cache: TokenCache, now: int, creds: Credentials, grant: TokenGrant, later: int, t: int)
    requires !Reusable(cache, now)
    requires TruthyText(creds.clientId) && TruthyText(creds.clientSecret)
    ensures var c := GetAccessToken(cache, now, creds, Success(grant), later).1;
      Reusable(c, t) <==> grant.accessToken != "" && t < later + grant.expiresIn * 1000 - 60000
  {
  }

  /** A token that is stale stays stale as the clock moves on. */
  lemma StaleStaysStale(cache: TokenCache, t1: int, t2: int)
    requires t1 <= t2 && !Reusable(cache, t1)
    ensures !Reusable(cache, t2)
  {
  }

  /** A grant of at most 60 seconds is never reused. */
  lemma ShortGrantNeverReused(cache: TokenCache, now: int, creds: Credentials, grant: TokenGrant, later: int, t: int)
    requires !Reusable(cache, now) && grant.expiresIn <= 60 && now <= later <= t
    ensures !Reusable(GetAccessToken(cache, now, creds, Success(grant), later).1, t)
  {
    StaleStaysStale(cache, now, t);
  }

  // ---------------------------------------------------------------------
  // The search query

  /** The six entries every query carries, in their order. */
  function BaseQuery(p: SearchParams): seq<(string, string)>
  {
    [ ("originLocationCode", p.origin),
      ("destinationLocationCode", p.destination),
      ("departureDate", p.departureDate),
      ("adults", IntText(p.adults)),
      ("currencyCode", "USD"),
      ("max", "50") ]
  }

  /** One `append` guarded by a truthiness test. */
  function Optional(present: bool, key: string, value: string): seq<(string, string)>
  {
    if present then [(key, value)] else []
  }

  function ReturnDateEntry(p: SearchParams): seq<(string, string)>
  {
    Optional(TruthyText(p.returnDate), "returnDate", if p.returnDate.Some? then p.returnDate.value else "")
  }

  function TravelClassEntry(p: SearchParams): seq<(string, string)>
  {
    Optional(TruthyText(p.travelClass), "travelClass", if p.travelClass.Some? then p.travelClass.value else "")
  }

  function NonStopEntry(p: SearchParams): seq<(string, string)>
  {
    Optional(p.nonStop == Some(true), "nonStop", "true")
  }

  function MaxPriceEntry(p: SearchParams): seq<(string, string)>
  {
    Optional(TruthyNumber(p.maxPrice), "maxPrice", if p.maxPrice.Some? then IntText(p.maxPrice.value) else "")
  }

  /** `searchFlights`' `URLSearchParams`: the base entries, then
      `returnDate`, `travelClass`, `nonStop` and `maxPrice` when truthy. */
  function SearchQuery(p: SearchParams): (q: seq<(string, string)>)
    ensures 6 <= |q| <= 10 && q[..6] == BaseQuery(p)
  {
    BaseQuery(p) + ReturnDateEntry(p) + TravelClassEntry(p) + NonStopEntry(p) + MaxPriceEntry(p)
  }

  /** `URLSearchParams.get(key)`: the value of the first entry with that key. */
  function Lookup(q: seq<(string, string)>, key: string): (r: Option<string>)
    ensures r.None? <==> forall i :: 0 <= i < |q| ==> q[i].0 != key
  {
    if |q| == 0 then None
    else if q[0].0 == key then Some(q[0].1)
    else Lookup(q[1..], key)
  }

  /** The first entry with `key` decides the lookup. */
  lemma {:induction false} LookupAt(q: seq<(string, string)>, key: string, i: int)
    requires 0 <= i < |q| && q[i].0 == key
    requires forall j :: 0 <= j < i ==> q[j].0 != key
    ensures Lookup(q, key) == Some(q[i].1)
  {
    if i > 0 {
      LookupAt(q[1..], key, i - 1);
    }
  }

  function OrElse(a: Option<string>, b: Option<string>): Option<string>
  {
    if a.Some? then a else b
  }

  /** Looking up in a concatenation looks in the left part first. */
  lemma {:induction false} LookupAppend(a: seq<(string, string)>, b: seq<(string, string)>, key: string)
    ensures Lookup(a + b, key) == OrElse(Lookup(a, key), Lookup(b, key))
  {
    if |a| > 0 {
      assert (a + b)[1..] == a[1..] + b;
      LookupAppend(a[1..], b, key);
    } else {
      assert a + b == b;
    }
  }

  /** The upstream service reads the six base fields back unchanged. */
  lemma QueryRequiredFields(p: SearchParams)
    ensures var q := SearchQuery(p);
      && Lookup(q, "originLocationCode") == Some(p.origin)
      && Lookup(q, "destinationLocationCode") == Some(p.destination)
      && Lookup(q, "departureDate") == Some(p.departureDate)
      && Lookup(q, "adults") == Some(IntText(p.adults))
      && Lookup(q, "currencyCode") == Some("USD")
      && Lookup(q, "max") == Some("50")
  {
    var q := SearchQuery(p);
    assert q[..6] == BaseQuery(p);
    LookupAt(q, "originLocationCode", 0);
    LookupAt(q, "destinationLocationCode", 1);
    LookupAt(q, "departureDate", 2);
    LookupAt(q, "adults", 3);
    LookupAt(q, "currencyCode", 4);
    LookupAt(q, "max", 5);
  }

  /** A lookup in the query is the first hit among its five parts. */
  lemma QueryLookup(p: SearchParams, key: string)
    ensures Lookup(SearchQuery(p), key) ==
      OrElse(Lookup(BaseQuery(p), key),
      OrElse(Lookup(ReturnDateEntry(p), key),
      OrElse(Lookup(TravelClassEntry(p), key),
      OrElse(Lookup(NonStopEntry(p), key), Lookup(MaxPriceEntry(p), key)))))
  {
    var q1 := BaseQuery(p) + ReturnDateEntry(p);
    var q2 := q1 + TravelClassEntry(p);
    var q3 := q2 + NonStopEntry(p);
    LookupAppend(q3, MaxPriceEntry(p), key);
    LookupAppend(q2, NonStopEntry(p), key);
    LookupAppend(q1, TravelClassEntry(p), key);
    LookupAppend(BaseQuery(p), ReturnDateEntry(p), key);
  }

  /** None of the optional keys is a base key. */
  lemma BaseMisses(p: SearchParams, key: string)
    requires key == "returnDate" || key == "travelClass" || key == "nonStop" || key == "maxPrice"
    ensures Lookup(BaseQuery(p), key) == None
  {
    var b := BaseQuery(p);
    forall i | 0 <= i < |b|
      ensures b[i].0 != key
    {
      assert b[i].0 in ["originLocationCode", "destinationLocationCode", "departureDate",
                        "adults", "currencyCode", "max"];
    }
  }

  /** Each optional field is read back exactly when the handler found it
      truthy: a zero `maxPrice`, an empty `returnDate` or a `false`
      `nonStop` is not sent at all. */
  lemma QueryOptionalFields(p: SearchParams)
    ensures var q := SearchQuery(p);
      && Lookup(q, "returnDate") == (if TruthyText(p.returnDate) then p.returnDate else None)
      && Lookup(q, "travelClass") == (if TruthyText(p.travelClass) then p.travelClass else None)
      && Lookup(q, "nonStop") == (if p.nonStop == Some(true) then Some("true") else None)
      && Lookup(q, "maxPrice") == (if TruthyNumber(p.maxPrice) then Some(IntText(p.maxPrice.value)) else None)
  {
    QueryLookup(p, "returnDate");
    BaseMisses(p, "returnDate");
    QueryLookup(p, "travelClass");
    BaseMisses(p, "travelClass");
    QueryLookup(p, "nonStop");
    BaseMisses(p, "nonStop");
    QueryLookup(p, "maxPrice");
    BaseMisses(p, "maxPrice");
  }

  /** No key appears twice in a query. */
  lemma QueryKeysDistinct(p: SearchParams)
    ensures var q := SearchQuery(p);
      forall i, j :: 0 <= i < j < |q| ==> q[i].0 != q[j].0
  {
  }

  // ---------------------------------------------------------------------
  // The handler

  /** What the upstream search returns on success. */
  datatype SearchResult = SearchResult(data: seq<Offer>, dictionaries: Dictionaries)

  datatype Body =
    | NoBody
    | ErrorBody(error: string)
    | DataBody(data: seq<Offer>, dictionaries: Dictionaries)

  datatype Reply = Reply(status: int, body: Body)

  /** The search fetch: the query and the bearer token in, the parsed JSON
      or the failed response's text out. */
  type Upstream = (seq<(string, string)>, string) -> Result<SearchResult>

  /** `handler(req, res)`: the reply and the token cache afterwards. */
  function Handle(
    verb: string, p: SearchParams,
    cache: TokenCache, now: int, creds: Credentials, exchange: Result<TokenGrant>, later: int,
    upstream: Upstream): (r: (Reply, TokenCache))
    ensures verb == "OPTIONS" ==> r == (Reply(200, NoBody), cache)
    ensures verb != "OPTIONS" && verb != "POST" ==> r == (Reply(405, ErrorBody("Method not allowed")), cache)
    ensures r.0.status == 400 <==> verb == "POST" && ValidationError(p).Some?
    ensures r.0.status == 400 ==> r == (Reply(400, ErrorBody(ValidationError(p).value)), cache)
    ensures r.0.body.DataBody? ==> verb == "POST" && ValidationError(p).None? && r.0.status == 200
    ensures verb == "POST" && ValidationError(p).None? ==>
      var token := GetAccessToken(cache, now, creds, exchange, later);
      && r.1 == token.1
      && (token.0.Failure? ==> r.0 == Reply(500, ErrorBody(token.0.error)))
      && (token.0.Success? ==>
           var found := upstream(SearchQuery(p), token.0.value);
           && (found.Success? ==> r.0 == Reply(200, DataBody(found.value.data, found.value.dictionaries)))
           && (found.Failure? ==> r.0 == Reply(500, ErrorBody("Flight search failed: " + found.error))))
  {
    if verb == "OPTIONS" then (Reply(200, NoBody), cache)
    else if verb != "POST" then (Reply(405, ErrorBody("Method not allowed")), cache)
    else
      match ValidationError(p)
      case Some(message) => (Reply(400, ErrorBody(message)), cache)
      case None =>
        var (token, cache') := GetAccessToken(cache, now, creds, exchange, later);
        match token
        case Failure(message) => (Reply(500, ErrorBody(message)), cache')
        case Success(t) =>
          match upstream(SearchQuery(p), t)
          case Failure(text) => (Reply(500, ErrorBody("Flight search failed: " + text)), cache')
          case Success(result) => (Reply(200, DataBody(result.data, result.dictionaries)), cache')
  }

  /** A valid search with a reusable cached token goes straight to the
      upstream service with that token and the request's query, keeps the
      cache, and returns the offers and dictionaries found. */
  lemma CachedTokenSearch(
    p: SearchParams, cache: TokenCache, now: int, creds: Credentials, exchange: Result<TokenGrant>,
    later: int, upstream: Upstream, found: SearchResult)
    requires ValidationError(p).None? && Reusable(cache, now)
    requires upstream(SearchQuery(p), cache.token.value) == Success(found)
    ensures Handle("POST", p, cache, now, creds, exchange, later, upstream)
         == (Reply(200, DataBody(found.data, found.dictionaries)), cache)
  {
  }

  /** A request that fails validation is answered before any token or
      search traffic: the outcome does not depend on the credentials, the
      token exchange, the clock or the upstream service. */
  lemma RejectedBeforeNetwork(
    verb: string, p: SearchParams, cache: TokenCache,
    now1: int, creds1: Credentials, exchange1: Result<TokenGrant>, later1: int, upstream1: Upstream,
    now2: int, creds2: Credentials, exchange2: Result<TokenGrant>, later2: int, upstream2: Upstream)
    requires verb != "POST" || ValidationError(p).Some?
    ensures Handle(verb, p, cache, now1, creds1, exchange1, later1, upstream1)
         == Handle(verb, p, cache, now2, creds2, exchange2, later2, upstream2)
  {
  }
}
