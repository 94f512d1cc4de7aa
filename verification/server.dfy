/** The Express route of `server.js`: `POST /api/flights`, with the same
  validation, token cache and query as the serverless handler but written
  separately, a different missing-credentials message, and a 500 reply that
  falls back to a fixed text when the error message is empty.

  Only the POST route is modelled; requests with other methods never reach
  it.
*/
module Server {
  import opened Wrappers
  import opened SearchTypes
  import opened FlightApi

  /** One validation step: whether it rejects the request, and with what. */
  datatype Check = Check(fails: bool, message: string)

  /** The route's three `if (...) return res.status(400)` blocks, in order. */
  function Checks(p: SearchParams): seq<Check>
  {
    [ Check(p.origin == "" || p.destination == "" || p.departureDate == "" || p.adults == 0, MissingMessage),
      Check(!FullMatch(IataPattern, p.origin) || !FullMatch(IataPattern, p.destination), IataMessage),
      Check(!FullMatch(DatePattern, p.departureDate), DateMessage) ]
  }

  /** Check `i` fails and none before it does. */
  predicate FailsFirstAt(checks: seq<Check>, i: int)
  {
    0 <= i < |checks| && checks[i].fails && forall j :: 0 <= j < i ==> !checks[j].fails
  }

  /** The message of the first failing check, if any. */
  function FirstFailure(checks: seq<Check>): (r: Option<string>)
    ensures r.None? <==> forall i :: 0 <= i < |checks| ==> !checks[i].fails
    ensures r.Some? ==> exists i :: FailsFirstAt(checks, i) && checks[i].message == r.value
  {
    if |checks| == 0 then None
    else if checks[0].fails then Some(checks[0].message)
    else
      var rest := FirstFailure(checks[1..]);
      assert forall i :: 1 <= i < |checks| ==> checks[i] == checks[1..][i - 1];
      if rest.Some? then
        var k :| FailsFirstAt(checks[1..], k) && checks[1..][k].message == rest.value;
        assert FailsFirstAt(checks, k + 1) && checks[k + 1].message == rest.value;
        rest
      else
        rest
  }

  /** The two validators answer alike on every request body. */
  lemma ValidationAgrees(p: SearchParams)
    ensures FirstFailure(Checks(p)) == ValidationError(p)
  {
    IataPatternMeaning(p.origin);
    IataPatternMeaning(p.destination);
    DatePatternMeaning(p.departureDate);
    var c := Checks(p);
    assert c[1..][1..] == [c[2]];
  }

  const ServerCredentialsMessage: string := "Amadeus API credentials not configured. Check your .env file."

  /** `error.message || 'An unexpected error occurred'`. */
  function ErrorText(message: string): (r: string)
    ensures r != ""
    ensures message != "" ==> r == message
  {
    if message == "" then "An unexpected error occurred" else message
  }

  /** The route handler: the reply and the token cache afterwards. */
  function Route(
    p: SearchParams,
    cache: TokenCache, now: int, creds: Credentials, exchange: Result<TokenGrant>, later: int,
    upstream: Upstream): (r: (Reply, TokenCache))
    ensures r.0.status in {200, 400, 500}
    ensures r.0.status == 400 <==> FirstFailure(Checks(p)).Some?
    ensures r.0.status == 400 ==> r == (Reply(400, ErrorBody(FirstFailure(Checks(p)).value)), cache)
    ensures r.0.status == 500 ==> r.0.body.ErrorBody? && r.0.body.error != ""
    ensures r.0.status == 200 <==> r.0.body.DataBody?
    ensures FirstFailure(Checks(p)).None? ==>
      var token := AccessToken(cache, now, creds, exchange, later, ServerCredentialsMessage);
      && r.1 == token.1
      && (token.0.Failure? ==> r.0 == Reply(500, ErrorBody(ErrorText(token.0.error))))
      && (token.0.Success? ==>
           var found := upstream(SearchQuery(p), token.0.value);
           && (found.Success? ==> r.0 == Reply(200, DataBody(found.value.data, found.value.dictionaries)))
           && (found.Failure? ==> r.0 == Reply(500, ErrorBody(ErrorText("Flight search failed: " + found.error)))))
  {
    match FirstFailure(Checks(p))
    case Some(message) => (Reply(400, ErrorBody(message)), cache)
    case None =>
      var (token, cache') := AccessToken(cache, now, creds, exchange, later, ServerCredentialsMessage);
      match token
      case Failure(message) => (Reply(500, ErrorBody(ErrorText(message))), cache')
      case Success(t) =>
        match upstream(SearchQuery(p), t)
        case Failure(text) => (Reply(500, ErrorBody(ErrorText("Flight search failed: " + text))), cache')
        case Success(result) => (Reply(200, DataBody(result.data, result.dictionaries)), cache')
  }

  /** The Express route and the serverless handler give the same reply and
      leave the same cache for every POST, except when a token is needed and
      the credentials are missing. */
  lemma RouteAgrees(
    p: SearchParams, cache: TokenCache, now: int, creds: Credentials, exchange: Result<TokenGrant>,
    later: int, upstream: Upstream)
    requires Reusable(cache, now) || (TruthyText(creds.clientId) && TruthyText(creds.clientSecret))
    ensures Route(p, cache, now, creds, exchange, later, upstream)
         == Handle("POST", p, cache, now, creds, exchange, later, upstream)
  {
    ValidationAgrees(p);
    if ValidationError(p).None? {
      var (token, _) := AccessToken(cache, now, creds, exchange, later, ServerCredentialsMessage);
      var (token', _) := GetAccessToken(cache, now, creds, exchange, later);
      assert token == token';
      if token.Failure? {
        assert token.error == "Failed to get access token: " + exchange.error;
      }
    }
  }

  /** Where they differ, only the wording of the error differs. */
  lemma MissingCredentialsWording(
    p: SearchParams, cache: TokenCache, now: int, creds: Credentials, exchange: Result<TokenGrant>,
    later: int, upstream: Upstream)
    requires ValidationError(p).None? && !Reusable(cache, now)
    requires !(TruthyText(creds.clientId) && TruthyText(creds.clientSecret))
    ensures Route(p, cache, now, creds, exchange, later, upstream)
         == (Reply(500, ErrorBody(ServerCredentialsMessage)), cache)
    ensures Handle("POST", p, cache, now, creds, exchange, later, upstream)
         == (Reply(500, ErrorBody(CredentialsMessage)), cache)
  {
    ValidationAgrees(p);
  }
}
