/**
 * The service object and its two middlewares on the /v1/ routes:
 * `ValidateAccessToken` turns the Authorization header into a token, then
 * `CheckLimitsMiddlware` counts the request against that token's window.
 */
module Middleware {
  import opened Wrappers
  import opened Errors
  import opened Auth
  import opened Limiter

  /** What a middleware does with a request: hand it on with its token, or answer with an error. */
  datatype Response = Forward(token: string) | Fail(error: ApiError)

  /** `ValidateAccessToken`: every refused header is answered with 401 "Missing access token". */
  function ValidateAccessToken(header: string): (r: Result<string, ApiError>)
    ensures r.Failure? ==> r.error == MissingAccessToken && r.error.Code() == 401
    ensures r.Success? ==> BearerForm(header, r.value)
  {
    if ParseAuthorization(header).Success? then
      ParseAuthorizationIff(header, ParseAuthorization(header).value);
      Success(ParseAuthorization(header).value)
    else
      Failure(MissingAccessToken)
  }

  /** Exactly the headers of the bearer form pass, each forwarding its own token. */
  lemma ValidateAccessTokenIff(header: string, token: string)
    ensures ValidateAccessToken(header) == Success(token) <==> BearerForm(header, token)
  {
    ParseAuthorizationIff(header, token);
  }

  /** The HTTP meaning of a limiter decision for `token`: hand the request on, or answer 429. */
  function Respond(token: string, d: Decision): Response {
    match d
    case Allowed => Forward(token)
    case Rejected(ms) => Fail(TooManyRequests(ms))
  }

  /** The limiter decision a response stands for, if it stands for one. */
  function DecisionOf(r: Response): Option<Decision> {
    match r
    case Forward(_) => Some(Allowed)
    case Fail(TooManyRequests(ms)) => Some(Rejected(ms))
    case Fail(_) => None
  }

  /**
   * The response to a decision gives the decision back, so no two decisions
   * share a response; a rejection is always a 429.
   */
  lemma RespondDecisionOf(token: string, d: Decision)
    ensures DecisionOf(Respond(token, d)) == Some(d)
    ensures d.Rejected? ==> Respond(token, d).Fail? && Respond(token, d).error.Code() == 429
  {
  }

  /** Two decisions answered alike for the same token are the same decision. */
  lemma RespondInjective(token: string, d1: Decision, d2: Decision)
    requires Respond(token, d1) == Respond(token, d2)
    ensures d1 == d2
  {
    RespondDecisionOf(token, d1);
    RespondDecisionOf(token, d2);
  }

  /** The service: its environment name and the throttler it owns. */
  class Service {
    const environment: string
    const throttler: Throttler

    /** `NewService(environment, n, m)`, with the cache made empty rather than left nil. */
    constructor NewService(environment: string, n: int, m: int)
      ensures this.environment == environment
      ensures throttler.N == n && throttler.M == m
      ensures throttler.cache == map[]
      ensures throttler.Valid() && fresh(throttler)
    {
      this.environment := environment;
      throttler := new Throttler(n, m);
    }

    /**
     * `CheckLimitsMiddlware`: without a token in the request context the
     * answer is 500 and the cache is untouched; otherwise the token's request
     * is counted and decided.
     */
    method CheckLimits(token: Option<string>, now: int) returns (r: Response)
      requires throttler.Valid()
      modifies throttler
      ensures throttler.Valid()
      ensures token.None? ==> r == Fail(InternalServerError) && throttler.cache == old(throttler.cache)
      ensures token.Some? ==>
        var t := Step(Lookup(old(throttler.cache), token.value), throttler.N, throttler.M, now);
        && throttler.cache == old(throttler.cache)[token.value := t.entry]
        && r == Respond(token.value, t.decision)
    {
      if token.None? {
        return Fail(InternalServerError);
      }
      var d := throttler.Admit(token.value, now);
      r := Respond(token.value, d);
    }

    /**
     * The /v1/ chain: the header check runs first, so a request without a
     * usable bearer token is answered 401 and never takes a slot in the cache.
     */
    method Serve(header: string, now: int) returns (r: Response)
      requires throttler.Valid()
      modifies throttler
      ensures throttler.Valid()
      ensures ValidateAccessToken(header).Failure? ==>
        r == Fail(MissingAccessToken) && throttler.cache == old(throttler.cache)
      ensures ValidateAccessToken(header).Success? ==>
        var token := ValidateAccessToken(header).value;
        var t := Step(Lookup(old(throttler.cache), token), throttler.N, throttler.M, now);
        && throttler.cache == old(throttler.cache)[token := t.entry]
        && r == Respond(token, t.decision)
    {
      var v := ValidateAccessToken(header);
      if v.Failure? {
        return Fail(v.error);
      }
      r := CheckLimits(Some(v.value), now);
    }
  }

  /**
   * The repeated-request scenario with N = 1 and M = 50: a request, an
   * immediate retry, a retry M later, an immediate retry, a retry M later
   * answer ok, 429, ok, 429, ok.
   */
  method AlternatingScenario(t0: int, t1: int, t2: int, t3: int, t4: int) returns (rs: seq<Response>)
    requires t0 <= t1 < t0 + 50
    requires t1 + 50 <= t2
    requires t2 <= t3 < t2 + 50
    requires t3 + 50 <= t4
    ensures rs == [Forward("3_attempts_token"), Fail(TooManyRequests(t0 + 50 - t1)),
                   Forward("3_attempts_token"), Fail(TooManyRequests(t2 + 50 - t3)),
                   Forward("3_attempts_token")]
    ensures forall i :: 0 <= i < |rs| ==> (rs[i].Fail? ==> rs[i].error.Code() == 429)
  {
    var s := new Service.NewService("test", 1, 50);
    var token := Some("3_attempts_token");
    var r0 := s.CheckLimits(token, t0);
    var r1 := s.CheckLimits(token, t1);
    var r2 := s.CheckLimits(token, t2);
    var r3 := s.CheckLimits(token, t3);
    var r4 := s.CheckLimits(token, t4);
    rs := [r0, r1, r2, r3, r4];
  }

  /** With N = 0 and M = 100 the first request of a token is answered 429 with the whole window left. */
  method ZeroLimitScenario(now: int) returns (r: Response)
    ensures r == Fail(TooManyRequests(100)) && r.error.Code() == 429
  {
    var s := new Service.NewService("test", 0, 100);
    r := s.CheckLimits(Some("rate_limited_token"), now);
  }

  /** A well-formed bearer header on a newly built service is answered as its first request. */
  method FirstRequestAfterNewService(n: int, m: int, token: string, now: int) returns (r: Response)
    requires token != "" && Space !in token
    ensures r == if n >= 1 || m <= 0 then Forward(token) else Fail(TooManyRequests(m))
  {
    var s := new Service.NewService("env", n, m);
    BearerHeaderAccepted(token);
    r := s.Serve("Bearer " + token, now);
  }

  /** A Go map value: the nil map (the zero value) or a made map with its contents. */
  datatype GoMap = NilMap | MadeMap(contents: map<string, Entry>)

  /** The cache as `NewService` leaves it: the field is never set, so it is nil. */
  function NewServiceCacheAsWritten(): GoMap {
    NilMap
  }

  /** Go's `cache[token] = e`: a nil map makes the assignment panic (None). */
  function AssignAsWritten(cache: GoMap, token: string, e: Entry): Option<GoMap> {
    match cache
    case NilMap => None
    case MadeMap(contents) => Some(MadeMap(contents[token := e]))
  }

  /** Reading a map: a nil map holds no entry, a made one holds what was assigned into it. */
  function LookupAsWritten(cache: GoMap, token: string): (r: Option<Entry>)
    ensures cache.NilMap? ==> r.None?
    ensures cache.MadeMap? ==> (r.Some? <==> token in cache.contents)
    ensures cache.MadeMap? && token in cache.contents ==> r == Some(cache.contents[token])
  {
    match cache
    case NilMap => None
    case MadeMap(contents) => Lookup(contents, token)
  }

  /**
   * The request path of `CheckLimitsMiddlware` on the cache as a Go map:
   * look the token up, insert a new entry for an unseen token (which panics,
   * None, on a nil map), then count and decide through the entry's pointer.
   */
  function CheckLimitsAsWritten(cache: GoMap, n: int, m: int, token: string, now: int): (r: Option<(GoMap, Decision)>)
    ensures r.None? <==> cache.NilMap?
  {
    var found := LookupAsWritten(cache, token);
    var inserted := if found.None? then AssignAsWritten(cache, token, Entry(0, now + m)) else Some(cache);
    if inserted.None? then None
    else
      var t := Step(found, n, m, now);
      Some((MadeMap(inserted.value.contents[token := t.entry]), t.decision))
  }

  /** On a made map the request path is exactly the transition `Admit` performs. */
  lemma CheckLimitsAsWrittenOnMadeMap(c: map<string, Entry>, n: int, m: int, token: string, now: int)
    ensures CheckLimitsAsWritten(MadeMap(c), n, m, token, now) ==
      var t := Step(Lookup(c, token), n, m, now);
      Some((MadeMap(c[token := t.entry]), t.decision))
  {
    var t := Step(Lookup(c, token), n, m, now);
    assert c[token := Entry(0, now + m)][token := t.entry] == c[token := t.entry];
  }

  /** As written, the first request of any token after `NewService` panics at the insert. */
  lemma FirstRequestPanicsAsWritten(n: int, m: int, token: string, now: int)
    ensures LookupAsWritten(NewServiceCacheAsWritten(), token).None?
    ensures CheckLimitsAsWritten(NewServiceCacheAsWritten(), n, m, token, now).None?
  {
  }
}
