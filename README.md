# Per-token request throttler, modelled in Dafny

The throttler stands in front of the `/v1/` routes of a small HTTP service.
Each request passes two middlewares in order:

1. `ValidateAccessToken` reads the `Authorization` header. It accepts only
   `<scheme> <token>`, split on single spaces, where the scheme is "bearer"
   in any letter case and the token is non-empty. Every other header gets
   401 "Missing access token".
2. `CheckLimitsMiddlware` counts the request against the token's
   fixed-window counter. The throttler keeps a map from token to an entry
   holding `counter` and `endTime`, and two fixed settings: `N`, the
   requests allowed per window, and `M`, the window length in milliseconds.
   - An unseen token gets counter 0 and `endTime = now + M`.
   - The counter is then incremented.
   - A counter within `N` is admitted.
   - Otherwise, before `endTime` the request gets 429 with the time left.
   - Otherwise a new window starts with counter 1 and the request is admitted.

The project has one module per concern:

- `Wrappers` (wrappers.dfy): `Option` and `Result`.
- `Errors` (errors.dfy): the three error answers and their status codes.
- `Auth` (auth.dfy): the header parser. It is a pure function.
  - Go's `strings.Split` is modelled as `Split`, and its inverse `Join`.
  - The parser is specified by `BearerForm`, an independent description of
    an acceptable header.
- `Limiter` (limiter.dfy): the counter.
  - The spec function `Step` is one request.
  - `Run` is a sequence of requests of one token.
  - The class `Throttler` has the constant settings `N` and `M` and a
    `cache: map<string, Entry>` field. Its method `Admit` updates the map in
    place and is proved equal to `Step` on the requesting token's entry
    only.
- `Middleware` (middleware.dfy): the header middleware `ValidateAccessToken`
  as a function, and the `Service` class with `NewService`, the limit
  middleware `CheckLimits` and the `/v1/` chain `Serve`. The scenarios of
  the repository's tests are restated as verified methods that build a
  `Service` and call it.

Time is an integer number of milliseconds passed in as `now`, in place of
`time.Now()`. Go's monotonic clock reading makes nondecreasing `now` values
the natural assumption where a property needs one (`RetryAfterBounds`).

Three behaviours of the code are modelled as they are:

- `N = 0` does not block a token for good. The reset branch
  (middleware.go:98-102) does not look at `N` again, so the first request
  at or after `endTime` is admitted. See `ZeroLimitAdmitsAfterWindow`.
- The counter grows on every rejected request, because the increment
  (middleware.go:88) comes before the check. See `OverLimitInWindow` and
  `InWindowRun`.
- Once a window has ended, requests are still admitted without a reset while
  the counter stays within `N`. Only the first over-limit request after
  `endTime` opens a new window (middleware.go:92-99). See `WithinLimit`
  and `OpensWindow`.

## Model

| member | source | states |
|---|---|---|
| Auth.Split | middleware.go:50 | splitting on a separator yields at least one piece, and no piece contains the separator |
| Auth.Lower | middleware.go:51 | lowercasing keeps the length, turns each ASCII capital into its small letter (code + 32) and keeps every other character |
| Auth.SchemeIgnoringCase | middleware.go:51 | a string lowercases to "bearer" exactly when it has six characters, each the small or capital form of the matching letter of "bearer", so the scheme check is equality ignoring case |
| Auth.SplitJoin | middleware.go:50 | joining the pieces of a split with the separator gives back the original header |
| Auth.JoinSplit | middleware.go:50 | splitting the join of separator-free pieces gives back exactly those pieces, so the split is the unique such decomposition |
| Auth.ParseAuthorization | middleware.go:43-60 | an accepted header forwards a non-empty, space-free token that is the header after its first seven characters; which headers are accepted is pinned down by `ParseAuthorizationIff` |
| Auth.ParseAuthorizationIff | middleware.go:43-60 | the header is accepted with token t exactly when it is six characters lowercasing to "bearer", one space, then t, with t non-empty and space-free; otherwise it is refused |
| Auth.ParseNoHeader | middleware.go:43-47 | the header is refused as missing exactly when it is empty |
| Auth.BearerHeaderAccepted | middleware.go:56-62 | "Bearer " followed by a non-empty, space-free token forwards exactly that token |
| Auth.EmptyBearerRefused | middleware.go:56-60 | "Bearer " followed by nothing is refused as an empty token |
| Limiter.Step | middleware.go:79-102 | after one request the counter is at least 1; an admitted request is within N unless it opened a new window (1, now + M); a rejection carries a positive time left that ends at the entry's endTime; its runs are pinned down by `InWindowRun` and `WindowAdmitsAtMostN` |
| Limiter.UnseenToken | middleware.go:79-99 | an unseen token ends up with counter 1 and endTime now + M; it is admitted when N >= 1 or M <= 0, and otherwise rejected with M left |
| Limiter.WithinLimit | middleware.go:88-102 | when the incremented counter is at most N, the request is admitted, the counter grows by one and endTime is unchanged |
| Limiter.OverLimitInWindow | middleware.go:88-96 | over the limit before endTime, the request is rejected with endTime - now > 0 left; the counter stays incremented and endTime is unchanged |
| Limiter.OverLimitAfterWindow | middleware.go:92-102 | over the limit at or after endTime, the counter becomes 1, endTime becomes now + M and the request is admitted |
| Limiter.RejectedIff | middleware.go:88-102 | a known token's request is rejected if and only if its incremented counter exceeds N while now < endTime |
| Limiter.ZeroLimitFirstRejected | middleware.go:79-96 | with N <= 0 and M > 0, the very first request of a token is rejected with M left |
| Limiter.ZeroLimitAdmitsAfterWindow | middleware.go:92-102 | with N = 0, a request at or after endTime is still admitted and opens a new window |
| Limiter.InWindowRun | middleware.go:88-96 | requests before endTime never renew the window: the counter grows by their number, endTime is kept, and the i-th is admitted exactly when counter + i + 1 <= N, otherwise rejected with endTime - now |
| Limiter.InWindowAllowedCount | middleware.go:88-102 | before endTime, a token whose counter is c has exactly clamp(N - c, 0, k) of its next k requests admitted |
| Limiter.WindowAdmitsAtMostN | middleware.go:79-102 | with N >= 1, among the requests of a newly opened window that come before its end, exactly the first N are admitted, so at most N, and the (N+1)-th is rejected |
| Limiter.RetryAfterBounds | middleware.go:84-99 | for nondecreasing request times, every rejection carries a time left in (0, M] |
| Limiter.Throttler.constructor | types.go:26-31 | a throttler holds the given N and M and starts with no cached token |
| Limiter.Throttler.Admit | middleware.go:77-101 | the token's entry becomes Step of its old entry (inserting an unseen token), the decision is Step's, the key set grows by that token only, and every other entry is unchanged; since every cached counter is at least 1, with N = 0 a request at or after endTime is admitted and opens the window (1, now + M) |
| Middleware.ValidateAccessToken | middleware.go:41-65 | a refused header gets 401 "Missing access token", and an accepted one has the bearer form with the forwarded token |
| Middleware.ValidateAccessTokenIff | middleware.go:43-62 | the middleware forwards token t exactly when the header has the bearer form with t |
| Middleware.RespondDecisionOf | middleware.go:92-102 | the response to a decision decodes back to that decision, so admitted and rejected requests (with their time left) are told apart; every rejection is a 429 |
| Middleware.RespondInjective | middleware.go:92-102 | two decisions answered with the same response for the same token are equal |
| Middleware.Service.NewService | types.go:14-22 | the service keeps the environment and a new throttler with N = n, M = m and an empty cache |
| Middleware.Service.CheckLimits | middleware.go:70-105 | with no token the answer is 500 and the cache is unchanged; with a token, the request is counted by Admit and answered by Respond, from which `RespondDecisionOf` recovers the decision |
| Middleware.Service.Serve | cmd/bcg.challenge.throttler/main.go:65-69 | a request whose header is refused gets 401 and takes no slot in the cache; an accepted one is counted under its own token |
| Middleware.AlternatingScenario | middleware_test.go:131-191 | with N = 1 and M = 50, a request, an immediate retry, a retry M later, an immediate retry and a retry M later get ok, 429, ok, 429, ok |
| Middleware.ZeroLimitScenario | middleware_test.go:73-90 | with N = 0 and M = 100, the first request gets 429 with 100 ms left |
| Middleware.FirstRequestAfterNewService | types.go:14-22 | on a service built by NewService, the first well-formed bearer request is answered as a first request: admitted when N >= 1 or M <= 0, otherwise 429 with M left |
| Middleware.LookupAsWritten | middleware.go:79 | a nil map holds no entry; a made map finds an entry exactly for its keys, and it is the entry stored under the token |
| Middleware.CheckLimitsAsWritten | middleware.go:77-101 | the handler's map work on a Go map value panics exactly when the map is nil |
| Middleware.CheckLimitsAsWrittenOnMadeMap | middleware.go:79-101 | on a made map, lookup, insert and the in-place update give exactly Step's new entry for the token and Step's decision, the transition `Admit` performs |
| Middleware.FirstRequestPanicsAsWritten | types.go:17-20 | with the cache as NewService leaves it, the first request of any token finds no entry and the handler panics at the insert |
| Errors.ApiError.Code | errors.go:9-10 | the missing access token and the 429 answer carry client-error codes, and the missing context token carries a server-error code |

## Findings

| source | as written | input that shows it | evidently intended | confidence | as-written member | corrected member |
|---|---|---|---|---|---|---|
| types.go:17-20 | `NewService` never sets `Throttler.cache`, so nil is left there. The first request's insert at middleware.go:81 then panics: Go forbids assignment into a nil map. | `NewService("prod", 10, 1000)`, then one request with header "Bearer abc" | the cache starts as an empty map, as in the tests, which pass their own `tokensCache{}` | high, not executed | Middleware.FirstRequestPanicsAsWritten | Middleware.FirstRequestAfterNewService |

## Left out

- `LoggingMiddleware` (logging and response metrics), the handlers, JSON
  encoding, the router, CORS, server start-up and configuration loading are
  I/O and plumbing. They are not part of this model. `Serve` models only
  the `/v1/` middleware order.
- The log line at middleware.go:90 and the `message` text `msg` records on
  the shared error values (errors.go:25-28) are logging only.
- The 429 message computes the time left as a float, `Seconds() * 1000`,
  printed with two decimals. The model carries the integer `endTime - now`
  in milliseconds.
- Concurrency: the cache is an unsynchronized Go map. The model treats each
  `Admit` as atomic and says nothing about races between requests.
- Integer widths: Go's `int64` counter and the `time.Duration(M) *
  time.Millisecond` product can overflow. The model uses unbounded integers,
  which agree with Go as long as nothing overflows.
- The entry is held by pointer in Go and updated through it. The model
  stores the entry as a value in the map. Each pointer is created for one
  token and never shared, so no aliasing is lost.
- `Auth.Lower` lowercases ASCII letters only, where `strings.ToLower` is
  Unicode-aware. Its result is only compared with "bearer", and no
  character outside A-Z lowercases to one of its letters, so the verdict is
  the same. Go splits bytes while the model splits characters. The
  separator is the ASCII space, so the pieces are the same.
- The declared value type `*Throttler` of `tokensCache` (types.go:5) does
  not match the `requester` records stored at middleware.go:81-85, and
  `requester` is not declared in the files shown. The model keys token to
  {counter, endTime}, as the middleware uses it.
- The unused `timer` field of `Throttler` (types.go:29) has no behaviour.
