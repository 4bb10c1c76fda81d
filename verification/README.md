# A model of the OAuth 2.0 / OpenID Connect server

This project models the authorization server of the repository: the authorize endpoint, the four grants
of the token endpoint, revocation, bearer validation and UserInfo, the expiring stores behind them with
their background cleanup, the scope language, the token endpoint's rate limiter, and the redaction of
logged request bodies.

**How it is built.** `Server.dfy`, `Expiry.dfy`, `Scope.dfy`, `RateLimit.dfy` and `Redaction.dfy` hold the
imperative side: classes whose maps are updated in place and methods with the loops and the order of
steps of the Go code. Each such method is tied to a function: `Protocol.dfy` says, for the state a request
finds, what it answers and which net change it makes. `World.dfy` puts these together into runs: any
sequence of requests, client registrations, user updates and single sweep steps, under a clock that never
goes back and a random source that never repeats itself. A run is recorded moment by moment: the world an
event found, the event, and its answer. The theorems are about all such runs.

**What the theorems say, hardest first.**

* *Refresh rotation* (`Lineage.dfy`). A lineage is a chain of token responses, each obtained with the
  refresh token of the one before, starting at a code or password grant. Every refresh token lies on
  exactly one lineage, lineages never branch, at most one refresh token per grant is stored at any time,
  an exchanged token is never accepted again, client and user never change, and the scope never grows when
  the grant's scope string is not empty. Section 6 of RFC 6749 forbids growth without that condition; the
  code allows it, and `RefreshCannotWidenIff` gives the exact condition.
* *Revocation* (`Revocation.dfy`). Revoking the current refresh token of a lineage ends the whole lineage,
  with one exact exception, because tokens are deterministic at whole-second precision: an access token the
  lineage issued is accepted after the revocation exactly when its exp is ahead and an event outside the
  lineage minted the same string again after it was removed, and nothing has deleted it on purpose since
  (`LineageRevoked`). Removal in a later second than the token's iat is therefore final
  (`LaterRevocationFinal`). A hint that names the wrong kind makes revocation a no-op, which section 2.1 of
  RFC 7009 does not allow; `RevocationEffectiveIff` is the exact condition.
* *Expiry* (`Sweeps.dfy`). Lookups that delete expired records and sweeps that check and delete in separate
  steps are unobservable: every lookup and every answer equals that of a server that never deletes an
  expired record.
* *Access tokens* (`Access.dfy`). Stored record and signed claims always agree, an ID token is never
  accepted as a bearer token, a bearer token is accepted exactly when some event minted it, none has deleted
  it on purpose since and its exp second is ahead, deletion is permanent, and only a request authenticated as a client touches its live tokens.
* *Authorization codes* (`Codes.dfy`). A code is redeemed exactly when it should be, at most once, and
  everything in the answer comes from one authorize event at most 60 seconds earlier.
* *Requests* (`Requests.dfy`, `Decisions.dfy`, `Accounts.dfy`). For each kind of request, which answer is given
  exactly when, in terms of secrets, password hashes, sets of scope values and the clock: the error is that of
  the first check to fail. Over runs, the record a client or user was last registered with decides every later
  request. The code flow completes for an honest client, and a refresh token works exactly when it should, for
  exactly the scope asked for. A refused request costs no live token, with one exception: a refresh that passes every check
  deletes the presented token before the new pair is generated, so a failing signer or random source loses it.
* *Scopes and users* (`Registration.dfy`, `Identity.dfy`). Scopes stay inside the registration, openid
  tokens name known users, every claim of an ID token is what it should be, UserInfo answers exactly the
  tokens with openid and agrees with the ID token (section 5.3.2 of OpenID Connect Core 1.0).
* *Rate limiter* (`RateLimit.dfy`). Decisions for one key equal those of a counter that sees that key
  alone; a closed interval of k >= 1 windows' length holds at most (k + 1) * max(1, limit) - 1 allowed calls,
  and some trace attains that; the table's size is bounded.
* *Redaction* (`Redaction.dfy`). Two parsed bodies redact alike exactly when they differ only below sensitive keys.
* *Exceptions shown* (`Examples.dfy`). Four concrete runs: a refresh that widens an empty scope, a revocation
  with a wrong hint that revokes nothing, a refresh token lost to a failing signer, and a revoked access token
  that is accepted again.

**Reading the model.** A token string is `AccessJwt(...)`, `IdJwt(...)` or `Opaque(text)`: signing is
deterministic, so equal claims give equal strings. Requests may present any token whatsoever, including
signed ones that were never issued; no statement relies on signatures being unforgeable. `s256` and
`passwordMatches` are arbitrary functions. Time is in nanoseconds; `Unix` rounds down to the second. An
`Env` carries what one request observes: the time, the drawn random string (or its failure), and whether
signing succeeds. A record is stored as an `Entry`, its value together with its expiry instant.

**Where code and documents differ.** The repository's comments call "RFC 9728" the text of OAuth 2.1; it is
not, and the model follows the code. Its README presents the empty-challenge branch of the PKCE check as a
compatibility path; `StoredCodesDemandPkce` shows that no stored code ever takes it. Section 12.2 of OpenID
Connect Core 1.0 wants the auth_time of an ID token issued by a refresh to be that of the original login; the
code gives the time of the refresh, as `IdTokenExactly` states.

## Model

| member | source | states |
|---|---|---|
| Lineage.OneStoredPerGrant | internal/server/grant.go:220-265 | at any time a code or password grant has at most one refresh token in the store, the last of its lineage: every other lineage of the grant up to then is a prefix |
| Lineage.ExchangedOnce | internal/server/grant.go:226-251 | a refresh token that was exchanged once is gone and is never accepted again in any continuation |
| Lineage.HasLineage | internal/server/grant.go:61-98 | every response with a refresh token ends a chain of exchanges that starts at a code or password grant |
| Lineage.LineageUnique | internal/server/grant.go:220-265 | that chain is unique |
| Lineage.LineagesNest | internal/server/grant.go:248-251 | chains from the same grant never branch |
| Lineage.ScopeNeverWidens | internal/server/grant.go:235-246 | over any number of refreshes client and user stay, and no scope value appears that a non-empty original scope did not have |
| Lineage.RefreshCannotWidenIff | internal/server/store.go:304-318 | a refresh can never widen the scope exactly when the original scope string is non-empty or the client's registration is non-empty but names no scope value |
| Examples.RefreshWidensFromEmpty | internal/server/store.go:305-307 | a run of two requests, a password grant with no scope and a refresh asking for "admin", in which the scope grows |
| Lineage.RotationReplaces | internal/server/grant.go:248-251 | a successful refresh replaces exactly the presented refresh token and the access token issued with it |
| Lineage.IssuerOf | internal/server/store.go:202-218 | every stored refresh record is the unchanged record of one earlier response |
| Lineage.PairAt | internal/server/grant.go:184-217 | a response carries a refresh token exactly when the grant was not client_credentials |
| Lineage.AbsentForGood | internal/server/token.go:86-88 | an issued refresh token that is absent stays absent |
| Revocation.LineageRevoked | internal/server/server.go:111-146 | after the current refresh token of a lineage is revoked, an access token of the lineage is accepted exactly when its exp is ahead and an event outside the lineage, later than the one that removed the token, minted the same string again and nothing has deleted it on purpose since |
| Revocation.LaterRevocationFinal | internal/server/server.go:111-146 | an access token of a revoked lineage that was removed in a later second than its iat is never accepted again |
| Revocation.SameTokenSameSecond | internal/server/token.go:34-54 | two events mint the same access token only in the same second, for the same client and scope |
| Examples.RevokedTokenReturns | internal/server/token.go:35-44 | a run of four requests in which an access token whose lineage was revoked is accepted again, after a second password grant in the same second |
| Revocation.RevocationEffectiveIff | internal/server/server.go:111-146 | revoking one's own live token succeeds, and removes it from both maps exactly when the hint does not name the other kind |
| Revocation.RevokedExactlyWhen | internal/server/server.go:104-147 | a revocation is refused exactly for an unregistered client or when the hint leads to another client's live token; in every other case it answers success, and it removes no live token unless it names one of the client's own |
| Examples.WrongHintKeepsToken | internal/server/server.go:121-128 | a run of three requests in which a revocation with the hint of the other kind answers success and the refresh token is exchanged afterwards |
| Revocation.RevokedNeverExchanged | internal/server/server.go:112-120 | a revoked refresh token is never exchanged |
| Revocation.ExchangeRemovesAccess | internal/server/grant.go:249-251 | an exchange removes the previous access token of the lineage unless it mints the same string again |
| Sweeps.ExpiryUnobservable | internal/server/store.go:149-218 | for any interleaving of requests, lazy deletes and split sweep steps, every answer is that of a server that never deletes expired records |
| Sweeps.LookupsUnobservable | internal/server/store.go:118-129 | and every lookup in every store finds what it would find there |
| Sweeps.SweepRemovesOnlyExpired | internal/server/store.go:89-107 | the delayed delete of a sweep never removes a live record |
| Sweeps.ExpiredIsCollected | internal/server/store.go:89-107 | from any run that ends with an expired record, the check and the delete of a sweep remove that record and nothing else |
| Sweeps.HandleDependsOnLive | internal/server/store.go:118-129 | answers and changes depend on live records only |
| Sweeps.SameViewAlways | internal/server/store.go:149-174 | the real and the never-deleting server show the same live records after every run |
| Sweeps.HasReference | internal/server/store.go:149-174 | the never-deleting server has a course for every run |
| Sweeps.RoundUnobservable | internal/server/store.go:149-174 | a whole round of the cleanup loops taken at once changes no live record and leaves exactly the records a lookup still finds |
| Access.BearerExactly | internal/server/server.go:86-102 | in a reachable state a bearer token is accepted exactly when it is stored and its exp is ahead; the record equals its claims; ID tokens are never accepted |
| Access.RemintKeepsRecord | internal/server/grant.go:73-80 | minting a token string again keeps client, user and scope and the expiry second |
| Access.AcceptedExactlyWhen | internal/server/server.go:86-102 | at any event a bearer token is accepted exactly when it is an access token whose exp is ahead, some earlier event minted it, and no event since deleted it on purpose; unsigned or expired strings are invalid, all other refused ones unknown |
| Access.LastMint | internal/server/store.go:180-200 | every stored access token has a mint after which nothing deleted it on purpose |
| Access.BearerLifetime | internal/server/token.go:34-54 | a token not deleted on purpose is accepted exactly until its exp second, more than 7199 s and at most 7200 s after issue; the response announces exp minus iat |
| Access.RefreshLifetime | internal/server/store.go:207-218 | a refresh token nobody exchanges or revokes is found for exactly 24 hours |
| Access.AbsentForever | internal/server/server.go:95-98 | an access token absent in a second later than its iat is never accepted again |
| Access.BackOnlyByMint | internal/server/token.go:35-44 | an access token comes back only by being minted again in its own second for the same client, user and scope |
| Access.Isolation | internal/server/server.go:111-146 | while nobody gives a client's secret or revokes as it, its live tokens change only by expiring, whatever requests name it |
| Access.OthersUntouched | internal/server/grant.go:231-251 | a grant or revocation leaves the live tokens of every client but the authenticated one as they were |
| Access.WhoDeletes | internal/server/grant.go:248-249 | an access token is deleted on purpose only as its own client, by naming it or its live refresh token |
| Access.AccessKept | internal/server/store.go:153-159 | a live access record survives every event that does not delete it on purpose |
| Codes.CodeProvenance | internal/server/grant.go:101-144 | every redeemed code comes from one authorize event at most 60 s earlier with the same client, redirect URI, user, scope, nonce and auth time, a registered redirect URI and a matching challenge |
| Codes.RedeemedOnce | internal/server/grant.go:107-112 | a code yields at most one token pair |
| Codes.PresentedOnce | internal/server/grant.go:112-124 | a code presented by any authenticated client, even in vain, is never redeemed afterwards |
| Codes.RedeemedExactlyWhen | internal/server/grant.go:107-133 | the first presentation of a code succeeds exactly when time, client, redirect URI and verifier are right, the scope's values are still registered and the pair can be made |
| Codes.AuthorizerOf | internal/server/authorize.go:92-117 | every stored code is the unchanged record of one earlier authorize event |
| Registration.ScopesStayInside | internal/server/store.go:280-302 | with fixed well-formed registrations every stored scope stays inside the client's registered scopes |
| Registration.RevalidationNeverFails | internal/server/grant.go:126-128 | the "no longer permitted" error and the scope error of a refresh without scope never occur |
| Identity.OpenidNamesKnownUser | internal/server/grant.go:184-218 | every stored openid token names a user that exists |
| Identity.UserAlwaysFound | internal/service/userinfo_service.go:29-33 | UserInfo never answers user_not_found when authorize requests carry IDs returned by a login |
| Identity.UserInfoAgreesWithIdToken | internal/service/userinfo_service.go:35-46 | UserInfo reports the subject, name, email and email_verified of the ID token issued with the access token |
| Identity.IdTokenExactly | internal/server/token.go:56-84 | a response holds an ID token exactly when openid is granted to a user and the signer works; its issuer, audience, subject, times, email, name, nonce and auth_time are the right ones |
| Identity.UserInfoExactly | internal/service/userinfo_service.go:19-46 | an accepted token is refused for lack of openid exactly when its scope claim does not hold it, and else reports the user of its sub claim as far as the scope claim allows |
| Identity.IssuedSubject | internal/server/grant.go:190-217 | client_credentials gives no refresh token, no ID token, no openid and no user; every other grant names a known user |
| Identity.LoggedInIsKnown | internal/service/auth_service.go:36-45 | an ID returned by a login is known and stays known |
| Scope.FieldSplit | internal/server/store.go:259-274 | the loop returns the maximal space-free runs in order |
| Scope.FieldsDistribute | internal/server/store.go:242-253 | splitting distributes over a separating space |
| Scope.SplitJoinRoundTrip | internal/server/store.go:285-287 | splitting the joined form of any list of scope values gives the list back |
| Scope.SplitSpaces | internal/server/store.go:242-253 | dropping empty parts drops nothing |
| Scope.ContainsScope | internal/server/store.go:233-240 | membership in the set of scope values |
| Scope.ValidateClientScope | internal/server/store.go:280-302 | the granted scope, or refusal of a value that is not registered |
| Scope.IsScopeNarrowed | internal/server/store.go:304-318 | inclusion of scope sets, or an empty original |
| Scope.PermittedInsideRegistration | internal/server/store.go:280-302 | a granted scope lies inside a well-formed registration and is granted again unchanged |
| Scope.DefaultScopeRevalidates | internal/server/store.go:285-299 | for any registration the default scope is accepted again exactly when each of its values is registered |
| Scope.DefaultScopeNotRevalidated | internal/server/store.go:285-299 | a registration whose own default scope is refused |
| Scope.NarrowedComposes | internal/server/store.go:304-318 | a scope narrows to itself, and narrowing composes through a middle scope exactly when that is not the empty string |
| World.InvAlways | internal/server/grant.go:73-90 | every reachable state is well-formed and keys doomed by a sweep can never be stored again |
| World.RunsExtend | internal/server/grant.go:31-44 | any request, registration or sweep step that the clock and the random source allow may come next in a run |
| World.AccessOrigin | internal/server/grant.go:73-80 | a new access record is the one the event's response announces |
| World.RefreshOrigin | internal/server/grant.go:82-90 | a new refresh record is the one the event's response announces, under a fresh random string |
| World.CodeOrigin | internal/server/authorize.go:98-110 | a new code record is made from the authorize request of the event |
| Requests.ExchangedExactlyWhen | internal/server/grant.go:220-265 | a refresh token issued earlier and not exchanged or revoked since is exchanged exactly when at most 24 hours have passed, its own client gives its secret and may use the grant, it asks for registered values inside the issued scope or for nothing, and the pair can be made; it gets the scope asked for |
| Requests.NarrowerScopeGranted | internal/server/store.go:304-318 | a refresh that asks for registered values among those granted gets exactly what it asks for; one that asks for nothing gets the same scope again |
| Requests.AuthenticatedExactlyWhen | internal/server/grant.go:48-57 | authentication fails exactly when the client is unregistered or the secret another one, and the grant is refused exactly when the authentic client may not use it, for each of the four grants; exactly the requests for any other grant are unsupported |
| Requests.IssuedToAuthentic | internal/server/grant.go:48-57 | every token response of a run went to a request with the secret of a registered client that may use the grant |
| Accounts.SecretDecides | internal/server/server.go:45-52 | after a client is registered, and until it is registered again, its token requests are authenticated exactly when they give that secret |
| Accounts.PasswordDecides | internal/service/auth_service.go:36-45 | after a user is stored, and until another one is stored under that name, a password grant in order succeeds exactly when the password matches that user's hash, and is for that user |
| Accounts.UserInfoReportsLastStored | internal/model/model.go:37-42 | UserInfo reports the record last stored under the ID in the sub claim |
| Accounts.ClientStays | internal/server/store.go:63-74 | the last registration of a client is the one in force |
| Requests.AuthorizedExactlyWhen | internal/server/authorize.go:33-117 | which of the eight answers an authorize request gets, each exactly when |
| Requests.CodeExactlyWhen | internal/server/grant.go:101-144 | which answer a code grant gets, each exactly when |
| Requests.PasswordExactlyWhen | internal/server/grant.go:146-182 | which answer a password grant gets, each exactly when: credentials are refused exactly when no user of the name has a hash the password matches |
| Requests.ClientCredentialsExactlyWhen | internal/server/grant.go:184-218 | which answer a client_credentials grant gets, each exactly when; openid is never granted |
| Requests.RefreshExactlyWhen | internal/server/grant.go:220-265 | which answer a refresh gets, each exactly when, and the scope issued |
| Decisions.PermittedExactly | internal/server/store.go:280-302 | the scope decision as inclusion of sets: everything registered for an empty request, and exactly the request otherwise |
| Decisions.RefreshedExactly | internal/server/grant.go:235-246 | the scope decision of a refresh as inclusion of sets |
| Requests.HonestCodeFlowCompletes | internal/server/grant.go:101-144 | with registered scopes unchanged, a correct authorize request followed within 60 s by a correct first presentation of the code always yields a token pair |
| Requests.RefusalsKeepTokensIff | internal/server/grant.go:231-254 | a refused request of any kind leaves every live token in place exactly when it is not a refresh whose checks all hold |
| Examples.FailingSignerLosesToken | internal/server/grant.go:248-254 | a run of three requests in which a refresh that passes every check fails in the signer, and the retry finds the refresh token gone |
| Requests.RefusedRefreshKeepsTokensIff | internal/server/grant.go:221-254 | a refused refresh leaves all live tokens in place exactly when the client may not use the grant, the token is not live or not its own, or the scope is not allowed |
| Requests.StoredCodesDemandPkce | internal/server/pkce.go:9-21 | for every stored code the PKCE check is the hash comparison; the empty-challenge branch is unreachable |
| RateLimit.NonInterference | internal/middleware/middleware.go:100-114 | on any trace with cleanups anywhere, the decisions for a key are those of a counter that sees only its calls |
| RateLimit.RateBound | internal/middleware/middleware.go:103-113 | a closed interval of k >= 1 windows' length holds at most (k + 1) * max(1, limit) - 1 allowed calls of one key, an instant at most max(1, limit) |
| RateLimit.RateBoundAttained | internal/middleware/middleware.go:103-113 | for every limit and every k up to the window in nanoseconds some trace of calls attains that bound |
| RateLimit.WindowsApart | internal/middleware/middleware.go:105-109 | windows of a key start strictly more than a window apart, even when cleanups forget them in between |
| RateLimit.WindowsBound | internal/middleware/middleware.go:103-113 | from an open window on, the allowed calls until j windows after its end are at most what it has left plus j full windows |
| RateLimit.InsertionBound | internal/middleware/middleware.go:105-110 | after an insertion the table holds at most max(maxVisitors, open windows) keys |
| RateLimit.FullTableBoundIff | internal/middleware/middleware.go:106-109 | inserting into a full table keeps it within maxVisitors exactly when fewer than maxVisitors windows are open |
| RateLimit.MaxVisitorsIsNoBound | internal/middleware/middleware.go:105-110 | whatever maxVisitors is, one more distinct visitor than that in one window exceeds it |
| RateLimit.RateLimiter.Allowed | internal/middleware/middleware.go:100-114 | the in-place visitor table and the decision are those of the window function |
| RateLimit.RateLimiter.CleanupLocked | internal/middleware/middleware.go:241-247 | the loop keeps exactly the open windows |
| RateLimit.RateLimiter.Cleanup | internal/middleware/middleware.go:249-256 | one round of the background cleaner keeps exactly the open windows |
| Redaction.RedactsExactlySecrets | internal/middleware/middleware.go:211-232 | two bodies redact to the same value exactly when they differ only below sensitive keys |
| Redaction.RedactIdempotent | internal/middleware/middleware.go:211-232 | redacting twice is redacting once |
| Redaction.OtherPathsKept | internal/middleware/middleware.go:219-230 | a path without a sensitive key selects the same thing, redacted |
| Redaction.SecretPathsHidden | internal/middleware/middleware.go:216-217 | a path ending at a sensitive key selects the marker and nothing lies below it |
| Redaction.RedactJson | internal/middleware/middleware.go:211-232 | the recursion over maps and lists computes the redaction |
| Redaction.RedactForm | internal/middleware/middleware.go:198-208 | the loop over form values computes the redaction |
| Redaction.FormRedactsExactlySecrets | internal/middleware/middleware.go:198-208 | two forms are logged alike exactly when they have the same keys and agree on every key that is not sensitive |
| Redaction.FormHidesExactlySecrets | internal/middleware/middleware.go:22-30 | exactly the values of the six secret parameters are replaced |
| Server.Server.HandleAuthorize | internal/server/authorize.go:33-117 | the checks and the stored code give the answer and net change of Authorize |
| Server.Server.HandleToken | internal/server/grant.go:31-44 | dispatch over the grants |
| Server.Server.HandleGrantCode | internal/server/grant.go:101-144 | lookup, deletion before the checks, and issue give the answer and net change of GrantCode |
| Server.Server.HandleGrantPassword | internal/server/grant.go:146-182 | likewise for GrantPassword |
| Server.Server.HandleGrantClientCredentials | internal/server/grant.go:184-218 | likewise for GrantClientCredentials |
| Server.Server.HandleGrantRefresh | internal/server/grant.go:220-265 | checks, then deletion of both old tokens, then issue, give the answer and net change of GrantRefresh |
| Server.Server.IssueTokenPair | internal/server/grant.go:61-98 | both tokens are stored or, when one cannot be made, neither |
| Server.Server.ValidateAndAuthenticate | internal/server/grant.go:48-57 | the client exists, its secret matches and the grant type is allowed |
| Server.Server.GenerateIDToken | internal/server/token.go:56-84 | the claims built up conditionally are those of IdToken |
| Server.Server.RevokeToken | internal/server/server.go:104-147 | the branches over the hint give the answer and net change of Revoke |
| Server.Server.ValidateBearerToken | internal/server/server.go:86-102 | the check and the lookup give the answer and net change of Bearer |
| Server.Server.GetUserInfo | internal/service/userinfo_service.go:19-46 | the fields set conditionally are those of UserInfoFor |
| Server.Server.ValidateRedirectURI | internal/server/authorize.go:119-129 | the search finds a non-empty URI exactly when it is registered |
| Server.Server.IsGrantTypeAllowed | internal/server/store.go:22-29 | the search finds the grant type exactly when it is listed |
| Server.Server.ShouldIncludeIDToken | internal/server/store.go:276-278 | openid is granted and there is a user |
| Server.UserStore.Set | internal/model/model.go:37-42 | both indexes are updated and stay consistent |
| Expiry.AuthCodeStore.Get | internal/server/store.go:118-129 | the live record; an expired one is deleted on the way |
| Expiry.AuthCodeStore.Sweep | internal/server/store.go:89-107 | one round keeps exactly the live codes |
| Expiry.TokenStore.GetAccessToken | internal/server/store.go:185-196 | the live record; an expired one is deleted on the way |
| Expiry.TokenStore.GetRefreshToken | internal/server/store.go:207-218 | the live record; an expired one is deleted on the way |
| Expiry.TokenStore.Sweep | internal/server/store.go:149-174 | one round keeps exactly the live tokens of both kinds |
| Expiry.ChangeKeepsSameLive | internal/server/store.go:185-196 | whether a lookup deletes what has expired cannot be seen by a later lookup |

## Left out

- Two requests interleaving: each request is one atomic step that reads the clock once. Two exchanges of one code or refresh token that overlap between lookup and delete are not modelled.
- Text encoding: strings are sequences of characters. Byte strings that are not valid UTF-8, which JSON encoding would rewrite before signing, are not modelled.
- Signatures, SHA-256, base64, bcrypt and the JWT wire format: foreign code, represented by an injective token constructor and arbitrary functions.
- HTTP, cookies, sessions, CORS, Basic authentication parsing, the "Bearer " prefix and the mapping of errors to HTTP statuses: plumbing around the calls modelled here. Revocation is modelled from the point where the client has been authenticated.
- Descriptions of errors and the error code each is sent with, the constant token type "Bearer" and the avatar of a user: text that no decision of the server reads.
- A server without a user store: it never issues ID tokens; NewServer is always given a store.
- IsRedirectURIRegistered: it decides whether logout may redirect to a URI, by the same search as validateRedirectURI over one client or all of them. It changes no store and no token request uses it, so no theorem depends on it.
- Logged data that is never redacted: a JSON body that does not parse is logged as it came (internal/middleware/middleware.go:152), and so is the query string (line 169).
- RateLimit.RateBoundAttained: for more windows than a window has nanoseconds the bound is not claimed to be attained.
- Discovery, JWKS, Swagger, key loading and the web front end: constants and wiring.
- Expiry.TokenStore.Sweep: one round over both maps at once; its interleaving with requests is modelled by the separate check and delete steps of World.
- Lineage.ScopeNeverWidens: says nothing about a grant with the empty scope string, because the code then accepts any refresh scope; RefreshCannotWidenIff gives the exact condition.
