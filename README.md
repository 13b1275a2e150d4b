# OpenIG authentication filters, modelled in Dafny

This project models the two authentication filters of the OpenIG gateway and proves
properties of the model:

- **HTTP Basic authentication** (`HttpBasicAuthFilter`, section 2 of RFC 2617), in
  `basic_auth.dfy`. The filter first removes any `Authorization` field the client sent.
  It then sends the request downstream with the credential cached in the client's session
  for the target server, if there is one. The cache key is built from the scheme, host and
  port. On a 401 answer the filter re-evaluates the configured username and password:
  - if usable, it caches their base64 user-pass and retries once;
  - if either is missing, the exchange goes to the failure handler, whose answer replaces
    the 401, and the 401's entity is closed;
  - a username whose first colon comes after its first character makes the filter throw
    (a username that begins with a colon passes the check; see "Findings").

  An answer other than 401 is returned with its `WWW-Authenticate` fields removed.
- **OpenAM SSO token** (`SsoTokenFilter`), in `sso_token.dfy`. The filter puts an SSO token
  into a configured header (`iPlanetDirectoryPro` by default) and sends the request
  downstream. The token is cached in the session under the key `SSOToken`. When there is
  none, it is obtained by POSTing an empty JSON object, carrying the `X-OpenAM-Username`
  and `X-OpenAM-Password` fields, to `json<realm>/authenticate` next to OpenAM's URL.
  An authentication answer that parses as JSON has its `tokenId` stored under that key,
  a missing one as null. On a 401 answer the filter drops the cached token, obtains a new
  one and sends the request once more; that answer is returned as it is. Without a token
  the answer is a 500.

The supporting files:

- `wrappers.dfy`: `Option`.
- `text.dfy`: `indexOf`, UTF-8 encoding, the decimal rendering of an `int`, Java's
  rendering of a `null` string.
- `base64.dfy`: base64 as in section 4 of RFC 4648, with its round trip.
- `headers.dfy`: the header multimap, with case-insensitive names and `add`, `put` and
  `remove`.
- `http.dfy`: URIs, bodies with replayable streams, requests, responses, the session, the
  exchange and the two kinds of downstream handler.

Requests and responses are values, because the model records a snapshot of what each
handler call received. The Basic filter's exchange, the session, entity streams, the
handlers and the SSO filter's request object are classes updated in place. Handlers are
scripted oracles. The k-th call of a handler gets the answer `reply(k)`, and the handler
logs what each call received. The filters' `filter` methods are proved against
specification functions of those answers:
- Basic: `LoopExit`, `Sent` and `Attempts`;
- SSO: `Expected`, built from `Obtain`, `Execute` and `Recheck`.

The lemmas state the promised properties of those functions.

The filter models follow the code as written, including the three places where it looks
wrong (see "Findings"). The intended behaviour of each is defined beside it and its
property proved there: `LegalUsername` for the colon check, `AuthorizeCorrected` for
attaching the credential, and the `Intended` extraction of the SSO filter (`AfterExtractCorrected`),
with which `Expected` can also be run.

Behaviour of the code worth knowing, all of it modelled:
- Basic: after a 401 the cached credential is not removed first. It is overwritten when
  usable credentials are found and left in place otherwise (`HttpBasicAuthFilter.java:139-151`).
- Basic: only the last response before the failure handler has its entity closed. The
  first 401's entity is not closed before the retry (`HttpBasicAuthFilter.java:111-156`).
- SSO: the cache key is the fixed `SSOToken`, with neither server nor realm in it
  (`SsoTokenFilter.java:59`).
- SSO: the answer to the retry is returned unchecked, even a 401. There is no failure
  handler (`SsoTokenFilter.java:121-122`).
- SSO: a missing token yields a 500 (`SsoTokenFilter.java:106-109`).
- SSO: no challenge header is removed from the answer (`SsoTokenFilter.java:124`).
- SSO: the inbound value of the token header is not stripped; `put` replaces it
  (`SsoTokenFilter.java:104`).

## Model

Source paths are relative to the repository root.

| member | source | states |
|---|---|---|
| Text.IndexOf | openig-core/src/main/java/org/forgerock/openig/filter/HttpBasicAuthFilter.java:144 | `indexOf` is -1 exactly when the character is absent, else the index of its first occurrence |
| Text.JavaString | openig-core/src/main/java/org/forgerock/openig/filter/HttpBasicAuthFilter.java:96-97 | string concatenation renders a present string as itself and null as "null", so a null host and the host "null" give the same key |
| Text.DecimalStringInjective | openig-core/src/main/java/org/forgerock/openig/filter/HttpBasicAuthFilter.java:97 | different ports have different decimal renderings in the key |
| Text.Utf8Concat | openig-core/src/main/java/org/forgerock/openig/filter/HttpBasicAuthFilter.java:151 | `getBytes()` of a concatenation is the concatenation of the encodings |
| Text.Utf8Ascii | openig-core/src/main/java/org/forgerock/openig/filter/HttpBasicAuthFilter.java:151 | the colon octet occurs in the encoding exactly when ':' occurs in the text |
| Base64.Encode | openig-core/src/main/java/org/forgerock/openig/filter/HttpBasicAuthFilter.java:151 | the encoding has 4 characters per started 3 octets, all from the alphabet or padding |
| Base64.EncodeDecode | openig-core/src/main/java/org/forgerock/openig/filter/HttpBasicAuthFilter.java:151 | decoding the encoding of any octets gives them back |
| Headers.RemoveAllMembers | openig-core/src/main/java/org/forgerock/openig/filter/HttpBasicAuthFilter.java:108 | `headers.remove(set)` keeps exactly the fields whose name is not in the set |
| Headers.ValuesAfterRemove | openig-core/src/main/java/org/forgerock/openig/filter/HttpBasicAuthFilter.java:128 | after removing a name it has no value left; every other name keeps its values |
| Headers.AddValues | openig-core/src/main/java/org/forgerock/openig/filter/HttpBasicAuthFilter.java:122 | `add` appends one value after the name's existing ones; other names unchanged |
| Headers.PutValues | openig-openam/src/main/java/org/forgerock/openig/openam/SsoTokenFilter.java:104 | after `put` the value is the name's only value; other names unchanged |
| Headers.PutTwice | openig-openam/src/main/java/org/forgerock/openig/openam/SsoTokenFilter.java:104 | a second `put` of a name leaves the same fields as that put alone |
| Http.Lookup | openig-core/src/main/java/org/forgerock/openig/filter/HttpBasicAuthFilter.java:119 | `session.get` is null for an absent key and the stored value otherwise |
| Http.ParseJson | openig-openam/src/main/java/org/forgerock/openig/openam/SsoTokenFilter.java:154 | an in-memory JSON entity yields its members, an absent entity does not parse |
| Http.Stream.Branch | openig-core/src/main/java/org/forgerock/openig/filter/HttpBasicAuthFilter.java:116 | `trunk.branch()` is a new open stream over the trunk's content, with the trunk as parent |
| Http.Stream.Close | openig-core/src/main/java/org/forgerock/openig/filter/HttpBasicAuthFilter.java:154-156 | `entity.close()` leaves the stream closed |
| Http.ExchangeHandler.Handle | openig-core/src/main/java/org/forgerock/openig/filter/HttpBasicAuthFilter.java:125 | `next.handle(exchange)` logs the call and sets the exchange's response to the scripted answer |
| Http.RequestHandler.Handle | openig-openam/src/main/java/org/forgerock/openig/openam/SsoTokenFilter.java:105 | `next.handle(context, request)` logs the request and returns the scripted answer |
| HttpBasicAuth.AttributeName | openig-core/src/main/java/org/forgerock/openig/filter/HttpBasicAuthFilter.java:95-98 | the key is the filter's class name, a colon, the server part and `:userpass`; `SharedCacheEntry` states which server it names |
| HttpBasicAuth.KeyParts | openig-core/src/main/java/org/forgerock/openig/filter/HttpBasicAuthFilter.java:95-98 | a key `prefix:s:h:p:userpass` determines colon-free `s` and `p`, and then `h` |
| HttpBasicAuth.KeyDeterminesServer | openig-core/src/main/java/org/forgerock/openig/filter/HttpBasicAuthFilter.java:95-98 | equal cache keys mean the same scheme, host and port |
| HttpBasicAuth.SharedCacheEntry | openig-core/src/main/java/org/forgerock/openig/filter/HttpBasicAuthFilter.java:95-98 | two requests share a cache entry if and only if they go to the same scheme, host and port |
| HttpBasicAuth.CredentialDecodes | openig-core/src/main/java/org/forgerock/openig/filter/HttpBasicAuthFilter.java:150-151 | the cached credential (`Credential`) base64-decodes to the UTF-8 octets of user ":" pass |
| HttpBasicAuth.LegalUsername | openig-core/src/main/java/org/forgerock/openig/filter/HttpBasicAuthFilter.java:143-148 | intended check: a username passes if and only if it has no colon |
| HttpBasicAuth.PassesColonCheckAsWritten | openig-core/src/main/java/org/forgerock/openig/filter/HttpBasicAuthFilter.java:144 | the check the filter applies passes a username with no colon or with a leading one |
| HttpBasicAuth.LegalUsernameSplitsBack | openig-core/src/main/java/org/forgerock/openig/filter/HttpBasicAuthFilter.java:143-151 | intended: with a colon-free username a server splitting at the first colon reads back exactly that user-id and password |
| HttpBasicAuth.AsWrittenCheckAdmitsLeadingColon | openig-core/src/main/java/org/forgerock/openig/filter/HttpBasicAuthFilter.java:144-151 | ":x" passes the check as written and a server then reads user-id "" and password "x:p" |
| HttpBasicAuth.CredentialsStripped | openig-core/src/main/java/org/forgerock/openig/filter/HttpBasicAuthFilter.java:108 | `headers.remove(SUPPRESS_REQUEST_HEADERS)` (`StripCredentials`) leaves no `Authorization` value and adds no field; every name other than `Authorization` keeps its values in order; the fields kept are exactly those not named `Authorization` |
| HttpBasicAuth.StripChallenge | openig-core/src/main/java/org/forgerock/openig/filter/HttpBasicAuthFilter.java:128 | the returned response keeps the status and entity the server sent |
| HttpBasicAuth.ChallengeStripped | openig-core/src/main/java/org/forgerock/openig/filter/HttpBasicAuthFilter.java:128 | the returned response has no `WWW-Authenticate` value; every header name other than `WWW-Authenticate` keeps the values the server sent |
| HttpBasicAuth.Authorize | openig-core/src/main/java/org/forgerock/openig/filter/HttpBasicAuthFilter.java:122 | `headers.add`: every existing field is kept and `Authorization: Basic <userpass>` follows them |
| HttpBasicAuth.AuthorizeValues | openig-core/src/main/java/org/forgerock/openig/filter/HttpBasicAuthFilter.java:122 | the credential becomes the last `Authorization` value, after those already attached; other names unchanged |
| HttpBasicAuth.AuthorizeCorrected | openig-core/src/main/java/org/forgerock/openig/filter/HttpBasicAuthFilter.java:122 | intended `headers.put`: `Basic <userpass>` is the one `Authorization` value; other names unchanged |
| HttpBasicAuth.RetryCarriesOnlyFreshCredential | openig-core/src/main/java/org/forgerock/openig/filter/HttpBasicAuthFilter.java:119-123 | intended: with `put`, the retry's headers equal a first attempt's carrying the fresh credential alone |
| HttpBasicAuth.AsWrittenRetryCarriesStaleCredential | openig-core/src/main/java/org/forgerock/openig/filter/HttpBasicAuthFilter.java:119-123 | as written, the retry carries the stale and the fresh credential, stale first |
| HttpBasicAuth.AttemptCarriesCachedCredential | openig-core/src/main/java/org/forgerock/openig/filter/HttpBasicAuthFilter.java:108-123 | the first attempt carries the cached credential as its one `Authorization` value (none if nothing cached); other fields are the inbound ones |
| HttpBasicAuth.SecondAttemptHeaders | openig-core/src/main/java/org/forgerock/openig/filter/HttpBasicAuthFilter.java:119-123 | the retry, built on the first attempt's request, carries the credential cached before the exchange (if any) and then the fresh one; other fields are the inbound ones |
| HttpBasicAuth.Evaluate | openig-core/src/main/java/org/forgerock/openig/filter/HttpBasicAuthFilter.java:136-151 | null username or password is missing; a username whose first colon comes after its first character is refused; otherwise the credential of that user and password is cached |
| HttpBasicAuth.EvaluateCases | openig-core/src/main/java/org/forgerock/openig/filter/HttpBasicAuthFilter.java:143-151 | the cached credential decodes to user ":" pass; a server reads them back when the username has no colon, and an empty user-id when it begins with one |
| HttpBasicAuth.Judge | openig-core/src/main/java/org/forgerock/openig/filter/HttpBasicAuthFilter.java:127-151 | the loop caches and retries only with usable credentials |
| HttpBasicAuth.LoopExitCases | openig-core/src/main/java/org/forgerock/openig/filter/HttpBasicAuthFilter.java:111-152 | at most two attempts; the second exactly after a 401 with usable credentials; passes if and only if a non-401 came back; throws if and only if 401 and the username's first colon comes after its first character |
| HttpBasicAuth.AttemptsCredentials | openig-core/src/main/java/org/forgerock/openig/filter/HttpBasicAuthFilter.java:108-125 | the server sees the cached credential on the first attempt, the cached and then the fresh one on the retry, and every other inbound field |
| HttpBasicAuth.Exhausted | openig-core/src/main/java/org/forgerock/openig/filter/HttpBasicAuthFilter.java:111-152 | after two refreshes the loop ends and the exchange is diverted with the retry's answer |
| HttpBasicAuth.HttpBasicAuthFilter.constructor | openig-core/src/main/java/org/forgerock/openig/filter/HttpBasicAuthFilter.java:86-87 | the failure handler is the one configured |
| HttpBasicAuth.HttpBasicAuthFilter.Attempt | openig-core/src/main/java/org/forgerock/openig/filter/HttpBasicAuthFilter.java:114-125 | one downstream call with a fresh branch of the trunk and the cached credential added to the request's headers |
| HttpBasicAuth.HttpBasicAuthFilter.Round | openig-core/src/main/java/org/forgerock/openig/filter/HttpBasicAuthFilter.java:114-151 | an attempt and its verdict; the session changes only on a refresh, by caching the fresh credential |
| HttpBasicAuth.HttpBasicAuthFilter.Pass | openig-core/src/main/java/org/forgerock/openig/filter/HttpBasicAuthFilter.java:111-152 | pass n keeps the loop invariant on a refresh and otherwise ends the loop as `LoopExit` says |
| HttpBasicAuth.HttpBasicAuthFilter.Retry | openig-core/src/main/java/org/forgerock/openig/filter/HttpBasicAuthFilter.java:106-152 | the loop ends as `LoopExit` says, after the calls `Sent` describes, with the last answer in the exchange |
| HttpBasicAuth.HttpBasicAuthFilter.Conclude | openig-core/src/main/java/org/forgerock/openig/filter/HttpBasicAuthFilter.java:126-161 | returns the challenge-stripped answer, throws on a refused username, or closes the last entity and hands the exchange to the failure handler; no other stream is closed |
| HttpBasicAuth.HttpBasicAuthFilter.Filter | openig-core/src/main/java/org/forgerock/openig/filter/HttpBasicAuthFilter.java:105-161 | the whole exchange: exit, downstream calls, session and outcome as the specification functions give them |
| SsoToken.StartsWithSlash | openig-openam/src/main/java/org/forgerock/openig/openam/SsoTokenFilter.java:88-91 | the kept realm is "/" for null, the realm itself if it starts with '/', else "/" + realm |
| SsoToken.StartsWithSlashIdempotent | openig-openam/src/main/java/org/forgerock/openig/openam/SsoTokenFilter.java:88-91 | normalising a normalised realm changes nothing |
| SsoToken.SsoTokenFilter.constructor | openig-openam/src/main/java/org/forgerock/openig/openam/SsoTokenFilter.java:72-86 | the realm is normalised, the header name defaults to `iPlanetDirectoryPro` |
| SsoToken.Directory | openig-openam/src/main/java/org/forgerock/openig/openam/SsoTokenFilter.java:170 | the base path up to and including its last slash, with no slash after it |
| SsoToken.CollapseSlashes | openig-openam/src/main/java/org/forgerock/openig/openam/SsoTokenFilter.java:170 | the normalisation of the merged path leaves no slash after a slash and keeps the first character |
| SsoToken.CollapseKeepsCharacters | openig-openam/src/main/java/org/forgerock/openig/openam/SsoTokenFilter.java:170 | only slashes are dropped: every other character of the path stays, in order |
| SsoToken.CollapseNormal | openig-openam/src/main/java/org/forgerock/openig/openam/SsoTokenFilter.java:170 | a path without redundant slashes is left as it is |
| SsoToken.CollapseIdempotent | openig-openam/src/main/java/org/forgerock/openig/openam/SsoTokenFilter.java:170 | normalising a normalised path changes nothing |
| SsoToken.CollapseDouble | openig-openam/src/main/java/org/forgerock/openig/openam/SsoTokenFilter.java:170 | two slashes in a row normalise like one, wherever they are |
| SsoToken.CollapseConcat | openig-openam/src/main/java/org/forgerock/openig/openam/SsoTokenFilter.java:170 | normalising distributes over a concatenation whose seam is not two slashes |
| SsoToken.Resolve | openig-openam/src/main/java/org/forgerock/openig/openam/SsoTokenFilter.java:170 | `openamUrl.resolve(ref)`: same scheme, host and port; the path, the base's directory followed by `ref`, has no redundant slashes, and is that merge unchanged when it had none |
| SsoToken.PutValueValues | openig-openam/src/main/java/org/forgerock/openig/openam/SsoTokenFilter.java:172-173 | putting a possibly-null value leaves that value (or none) for the name; other names unchanged |
| SsoToken.CredentialFieldsValues | openig-openam/src/main/java/org/forgerock/openig/openam/SsoTokenFilter.java:168-173 | the username field holds the username, the password field the password, nothing else |
| SsoToken.AuthenticationRequestShape | openig-openam/src/main/java/org/forgerock/openig/openam/SsoTokenFilter.java:167-175 | a POST of `{}` to `<directory>json<realm>/authenticate` on OpenAM's server, with its redundant slashes dropped, and with only the two credential fields |
| SsoToken.RealmTrailingSlashIgnored | openig-openam/src/main/java/org/forgerock/openig/openam/SsoTokenFilter.java:169-170 | a realm ending in "/" asks the same endpoint as the realm without that slash |
| SsoToken.DefaultRealmPath | openig-openam/src/main/java/org/forgerock/openig/openam/SsoTokenFilter.java:169-170 | with the default realm "/" the request goes to `json/authenticate` in OpenAM's directory, not `json//authenticate` |
| SsoToken.TokenId | openig-openam/src/main/java/org/forgerock/openig/openam/SsoTokenFilter.java:151-155 | the token is present exactly when the answer parses and has a `tokenId` member, and is that member |
| SsoToken.AfterExtract | openig-openam/src/main/java/org/forgerock/openig/openam/SsoTokenFilter.java:151-161 | a parsed answer's token is stored under `SSOToken`, null included; an unparsable answer changes nothing; no other key changes |
| SsoToken.AfterExtractCorrected | openig-openam/src/main/java/org/forgerock/openig/openam/SsoTokenFilter.java:155-156 | intended: only a present token is stored; an answer without one leaves the session as it was |
| SsoToken.Obtain | openig-openam/src/main/java/org/forgerock/openig/openam/SsoTokenFilter.java:133-140 | at most one authentication request, and none exactly when the session has the key |
| SsoToken.WithToken | openig-openam/src/main/java/org/forgerock/openig/openam/SsoTokenFilter.java:104 | the request sent has the original verb, URI and entity |
| SsoToken.Execute | openig-openam/src/main/java/org/forgerock/openig/openam/SsoTokenFilter.java:102-110 | at most one downstream call, and none exactly when there is no token |
| SsoToken.Recheck | openig-openam/src/main/java/org/forgerock/openig/openam/SsoTokenFilter.java:113-126 | a non-401 is returned as it is with nothing more asked; after a 401 exactly one authentication, at most one more call, and the session is the extraction over the session without its entry |
| SsoToken.Expected | openig-openam/src/main/java/org/forgerock/openig/openam/SsoTokenFilter.java:128-130 | at most two downstream calls and two authentication requests per exchange, all of them the filter's own |
| SsoToken.WithTokenValues | openig-openam/src/main/java/org/forgerock/openig/openam/SsoTokenFilter.java:104 | the request sent carries the token as the header's one value, and every other field of the original |
| SsoToken.RetryCarriesNewToken | openig-openam/src/main/java/org/forgerock/openig/openam/SsoTokenFilter.java:104 | putting the new token over the old leaves the request as if only the new one had been put |
| SsoToken.CachedTokenUsed | openig-openam/src/main/java/org/forgerock/openig/openam/SsoTokenFilter.java:133-136 | a cached token is sent as it is (a cached null yields 500, no call, session unchanged); authentication happens if and only if a 401 came back |
| SsoToken.UncachedTokenRequested | openig-openam/src/main/java/org/forgerock/openig/openam/SsoTokenFilter.java:137-139 | without an entry the exchange starts with an authentication and sends its token, or answers 500 and keeps an entry exactly when the answer parsed |
| SsoToken.AcceptedAnswerReturned | openig-openam/src/main/java/org/forgerock/openig/openam/SsoTokenFilter.java:124 | an answer other than 401 is returned unchanged after exactly one downstream call |
| SsoToken.NoTokenNoCall | openig-openam/src/main/java/org/forgerock/openig/openam/SsoTokenFilter.java:106-109 | without a token there is no downstream call and the answer is 500 |
| SsoToken.UnauthorizedRetriedOnce | openig-openam/src/main/java/org/forgerock/openig/openam/SsoTokenFilter.java:118-123 | after a 401 the token is dropped and renewed once; the retry carries the new token alone and its answer is returned, or 500 without a token, with a null entry exactly when the answer parsed |
| SsoToken.NullTokenNeverCached | openig-openam/src/main/java/org/forgerock/openig/openam/SsoTokenFilter.java:155-156 | intended extraction: no exchange caches a null token, and one that got no token leaves no entry |
| SsoToken.AsWrittenNullTokenSticks | openig-openam/src/main/java/org/forgerock/openig/openam/SsoTokenFilter.java:155-156 | as written, a parsed answer without `tokenId` caches null: that exchange and every later one answer 500, the later ones with no call and no new authentication |
| SsoToken.SsoTokenFilter.ExtractSsoToken | openig-openam/src/main/java/org/forgerock/openig/openam/SsoTokenFilter.java:147-164 | returns the answer's token and leaves the session as `AfterExtract` gives it |
| SsoToken.SsoTokenFilter.CreateSsoToken | openig-openam/src/main/java/org/forgerock/openig/openam/SsoTokenFilter.java:142-145 | sends the filter's authentication request once and extracts the token of its answer |
| SsoToken.SsoTokenFilter.FindSsoToken | openig-openam/src/main/java/org/forgerock/openig/openam/SsoTokenFilter.java:133-140 | the cached token when the session has the key, a new one otherwise, as `Obtain` gives it |
| SsoToken.SsoTokenFilter.ExecuteRequestWithToken | openig-openam/src/main/java/org/forgerock/openig/openam/SsoTokenFilter.java:98-111 | puts the token in the request object and sends it, or answers 500, as `Execute` gives it |
| SsoToken.SsoTokenFilter.CheckResponse | openig-openam/src/main/java/org/forgerock/openig/openam/SsoTokenFilter.java:113-126 | a non-401 is returned; after a 401 the session entry is removed, a token created and the request sent again, as `Recheck` gives it |
| SsoToken.SsoTokenFilter.Filter | openig-openam/src/main/java/org/forgerock/openig/openam/SsoTokenFilter.java:93-131 | the answer, session, authentication requests, downstream requests and final request object are those of `Expected` |

## Left out

- Logging and timing (the filters' `Logger` and `LogTimer`) are not modelled: they have no
  effect on the exchange.
- Concurrency is not modelled. Exchanges of one client share a session, so two in-flight
  exchanges can both refresh a credential. The model runs one exchange at a time.
- The SSO filter's promises and asynchronous functions are modelled as calls made in
  sequence. `NeverThrowsException` means no failure path is lost.
- The username and password expressions are inputs, `None` standing for a `null` result.
  In the Basic filter they are `Filter`'s parameters. The source evaluates them at each 401;
  they are taken to yield the same value each time, so the model evaluates them once per
  exchange. In the SSO filter they are fixed values of the filter, so its authentication
  request is built once, in the constructor.
- The heaplets that build the filters from configuration are not part of this model.
  `checkNotNull` on the SSO handler and URL becomes Dafny's non-null types.
- The scripted handlers change only their own log and the exchange's response. The model
  takes the downstream handler, the failure handler and the SSO client handler to leave the
  request, its headers and entity, and the session as they found them, although in the source
  they get the same mutable objects that the retry reuses. `AttemptsCredentials`,
  `SecondAttemptHeaders` and `UnauthorizedRetriedOnce` (the retry's other fields are the
  inbound ones) hold under that assumption.
- Exceptions other than the Basic filter's colon check are not modelled: an `IOException`
  or a `HandlerException` from the handlers.
- JSON: an authentication answer that is JSON but not an object, or whose `tokenId` is not
  a string, throws a `ClassCastException` in the source, and the JSON literal `null` a
  `NullPointerException` at `result.get`. It is not modelled; the model reads
  a JSON entity as an object with string members.
- URIs carry only scheme, host, port and path. `URI.resolve` is modelled as the merge of a
  relative path with the base's directory, normalised by collapsing runs of slashes.
  Dot-segment removal, queries, fragments, absolute references and opaque base URIs are not
  modelled.
- `setEntity` on the authentication request may add a `Content-Type` field; that field is
  not modelled.
- `getBytes()` is taken to use UTF-8 as the platform charset.
- Reading stream contents, and branching a closed trunk, are not modelled. Entities are
  only branched and closed.
- SsoToken.SsoTokenFilter.Filter: requires `next != ssoClientHandler`. The case where the
  downstream handler is also the authentication handler is left out.
- SsoToken.SsoTokenFilter.CheckResponse: requires `next != ssoClientHandler`, for the same
  reason.
- HttpBasicAuth.HttpBasicAuthFilter.Filter: requires `next != failureHandler`. It does not
  restate which entity streams may change. `Conclude` states it: only the entity of the last
  answer, on the failure path, is closed.
- HttpBasicAuth.HttpBasicAuthFilter.Round: the credentials are passed in already
  evaluated, rather than evaluated after each 401.

## Findings

| source | as written | input that shows it | evidently intended | confidence | as-written member | corrected member |
|---|---|---|---|---|---|---|
| openig-core/src/main/java/org/forgerock/openig/filter/HttpBasicAuthFilter.java:144 | `user.indexOf(':') > 0` refuses a username only when its first colon comes after its first character | username ":x", password "p": the check passes, and a server splitting at the first colon reads user-id "" and password "x:p" | refuse every username that contains a colon (`indexOf(':') >= 0`), as the error message says | high, not executed | HttpBasicAuth.AsWrittenCheckAdmitsLeadingColon | HttpBasicAuth.LegalUsernameSplitsBack |
| openig-core/src/main/java/org/forgerock/openig/filter/HttpBasicAuthFilter.java:122 | `headers.add("Authorization", ...)` on every pass of the loop, on the same request | session caching a stale credential "s", first answer 401, re-evaluated credential "r": the retry carries `Basic s` and then `Basic r` | the retry carries only the fresh credential (`headers.put`) | high, not executed | HttpBasicAuth.AsWrittenRetryCarriesStaleCredential | HttpBasicAuth.RetryCarriesOnlyFreshCredential |
| openig-openam/src/main/java/org/forgerock/openig/openam/SsoTokenFilter.java:155-156 | the parsed answer's `tokenId` is put in the session even when it is null, and `containsKey` (line 135) then finds it | authentication answer `{}`: null is cached; every later exchange of that client answers 500, with no downstream call and no new authentication | cache only a token that is there, so the next exchange authenticates again | medium (depends on the session keeping null values), not executed | SsoToken.AsWrittenNullTokenSticks | SsoToken.NullTokenNeverCached |

In each row the filter model is the code as written; the corrected member states the
intended property of the definition placed beside it (`LegalUsername`, `AuthorizeCorrected`,
`AfterExtractCorrected`).
