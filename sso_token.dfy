/**
 * OpenAM SSO token propagation: the filter puts an SSO token in a configured request header
 * for the handlers downstream. The token is cached in the client's session under one fixed
 * key; when there is none it is obtained from OpenAM's authentication endpoint, and when the
 * downstream answer is 401 Unauthorized the cached token is dropped, a new one obtained and
 * the request sent once more. Without a token the answer is an internal server error.
 */
module SsoToken {
  import opened Wrappers
  import opened Text
  import opened Headers
  import opened Http

  /** The session attribute holding the cached token. */
  const SsoTokenKey := "SSOToken"
  const BaseEndpoint := "json"
  const AuthenticationEndpoint := "/authenticate"
  const DefaultHeaderName := "iPlanetDirectoryPro"
  const UsernameHeader := "X-OpenAM-Username"
  const PasswordHeader := "X-OpenAM-Password"
  /** The member of OpenAM's authentication answer that holds the token. */
  const TokenIdMember := "tokenId"
  const Unauthorized := 401
  /** What `newInternalServerError()` yields: status 500, no header field, no entity. */
  const InternalServerError := Response(500, [], NoBody)

  // ---------------------------------------------------------------------------
  // Configuration
  // ---------------------------------------------------------------------------

  /** Java's `s.startsWith(prefix)`. */
  predicate StartsWith(s: string, prefix: string)
  {
    |prefix| <= |s| && s[..|prefix|] == prefix
  }

  /**
   * The realm as the filter keeps it: never empty, always beginning with a slash, and the
   * configured realm itself whenever that already begins with one.
   */
  function StartsWithSlash(realm: Option<string>): (r: string)
    ensures |r| > 0 && r[0] == '/'
    ensures realm.None? ==> r == "/"
    ensures realm.Some? ==> r == realm.value || r == "/" + realm.value
    ensures realm.Some? && |realm.value| > 0 && realm.value[0] == '/' ==> r == realm.value
  {
    var nonNullRealm := realm.GetOr("/");
    if StartsWith(nonNullRealm, "/") then nonNullRealm else "/" + nonNullRealm
  }

  /** Normalising a normalised realm changes nothing. */
  lemma StartsWithSlashIdempotent(realm: Option<string>)
    ensures StartsWithSlash(Some(StartsWithSlash(realm))) == StartsWithSlash(realm)
  {
    var r := StartsWithSlash(realm);
    assert StartsWith(r, "/") by {
      assert r[..1] == [r[0]];
    }
  }

  // ---------------------------------------------------------------------------
  // The authentication request
  // ---------------------------------------------------------------------------

  /**
   * The directory part of a URI path: everything up to and including its last slash, or
   * nothing when it has none.
   */
  function Directory(path: string): (d: string)
    ensures |d| <= |path| && path[..|d|] == d
    ensures d == "" || d[|d| - 1] == '/'
    ensures '/' !in path[|d|..]
  {
    path[..LastIndexOf(path, '/') + 1]
  }

  /** A path in which no slash follows another. */
  predicate NoDoubleSlash(p: string)
  {
    forall i :: 0 <= i < |p| - 1 ==> !(p[i] == '/' && p[i + 1] == '/')
  }

  /**
   * The redundant slashes `URI.normalize` drops: every run of slashes becomes one. The
   * result has no slash after a slash and starts with the path's first character.
   */
  function CollapseSlashes(p: string): (r: string)
    ensures |r| <= |p| && NoDoubleSlash(r)
    ensures |p| > 0 ==> |r| > 0 && r[0] == p[0]
    decreases |p|
  {
    if |p| < 2 then p
    else if p[0] == '/' && p[1] == '/' then CollapseSlashes(p[1..])
    else
      var rest := CollapseSlashes(p[1..]);
      var r := [p[0]] + rest;
      assert forall i :: 1 <= i < |r| - 1 ==> r[i] == rest[i - 1] && r[i + 1] == rest[i];
      r
  }

  /** The characters of a path other than slashes, in order. */
  function Unslashed(p: string): string
  {
    if p == [] then [] else (if p[0] == '/' then [] else [p[0]]) + Unslashed(p[1..])
  }

  /** Collapsing drops only slashes: every other character stays, in its order. */
  lemma {:induction false} CollapseKeepsCharacters(p: string)
    ensures Unslashed(CollapseSlashes(p)) == Unslashed(p)
    decreases |p|
  {
    if |p| >= 2 {
      CollapseKeepsCharacters(p[1..]);
      if !(p[0] == '/' && p[1] == '/') {
        var r := [p[0]] + CollapseSlashes(p[1..]);
        assert r[1..] == CollapseSlashes(p[1..]);
      }
    }
  }

  /** A path without redundant slashes is left as it is. */
  lemma {:induction false} CollapseNormal(p: string)
    requires NoDoubleSlash(p)
    ensures CollapseSlashes(p) == p
    decreases |p|
  {
    if |p| >= 2 {
      assert !(p[0] == '/' && p[1] == '/');
      assert NoDoubleSlash(p[1..]) by {
        forall i | 0 <= i < |p[1..]| - 1 ensures !(p[1..][i] == '/' && p[1..][i + 1] == '/') {
          assert p[1..][i] == p[i + 1] && p[1..][i + 1] == p[i + 2];
        }
      }
      CollapseNormal(p[1..]);
      assert p == [p[0]] + p[1..];
    }
  }

  /** Collapsing twice is collapsing once. */
  lemma CollapseIdempotent(p: string)
    ensures CollapseSlashes(CollapseSlashes(p)) == CollapseSlashes(p)
  {
    CollapseNormal(CollapseSlashes(p));
  }

  /** Two slashes in a row collapse like one, wherever they are. */
  lemma {:induction false} CollapseDouble(x: string, y: string)
    ensures CollapseSlashes(x + "//" + y) == CollapseSlashes(x + "/" + y)
    decreases |x|
  {
    if x == [] {
      assert x + "//" + y == "/" + ("/" + y);
      assert ("/" + ("/" + y))[1..] == x + "/" + y;
    } else {
      var long, short := x + "//" + y, x + "/" + y;
      assert long[1..] == x[1..] + "//" + y && short[1..] == x[1..] + "/" + y;
      assert long[0] == short[0] && long[1] == short[1];
      CollapseDouble(x[1..], y);
    }
  }

  /**
   * Collapsing distributes over a concatenation whose seam is not two slashes. A `decreases`
   * on `a` carries the induction.
   */
  lemma {:induction false} CollapseConcat(a: string, b: string)
    requires !(|a| > 0 && |b| > 0 && a[|a| - 1] == '/' && b[0] == '/')
    ensures CollapseSlashes(a + b) == CollapseSlashes(a) + CollapseSlashes(b)
    decreases |a|
  {
    if |a| == 1 {
      if |b| > 0 {
        assert (a + b)[0] == a[0] && (a + b)[1] == b[0] && (a + b)[1..] == b;
      } else {
        assert a + b == a;
      }
    } else if |a| >= 2 {
      assert (a + b)[0] == a[0] && (a + b)[1] == a[1] && (a + b)[1..] == a[1..] + b;
      CollapseConcat(a[1..], b);
    } else {
      assert a + b == b;
    }
  }

  /**
   * `base.resolve(reference)` for a relative-path reference: the same server, and the
   * reference in place of the last segment of the base's path, with the merged path
   * normalised as far as redundant slashes go. The path is left as merged when the
   * merge has none.
   */
  function Resolve(base: Uri, reference: string): (u: Uri)
    ensures u.scheme == base.scheme && u.host == base.host && u.port == base.port
    ensures NoDoubleSlash(u.path)
    ensures NoDoubleSlash(Directory(base.path) + reference) ==> u.path == Directory(base.path) + reference
  {
    var merged := Directory(base.path) + reference;
    if NoDoubleSlash(merged) then CollapseNormal(merged); base.(path := CollapseSlashes(merged))
    else base.(path := CollapseSlashes(merged))
  }

  /** `headers.put(name, value)`, where a null value leaves no field of that name. */
  function PutValue(hs: seq<Header>, name: string, value: Option<string>): seq<Header>
  {
    if value.Some? then Put(hs, name, value.value) else RemoveAll(hs, [name])
  }

  /** The value a possibly-null string contributes to a header. */
  function ValuesOf(value: Option<string>): seq<string>
  {
    if value.Some? then [value.value] else []
  }

  /** The header fields of the authentication request: two puts into the empty fields of a new request. */
  function CredentialFields(username: Option<string>, password: Option<string>): seq<Header>
  {
    PutValue(PutValue([], UsernameHeader, username), PasswordHeader, password)
  }

  /** The request that asks OpenAM for a token, with what the username and password expressions yield. */
  function AuthenticationRequest(openamUrl: Uri, realm: string, username: Option<string>,
                                 password: Option<string>): Request
  {
    Request("POST", Resolve(openamUrl, BaseEndpoint + realm + AuthenticationEndpoint),
            CredentialFields(username, password), Json(map[]))
  }

  /** Putting a possibly-null value: the value (or none) for that name, the others unchanged. */
  lemma PutValueValues(hs: seq<Header>, name: string, value: Option<string>, n: string)
    ensures SameName(n, name) ==> Values(PutValue(hs, name, value), n) == ValuesOf(value)
    ensures !SameName(n, name) ==> Values(PutValue(hs, name, value), n) == Values(hs, n)
  {
    ValuesAfterRemove(hs, name, n);
    if value.Some? {
      ValuesConcat(RemoveAll(hs, [name]), [Header(name, value.value)], n);
      ValuesSingle(name, value.value, n);
    }
  }

  /** The username and the password header names are different names. */
  lemma CredentialNamesDiffer(n: string)
    ensures !(SameName(n, UsernameHeader) && SameName(n, PasswordHeader))
  {
    if SameName(n, UsernameHeader) {
      assert Lower(n[9]) == 'u';
    }
  }

  /** The username field holds what the username expression yields, the password field the password. */
  lemma CredentialFieldsValues(username: Option<string>, password: Option<string>, n: string)
    ensures SameName(n, UsernameHeader) ==> Values(CredentialFields(username, password), n) == ValuesOf(username)
    ensures SameName(n, PasswordHeader) ==> Values(CredentialFields(username, password), n) == ValuesOf(password)
    ensures !SameName(n, UsernameHeader) && !SameName(n, PasswordHeader) ==>
      Values(CredentialFields(username, password), n) == []
  {
    var first := PutValue([], UsernameHeader, username);
    PutValueValues([], UsernameHeader, username, n);
    PutValueValues(first, PasswordHeader, password, n);
    CredentialNamesDiffer(n);
  }

  /**
   * The authentication request is a POST of an empty JSON object to `json<realm>/authenticate`
   * next to OpenAM's URL; its only header fields are the username and the password, each
   * present exactly when its expression yields a value.
   */
  lemma AuthenticationRequestShape(openamUrl: Uri, realm: string, username: Option<string>,
                                   password: Option<string>)
    ensures var r := AuthenticationRequest(openamUrl, realm, username, password);
      r.verb == "POST" && r.body == Json(map[]) &&
      r.uri.scheme == openamUrl.scheme && r.uri.host == openamUrl.host && r.uri.port == openamUrl.port &&
      r.uri.path == CollapseSlashes(Directory(openamUrl.path) + "json" + realm + "/authenticate")
    ensures var r := AuthenticationRequest(openamUrl, realm, username, password);
      Values(r.headers, UsernameHeader) == ValuesOf(username) &&
      Values(r.headers, PasswordHeader) == ValuesOf(password)
    ensures var r := AuthenticationRequest(openamUrl, realm, username, password);
      forall n :: !SameName(n, UsernameHeader) && !SameName(n, PasswordHeader) ==> Values(r.headers, n) == []
  {
    forall n | !SameName(n, UsernameHeader) && !SameName(n, PasswordHeader)
      ensures Values(CredentialFields(username, password), n) == []
    {
      CredentialFieldsValues(username, password, n);
    }
    assert SameName(UsernameHeader, UsernameHeader) && SameName(PasswordHeader, PasswordHeader);
    CredentialFieldsValues(username, password, UsernameHeader);
    CredentialFieldsValues(username, password, PasswordHeader);
    var path := Directory(openamUrl.path) + (BaseEndpoint + realm + AuthenticationEndpoint);
    assert path == Directory(openamUrl.path) + "json" + realm + "/authenticate";
  }

  /** Where the realm sits in the merged path, with and without a trailing slash. */
  lemma EndpointSeams(d: string, realm: string)
    ensures d + (BaseEndpoint + (realm + "/") + AuthenticationEndpoint) == d + BaseEndpoint + realm + "//" + "authenticate"
    ensures d + (BaseEndpoint + realm + AuthenticationEndpoint) == d + BaseEndpoint + realm + "/" + "authenticate"
  {
  }

  /** Two references whose merged paths collapse alike resolve alike. */
  lemma ResolveByCollapse(base: Uri, a: string, b: string)
    requires CollapseSlashes(Directory(base.path) + a) == CollapseSlashes(Directory(base.path) + b)
    ensures Resolve(base, a) == Resolve(base, b)
  {
  }

  /** A realm that ends in a slash asks the same endpoint as the realm without it. */
  lemma RealmTrailingSlashIgnored(openamUrl: Uri, realm: string, username: Option<string>,
                                  password: Option<string>)
    ensures AuthenticationRequest(openamUrl, realm + "/", username, password) ==
            AuthenticationRequest(openamUrl, realm, username, password)
  {
    var d := Directory(openamUrl.path);
    EndpointSeams(d, realm);
    CollapseDouble(d + BaseEndpoint + realm, "authenticate");
    ResolveByCollapse(openamUrl, BaseEndpoint + (realm + "/") + AuthenticationEndpoint,
                      BaseEndpoint + realm + AuthenticationEndpoint);
  }

  /** The merged path of the default realm, and where its two slashes meet. */
  lemma DefaultSeams(d: string)
    ensures d + (BaseEndpoint + "/" + AuthenticationEndpoint) == d + "json" + "//" + "authenticate"
    ensures d + "json" + "/" + "authenticate" == d + "json/authenticate"
  {
  }

  /** The endpoint with a one-slash realm is already normal. */
  lemma DefaultEndpointNormal()
    ensures CollapseSlashes("json/authenticate") == "json/authenticate"
  {
    assert NoDoubleSlash("json/authenticate");
    CollapseNormal("json/authenticate");
  }

  /** The authentication request's path: the merged path with its redundant slashes dropped. */
  lemma AuthenticationPath(openamUrl: Uri, realm: string, username: Option<string>, password: Option<string>)
    ensures AuthenticationRequest(openamUrl, realm, username, password).uri.path ==
            CollapseSlashes(Directory(openamUrl.path) + (BaseEndpoint + realm + AuthenticationEndpoint))
  {
  }

  /**
   * With the default realm "/" the request goes to `json/authenticate` in the directory of
   * OpenAM's URL, with that directory's redundant slashes dropped.
   */
  lemma DefaultRealmPath(openamUrl: Uri, username: Option<string>, password: Option<string>)
    ensures AuthenticationRequest(openamUrl, "/", username, password).uri.path ==
            CollapseSlashes(Directory(openamUrl.path)) + "json/authenticate"
  {
    var d := Directory(openamUrl.path);
    AuthenticationPath(openamUrl, "/", username, password);
    DefaultSeams(d);
    CollapseDouble(d + "json", "authenticate");
    CollapseConcat(d, "json/authenticate");
    DefaultEndpointNormal();
  }

  // ---------------------------------------------------------------------------
  // The token
  // ---------------------------------------------------------------------------

  /**
   * The token an authentication answer carries: the `tokenId` member of its JSON object;
   * `None` (null) when the entity does not parse as JSON or has no such member.
   */
  function TokenId(answer: Response): (token: Option<string>)
    ensures token.Some? <==> ParseJson(answer.body).Some? && TokenIdMember in ParseJson(answer.body).value
    ensures token.Some? ==> token.value == ParseJson(answer.body).value[TokenIdMember]
  {
    match ParseJson(answer.body)
    case None => None
    case Some(members) => if TokenIdMember in members then Some(members[TokenIdMember]) else None
  }

  /**
   * The session after a token was extracted from `answer`: when the answer parses as JSON,
   * its token is stored under `SSOToken`, a null one included; otherwise nothing changes.
   * No other attribute changes either way.
   */
  function AfterExtract(attributes: map<string, Option<string>>, answer: Response)
    : (r: map<string, Option<string>>)
    ensures ParseJson(answer.body).None? ==> r == attributes
    ensures ParseJson(answer.body).Some? ==> SsoTokenKey in r && r[SsoTokenKey] == TokenId(answer)
    ensures forall k :: k != SsoTokenKey ==>
      (k in r <==> k in attributes) && (k in attributes ==> r[k] == attributes[k])
  {
    if ParseJson(answer.body).Some? then attributes[SsoTokenKey := TokenId(answer)] else attributes
  }

  /**
   * The session after extraction as intended (see "Findings"): only a token that is there
   * is stored, and an answer without one leaves the session as it was.
   */
  function AfterExtractCorrected(attributes: map<string, Option<string>>, answer: Response)
    : (r: map<string, Option<string>>)
    ensures TokenId(answer).None? ==> r == attributes
    ensures TokenId(answer).Some? ==> r == attributes[SsoTokenKey := TokenId(answer)]
  {
    if TokenId(answer).Some? then attributes[SsoTokenKey := TokenId(answer)] else attributes
  }

  /** Which extraction a run uses: the filter's own, or the intended one of "Findings". */
  datatype Caching = AsWritten | Intended

  function Store(caching: Caching, attributes: map<string, Option<string>>, answer: Response)
    : map<string, Option<string>>
  {
    match caching
    case AsWritten => AfterExtract(attributes, answer)
    case Intended => AfterExtractCorrected(attributes, answer)
  }

  /** No null token is cached in the session. */
  predicate NoNullToken(attributes: map<string, Option<string>>)
  {
    SsoTokenKey in attributes ==> attributes[SsoTokenKey].Some?
  }

  // ---------------------------------------------------------------------------
  // The filter, as a function of the handlers' answers
  // ---------------------------------------------------------------------------

  /** The token an exchange starts with, the session after getting it, and the authentication requests sent. */
  datatype Obtained = Obtained(token: Option<string>, attributes: map<string, Option<string>>,
                               asked: seq<Request>)

  /** `findSsoToken`: the cached entry when there is one (even a null one), else a new authentication. */
  function Obtain(caching: Caching, attributes: map<string, Option<string>>, authRequest: Request,
                  answer: Response): (o: Obtained)
    ensures |o.asked| <= 1 && (o.asked == [] <==> SsoTokenKey in attributes)
  {
    if SsoTokenKey in attributes then Obtained(attributes[SsoTokenKey], attributes, [])
    else Obtained(TokenId(answer), Store(caching, attributes, answer), [authRequest])
  }

  /** The downstream answer to one attempt, and the requests it sent downstream (none or one). */
  datatype Attempt = Attempt(response: Response, sent: seq<Request>)

  /** The request with `token` as the one value of the header `name`. */
  function WithToken(request: Request, name: string, token: string): (r: Request)
    ensures r.verb == request.verb && r.uri == request.uri && r.body == request.body
  {
    request.(headers := Put(request.headers, name, token))
  }

  /** `executeRequestWithToken`: the request goes downstream with the token, or 500 without one. */
  function Execute(token: Option<string>, request: Request, headerName: string, answer: Response): (e: Attempt)
    ensures |e.sent| <= 1 && (e.sent == [] <==> token.None?)
  {
    if token.Some? then Attempt(answer, [WithToken(request, headerName, token.value)])
    else Attempt(InternalServerError, [])
  }

  /** The request object's contents once `sent` were sent downstream from `request` on. */
  function Last(request: Request, sent: seq<Request>): Request
  {
    if |sent| == 0 then request else sent[|sent| - 1]
  }

  lemma LastConcat(request: Request, first: seq<Request>, rest: seq<Request>)
    ensures Last(request, first + rest) == Last(Last(request, first), rest)
  {
  }

  /** What an exchange leads to: the answer, the session, and the requests sent to each handler. */
  datatype Run = Run(response: Response, attributes: map<string, Option<string>>, asked: seq<Request>,
                     sent: seq<Request>)

  /**
   * `checkResponse`: an answer other than 401 is returned as it is, and nothing more is
   * asked; after a 401 the cached token is dropped, one new authentication made (its answer
   * is `answer`) and the request sent at most once more, whose answer (`downstream`) is
   * returned unchecked.
   */
  function Recheck(caching: Caching, response: Response, attributes: map<string, Option<string>>,
                   request: Request, headerName: string, authRequest: Request, answer: Response,
                   downstream: Response): (r: Run)
    ensures response.status != Unauthorized ==> r == Run(response, attributes, [], [])
    ensures response.status == Unauthorized ==>
      r.asked == [authRequest] && |r.sent| <= 1 &&
      r.attributes == Store(caching, attributes - {SsoTokenKey}, answer)
  {
    if response.status != Unauthorized then Run(response, attributes, [], [])
    else
      var retry := Execute(TokenId(answer), request, headerName, downstream);
      Run(retry.response, Store(caching, attributes - {SsoTokenKey}, answer), [authRequest], retry.sent)
  }

  /** What a scripted handler answers to its next two calls: at most two are made in one exchange. */
  datatype Replies = Replies(now: Response, later: Response)

  /** The answer to a call made after `k` (zero or one) earlier calls of the same exchange. */
  function Reply(replies: Replies, k: nat): Response
  {
    if k == 0 then replies.now else replies.later
  }

  /**
   * `filter`, as a function of the initial session and request and of the answers the
   * authentication handler (`auth`) and the downstream handler (`down`) give: `next` is
   * called at most twice, and so is the authentication endpoint, always with the same request.
   */
  function Expected(caching: Caching, attributes: map<string, Option<string>>, request: Request,
                    headerName: string, authRequest: Request, auth: Replies, down: Replies): (run: Run)
    ensures |run.sent| <= 2 && |run.asked| <= 2
    ensures forall r :: r in run.asked ==> r == authRequest
  {
    var first := Obtain(caching, attributes, authRequest, auth.now);
    var attempt := Execute(first.token, request, headerName, down.now);
    var rest := Recheck(caching, attempt.response, first.attributes, Last(request, attempt.sent), headerName,
                        authRequest, Reply(auth, |first.asked|), Reply(down, |attempt.sent|));
    Run(rest.response, rest.attributes, first.asked + rest.asked, attempt.sent + rest.sent)
  }

  /** `Expected` is its three steps run one after the other. */
  lemma Composition(caching: Caching, attributes: map<string, Option<string>>, request: Request,
                    headerName: string, authRequest: Request, auth: Replies, down: Replies, first: Obtained,
                    attempt: Attempt, rest: Run)
    requires first == Obtain(caching, attributes, authRequest, auth.now)
    requires attempt == Execute(first.token, request, headerName, down.now)
    requires rest == Recheck(caching, attempt.response, first.attributes, Last(request, attempt.sent), headerName,
                             authRequest, Reply(auth, |first.asked|), Reply(down, |attempt.sent|))
    ensures Expected(caching, attributes, request, headerName, authRequest, auth, down) ==
      Run(rest.response, rest.attributes, first.asked + rest.asked, attempt.sent + rest.sent)
  {
  }

  /** Each request sent downstream carries its token as the one value of the header, and every other field of the original. */
  lemma WithTokenValues(request: Request, name: string, token: string)
    ensures Values(WithToken(request, name, token).headers, name) == [token]
    ensures forall n :: !SameName(n, name) ==>
      Values(WithToken(request, name, token).headers, n) == Values(request.headers, n)
  {
    PutValues(request.headers, name, token);
  }

  /** The retry carries the new token alone: it is the original request with only that token put in. */
  lemma RetryCarriesNewToken(request: Request, name: string, stale: string, renewed: string)
    ensures WithToken(WithToken(request, name, stale), name, renewed) == WithToken(request, name, renewed)
  {
    PutTwice(request.headers, name, stale, renewed);
  }

  /**
   * A cached token is used as it is: the first attempt carries it (a cached null yields 500
   * and no call at all), and the authentication endpoint is called only after a 401.
   */
  lemma CachedTokenUsed(attributes: map<string, Option<string>>, request: Request, headerName: string,
                        authRequest: Request, auth: Replies, down: Replies)
    requires SsoTokenKey in attributes
    ensures var run := Expected(AsWritten, attributes, request, headerName, authRequest, auth, down);
      var cached := attributes[SsoTokenKey];
      (cached.Some? ==> |run.sent| >= 1 && run.sent[0] == WithToken(request, headerName, cached.value)) &&
      (cached.None? ==> run.response == InternalServerError && run.sent == [] && run.asked == [] &&
                        run.attributes == attributes) &&
      (run.asked != [] <==> cached.Some? && down.now.status == Unauthorized)
  {
  }

  /**
   * Without a cached entry, the exchange starts with one authentication request and uses
   * what it yields; an answer that parses as JSON is stored, its token null or not.
   */
  lemma UncachedTokenRequested(attributes: map<string, Option<string>>, request: Request, headerName: string,
                               authRequest: Request, auth: Replies, down: Replies)
    requires SsoTokenKey !in attributes
    ensures var run := Expected(AsWritten, attributes, request, headerName, authRequest, auth, down);
      |run.asked| >= 1 && run.asked[0] == authRequest &&
      (TokenId(auth.now).Some? ==> |run.sent| >= 1 && run.sent[0] == WithToken(request, headerName, TokenId(auth.now).value)) &&
      (TokenId(auth.now).None? ==>
         run.response == InternalServerError && run.sent == [] && |run.asked| == 1 &&
         run.attributes == AfterExtract(attributes, auth.now) &&
         (SsoTokenKey in run.attributes <==> ParseJson(auth.now.body).Some?))
  {
  }

  /** An answer other than 401 to the first attempt is returned unchanged, and nothing else is asked. */
  lemma AcceptedAnswerReturned(attributes: map<string, Option<string>>, request: Request, headerName: string,
                               authRequest: Request, auth: Replies, down: Replies)
    ensures var run := Expected(AsWritten, attributes, request, headerName, authRequest, auth, down);
      var first := Obtain(AsWritten, attributes, authRequest, auth.now);
      first.token.Some? && down.now.status != Unauthorized ==>
        run.response == down.now && run.attributes == first.attributes && run.asked == first.asked &&
        run.sent == [WithToken(request, headerName, first.token.value)]
  {
  }

  /** Without a token there is no downstream call, and the answer is an internal server error. */
  lemma NoTokenNoCall(attributes: map<string, Option<string>>, request: Request, headerName: string,
                      authRequest: Request, auth: Replies, down: Replies)
    ensures var run := Expected(AsWritten, attributes, request, headerName, authRequest, auth, down);
      Obtain(AsWritten, attributes, authRequest, auth.now).token.None? ==>
        run.response == InternalServerError && run.sent == [] &&
        run.attributes == Obtain(AsWritten, attributes, authRequest, auth.now).attributes
  {
  }

  /**
   * After a 401 the cached token is dropped and one new authentication made; the request is
   * sent once more with the new token alone, and that answer is returned unchecked, 401 or
   * not; without a new token the answer is an internal server error, and the session keeps
   * an `SSOToken` entry (a null one) exactly when the authentication answer parsed.
   */
  lemma UnauthorizedRetriedOnce(attributes: map<string, Option<string>>, request: Request, headerName: string,
                                authRequest: Request, auth: Replies, down: Replies)
    ensures var run := Expected(AsWritten, attributes, request, headerName, authRequest, auth, down);
      var first := Obtain(AsWritten, attributes, authRequest, auth.now);
      var answer := Reply(auth, |first.asked|);
      first.token.Some? && down.now.status == Unauthorized ==>
        run.asked == first.asked + [authRequest] &&
        run.attributes == AfterExtract(first.attributes - {SsoTokenKey}, answer) &&
        (TokenId(answer).Some? ==>
          run.response == down.later &&
          run.sent == [WithToken(request, headerName, first.token.value),
                       WithToken(request, headerName, TokenId(answer).value)]) &&
        (TokenId(answer).None? ==>
          run.response == InternalServerError &&
          run.sent == [WithToken(request, headerName, first.token.value)] &&
          (SsoTokenKey in run.attributes <==> ParseJson(answer.body).Some?))
  {
    var first := Obtain(AsWritten, attributes, authRequest, auth.now);
    var answer := Reply(auth, |first.asked|);
    if first.token.Some? && down.now.status == Unauthorized && TokenId(answer).Some? {
      RetryCarriesNewToken(request, headerName, first.token.value, TokenId(answer).value);
    }
  }

  /**
   * With the intended extraction no null token is ever cached, and an exchange that got no
   * token leaves no entry, so that the next exchange of the client authenticates afresh.
   */
  lemma NullTokenNeverCached(attributes: map<string, Option<string>>, request: Request, headerName: string,
                             authRequest: Request, auth: Replies, down: Replies)
    requires NoNullToken(attributes)
    ensures var run := Expected(Intended, attributes, request, headerName, authRequest, auth, down);
      NoNullToken(run.attributes) &&
      (run.sent == [] ==> SsoTokenKey !in run.attributes && |run.asked| == 1)
  {
  }

  /**
   * As written, an authentication answer that parses but has no `tokenId` (an OpenAM error
   * object, say) caches a null token: the exchange is answered 500, and from then on every
   * exchange of that client is answered 500 without a call downstream nor a new
   * authentication, and keeps the entry.
   */
  lemma AsWrittenNullTokenSticks(attributes: map<string, Option<string>>, request: Request, headerName: string,
                                 authRequest: Request, auth: Replies, down: Replies,
                                 later: Request, auth2: Replies, down2: Replies)
    requires SsoTokenKey !in attributes
    requires ParseJson(auth.now.body).Some? && TokenIdMember !in ParseJson(auth.now.body).value
    ensures var run := Expected(AsWritten, attributes, request, headerName, authRequest, auth, down);
      run.response == InternalServerError && run.sent == [] && !NoNullToken(run.attributes) &&
      var again := Expected(AsWritten, run.attributes, later, headerName, authRequest, auth2, down2);
      again.response == InternalServerError && again.sent == [] && again.asked == [] &&
      again.attributes == run.attributes
  {
  }

  // ---------------------------------------------------------------------------
  // The filter object
  // ---------------------------------------------------------------------------

  /** The request object a filter receives: filters and handlers see its updates in place. */
  class RequestObject {
    var value: Request

    constructor (value: Request)
      ensures this.value == value
    {
      this.value := value;
    }
  }

  class SsoTokenFilter {
    /** The handler the authentication requests go to. */
    const ssoClientHandler: RequestHandler
    const openamUrl: Uri
    const realm: string
    const headerName: string
    /** What the username and password expressions yield (`None`: null). */
    const username: Option<string>
    const password: Option<string>
    /** The request `authenticate` builds, the same on every call since its inputs are fixed. */
    const authRequest: Request

    constructor (ssoClientHandler: RequestHandler, openamUrl: Uri, realm: Option<string>,
                 headerName: Option<string>, username: Option<string>, password: Option<string>)
      ensures this.ssoClientHandler == ssoClientHandler && this.openamUrl == openamUrl
      ensures this.realm == StartsWithSlash(realm)
      ensures headerName.None? ==> this.headerName == DefaultHeaderName
      ensures headerName.Some? ==> this.headerName == headerName.value
      ensures this.username == username && this.password == password
      ensures authRequest == AuthenticationRequest(this.openamUrl, this.realm, username, password)
    {
      this.ssoClientHandler := ssoClientHandler;
      this.openamUrl := openamUrl;
      this.realm := StartsWithSlash(realm);
      this.headerName := if headerName.Some? then headerName.value else DefaultHeaderName;
      this.username := username;
      this.password := password;
      this.authRequest := AuthenticationRequest(openamUrl, StartsWithSlash(realm), username, password);
    }

    /** `extractSsoToken`: the token of an authentication answer, stored whenever the answer parses. */
    method ExtractSsoToken(answer: Response, session: Session) returns (token: Option<string>)
      modifies session
      ensures token == TokenId(answer)
      ensures session.attributes == AfterExtract(old(session.attributes), answer)
    {
      var json := ParseJson(answer.body);
      if json.None? {
        // the entity is not JSON
        return None;
      }
      token := if TokenIdMember in json.value then Some(json.value[TokenIdMember]) else None;
      session.attributes := session.attributes[SsoTokenKey := token];
    }

    /** `createSsoToken`: one authentication request, and the token extracted from its answer. */
    method CreateSsoToken(session: Session) returns (token: Option<string>)
      modifies session, ssoClientHandler
      ensures ssoClientHandler.received == old(ssoClientHandler.received) + [authRequest]
      ensures token == TokenId(ssoClientHandler.Answer(old(|ssoClientHandler.received|)))
      ensures session.attributes ==
        AfterExtract(old(session.attributes), ssoClientHandler.Answer(old(|ssoClientHandler.received|)))
    {
      var answer := ssoClientHandler.Handle(authRequest);
      token := ExtractSsoToken(answer, session);
    }

    /** `findSsoToken`: the cached token when the session has the entry, else a new one. */
    method FindSsoToken(session: Session) returns (token: Option<string>)
      modifies session, ssoClientHandler
      ensures var o := Obtain(AsWritten, old(session.attributes), authRequest,
                              ssoClientHandler.Answer(old(|ssoClientHandler.received|)));
        token == o.token && session.attributes == o.attributes &&
        ssoClientHandler.received == old(ssoClientHandler.received) + o.asked
    {
      if SsoTokenKey in session.attributes {
        token := session.attributes[SsoTokenKey];
      } else {
        token := CreateSsoToken(session);
      }
    }

    /** `executeRequestWithToken`: the token is put in the header and the request sent, or 500. */
    method ExecuteRequestWithToken(token: Option<string>, request: RequestObject, next: RequestHandler)
      returns (response: Response)
      modifies request, next
      ensures var e := Execute(token, old(request.value), headerName, next.Answer(old(|next.received|)));
        response == e.response && next.received == old(next.received) + e.sent &&
        request.value == Last(old(request.value), e.sent)
    {
      if token.Some? {
        request.value := request.value.(headers := Put(request.value.headers, headerName, token.value));
        response := next.Handle(request.value);
      } else {
        response := InternalServerError;
      }
    }

    /** `checkResponse`: after a 401 the token is renewed and the request sent once more. */
    method CheckResponse(response: Response, session: Session, request: RequestObject, next: RequestHandler)
      returns (result: Response)
      requires next != ssoClientHandler
      modifies session, request, next, ssoClientHandler
      ensures var run := Recheck(AsWritten, response, old(session.attributes), old(request.value), headerName, authRequest,
                                 ssoClientHandler.Answer(old(|ssoClientHandler.received|)),
                                 next.Answer(old(|next.received|)));
        result == run.response && session.attributes == run.attributes &&
        ssoClientHandler.received == old(ssoClientHandler.received) + run.asked &&
        next.received == old(next.received) + run.sent &&
        request.value == Last(old(request.value), run.sent)
    {
      if response.status != Unauthorized {
        return response;
      }
      session.attributes := session.attributes - {SsoTokenKey};
      var token := CreateSsoToken(session);
      result := ExecuteRequestWithToken(token, request, next);
    }

    /**
     * Handles a request in the client's `session`: the token is found or created, the request
     * sent with it, and the answer checked, as `Expected` describes.
     */
    method Filter(session: Session, request: RequestObject, next: RequestHandler) returns (response: Response)
      requires next != ssoClientHandler
      modifies session, request, next, ssoClientHandler
      ensures var a, d := old(|ssoClientHandler.received|), old(|next.received|);
        var run := Expected(AsWritten, old(session.attributes), old(request.value), headerName, authRequest,
                            Replies(ssoClientHandler.Answer(a), ssoClientHandler.Answer(a + 1)),
                            Replies(next.Answer(d), next.Answer(d + 1)));
        response == run.response && session.attributes == run.attributes &&
        ssoClientHandler.received == old(ssoClientHandler.received) + run.asked &&
        next.received == old(next.received) + run.sent &&
        request.value == Last(old(request.value), run.sent)
    {
      ghost var a, d := |ssoClientHandler.received|, |next.received|;
      ghost var auth := Replies(ssoClientHandler.Answer(a), ssoClientHandler.Answer(a + 1));
      ghost var down := Replies(next.Answer(d), next.Answer(d + 1));
      ghost var obtained := Obtain(AsWritten, session.attributes, authRequest, auth.now);
      var token := FindSsoToken(session);
      ghost var attempt := Execute(token, request.value, headerName, down.now);
      var first := ExecuteRequestWithToken(token, request, next);
      ghost var rest := Recheck(AsWritten, first, session.attributes, request.value, headerName, authRequest,
                                Reply(auth, |obtained.asked|), Reply(down, |attempt.sent|));
      assert ssoClientHandler.Answer(|ssoClientHandler.received|) == Reply(auth, |obtained.asked|);
      assert next.Answer(|next.received|) == Reply(down, |attempt.sent|);
      response := CheckResponse(first, session, request, next);
      Composition(AsWritten, old(session.attributes), old(request.value), headerName, authRequest, auth, down,
                  obtained, attempt, rest);
      AppendAssociative(old(ssoClientHandler.received), obtained.asked, rest.asked);
      AppendAssociative(old(next.received), attempt.sent, rest.sent);
      LastConcat(old(request.value), attempt.sent, rest.sent);
    }
  }
}
