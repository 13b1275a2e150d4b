/**
 * HTTP Basic authentication (section 2 of RFC 2617) towards the server a request goes to:
 * credentials are cached in the client's session, attached to every request, and refreshed
 * and retried once when the server answers 401 Unauthorized. When no usable credentials
 * can be had, the exchange is handed to a failure handler.
 */
module HttpBasicAuth {
  import opened Wrappers
  import opened Text
  import opened Headers
  import opened Http
  import Base64

  /** The class name that prefixes the filter's session attributes. */
  const FilterClassName := "org.forgerock.openig.filter.HttpBasicAuthFilter"
  const AuthorizationHeader := "Authorization"
  const ChallengeHeader := "WWW-Authenticate"
  /** Headers suppressed from the incoming request. */
  const SuppressRequestHeaders: seq<string> := [AuthorizationHeader]
  /** Headers suppressed from the outgoing response. */
  const SuppressResponseHeaders: seq<string> := [ChallengeHeader]
  const Unauthorized := 401
  const ColonMessage := "username must not contain a colon ':' character"

  // ---------------------------------------------------------------------------
  // The credential cache key
  // ---------------------------------------------------------------------------

  /** The session attribute under which credentials for the request's server are cached. */
  function AttributeName(uri: Uri): (name: string)
    ensures exists server :: name == FilterClassName + ":" + server + ":userpass"
  {
    var server := JavaString(uri.scheme) + ":" + JavaString(uri.host) + ":" + DecimalString(uri.port);
    var name := FilterClassName + ":" + JavaString(uri.scheme) + ":" + JavaString(uri.host) + ":"
      + DecimalString(uri.port) + ":" + "userpass";
    assert name == FilterClassName + ":" + server + ":userpass";
    name
  }

  /** The server a URI names, as far as the cache key sees it. */
  predicate SameServer(u: Uri, v: Uri)
  {
    JavaString(u.scheme) == JavaString(v.scheme) && JavaString(u.host) == JavaString(v.host)
      && u.port == v.port
  }

  /** A URI scheme never contains a colon (section 3.1 of RFC 3986). */
  predicate WellFormedScheme(u: Uri)
  {
    u.scheme.Some? ==> ':' !in u.scheme.value
  }

  /** Equal strings with equal prefixes have equal remainders. */
  lemma StripPrefix(x: string, a: string, b: string)
    requires x + a == x + b
    ensures a == b
  {
    assert a == (x + a)[|x|..];
    assert b == (x + b)[|x|..];
  }

  /** Equal strings with equal suffixes have equal beginnings. */
  lemma StripSuffix(a: string, b: string, x: string)
    requires a + x == b + x
    ensures a == b
  {
    assert a == (a + x)[..|a|];
    assert b == (b + x)[..|b|];
  }

  /** Splitting at the first colon: parts without a colon before it are determined. */
  lemma SplitFirst(a1: string, b1: string, a2: string, b2: string)
    requires ':' !in a1 && ':' !in a2 && a1 + ":" + b1 == a2 + ":" + b2
    ensures a1 == a2 && b1 == b2
  {
    FirstColon(a1, b1);
    FirstColon(a2, b2);
    var t := a1 + ":" + b1;
    assert a1 == t[..|a1|] && a2 == t[..|a2|];
    assert b1 == t[|a1| + 1..] && b2 == t[|a2| + 1..];
  }

  /** Splitting at the last colon: parts without a colon after it are determined. */
  lemma SplitLast(a1: string, b1: string, a2: string, b2: string)
    requires ':' !in b1 && ':' !in b2 && a1 + ":" + b1 == a2 + ":" + b2
    ensures a1 == a2 && b1 == b2
  {
    LastColon(a1, b1);
    LastColon(a2, b2);
    var t := a1 + ":" + b1;
    assert a1 == t[..|a1|] && a2 == t[..|a2|];
    assert b1 == t[|a1| + 1..] && b2 == t[|a2| + 1..];
  }

  /** A key built as `prefix:s:h:p:userpass` determines `s` and `p` when they hold no colon, and then `h`. */
  lemma {:induction false} KeyParts(prefix: string, s1: string, h1: string, p1: string,
                                    s2: string, h2: string, p2: string)
    requires ':' !in s1 && ':' !in s2 && ':' !in p1 && ':' !in p2
    requires prefix + ":" + s1 + ":" + h1 + ":" + p1 + ":" + "userpass"
          == prefix + ":" + s2 + ":" + h2 + ":" + p2 + ":" + "userpass"
    ensures s1 == s2 && h1 == h2 && p1 == p2
  {
    var tail := ":" + "userpass";
    var m1, m2 := h1 + ":" + p1, h2 + ":" + p2;
    var k1 := prefix + ":" + s1 + ":" + h1 + ":" + p1 + ":" + "userpass";
    var k2 := prefix + ":" + s2 + ":" + h2 + ":" + p2 + ":" + "userpass";
    assert k1 == (prefix + ":") + (s1 + ":" + (m1 + tail));
    assert k2 == (prefix + ":") + (s2 + ":" + (m2 + tail));
    StripPrefix(prefix + ":", s1 + ":" + (m1 + tail), s2 + ":" + (m2 + tail));
    SplitFirst(s1, m1 + tail, s2, m2 + tail);
    StripSuffix(m1, m2, tail);
    SplitLast(h1, p1, h2, p2);
  }

  /** The scheme, host and port strings can be read back from a cache key. */
  lemma KeyDeterminesServer(u: Uri, v: Uri)
    requires WellFormedScheme(u) && WellFormedScheme(v)
    requires AttributeName(u) == AttributeName(v)
    ensures SameServer(u, v)
  {
    var pu, pv := DecimalString(u.port), DecimalString(v.port);
    assert ':' !in pu && ':' !in pv;
    KeyParts(FilterClassName, JavaString(u.scheme), JavaString(u.host), pu,
             JavaString(v.scheme), JavaString(v.host), pv);
    DecimalStringInjective(u.port, v.port);
  }

  /**
   * Two requests share one cache entry exactly when they go to the same scheme, host and
   * port; in particular the path plays no part.
   */
  lemma SharedCacheEntry(u: Uri, v: Uri)
    requires WellFormedScheme(u) && WellFormedScheme(v)
    ensures AttributeName(u) == AttributeName(v) <==> SameServer(u, v)
  {
    if AttributeName(u) == AttributeName(v) {
      KeyDeterminesServer(u, v);
    }
  }

  // ---------------------------------------------------------------------------
  // The credential and how a server reads it back
  // ---------------------------------------------------------------------------

  /** The cached credential: base64 (section 4 of RFC 4648) of the UTF-8 octets of user ":" pass. */
  function Credential(user: string, pass: string): string
  {
    Base64.Encode(Utf8(user + ":" + pass))
  }

  /** A server decoding the credential gets the UTF-8 octets of user ":" pass back. */
  lemma CredentialDecodes(user: string, pass: string)
    ensures Base64.Decode(Credential(user, pass)) == Some(Utf8(user + ":" + pass))
  {
    Base64.EncodeDecode(Utf8(user + ":" + pass));
  }

  /** A server's reading of RFC 2617's user-pass: the user-id ends at the first colon. */
  function SplitUserPass(userPass: seq<uint8>): (r: (seq<uint8>, seq<uint8>))
    ensures ColonByte !in r.0
    ensures ColonByte in userPass ==> userPass == r.0 + [ColonByte] + r.1
    ensures ColonByte !in userPass ==> r == (userPass, [])
  {
    if |userPass| == 0 then ([], [])
    else if userPass[0] == ColonByte then ([], userPass[1..])
    else
      var rest := SplitUserPass(userPass[1..]);
      assert userPass == [userPass[0]] + userPass[1..];
      ([userPass[0]] + rest.0, rest.1)
  }

  lemma {:induction false} SplitAfter(user: seq<uint8>, pass: seq<uint8>)
    requires ColonByte !in user
    ensures SplitUserPass(user + [ColonByte] + pass) == (user, pass)
  {
    var whole := user + [ColonByte] + pass;
    if |user| == 0 {
      assert whole == [ColonByte] + pass;
    } else {
      SplitAfter(user[1..], pass);
      assert user[0] in user;
      assert whole[0] == user[0] != ColonByte;
      assert whole[1..] == user[1..] + [ColonByte] + pass;
      assert user == [user[0]] + user[1..];
    }
  }

  /**
   * The username check as RFC 2617 intends it (see "Findings"): a username is usable
   * exactly when it contains no colon at all.
   */
  predicate LegalUsername(user: string): (ok: bool)
    ensures ok <==> ':' !in user
  {
    IndexOf(user, ':') < 0
  }

  /** The check the filter applies, `!(user.indexOf(':') > 0)`, which lets a leading colon through. */
  predicate PassesColonCheckAsWritten(user: string): (ok: bool)
    ensures ok <==> LegalUsername(user) || user[0] == ':'
  {
    !(IndexOf(user, ':') > 0)
  }

  lemma Utf8Colon()
    ensures Utf8(":") == [ColonByte]
  {
    assert ":"[1..] == "";
  }

  lemma Utf8UserPass(user: string, pass: string)
    ensures Utf8(user + ":" + pass) == Utf8(user) + [ColonByte] + Utf8(pass)
  {
    AppendAssociative(user, ":", pass);
    Utf8Concat(user, ":" + pass);
    Utf8Concat(":", pass);
    Utf8Colon();
    AppendAssociative(Utf8(user), [ColonByte], Utf8(pass));
  }

  /** With a legal username a server recovers exactly the user-id and password that were cached. */
  lemma LegalUsernameSplitsBack(user: string, pass: string)
    requires LegalUsername(user)
    ensures Base64.Decode(Credential(user, pass)) == Some(Utf8(user + ":" + pass))
    ensures SplitUserPass(Utf8(user + ":" + pass)) == (Utf8(user), Utf8(pass))
  {
    CredentialDecodes(user, pass);
    Utf8UserPass(user, pass);
    Utf8Ascii(user, ':');
    SplitAfter(Utf8(user), Utf8(pass));
  }

  /**
   * The check as written admits ":x", and a server then reads back an empty user-id and the
   * password "x:p" instead of user ":x" with password "p".
   */
  lemma AsWrittenCheckAdmitsLeadingColon()
    ensures PassesColonCheckAsWritten(":x")
    ensures SplitUserPass(Utf8(":x" + ":" + "p")) == ([], Utf8("x:p"))
    ensures SplitUserPass(Utf8(":x" + ":" + "p")).0 != Utf8(":x")
  {
    assert IndexOf(":x", ':') == 0;
    assert ":x" + ":" + "p" == ":" + "x:p";
    Utf8Concat(":", "x:p");
    assert Utf8(":") == [ColonByte];
    assert Utf8(":x")[0] == ColonByte;
  }

  // ---------------------------------------------------------------------------
  // Header handling
  // ---------------------------------------------------------------------------

  /** The inbound request headers with every `Authorization` field removed. */
  function StripCredentials(hs: seq<Header>): seq<Header>
  {
    RemoveAll(hs, SuppressRequestHeaders)
  }

  /**
   * No `Authorization` value is left and no field is added; every other name keeps its values,
   * in their order; the fields kept are exactly those not named `Authorization`.
   */
  lemma CredentialsStripped(hs: seq<Header>)
    ensures |StripCredentials(hs)| <= |hs| && Values(StripCredentials(hs), AuthorizationHeader) == []
    ensures forall n :: !SameName(n, AuthorizationHeader) ==> Values(StripCredentials(hs), n) == Values(hs, n)
    ensures forall h :: h in StripCredentials(hs) <==> h in hs && !SameName(h.name, AuthorizationHeader)
  {
    ValuesAfterRemove(hs, AuthorizationHeader, AuthorizationHeader);
    assert SameName(AuthorizationHeader, AuthorizationHeader);
    forall n | !SameName(n, AuthorizationHeader)
      ensures Values(StripCredentials(hs), n) == Values(hs, n)
    {
      ValuesAfterRemove(hs, AuthorizationHeader, n);
    }
    RemoveAllMembers(hs, SuppressRequestHeaders);
    SingleNameSet(AuthorizationHeader);
  }

  /** A response as the filter returns it: every `WWW-Authenticate` field removed. */
  function StripChallenge(response: Response): (r: Response)
    ensures r.status == response.status && r.body == response.body
  {
    response.(headers := RemoveAll(response.headers, SuppressResponseHeaders))
  }

  /** No `WWW-Authenticate` value is left; every other name keeps the values the server sent, in their order. */
  lemma ChallengeStripped(response: Response)
    ensures Values(StripChallenge(response).headers, ChallengeHeader) == []
    ensures forall n :: !SameName(n, ChallengeHeader) ==>
      Values(StripChallenge(response).headers, n) == Values(response.headers, n)
  {
    ValuesAfterRemove(response.headers, ChallengeHeader, ChallengeHeader);
    assert SameName(ChallengeHeader, ChallengeHeader);
    forall n | !SameName(n, ChallengeHeader)
      ensures Values(StripChallenge(response).headers, n) == Values(response.headers, n)
    {
      ValuesAfterRemove(response.headers, ChallengeHeader, n);
    }
  }

  /** Attaching the cached credential, `headers.add`: a new field after every field already there. */
  function Authorize(hs: seq<Header>, userpass: string): (r: seq<Header>)
    ensures |r| == |hs| + 1 && r[..|hs|] == hs
    ensures r[|hs|] == Header(AuthorizationHeader, "Basic " + userpass)
  {
    Add(hs, AuthorizationHeader, "Basic " + userpass)
  }

  /** The credential becomes the last `Authorization` value, after any attached before; other names keep theirs. */
  lemma AuthorizeValues(hs: seq<Header>, userpass: string)
    ensures Values(Authorize(hs, userpass), AuthorizationHeader) ==
      Values(hs, AuthorizationHeader) + ["Basic " + userpass]
    ensures forall n :: !SameName(n, AuthorizationHeader) ==> Values(Authorize(hs, userpass), n) == Values(hs, n)
  {
    AddValues(hs, AuthorizationHeader, "Basic " + userpass);
  }

  /** Attaching the credential as intended (see "Findings"): `headers.put`, which replaces any earlier one. */
  function AuthorizeCorrected(hs: seq<Header>, userpass: string): (r: seq<Header>)
    ensures Values(r, AuthorizationHeader) == ["Basic " + userpass]
    ensures forall n :: !SameName(n, AuthorizationHeader) ==> Values(r, n) == Values(hs, n)
  {
    PutValues(hs, AuthorizationHeader, "Basic " + userpass);
    Put(hs, AuthorizationHeader, "Basic " + userpass)
  }

  /**
   * With the intended attach, the retry after a refresh carries the fresh credential and
   * nothing of a stale one: its headers are exactly those of a first attempt with it.
   */
  lemma RetryCarriesOnlyFreshCredential(hs: seq<Header>, stale: string, renewed: string)
    ensures AuthorizeCorrected(AuthorizeCorrected(hs, stale), renewed) == AuthorizeCorrected(hs, renewed)
  {
    PutTwice(hs, AuthorizationHeader, "Basic " + stale, "Basic " + renewed);
  }

  /**
   * As written, a stale credential cached before the exchange stays on the retry, ahead of
   * the refreshed one, so the server sees two `Authorization` values and the stale one first.
   */
  lemma AsWrittenRetryCarriesStaleCredential(hs: seq<Header>, stale: string, renewed: string)
    requires Values(hs, AuthorizationHeader) == []
    ensures var retry := Authorize(Authorize(hs, stale), renewed);
      Values(retry, AuthorizationHeader) == ["Basic " + stale, "Basic " + renewed]
  {
    AuthorizeValues(hs, stale);
    AuthorizeValues(Authorize(hs, stale), renewed);
  }

  /** The headers of one attempt: the request's, with the cached credential added if there is one. */
  function AttemptHeaders(hs: seq<Header>, cached: Option<string>): seq<Header>
  {
    if cached.Some? then Authorize(hs, cached.value) else hs
  }

  /** The `Authorization` values a cached credential contributes: one, or none when nothing is cached. */
  function Presented(cached: Option<string>): seq<string>
  {
    if cached.Some? then ["Basic " + cached.value] else []
  }

  /**
   * The first attempt carries the cached credential as its one `Authorization` value, or
   * none when nothing is cached; the other fields are those of the inbound request.
   */
  lemma AttemptCarriesCachedCredential(inbound: seq<Header>, cached: Option<string>)
    ensures var sent := AttemptHeaders(StripCredentials(inbound), cached);
      Values(sent, AuthorizationHeader) == Presented(cached)
    ensures var sent := AttemptHeaders(StripCredentials(inbound), cached);
      forall n :: !SameName(n, AuthorizationHeader) ==> Values(sent, n) == Values(inbound, n)
  {
    CredentialsStripped(inbound);
    if cached.Some? {
      AuthorizeValues(StripCredentials(inbound), cached.value);
    }
  }

  /**
   * The retry adds the fresh credential to the request of the first attempt, so it carries
   * the credential cached before the exchange (if any) and then the fresh one.
   */
  lemma SecondAttemptHeaders(inbound: seq<Header>, cached: Option<string>, renewed: string)
    ensures var retry := AttemptHeaders(AttemptHeaders(StripCredentials(inbound), cached), Some(renewed));
      Values(retry, AuthorizationHeader) == Presented(cached) + ["Basic " + renewed]
    ensures var retry := AttemptHeaders(AttemptHeaders(StripCredentials(inbound), cached), Some(renewed));
      forall n :: !SameName(n, AuthorizationHeader) ==> Values(retry, n) == Values(inbound, n)
  {
    AttemptCarriesCachedCredential(inbound, cached);
    AuthorizeValues(AttemptHeaders(StripCredentials(inbound), cached), renewed);
  }

  // ---------------------------------------------------------------------------
  // The filter
  // ---------------------------------------------------------------------------

  /** How `filter` ends: normally, or with the `HandlerException` it throws. */
  datatype Outcome = Completed | Thrown(message: string)

  /** What the username and password the expressions yield amount to, after a 401. */
  datatype Credentials =
    | Missing                   // either of them is null
    | ColonInUsername           // the username is refused
    | Usable(userpass: string)  // the credential to cache and retry with

  /**
   * The evaluation of the username and password after a 401: null is as good as invalid, a
   * username whose first colon comes after its first character is refused, and otherwise the credential
   * of that username and password is the one to cache.
   */
  function Evaluate(user: Option<string>, pass: Option<string>): (c: Credentials)
    ensures c.Missing? <==> user.None? || pass.None?
    ensures c.ColonInUsername? <==> user.Some? && pass.Some? && ':' in user.value && user.value[0] != ':'
    ensures c.Usable? ==> c == Usable(Credential(user.value, pass.value))
  {
    if user.None? || pass.None? then Missing
    else if !PassesColonCheckAsWritten(user.value) then ColonInUsername
    else Usable(Credential(user.value, pass.value))
  }

  /**
   * The credential to cache decodes to the UTF-8 octets of user ":" pass. A server reads back
   * exactly that username and password when the username has no colon, and an empty user-id
   * when the username begins with one (the only colon the check lets through).
   */
  lemma EvaluateCases(user: Option<string>, pass: Option<string>)
    ensures Evaluate(user, pass).Usable? ==>
      Base64.Decode(Evaluate(user, pass).userpass) == Some(Utf8(user.value + ":" + pass.value)) &&
      (':' !in user.value ==>
         SplitUserPass(Utf8(user.value + ":" + pass.value)) == (Utf8(user.value), Utf8(pass.value))) &&
      (':' in user.value ==> SplitUserPass(Utf8(user.value + ":" + pass.value)).0 == [])
  {
    if Evaluate(user, pass).Usable? {
      CredentialDecodes(user.value, pass.value);
      if ':' !in user.value {
        LegalUsernameSplitsBack(user.value, pass.value);
      } else {
        var whole := user.value + ":" + pass.value;
        assert whole[0] == ':';
        assert Utf8(whole)[0] == ColonByte;
      }
    }
  }

  /** What one attempt leads to, once the downstream handler has answered. */
  datatype Verdict =
    | Accepted          // not a 401: the response goes back upstream
    | NoCredentials     // a 401, and no username or password to try
    | IllegalUsername   // a 401, and a username whose first colon comes after its first character
    | Refreshed         // a 401, and credentials to cache and retry with

  /** The decision taken after an attempt that got `reply`. */
  function Judge(reply: Response, creds: Credentials): (v: Verdict)
    ensures v == Refreshed ==> creds.Usable?
  {
    if reply.status != Unauthorized then Accepted
    else match creds
      case Missing => NoCredentials
      case ColonInUsername => IllegalUsername
      case Usable(_) => Refreshed
  }

  /**
   * Which attempt (0 or 1) ends the loop, and how: the server accepted it, the exchange is
   * diverted to the failure handler, or the username is rejected.
   */
  datatype Exit = Passed(attempt: nat) | Diverted(attempt: nat) | Rejected(attempt: nat)

  /** How the loop ends when attempt `n` got verdict `v` (a refresh on the last attempt ends it too). */
  function ExitFor(v: Verdict, n: nat): Exit
  {
    match v
    case Accepted => Passed(n)
    case NoCredentials => Diverted(n)
    case IllegalUsername => Rejected(n)
    case Refreshed => Diverted(n)
  }

  /** The exit the loop takes given the first two downstream replies and the evaluated credentials. */
  function LoopExit(first: Response, second: Response, creds: Credentials): Exit
  {
    if Judge(first, creds) != Refreshed then ExitFor(Judge(first, creds), 0)
    else ExitFor(Judge(second, creds), 1)
  }

  /**
   * The loop passes after an answer other than 401, on the first attempt or on the retry
   * with usable credentials; it throws only on a username whose first colon comes after its
   * first character; it makes at most two attempts, and the second only after a 401 with usable
   * credentials (a username with no colon, or with a leading one).
   */
  lemma LoopExitCases(first: Response, second: Response, user: Option<string>, pass: Option<string>)
    ensures var e := LoopExit(first, second, Evaluate(user, pass));
      e.attempt <= 1 &&
      (e.attempt == 1 <==> first.status == Unauthorized && user.Some? && pass.Some? &&
                            (':' !in user.value || user.value[0] == ':'))
    ensures var e := LoopExit(first, second, Evaluate(user, pass));
      e.Passed? <==>
        (first.status != Unauthorized ||
         (user.Some? && pass.Some? && (':' !in user.value || user.value[0] == ':') &&
          second.status != Unauthorized))
    ensures var e := LoopExit(first, second, Evaluate(user, pass));
      e.Rejected? <==>
        first.status == Unauthorized && user.Some? && pass.Some? && ':' in user.value && user.value[0] != ':'
  {
  }

  /** The stream a body carries, if any. */
  function StreamOf(body: Body): set<Stream>
  {
    if body.Streamed? then {body.stream} else {}
  }

  /** The entity streams of the two replies `next` gives from its call number `from` on. */
  function ReplyStreams(next: ExchangeHandler, from: nat): set<Stream>
  {
    StreamOf(next.Answer(from).body) + StreamOf(next.Answer(from + 1).body)
  }

  /** The reply of either of those two calls carries one of those streams, if any. */
  lemma ReplyStreamsCover(next: ExchangeHandler, from: nat, k: nat)
    requires k <= 1
    ensures StreamOf(next.Answer(from + k).body) <= ReplyStreams(next, from)
  {
  }

  /** The body an attempt sends: a branch of the trunk when there is a stream, the trunk's value otherwise. */
  predicate BranchOf(sent: Body, trunk: Body)
  {
    if trunk.Streamed? then sent.Streamed? && sent.stream.parent == trunk.stream else sent == trunk
  }

  /** An attempt goes to the URI of `start`, with its verb and a branch of its entity. */
  predicate Aimed(sent: Request, start: Request)
  {
    sent.uri == start.uri && sent.verb == start.verb && BranchOf(sent.body, start.body)
  }

  /** The request with its inbound credentials removed, as the loop starts from it. */
  function Stripped(request: Request): Request
  {
    request.(headers := StripCredentials(request.headers))
  }

  /**
   * The downstream calls the retry loop made, from call number `c` on, when it ended by
   * `exit`: one per attempt, each to the URI of `start` with its verb and a branch of its
   * entity; the first with the credential `cached` before the exchange (if any), the second
   * only with usable credentials, on a branch of its own and with the fresh credential added
   * to the first attempt's headers.
   */
  ghost predicate Attempts(exit: Exit, calls: seq<Call>, c: nat, start: Request, cached: Option<string>,
                           creds: Credentials)
  {
    exit.attempt <= 1 && |calls| == c + exit.attempt + 1 &&
    Aimed(calls[c].request, start) &&
    calls[c].request.headers == AttemptHeaders(start.headers, cached) &&
    (exit.attempt == 1 ==>
      creds.Usable? && Aimed(calls[c + 1].request, start) &&
      calls[c + 1].request.headers == AttemptHeaders(AttemptHeaders(start.headers, cached), Some(creds.userpass)) &&
      (start.body.Streamed? ==> calls[c].request.body != calls[c + 1].request.body))
  }

  /**
   * What the server sees: the first attempt carries the cached credential as its one
   * `Authorization` value (none when nothing is cached), the retry that value and then the
   * fresh one, and every other field is that of the inbound request.
   */
  lemma AttemptsCredentials(exit: Exit, calls: seq<Call>, c: nat, inbound: Request, cached: Option<string>,
                            creds: Credentials)
    requires Attempts(exit, calls, c, Stripped(inbound), cached, creds)
    ensures Values(calls[c].request.headers, AuthorizationHeader) == Presented(cached)
    ensures forall n :: !SameName(n, AuthorizationHeader) ==>
      Values(calls[c].request.headers, n) == Values(inbound.headers, n)
    ensures exit.attempt == 1 ==>
      Values(calls[c + 1].request.headers, AuthorizationHeader) == Presented(cached) + ["Basic " + creds.userpass]
    ensures exit.attempt == 1 ==> forall n :: !SameName(n, AuthorizationHeader) ==>
      Values(calls[c + 1].request.headers, n) == Values(inbound.headers, n)
  {
    AttemptCarriesCachedCredential(inbound.headers, cached);
    if exit.attempt == 1 {
      SecondAttemptHeaders(inbound.headers, cached, creds.userpass);
    }
  }

  /**
   * What the first `n` passes of the retry loop leave when each of them refreshed the
   * credential: the calls made so far as in `Attempts`, the fresh credential cached under
   * `key`, and the exchange holding the last request sent and its answer.
   */
  ghost predicate Progress(reply: nat -> Response, calls: seq<Call>, request: Request,
                           response: Option<Response>, attributes: map<string, Option<string>>,
                           key: string, creds: Credentials, n: nat, c: nat, start: Request,
                           before: map<string, Option<string>>)
  {
    |calls| == c + n &&
    request.uri == start.uri && request.verb == start.verb &&
    (n == 0 ==> attributes == before && request.headers == start.headers) &&
    (n >= 1 ==>
      Judge(reply(c), creds) == Refreshed && Aimed(calls[c].request, start) &&
      attributes == before[key := Some(creds.userpass)] &&
      calls[c].request.headers == AttemptHeaders(start.headers, Lookup(before, key)) &&
      response == Some(reply(c + n - 1)) &&
      request == calls[c + n - 1].request) &&
    (n == 2 ==>
      Judge(reply(c + 1), creds) == Refreshed && Aimed(calls[c + 1].request, start) &&
      calls[c + 1].request.headers ==
        AttemptHeaders(AttemptHeaders(start.headers, Lookup(before, key)), Some(creds.userpass)) &&
      (start.body.Streamed? ==> calls[c].request.body != calls[c + 1].request.body))
  }

  /**
   * What the retry loop has done when it ended by `exit`: the downstream `calls` it made (as
   * in `Attempts`), the last request sent as the exchange's `request`, and the session
   * `attributes` written only if the first attempt refreshed the credential, under `key`.
   */
  ghost predicate Sent(exit: Exit, calls: seq<Call>, request: Request, attributes: map<string, Option<string>>,
                       key: string, creds: Credentials, c: nat, start: Request,
                       before: map<string, Option<string>>)
  {
    Attempts(exit, calls, c, start, Lookup(before, key), creds) &&
    request == calls[|calls| - 1].request &&
    (exit.attempt == 0 ==> attributes == before) &&
    (exit.attempt == 1 ==> attributes == before[key := Some(creds.userpass)])
  }

  /** After two refreshes the loop is over: the retry's answer is the last, and the exchange is diverted. */
  lemma Exhausted(reply: nat -> Response, calls: seq<Call>, request: Request, response: Option<Response>,
                  attributes: map<string, Option<string>>, key: string, creds: Credentials, c: nat,
                  start: Request, before: map<string, Option<string>>)
    requires Progress(reply, calls, request, response, attributes, key, creds, 2, c, start, before)
    ensures Sent(Diverted(1), calls, request, attributes, key, creds, c, start, before)
    ensures response == Some(reply(c + 1))
    ensures Diverted(1) == LoopExit(reply(c), reply(c + 1), creds)
  {
  }

  class HttpBasicAuthFilter {
    /** The handler the exchange is diverted to when authentication fails. */
    const failureHandler: ExchangeHandler

    constructor (failureHandler: ExchangeHandler)
      ensures this.failureHandler == failureHandler
    {
      this.failureHandler := failureHandler;
    }

    /**
     * One pass of the retry loop: a new branch of the trunk becomes the entity, the credential
     * cached under `key` (the cache key of the request's server) is attached, and the
     * exchange goes downstream.
     */
    method Attempt(exchange: Exchange, next: ExchangeHandler, trunk: Body, key: string)
      modifies exchange, next
      ensures next.calls == old(next.calls) + [Call(exchange.request, old(exchange.response))]
      ensures exchange.response == Some(next.Answer(old(|next.calls|)))
      ensures exchange.request.uri == old(exchange.request.uri)
      ensures exchange.request.verb == old(exchange.request.verb)
      ensures exchange.request.headers ==
        AttemptHeaders(old(exchange.request.headers), Lookup(exchange.session.attributes, key))
      ensures BranchOf(exchange.request.body, trunk)
      ensures trunk.Streamed? ==> fresh(exchange.request.body.stream)
    {
      if trunk.Streamed? {
        var branch := trunk.stream.Branch();
        exchange.request := exchange.request.(body := Streamed(branch));
      } else {
        exchange.request := exchange.request.(body := trunk);
      }
      var userpass := Lookup(exchange.session.attributes, key);
      if userpass.Some? {
        exchange.request := exchange.request.(headers := Authorize(exchange.request.headers, userpass.value));
      }
      next.Handle(exchange);
    }

    /**
     * One pass of the loop body: an attempt, then the decision on its answer. After a 401
     * with usable credentials, the credential is cached under `key` before the retry.
     */
    method Round(exchange: Exchange, next: ExchangeHandler, trunk: Body, key: string, creds: Credentials)
      returns (v: Verdict)
      modifies exchange, exchange.session, next
      ensures v == Judge(next.Answer(old(|next.calls|)), creds)
      ensures next.calls == old(next.calls) + [Call(exchange.request, old(exchange.response))]
      ensures exchange.request.uri == old(exchange.request.uri)
      ensures exchange.request.verb == old(exchange.request.verb)
      ensures exchange.request.headers ==
        AttemptHeaders(old(exchange.request.headers), Lookup(old(exchange.session.attributes), key))
      ensures BranchOf(exchange.request.body, trunk)
      ensures trunk.Streamed? ==> fresh(exchange.request.body.stream)
      ensures exchange.response == Some(next.Answer(old(|next.calls|)))
      ensures v == Refreshed ==>
        exchange.session.attributes == old(exchange.session.attributes)[key := Some(creds.userpass)]
      ensures v != Refreshed ==> exchange.session.attributes == old(exchange.session.attributes)
    {
      Attempt(exchange, next, trunk, key);
      var response := exchange.response.value;
      if response.status != Unauthorized {
        return Accepted;
      }
      // credentials might be stale, so they are evaluated afresh; none are as good as invalid ones
      match creds
      case Missing =>
        return NoCredentials;
      case ColonInUsername =>
        return IllegalUsername;
      case Usable(userpass) =>
        exchange.session.attributes := exchange.session.attributes[key := Some(userpass)];
        v := Refreshed;
    }

    /**
     * Pass `n` of the retry loop (0 or 1), from the state the earlier passes left: an attempt
     * and the decision on its answer. A refresh leaves the state the next pass starts from;
     * any other verdict ends the loop.
     */
    method Pass(exchange: Exchange, next: ExchangeHandler, trunk: Body, key: string, creds: Credentials,
                n: nat, ghost c: nat, ghost start: Request, ghost before: map<string, Option<string>>)
      returns (v: Verdict)
      requires n < 2 && trunk == start.body
      requires Progress(next.Answer, next.calls, exchange.request, exchange.response,
                        exchange.session.attributes, key, creds, n, c, start, before)
      modifies exchange, exchange.session, next
      ensures v == Judge(next.Answer(c + n), creds)
      ensures v == Refreshed ==>
        Progress(next.Answer, next.calls, exchange.request, exchange.response,
                 exchange.session.attributes, key, creds, n + 1, c, start, before)
      ensures v != Refreshed ==>
        Sent(ExitFor(v, n), next.calls, exchange.request, exchange.session.attributes, key, creds, c, start,
             before) &&
        exchange.response == Some(next.Answer(c + n)) &&
        ExitFor(v, n) == LoopExit(next.Answer(c), next.Answer(c + 1), creds)
    {
      ghost var earlier := next.calls;
      v := Round(exchange, next, trunk, key, creds);
      if n == 1 {
        assert earlier[c] == next.calls[c];
      }
    }

    /**
     * `filter` up to the failure path: the inbound credentials are removed, then the retry
     * loop makes at most two attempts, the second only after a 401 with usable credentials,
     * which are cached first.
     */
    method Retry(exchange: Exchange, next: ExchangeHandler, user: Option<string>, pass: Option<string>)
      returns (exit: Exit)
      requires next != failureHandler
      modifies exchange, exchange.session, next
      ensures exit ==
        LoopExit(next.Answer(old(|next.calls|)), next.Answer(old(|next.calls|) + 1), Evaluate(user, pass))
      ensures Sent(exit, next.calls, exchange.request, exchange.session.attributes,
                   AttributeName(old(exchange.request.uri)), Evaluate(user, pass),
                   old(|next.calls|), Stripped(old(exchange.request)), old(exchange.session.attributes))
      ensures exchange.response == Some(next.Answer(old(|next.calls|) + exit.attempt))
      ensures failureHandler.calls == old(failureHandler.calls) && exit.attempt <= 1
    {
      ghost var c := |next.calls|;
      ghost var before := exchange.session.attributes;
      // the URI does not change in the loop, so neither does the cache key; the expressions
      // are evaluated once, as they yield the same on every evaluation
      var key := AttributeName(exchange.request.uri);
      var creds := Evaluate(user, pass);
      var start := Stripped(exchange.request);
      exchange.request := start;
      var trunk := start.body;
      var n := 0;
      while n < 2
        invariant n <= 2
        invariant Progress(next.Answer, next.calls, exchange.request, exchange.response,
                           exchange.session.attributes, key, creds, n, c, start, before)
      {
        var v := Pass(exchange, next, trunk, key, creds, n, c, start, before);
        if v != Refreshed {
          return ExitFor(v, n);
        }
        n := n + 1;
      }
      Exhausted(next.Answer, next.calls, exchange.request, exchange.response, exchange.session.attributes,
                key, creds, c, start, before);
      exit := Diverted(1);
    }

    /**
     * How `filter` ends once the retry loop ended by `exit`, with the last response in the
     * exchange: that response is returned, its challenge removed, when the server accepted (the
     * `status != 401` branch of the loop), the colon in the username
     * is reported, or else the response is dropped and the failure handler takes over.
     */
    method Conclude(exchange: Exchange, next: ExchangeHandler, exit: Exit, ghost c: nat, ghost key: string,
                    ghost creds: Credentials, ghost start: Request, ghost before: map<string, Option<string>>,
                    ghost handled: seq<Call>)
      returns (outcome: Outcome)
      requires next != failureHandler && exit.attempt <= 1 && failureHandler.calls == handled
      requires exchange.response == Some(next.Answer(c + exit.attempt))
      requires Sent(exit, next.calls, exchange.request, exchange.session.attributes, key, creds, c, start, before)
      modifies exchange`response, failureHandler, ReplyStreams(next, c)
      // the loop's calls, last request and session are left as they are
      ensures Sent(exit, next.calls, exchange.request, exchange.session.attributes, key, creds, c, start, before)
      ensures exit.Passed? ==>
        outcome == Completed &&
        exchange.response == Some(StripChallenge(next.Answer(c + exit.attempt))) &&
        failureHandler.calls == handled
      ensures exit.Diverted? ==>
        outcome == Completed &&
        failureHandler.calls == handled + [Call(exchange.request, Some(EmptyResponse))] &&
        exchange.response == Some(failureHandler.Answer(|handled|)) &&
        (next.Answer(c + exit.attempt).body.Streamed? ==> next.Answer(c + exit.attempt).body.stream.closed)
      ensures exit.Rejected? ==>
        outcome == Thrown(ColonMessage) &&
        exchange.response == Some(next.Answer(c + exit.attempt)) &&
        failureHandler.calls == handled
      ensures forall s: Stream ::
        old(allocated(s)) && !(exit.Diverted? && s in StreamOf(next.Answer(c + exit.attempt).body)) ==>
          s.closed == old(s.closed)
    {
      match exit
      case Passed(_) =>
        exchange.response := Some(StripChallenge(exchange.response.value));
        return Completed;
      case Rejected(_) =>
        return Thrown(ColonMessage);
      case Diverted(attempt) =>
        // the last response is about to be dropped: close its entity
        var response := exchange.response.value;
        if response.body.Streamed? {
          ReplyStreamsCover(next, c, attempt);
          response.body.stream.Close();
        }
        exchange.response := Some(EmptyResponse);
        failureHandler.Handle(exchange);
        outcome := Completed;
    }

    /**
     * Handles an exchange. `user` and `pass` are what the username and password expressions
     * yield for it (`None`: null); `EvaluateCases` says what they amount to.
     */
    method Filter(exchange: Exchange, next: ExchangeHandler, user: Option<string>, pass: Option<string>)
      returns (outcome: Outcome, ghost exit: Exit)
      requires next != failureHandler
      modifies exchange, exchange.session, next, failureHandler, ReplyStreams(next, |next.calls|)
      // how the retry loop ended, from the first two replies and the configured credentials
      ensures exit ==
        LoopExit(next.Answer(old(|next.calls|)), next.Answer(old(|next.calls|) + 1), Evaluate(user, pass))
      // the downstream calls, the request left in the exchange and the session, as `Sent` describes them
      ensures Sent(exit, next.calls, exchange.request, exchange.session.attributes,
                   AttributeName(old(exchange.request.uri)), Evaluate(user, pass),
                   old(|next.calls|), Stripped(old(exchange.request)), old(exchange.session.attributes))
      // how it ends
      ensures exit.Passed? ==>
        outcome == Completed &&
        exchange.response == Some(StripChallenge(next.Answer(old(|next.calls|) + exit.attempt))) &&
        failureHandler.calls == old(failureHandler.calls)
      ensures exit.Diverted? ==>
        outcome == Completed &&
        failureHandler.calls == old(failureHandler.calls) + [Call(exchange.request, Some(EmptyResponse))] &&
        exchange.response == Some(failureHandler.Answer(old(|failureHandler.calls|))) &&
        (next.Answer(old(|next.calls|) + exit.attempt).body.Streamed? ==>
           next.Answer(old(|next.calls|) + exit.attempt).body.stream.closed)
      ensures exit.Rejected? ==>
        outcome == Thrown(ColonMessage) &&
        exchange.response == Some(next.Answer(old(|next.calls|) + exit.attempt)) &&
        failureHandler.calls == old(failureHandler.calls)
    {
      ghost var c, key, creds := |next.calls|, AttributeName(exchange.request.uri), Evaluate(user, pass);
      ghost var start, before, handled := Stripped(exchange.request), exchange.session.attributes, failureHandler.calls;
      var ended := Retry(exchange, next, user, pass);
      outcome := Conclude(exchange, next, ended, c, key, creds, start, before, handled);
      exit := ended;
    }
  }
}
