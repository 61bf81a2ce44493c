/** The router of index.ts: the REST route forwards the caller's
    Authorization value as it is, the Agile route turns a Basic credential
    into a Bearer token first, and every other path is answered with 404. */
module Gateway {
  import opened Common
  import opened Text
  import opened Headers
  import opened Credentials
  import opened Forwarding

  datatype Route = RestApi | AgileApi | Unmatched

  // The literal parts of the two API route patterns.
  const RestPrefix: string := "/rest/api/2/"
  const AgilePrefix: string := "/rest/agile/1.0/"

  /** Which of the three routes takes a path, tried in the order they are
      registered. */
  function Classify(path: string): (r: Route)
    ensures r == RestApi <==> StartsWith(path, RestPrefix)
    ensures r == AgileApi <==> StartsWith(path, AgilePrefix)
  {
    PrefixesDisjoint(path);
    if StartsWith(path, RestPrefix) then RestApi
    else if StartsWith(path, AgilePrefix) then AgileApi
    else Unmatched
  }

  /** No path is taken by both API routes, so their order does not matter. */
  lemma PrefixesDisjoint(path: string)
    ensures !(StartsWith(path, RestPrefix) && StartsWith(path, AgilePrefix))
  {
    assert RestPrefix[7] == 'p' && AgilePrefix[7] == 'g';
  }

  // The `message` fields of the JSON bodies the handlers answer with.
  const MissingMessage: string := "Authorization header is missing"
  const InvalidMessage: string := "Invalid Basic authorization header"
  const NotFoundMessage: string := "Not Found"

  /** The scheme the Agile route presents the key under. */
  const BearerPrefix: string := "Bearer "

  lemma MessagesDistinct()
    ensures MissingMessage != InvalidMessage
  {
    assert MissingMessage[0] == 'A' && InvalidMessage[0] == 'I';
  }

  /** How a request ends: a JSON answer of the gateway's own, a request
      handed to `fetch`, or an exception that escapes the handler. */
  datatype Outcome =
    | Respond(status: nat, message: string)
    | Proxy(request: Outbound)
    | Uncaught(fault: Fault)

  /** `ctx.request.headers.get("Authorization")`. */
  function Authorization(req: Inbound): Option<string> {
    Get(req.headers, AuthorizationName)
  }

  /** `!authHeader`: `null` and the empty string both count as missing. */
  predicate Missing(auth: Option<string>) {
    auth.None? || auth.value == ""
  }

  /** `proxyRequest` up to the `fetch` call; a `set` that throws escapes. */
  function Forward(cfg: Config, req: Inbound, auth: string): (o: Outcome)
    ensures o.Proxy? <==> !HasForbiddenChar(Normalize(auth)) && !HasForbiddenChar(Normalize(cfg.host))
    ensures o.Uncaught? <==> !o.Proxy?
    ensures o.Uncaught? ==> o.fault == InvalidHeaderValue
    ensures o.Proxy? ==>
              && o.request.url == cfg.baseUrl + req.pathname + req.search
              && o.request.verb == req.verb
              && AuthorizationKey in o.request.headers
              && o.request.headers[AuthorizationKey] == Normalize(auth)
              && TokenKey in o.request.headers
              && o.request.headers[TokenKey] == NoCheck
              && HostKey in o.request.headers
              && o.request.headers[HostKey] == Normalize(cfg.host)
              && (o.request.body.Some? <==> SendsBody(req.verb))
              && (o.request.body.Some? ==> o.request.body.value == req.body)
    ensures o.Proxy? ==>
              && o.request.headers.Keys == req.headers.Keys + OverwrittenNames
              && forall k :: k in req.headers && k !in OverwrittenNames ==>
                   o.request.headers[k] == req.headers[k]
    ensures o.Proxy? ==> BuildRequest(cfg, req, auth) == Success(o.request)
  {
    match BuildRequest(cfg, req, auth)
    case Failure(f) => Uncaught(f)
    case Success(out) =>
      RewrittenValues(cfg, req.headers, auth);
      RewriteKeepsOthers(cfg, req.headers, auth);
      Proxy(out)
  }

  /** The handler of `/rest/api/2/:path*`. */
  function RestHandler(cfg: Config, req: Inbound): (o: Outcome)
    ensures o.Respond? <==> Missing(Authorization(req))
    ensures o.Respond? ==> o == Respond(401, MissingMessage)
    ensures o.Uncaught? ==> o.fault == InvalidHeaderValue
    ensures o.Proxy? ==>
              && AuthorizationKey in o.request.headers
              && o.request.headers[AuthorizationKey] == Normalize(Authorization(req).value)
  {
    var auth := Authorization(req);
    if Missing(auth) then Respond(401, MissingMessage)
    else Forward(cfg, req, auth.value)
  }

  /** The handler of `/rest/agile/1.0/:path*`. */
  function AgileHandler(cfg: Config, req: Inbound): (o: Outcome)
    ensures o == Respond(401, MissingMessage) <==> Missing(Authorization(req))
    ensures o == Respond(401, InvalidMessage) <==>
              !Missing(Authorization(req)) && ExtractApiKey(Authorization(req).value) == NoKey
    ensures o == Uncaught(InvalidCharacter) <==>
              !Missing(Authorization(req)) && ExtractApiKey(Authorization(req).value) == DecodeThrows
    ensures o.Proxy? ==>
              && !Missing(Authorization(req))
              && ExtractApiKey(Authorization(req).value).ApiKey?
              && AuthorizationKey in o.request.headers
              && o.request.headers[AuthorizationKey] ==
                   Normalize(BearerPrefix + ExtractApiKey(Authorization(req).value).key)
  {
    MessagesDistinct();
    var auth := Authorization(req);
    if Missing(auth) then Respond(401, MissingMessage)
    else match ExtractApiKey(auth.value)
      case NoKey => Respond(401, InvalidMessage)
      case DecodeThrows => Uncaught(InvalidCharacter)
      case ApiKey(key) => Forward(cfg, req, BearerPrefix + key)
  }

  /** The handler of `(.*)`. */
  function NotFoundHandler(): (o: Outcome)
    ensures o.Respond? && o.status == 404 && o.message == NotFoundMessage
  {
    Respond(404, NotFoundMessage)
  }

  /** The router: the first route whose pattern matches handles the request
      and ends it. */
  function Dispatch(cfg: Config, req: Inbound): (o: Outcome)
    ensures o == Respond(404, NotFoundMessage) <==> Classify(req.pathname) == Unmatched
    ensures o.Respond? ==> o.status == 401 || o.status == 404
    ensures Classify(req.pathname) != Unmatched && Missing(Authorization(req)) ==>
              o == Respond(401, MissingMessage)
    ensures o == Respond(401, InvalidMessage) ==> Classify(req.pathname) == AgileApi
    ensures o.Proxy? || o.Uncaught? ==>
              Classify(req.pathname) != Unmatched && !Missing(Authorization(req))
    ensures o.Uncaught? && o.fault == InvalidCharacter ==> Classify(req.pathname) == AgileApi
    ensures o.Proxy? ==>
              && o.request.url == cfg.baseUrl + req.pathname + req.search
              && o.request.verb == req.verb
              && TokenKey in o.request.headers
              && o.request.headers[TokenKey] == NoCheck
              && HostKey in o.request.headers
              && o.request.headers[HostKey] == Normalize(cfg.host)
              && (o.request.body.Some? <==> SendsBody(req.verb))
              && (o.request.body.Some? ==> o.request.body.value == req.body)
  {
    MessagesDistinct();
    match Classify(req.pathname)
    case RestApi => RestHandler(cfg, req)
    case AgileApi => AgileHandler(cfg, req)
    case Unmatched => NotFoundHandler()
  }

  /** The route decides which handler runs. */
  lemma DispatchRoutes(cfg: Config, req: Inbound)
    ensures Classify(req.pathname) == RestApi ==> Dispatch(cfg, req) == RestHandler(cfg, req)
    ensures Classify(req.pathname) == AgileApi ==> Dispatch(cfg, req) == AgileHandler(cfg, req)
  {
  }

  /** A present Authorization value as `get` reads it from the stored name. */
  lemma PresentAuthorization(req: Inbound)
    requires AuthorizationKey in req.headers && req.headers[AuthorizationKey] != ""
    ensures Authorization(req) == Some(req.headers[AuthorizationKey])
    ensures !Missing(Authorization(req))
  {
    GetAuthorization(req.headers);
  }

  /** On the REST route a present Authorization value goes upstream as the
      `Headers` object holds it, whatever its scheme; the token and host
      are set and every other header passes through. */
  lemma RestForwardsVerbatim(cfg: Config, req: Inbound)
    requires Classify(req.pathname) == RestApi
    requires WellFormed(req.headers) && ValidConfig(cfg)
    requires AuthorizationKey in req.headers && req.headers[AuthorizationKey] != ""
    ensures Dispatch(cfg, req).Proxy?
    ensures var h := Dispatch(cfg, req).request.headers;
            && h.Keys == req.headers.Keys + OverwrittenNames
            && h[AuthorizationKey] == req.headers[AuthorizationKey]
            && h[TokenKey] == NoCheck
            && h[HostKey] == cfg.host
            && forall k :: k in req.headers && k !in OverwrittenNames ==> h[k] == req.headers[k]
  {
    var auth := req.headers[AuthorizationKey];
    PresentAuthorization(req);
    DispatchRoutes(cfg, req);
    assert Dispatch(cfg, req) == Forward(cfg, req, auth);
    NormalizeFixesNormalized(auth);
    NormalizeFixesNormalized(cfg.host);
    var out := BuildRequest(cfg, req, auth).value;
    assert Dispatch(cfg, req).request == out;
    RewrittenValues(cfg, req.headers, auth);
    RewriteKeepsOthers(cfg, req.headers, auth);
  }

  /** On the Agile route a credential from which a key comes out is sent
      on as `Bearer <key>`, normalized the way `Headers.set` does it; a key
      holding NUL, CR or LF makes that `set` throw instead. */
  lemma AgileForwardsBearer(cfg: Config, req: Inbound, key: string)
    requires Classify(req.pathname) == AgileApi && ValidConfig(cfg)
    requires AuthorizationKey in req.headers
    requires ExtractApiKey(req.headers[AuthorizationKey]) == ApiKey(key)
    ensures Dispatch(cfg, req).Proxy? <==> !HasForbiddenChar(Normalize(BearerPrefix + key))
    ensures Dispatch(cfg, req).Uncaught? <==> HasForbiddenChar(Normalize(BearerPrefix + key))
    ensures Dispatch(cfg, req).Proxy? ==>
              AuthorizationKey in Dispatch(cfg, req).request.headers &&
              Dispatch(cfg, req).request.headers[AuthorizationKey] == Normalize(BearerPrefix + key)
    ensures Dispatch(cfg, req).Proxy? ==>
              var h := Dispatch(cfg, req).request.headers;
              && h.Keys == req.headers.Keys + OverwrittenNames
              && h[HostKey] == cfg.host
              && forall k :: k in req.headers && k !in OverwrittenNames ==> h[k] == req.headers[k]
  {
    var auth := req.headers[AuthorizationKey];
    assert auth != "";
    PresentAuthorization(req);
    DispatchRoutes(cfg, req);
    assert Dispatch(cfg, req) == Forward(cfg, req, BearerPrefix + key);
    NormalizeFixesNormalized(cfg.host);
  }

  /** With the program's own configuration, every forwarded request goes
      to the Jira Cloud site and names it in `Host`. */
  lemma ForwardsToJiraCloud(req: Inbound)
    ensures var o := Dispatch(JiraCloud, req);
            o.Proxy? ==>
              && o.request.url == "https://pozitim.atlassian.net" + req.pathname + req.search
              && o.request.headers[HostKey] == "pozitim.atlassian.net"
  {
    var o := Dispatch(JiraCloud, req);
    if o.Proxy? {
      JiraCloudIsValid();
      NormalizeFixesNormalized(JiraCloud.host);
      assert o.request.headers[HostKey] == JiraCloud.host;
    }
  }

  /** A GET or HEAD is forwarded without a body; any other method carries
      the inbound body. */
  lemma BodyOnlyWithoutGetOrHead(cfg: Config, req: Inbound)
    requires Dispatch(cfg, req).Proxy?
    ensures req.verb == "GET" || req.verb == "HEAD" ==> Dispatch(cfg, req).request.body == None
    ensures req.verb != "GET" && req.verb != "HEAD" ==> Dispatch(cfg, req).request.body == Some(req.body)
  {
  }

  lemma BearerPrefixIsPlain()
    ensures |BearerPrefix| > 0 && !IsHttpWhitespace(BearerPrefix[0])
    ensures !HasForbiddenChar(BearerPrefix)
  {
    var v := BearerPrefix;
    assert v[0] == 'B';
    assert !HasForbiddenChar(v);
  }

  /** A key that does not end in whitespace and holds no NUL, CR or LF
      reaches the upstream exactly as `Bearer <key>`. */
  lemma BearerIsExact(key: string)
    requires key != [] && !IsHttpWhitespace(key[|key| - 1]) && !HasForbiddenChar(key)
    ensures Normalize(BearerPrefix + key) == BearerPrefix + key
    ensures !HasForbiddenChar(BearerPrefix + key)
  {
    var v := BearerPrefix + key;
    BearerPrefixIsPlain();
    assert v[0] == BearerPrefix[0] && v[|v| - 1] == key[|key| - 1];
    assert IsNormalized(v);
    NormalizeFixesNormalized(v);
    ForbiddenInConcat(BearerPrefix, key);
  }

  /** The round trip the Agile route exists for: a client that sends its
      API token as the password of an RFC 7617 credential reaches the
      upstream with `Bearer <token>`. */
  lemma BasicBecomesBearer(cfg: Config, req: Inbound, user: string, token: string)
    requires Classify(req.pathname) == AgileApi && ValidConfig(cfg)
    requires IsLatin1(user + ":" + token) && ':' !in user && ':' !in token
    requires token != [] && !IsHttpWhitespace(token[|token| - 1]) && !HasForbiddenChar(token)
    requires AuthorizationKey in req.headers
    requires req.headers[AuthorizationKey] == BasicHeader(user, token)
    ensures Dispatch(cfg, req).Proxy?
    ensures Dispatch(cfg, req).request.headers[AuthorizationKey] == BearerPrefix + token
  {
    BasicHeaderPassword(user, token);
    BearerIsExact(token);
    AgileForwardsBearer(cfg, req, token);
  }

  /** On the Agile route a credential that yields no key is refused: no
      `Basic ` scheme, no colon, or nothing after the first colon. */
  lemma AgileRefusesNoKey(cfg: Config, req: Inbound)
    requires Classify(req.pathname) == AgileApi
    requires AuthorizationKey in req.headers && req.headers[AuthorizationKey] != ""
    requires ExtractApiKey(req.headers[AuthorizationKey]) == NoKey
    ensures Dispatch(cfg, req) == Respond(401, InvalidMessage)
  {
    PresentAuthorization(req);
    DispatchRoutes(cfg, req);
  }

  /** A credential with an empty password is refused on the Agile route. */
  lemma EmptyPasswordRefused(cfg: Config, req: Inbound, user: string)
    requires Classify(req.pathname) == AgileApi
    requires IsLatin1(user + ":") && ':' !in user
    requires AuthorizationKey in req.headers
    requires req.headers[AuthorizationKey] == BasicHeader(user, "")
    ensures Dispatch(cfg, req) == Respond(401, InvalidMessage)
  {
    EmptyPasswordHasNoKey(user);
    AgileRefusesNoKey(cfg, req);
  }

  /** A `Basic ` value that `atob` rejects escapes the Agile handler as an
      exception rather than being answered with 401. */
  lemma MalformedBasicEscapes(cfg: Config, req: Inbound)
    requires Classify(req.pathname) == AgileApi
    requires AuthorizationKey in req.headers
    requires StartsWith(req.headers[AuthorizationKey], BasicPrefix)
    requires DecodedCredentials(req.headers[AuthorizationKey]).None?
    ensures Dispatch(cfg, req) == Uncaught(InvalidCharacter)
  {
    assert req.headers[AuthorizationKey] != "";
    PresentAuthorization(req);
    DispatchRoutes(cfg, req);
  }

  /** The method plays no part in the decision: two requests that differ
      only in method and body end the same way, and when forwarded differ
      only in method and body. */
  lemma MethodDoesNotRoute(cfg: Config, req: Inbound, verb: string, body: seq<byte>)
    ensures var other := req.(verb := verb, body := body);
            var o, o' := Dispatch(cfg, req), Dispatch(cfg, other);
            && o.Respond? == o'.Respond? && o.Proxy? == o'.Proxy? && o.Uncaught? == o'.Uncaught?
            && (!o.Proxy? ==> o == o')
            && (o.Proxy? ==> o.request.(verb := verb, body := o'.request.body) == o'.request)
  {
  }
}
