/** The pure part of `proxyRequest` (index.ts): the upstream URL, the
    rewritten header list and the decision whether a body goes along. The
    `fetch` call itself and the relaying of its response are not modelled. */
module Forwarding {
  import opened Common
  import opened Headers

  /** The upstream target. `host` stands for `new URL(baseUrl).host`. */
  datatype Config = Config(baseUrl: string, host: string)

  /** `API_SERVER` and its host. */
  const JiraCloud: Config := Config("https://pozitim.atlassian.net", "pozitim.atlassian.net")

  /** A host the `Host` header can carry. */
  predicate ValidConfig(cfg: Config) {
    IsValidValue(cfg.host)
  }

  /** The request as the router hands it over; `body` is the content of the
      inbound body stream. */
  datatype Inbound = Inbound(verb: string, pathname: string, search: string,
                             headers: HeaderMap, body: seq<byte>)

  /** The request given to `fetch`. */
  datatype Outbound = Outbound(verb: string, url: string, headers: HeaderMap,
                               body: Option<seq<byte>>)

  // The same names as a `Headers` object stores them.
  const AuthorizationKey: string := "authorization"
  const TokenKey: string := "x-atlassian-token"
  const HostKey: string := "host"

  /** The names `proxyRequest` overwrites, as stored. */
  const OverwrittenNames: set<string> := {AuthorizationKey, TokenKey, HostKey}

  // The header names `proxyRequest` sets, as written there.
  const AuthorizationName: string := "Authorization"
  const TokenName: string := "X-Atlassian-Token"
  const HostName: string := "Host"

  lemma AuthorizationLowered() ensures Lower(AuthorizationName) == AuthorizationKey {
    LowerByChars(AuthorizationName, AuthorizationKey);
  }

  lemma TokenLowered() ensures Lower(TokenName) == TokenKey {
    LowerByChars(TokenName, TokenKey);
  }

  lemma HostLowered() ensures Lower(HostName) == HostKey {
    LowerByChars(HostName, HostKey);
  }

  /** `get("Authorization")` reads the stored name `authorization`. */
  lemma GetAuthorization(h: HeaderMap)
    ensures Get(h, AuthorizationName) ==
              if AuthorizationKey in h then Some(h[AuthorizationKey]) else None
  {
    AuthorizationLowered();
  }

  lemma StoredNamesDistinct()
    ensures AuthorizationKey != TokenKey && AuthorizationKey != HostKey && TokenKey != HostKey
  {
    assert AuthorizationKey[0] == 'a' && TokenKey[0] == 'x' && HostKey[0] == 'h';
  }

  /** The value `proxyRequest` gives `X-Atlassian-Token`. */
  const NoCheck: string := "no-check"

  /** `NoCheck` is stored unchanged. */
  lemma NoCheckIsValid()
    ensures IsValidValue(NoCheck) && Normalize(NoCheck) == NoCheck
  {
    var v := NoCheck;
    assert IsNormalized(v);
    assert !HasForbiddenChar(v);
    NormalizeFixesNormalized(v);
  }

  /** Only methods other than GET and HEAD send the body on. */
  predicate SendsBody(verb: string) {
    verb != "GET" && verb != "HEAD"
  }

  /** Setting `X-Atlassian-Token` never throws. */
  lemma TokenSetSucceeds(h: HeaderMap)
    ensures Set(h, TokenName, NoCheck).Success?
  {
    NoCheckIsValid();
  }

  /** A copy of the inbound headers with `Authorization`, `X-Atlassian-Token`
      and `Host` set, in that order; the first `set` that throws ends it. */
  function RewriteHeaders(cfg: Config, inbound: HeaderMap, auth: string): (r: Result<HeaderMap, Fault>)
    ensures r.Success? <==>
              !HasForbiddenChar(Normalize(auth)) && !HasForbiddenChar(Normalize(cfg.host))
    ensures r.Failure? ==> r.error == InvalidHeaderValue
  {
    var first := Set(inbound, AuthorizationName, auth);
    if first.Failure? then Failure(first.error)
    else
      TokenSetSucceeds(first.value);
      var second := Set(first.value, TokenName, NoCheck);
      Set(second.value, HostName, cfg.host)
  }

  /** The rewrite as three map updates under the stored (lower-case) names. */
  lemma RewriteIsUpdate(cfg: Config, inbound: HeaderMap, auth: string)
    requires RewriteHeaders(cfg, inbound, auth).Success?
    ensures RewriteHeaders(cfg, inbound, auth).value ==
              inbound[AuthorizationKey := Normalize(auth)][TokenKey := NoCheck][HostKey := Normalize(cfg.host)]
  {
    AuthorizationLowered();
    TokenLowered();
    HostLowered();
    NoCheckIsValid();
  }

  /** Updating the three stored names one after another. */
  lemma ThreeUpdates(m: HeaderMap, a: string, t: string, ho: string)
    ensures var h := m[AuthorizationKey := a][TokenKey := t][HostKey := ho];
            && OverwrittenNames <= h.Keys
            && h[AuthorizationKey] == a && h[TokenKey] == t && h[HostKey] == ho
            && h.Keys == m.Keys + OverwrittenNames
            && forall k :: k in m && k !in OverwrittenNames ==> h[k] == m[k]
  {
    StoredNamesDistinct();
  }

  /** After the rewrite the three names carry the new values. */
  lemma RewrittenValues(cfg: Config, inbound: HeaderMap, auth: string)
    requires RewriteHeaders(cfg, inbound, auth).Success?
    ensures var h := RewriteHeaders(cfg, inbound, auth).value;
            && OverwrittenNames <= h.Keys
            && h[AuthorizationKey] == Normalize(auth)
            && h[TokenKey] == NoCheck
            && h[HostKey] == Normalize(cfg.host)
  {
    RewriteIsUpdate(cfg, inbound, auth);
    ThreeUpdates(inbound, Normalize(auth), NoCheck, Normalize(cfg.host));
  }

  /** No name but the three appears, and every other header is as it came
      in. */
  lemma RewriteKeepsOthers(cfg: Config, inbound: HeaderMap, auth: string)
    requires RewriteHeaders(cfg, inbound, auth).Success?
    ensures var h := RewriteHeaders(cfg, inbound, auth).value;
            && h.Keys == inbound.Keys + OverwrittenNames
            && forall k :: k in inbound && k !in OverwrittenNames ==> h[k] == inbound[k]
  {
    RewriteIsUpdate(cfg, inbound, auth);
    ThreeUpdates(inbound, Normalize(auth), NoCheck, Normalize(cfg.host));
  }

  /** The rewrite keeps the shape every `Headers` object has. */
  lemma RewriteKeepsWellFormed(cfg: Config, inbound: HeaderMap, auth: string)
    requires WellFormed(inbound)
    requires RewriteHeaders(cfg, inbound, auth).Success?
    ensures WellFormed(RewriteHeaders(cfg, inbound, auth).value)
  {
    NoCheckIsValid();
    var h1 := Set(inbound, AuthorizationName, auth).value;
    SetThenGet(inbound, AuthorizationName, auth);
    var h2 := Set(h1, TokenName, NoCheck).value;
    SetThenGet(h1, TokenName, NoCheck);
    SetThenGet(h2, HostName, cfg.host);
  }

  /** The outbound request for the inbound one and the chosen Authorization
      value: same method, the path and query appended to the base URL, the
      headers rewritten, and the body sent exactly when the method is
      neither GET nor HEAD. */
  function BuildRequest(cfg: Config, req: Inbound, auth: string): (r: Result<Outbound, Fault>)
    ensures r.Success? <==>
              !HasForbiddenChar(Normalize(auth)) && !HasForbiddenChar(Normalize(cfg.host))
    ensures r.Failure? ==> r.error == InvalidHeaderValue
    ensures r.Success? ==>
              var out := r.value;
              && out.verb == req.verb
              && out.url == cfg.baseUrl + req.pathname + req.search
              && RewriteHeaders(cfg, req.headers, auth) == Success(out.headers)
              && (out.body.Some? <==> SendsBody(req.verb))
              && (out.body.Some? ==> out.body.value == req.body)
  {
    match RewriteHeaders(cfg, req.headers, auth)
    case Failure(f) => Failure(f)
    case Success(h) =>
      Success(Outbound(req.verb, cfg.baseUrl + req.pathname + req.search, h,
                       if SendsBody(req.verb) then Some(req.body) else None))
  }

  /** The configured upstream can always be named in a `Host` header. */
  lemma JiraCloudIsValid()
    ensures ValidConfig(JiraCloud)
  {
  }
}
