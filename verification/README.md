# jira-gateway: a Dafny model of the credential-translating router

The gateway (`index.ts`) sits in front of a Jira Cloud site. It matches
each request against three routes, in this order:

- `/rest/api/2/…` forwards the caller's `Authorization` header unchanged.
- `/rest/agile/1.0/…` reads the API token out of a Basic credential and
  forwards it as a Bearer token.
- Every other path gets a 404.

The forwarded request is built the same way for both API routes:

- the upstream base URL followed by the request's path and query;
- the inbound headers, with `Authorization`, `X-Atlassian-Token: no-check`
  and `Host` set;
- the body, only when the method is neither GET nor HEAD.

This project models that decision logic as pure functions and proves what
it guarantees. The modules follow the program's layers:

- `Common` holds `Option`, `Result`, octets and the two kinds of exception
  the model needs: a `DOMException` from `atob`, and a `TypeError` from
  `Headers.set`.
- `Text` covers prefix tests, JavaScript's `split` on one character and its
  inverse `join`, and the Latin-1 "binary string" that `atob` returns.
- `Base64` covers `atob`, which is the forgiving-base64 decode of the WHATWG
  Infra Standard over the alphabet of section 4 of RFC 4648. It also has
  the padded encoder of that section, which is what a client uses to build
  the credential. The two are tied together by a round-trip proof.
- `Credentials` covers `extractApiKeyFromBasicAuth` and the RFC 7617
  credential shape `user-id ":" password`.
- `Headers` covers the parts of the Fetch `Headers` object that are used:
  - names are case-insensitive;
  - `get` returns the value or `null`;
  - `set` trims HTTP whitespace from the value and throws on NUL, CR, LF or
    any character above U+00FF.
- `Forwarding` covers the pure part of `proxyRequest`: the URL, the header
  rewrite and the body decision.
- `Gateway` covers the three handlers and the router (`Dispatch`).
- `Stages` reads the same decision as a four-stage pipeline: classify the
  path, check that a credential is present, translate it, forward. It
  proves that the pipeline ends in the router's outcome.

Three behaviours of the code are easy to misread:

- The key is the text between the first and the second colon of the
  decoded credential, not everything after the first colon.
- A Basic value that `atob` rejects makes `atob` throw. The Agile handler
  does not catch the exception, so the request never gets the 401
  "Invalid Basic authorization header" response. The model gives this case
  its own outcome, `Uncaught`.
- An empty `Authorization` value counts as missing, because the code tests
  it with `!authHeader`.

## Model

| member | source | states |
|---|---|---|
| Credentials.ExtractApiKey | index.ts:7-17 | A header without the exact `Basic ` prefix gives `null`. The extractor throws exactly when the prefix is there and `atob` rejects the rest. A returned key is never empty and never contains `:`. |
| Credentials.DecodedCredentials | index.ts:12-13 | The text after `Basic ` decoded by `atob` is a Latin-1 binary string, at most three characters per four encoded ones. `None` stands for the `atob` exception. |
| Credentials.ApiKeyIsSecondField | index.ts:14-16 | The key is the decoded text's field between the first colon and the next colon (or the end). `null` comes back exactly when there is no colon or that field is empty. |
| Credentials.ApiKeyPrefixOfPassword | index.ts:14 | A returned key is a prefix of the text after the first colon. |
| Credentials.BasicHeaderKey | index.ts:12-16 | For an RFC 7617 credential `Basic base64(user ":" password)` with a colon-free user, the result is the password up to its first colon, or `null` if that is empty. |
| Credentials.BasicHeaderPassword | index.ts:12-16 | A non-empty, colon-free password comes back whole as the key. |
| Credentials.ColonInPasswordTruncates | index.ts:14 | A password `head ":" tail` yields only `head`, which is not what RFC 7617 intends. |
| Credentials.EmptyPasswordHasNoKey | index.ts:16 | An empty password gives `null`, not an empty key. |
| Base64.DecodeEncode | index.ts:13 | `atob` accepts every padded RFC 4648 encoding and returns exactly the encoded octets. |
| Base64.DecodeEncodeDigits | index.ts:13 | Decoding the unpadded digits of an encoding returns the octets. |
| Base64.DecodeRejectsForeignChar | index.ts:13 | A character that is not whitespace, not `=` and not in the alphabet makes `atob` fail, wherever it appears. |
| Base64.RemoveWhitespace | index.ts:13 | The result holds no ASCII whitespace, every non-whitespace character of the input occurs in it, and input without whitespace is unchanged. |
| Base64.RemoveWhitespaceChar | index.ts:13 | A single character is dropped exactly when it is ASCII whitespace. |
| Base64.RemoveWhitespaceConcat | index.ts:13 | Removing whitespace from a concatenation concatenates the results. With the one-character case, this fixes the result as the input's non-whitespace characters in their order, each once. |
| Base64.DecodedLength | index.ts:13 | Every four digits decode to three octets, and a trailing two or three digits to one or two. |
| Base64.ForgivingDecode | index.ts:13 | `atob` never returns more than three octets per four input characters. Its partners are DecodeEncode (every padded encoding is accepted and decoded back) and DecodeRejectsForeignChar (any foreign character makes it throw). |
| Base64.DigitValue | index.ts:13 | Reading a digit is the inverse of the alphabet table. |
| Text.Split | index.ts:14 | `split(":")` returns at least one field, and no field contains the separator. JoinSplit and SplitJoin make it the inverse of `join`, and SplitSecondField pins the field the extractor reads. |
| Text.SplitSecondField | index.ts:14 | `split(":")` has a second element exactly when the text has a colon, and that element is the field between the first and second colon. |
| Text.JoinSplit | index.ts:14 | Joining the fields of `split` with the separator gives the text back. |
| Text.SplitJoin | index.ts:14 | Splitting the join of separator-free fields gives the fields back. |
| Headers.Normalize | index.ts:26-30 | The value `set` stores has no HTTP whitespace at either end. |
| Headers.NormalizeTrims | index.ts:26-30 | That value is the input with its surrounding HTTP whitespace removed and nothing else changed. |
| Headers.NormalizeFixesNormalized | index.ts:26-30 | A value without surrounding whitespace is stored unchanged. |
| Headers.Set | index.ts:26-30 | `set` succeeds exactly when the normalized value has no NUL, CR, LF or non-Latin-1 character. Otherwise it throws a TypeError. |
| Headers.SetThenGet | index.ts:26-30 | After `set`, `get` of the same name in any case returns the normalized value. At most that one name is added, every other header is unchanged, and a well-formed list stays well-formed. |
| Headers.Get | index.ts:52 | A value `get` reads from a well-formed `Headers` object is trimmed and holds no forbidden character. |
| Headers.GetIgnoresCase | index.ts:52 | `get` of any spelling of a name reads the same entry as its lower-case spelling. |
| Forwarding.GetAuthorization | index.ts:52 | `get("Authorization")` reads the header stored as `authorization`. |
| Forwarding.RewriteHeaders | index.ts:23-30 | The rewrite succeeds exactly when neither the credential nor the host holds a forbidden character once trimmed. Its only failure is the `set` TypeError. |
| Forwarding.RewriteIsUpdate | index.ts:23-30 | A successful rewrite is the inbound map updated at `authorization`, `x-atlassian-token` and `host`, in that order, with the trimmed values. |
| Forwarding.RewrittenValues | index.ts:26-30 | After the rewrite, `authorization`, `x-atlassian-token` and `host` hold the trimmed credential, `no-check` and the trimmed host. |
| Forwarding.RewriteKeepsOthers | index.ts:23-30 | The rewrite adds no names but those three, and every other inbound header keeps its value. |
| Forwarding.RewriteKeepsWellFormed | index.ts:23-30 | The rewritten list still has lower-case names and valid values. |
| Forwarding.BuildRequest | index.ts:21-32 | The outbound request keeps the method, its URL is base URL ++ pathname ++ search, and its headers are the rewrite. A body is attached iff the method is neither GET nor HEAD, and it is the inbound body. It fails only when a `set` throws. |
| Gateway.PrefixesDisjoint | index.ts:51-65 | No path falls under both API routes, so the order of the two handlers cannot change which one runs. |
| Gateway.Classify | index.ts:51-94 | A path goes to the REST route iff it starts with `/rest/api/2/`, and to the Agile route iff it starts with `/rest/agile/1.0/`. |
| Gateway.Forward | index.ts:20-32 | A forwarded request is exactly the one `proxyRequest` builds. It goes to the URL built from the request and keeps the method. Its headers are the inbound ones plus the trimmed credential, `no-check` and the trimmed host, and every other inbound header is unchanged. It has a body iff the method is neither GET nor HEAD, and that body is the inbound one. A `set` that throws escapes as an exception. |
| Gateway.RestHandler | index.ts:51-62 | The REST handler answers on its own only with 401 "Authorization header is missing", exactly when the credential is missing or empty. Otherwise it forwards the credential trimmed, or the `set` TypeError escapes. |
| Gateway.AgileHandler | index.ts:65-88 | The Agile handler answers 401 "Authorization header is missing" exactly when the credential is missing or empty. It answers 401 "Invalid Basic authorization header" exactly when a present credential yields no key. The `atob` exception escapes exactly when a present credential fails to decode. A forwarded request carries `Bearer <key>`, trimmed. |
| Gateway.NotFoundHandler | index.ts:91-94 | Any other path is answered with 404 "Not Found". |
| Gateway.Dispatch | index.ts:51-94 | 404 "Not Found" iff no API route matches. An API route with a missing or empty credential gets 401 "Authorization header is missing". "Invalid Basic authorization header" and the escaping `atob` exception happen only on the Agile route. A forwarded request always comes from an API route with a credential, and always has the built URL, the same method, `no-check` and the trimmed host. It carries the inbound body iff the method is neither GET nor HEAD. |
| Gateway.RestForwardsVerbatim | index.ts:51-61 | On the REST route, a present credential goes upstream exactly as received, whatever its scheme. The host and token are set, and every other header passes through. |
| Gateway.AgileForwardsBearer | index.ts:65-87 | On the Agile route, a credential that yields a key is forwarded as the trimmed `Bearer <key>`. It escapes as an exception exactly when that value holds NUL, CR or LF. A forwarded request sets `Host` to the configured host, adds no names but the three, and passes every other inbound header through unchanged. |
| Gateway.ForwardsToJiraCloud | index.ts:21-30 | With the program's own `API_SERVER`, a forwarded request goes to `https://pozitim.atlassian.net` followed by the path and query, and carries `Host: pozitim.atlassian.net`. |
| Gateway.BodyOnlyWithoutGetOrHead | index.ts:32 | A forwarded GET or HEAD has no body. Any other forwarded method carries the inbound body. |
| Gateway.BearerIsExact | index.ts:84 | A key that does not end in whitespace and holds no NUL, CR or LF is sent exactly as `Bearer <key>`. |
| Gateway.BasicBecomesBearer | index.ts:65-87 | A client sending its token as the password of an RFC 7617 credential reaches the upstream with `Authorization: Bearer <token>`. |
| Gateway.AgileRefusesNoKey | index.ts:75-81 | On the Agile route, a present credential that yields no key gets 401 "Invalid Basic authorization header". |
| Gateway.EmptyPasswordRefused | index.ts:75-81 | On the Agile route, a Basic credential with an empty password is refused with that 401. |
| Gateway.MalformedBasicEscapes | index.ts:65-81 | On the Agile route, a `Basic ` value that `atob` rejects escapes as an exception instead of getting the 401. |
| Gateway.MethodDoesNotRoute | index.ts:51-94 | The method and body play no part in the decision. Two requests that differ only in them end the same way, and if forwarded they differ only in method and body. |
| Stages.Step | index.ts:51-94 | Each stage either ends the request or hands it to a strictly later stage. From a stage on the router's track, the next stage carries exactly the route and credential the router works with, and a stage that ends the request ends it with the router's outcome. |
| Stages.Serve | index.ts:51-94 | Running the stages in a loop until one ends the request gives the router's outcome. |
| Stages.RunFromReached | index.ts:51-94 | From any stage the pipeline reaches, the remaining stages end in the router's outcome. |
| Stages.PipelineIsRouter | index.ts:51-94 | The staged pipeline and the router agree on every request. |

## Left out

- `fetch`, relaying the upstream status, headers and body, and streaming the request body (index.ts:32-43) are network I/O. The body is the octets of the inbound stream, present or absent, and a network failure in `fetch` is not modelled.
- `console.log` (index.ts:34, 100) is logging only.
- The Oak `Application`, `router.routes()`, `router.allowedMethods()` and `app.listen` (index.ts:47-48, 97-101) are a framework and a socket. The framework's 500 response to an escaping exception is shown only as the `Uncaught` outcome. Methods that `router.all` does not register, which `allowedMethods` answers, are not modelled.
- Gateway.Classify: it matches by an exact, case-sensitive prefix. The router's pattern library also matches:
  - paths case-insensitively;
  - the bare `/rest/api/2` and `/rest/agile/1.0`;
  - a trailing slash.

  It also refuses an empty segment (`//`) in the wildcard part, and the router may percent-decode the path before matching.
- `new URL(baseUrl).host` (index.ts:30) is a URL parser. The host is a field of `Forwarding.Config`, and `Forwarding.JiraCloud` gives the one the program uses.
- Headers.Set: header names are assumed valid. The `TypeError` for an invalid name cannot occur, because the three names are constants. Combining repeated inbound header values into one is taken as already done.
- Gateway.RestForwardsVerbatim: it assumes the inbound header list is well-formed (lower-case names, trimmed values with no forbidden character), since that is how a `Headers` object holds them. It does not describe arbitrary maps.
- Forwarding.BuildRequest: `new Headers(ctx.request.headers)` is modelled as an exact copy of the inbound list. That matches the source only for a well-formed list: lower-case names, trimmed values and no forbidden character. A `Headers` object always holds its entries that way. Other maps, which a `Headers` object cannot hold, are not normalized or rejected.
- `atob` returns a "binary string" with one character per octet. The model turns decoded octets into characters one to one (`Text.BinaryString`), which is that same string.
