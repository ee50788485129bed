# http-mock: the client-side reader of the recorded-request log

This project models, in Dafny, the part of http-mock that a test process uses
to read the mock server's request log:

- `RequestCollectionFacade` sends one control request per lookup (`latest`,
  `last`, `first`, `at`, `pop`, `shift`, `count`) to a `/_request/...`
  endpoint. For every lookup but `count` it accepts the reply only if its
  status is the string `200` and its content type starts with `text/plain`. It then decodes the recorded
  request and applies the metadata the server observed (host, port, basic
  credentials, user agent, form fields).
- `UnifiedRequest` wraps the rebuilt request. Its constructor copies every
  params entry that names a declared property (`wrapped`, `userAgent`).
  `getUserAgent` returns the object's own `userAgent` property, null unless
  the params gave one. Every other accessor forwards to the wrapped request.

Modules:

- `PhpStrings`: PHP byte strings. A byte is written as the `char` with that
  code. Also PHP's integer-to-string conversion with a parser proved to
  invert it, and `substr($s, 0, $n)`.
- `Base64`: the encoding of section 4 of RFC 4648 (what `base64_encode`
  produces), plus a strict decoder. Both round trips are proved.
- `BasicAuth`: the `Basic` credentials of section 2 of RFC 7617. The parser
  is proved to read back the user-id and password of any header built from a
  user-id without a colon.
- `Guzzle`: the Guzzle request the reader mutates, as a class whose fields
  are the message parts. Guzzle itself is not part of this model, so its
  setters are plain field updates.
- `Unified`: the `UnifiedRequest` class. `Init` is a loop proved against the
  specification function `Assign`.
- `Facade`: the endpoint mapping and its inverse, the reply check
  `CheckReply`, the specification `Configured`/`ParamsOf` of
  `configureRequest`, and the methods that do the work: `ConfigureRequest`,
  `ParseRequestFromReply`, `ParseReply` and `Read`.

The reader restores the form fields of a POST request only when its body is
a form body (`$body instanceof PostBodyInterface`,
src/RequestCollectionFacade.php:132-138).

## Model

| member | source | states |
|---|---|---|
| `PhpStrings.IntToStringRoundTrip` | src/RequestCollectionFacade.php:50-53 | the decimal text `at` appends to the path reads back as the position, negative positions included |
| `PhpStrings.IntToStringInjective` | src/RequestCollectionFacade.php:50-53 | distinct positions give distinct path suffixes |
| `PhpStrings.Prefix` | src/RequestCollectionFacade.php:171 | `substr($s, 0, $n)` has length min(n, length of s) and agrees with s on it |
| `Base64.EncodeLength` | src/RequestCollectionFacade.php:122 | `base64_encode` output has length 4 * ceil(n / 3) |
| `Base64.DecodeEncode` | src/RequestCollectionFacade.php:122 | decoding the encoding of any byte string gives the byte string back |
| `Base64.EncodeDecode` | src/RequestCollectionFacade.php:122 | every string the decoder accepts is the encoding of what it decodes to |
| `Base64.EncodeAlphabet` | src/RequestCollectionFacade.php:122 | the encoding uses only the 64-character alphabet and `=` |
| `BasicAuth.Credentials` | src/RequestCollectionFacade.php:120-123 | the header value starts with `Basic ` |
| `BasicAuth.CredentialsRoundTrip` | src/RequestCollectionFacade.php:117-124 | for a user-id without a colon, the header parses back to exactly that user-id and password |
| `BasicAuth.ColonInUserIsAmbiguous` | src/RequestCollectionFacade.php:122 | with a colon in the user-id, two different credential pairs give the same header |
| `BasicAuth.CredentialsExample` | src/RequestCollectionFacade.php:122 | user `a` with password `bc` gives `Basic YTpiYw==` |
| `Facade.EndpointOf` | src/RequestCollectionFacade.php:25-69 | every lookup's path is under `/_request/`; the verb is DELETE exactly for `pop` and `shift` |
| `Facade.LookupOfEndpoint` | src/RequestCollectionFacade.php:25-69 | each lookup's verb and path name that lookup, with `latest` and `last` both reading `GET /_request/last` |
| `Facade.EndpointsDistinct` | src/RequestCollectionFacade.php:25-69 | two lookups send the same request iff they are equal up to `latest` = `last` |
| `Facade.CheckReply` | src/RequestCollectionFacade.php:157-175 | a reply passes iff its status is exactly `200` and its content type starts with `text/plain`; each failure names the path |
| `Facade.StatusCheckedFirst` | src/RequestCollectionFacade.php:159-165 | a status other than `200` is reported whatever the content type and body |
| `Facade.MissingContentTypeRejected` | src/RequestCollectionFacade.php:167-175 | a missing content type is rejected as the empty string |
| `Facade.ContentTypeExamples` | src/RequestCollectionFacade.php:171 | `text/plain; charset=UTF-8` passes; `text/html`, `text/plai` and `TEXT/PLAIN` fail |
| `Facade.ConfigureRequest` | src/RequestCollectionFacade.php:107-141 | the request's new state is `Configured` of its old state, and the returned params are `ParamsOf(server)` |
| `Facade.ConfiguredLocation` | src/RequestCollectionFacade.php:109-115 | host and port are overridden iff `HTTP_HOST` and `HTTP_PORT` are recorded; method, scheme, path, query and protocol version never change |
| `Facade.ConfiguredAuthorization` | src/RequestCollectionFacade.php:117-124 | `Authorization` is set iff `PHP_AUTH_USER` is recorded, to one `Basic` value that, for a user-id without a colon (PHP never leaves one in `PHP_AUTH_USER`), parses back to the user and the password, or the empty password; all other headers stay as they were |
| `Facade.ConfiguredBody` | src/RequestCollectionFacade.php:132-138 | form fields become the enclosure exactly for a POST form body; every other body is untouched |
| `Facade.ParamsOfKeys` | src/RequestCollectionFacade.php:126-130 | the params hold only the key `userAgent`, and hold it iff `HTTP_USER_AGENT` is recorded |
| `Facade.UserAgentFromServer` | src/RequestCollectionFacade.php:98-104 | the `UnifiedRequest` built from these params reports the recorded user agent, or null, and keeps the wrapped request |
| `Facade.DeliveredRequestReports` | src/Request/UnifiedRequest.php:52-199 | a request read from the log reports the recorded method, scheme, path, query and protocol version; the observed host and port when recorded; every recorded header but `Authorization` unchanged, and `Authorization` as the recorded user's `Basic` credentials when a user was recorded; the recorded user agent or null from `getUserAgent` |
| `Facade.MissingEnclosureClearsFields` | src/RequestCollectionFacade.php:98-102 | a payload without `enclosure` restores the empty field set: the POST form body of a request read from it has no fields |
| `Facade.ParseRequestFromReply` | src/RequestCollectionFacade.php:85-105 | an undecodable body fails naming path and body; otherwise a fresh request carries the configured message (enclosure defaulting to empty) and the recorded user agent |
| `Facade.ParseReply` | src/RequestCollectionFacade.php:157-178 | the reply checks run before decoding; their failure is the result, otherwise the result is that of decoding |
| `Facade.Read` | src/RequestCollectionFacade.php:25-69 | a lookup sends its endpoint and reads the reply as `ParseReply` does, reporting errors against that endpoint's path |
| `Unified.AssignIsLastWrite` | src/Request/UnifiedRequest.php:211-218 | after `init`, each declared property holds the last value given for it, or its old value if none |
| `Unified.AssignOnlyDeclared` | src/Request/UnifiedRequest.php:211-218 | dropping every entry that does not name a declared property does not change the result of `init` |
| `Unified.AssignUndeclaredIsIdentity` | src/Request/UnifiedRequest.php:211-218 | params naming no declared property leave all properties unchanged |
| `Unified.UnifiedRequest.Init` | src/Request/UnifiedRequest.php:211-218 | the loop leaves the properties equal to `Assign` of the old ones and the params |
| `Unified.UnifiedRequest.constructor` | src/Request/UnifiedRequest.php:21-35 | the object wraps the given request, with a null user agent, then runs `init`; with no params `getUserAgent` is null, and with params it is the last `userAgent` given (`Unified.AssignIsLastWrite`) |
| `Unified.UnifiedRequest.GetHeader` | src/Request/UnifiedRequest.php:100-103 | always a single joined line: the wrapped request is asked with `asArray` false |
| `Unified.GetHeaderIgnoresAsArray` | src/Request/UnifiedRequest.php:100-103 | asking for a list gives the same line as not asking, unlike the wrapped request |
| `Unified.UnifiedRequest.GetHeaderAsDocumented` | src/Request/UnifiedRequest.php:85-99 | what the doc comment promises: a list exactly when `asArray` is set |

## Left out

- The server side: the expectation stack, the request log and the dispatch engine. Their source is not part of this model.
- Sending control requests (`$client->get`, `$client->delete`). `Facade.Read` takes the server's reply as a parameter. The facade's only field, `$client`, never changes, so the facade is a module rather than a class.
- `count()`: only its endpoint, `GET /_request/count`, is modelled (`Facade.Lookup.Count`). The `(int)` cast of the reply body is not.
- Facade.Read: requires the lookup not to be `count`, because `count()` never parses its reply as a recorded request.
- Decoding the reply body (`Util::deserialize`) is the parameter `decode`. `MessageFactory::fromMessage` is the constructor `Guzzle.Request.FromMessage` applied to an already-parsed message. A payload that lacks the `request` or `server` key is not modelled.
- Exception messages: the `sprintf` texts and the chained previous exception are not modelled. `Facade.ReadError` records the path and the offending status, content type or body.
- Guzzle itself is not part of this model. In particular: `setHost` and `setPort` also rewrite the URL and the `Host` header; header names are case-insensitive; methods are upper-cased; URL rendering omits default ports. The model's header map is case-sensitive. `Guzzle.Request.GetUrl` always writes the port. `replaceFields` acts on the body object, which the model holds as a value inside the request. Ports are kept as the recorded strings.
- `UnifiedRequest::getConfig` and `__toString`: Guzzle's configuration collection and message serialization are not part of this model.
- Unified.UnifiedRequest.Init: requires each entry for `wrapped` to carry a request, and each entry for `userAgent` a string or null, as the properties' documented types say. PHP would store any value.
- Unified.UnifiedRequest.constructor: the same requirement on `params` as `Init`.
- Form fields and server metadata are maps from strings to strings. Nested arrays and uploaded files in a form body are not modelled.
- `substr` follows PHP 7 and 8. Before PHP 7, `substr('', 0, 10)` returned `false`, which is rejected just the same.
- Concurrency: the reader is single-threaded and none is modelled.

## Findings

| source | as written | input that shows it | evidently intended | confidence | as-written member | corrected member |
|---|---|---|---|---|---|---|
| src/Request/UnifiedRequest.php:100-103 | the call passes `$asArray = false`, an assignment, so the caller's flag is discarded | `getHeader('X', true)` on a request whose header `X` has values `a`, `b` returns `"a, b"` instead of `['a', 'b']` | forward the caller's `$asArray`, as the doc comment at lines 85-99 describes | not executed; high | `Unified.UnifiedRequest.GetHeader`, `Unified.GetHeaderIgnoresAsArray` | `Unified.UnifiedRequest.GetHeaderAsDocumented` |
