# Demo frontend and secure file server, modelled in Dafny

The repository is a browser demo page that calls a download API and reports
telemetry, plus a small Python file server behind HTTP Basic authentication.
This project models the parts of it that carry logic:

- **Request log** (`RequestLog`, `Frontend.Page`): `addLog` puts the newest
  API result in front and keeps at most six. The page controller is a class
  that owns `requestLog`, the two status texts the handlers write and the list
  of exceptions handed to the error reporter.
- **API client** (`ApiClient`): the headers `callApi` sends (a JSON
  `Content-Type` default under the caller's headers) and the result it builds
  from a response: `ok`, `status`, the parsed body or the raw text, and the
  `x-request-id` and `traceparent` headers, absent when missing.
- **Action handlers** (`Frontend.Page.Handle*`): each handler is one atomic
  step. It sets its status text from `ok` where the page does so, and logs
  the result. A transport failure is reported and leaves the log untouched.
- **Basic credential check** (`BasicAuth`, `Base64`, `Utf8`): `check_auth`
  takes the second space-separated field of `Authorization`, decodes it as
  base64 (section 4 of RFC 4648) and then as UTF-8, splits it at the first
  colon and looks the pair up in the fixed user table. `do_GET`/`do_HEAD`
  serve the file only when that check passes and otherwise send the 401
  challenge of section 2 of RFC 7617.
- **Tracing setup** (`Otel`, `Config`): `initOtel` returns early without an
  exporter URL. Otherwise it builds the source text of the CORS pattern: `^`
  followed by the API base with every regular-expression special character
  escaped by a backslash.

The transport (`fetch`, `res.text()`) is a parameter `send` that returns a
response or a transport failure. `JSON.parse` is a parameter `parse`, a
partial function to an arbitrary value type. Environment variables are
`Option<string>` values.

The result's trace field is `traceparent`, the name `callApi` gives it
(frontend/src/main.js:38).

## Model

| member | source | states |
|---|---|---|
| Base64.CharOf | secure_file_server.py:34 | the alphabet character of a 6-bit value decodes back to that value |
| Base64.Encode | secure_file_server.py:34 | the encoding the server's decoder inverts: length 4·⌈n/3⌉, only alphabet characters and `=` |
| Base64.Decode | secure_file_server.py:34 | strict decoding succeeds only on a length that is a multiple of four, yielding at most three octets per group |
| Base64.DecodeEncode | secure_file_server.py:34 | decoding the encoding of any octet string gives it back |
| Utf8.DecodeFirst | secure_file_server.py:34 | one sequence of 1 to 4 octets is read, one octet exactly when it is ASCII, and the octets read are the shortest-form encoding of the character returned |
| Utf8.Decode | secure_file_server.py:34 | `.decode('utf-8')` yields at most one character per octet, or fails |
| Utf8.DecodeEncode | secure_file_server.py:34 | decoding the UTF-8 encoding of any string gives it back |
| Utf8.EncodeDecode | secure_file_server.py:34 | whatever decodes to a string is that string's encoding, so overlong forms, surrogates and values above U+10FFFF are refused |
| BasicAuth.Split | secure_file_server.py:34 | `split(' ')` yields at least one field, no field contains the separator, and the fields joined with it are the input |
| BasicAuth.SplitUnique | secure_file_server.py:34 | any separator-free fields that join to a string are exactly its split |
| BasicAuth.Token | secure_file_server.py:34 | `split(' ')[1]` fails exactly when the header has no space; the token itself has no space |
| BasicAuth.TokenOf | secure_file_server.py:34 | the token is the text between the first and the second space (or the end of the header), whatever the scheme word before it and whatever follows it |
| BasicAuth.Partition | secure_file_server.py:35 | `split(':', 1)` into two names fails exactly when there is no colon; otherwise the first part has no colon and the parts rejoin to the input |
| BasicAuth.PartitionAtFirst | secure_file_server.py:35 | the split is at the first colon only, so a password containing colons is kept whole |
| BasicAuth.Credentials | secure_file_server.py:34-35 | when the token decodes as base64 and then as UTF-8, the result is exactly the split of that text at its first colon; no token, bad base64 or bad UTF-8 gives no pair |
| BasicAuth.CheckAuth | secure_file_server.py:27-44 | a missing header is refused; otherwise the header is accepted iff its decoded pair is a key of the table with exactly that value |
| BasicAuth.AcceptsBuiltHeader | secure_file_server.py:34-38 | for a user with no colon, `scheme + " " + base64(utf8(user:password))`, optionally followed by further space-separated fields, is accepted iff the table maps user to password |
| BasicAuth.RefusesWithoutSpace | secure_file_server.py:34-42 | a header without a space, where `split(' ')[1]` raises IndexError, is refused |
| BasicAuth.RefusesBadBase64 | secure_file_server.py:34-42 | a token that is not valid base64 is refused, not raised |
| BasicAuth.RefusesBadUtf8 | secure_file_server.py:34-42 | decoded octets that are not UTF-8 are refused |
| BasicAuth.RefusesWithoutColon | secure_file_server.py:35-42 | decoded text without a colon is refused |
| BasicAuth.AuthHead | secure_file_server.py:20-25 | the challenge has status 401 and `WWW-Authenticate: Basic realm="Secure File Server"` |
| BasicAuth.Handle | secure_file_server.py:46-57 | the request is served, with its own verb, iff the check passes; otherwise the reply is the 401 challenge |
| BasicAuth.DoGet | secure_file_server.py:46-51 | GET is served iff the check passes, and challenged otherwise |
| BasicAuth.DoHead | secure_file_server.py:53-57 | HEAD is served iff the check passes, and challenged otherwise |
| BasicAuth.MissingHeaderIsChallenged | secure_file_server.py:28-30 | a request with no Authorization header always gets the 401 challenge |
| Config.ApiBase | frontend/src/main.js:9 | an unset API base becomes `http://localhost:3000`; a set one, even empty, is kept |
| ApiClient.MergeHeaders | frontend/src/main.js:19-22 | the sent headers are the caller's keys plus `Content-Type`; each caller value is kept; `application/json` is used unless the caller gives `Content-Type` |
| ApiClient.BuildRequest | frontend/src/main.js:17-23 | the URL is base plus path; method and body pass through; the headers are the merged ones |
| ApiClient.IsOk | frontend/src/main.js:34 | `res.ok` holds exactly for statuses of the 2xx class |
| ApiClient.HeaderGet | frontend/src/main.js:37-38 | a header lookup is present iff the header is, with its value |
| ApiClient.BodyData | frontend/src/main.js:25-31 | `data` is the parsed value when the text parses, and the raw text verbatim otherwise |
| ApiClient.Normalize | frontend/src/main.js:33-39 | `ok` iff the status is 2xx; status copied; data as above; the two ids are the lookups of `x-request-id` and `traceparent` |
| ApiClient.CallApi | frontend/src/main.js:16-40 | a transport failure is passed on unchanged; any response is normalised, so a parse failure never escapes |
| ApiClient.MissingIdsAreAbsent | frontend/src/main.js:37-38 | without the correlation headers both ids are absent, never empty strings |
| RequestLog.Push | frontend/src/main.js:50 | the new log has length min(old + 1, 6), the entry at index 0 and the old entries after it in their old order |
| RequestLog.ReplayKeepsNewest | frontend/src/main.js:50 | after any sequence of additions the log holds the last min(count, 6) entries, newest first |
| RequestLog.LongReplay | frontend/src/main.js:50 | after more than six additions the log is exactly the last six, in reverse order of addition |
| RequestLog.NoDeduplication | frontend/src/main.js:50 | an entry added twice appears at indices 0 and 1 |
| Frontend.HealthLabel | frontend/src/main.js:57-59 | the label is "healthy" iff `ok`, and "unhealthy" iff not |
| Frontend.JobMessage | frontend/src/main.js:86-92 | the job message is the success text iff `ok`, and the failure text iff not |
| Frontend.PostInit | frontend/src/main.js:69-72 | the check, start and diagnostic calls are POSTs with the given body and no headers of their own |
| Frontend.HealthLabelOfResponse | frontend/src/main.js:54-59 | a health response reads "healthy" iff its status is 2xx |
| Frontend.Page.constructor | frontend/src/main.js:9-11 | a loaded page has an empty log, untouched status texts and the configured API base |
| Frontend.Page.AddLog | frontend/src/main.js:49-52 | the log becomes `Push(old log, entry)`, stays within six entries, and nothing else changes |
| Frontend.Page.Report | frontend/src/main.js:61-63 | a caught exception is appended to the reported ones and nothing else changes |
| Frontend.Page.HandleHealth | frontend/src/main.js:54-64 | on a response the label follows `ok` and the result is logged; on a transport failure the failure is reported and log and label are unchanged |
| Frontend.Page.HandleCheckFile | frontend/src/main.js:66-77 | on a response the result is logged; on a transport failure it is reported and the log is unchanged |
| Frontend.Page.HandleStartDownload | frontend/src/main.js:79-97 | on a response the job message follows `ok` and the result is logged; on a transport failure it is reported and log and message are unchanged |
| Frontend.Page.HandleSentryTest | frontend/src/main.js:99-110 | on a response the result is logged; on a transport failure it is reported and the log is unchanged |
| Otel.IsSpecial | frontend/src/otel.js:36 | a character is special exactly when it is one of `- / \ ^ $ * + ? . ( ) \| [ ] { }`, the regular expression's class |
| Otel.Escape | frontend/src/otel.js:36 | the escaped length is the input length plus the number of special characters, and only the empty string escapes to the empty string |
| Otel.EscapeAppend | frontend/src/otel.js:36 | escaping works character by character: the escape of a concatenation is the concatenation of the escapes |
| Otel.EscapeOfPlain | frontend/src/otel.js:36 | a string without special characters is copied unchanged |
| Otel.UnescapeEscape | frontend/src/otel.js:36 | removing the backslash before each special character gives back the input |
| Otel.EscapeUnescape | frontend/src/otel.js:36 | every string that unescapes to `s` is the escape of `s`: the escaped form is unique |
| Otel.CorsPattern | frontend/src/otel.js:34-37 | the pattern is `^` followed by text that unescapes to the API base, which defaults as in main.js |
| Otel.InitOtel | frontend/src/otel.js:11-37 | nothing is set up iff the exporter URL is unset or empty; otherwise the setup uses that URL, the service name and the CORS pattern |

## Left out

- `fetch`, the network and `res.text()` are the parameter `send`. Retries and timeouts do not exist in the source.
- `JSON.parse` is the abstract parameter `parse`. `JSON.stringify` of request bodies is left out: handlers take the serialised body as a string. `Number()` of the input field is left out with it.
- Response header names are taken as already lower-cased, as the `Headers` object does for `get`. Joining repeated headers with `", "` is not modelled. The request's header object compares keys letter for letter, so a caller's `content-type` sits beside the default `Content-Type`. How `fetch` then combines the two is not modelled.
- DOM work is left out: `renderLog`, `createBadge` and the event-listener wiring. The status texts are fields that hold the chosen string.
- Handlers that run concurrently and complete in any order are not modelled. Each handler call is one atomic step.
- The Sentry SDK is not modelled (frontend/src/sentry.js is not part of this model). The OpenTelemetry provider, exporter, propagator and instrumentation are not modelled either. `captureException` is recorded as an append to `reported`.
- Regular-expression matching with `corsRegex` is left out: only the pattern's source text is modelled.
- BasicAuth.AuthHead: `send_response(401)` also sends the `Server` and `Date` headers. The model lists only the two headers the handler adds itself.
- ApiClient.RequestInit: `...init` passes every field of `init` through to `fetch`. The model's record carries only the method, the body and the headers, the fields the handlers use.
- The server loop, file serving by `SimpleHTTPRequestHandler`, `run_server`, folder creation and every `print` are left out. This includes the logged "Authentication error" message.
- Base64.Decode: decodes strictly, so it refuses tokens that Python's default (non-strict) `b64decode` accepts. In those cases `CheckAuth` can refuse a header the server accepts. The unused low bits of a padded final group are not checked, as in Python. Python's decoder differs in three ways:
  - it drops every ASCII character outside the alphabet. A non-ASCII character makes it raise an error, so such a header is refused there as here;
  - it skips every `=` that does not complete its group's padding. That is one before the group's second data character (`ajpqb3lvbnRh==` gives `j:joyonta`), or a single one after it that more data follows (`YW=Jj` gives `abc`);
  - it stops at the first complete padding and ignores the rest, so `YQ==anything` decodes to `a`.
