/** The pure part of `callApi` in frontend/src/main.js: the request it sends
    and the uniform result it makes of the response. The transport (`fetch`
    and `res.text()`) and the JSON parser are parameters: `send` gives the
    response or a transport failure (the promise `callApi` rejects with), and
    `parse` is JSON.parse as a partial function to an arbitrary value type. */
module ApiClient {
  import opened Wrappers

  /** The caller's `init`; the headers are a plain object, None when absent. */
  datatype RequestInit = RequestInit(httpMethod: Option<string>, body: Option<string>,
                                     headers: Option<map<string, string>>)

  const NoInit := RequestInit(None, None, None)

  /** What is given to `fetch`. */
  datatype Request = Request(url: string, httpMethod: Option<string>, body: Option<string>,
                             headers: map<string, string>)

  /** The response as `fetch` delivers it; `headers` is keyed by lower-case
      names, as the Headers object normalises them for `get`. */
  datatype HttpResponse = HttpResponse(status: int, body: string, headers: map<string, string>)

  datatype TransportError = TransportError(reason: string)

  /** The parsed body, or the raw text when it is not JSON. */
  datatype Data<J> = Parsed(value: J) | Raw(text: string)

  datatype ApiResult<J> = ApiResult(ok: bool, status: int, data: Data<J>,
                                    requestId: Option<string>, traceparent: Option<string>)

  const ContentType := "Content-Type"
  const JsonMediaType := "application/json"
  const RequestIdHeader := "x-request-id"
  const TraceparentHeader := "traceparent"

  /** `{"Content-Type": "application/json", ...(init.headers ?? {})}`: the
      default is there unless the caller gives the same key, in which case the
      caller's value wins; every caller header is kept as given. Keys of a
      plain object are compared exactly, letter case included. */
  function MergeHeaders(caller: Option<map<string, string>>): (h: map<string, string>)
    ensures h.Keys == {ContentType} + (if caller.Some? then caller.value.Keys else {})
    ensures caller.Some? ==> forall k :: k in caller.value ==> k in h && h[k] == caller.value[k]
    ensures (caller.None? || ContentType !in caller.value) ==> h[ContentType] == JsonMediaType
  {
    map[ContentType := JsonMediaType] + caller.GetOr(map[])
  }

  /** `fetch(API_BASE + path, {...init, headers: merged})`: every field of
      `init` but the headers goes through untouched. */
  function BuildRequest(base: string, path: string, init: RequestInit): (r: Request)
    ensures r.url == base + path
    ensures r.httpMethod == init.httpMethod && r.body == init.body
    ensures r.headers == MergeHeaders(init.headers)
  {
    Request(base + path, init.httpMethod, init.body, MergeHeaders(init.headers))
  }

  /** Response.ok: the status is in the range 200-299, the 2xx class. */
  predicate IsOk(status: int)
    ensures IsOk(status) <==> status / 100 == 2
  {
    200 <= status <= 299
  }

  /** `res.headers.get(name)`: the value, or null when the header is absent. */
  function HeaderGet(headers: map<string, string>, name: string): (r: Option<string>)
    ensures r.Some? <==> name in headers
    ensures r.Some? ==> r.value == headers[name]
  {
    if name in headers then Some(headers[name]) else None
  }

  /** `let data = text; try { data = JSON.parse(text) } catch {}`: a parse
      failure is kept as the text, verbatim, and never escapes. */
  function BodyData<J>(text: string, parse: string -> Option<J>): (d: Data<J>)
    ensures parse(text).Some? ==> d == Parsed(parse(text).value)
    ensures parse(text).None? ==> d == Raw(text)
  {
    match parse(text)
    case Some(v) => Parsed(v)
    case None => Raw(text)
  }

  /** The result record built from a response. */
  function Normalize<J>(res: HttpResponse, parse: string -> Option<J>): (r: ApiResult<J>)
    ensures r.ok <==> IsOk(res.status)
    ensures r.status == res.status
    ensures r.data == BodyData(res.body, parse)
    ensures r.requestId == HeaderGet(res.headers, RequestIdHeader)
    ensures r.traceparent == HeaderGet(res.headers, TraceparentHeader)
  {
    ApiResult(IsOk(res.status), res.status, BodyData(res.body, parse),
              HeaderGet(res.headers, RequestIdHeader), HeaderGet(res.headers, TraceparentHeader))
  }

  /** callApi: a transport failure is passed on to the caller unchanged;
      otherwise the response is normalised. */
  function CallApi<J>(base: string, path: string, init: RequestInit,
                      send: Request -> Result<HttpResponse, TransportError>,
                      parse: string -> Option<J>): (r: Result<ApiResult<J>, TransportError>)
    ensures send(BuildRequest(base, path, init)).Failure? ==>
              r == Failure(send(BuildRequest(base, path, init)).error)
    ensures send(BuildRequest(base, path, init)).Success? ==>
              r == Success(Normalize(send(BuildRequest(base, path, init)).value, parse))
  {
    match send(BuildRequest(base, path, init))
    case Failure(e) => Failure(e)
    case Success(res) => Success(Normalize(res, parse))
  }

  /** When no correlation header came back, both ids are absent, never an
      empty string. */
  lemma MissingIdsAreAbsent<J>(res: HttpResponse, parse: string -> Option<J>)
    requires RequestIdHeader !in res.headers && TraceparentHeader !in res.headers
    ensures Normalize(res, parse).requestId.None? && Normalize(res, parse).traceparent.None?
  {
  }
}
