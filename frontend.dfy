/** The page controller of frontend/src/main.js: the module-level `requestLog`
    and the two text fields the handlers write, held by one object. Each
    handler is one atomic step: the awaited `callApi` is the pure
    `ApiClient.CallApi` over the transport given to the handler. */
module Frontend {
  import opened Wrappers
  import opened ApiClient
  import Config
  import RequestLog

  const HealthPath := "/health"
  const CheckPath := "/v1/download/check"
  const StartPath := "/v1/download/start"
  const SentryTestPath := "/v1/download/check?sentry_test=true"

  const Healthy := "healthy"
  const Unhealthy := "unhealthy"
  const DownloadStarted := "Download started \U{2014} watch Jaeger for traces."
  const DownloadFailed := "Download failed \U{2014} check Sentry/Jaeger."

  /** The `.health-status` text for a result. */
  function HealthLabel(ok: bool): (text: string)
    ensures text == Healthy <==> ok
    ensures text == Unhealthy <==> !ok
  {
    if ok then Healthy else Unhealthy
  }

  /** The `.job-message` text after a start-download call. */
  function JobMessage(ok: bool): (message: string)
    ensures message == DownloadStarted <==> ok
    ensures message == DownloadFailed <==> !ok
  {
    if ok then DownloadStarted else DownloadFailed
  }

  /** A POST with the given (already serialised) JSON body. */
  function PostInit(body: string): (init: RequestInit)
    ensures init.httpMethod == Some("POST") && init.body == Some(body) && init.headers.None?
  {
    RequestInit(Some("POST"), Some(body), None)
  }

  /** A response to the health check with a 2xx status reads "healthy", any
      other status "unhealthy". */
  lemma HealthLabelOfResponse<J>(res: HttpResponse, parse: string -> Option<J>)
    ensures HealthLabel(Normalize(res, parse).ok) == Healthy <==> 200 <= res.status <= 299
  {
  }

  class Page<J> {
    const apiBase: string
    var requestLog: seq<ApiResult<J>>
    /** The texts written to `.health-status` and `.job-message`; None while
        the page still shows its initial text. */
    var healthStatus: Option<string>
    var jobMessage: Option<string>
    /** The exceptions given to `Sentry.captureException`, oldest first. */
    var reported: seq<TransportError>

    /** The log never holds more than six entries; every method keeps this,
        including the failure paths that leave the log as it was. */
    ghost predicate Valid()
      reads this
    {
      |requestLog| <= RequestLog.Capacity
    }

    /** Page load: an empty log, the API base from the environment. */
    constructor (apiBaseEnv: Option<string>)
      ensures Valid()
      ensures apiBase == Config.ApiBase(apiBaseEnv)
      ensures requestLog == [] && healthStatus.None? && jobMessage.None? && reported == []
    {
      apiBase := Config.ApiBase(apiBaseEnv);
      requestLog := [];
      healthStatus := None;
      jobMessage := None;
      reported := [];
    }

    /** addLog: the entry goes in front and the log is cut to six. */
    method AddLog(entry: ApiResult<J>)
      requires Valid()
      modifies this
      ensures Valid()
      ensures requestLog == RequestLog.Push(old(requestLog), entry)
      ensures healthStatus == old(healthStatus) && jobMessage == old(jobMessage)
      ensures reported == old(reported)
    {
      requestLog := ([entry] + requestLog)[..RequestLog.Min(|requestLog| + 1, RequestLog.Capacity)];
    }

    /** The catch block of every handler. */
    method Report(error: TransportError)
      modifies this
      ensures reported == old(reported) + [error]
      ensures requestLog == old(requestLog)
      ensures healthStatus == old(healthStatus) && jobMessage == old(jobMessage)
    {
      reported := reported + [error];
    }

    /** handleHealth: the label follows `ok`, and the result is logged; a
        transport failure is reported and changes nothing else. */
    method HandleHealth(send: Request -> Result<HttpResponse, TransportError>, parse: string -> Option<J>)
      requires Valid()
      modifies this
      ensures Valid()
      ensures jobMessage == old(jobMessage)
      ensures match CallApi(apiBase, HealthPath, NoInit, send, parse)
        case Success(result) =>
          && healthStatus == Some(HealthLabel(result.ok))
          && requestLog == RequestLog.Push(old(requestLog), result)
          && reported == old(reported)
        case Failure(error) =>
          && healthStatus == old(healthStatus)
          && requestLog == old(requestLog)
          && reported == old(reported) + [error]
    {
      var outcome := CallApi(apiBase, HealthPath, NoInit, send, parse);
      match outcome {
        case Success(result) =>
          healthStatus := Some(HealthLabel(result.ok));
          AddLog(result);
        case Failure(error) =>
          Report(error);
      }
    }

    /** handleCheckFile: the result is logged; a transport failure is reported. */
    method HandleCheckFile(body: string, send: Request -> Result<HttpResponse, TransportError>,
                           parse: string -> Option<J>)
      requires Valid()
      modifies this
      ensures Valid()
      ensures healthStatus == old(healthStatus) && jobMessage == old(jobMessage)
      ensures match CallApi(apiBase, CheckPath, PostInit(body), send, parse)
        case Success(result) =>
          requestLog == RequestLog.Push(old(requestLog), result) && reported == old(reported)
        case Failure(error) =>
          requestLog == old(requestLog) && reported == old(reported) + [error]
    {
      var outcome := CallApi(apiBase, CheckPath, PostInit(body), send, parse);
      match outcome {
        case Success(result) => AddLog(result);
        case Failure(error) => Report(error);
      }
    }

    /** handleStartDownload: the job message follows `ok`, and the result is
        logged; a transport failure is reported and changes nothing else. */
    method HandleStartDownload(body: string, send: Request -> Result<HttpResponse, TransportError>,
                               parse: string -> Option<J>)
      requires Valid()
      modifies this
      ensures Valid()
      ensures healthStatus == old(healthStatus)
      ensures match CallApi(apiBase, StartPath, PostInit(body), send, parse)
        case Success(result) =>
          && jobMessage == Some(JobMessage(result.ok))
          && requestLog == RequestLog.Push(old(requestLog), result)
          && reported == old(reported)
        case Failure(error) =>
          && jobMessage == old(jobMessage)
          && requestLog == old(requestLog)
          && reported == old(reported) + [error]
    {
      var outcome := CallApi(apiBase, StartPath, PostInit(body), send, parse);
      match outcome {
        case Success(result) =>
          if result.ok {
            jobMessage := Some(DownloadStarted);
          } else {
            jobMessage := Some(DownloadFailed);
          }
          AddLog(result);
        case Failure(error) =>
          Report(error);
      }
    }

    /** handleSentryTest: like handleCheckFile, on the diagnostic path. */
    method HandleSentryTest(body: string, send: Request -> Result<HttpResponse, TransportError>,
                            parse: string -> Option<J>)
      requires Valid()
      modifies this
      ensures Valid()
      ensures healthStatus == old(healthStatus) && jobMessage == old(jobMessage)
      ensures match CallApi(apiBase, SentryTestPath, PostInit(body), send, parse)
        case Success(result) =>
          requestLog == RequestLog.Push(old(requestLog), result) && reported == old(reported)
        case Failure(error) =>
          requestLog == old(requestLog) && reported == old(reported) + [error]
    {
      var outcome := CallApi(apiBase, SentryTestPath, PostInit(body), send, parse);
      match outcome {
        case Success(result) => AddLog(result);
        case Failure(error) => Report(error);
      }
    }
  }
}
