/** The `POST` handler of src/app/api/extract-job/route.ts: validate the
    `url` of the request body, fetch the page and have the model extract
    the job, and map every failure to a status and a message. The fetch
    and the model call are one input function giving either the extracted
    record or the value they threw. */
module ExtractJobRoute {
  import opened Wrappers
  import opened Strings
  import opened JobTypes

  /** What `await request.json()` and `const { url } = body` give: a value
      thrown while reading the body, or the `url` key (absent, or a
      string). */
  datatype RequestBody = Unreadable(error: Caught) | Body(url: Option<string>)

  /** A value thrown by the fetch or the model call, read through the
      `AxiosError` cast: the status of the HTTP response when there is
      one, whether a request went out, and `message` ('' when absent). */
  datatype Thrown = Thrown(responseStatus: Option<nat>, hasRequest: bool, message: string)

  /** The inner `try`: the record the model extracted from the fetched
      page, or what was thrown on the way. */
  datatype Upstream = Extracted(job: JobData) | Threw(error: Thrown)

  const UrlRequired: string := "URL is required"
  const InvalidUrl: string := "Invalid URL format"
  const Forbidden: string :=
    "Access forbidden. This website may be blocking web scraping attempts. Try a different URL or use a website that allows public access."
  const NotFound: string := "The requested page was not found. Please check the URL and try again."
  const TooManyRequests: string := "Too many requests. The website is limiting access. Please try again later."
  const NoResponse: string := "No response received from the website. It may be down or blocking access."
  const FetchFailedPrefix: string := "Failed to fetch the webpage (Status: "
  const RequestErrorPrefix: string := "Error with the request: "

  /** The message for an upstream HTTP error status. */
  function FetchFailureMessage(status: nat): string {
    if status == 403 then Forbidden
    else if status == 404 then NotFound
    else if status == 429 then TooManyRequests
    else FetchFailedPrefix + NatToDecimal(status) + ")"
  }

  /** Outside the three statuses with their own message, the status can
      be read back from the message: different statuses give different
      messages. */
  lemma FetchFailureMessageInjective(s: nat, t: nat)
    requires s !in {403, 404, 429} && t !in {403, 404, 429}
    requires FetchFailureMessage(s) == FetchFailureMessage(t)
    ensures s == t
  {
    var a, b := NatToDecimal(s), NatToDecimal(t);
    var m := FetchFailedPrefix + a + ")";
    assert m == FetchFailedPrefix + b + ")";
    assert |a| == |b|;
    assert a == m[|FetchFailedPrefix|..|FetchFailedPrefix| + |a|];
    assert b == m[|FetchFailedPrefix|..|FetchFailedPrefix| + |b|];
    DecimalRoundTrip(s);
    DecimalRoundTrip(t);
  }

  /** The inner `catch`: every upstream failure is a 500, whatever status
      the website answered with. */
  function CaughtReply(t: Thrown): (r: Reply)
    ensures r.status == 500 && !r.body.success && r.body.data.None?
    ensures t.responseStatus.Some? ==> r.body.error == Some(FetchFailureMessage(t.responseStatus.value))
    ensures t.responseStatus.None? && t.hasRequest ==> r.body.error == Some(NoResponse)
    ensures t.responseStatus.None? && !t.hasRequest ==>
              r.body.error == Some(RequestErrorPrefix + (if t.message != "" then t.message else UnknownError))
  {
    if t.responseStatus.Some? then Failure(500, FetchFailureMessage(t.responseStatus.value))
    else if t.hasRequest then Failure(500, NoResponse)
    else Failure(500, RequestErrorPrefix + OrElse(t.message, UnknownError))
  }

  /** The request passes validation: a non-empty `url` that `new URL`
      accepts. */
  predicate Valid(body: RequestBody, isValidUrl: string -> bool) {
    body.Body? && body.url.Some? && body.url.value != "" && isValidUrl(body.url.value)
  }

  /** `POST(request)`. `isValidUrl` stands for `isValidURL` and `upstream`
      for the fetch followed by the model call. */
  function ExtractJob(body: RequestBody, isValidUrl: string -> bool, upstream: string -> Upstream): (r: Reply)
    ensures r.status == 200 || r.status == 400 || r.status == 500
    ensures r.body.success <==> r.status == 200
    ensures r.body.success ==> r.body.data.Some?
    ensures !r.body.success ==> r.body.data.None? && r.body.error.Some?
    ensures r.status == 400 <==> body.Body? && !Valid(body, isValidUrl)
    ensures body.Body? && (body.url.None? || body.url.value == "") ==> r.body.error == Some(UrlRequired)
    ensures body.Body? && body.url.Some? && body.url.value != "" && !isValidUrl(body.url.value) ==>
              r.body.error == Some(InvalidUrl)
    ensures body.Unreadable? ==> r == Failure(500, CaughtMessage(body.error))
    ensures Valid(body, isValidUrl) && upstream(body.url.value).Extracted? ==>
              r.status == 200 && r.body.data == Some(upstream(body.url.value).job.(url := body.url.value))
    ensures Valid(body, isValidUrl) && upstream(body.url.value).Threw? ==>
              r == CaughtReply(upstream(body.url.value).error)
  {
    match body
    case Unreadable(e) => Failure(500, CaughtMessage(e))
    case Body(url) =>
      if url.None? || url.value == "" then Failure(400, UrlRequired)
      else if !isValidUrl(url.value) then Failure(400, InvalidUrl)
      else
        match upstream(url.value)
        case Extracted(job) => Reply(200, ExtractResponse(true, Some(job.(url := url.value)), None))
        case Threw(t) => CaughtReply(t)
  }

  /** Validation comes before any fetch: a request that fails it gets the
      same reply whatever the website and the model would have done. */
  lemma RejectedBeforeFetch(body: RequestBody, isValidUrl: string -> bool, f: string -> Upstream, g: string -> Upstream)
    requires !Valid(body, isValidUrl)
    ensures ExtractJob(body, isValidUrl, f) == ExtractJob(body, isValidUrl, g)
  {
  }

  /** The successful reply carries the request URL, whatever URL the
      model put in the record. */
  lemma SuccessCarriesRequestUrl(body: RequestBody, isValidUrl: string -> bool, upstream: string -> Upstream)
    requires ExtractJob(body, isValidUrl, upstream).body.success
    ensures body.Body? && body.url.Some?
    ensures ExtractJob(body, isValidUrl, upstream).body.data.value.url == body.url.value
  {
  }
}
