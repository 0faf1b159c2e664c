/** The `POST` handler of src/app/api/extract-job-text/route.ts: check that
    the pasted `text` holds at least fifty characters once trimmed, have the
    model extract the job from it, and map every failure to a status and a
    message. The chat-completion call and `JSON.parse` of its answer are
    input functions. */
module ExtractJobTextRoute {
  import opened Wrappers
  import opened Strings
  import opened JobTypes

  /** What `await request.json()` and `const { text } = body` give: a value
      thrown while reading the body, or the `text` key (absent, or a
      string). */
  datatype RequestBody = Unreadable(error: Caught) | Body(text: Option<string>)

  /** What `openai.chat.completions.create` gives: the `content` of the
      first choice (absent when there is no choice or no content), or the
      value it threw. */
  datatype Completion = Completed(content: Option<string>) | CallFailed(error: Caught)

  /** What `JSON.parse` gives: the record, or the error it threw. */
  datatype Parsed = ParsedJob(job: JobData) | ParseFailed(error: Caught)

  /** What `extractJobInformationFromText` gives: the record, or the value
      it rethrew. */
  datatype ModelOutcome = Answered(job: JobData) | Failed(error: Caught)

  const MinLength: nat := 50
  const TooShort: string :=
    "Please provide more text content from the job offer (minimum 50 characters)"
  const TextInputUrl: string := "N/A - Direct text input"

  /** `extractJobInformationFromText(jobText)`: ask the model, parse its
      answer (`''` when there is none) and stamp the placeholder URL;
      whatever the call or the parse throws is thrown again. */
  function ExtractFromText(jobText: string, complete: string -> Completion, parse: string -> Parsed): (r: ModelOutcome)
    ensures complete(jobText).CallFailed? ==> r == Failed(complete(jobText).error)
    ensures complete(jobText).Completed? ==>
              var answer := complete(jobText).content.GetOr("");
              match parse(answer)
              case ParsedJob(job) => r == Answered(job.(url := TextInputUrl))
              case ParseFailed(e) => r == Failed(e)
    ensures r.Answered? ==> r.job.url == TextInputUrl
  {
    match complete(jobText)
    case CallFailed(e) => Failed(e)
    case Completed(content) =>
      match parse(content.GetOr(""))
      case ParsedJob(job) => Answered(job.(url := TextInputUrl))
      case ParseFailed(e) => Failed(e)
  }

  /** `!text || text.trim().length < 50` fails: there is a text with at
      least fifty characters left after trimming. */
  predicate LongEnough(text: Option<string>) {
    text.Some? && text.value != "" && |Trim(text.value)| >= MinLength
  }

  /** `POST(request)`. The untrimmed text goes to the model. */
  function ExtractJobText(body: RequestBody, complete: string -> Completion, parse: string -> Parsed): (r: Reply)
    ensures r.status == 200 || r.status == 400 || r.status == 500
    ensures r.body.success <==> r.status == 200
    ensures !r.body.success ==> r.body.data.None? && r.body.error.Some?
    ensures r.status == 400 <==> body.Body? && !LongEnough(body.text)
    ensures r.status == 400 ==> r.body.error == Some(TooShort)
    ensures body.Unreadable? ==> r == Failure(500, CaughtMessage(body.error))
    ensures body.Body? && LongEnough(body.text) ==>
              match ExtractFromText(body.text.value, complete, parse)
              case Answered(job) => r.status == 200 && r.body.data == Some(job)
              case Failed(e) => r == Failure(500, CaughtMessage(e))
    ensures r.body.success ==> r.body.data.Some? && r.body.data.value.url == TextInputUrl
  {
    match body
    case Unreadable(e) => Failure(500, CaughtMessage(e))
    case Body(text) =>
      if !LongEnough(text) then Failure(400, TooShort)
      else
        match ExtractFromText(text.value, complete, parse)
        case Answered(job) => Reply(200, ExtractResponse(true, Some(job), None))
        case Failed(e) => Failure(500, CaughtMessage(e))
  }

  /** Only the trimmed text is measured: surrounding white space neither
      helps nor hurts. */
  lemma WhiteSpaceDoesNotCount(text: string)
    ensures LongEnough(Some(text)) <==> LongEnough(Some(Trim(text)))
  {
    TrimTrimmed(Trim(text));
  }

  /** The bound is inclusive: a trimmed text of exactly fifty characters
      goes to the model, one of forty-nine is refused. */
  lemma ThresholdInclusive(text: string)
    requires IsTrimmed(text)
    ensures |text| == MinLength ==> LongEnough(Some(text))
    ensures |text| == MinLength - 1 ==> !LongEnough(Some(text))
  {
    TrimTrimmed(text);
  }

  /** A refused text never reaches the model: the reply is the same
      whatever the model and the parser would have done. */
  lemma RejectedBeforeModel(body: RequestBody, c1: string -> Completion, p1: string -> Parsed,
                            c2: string -> Completion, p2: string -> Parsed)
    requires body.Body? && !LongEnough(body.text)
    ensures ExtractJobText(body, c1, p1) == ExtractJobText(body, c2, p2)
  {
  }
}
