/** The record types shared by the parsers, the cache and the API routes. */
module JobTypes {
  import opened Wrappers

  /** `JobData`: the normalised job record. The open set of extra keys
      that the source type allows is not modelled. */
  datatype JobData = JobData(
    title: string,
    company: string,
    location: Option<string>,
    salary: Option<string>,
    jobType: Option<string>,
    description: string,
    requirements: Option<seq<string>>,
    responsibilities: Option<seq<string>>,
    benefits: Option<seq<string>>,
    postedDate: Option<string>,
    applicationDeadline: Option<string>,
    contactInfo: Option<string>,
    url: string,
    language: string)

  /** `ParserResult`: a `Partial<JobData>` (every field optional) plus the
      `needsEnrichment` flag, and the extra keys the parsers add beyond
      the fields of `JobData` (`datePosted`, `validThrough`,
      `employmentType`, `jobId`). */
  datatype ParserResult = ParserResult(
    title: Option<string>,
    company: Option<string>,
    location: Option<string>,
    salary: Option<string>,
    jobType: Option<string>,
    description: Option<string>,
    requirements: Option<seq<string>>,
    responsibilities: Option<seq<string>>,
    benefits: Option<seq<string>>,
    postedDate: Option<string>,
    applicationDeadline: Option<string>,
    contactInfo: Option<string>,
    url: Option<string>,
    language: Option<string>,
    datePosted: Option<string>,
    validThrough: Option<string>,
    employmentType: Option<string>,
    jobId: Option<string>,
    needsEnrichment: Option<bool>)

  /** `ExtractResponse`: the JSON body the API routes answer with. */
  datatype ExtractResponse = ExtractResponse(success: bool, data: Option<JobData>, error: Option<string>)

  /** `NextResponse.json(body, { status })`. */
  datatype Reply = Reply(status: nat, body: ExtractResponse)

  /** A value a `catch` clause receives: an `Error`, with its message, or
      any other thrown value. */
  datatype Caught = ErrorInstance(message: string) | OtherValue

  const UnknownError: string := "Unknown error occurred"

  /** An error reply of the API routes: `{ success: false, error }` with the given status. */
  function Failure(status: nat, message: string): (r: Reply)
    ensures r.status == status && !r.body.success && r.body.data.None? && r.body.error == Some(message)
  {
    Reply(status, ExtractResponse(false, None, Some(message)))
  }

  /** The message the routes' outer `catch` reports: the message of an
      `Error`, or the fixed text. */
  function CaughtMessage(e: Caught): (m: string)
    ensures e.ErrorInstance? ==> m == e.message
    ensures e.OtherValue? ==> m == UnknownError
  {
    if e.ErrorInstance? then e.message else UnknownError
  }

  /** The empty object literal `{}`: every key absent. */
  const NoFields: ParserResult := ParserResult(
    None, None, None, None, None, None, None, None, None, None,
    None, None, None, None, None, None, None, None, None)

  /** `xs.length > 0 ? xs : undefined`. */
  function NonEmptyList(xs: seq<string>): (r: Option<seq<string>>)
    ensures r.None? <==> xs == []
    ensures r.Some? ==> r.value == xs
  {
    if |xs| > 0 then Some(xs) else None
  }

  /** `s || undefined` for a string. */
  function NonEmptyText(s: string): (r: Option<string>)
    ensures r.None? <==> s == ""
    ensures r.Some? ==> r.value == s
  {
    if s != "" then Some(s) else None
  }
}
