/** `parseLinkedIn` (src/lib/parsers/linkedin.ts): the JSON-LD mapping,
    with the closing date and the base salary, when the page carries a
    `JobPosting`; otherwise the selector texts and a salary taken from the
    compensation element or else the first job insight. */
module LinkedIn {
  import opened Wrappers
  import opened Strings
  import opened JobTypes
  import opened BaseParser

  /** What the parser reads from the page: the texts `extractText`
      returns for the single-valued selectors, the untrimmed text of the
      compensation elements ('' when there is none), the texts of the
      job-insight elements in document order, and the children of the
      description element, absent when no element matches. */
  datatype Page = Page(
    scripts: seq<ScriptBlock>,
    title: string,
    company: string,
    location: string,
    section: Option<seq<Block>>,
    postedDate: string,
    compensation: string,
    insights: seq<string>)

  // ---------------------------------------------------------------------
  // JSON-LD

  /** The `let location` set by the `if / else if` on the type of
      `jobLocation`: the string itself, or the locality of an object. */
  function JobLocationText(loc: JobLocation): (r: Option<string>)
    ensures loc.LocationText? ==> r == Some(loc.text)
    ensures loc.NoLocation? ==> r.None?
    ensures loc.LocationObject? && loc.address.None? ==> r.None?
  {
    if loc.LocationText? then Some(loc.text)
    else if loc.LocationObject? then
      (if loc.address.Some? then loc.address.value.addressLocality else None)
    else None
  }

  /** The branch on the type of `jobLocation` agrees with the optional
      chain the other parsers use. */
  lemma JobLocationTextIsShared(loc: JobLocation)
    ensures JobLocationText(loc) == LocationOf(loc)
  {
  }

  /** The JSON-LD branch: the shared mapping plus `validThrough` and the
      base salary rendered with its currency. */
  function JsonLdRecord(j: JsonLd, url: string): (r: ParserResult)
    ensures r.(salary := None, validThrough := None) == MapJobPosting(j, url)
    ensures r.validThrough == j.validThrough
    ensures r.salary.Some? <==> j.baseSalary.Some?
    ensures j.baseSalary.Some? ==>
              r.salary == Some(SalaryRange(j.baseSalary.value.minValue,
                                           j.baseSalary.value.maxValue,
                                           j.baseSalary.value.currency))
  {
    JobLocationTextIsShared(j.jobLocation);
    var salary :=
      if j.baseSalary.Some? then
        var a := j.baseSalary.value;
        Some(SalaryRange(a.minValue, a.maxValue, a.currency))
      else None;
    NoFields.(
      title := j.title,
      company := if j.hiringOrganization.Some? then j.hiringOrganization.value.name else None,
      location := JobLocationText(j.jobLocation),
      description := j.description,
      datePosted := j.datePosted,
      validThrough := j.validThrough,
      employmentType := j.employmentType,
      salary := salary,
      url := Some(url),
      language := Some(DetectLanguage(j.description.GetOr(""))),
      needsEnrichment := Some(true))
  }

  // ---------------------------------------------------------------------
  // the DOM branch

  /** `.first().text().trim()` of the job insights. */
  function FirstInsight(insights: seq<string>): string {
    if insights == [] then "" else Trim(insights[0])
  }

  /** The salary text: the trimmed compensation text, or else the first
      trimmed insight. */
  function SalaryText(compensation: string, insights: seq<string>): (r: string)
    ensures IsTrimmed(r)
    ensures Trim(compensation) != "" ==> r == Trim(compensation)
    ensures Trim(compensation) == "" ==> r == FirstInsight(insights)
    ensures r == "" <==> Trim(compensation) == "" && (insights == [] || Trim(insights[0]) == "")
  {
    OrElse(Trim(compensation), FirstInsight(insights))
  }

  /** The object literal the DOM branch returns. */
  function DomRecord(page: Page, url: string, description: string, salary: string): (r: ParserResult)
    ensures r.title == Some(page.title) && r.company == Some(page.company) && r.location == Some(page.location)
    ensures r.description == Some(description)
    ensures r.salary.None? <==> salary == ""
    ensures r.salary.Some? ==> r.salary.value == salary
    ensures r.postedDate == Some(page.postedDate)
    ensures r.jobType.None? && r.requirements.None? && r.responsibilities.None? && r.benefits.None?
    ensures r.language == Some(DetectLanguage(if description != "" then description else page.title))
    ensures r.url == Some(url) && r.needsEnrichment == Some(true)
  {
    NoFields.(
      title := Some(page.title),
      company := Some(page.company),
      location := Some(page.location),
      description := Some(description),
      postedDate := Some(page.postedDate),
      salary := NonEmptyText(salary),
      url := Some(url),
      language := Some(DetectLanguage(OrElse(description, page.title))),
      needsEnrichment := Some(true))
  }

  /** `parseLinkedIn(html, url)`. */
  function ParseLinkedIn(page: Page, url: string): (r: ParserResult)
    ensures r.url == Some(url) && r.needsEnrichment == Some(true)
    ensures JsonLdSearch(page.scripts, JobPostingType).Some? ==>
              r == JsonLdRecord(JsonLdSearch(page.scripts, JobPostingType).value, url)
    ensures JsonLdSearch(page.scripts, JobPostingType).None? ==>
              r.salary == NonEmptyText(SalaryText(page.compensation, page.insights))
  {
    match JsonLdSearch(page.scripts, JobPostingType)
    case Some(j) => JsonLdRecord(j, url)
    case None =>
      DomRecord(page, url, Description(page.section), SalaryText(page.compensation, page.insights))
  }
}
