/** `parseMonster` (src/lib/parsers/monster.ts): the shared JSON-LD
    mapping when the page carries a `JobPosting`; otherwise the selector
    texts and the items of every bullet list of the description, filed by
    the text of the element just before the list. */
module Monster {
  import opened Wrappers
  import opened Strings
  import opened JobTypes
  import opened BaseParser

  /** What the parser reads from the page: the texts `extractText` returns
      for the single-valued selectors, and the children of the
      description element, absent when no element matches. */
  datatype Page = Page(
    scripts: seq<ScriptBlock>,
    title: string,
    company: string,
    location: string,
    section: Option<seq<Block>>,
    postedDate: string,
    jobType: string)

  // ---------------------------------------------------------------------
  // the lists

  const RequirementCaptions: seq<string> := ["requirement", "qualif", "compétence"]
  const ResponsibilityCaptions: seq<string> := ["responsib", "dutie", "responsabilité"]

  /** The caption tests: requirements first, no benefits branch. */
  function CaptionCategory(caption: string): Category {
    Chain(Lower(caption), RequirementCaptions, ResponsibilityCaptions, [])
  }

  /** The classifier never answers `Benefits`. */
  lemma CaptionNeverBenefits(caption: string)
    ensures CaptionCategory(caption) != Benefits
  {
    assert !ContainsAny(Lower(caption), []);
  }

  /** No list is ever filed under benefits. */
  lemma MonsterListsNoBenefits(blocks: seq<Block>)
    ensures ListScan(blocks, |blocks|, CaptionCategory).benefits == []
  {
    forall t ensures CaptionCategory(t) != Benefits {
      CaptionNeverBenefits(t);
    }
    ListScanNoBenefits(blocks, |blocks|, CaptionCategory);
  }

  /** A list whose caption names neither group adds nothing. */
  lemma ListScanDropsUncaptioned(blocks: seq<Block>, n: nat)
    requires 0 < n <= |blocks| && blocks[n - 1].List?
    requires CaptionCategory(PrevText(blocks, n - 1)) == Unclassified
    ensures ListScan(blocks, n, CaptionCategory) == ListScan(blocks, n - 1, CaptionCategory)
  {
  }

  // ---------------------------------------------------------------------
  // the record

  /** The object literal the DOM branch returns. */
  function DomRecord(page: Page, url: string, description: string, s: Sections): (r: ParserResult)
    ensures r.title == Some(page.title) && r.company == Some(page.company) && r.location == Some(page.location)
    ensures r.description == Some(description)
    ensures r.postedDate == Some(page.postedDate) && r.jobType == Some(page.jobType)
    ensures r.requirements.None? <==> s.requirements == []
    ensures r.requirements.Some? ==> r.requirements.value == s.requirements
    ensures r.responsibilities.None? <==> s.responsibilities == []
    ensures r.responsibilities.Some? ==> r.responsibilities.value == s.responsibilities
    ensures r.salary.None? && r.benefits.None?
    ensures r.datePosted.None? && r.validThrough.None? && r.employmentType.None? && r.jobId.None?
    ensures r.language == Some(DetectLanguage(if description != "" then description else page.title))
    ensures r.url == Some(url) && r.needsEnrichment == Some(true)
  {
    NoFields.(
      title := Some(page.title),
      company := Some(page.company),
      location := Some(page.location),
      description := Some(description),
      postedDate := Some(page.postedDate),
      jobType := Some(page.jobType),
      requirements := NonEmptyList(s.requirements),
      responsibilities := NonEmptyList(s.responsibilities),
      url := Some(url),
      language := Some(DetectLanguage(OrElse(description, page.title))),
      needsEnrichment := Some(true))
  }

  /** What `parseMonster` returns. */
  function MonsterResult(page: Page, url: string): ParserResult {
    match JsonLdSearch(page.scripts, JobPostingType)
    case Some(j) => MapJobPosting(j, url)
    case None =>
      var blocks := page.section.GetOr([]);
      DomRecord(page, url, Description(page.section), ListScan(blocks, |blocks|, CaptionCategory))
  }

  /** `parseMonster(html, url)`. */
  method ParseMonster(page: Page, url: string) returns (r: ParserResult)
    ensures r == MonsterResult(page, url)
    ensures r.url == Some(url) && r.needsEnrichment == Some(true)
    ensures r.benefits.None?
  {
    var jsonLd := ExtractJsonLd(page.scripts, JobPostingType);
    if jsonLd.Some? {
      return MapJobPosting(jsonLd.value, url);
    }
    var description := Description(page.section);
    var s := ScanLists(page.section.GetOr([]), CaptionCategory);
    r := DomRecord(page, url, description, s);
  }
}
