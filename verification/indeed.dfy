/** `parseIndeed` (src/lib/parsers/indeed.ts): the JSON-LD mapping, with
    the estimated salary rendered as a range, when the page carries a
    `JobPosting`; otherwise the selector texts, a salary taken from the
    attribute snippets when the salary selectors give nothing, the job
    type from the labelled section items, and the items of the first
    non-empty paragraph or list after each heading filed into
    requirements or responsibilities. */
module Indeed {
  import opened Wrappers
  import opened Strings
  import opened JobTypes
  import opened BaseParser

  /** One `.jobsearch-JobDescriptionSection-sectionItem`: the texts of its
      key and value elements ('' when the element is missing). */
  datatype SectionItem = SectionItem(key: string, value: string)

  /** What the parser reads from the page. `salary` is what `extractText`
      returns for the salary selectors, `snippets` the texts of the
      attribute snippets in document order, `items` the section items,
      and `section` the children of the description element (absent when
      no element matches); `h3`, `h4`, `strong` and `b` are the `Heading`
      blocks. */
  datatype Page = Page(
    scripts: seq<ScriptBlock>,
    title: string,
    company: string,
    location: string,
    salary: string,
    snippets: seq<string>,
    items: seq<SectionItem>,
    section: Option<seq<Block>>,
    postedDate: string)

  // ---------------------------------------------------------------------
  // JSON-LD

  /** The JSON-LD branch: the shared mapping plus the estimated salary. */
  function JsonLdRecord(j: JsonLd, url: string): (r: ParserResult)
    ensures r.(salary := None) == MapJobPosting(j, url)
    ensures r.salary.Some? <==> j.estimatedSalary.Some?
    ensures j.estimatedSalary.Some? ==>
              r.salary == Some(SalaryRange(j.estimatedSalary.value.minValue,
                                           j.estimatedSalary.value.maxValue,
                                           j.estimatedSalary.value.unitText))
  {
    var salary :=
      if j.estimatedSalary.Some? then
        var a := j.estimatedSalary.value;
        Some(SalaryRange(a.minValue, a.maxValue, a.unitText))
      else None;
    MapJobPosting(j, url).(salary := salary)
  }

  // ---------------------------------------------------------------------
  // salary and job type

  const CurrencySigns: seq<string> := ["$", "€"]
  const SalaryWords: seq<string> := ["salary", "salaire"]
  const JobTypeLabels: seq<string> := ["job type", "type d'emploi"]

  /** The snippet test, on the untrimmed text. */
  predicate SnippetHit(text: string) {
    ContainsAny(text, CurrencySigns) || ContainsAny(Lower(text), SalaryWords)
  }

  /** The salary: the selector text, or else the last snippet that passes
      the test, as it stands. */
  function Salary(primary: string, snippets: seq<string>): string {
    if primary != "" then primary else LastHit(snippets, SnippetHit, s => s)
  }

  /** `if (!salary)` and the `.each` over the snippets. */
  method ScanSalary(primary: string, snippets: seq<string>) returns (salary: string)
    ensures salary == Salary(primary, snippets)
    ensures primary != "" ==> salary == primary
  {
    salary := primary;
    if salary == "" {
      for i := 0 to |snippets|
        invariant salary == LastHit(snippets[..i], SnippetHit, s => s)
      {
        assert snippets[..i + 1][..i] == snippets[..i];
        var text := snippets[i];
        if ContainsAny(text, CurrencySigns) || ContainsAny(Lower(text), SalaryWords) {
          salary := text;
        }
      }
      assert snippets[..|snippets|] == snippets;
    }
  }

  /** A section item whose trimmed, lower-cased label names the job type. */
  predicate LabelHit(item: SectionItem) {
    ContainsAny(Lower(Trim(item.key)), JobTypeLabels)
  }

  function TrimmedValue(item: SectionItem): string {
    Trim(item.value)
  }

  /** The `.each` over the section items: the trimmed value of the last
      item whose label names the job type. */
  method ScanJobType(items: seq<SectionItem>) returns (jobType: string)
    ensures jobType == LastHit(items, LabelHit, TrimmedValue)
  {
    jobType := "";
    for i := 0 to |items|
      invariant jobType == LastHit(items[..i], LabelHit, TrimmedValue)
    {
      assert items[..i + 1][..i] == items[..i];
      var key := Trim(items[i].key);
      if ContainsAny(Lower(key), JobTypeLabels) {
        jobType := Trim(items[i].value);
      }
    }
    assert items[..|items|] == items;
  }

  // ---------------------------------------------------------------------
  // the container after a heading

  /** The first element at or after `j` that passes `isContainer`. The
      walk goes over every later sibling, headings included. */
  function FirstContainer(blocks: seq<Block>, j: nat, isContainer: Block -> bool): (r: Option<nat>)
    requires j <= |blocks|
    ensures r.Some? ==> j <= r.value < |blocks| && isContainer(blocks[r.value])
    decreases |blocks| - j
  {
    if j == |blocks| then None
    else if isContainer(blocks[j]) then Some(j)
    else FirstContainer(blocks, j + 1, isContainer)
  }

  /** Nothing before the element found passes; when nothing is found,
      no element from `j` on passes. */
  lemma {:induction false} FirstContainerIsFirst(blocks: seq<Block>, j: nat, m: nat, isContainer: Block -> bool)
    requires j <= m < |blocks|
    requires FirstContainer(blocks, j, isContainer).None? || m < FirstContainer(blocks, j, isContainer).value
    ensures !isContainer(blocks[m])
    decreases m - j
  {
    if j < m {
      FirstContainerIsFirst(blocks, j + 1, m, isContainer);
    }
  }

  /** Elements that do not pass, headings among them, are walked past: a
      heading with nothing of its own gets the container of a later
      heading. */
  lemma {:induction false} FirstContainerSkips(blocks: seq<Block>, j: nat, m: nat, isContainer: Block -> bool)
    requires j <= m <= |blocks|
    requires forall p :: j <= p < m ==> !isContainer(blocks[p])
    ensures FirstContainer(blocks, j, isContainer) == FirstContainer(blocks, m, isContainer)
    decreases m - j
  {
    if j < m {
      FirstContainerSkips(blocks, j + 1, m, isContainer);
    }
  }

  /** The `while ($(currentElem).next().length)` walk from the heading at
      `i`, stopping at the first element that passes `isContainer`. */
  method FindContainer(blocks: seq<Block>, i: nat, isContainer: Block -> bool) returns (container: Option<nat>)
    requires i < |blocks|
    ensures container == FirstContainer(blocks, i + 1, isContainer)
  {
    container := None;
    var current := i;
    while current + 1 < |blocks|
      invariant i <= current < |blocks|
      invariant FirstContainer(blocks, current + 1, isContainer) == FirstContainer(blocks, i + 1, isContainer)
      decreases |blocks| - current
    {
      current := current + 1;
      if isContainer(blocks[current]) {
        container := Some(current);
        break;
      }
    }
  }

  /** A list gives its trimmed `li` texts, anything else its trimmed text. */
  function ContainerItems(b: Block): seq<string> {
    if b.List? then TrimEach(b.items) else [Trim(BlockText(b))]
  }

  // ---------------------------------------------------------------------
  // sorting

  const RequirementHeadings: seq<string> :=
    ["requirement", "qualif", "skill", "compétence", "exigence"]
  const ResponsibilityHeadings: seq<string> :=
    ["responsib", "dutie", "role", "responsabilité", "mission"]

  /** The heading tests: there is no benefits branch. */
  function HeadingCategory(heading: string): Category {
    Chain(Lower(heading), RequirementHeadings, ResponsibilityHeadings, [])
  }

  /** What the heading at `i` does: file the items of its container, if
      it has one, by the heading's text. Benefits never grow. */
  function AfterHeading(s: Sections, blocks: seq<Block>, i: nat): (r: Sections)
    requires i < |blocks| && blocks[i].Heading?
    ensures Extends(s, r) && r.benefits == s.benefits
  {
    match FirstContainer(blocks, i + 1, IsContent)
    case Some(k) =>
      assert !ContainsAny(Lower(blocks[i].text), []);
      File(s, HeadingCategory(blocks[i].text), ContainerItems(blocks[k]))
    case None => s
  }

  /** The two lists after the headings among the first `n` siblings. */
  function HeadingScan(blocks: seq<Block>, n: nat): Sections
    requires n <= |blocks|
  {
    if n == 0 then NoSections
    else if blocks[n - 1].Heading? then AfterHeading(HeadingScan(blocks, n - 1), blocks, n - 1)
    else HeadingScan(blocks, n - 1)
  }

  /** The `.each` over the headings of the description. */
  method ScanHeadings(blocks: seq<Block>) returns (s: Sections)
    ensures s == HeadingScan(blocks, |blocks|)
  {
    s := NoSections;
    for i := 0 to |blocks|
      invariant s == HeadingScan(blocks, i)
    {
      if blocks[i].Heading? {
        var container := FindContainer(blocks, i, IsContent);
        if container.Some? {
          var items := ContainerItems(blocks[container.value]);
          s := File(s, HeadingCategory(blocks[i].text), items);
        }
      }
    }
  }

  /** No heading is ever filed under benefits. */
  lemma {:induction false} HeadingScanNoBenefits(blocks: seq<Block>, n: nat)
    requires n <= |blocks|
    ensures HeadingScan(blocks, n).benefits == []
  {
    if n > 0 {
      HeadingScanNoBenefits(blocks, n - 1);
    }
  }

  /** Later headings only append, so items keep document order. */
  lemma {:induction false} HeadingScanInOrder(blocks: seq<Block>, m: nat, n: nat)
    requires m <= n <= |blocks|
    ensures Extends(HeadingScan(blocks, m), HeadingScan(blocks, n))
    decreases n
  {
    if m < n {
      HeadingScanInOrder(blocks, m, n - 1);
      ExtendsTrans(HeadingScan(blocks, m), HeadingScan(blocks, n - 1), HeadingScan(blocks, n));
    }
  }

  // ---------------------------------------------------------------------
  // the record

  /** The object literal the DOM branch returns. */
  function DomRecord(page: Page, url: string, description: string, salary: string, jobType: string, s: Sections): (r: ParserResult)
    ensures r.title == Some(page.title) && r.company == Some(page.company) && r.location == Some(page.location)
    ensures r.description == Some(description)
    ensures r.salary.None? <==> salary == ""
    ensures r.salary.Some? ==> r.salary.value == salary
    ensures r.jobType.None? <==> jobType == ""
    ensures r.jobType.Some? ==> r.jobType.value == jobType
    ensures r.postedDate == Some(page.postedDate)
    ensures r.requirements.None? <==> s.requirements == []
    ensures r.requirements.Some? ==> r.requirements.value == s.requirements
    ensures r.responsibilities.None? <==> s.responsibilities == []
    ensures r.responsibilities.Some? ==> r.responsibilities.value == s.responsibilities
    ensures r.benefits.None?
    ensures r.datePosted.None? && r.validThrough.None? && r.employmentType.None? && r.jobId.None?
    ensures r.language == Some(DetectLanguage(if description != "" then description else page.title))
    ensures r.url == Some(url) && r.needsEnrichment == Some(true)
  {
    NoFields.(
      title := Some(page.title),
      company := Some(page.company),
      location := Some(page.location),
      description := Some(description),
      salary := NonEmptyText(salary),
      postedDate := Some(page.postedDate),
      jobType := NonEmptyText(jobType),
      requirements := NonEmptyList(s.requirements),
      responsibilities := NonEmptyList(s.responsibilities),
      url := Some(url),
      language := Some(DetectLanguage(OrElse(description, page.title))),
      needsEnrichment := Some(true))
  }

  /** What `parseIndeed` returns. */
  function IndeedResult(page: Page, url: string): ParserResult {
    match JsonLdSearch(page.scripts, JobPostingType)
    case Some(j) => JsonLdRecord(j, url)
    case None =>
      var blocks := page.section.GetOr([]);
      DomRecord(page, url, Description(page.section),
                Salary(page.salary, page.snippets),
                LastHit(page.items, LabelHit, TrimmedValue),
                HeadingScan(blocks, |blocks|))
  }

  /** `parseIndeed(html, url)`. */
  method ParseIndeed(page: Page, url: string) returns (r: ParserResult)
    ensures r == IndeedResult(page, url)
    ensures r.url == Some(url) && r.needsEnrichment == Some(true)
    ensures r.benefits.None?
  {
    var jsonLd := ExtractJsonLd(page.scripts, JobPostingType);
    if jsonLd.Some? {
      return JsonLdRecord(jsonLd.value, url);
    }
    var salary := ScanSalary(page.salary, page.snippets);
    var description := Description(page.section);
    var jobType := ScanJobType(page.items);
    var s := ScanHeadings(page.section.GetOr([]));
    r := DomRecord(page, url, description, salary, jobType, s);
  }
}
