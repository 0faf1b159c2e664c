/** `parseGlassdoor` (src/lib/parsers/glassdoor.ts): the JSON-LD mapping
    when the page carries a `JobPosting`, otherwise a DOM scan that picks
    the salary and job type out of candidate elements, files the items
    under bold headings into requirements, responsibilities and benefits,
    falls back to the captions of bullet lists, and assembles the record. */
module Glassdoor {
  import opened Wrappers
  import opened Strings
  import opened JobTypes
  import opened BaseParser

  /** What the parser reads from the page. The single-valued selectors are
      given as the text `extractText` returns for them; `salaryTexts` and
      `jobTypeTexts` are the texts of the elements the salary and job-type
      selectors match, in document order; `section` holds the children of
      the description element, absent when no element matches. */
  datatype Page = Page(
    scripts: seq<ScriptBlock>,
    title: string,
    company: string,
    location: string,
    salaryTexts: seq<string>,
    jobTypeTexts: seq<string>,
    section: Option<seq<Block>>,
    postedDate: string)

  // ---------------------------------------------------------------------
  // salary and job type

  const CurrencySigns: seq<string> := ["$", "€", "£"]
  const SalaryWords: seq<string> := ["salary", "salaire"]
  const JobTypeWords: seq<string> :=
    ["full-time", "part-time", "contract", "temps plein", "temps partiel", "cdd", "cdi"]

  /** The salary test, applied to the trimmed text of an element. */
  predicate SalaryHit(raw: string) {
    var text := Trim(raw);
    ContainsAny(text, CurrencySigns) || ContainsAny(Lower(text), SalaryWords)
  }

  /** The job-type test, applied to the lower-cased, untrimmed text. */
  predicate JobTypeHit(raw: string) {
    ContainsAny(Lower(raw), JobTypeWords)
  }

  /** The salary loop: the trimmed text of the last element passing the test. */
  method ScanSalary(texts: seq<string>) returns (salary: string)
    ensures salary == LastHit(texts, SalaryHit, Trim)
  {
    salary := "";
    for i := 0 to |texts|
      invariant salary == LastHit(texts[..i], SalaryHit, Trim)
    {
      assert texts[..i + 1][..i] == texts[..i];
      var text := Trim(texts[i]);
      if ContainsAny(text, CurrencySigns) || ContainsAny(Lower(text), SalaryWords) {
        salary := text;
      }
    }
    assert texts[..|texts|] == texts;
  }

  /** The job-type loop: the trimmed text of the last element passing the test. */
  method ScanJobType(texts: seq<string>) returns (jobType: string)
    ensures jobType == LastHit(texts, JobTypeHit, Trim)
  {
    jobType := "";
    for i := 0 to |texts|
      invariant jobType == LastHit(texts[..i], JobTypeHit, Trim)
    {
      assert texts[..i + 1][..i] == texts[..i];
      var text := Lower(texts[i]);
      if ContainsAny(text, JobTypeWords) {
        jobType := Trim(texts[i]);
      }
    }
    assert texts[..|texts|] == texts;
  }

  // ---------------------------------------------------------------------
  // splitting a paragraph on bullets and item numbers

  /** The end of the run of digits that starts at `i`. */
  function DigitRunEnd(s: string, i: nat): (e: nat)
    requires i <= |s|
    ensures i <= e <= |s|
    ensures forall k :: i <= k < e ==> IsDigit(s[k])
    ensures e < |s| ==> !IsDigit(s[e])
    decreases |s| - i
  {
    if i < |s| && IsDigit(s[i]) then DigitRunEnd(s, i + 1) else i
  }

  /** The length of the match of `/•|\*|\d+\./` that starts exactly at
      `i`, 0 when there is none. */
  function MarkLength(s: string, i: nat): (m: nat)
    requires i < |s|
    ensures i + m <= |s|
  {
    if s[i] == '•' || s[i] == '*' then 1
    else
      var e := DigitRunEnd(s, i);
      if i < e < |s| && s[e] == '.' then e - i + 1 else 0
  }

  /** `s.split(/•|\*|\d+\./)`, continued: the current piece began at `p`
      and no match starts in `[p, q)`. */
  function SplitMarksFrom(s: string, p: nat, q: nat): seq<string>
    requires p <= q <= |s|
    decreases |s| - q
  {
    if q == |s| then [s[p..]]
    else
      var m := MarkLength(s, q);
      if m > 0 then [s[p..q]] + SplitMarksFrom(s, q + m, q + m)
      else SplitMarksFrom(s, p, q + 1)
  }

  function SplitMarks(s: string): seq<string> {
    SplitMarksFrom(s, 0, 0)
  }

  /** The text from `q` on with every match of the split pattern deleted. */
  function StripMarksFrom(s: string, q: nat): string
    requires q <= |s|
    decreases |s| - q
  {
    if q == |s| then []
    else
      var m := MarkLength(s, q);
      if m > 0 then StripMarksFrom(s, q + m) else [s[q]] + StripMarksFrom(s, q + 1)
  }

  /** The split loses exactly the matches: its pieces glued together are
      the text with every match deleted. */
  lemma {:induction false} SplitMarksFromConcat(s: string, p: nat, q: nat)
    requires p <= q <= |s|
    ensures Concat(SplitMarksFrom(s, p, q)) == s[p..q] + StripMarksFrom(s, q)
    decreases |s| - q
  {
    if q == |s| {
      assert Concat([s[p..]]) == s[p..] + Concat([]);
    } else if MarkLength(s, q) > 0 {
      var e := q + MarkLength(s, q);
      SplitMarksFromConcat(s, e, e);
      ConcatAtMark(s, p, q);
    } else {
      SplitMarksFromConcat(s, p, q + 1);
      ConcatPastChar(s, p, q);
    }
  }

  /** A match ends the current piece and is dropped. */
  lemma ConcatAtMark(s: string, p: nat, q: nat)
    requires p <= q < |s| && MarkLength(s, q) > 0
    requires var e := q + MarkLength(s, q); Concat(SplitMarksFrom(s, e, e)) == s[e..e] + StripMarksFrom(s, e)
    ensures Concat(SplitMarksFrom(s, p, q)) == s[p..q] + StripMarksFrom(s, q)
  {
    var e := q + MarkLength(s, q);
    var rest := SplitMarksFrom(s, e, e);
    assert s[e..e] == [];
    assert SplitMarksFrom(s, p, q) == [s[p..q]] + rest;
    ConcatCons(s[p..q], rest);
  }

  /** Any other character stays in the current piece. */
  lemma ConcatPastChar(s: string, p: nat, q: nat)
    requires p <= q < |s| && MarkLength(s, q) == 0
    requires Concat(SplitMarksFrom(s, p, q + 1)) == s[p..q + 1] + StripMarksFrom(s, q + 1)
    ensures Concat(SplitMarksFrom(s, p, q)) == s[p..q] + StripMarksFrom(s, q)
  {
    var tail := StripMarksFrom(s, q + 1);
    assert SplitMarksFrom(s, p, q) == SplitMarksFrom(s, p, q + 1);
    assert StripMarksFrom(s, q) == [s[q]] + tail;
    assert s[p..q + 1] + tail == s[p..q] + ([s[q]] + tail);
  }

  /** `/•|\*|^\d+\./.test(text)`: a bullet anywhere, or an item number at
      the very start. */
  predicate HasMarks(text: string) {
    '•' in text || '*' in text || (|text| > 0 && MarkLength(text, 0) > 0)
  }

  /** Nothing in the text that the split pattern could match. */
  predicate Unmarked(t: string) {
    forall k :: 0 <= k < |t| ==> UnmarkedAt(t, k)
  }

  /** No bullet at `k`, and no item number ending at `k`. */
  predicate UnmarkedAt(t: string, k: nat)
    requires k < |t|
  {
    t[k] != '•' && t[k] != '*' && (k + 1 < |t| && IsDigit(t[k]) ==> t[k + 1] != '.')
  }

  lemma UnmarkedNoBullet(t: string)
    requires Unmarked(t)
    ensures '•' !in t && '*' !in t
  {
    forall k | 0 <= k < |t| ensures t[k] != '•' && t[k] != '*' {
      assert UnmarkedAt(t, k);
    }
  }

  lemma NoMarkUnmarked(s: string, p: nat, q: nat)
    requires p <= q <= |s|
    requires forall k :: p <= k < q ==> MarkLength(s, k) == 0
    ensures Unmarked(s[p..q])
  {
    var t := s[p..q];
    forall k | 0 <= k < |t|
      ensures UnmarkedAt(t, k)
    {
      assert t[k] == s[p + k] && MarkLength(s, p + k) == 0;
      if k + 1 < |t| {
        assert t[k + 1] == s[p + k + 1];
      }
    }
  }

  /** Every piece of the split lies between two matches, so none of them
      holds a bullet or an item number. */
  lemma {:induction false} SplitMarksFromUnmarked(s: string, p: nat, q: nat)
    requires p <= q <= |s|
    requires forall k :: p <= k < q ==> MarkLength(s, k) == 0
    ensures forall t :: t in SplitMarksFrom(s, p, q) ==> Unmarked(t)
    decreases |s| - q
  {
    if q == |s| {
      NoMarkUnmarked(s, p, q);
      assert s[p..] == s[p..q];
    } else if MarkLength(s, q) > 0 {
      var m := MarkLength(s, q);
      NoMarkUnmarked(s, p, q);
      SplitMarksFromUnmarked(s, q + m, q + m);
    } else {
      SplitMarksFromUnmarked(s, p, q + 1);
    }
  }

  lemma TrimUnmarked(x: string)
    requires Unmarked(x)
    ensures Unmarked(Trim(x))
  {
    var i := TrimSlice(x);
    var j := i + |Trim(x)|;
    UnmarkedSlice(x, i, j);
    assert Trim(x) == x[i..j];
  }

  lemma UnmarkedSlice(x: string, i: nat, j: nat)
    requires Unmarked(x) && i <= j <= |x|
    ensures Unmarked(x[i..j])
  {
    var t := x[i..j];
    forall k | 0 <= k < |t|
      ensures UnmarkedAt(t, k)
    {
      SliceUnmarked(x, i, j, k);
    }
  }

  lemma SliceUnmarked(x: string, i: nat, j: nat, k: nat)
    requires Unmarked(x) && i <= j <= |x| && k < j - i
    ensures UnmarkedAt(x[i..j], k)
  {
    assert UnmarkedAt(x, i + k);
    assert x[i..j][k] == x[i + k];
    if k + 1 < j - i {
      assert x[i..j][k + 1] == x[i + k + 1];
    }
  }

  // ---------------------------------------------------------------------
  // the heading scan

  /** The items one sibling adds under a heading: a list its trimmed `li`
      texts, a paragraph with text its bullet pieces or itself. */
  function BlockItems(b: Block): seq<string> {
    match b
    case List(_, xs) => TrimEach(xs)
    case Para(t) =>
      var text := Trim(t);
      if text == "" then []
      else if HasMarks(text) then Clean(SplitMarks(text))
      else [text]
    case _ => []
  }

  /** The items of a paragraph are trimmed and non-empty and carry no
      bullet; when the paragraph was split, no piece holds an item number
      either. A paragraph without marks is one item. */
  lemma ParagraphItems(t: string)
    ensures Trim(t) == "" ==> BlockItems(Para(t)) == []
    ensures Trim(t) != "" && !HasMarks(Trim(t)) ==> BlockItems(Para(t)) == [Trim(t)]
    ensures forall e :: e in BlockItems(Para(t)) ==> e != "" && IsTrimmed(e) && '•' !in e && '*' !in e
    ensures HasMarks(Trim(t)) ==> forall e :: e in BlockItems(Para(t)) ==> Unmarked(e)
  {
    var text := Trim(t);
    if text != "" && HasMarks(text) {
      var pieces := SplitMarks(text);
      SplitMarksFromUnmarked(text, 0, 0);
      forall e | e in Clean(pieces)
        ensures Unmarked(e) && '•' !in e && '*' !in e
      {
        CleanMembership(pieces, e);
        var x :| x in pieces && Trim(x) == e;
        TrimUnmarked(x);
        UnmarkedNoBullet(e);
      }
    }
  }

  /** The items of a split paragraph, glued together, are its text with
      the bullets and item numbers deleted, up to whitespace. */
  lemma ParagraphContent(t: string)
    requires HasMarks(Trim(t))
    ensures NoSpace(Concat(BlockItems(Para(t)))) == NoSpace(StripMarksFrom(Trim(t), 0))
  {
    var text := Trim(t);
    assert BlockItems(Para(t)) == Clean(SplitMarks(text));
    SplitContent(text);
  }

  lemma SplitContent(text: string)
    ensures NoSpace(Concat(Clean(SplitMarks(text)))) == NoSpace(StripMarksFrom(text, 0))
  {
    var pieces := SplitMarks(text);
    CleanNoSpace(pieces);
    assert Concat(pieces) == StripMarksFrom(text, 0) by {
      SplitMarksFromConcat(text, 0, 0);
      assert text[0..0] == [];
    }
  }

  const RequirementHeadings: seq<string> :=
    ["requirements", "qualifications", "skills", "compétences", "profil"]
  const ResponsibilityHeadings: seq<string> :=
    ["responsibilities", "duties", "role", "job description", "responsabilités", "missions"]
  const BenefitHeadings: seq<string> :=
    ["benefits", "perks", "offer", "we provide", "avantages"]

  function HeadingCategory(heading: string): Category {
    Chain(Lower(heading), RequirementHeadings, ResponsibilityHeadings, BenefitHeadings)
  }

  /** The three lists after the headings among the first `n` siblings. */
  function HeadingScan(blocks: seq<Block>, n: nat): Sections
    requires n <= |blocks|
  {
    if n == 0 then NoSections
    else
      var s := HeadingScan(blocks, n - 1);
      if blocks[n - 1].Heading? then File(s, HeadingCategory(blocks[n - 1].text), Gather(blocks, n, BlockItems)) else s
  }

  /** `processSections`: for each heading, walk its following siblings up
      to the next heading, then file what was collected. */
  method ScanHeadings(blocks: seq<Block>) returns (s: Sections)
    ensures s == HeadingScan(blocks, |blocks|)
  {
    s := NoSections;
    for i := 0 to |blocks|
      invariant s == HeadingScan(blocks, i)
    {
      if blocks[i].Heading? {
        var items := GatherAfter(blocks, i, BlockItems);
        s := File(s, HeadingCategory(blocks[i].text), items);
      }
    }
  }

  /** Later headings only append: the lists after a prefix of the siblings
      are prefixes of the final lists, so items keep document order. */
  lemma {:induction false} HeadingScanInOrder(blocks: seq<Block>, m: nat, n: nat)
    requires m <= n <= |blocks|
    ensures Extends(HeadingScan(blocks, m), HeadingScan(blocks, n))
    decreases n
  {
    if m < n {
      HeadingScanInOrder(blocks, m, n - 1);
    }
  }

  // ---------------------------------------------------------------------
  // the list fallback

  const RequirementCaptions: seq<string> := ["requirements", "qualifications", "profil"]
  const ResponsibilityCaptions: seq<string> := ["responsibilities", "duties", "missions"]
  const BenefitCaptions: seq<string> := ["benefits", "perks", "avantages"]

  function CaptionCategory(caption: string): Category {
    Chain(Lower(caption), RequirementCaptions, ResponsibilityCaptions, BenefitCaptions)
  }

  /** The heading scan, or the list fallback when the scan filed nothing. */
  function DomSections(blocks: seq<Block>): (s: Sections)
    ensures Total(HeadingScan(blocks, |blocks|)) > 0 ==> s == HeadingScan(blocks, |blocks|)
    ensures Total(HeadingScan(blocks, |blocks|)) == 0 ==> s == ListScan(blocks, |blocks|, CaptionCategory)
  {
    var s := HeadingScan(blocks, |blocks|);
    if Total(s) == 0 then ListScan(blocks, |blocks|, CaptionCategory) else s
  }

  // ---------------------------------------------------------------------
  // the record

  /** The object literal the DOM branch returns. */
  function DomRecord(page: Page, url: string, description: string, salary: string, jobType: string, s: Sections): (r: ParserResult)
    ensures r.title == Some(page.title) && r.company == Some(page.company) && r.location == Some(page.location)
    ensures r.description == Some(description)
    ensures r.jobType.None? <==> jobType == ""
    ensures r.jobType.Some? ==> r.jobType.value == jobType
    ensures r.salary.None? <==> salary == ""
    ensures r.salary.Some? ==> r.salary.value == salary
    ensures r.postedDate.None? <==> page.postedDate == ""
    ensures r.postedDate.Some? ==> r.postedDate.value == page.postedDate
    ensures r.requirements.None? <==> s.requirements == []
    ensures r.requirements.Some? ==> r.requirements.value == s.requirements
    ensures r.responsibilities.None? <==> s.responsibilities == []
    ensures r.responsibilities.Some? ==> r.responsibilities.value == s.responsibilities
    ensures r.benefits.None? <==> s.benefits == []
    ensures r.benefits.Some? ==> r.benefits.value == s.benefits
    ensures r.datePosted.None? && r.validThrough.None? && r.employmentType.None? && r.jobId.None?
    ensures r.language == Some(DetectLanguage(if description != "" then description else page.title))
    ensures r.url == Some(url) && r.needsEnrichment == Some(true)
  {
    NoFields.(
      title := Some(page.title),
      company := Some(page.company),
      location := Some(page.location),
      description := Some(description),
      jobType := NonEmptyText(jobType),
      salary := NonEmptyText(salary),
      postedDate := NonEmptyText(page.postedDate),
      requirements := NonEmptyList(s.requirements),
      responsibilities := NonEmptyList(s.responsibilities),
      benefits := NonEmptyList(s.benefits),
      url := Some(url),
      language := Some(DetectLanguage(OrElse(description, page.title))),
      needsEnrichment := Some(true))
  }

  /** What `parseGlassdoor` returns. */
  function GlassdoorResult(page: Page, url: string): ParserResult {
    match JsonLdSearch(page.scripts, JobPostingType)
    case Some(j) => MapJobPosting(j, url)
    case None =>
      var blocks := page.section.GetOr([]);
      DomRecord(page, url, Description(page.section),
                LastHit(page.salaryTexts, SalaryHit, Trim),
                LastHit(page.jobTypeTexts, JobTypeHit, Trim),
                DomSections(blocks))
  }

  /** `parseGlassdoor(html, url)`. */
  method ParseGlassdoor(page: Page, url: string) returns (r: ParserResult)
    ensures r == GlassdoorResult(page, url)
    ensures r.url == Some(url) && r.needsEnrichment == Some(true)
  {
    var jsonLd := ExtractJsonLd(page.scripts, JobPostingType);
    if jsonLd.Some? {
      return MapJobPosting(jsonLd.value, url);
    }
    var salary := ScanSalary(page.salaryTexts);
    var jobType := ScanJobType(page.jobTypeTexts);
    var description := Description(page.section);
    var blocks := page.section.GetOr([]);
    var s := ScanHeadings(blocks);
    if Total(s) == 0 {
      s := ScanLists(blocks, CaptionCategory);
    }
    r := DomRecord(page, url, description, salary, jobType, s);
  }
}
