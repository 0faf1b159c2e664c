/** `parseWTTJ` (src/lib/parsers/wttj.ts), the Welcome to the Jungle
    parser: the shared JSON-LD mapping when the page carries a
    `JobPosting`, otherwise a DOM scan in which every `h2`/`h3` heading
    collects the non-empty paragraphs and lists up to the next heading,
    paragraphs being cut into sentences and lines, and the record built
    from the selector texts. */
module Wttj {
  import opened Wrappers
  import opened Strings
  import opened JobTypes
  import opened BaseParser

  /** What the parser reads from the page: the texts the single-valued
      selectors yield (the job-type and salary selectors are read exactly
      like `extractText` reads the others), and the children of the
      description element, absent when no element matches. `h2`/`h3`
      elements are the `Heading` blocks. */
  datatype Page = Page(
    scripts: seq<ScriptBlock>,
    title: string,
    company: string,
    location: string,
    jobType: string,
    salary: string,
    section: Option<seq<Block>>,
    postedDate: string)

  // ---------------------------------------------------------------------
  // the elements under a heading

  /** What the `while` walk pushes onto `contentElements` for one sibling. */
  function ContentOf(b: Block): seq<Block> {
    if IsContent(b) then [b] else []
  }

  /** The content elements of a run of siblings, in document order. */
  function ContentIn(xs: seq<Block>): seq<Block> {
    if xs == [] then [] else ContentOf(xs[0]) + ContentIn(xs[1..])
  }

  lemma {:induction false} ContentInMembers(xs: seq<Block>, b: Block)
    ensures b in ContentIn(xs) <==> b in xs && IsContent(b)
  {
    if xs != [] {
      ContentInMembers(xs[1..], b);
      assert b in xs <==> b == xs[0] || b in xs[1..];
    }
  }

  /** The walk from sibling `j` keeps exactly the content elements before
      the next heading `k` (or the end), in document order: every content
      element there is gathered, and nothing else. */
  lemma {:induction false} GatheredContent(blocks: seq<Block>, j: nat, k: nat)
    requires j <= k <= |blocks|
    requires k == |blocks| || blocks[k].Heading?
    requires forall m :: j <= m < k ==> !blocks[m].Heading?
    ensures Gather(blocks, j, ContentOf) == ContentIn(blocks[j..k])
    ensures forall b :: b in Gather(blocks, j, ContentOf) <==> b in blocks[j..k] && IsContent(b)
    decreases k - j
  {
    if j < k {
      GatheredContent(blocks, j + 1, k);
      assert blocks[j..k][1..] == blocks[j + 1..k];
    }
    forall b ensures b in ContentIn(blocks[j..k]) <==> b in blocks[j..k] && IsContent(b) {
      ContentInMembers(blocks[j..k], b);
    }
  }

  /** The characters of `/[.\n]/`. */
  const SentenceBreaks: set<char> := {'.', '\n'}

  /** The items of one content element: a list gives its trimmed `li`
      texts, a paragraph the pieces of its trimmed text. */
  function ElementItems(b: Block): seq<string> {
    match b
    case List(_, xs) => TrimEach(xs)
    case Para(t) => Sentences(Trim(t))
    case _ => []
  }

  /** A paragraph text with a period or a line break gives its trimmed,
      non-empty pieces; any other non-empty text stays whole. */
  function Sentences(text: string): seq<string> {
    if text == "" then []
    else if '.' in text || '\n' in text then Clean(Split(text, SentenceBreaks))
    else [text]
  }

  /** The items of a paragraph are trimmed and non-empty; when it was cut,
      no piece holds a period or a line break; otherwise it stays whole.
      Glued together they are the trimmed text without its breaks, up to
      whitespace. */
  lemma ParagraphPieces(t: string)
    ensures forall e :: e in ElementItems(Para(t)) ==> e != "" && IsTrimmed(e)
    ensures ('.' in Trim(t) || '\n' in Trim(t)) ==>
              forall e :: e in ElementItems(Para(t)) ==> Avoids(e, SentenceBreaks)
    ensures Trim(t) != "" && '.' !in Trim(t) && '\n' !in Trim(t) ==> ElementItems(Para(t)) == [Trim(t)]
    ensures NoSpace(Concat(ElementItems(Para(t)))) == NoSpace(Remove(Trim(t), SentenceBreaks))
  {
    var text := Trim(t);
    assert ElementItems(Para(t)) == Sentences(text);
    SentencePieces(text);
  }

  lemma SentencePieces(text: string)
    requires IsTrimmed(text)
    ensures forall e :: e in Sentences(text) ==> e != "" && IsTrimmed(e)
    ensures ('.' in text || '\n' in text) ==> forall e :: e in Sentences(text) ==> Avoids(e, SentenceBreaks)
    ensures text != "" && '.' !in text && '\n' !in text ==> Sentences(text) == [text]
    ensures NoSpace(Concat(Sentences(text))) == NoSpace(Remove(text, SentenceBreaks))
  {
    if text != "" && ('.' in text || '\n' in text) {
      CleanAvoids(Split(text, SentenceBreaks), SentenceBreaks);
    }
    SentencesContent(text);
  }

  /** Only the breaks and whitespace are lost: the sentences glued
      together are the text without its breaks, up to whitespace. */
  lemma SentencesContent(text: string)
    ensures NoSpace(Concat(Sentences(text))) == NoSpace(Remove(text, SentenceBreaks))
  {
    if text == "" {
    } else if '.' in text || '\n' in text {
      CleanNoSpace(Split(text, SentenceBreaks));
      SplitConcat(text, SentenceBreaks);
    } else {
      assert Avoids(text, SentenceBreaks) by {
        forall k | 0 <= k < |text| ensures text[k] !in SentenceBreaks {
          assert text[k] in text;
        }
      }
      RemoveAvoids(text, SentenceBreaks);
      assert Sentences(text) == [text];
      assert Concat(Sentences(text)) == text by {
        assert Concat([text]) == text + Concat([]);
        assert text + [] == text;
      }
    }
  }

  /** The items of the collected elements, in order. */
  function ItemsOf(content: seq<Block>): seq<string> {
    if content == [] then [] else ItemsOf(content[..|content| - 1]) + ElementItems(content[|content| - 1])
  }

  /** The `forEach` over `contentElements` that extends `items`. */
  method BuildItems(content: seq<Block>) returns (items: seq<string>)
    ensures items == ItemsOf(content)
  {
    items := [];
    for k := 0 to |content|
      invariant items == ItemsOf(content[..k])
    {
      assert content[..k + 1][..k] == content[..k];
      items := items + ElementItems(content[k]);
    }
    assert content[..|content|] == content;
  }

  // ---------------------------------------------------------------------
  // sorting

  const RequirementHeadings: seq<string> :=
    ["profile", "requirement", "qualif", "skill", "profil", "compÃ©tence"]
  const ResponsibilityHeadings: seq<string> :=
    ["mission", "responsib", "role", "what you", "your job"]
  const BenefitHeadings: seq<string> :=
    ["offer", "benefit", "perks", "avantage", "nous offrons"]

  function HeadingCategory(heading: string): Category {
    Chain(Lower(heading), RequirementHeadings, ResponsibilityHeadings, BenefitHeadings)
  }

  /** The requirements test looks for the mis-encoded 'compÃ©tence': a
      heading reading 'compétences' matches no keyword at all, so its
      items are dropped. */
  lemma AccentedCompetencesNotFiled()
    ensures HeadingCategory("compétences") == Unclassified
  {
    LowerNoUpper("compétences");
    CompetencesLacksRequirementWords();
    CompetencesLacksResponsibilityWords();
    CompetencesLacksBenefitWords();
  }

  lemma CompetencesLacksRequirementWords()
    ensures !ContainsAny("compétences", RequirementHeadings)
  {
    NoWordContained("compétences", RequirementHeadings, [3, 2, 0, 1, 3, 4]);
  }

  lemma CompetencesLacksResponsibilityWords()
    ensures !ContainsAny("compétences", ResponsibilityHeadings)
  {
    NoWordContained("compétences", ResponsibilityHeadings, [1, 0, 0, 0, 0]);
  }

  lemma CompetencesLacksBenefitWords()
    ensures !ContainsAny("compétences", BenefitHeadings)
  {
    NoWordContained("compétences", BenefitHeadings, [1, 0, 3, 1, 2]);
  }

  /** The heading is lower-cased before the tests, and lower-casing turns
      `Ã` into `ã`: the keyword 'compÃ©tence' can never match, whatever
      the heading says. */
  lemma MisencodedKeywordNeverMatches(heading: string)
    ensures !Contains(Lower(heading), RequirementHeadings[5])
  {
    var low := Lower(heading);
    forall k | 0 <= k < |low| ensures low[k] != 'Ã' {
      assert IsUpper('Ã');
    }
    assert RequirementHeadings[5][4] == 'Ã';
    AbsentCharNotContained(low, RequirementHeadings[5], 'Ã');
  }

  /** The three lists after the headings among the first `n` siblings. */
  function HeadingScan(blocks: seq<Block>, n: nat): Sections
    requires n <= |blocks|
  {
    if n == 0 then NoSections
    else
      var s := HeadingScan(blocks, n - 1);
      if blocks[n - 1].Heading? then
        File(s, HeadingCategory(blocks[n - 1].text), ItemsOf(Gather(blocks, n, ContentOf)))
      else s
  }

  /** The `.each` over the `h2`/`h3` headings of the description. */
  method ScanHeadings(blocks: seq<Block>) returns (s: Sections)
    ensures s == HeadingScan(blocks, |blocks|)
  {
    s := NoSections;
    for i := 0 to |blocks|
      invariant s == HeadingScan(blocks, i)
    {
      if blocks[i].Heading? {
        var content := GatherAfter(blocks, i, ContentOf);
        var items := BuildItems(content);
        s := File(s, HeadingCategory(blocks[i].text), items);
      }
    }
  }

  /** Later headings only append, so items keep document order across headings. */
  lemma {:induction false} HeadingScanInOrder(blocks: seq<Block>, m: nat, n: nat)
    requires m <= n <= |blocks|
    ensures Extends(HeadingScan(blocks, m), HeadingScan(blocks, n))
    decreases n
  {
    if m < n {
      HeadingScanInOrder(blocks, m, n - 1);
    }
  }

  // ---------------------------------------------------------------------
  // the record

  /** The object literal the DOM branch returns. */
  function DomRecord(page: Page, url: string, description: string, s: Sections): (r: ParserResult)
    ensures r.title == Some(page.title) && r.company == Some(page.company) && r.location == Some(page.location)
    ensures r.description == Some(description)
    ensures r.jobType.None? <==> page.jobType == ""
    ensures r.jobType.Some? ==> r.jobType.value == page.jobType
    ensures r.salary.None? <==> page.salary == ""
    ensures r.salary.Some? ==> r.salary.value == page.salary
    ensures r.postedDate.None? <==> page.postedDate == ""
    ensures r.postedDate.Some? ==> r.postedDate.value == page.postedDate
    ensures r.requirements.None? <==> s.requirements == []
    ensures r.requirements.Some? ==> r.requirements.value == s.requirements
    ensures r.responsibilities.None? <==> s.responsibilities == []
    ensures r.responsibilities.Some? ==> r.responsibilities.value == s.responsibilities
    ensures r.benefits.None? <==> s.benefits == []
    ensures r.benefits.Some? ==> r.benefits.value == s.benefits
    ensures r.datePosted.None? && r.validThrough.None? && r.employmentType.None? && r.jobId.None?
    ensures r.language == Some(DetectLanguage(if description != "" then description else page.title))
    ensures r.url == Some(url) && r.needsEnrichment == Some(true)
  {
    NoFields.(
      title := Some(page.title),
      company := Some(page.company),
      location := Some(page.location),
      description := Some(description),
      jobType := NonEmptyText(page.jobType),
      salary := NonEmptyText(page.salary),
      postedDate := NonEmptyText(page.postedDate),
      requirements := NonEmptyList(s.requirements),
      responsibilities := NonEmptyList(s.responsibilities),
      benefits := NonEmptyList(s.benefits),
      url := Some(url),
      language := Some(DetectLanguage(OrElse(description, page.title))),
      needsEnrichment := Some(true))
  }

  /** What `parseWTTJ` returns. */
  function WttjResult(page: Page, url: string): ParserResult {
    match JsonLdSearch(page.scripts, JobPostingType)
    case Some(j) => MapJobPosting(j, url)
    case None =>
      DomRecord(page, url, Description(page.section), HeadingScan(page.section.GetOr([]), |page.section.GetOr([])|))
  }

  /** `parseWTTJ(html, url)`. */
  method ParseWttj(page: Page, url: string) returns (r: ParserResult)
    ensures r == WttjResult(page, url)
    ensures r.url == Some(url) && r.needsEnrichment == Some(true)
  {
    var jsonLd := ExtractJsonLd(page.scripts, JobPostingType);
    if jsonLd.Some? {
      return MapJobPosting(jsonLd.value, url);
    }
    var description := Description(page.section);
    var s := ScanHeadings(page.section.GetOr([]));
    r := DomRecord(page, url, description, s);
  }
}
