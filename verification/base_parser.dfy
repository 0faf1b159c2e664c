/** The helpers every site parser shares (src/lib/parsers/baseParser.ts):
    choosing the JSON-LD block that describes the posting, splitting a
    string or list into clean items, the French-keyword language guess,
    and the pieces of the JSON-LD-to-record mapping that several parsers
    repeat. The HTML document is abstracted: its `ld+json` scripts are a
    sequence of already-parsed blocks, and a description section is a
    flat sequence of sibling blocks. */
module BaseParser {
  import opened Wrappers
  import opened Strings
  import opened JobTypes

  // ---------------------------------------------------------------------
  // JSON-LD values

  datatype Address = Address(addressLocality: Option<string>)

  /** `hiringOrganization`; a value that is not an object has no `name`. */
  datatype Organization = Organization(name: Option<string>)

  /** `baseSalary` / `estimatedSalary`. Bounds are integer-valued numbers. */
  datatype MonetaryAmount = MonetaryAmount(
    currency: Option<string>,
    minValue: Option<int>,
    maxValue: Option<int>,
    unitText: Option<string>)

  /** `jobLocation`: absent, a string, or any other value (an object, an
      array), whose `address` may be missing. */
  datatype JobLocation = NoLocation | LocationText(text: string) | LocationObject(address: Option<Address>)

  /** A parsed JSON-LD object. `ldType` is `@type` when it is a string;
      `graph` is `@graph` when it is an array. */
  datatype JsonLd = JsonLd(
    ldType: Option<string>,
    graph: Option<seq<JsonLd>>,
    title: Option<string>,
    description: Option<string>,
    datePosted: Option<string>,
    validThrough: Option<string>,
    employmentType: Option<string>,
    hiringOrganization: Option<Organization>,
    jobLocation: JobLocation,
    baseSalary: Option<MonetaryAmount>,
    estimatedSalary: Option<MonetaryAmount>)

  /** One `script[type="application/ld+json"]` element: no content, content
      that `JSON.parse` rejects, or the parsed object. */
  datatype ScriptBlock = EmptyScript | Malformed | Parsed(data: JsonLd)

  /** The default `type` argument of `extractJsonLd`. */
  const JobPostingType: string := "JobPosting"

  /** `@graph.find(item => item['@type'] === type)`. */
  function FindByType(items: seq<JsonLd>, ldType: string): (r: Option<JsonLd>)
    ensures r.Some? ==> r.value in items && r.value.ldType == Some(ldType)
    ensures r.None? <==> forall k :: 0 <= k < |items| ==> items[k].ldType != Some(ldType)
  {
    if items == [] then None
    else if items[0].ldType == Some(ldType) then Some(items[0])
    else FindByType(items[1..], ldType)
  }

  /** `find` returns the first item of the type: an item of the type with
      none before it is the one found. */
  lemma {:induction false} FindByTypeIsFirst(items: seq<JsonLd>, ldType: string, k: nat)
    requires k < |items| && items[k].ldType == Some(ldType)
    requires forall m :: 0 <= m < k ==> items[m].ldType != Some(ldType)
    ensures FindByType(items, ldType) == Some(items[k])
  {
    if k > 0 {
      FindByTypeIsFirst(items[1..], ldType, k - 1);
    }
  }

  /** The test a block must pass to be chosen: its own `@type` matches, or
      its `@graph` is an array holding an item of the type. */
  predicate Qualifies(d: JsonLd, ldType: string) {
    d.ldType == Some(ldType) || (d.graph.Some? && FindByType(d.graph.value, ldType).Some?)
  }

  /** What a qualifying block yields: the first graph item of the type when
      `@graph` is an array (none, if the block matched only at top level),
      the block itself otherwise. */
  function Selected(d: JsonLd, ldType: string): Option<JsonLd> {
    if d.graph.Some? then FindByType(d.graph.value, ldType) else Some(d)
  }

  predicate QualifyingBlock(b: ScriptBlock, ldType: string) {
    b.Parsed? && Qualifies(b.data, ldType)
  }

  /** The value `extractJsonLd` returns: blocks are tried in order, empty or
      malformed ones are skipped, and the first qualifying block decides. */
  function JsonLdSearch(scripts: seq<ScriptBlock>, ldType: string): Option<JsonLd> {
    if scripts == [] then None
    else if QualifyingBlock(scripts[0], ldType) then Selected(scripts[0].data, ldType)
    else JsonLdSearch(scripts[1..], ldType)
  }

  /** `extractJsonLd($, type)`, over the page's `ld+json` blocks. */
  method ExtractJsonLd(scripts: seq<ScriptBlock>, ldType: string) returns (r: Option<JsonLd>)
    ensures r == JsonLdSearch(scripts, ldType)
    ensures scripts == [] ==> r == None
  {
    if |scripts| == 0 {
      return None;
    }
    for i := 0 to |scripts|
      invariant JsonLdSearch(scripts[i..], ldType) == JsonLdSearch(scripts, ldType)
    {
      assert scripts[i..][1..] == scripts[i + 1..];
      match scripts[i]
      case EmptyScript =>
        continue;
      case Malformed =>
        continue;
      case Parsed(data) =>
        if Qualifies(data, ldType) {
          if data.graph.Some? {
            return FindByType(data.graph.value, ldType);
          }
          return Some(data);
        }
    }
    return None;
  }

  /** Any object `extractJsonLd` returns has the requested `@type`. */
  lemma {:induction false} JsonLdResultHasType(scripts: seq<ScriptBlock>, ldType: string)
    ensures JsonLdSearch(scripts, ldType).Some? ==> JsonLdSearch(scripts, ldType).value.ldType == Some(ldType)
  {
    if scripts != [] && !QualifyingBlock(scripts[0], ldType) {
      JsonLdResultHasType(scripts[1..], ldType);
    }
  }

  /** Blocks that do not qualify (empty, malformed, or of another type) are
      passed over: the search continues with what follows them. */
  lemma {:induction false} JsonLdSkipsNonQualifying(skipped: seq<ScriptBlock>, rest: seq<ScriptBlock>, ldType: string)
    requires forall k :: 0 <= k < |skipped| ==> !QualifyingBlock(skipped[k], ldType)
    ensures JsonLdSearch(skipped + rest, ldType) == JsonLdSearch(rest, ldType)
  {
    if skipped != [] {
      assert (skipped + rest)[1..] == skipped[1..] + rest;
      JsonLdSkipsNonQualifying(skipped[1..], rest, ldType);
    } else {
      assert skipped + rest == rest;
    }
  }

  /** The first qualifying block decides the result, and nothing after it
      is ever looked at. */
  lemma {:induction false} JsonLdFirstQualifyingDecides(scripts: seq<ScriptBlock>, i: nat, later: seq<ScriptBlock>, ldType: string)
    requires i < |scripts| && QualifyingBlock(scripts[i], ldType)
    requires forall k :: 0 <= k < i ==> !QualifyingBlock(scripts[k], ldType)
    ensures JsonLdSearch(scripts, ldType) == Selected(scripts[i].data, ldType)
    ensures JsonLdSearch(scripts[..i + 1] + later, ldType) == Selected(scripts[i].data, ldType)
  {
    assert scripts == scripts[..i] + scripts[i..];
    JsonLdSkipsNonQualifying(scripts[..i], scripts[i..], ldType);
    assert scripts[..i + 1] + later == scripts[..i] + ([scripts[i]] + later);
    JsonLdSkipsNonQualifying(scripts[..i], [scripts[i]] + later, ldType);
  }

  /** A first qualifying block that matched only through its own `@type`
      but carries an `@graph` array without an item of the type makes the
      whole search return null, even if a later block would qualify. */
  lemma JsonLdGraphWithoutMatchIsNull(scripts: seq<ScriptBlock>, i: nat, ldType: string)
    requires i < |scripts| && scripts[i].Parsed?
    requires forall k :: 0 <= k < i ==> !QualifyingBlock(scripts[k], ldType)
    requires scripts[i].data.ldType == Some(ldType) && scripts[i].data.graph.Some?
    requires forall k :: 0 <= k < |scripts[i].data.graph.value| ==> scripts[i].data.graph.value[k].ldType != Some(ldType)
    ensures JsonLdSearch(scripts, ldType) == None
  {
    JsonLdFirstQualifyingDecides(scripts, i, [], ldType);
  }

  // ---------------------------------------------------------------------
  // stringToArray

  /** The argument of `stringToArray`: null/undefined, a string, or an array. */
  datatype StringInput = Missing | Text(text: string) | Items(items: seq<string>)

  /** The characters of `/[,\n•]/`. */
  const ListSeparators: set<char> := {',', '\n', '•'}

  /** `stringToArray(input)`. */
  function StringToArray(input: StringInput): (r: seq<string>)
    ensures input.Missing? || input == Text("") ==> r == []
    ensures forall e :: e in r ==> e != "" && IsTrimmed(e)
    ensures input.Text? ==> forall e :: e in r ==> Avoids(e, ListSeparators)
    ensures input.Items? ==> |r| <= |input.items|
  {
    match input
    case Missing => []
    case Text(s) =>
      if s == "" then []
      else
        var pieces := Split(s, ListSeparators);
        CleanAvoids(pieces, ListSeparators);
        Clean(pieces)
    case Items(xs) => Clean(xs)
  }

  /** Trimming and dropping empties cannot introduce a character. */
  lemma {:induction false} CleanAvoids(xs: seq<string>, seps: set<char>)
    requires forall p :: p in xs ==> Avoids(p, seps)
    ensures forall e :: e in Clean(xs) ==> Avoids(e, seps)
  {
    if xs != [] {
      forall p | p in xs[1..] ensures Avoids(p, seps) {
        assert p in xs;
      }
      CleanAvoids(xs[1..], seps);
      assert xs[0] in xs;
      TrimAvoids(xs[0], seps);
      assert Clean(xs) == CleanOne(xs[0]) + Clean(xs[1..]);
    }
  }

  lemma TrimAvoids(x: string, seps: set<char>)
    requires Avoids(x, seps)
    ensures Avoids(Trim(x), seps)
  {
    var t := Trim(x);
    var i := TrimSlice(x);
    forall k | 0 <= k < |t| ensures t[k] !in seps {
      assert t[k] == x[i + k];
    }
  }

  /** What `stringToArray` keeps: exactly the non-empty trims of the
      array's items, or of the pieces the text splits into. */
  lemma StringToArrayMembers(input: StringInput, e: string)
    ensures input.Items? ==>
              (e in StringToArray(input) <==> e != "" && exists x :: x in input.items && Trim(x) == e)
    ensures input.Text? ==>
              (e in StringToArray(input) <==> e != "" && exists x :: x in Split(input.text, ListSeparators) && Trim(x) == e)
  {
    match input
    case Missing =>
    case Items(xs) =>
      CleanMembership(xs, e);
    case Text(s) =>
      var pieces := Split(s, ListSeparators);
      assert StringToArray(input) == Clean(pieces) by {
        if s == "" {
          assert pieces == [""];
          assert Trim("") == "";
          assert Clean(pieces) == CleanOne("") + Clean([]);
        }
      }
      CleanMembership(pieces, e);
  }

  /** Only separators and whitespace are lost: the items glued together
      are the text without its separators, up to whitespace. */
  lemma StringToArrayContent(text: string)
    ensures NoSpace(Concat(StringToArray(Text(text)))) == NoSpace(Remove(text, ListSeparators))
  {
    if text != "" {
      CleanNoSpace(Split(text, ListSeparators));
      SplitConcat(text, ListSeparators);
    }
  }

  /** Clean items without separators, joined with commas, come back as
      they were. */
  lemma StringToArrayRoundTrip(xs: seq<string>)
    requires forall k :: 0 <= k < |xs| ==> CleanItem(xs[k]) && Avoids(xs[k], ListSeparators)
    ensures StringToArray(Text(Join(xs, ','))) == xs
  {
    if xs != [] {
      assert |Join(xs, ',')| >= |xs[0]| > 0 by {
        assert CleanItem(xs[0]);
      }
      SplitJoin(xs, ',', ListSeparators);
      CleanFixed(xs);
    }
  }

  /** On an array, `stringToArray` keeps the input order: the items of a
      concatenation are the items of its parts, in turn. */
  lemma StringToArrayKeepsOrder(xs: seq<string>, ys: seq<string>)
    ensures StringToArray(Items(xs + ys)) == StringToArray(Items(xs)) + StringToArray(Items(ys))
  {
    CleanAppend(xs, ys);
  }

  // ---------------------------------------------------------------------
  // detectLanguage

  const FrenchWords: seq<string> :=
    ["emploi", "poste", "entreprise", "travail", "société", "salaire", "expérience", "compétences"]

  /** French is chosen when the keyword count exceeds this. */
  const FrenchThreshold: nat := 3

  /** The summed match counts of `words` in `text`. */
  function KeywordCount(text: string, words: seq<string>): nat
    requires forall k :: 0 <= k < |words| ==> words[k] != []
  {
    if words == [] then 0 else CountMatches(text, words[0]) + KeywordCount(text, words[1..])
  }

  /** The `reduce` in `detectLanguage`: matches of the eight French words in
      the lower-cased text. */
  function FrenchCount(text: string): nat {
    KeywordCount(Lower(text), FrenchWords)
  }

  /** `detectLanguage(text)`. */
  function DetectLanguage(text: string): (lang: string)
    ensures lang == "fr" || lang == "en"
    ensures lang == "fr" <==> FrenchCount(text) > FrenchThreshold
  {
    if FrenchCount(text) > FrenchThreshold then "fr" else "en"
  }

  lemma {:induction false} KeywordCountPositive(text: string, words: seq<string>)
    requires forall k :: 0 <= k < |words| ==> words[k] != []
    ensures KeywordCount(text, words) > 0 <==> exists k :: 0 <= k < |words| && Contains(text, words[k])
  {
    if words != [] {
      KeywordCountPositive(text, words[1..]);
      if exists k :: 0 <= k < |words| && Contains(text, words[k]) {
        var k :| 0 <= k < |words| && Contains(text, words[k]);
        if k > 0 {
          assert Contains(text, words[1..][k - 1]);
        }
      }
      if exists k :: 0 <= k < |words[1..]| && Contains(text, words[1..][k]) {
        var k :| 0 <= k < |words[1..]| && Contains(text, words[1..][k]);
        assert Contains(text, words[k + 1]);
      }
    }
  }

  /** Empty text is English. */
  lemma DetectLanguageEmpty()
    ensures DetectLanguage("") == "en"
  {
    KeywordCountPositive(Lower(""), FrenchWords);
  }

  /** French is only ever chosen for text that contains one of the words. */
  lemma DetectLanguageNeedsKeyword(text: string)
    ensures DetectLanguage(text) == "fr" ==> exists k :: 0 <= k < |FrenchWords| && Contains(Lower(text), FrenchWords[k])
  {
    KeywordCountPositive(Lower(text), FrenchWords);
  }

  lemma {:induction false} KeywordCountAtLeast(text: string, words: seq<string>, k: nat)
    requires forall j :: 0 <= j < |words| ==> words[j] != []
    requires k < |words|
    ensures KeywordCount(text, words) >= CountMatches(text, words[k])
  {
    if k > 0 {
      KeywordCountAtLeast(text, words[1..], k - 1);
    }
  }

  lemma {:induction false} LowerRepeat(w: string, n: nat)
    requires Lower(w) == w
    ensures Lower(Repeat(w, n)) == Repeat(w, n)
  {
    if n > 0 {
      LowerRepeat(w, n - 1);
      var s := Repeat(w, n);
      assert s == w + Repeat(w, n - 1);
      forall k | 0 <= k < |s| ensures Lower(s)[k] == s[k] {
        if k < |w| {
          assert s[k] == w[k] && Lower(w)[k] == LowerChar(w[k]);
        } else {
          assert s[k] == Repeat(w, n - 1)[k - |w|];
          assert Lower(Repeat(w, n - 1))[k - |w|] == LowerChar(Repeat(w, n - 1)[k - |w|]);
        }
      }
    }
  }

  lemma FrenchWordsNonEmpty()
    ensures forall j :: 0 <= j < |FrenchWords| ==> FrenchWords[j] != []
  {
  }

  lemma FrenchWordLower(k: nat)
    requires k < |FrenchWords|
    ensures Lower(FrenchWords[k]) == FrenchWords[k]
  {
    LowerNoUpper(FrenchWords[k]);
  }

  /** Four repetitions of any one of the keywords already make a text French. */
  lemma RepeatedKeywordIsFrench(k: nat, n: nat)
    requires k < |FrenchWords| && n > FrenchThreshold
    ensures DetectLanguage(Repeat(FrenchWords[k], n)) == "fr"
  {
    var w := FrenchWords[k];
    FrenchWordLower(k);
    LowerRepeat(w, n);
    CountMatchesRepeat(w, n);
    FrenchWordsNonEmpty();
    KeywordCountAtLeast(Repeat(w, n), FrenchWords, k);
  }

  // ---------------------------------------------------------------------
  // JSON-LD to record, the part the parsers share

  /** `typeof jobLocation === 'string' ? jobLocation : jobLocation?.address?.addressLocality`. */
  function LocationOf(loc: JobLocation): (r: Option<string>)
    ensures loc.LocationText? ==> r == Some(loc.text)
    ensures loc.LocationObject? && loc.address.Some? ==> r == loc.address.value.addressLocality
    ensures loc.NoLocation? || (loc.LocationObject? && loc.address.None?) ==> r.None?
  {
    match loc
    case NoLocation => None
    case LocationText(s) => Some(s)
    case LocationObject(address) => if address.Some? then address.value.addressLocality else None
  }

  /** The object literal the JSON-LD branch of every site parser builds:
      copied fields, the location, the language of the description, and
      the enrichment request. */
  function MapJobPosting(j: JsonLd, url: string): (r: ParserResult)
    ensures r.title == j.title && r.description == j.description
    ensures r.datePosted == j.datePosted && r.employmentType == j.employmentType
    ensures r.company == (if j.hiringOrganization.Some? then j.hiringOrganization.value.name else None)
    ensures r.location == LocationOf(j.jobLocation)
    ensures r.postedDate.None? && r.validThrough.None? && r.jobType.None? && r.jobId.None?
    ensures r.language == Some(if FrenchCount(j.description.GetOr("")) > FrenchThreshold then "fr" else "en")
    ensures r.url == Some(url) && r.needsEnrichment == Some(true)
    ensures r.salary.None? && r.requirements.None? && r.responsibilities.None? && r.benefits.None?
  {
    NoFields.(
      title := j.title,
      company := if j.hiringOrganization.Some? then j.hiringOrganization.value.name else None,
      location := LocationOf(j.jobLocation),
      description := j.description,
      datePosted := j.datePosted,
      employmentType := j.employmentType,
      url := Some(url),
      language := Some(DetectLanguage(j.description.GetOr(""))),
      needsEnrichment := Some(true))
  }

  /** `${value || ''}` for a number: absent and 0 both give ''. */
  function NumberText(v: Option<int>): string {
    if v.None? || v.value == 0 then "" else IntToString(v.value)
  }

  /** `${min || ''} - ${max || ''} ${unit || ''}`: the salary text the
      Indeed and LinkedIn parsers build from a JSON-LD amount. */
  function SalaryRange(min: Option<int>, max: Option<int>, unit: Option<string>): string {
    NumberText(min) + " - " + NumberText(max) + " " + unit.GetOr("")
  }

  /** The digits at the front of a string. */
  function LeadingDigits(s: string): (d: string)
    ensures AllDigits(d) && d <= s
  {
    if s != [] && IsDigit(s[0]) then [s[0]] + LeadingDigits(s[1..]) else []
  }

  lemma {:induction false} LeadingDigitsOf(d: string, rest: string)
    requires AllDigits(d) && rest != [] && !IsDigit(rest[0])
    ensures LeadingDigits(d + rest) == d
  {
    if d != [] {
      assert (d + rest)[1..] == d[1..] + rest;
      LeadingDigitsOf(d[1..], rest);
    } else {
      assert d + rest == rest;
    }
  }

  /** A positive lower bound can be read back from the front of the salary text. */
  lemma SalaryRangeLowerBound(min: nat, max: Option<int>, unit: Option<string>)
    requires min > 0
    ensures DecimalValue(LeadingDigits(SalaryRange(Some(min), max, unit))) == min
  {
    var d := NatToDecimal(min);
    var rest := " - " + NumberText(max) + " " + unit.GetOr("");
    assert SalaryRange(Some(min), max, unit) == d + rest;
    LeadingDigitsOf(d, rest);
    DecimalRoundTrip(min);
  }

  /** A zero bound is rendered exactly as a missing one. */
  lemma SalaryRangeZeroBound(max: Option<int>, unit: Option<string>)
    ensures SalaryRange(Some(0), max, unit) == SalaryRange(None, max, unit)
    ensures " - " <= SalaryRange(Some(0), max, unit)
  {
  }

  // ---------------------------------------------------------------------
  // the document, abstracted

  /** One sibling inside a description section: an element the parser's
      heading selector matches, a `ul` (`ordered` false) or `ol` list with
      the texts of its `li` items, a `p` paragraph, or anything else. */
  datatype Block = Heading(text: string) | List(ordered: bool, items: seq<string>) | Para(text: string) | Other(text: string)

  /** `$(el).text()`: a list's text is the concatenation of its items. */
  function BlockText(b: Block): string {
    match b
    case Heading(t) => t
    case List(_, items) => Concat(items)
    case Para(t) => t
    case Other(t) => t
  }

  /** `$(list).find('li').map((_, li) => $(li).text().trim()).get()`. */
  function TrimEach(xs: seq<string>): (r: seq<string>)
    ensures |r| == |xs| && forall k :: 0 <= k < |xs| ==> r[k] == Trim(xs[k])
  {
    seq(|xs|, k requires 0 <= k < |xs| => Trim(xs[k]))
  }

  /** `$(el).prev().text()`: the text of the previous sibling, '' for the first. */
  function PrevText(blocks: seq<Block>, i: nat): string
    requires i < |blocks|
  {
    if i == 0 then "" else BlockText(blocks[i - 1])
  }

  /** `$(section).text()`: the texts of the section's blocks, in order. */
  function SectionText(blocks: seq<Block>): string {
    if blocks == [] then "" else BlockText(blocks[0]) + SectionText(blocks[1..])
  }

  /** `descriptionSection.text().trim()` when the description element
      exists, '' otherwise. */
  function Description(section: Option<seq<Block>>): string {
    if section.Some? then Trim(SectionText(section.value)) else ""
  }

  /** A `p`, `ul` or `ol` element whose trimmed text is not empty. */
  predicate IsContent(b: Block) {
    (b.Para? || b.List?) && Trim(BlockText(b)) != ""
  }

  // ---------------------------------------------------------------------
  // the sibling walk under a heading

  /** The items gathered from sibling `j` on, up to the next heading or the
      last sibling, each sibling adding `itemsOf` itself. */
  function Gather<U>(blocks: seq<Block>, j: nat, itemsOf: Block -> seq<U>): seq<U>
    requires j <= |blocks|
    decreases |blocks| - j
  {
    if j == |blocks| || blocks[j].Heading? then [] else itemsOf(blocks[j]) + Gather(blocks, j + 1, itemsOf)
  }

  /** The `while` walk after the heading at `i`: step to the next sibling
      as long as there is one and it is not a heading. */
  method GatherAfter<U>(blocks: seq<Block>, i: nat, itemsOf: Block -> seq<U>) returns (items: seq<U>)
    requires i < |blocks|
    ensures items == Gather(blocks, i + 1, itemsOf)
  {
    items := [];
    var j := i + 1;
    while j < |blocks| && !blocks[j].Heading?
      invariant i + 1 <= j <= |blocks|
      invariant items + Gather(blocks, j, itemsOf) == Gather(blocks, i + 1, itemsOf)
      decreases |blocks| - j
    {
      items := items + itemsOf(blocks[j]);
      j := j + 1;
    }
    assert items + [] == items;
  }

  /** The walk stops at the next heading: nothing from there on contributes. */
  lemma {:induction false} GatherStopsAtHeading<U>(blocks: seq<Block>, j: nat, k: nat, itemsOf: Block -> seq<U>)
    requires j <= k < |blocks| && blocks[k].Heading?
    ensures Gather(blocks, j, itemsOf) == Gather(blocks[..k], j, itemsOf)
    decreases k - j
  {
    if j < k {
      var front := blocks[..k];
      assert front[j] == blocks[j];
      if !blocks[j].Heading? {
        GatherStopsAtHeading(blocks, j + 1, k, itemsOf);
      }
    }
  }

  // ---------------------------------------------------------------------
  // scans that keep the last hit

  /** A variable that starts as '' and that every element passing `hit`
      overwrites with `value` of that element. */
  function LastHit<T>(xs: seq<T>, hit: T -> bool, value: T -> string): string {
    if xs == [] then ""
    else if hit(xs[|xs| - 1]) then value(xs[|xs| - 1])
    else LastHit(xs[..|xs| - 1], hit, value)
  }

  /** When no element passes, the scan ends with ''. */
  lemma {:induction false} LastHitNone<T>(xs: seq<T>, hit: T -> bool, value: T -> string)
    requires forall k :: 0 <= k < |xs| ==> !hit(xs[k])
    ensures LastHit(xs, hit, value) == ""
  {
    if xs != [] {
      var init := xs[..|xs| - 1];
      assert !hit(xs[|xs| - 1]);
      assert forall k :: 0 <= k < |init| ==> init[k] == xs[k];
      LastHitNone(init, hit, value);
    }
  }

  /** The scan ends with the value of the last passing element. */
  lemma {:induction false} LastHitIsLast<T>(xs: seq<T>, hit: T -> bool, value: T -> string, k: nat)
    requires k < |xs| && hit(xs[k])
    requires forall m :: k < m < |xs| ==> !hit(xs[m])
    ensures LastHit(xs, hit, value) == value(xs[k])
  {
    var last := |xs| - 1;
    if k < last {
      var init := xs[..last];
      assert !hit(xs[last]);
      assert init[k] == xs[k];
      assert forall m :: k < m < |init| ==> init[m] == xs[m];
      LastHitIsLast(init, hit, value, k);
    }
  }

  // ---------------------------------------------------------------------
  // sorting section items into requirements, responsibilities, benefits

  /** The list a heading (or a list's caption) sends its items to. */
  datatype Category = Requirements | Responsibilities | Benefits | Unclassified

  /** The three arrays the DOM branches fill. */
  datatype Sections = Sections(requirements: seq<string>, responsibilities: seq<string>, benefits: seq<string>)

  const NoSections: Sections := Sections([], [], [])

  function Total(s: Sections): nat {
    |s.requirements| + |s.responsibilities| + |s.benefits|
  }

  /** Every list of `s` is a prefix of the same list of `t`. */
  predicate Extends(s: Sections, t: Sections) {
    s.requirements <= t.requirements && s.responsibilities <= t.responsibilities && s.benefits <= t.benefits
  }

  lemma ExtendsTrans(s: Sections, t: Sections, u: Sections)
    requires Extends(s, t) && Extends(t, u)
    ensures Extends(s, u)
  {
  }

  /** `list = [...list, ...items]` on the one list the category names;
      unclassified items are dropped. */
  function File(s: Sections, c: Category, items: seq<string>): (r: Sections)
    ensures Extends(s, r)
    ensures Total(r) == Total(s) + (if c == Unclassified then 0 else |items|)
    ensures r.requirements == s.requirements + (if c == Requirements then items else [])
    ensures r.responsibilities == s.responsibilities + (if c == Responsibilities then items else [])
    ensures r.benefits == s.benefits + (if c == Benefits then items else [])
  {
    match c
    case Requirements => s.(requirements := s.requirements + items)
    case Responsibilities => s.(responsibilities := s.responsibilities + items)
    case Benefits => s.(benefits := s.benefits + items)
    case Unclassified => s
  }

  /** The bullet-list fallback shared by the parsers: every `ul` among
      the first `n` siblings files its trimmed items under the category
      `classify` gives the text of the sibling before it. */
  function ListScan(blocks: seq<Block>, n: nat, classify: string -> Category): Sections
    requires n <= |blocks|
  {
    if n == 0 then NoSections
    else
      var s := ListScan(blocks, n - 1, classify);
      var b := blocks[n - 1];
      if b.List? && !b.ordered then File(s, classify(PrevText(blocks, n - 1)), TrimEach(b.items)) else s
  }

  /** The `.each` over the `ul` lists of a description. */
  method ScanLists(blocks: seq<Block>, classify: string -> Category) returns (s: Sections)
    ensures s == ListScan(blocks, |blocks|, classify)
  {
    s := NoSections;
    for i := 0 to |blocks|
      invariant s == ListScan(blocks, i, classify)
    {
      var b := blocks[i];
      if b.List? && !b.ordered {
        var listTitle := PrevText(blocks, i);
        var items := TrimEach(b.items);
        s := File(s, classify(listTitle), items);
      }
    }
  }

  /** Later lists only append, so items keep document order across lists. */
  lemma {:induction false} ListScanInOrder(blocks: seq<Block>, m: nat, n: nat, classify: string -> Category)
    requires m <= n <= |blocks|
    ensures Extends(ListScan(blocks, m, classify), ListScan(blocks, n, classify))
    decreases n
  {
    if m < n {
      ListScanInOrder(blocks, m, n - 1, classify);
      ExtendsTrans(ListScan(blocks, m, classify), ListScan(blocks, n - 1, classify), ListScan(blocks, n, classify));
    }
  }

  /** A classifier that never answers `Benefits` leaves benefits empty. */
  lemma {:induction false} ListScanNoBenefits(blocks: seq<Block>, n: nat, classify: string -> Category)
    requires n <= |blocks|
    requires forall t :: classify(t) != Benefits
    ensures ListScan(blocks, n, classify).benefits == []
  {
    if n > 0 {
      ListScanNoBenefits(blocks, n - 1, classify);
      var b := blocks[n - 1];
      if b.List? && !b.ordered {
        var s := ListScan(blocks, n - 1, classify);
        var c := classify(PrevText(blocks, n - 1));
        assert c != Benefits;
        assert File(s, c, TrimEach(b.items)).benefits == s.benefits + [];
      }
    }
  }

  /** An ordered `if / else if` chain of `includes` tests: requirements
      first, then responsibilities, then benefits. */
  function Chain(text: string, req: seq<string>, resp: seq<string>, ben: seq<string>): Category {
    if ContainsAny(text, req) then Requirements
    else if ContainsAny(text, resp) then Responsibilities
    else if ContainsAny(text, ben) then Benefits
    else Unclassified
  }

  /** The chain in terms of the words: a text goes to the first group
      with a word occurring in it, whatever the later groups say. */
  lemma ChainOrder(text: string, req: seq<string>, resp: seq<string>, ben: seq<string>)
    ensures Chain(text, req, resp, ben) == Requirements <==>
              exists k :: 0 <= k < |req| && Contains(text, req[k])
    ensures Chain(text, req, resp, ben) == Responsibilities <==>
              (forall k :: 0 <= k < |req| ==> !Contains(text, req[k])) &&
              exists k :: 0 <= k < |resp| && Contains(text, resp[k])
    ensures Chain(text, req, resp, ben) == Benefits <==>
              (forall k :: 0 <= k < |req| ==> !Contains(text, req[k])) &&
              (forall k :: 0 <= k < |resp| ==> !Contains(text, resp[k])) &&
              exists k :: 0 <= k < |ben| && Contains(text, ben[k])
  {
    ContainsAnyIff(text, req);
    ContainsAnyIff(text, resp);
    ContainsAnyIff(text, ben);
  }
}
