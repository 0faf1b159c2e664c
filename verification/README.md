# Job Surf AI extraction core, in Dafny

A model of the job-offer extraction core of Job Surf AI. It covers:

- the site parsers, which turn a job page into a partial `JobData` record: Glassdoor, Welcome to the Jungle, Indeed, Monster, LinkedIn, and the URL-only Monster fallback;
- the helpers those parsers share: JSON-LD lookup, `stringToArray` and language detection;
- the URL and header utilities of `proxy-utils`;
- the in-memory `JobCache`;
- the two API routes: `/api/extract-job`, which takes a URL, and `/api/extract-job-text`, which takes pasted text.

How each part is modelled:

- **Parsers.** Each parser is a pure function of what it reads from the page. That is:
  - the JSON-LD blocks;
  - the texts of its selectors;
  - the children of the description element, as a flat sequence of blocks: headings, lists with their items, paragraphs and other elements.

  Each loop that the source runs over elements (`.each`, `while` walks over siblings) becomes a `method` with a loop. The loop is proved equal to a recursive specification function, and the properties are lemmas about that function.
- **Cache.** `JobCache` is a class whose `entries` map and `keys` sequence are updated in place. Every method is proved against a function on a `CacheState` value. Lemmas show that the invariant "`keys` lists each key of the map once, at most 100 of them" is preserved.
- **Routes.** The routes are functions from the request body to the `{ status, body }` reply. The page fetch, the model calls, `new URL`, `JSON.parse`, the clock and `Math.random` are parameters.

## Model

| member | source | states |
|---|---|---|
| BaseParser.FindByType | src/lib/parsers/baseParser.ts:82 | the item found is in the graph and has the requested `@type`; nothing is found exactly when no item has it |
| BaseParser.FindByTypeIsFirst | src/lib/parsers/baseParser.ts:82 | `find` returns the first graph item of the type: an item of the type with none before it is the one found |
| BaseParser.ExtractJsonLd | src/lib/parsers/baseParser.ts:62-93 | the loop over the `ld+json` blocks returns the first qualifying block's selection (`JsonLdSearch`); no blocks gives null |
| BaseParser.JsonLdResultHasType | src/lib/parsers/baseParser.ts:76-86 | any object returned has the requested `@type` |
| BaseParser.JsonLdSkipsNonQualifying | src/lib/parsers/baseParser.ts:68-90 | empty, malformed or other-typed blocks before the rest do not change the result |
| BaseParser.JsonLdFirstQualifyingDecides | src/lib/parsers/baseParser.ts:76-86 | the first qualifying block decides the result, whatever follows it |
| BaseParser.JsonLdGraphWithoutMatchIsNull | src/lib/parsers/baseParser.ts:81-84 | a block whose own `@type` matches but whose `@graph` has no matching item yields null, and no later block is consulted |
| BaseParser.StringToArray | src/lib/parsers/baseParser.ts:96-100 | absent or empty input gives []; every item is trimmed and non-empty; items split from a string hold no `,`, newline or `•`; an array never grows |
| BaseParser.StringToArrayMembers | src/lib/parsers/baseParser.ts:96-100 | an item is in the result exactly when it is the non-empty trim of an array element, or of a piece of the text split on `,`, newline and `•` |
| BaseParser.StringToArrayContent | src/lib/parsers/baseParser.ts:99 | the items glued together are the text with its separators deleted, up to whitespace: only separators and whitespace are lost |
| BaseParser.StringToArrayRoundTrip | src/lib/parsers/baseParser.ts:99 | trimmed, non-empty items without separators, joined with commas, come back unchanged |
| BaseParser.StringToArrayKeepsOrder | src/lib/parsers/baseParser.ts:98 | on arrays the result of a concatenation is the concatenation of the results, so order is kept |
| BaseParser.DetectLanguage | src/lib/parsers/baseParser.ts:103-111 | the answer is `fr` or `en`, and `fr` exactly when the summed match count of the eight French words in the lower-cased text exceeds 3 |
| BaseParser.KeywordCountPositive | src/lib/parsers/baseParser.ts:105-108 | the summed count is positive exactly when some word occurs in the text |
| BaseParser.DetectLanguageEmpty | src/lib/parsers/baseParser.ts:103-111 | empty text is English |
| BaseParser.DetectLanguageNeedsKeyword | src/lib/parsers/baseParser.ts:106-110 | French is only chosen for a text that contains one of the French words |
| BaseParser.KeywordCountAtLeast | src/lib/parsers/baseParser.ts:106-108 | the sum is at least the count of any single word |
| BaseParser.RepeatedKeywordIsFrench | src/lib/parsers/baseParser.ts:105-110 | four repetitions of any one French word make a text French |
| BaseParser.MapJobPosting | src/lib/parsers/glassdoor.ts:11-23 | the shared JSON-LD record copies title, description, datePosted and employmentType; the company is `hiringOrganization.name`; the location is `LocationOf(jobLocation)`; its language is detected from the description or ''; it carries the URL and `needsEnrichment`; it has no salary, lists, posted date, closing date, job type or job id |
| BaseParser.LocationOf | src/lib/parsers/glassdoor.ts:14-16 | a string `jobLocation` is the location; an object gives its `address.addressLocality`; no location or no address gives none |
| BaseParser.SalaryRangeLowerBound | src/lib/parsers/indeed.ts:19-21 | a positive lower bound can be read back from the leading digits of the rendered salary text |
| BaseParser.SalaryRangeZeroBound | src/lib/parsers/indeed.ts:20 | `minValue || ''` renders 0 exactly like a missing bound, so the text starts with " - " |
| BaseParser.TrimEach | src/lib/parsers/monster.ts:56 | one item per `li`, in order, each trimmed |
| BaseParser.GatherAfter | src/lib/parsers/wttj.ts:60-65 | the sibling walk after a heading collects exactly `Gather`, the contributions of the siblings up to the next heading |
| BaseParser.GatherStopsAtHeading | src/lib/parsers/wttj.ts:60 | nothing from the next heading on contributes to the walk |
| BaseParser.LastHitNone | src/lib/parsers/glassdoor.ts:32-44 | when no element passes the test, the scanned variable stays '' |
| BaseParser.LastHitIsLast | src/lib/parsers/glassdoor.ts:32-44 | the scanned variable ends with the value of the last passing element |
| BaseParser.File | src/lib/parsers/glassdoor.ts:107-132 | filing appends the items to the end of the one list the category names and leaves the other two unchanged; unclassified items are dropped; the total grows by the number of items unless the heading matched no group |
| BaseParser.ScanLists | src/lib/parsers/monster.ts:52-63 | the `.each` over the `ul` lists equals `ListScan`: each list's trimmed items are filed by the lower-cased text of the previous sibling |
| BaseParser.ListScanInOrder | src/lib/parsers/monster.ts:54-63 | later lists only append, so items keep document order |
| BaseParser.ListScanNoBenefits | src/lib/parsers/monster.ts:58-62 | a caption test that never answers benefits leaves the benefits list empty |
| BaseParser.ChainOrder | src/lib/parsers/glassdoor.ts:107-132 | the `if / else if` chain: requirements when a requirement word matches; responsibilities only when none does and a responsibility word does; benefits only when neither group matches and a benefit word does |
| Glassdoor.ScanSalary | src/lib/parsers/glassdoor.ts:32-44 | the salary is the trimmed text of the last element whose trimmed text holds `$`, `€` or `£`, or "salary"/"salaire" in lower case; '' when none does |
| Glassdoor.ScanJobType | src/lib/parsers/glassdoor.ts:47-61 | the job type is the trimmed text of the last element whose lower-cased text names a contract kind |
| Glassdoor.ParagraphItems | src/lib/parsers/glassdoor.ts:94-102 | an empty paragraph adds nothing; an unmarked one adds its trimmed text; every item is trimmed, non-empty and free of `•` and `*`; a paragraph with marks is cut into pieces with no mark left |
| Glassdoor.ParagraphContent | src/lib/parsers/glassdoor.ts:94-102 | the items of a split paragraph, glued together, are its trimmed text with every bullet and item number deleted, up to whitespace |
| Glassdoor.SplitMarksFromConcat | src/lib/parsers/glassdoor.ts:99 | the pieces of `split(/•|\*|\d+\./)` glued together are the text with every match deleted |
| Glassdoor.SplitMarksFromUnmarked | src/lib/parsers/glassdoor.ts:99 | splitting on `•`, `*` and `\d+\.` leaves pieces with no mark |
| Glassdoor.ScanHeadings | src/lib/parsers/glassdoor.ts:76-134 | the `.each` over the bold headings equals `HeadingScan`: each heading's gathered items are filed by its lower-cased text |
| Glassdoor.HeadingScanInOrder | src/lib/parsers/glassdoor.ts:114-131 | later headings only append to the three lists |
| Glassdoor.DomSections | src/lib/parsers/glassdoor.ts:136-165 | the heading scan is kept when it found anything; otherwise the bullet-list fallback is used |
| Glassdoor.DomRecord | src/lib/parsers/glassdoor.ts:167-188 | title, company, location and description are the values read; job type, salary, posted date and the three lists hold their values and are absent exactly when empty; the language is detected from the description or else the title; the record carries the URL and `needsEnrichment` and none of the JSON-LD-only keys |
| Glassdoor.ParseGlassdoor | src/lib/parsers/glassdoor.ts:4-189 | the parser returns the JSON-LD record when a `JobPosting` is found and the DOM record otherwise |
| Wttj.GatheredContent | src/lib/parsers/wttj.ts:58-65 | up to the next heading the walk keeps exactly the non-empty `p`, `ul` and `ol` siblings, in document order: every such sibling is gathered and nothing else is |
| Wttj.ParagraphPieces | src/lib/parsers/wttj.ts:74-82 | a paragraph's items are trimmed and non-empty; a text with `.` or a newline is cut into pieces without either; any other non-empty text stays whole; glued together the items are the trimmed text without its breaks, up to whitespace |
| Wttj.SentencePieces | src/lib/parsers/wttj.ts:77-81 | the same facts for a trimmed text, including that only breaks and whitespace are lost |
| Wttj.BuildItems | src/lib/parsers/wttj.ts:68-84 | the `forEach` over the collected elements concatenates their items in order (`ItemsOf`) |
| Wttj.AccentedCompetencesNotFiled | src/lib/parsers/wttj.ts:87-112 | a heading reading "compétences" matches none of the three keyword groups |
| Wttj.MisencodedKeywordNeverMatches | src/lib/parsers/wttj.ts:52-94 | the heading is lower-cased before the tests, so the keyword 'compÃ©tence' (whose `Ã` lower-casing turns into `ã`) matches no heading at all |
| Wttj.ScanHeadings | src/lib/parsers/wttj.ts:52-113 | the `.each` over `h2`/`h3` equals `HeadingScan` |
| Wttj.HeadingScanInOrder | src/lib/parsers/wttj.ts:95-111 | later headings only append to the three lists |
| Wttj.DomRecord | src/lib/parsers/wttj.ts:115-136 | title, company, location and description are the values read; job type, salary, posted date and the three lists hold their values and are absent exactly when empty; the language comes from the description or else the title; the record carries the URL and `needsEnrichment` |
| Wttj.ParseWttj | src/lib/parsers/wttj.ts:4-137 | the parser returns the JSON-LD record or else the DOM record |
| Indeed.JsonLdRecord | src/lib/parsers/indeed.ts:10-27 | the shared mapping plus a salary, present exactly when `estimatedSalary` is, rendered from its min, max and unit |
| Indeed.ScanSalary | src/lib/parsers/indeed.ts:35-43 | a non-empty selector salary is kept; otherwise the untrimmed text of the last snippet that holds `$` or `€`, or "salary"/"salaire" in lower case |
| Indeed.ScanJobType | src/lib/parsers/indeed.ts:56-62 | the trimmed value of the last section item whose trimmed, lower-cased label names the job type |
| Indeed.FirstContainer | src/lib/parsers/indeed.ts:79-87 | the element found lies after the heading and is a non-empty `p`, `ul` or `ol` |
| Indeed.FirstContainerIsFirst | src/lib/parsers/indeed.ts:83-86 | nothing before the element found qualifies; when nothing is found, no later sibling qualifies |
| Indeed.FirstContainerSkips | src/lib/parsers/indeed.ts:79-87 | siblings that do not qualify, headings among them, are walked past, so a heading with no content of its own takes a later heading's container |
| Indeed.FindContainer | src/lib/parsers/indeed.ts:76-87 | the `while` walk with `break` finds exactly `FirstContainer` |
| Indeed.AfterHeading | src/lib/parsers/indeed.ts:89-111 | a heading only appends to requirements or responsibilities and never to benefits |
| Indeed.ScanHeadings | src/lib/parsers/indeed.ts:72-112 | the `.each` over `h3`, `h4`, `strong` and `b` equals `HeadingScan` |
| Indeed.HeadingScanNoBenefits | src/lib/parsers/indeed.ts:94-110 | no heading is ever filed under benefits |
| Indeed.HeadingScanInOrder | src/lib/parsers/indeed.ts:101-109 | later headings only append |
| Indeed.DomRecord | src/lib/parsers/indeed.ts:114-128 | title, company, location and description are the values read; salary, job type and the two lists hold their values and are absent exactly when empty; `postedDate` is always present; there are no benefits; language, URL and `needsEnrichment` |
| Indeed.ParseIndeed | src/lib/parsers/indeed.ts:4-129 | the parser returns the JSON-LD record or else the DOM record, never with benefits |
| Monster.CaptionNeverBenefits | src/lib/parsers/monster.ts:58-62 | the caption test has no benefits branch |
| Monster.MonsterListsNoBenefits | src/lib/parsers/monster.ts:52-63 | no list is ever filed under benefits |
| Monster.ListScanDropsUncaptioned | src/lib/parsers/monster.ts:58-62 | a list whose caption matches neither group adds nothing |
| Monster.DomRecord | src/lib/parsers/monster.ts:65-78 | title, company, location and description are the values read; `postedDate` and `jobType` are always present; the lists hold the scanned items and are absent exactly when empty; no salary or benefits; language, URL and `needsEnrichment` |
| Monster.ParseMonster | src/lib/parsers/monster.ts:4-79 | the parser returns the JSON-LD record or else the DOM record, never with benefits |
| LinkedIn.JobLocationText | src/lib/parsers/linkedin.ts:12-17 | a string location is kept; an absent one, or an object without an address, gives no location |
| LinkedIn.JobLocationTextIsShared | src/lib/parsers/linkedin.ts:12-17 | the `typeof` branch agrees with the optional chain the other parsers use |
| LinkedIn.JsonLdRecord | src/lib/parsers/linkedin.ts:10-34 | the shared mapping plus `validThrough`, and a salary present exactly when `baseSalary` is, rendered with its currency |
| LinkedIn.SalaryText | src/lib/parsers/linkedin.ts:52-53 | the trimmed compensation text wins when non-empty; otherwise the first trimmed insight is used; the result is empty exactly when both are |
| LinkedIn.DomRecord | src/lib/parsers/linkedin.ts:58-69 | title, company, location and description are the values read; the salary holds its text and is absent exactly when empty; `postedDate` is always present; no job type or lists; language, URL and `needsEnrichment` |
| LinkedIn.ParseLinkedIn | src/lib/parsers/linkedin.ts:4-70 | the JSON-LD branch gives `JsonLdRecord`; the DOM branch's salary is the salary text or absent |
| EnhancedMonster.RemoveFirstMatch | src/lib/parsers/enhanced-monster.ts:36-37 | `replace` with a non-global pattern deletes the leftmost match only, and leaves the text alone when nothing matches |
| EnhancedMonster.CollapseDashes | src/lib/parsers/enhanced-monster.ts:38 | no dash is left and the text never grows |
| EnhancedMonster.CollapseRun | src/lib/parsers/enhanced-monster.ts:38 | a run of dashes becomes a single space |
| EnhancedMonster.CleanSlug | src/lib/parsers/enhanced-monster.ts:35-39 | the cleaned slug has no dash and is trimmed |
| EnhancedMonster.CleanSlugContent | src/lib/parsers/enhanced-monster.ts:35-39 | only the first `offres-d'emploi` match, the first `job`/`jobs` match, dashes and whitespace are lost: up to whitespace the cleaned slug is the segment without those matches and dashes |
| EnhancedMonster.Capitalize | src/lib/parsers/enhanced-monster.ts:42 | only the first character changes, to upper case |
| EnhancedMonster.LocationStartIsLeftmost | src/lib/parsers/enhanced-monster.ts:45 | the split point is the leftmost position where the location pattern matches up to the end; when none is found, the pattern matches nowhere |
| EnhancedMonster.SplitLocationShape | src/lib/parsers/enhanced-monster.ts:45-49 | the location is the trimmed tail after the split: letters and spaces followed by 2 to 5 final digits |
| EnhancedMonster.SplitLocationKeepsTitle | src/lib/parsers/enhanced-monster.ts:45-49 | on "Stage paris 75e paris 75" the split gives the title "Stage paris 75e" and the location "paris 75" |
| EnhancedMonster.AsWrittenCutsFirstOccurrence | src/lib/parsers/enhanced-monster.ts:48 | `title.replace(match, '')` cuts the first occurrence of the matched text, which may lie before the match |
| EnhancedMonster.SplitLocationAsWrittenGarbles | src/lib/parsers/enhanced-monster.ts:48 | on "Stage paris 75e paris 75" the code as written gives the title "Stagee paris 75" |
| EnhancedMonster.JobIdOf | src/lib/parsers/enhanced-monster.ts:53-58 | the job id is a 36-character UUID-shaped slice of the URL, or "Unknown" exactly when there is none |
| EnhancedMonster.JobIdIsFirst | src/lib/parsers/enhanced-monster.ts:55-57 | the leftmost UUID is the one taken |
| EnhancedMonster.FindJobSegment | src/lib/parsers/enhanced-monster.ts:27-31 | the first path part that mentions emploi, job or offres; none exactly when no part does |
| EnhancedMonster.LanguageOfHost | src/lib/parsers/enhanced-monster.ts:16 | French exactly when the hostname ends in ".fr" |
| EnhancedMonster.FallbackRecord | src/lib/parsers/enhanced-monster.ts:71-80 | the catch record: default title, no location and no job id; French exactly when the URL contains ".fr" |
| EnhancedMonster.FoundRecord | src/lib/parsers/enhanced-monster.ts:60-70 | the record carries the title, location and job id found, and the host's language |
| EnhancedMonster.ExtractInfoFromMonsterUrl | src/lib/parsers/enhanced-monster.ts:9-82 | the company is always "Company on Monster", the URL is kept and enrichment is requested; location and job id are both present or both absent |
| EnhancedMonster.MonsterLanguage | src/lib/parsers/enhanced-monster.ts:16-78 | the language follows the hostname on success, and a ".fr" substring of the raw URL on failure |
| EnhancedMonster.MonsterFallback | src/lib/parsers/enhanced-monster.ts:71-80 | an unparsable URL or an undecodable segment gives the fallback record |
| EnhancedMonster.MonsterDefaults | src/lib/parsers/enhanced-monster.ts:19-41 | with no job segment, or one that cleans to nothing, the defaults "Monster Job Listing" / "Unknown Location" remain |
| EnhancedMonster.MonsterTitle | src/lib/parsers/enhanced-monster.ts:33-49 | the title is the capitalised, dash-free cleaned slug with the location split off |
| EnhancedMonster.MonsterJobId | src/lib/parsers/enhanced-monster.ts:53-65 | the job id is `JobIdOf(url)` and appears in the description |
| EnhancedMonster.OffresSegmentCleansToNothing | src/lib/parsers/enhanced-monster.ts:24-41 | a bare "offres-demploi" segment cleans to the empty string, so the default title is kept |
| ProxyUtils.IsBlockedSite | src/lib/proxy-utils.ts:98-100 | blocked exactly when one of the four blocked domains occurs somewhere in the URL |
| ProxyUtils.BlockedAnywhere | src/lib/proxy-utils.ts:98-100 | any text containing a blocked domain is blocked, wherever the domain occurs |
| ProxyUtils.NotBlockedWithoutSite | src/lib/proxy-utils.ts:98-100 | a URL containing none of the domains is not blocked |
| ProxyUtils.KeepParams | src/lib/proxy-utils.ts:121-129 | the pairs kept are exactly those whose name is not dropped |
| ProxyUtils.DeleteAfterKeep | src/lib/proxy-utils.ts:127-129 | deleting one more name after the others equals dropping all of them together |
| ProxyUtils.RemoveTrackingParams | src/lib/proxy-utils.ts:120-129 | the `forEach` of `searchParams.delete` leaves the URL with its query stripped of the tracking names |
| ProxyUtils.NoTrackingRemains | src/lib/proxy-utils.ts:120-129 | no tracking parameter survives, and every other pair does |
| ProxyUtils.StripTrackingIdempotent | src/lib/proxy-utils.ts:120-129 | stripping twice is stripping once |
| ProxyUtils.FirstJobIdSegment | src/lib/proxy-utils.ts:137 | `findIndex` gives the first all-digit path part, or -1 when there is none |
| ProxyUtils.SanitizeJobUrl | src/lib/proxy-utils.ts:116-148 | the method returns `SanitizedJobUrl` |
| ProxyUtils.SanitizeUnparsable | src/lib/proxy-utils.ts:145-147 | an unparsable URL is returned unchanged |
| ProxyUtils.SanitizeLinkedIn | src/lib/proxy-utils.ts:132-141 | a LinkedIn jobs/view URL with an all-digit part becomes the canonical job URL with the first such part |
| ProxyUtils.SanitizeOther | src/lib/proxy-utils.ts:144 | any other URL is serialised with its tracking parameters removed |
| ProxyUtils.CanonicalJobId | src/lib/proxy-utils.ts:139 | the canonical LinkedIn URL gives back the same job id |
| ProxyUtils.SanitizeIdempotent | src/lib/proxy-utils.ts:116-148 | sanitising a sanitised URL changes nothing, provided `new URL` reads the output back as the URL it came from |
| ProxyUtils.SiteHeaders | src/lib/proxy-utils.ts:55-74 | the first of linkedin, indeed and glassdoor that the hostname contains picks the site headers; otherwise there are none |
| ProxyUtils.RandomizedHeaders | src/lib/proxy-utils.ts:76-92 | the object spread: all common and site keys, site values overriding common ones |
| ProxyUtils.GetRandomizedHeaders | src/lib/proxy-utils.ts:49-92 | the user agent and referrer sent are members of the two rotation lists |
| ProxyUtils.AcceptLanguageBySite | src/lib/proxy-utils.ts:57-92 | LinkedIn and Indeed hosts also ask for French; every other host keeps the default `Accept-Language` |
| ProxyUtils.RotatedHeadersKept | src/lib/proxy-utils.ts:51-92 | the rotated `User-Agent` and `Referer` are never overridden |
| Cache.Without | src/lib/cache.ts:59 | the filter keeps exactly the other keys and keeps them distinct |
| Cache.ExpireKeys | src/lib/cache.ts:87-94 | the map after cleanup keeps exactly the entries that are not listed-and-expired, with their values |
| Cache.FreshKeysMembers | src/lib/cache.ts:87-94 | the surviving keys are exactly the listed keys whose entry is missing or not expired, and they stay distinct |
| Cache.JobCache.constructor | src/lib/cache.ts:19-22 | a new cache is empty and consistent |
| Cache.JobCache.Set | src/lib/cache.ts:27-46 | the new state is `SetSpec` of the old one, and the invariant is kept |
| Cache.JobCache.Get | src/lib/cache.ts:51-65 | returns `GetValue` and leaves `GetState`: an expired entry is removed from both structures |
| Cache.JobCache.Clear | src/lib/cache.ts:70-73 | the cache is empty |
| Cache.JobCache.Size | src/lib/cache.ts:78-80 | the size is the number of map entries, which equals the number of listed keys and is at most 100 |
| Cache.JobCache.Cleanup | src/lib/cache.ts:85-95 | the filter loop leaves `CleanupSpec` of the old state, and the invariant is kept |
| Cache.ConsistentSize | src/lib/cache.ts:13-17 | a consistent cache has as many entries as keys, at most 100 |
| Cache.SetKeepsConsistent | src/lib/cache.ts:27-46 | `set` keeps the invariant and never exceeds 100 entries |
| Cache.SetThenGet | src/lib/cache.ts:27-65 | reading a key at the time it was set returns the data and changes nothing |
| Cache.OverwriteKeepsOrder | src/lib/cache.ts:37-45 | overwriting a present key only refreshes its entry; the key order is unchanged |
| Cache.SetEvictsOldest | src/lib/cache.ts:29-39 | a new key in a full cache evicts `keys[0]` and goes to the end, and the size stays 100 |
| Cache.SetNewKey | src/lib/cache.ts:29-39 | a new key is appended, after dropping the oldest when the cache is full |
| Cache.GetExpiry | src/lib/cache.ts:51-65 | an entry older than 24 hours is reported missing and removed; otherwise its data is returned and nothing changes |
| Cache.GetAbsentChangesNothing | src/lib/cache.ts:52-61 | a missing key gives null and leaves the state alone |
| Cache.GetKeepsConsistent | src/lib/cache.ts:51-65 | `get` keeps the invariant |
| Cache.CleanupKeepsConsistent | src/lib/cache.ts:85-95 | cleanup keeps exactly the unexpired entries, unchanged, and the invariant |
| Cache.CleanupStep | src/lib/cache.ts:87-94 | one step of the filter deletes the key from the map exactly when its entry is expired |
| Cache.CleanupKeepsOrder | src/lib/cache.ts:87-94 | the filter keeps the surviving keys in their old order |
| Cache.ClearedIsEmpty | src/lib/cache.ts:70-73 | the cleared state is consistent and empty |
| Cache.InsertAllKeepsNewest | src/lib/cache.ts:27-46 | setting distinct keys one after another keeps the invariant and lists the last 100 of them |
| Cache.OneOverCapacityDropsFirst | src/lib/cache.ts:13-34 | after 101 distinct keys only the first is gone |
| Cache.EmptyKeyEvictionOverflows | src/lib/cache.ts:30-33 | as written, evicting the key "" leaves it in the map but not in `keys`, and the map holds 101 entries |
| Cache.EmptyKeyEvictionReachable | src/lib/cache.ts:30-33 | a full consistent cache whose oldest key is "" exists |
| ExtractJobRoute.FetchFailureMessageInjective | src/app/api/extract-job/route.ts:74-82 | outside 403, 404 and 429, different upstream statuses give different messages |
| ExtractJobRoute.CaughtReply | src/app/api/extract-job/route.ts:66-101 | every fetch or model failure is a 500 with no data: the status message when the site answered, the no-response message when a request went out, "Error with the request: " + message (or "Unknown error occurred") otherwise |
| JobTypes.CaughtMessage | src/app/api/extract-job/route.ts:103-110 | the outer catch of both routes reports an `Error`'s message and otherwise "Unknown error occurred" |
| ExtractJobRoute.ExtractJob | src/app/api/extract-job/route.ts:16-111 | the status is 200, 400 or 500, and `success` exactly when 200; 400 exactly when a readable body fails validation, with "URL is required" or "Invalid URL format"; an unreadable body gives a 500; a success carries the extracted record with its `url` replaced by the request URL; upstream failures give `CaughtReply` |
| ExtractJobRoute.RejectedBeforeFetch | src/app/api/extract-job/route.ts:22-35 | a request that fails validation gets the same reply whatever the site and the model would do |
| ExtractJobRoute.SuccessCarriesRequestUrl | src/app/api/extract-job/route.ts:59-64 | a successful reply's record carries the request URL |
| ExtractJobTextRoute.ExtractFromText | src/app/api/extract-job-text/route.ts:42-80 | the model's answer (or '') is parsed and stamped with "N/A - Direct text input"; a failure of the call or the parse is rethrown unchanged |
| ExtractJobTextRoute.ExtractJobText | src/app/api/extract-job-text/route.ts:10-39 | the status is 200, 400 or 500, and `success` exactly when 200; 400 with the minimum-length message exactly when a readable body's text is absent, empty or shorter than 50 once trimmed; a success carries the record with the placeholder URL; failures give a 500 with the caught message |
| ExtractJobTextRoute.WhiteSpaceDoesNotCount | src/app/api/extract-job-text/route.ts:16 | only the trimmed length is measured: padding neither helps nor hurts |
| ExtractJobTextRoute.ThresholdInclusive | src/app/api/extract-job-text/route.ts:16-21 | exactly 50 characters are accepted and 49 are refused |
| ExtractJobTextRoute.RejectedBeforeModel | src/app/api/extract-job-text/route.ts:16-24 | a refused text gets the same reply whatever the model would do |

## Left out

- The DOM is a flat sequence of the description element's children. Nested markup is not modelled. `find` (all descendants) and `next`/`prev` (siblings) therefore coincide. A bold heading inside a paragraph is treated as a sibling.
- Each parser's selector texts (`extractText`) are inputs, as is the raw text of the elements it scans. CSS selector matching and cheerio's `.text()` are not part of this model.
- `trim` removes ASCII whitespace only. `toLowerCase` and `toUpperCase` map ASCII and Latin-1 letters (`A`-`Z`, `À`-`Þ` without `×`). Other Unicode whitespace and case mappings (`ÿ`, `ß`, Greek, Cyrillic and beyond) are not modelled.
- Strings are sequences of Unicode scalar values. JavaScript's `length` counts UTF-16 code units, so a text with characters outside the Basic Multilingual Plane, such as emoji, reaches the 50-character minimum of `/api/extract-job-text` sooner in the source than in `ExtractJobTextRoute.LongEnough`.
- JSON-LD blocks arrive already parsed. `JSON.parse` of a script block is modelled only as "malformed", which is skipped. Numbers in JSON-LD are integers, so floating-point salaries are not modelled.
- The JSON-LD datatype has no `null` values. A `null` item in `@graph` before the first item of the type makes `.some` throw, and the source then skips the whole block as it does a malformed one. That case is not modelled.
- `new URL`, `decodeURIComponent` and URL serialisation are parameters or simplified. The `Url` record holds scheme, host, path and query only. It has no port, user info or fragment, all of which `parsedUrl.toString()` keeps: `…/view/123/#apply` keeps `#apply` in the source and loses it in the model.
- `searchParams.delete` re-serialises the whole query as `application/x-www-form-urlencoded` (a `%20` becomes `+`, for instance). The model keeps the text of the remaining parameters as given and does not percent-encode.
- `randomDelay` is left out, because it is a timer over a floating-point random draw. The random draws of `getRandomizedHeaders` are index parameters.
- The clock (`Date.now()`) is a `now` parameter of the cache methods. The hourly `setInterval` cleanup and the singleton instance are left out.
- `console.error` calls are left out.
- The page fetch (axios) and both OpenAI calls are outcome parameters. `extractJobInformation` (src/lib/openai.ts) is not part of this model.
- ExtractJobRoute.ExtractJob: `url` and `text` are strings or absent. A truthy non-string value, which would make `new URL` or `trim` behave differently, is not modelled.
- ExtractJobTextRoute.ExtractFromText: the model's answer is taken to parse to an object record. A JSON answer that parses to a primitive, where assigning `url` would throw, is not modelled.

## Findings

The as-written behaviour is modelled and exhibited; the rest of the model uses the corrected definition.

An observation outside the table: the WTTJ requirement keyword `compÃ©tence` (src/lib/parsers/wttj.ts:93) is dead code. The heading is lower-cased first (src/lib/parsers/wttj.ts:52), and lower-casing turns `Ã` into `ã`, so no heading can contain the keyword (`Wttj.MisencodedKeywordNeverMatches`). A heading reading "Compétences" is therefore dropped (`Wttj.AccentedCompetencesNotFiled`). The model keeps the keyword list as written.

| source | as written | input that shows it | evidently intended | confidence | as-written member | corrected member |
|---|---|---|---|---|---|---|
| src/lib/cache.ts:30-33 | the evicted key is deleted from the map only `if (oldestKey)`, so an empty-string key is shifted out of `keys` but its entry stays in the map | a full cache of 100 keys whose oldest key is "", then `set` of a new key: the map holds 101 entries and "" is no longer listed, so it can never be evicted | the oldest key is always deleted, and map and list stay in step with at most 100 entries | not executed | Cache.EmptyKeyEvictionOverflows | Cache.SetKeepsConsistent |
| src/lib/parsers/enhanced-monster.ts:48 | `title.replace(locationMatch[0], '')` deletes the first occurrence of the matched text, which can lie before the match at the end | slug `job-stage-paris-75e-paris-75` gives the title "Stagee paris 75" | the matched suffix itself is cut, giving the title "Stage paris 75e" and the location "paris 75" | not executed | EnhancedMonster.SplitLocationAsWrittenGarbles | EnhancedMonster.SplitLocationKeepsTitle |
