/** The URL-only Monster extractor (src/lib/parsers/enhanced-monster.ts):
    Monster pages refuse scraping, so the title, location, job id and
    language are read from the URL itself. URL parsing and
    `decodeURIComponent` are partial functions passed in; either one
    failing selects the fallback record. */
module EnhancedMonster {
  import opened Wrappers
  import opened Strings
  import opened JobTypes
  import opened Urls

  const DefaultTitle: string := "Monster Job Listing"
  const DefaultLocation: string := "Unknown Location"
  const MonsterCompany: string := "Company on Monster"
  const UnknownJobId: string := "Unknown"

  type Decoder = string -> Option<string>

  // ---------------------------------------------------------------------
  // leftmost regular-expression matches

  /** A matcher reports, for a position of a text, the length of the match
      starting there, if any. */
  type Matcher = (string, nat) -> Option<nat>

  /** Every match a matcher reports lies inside the text. */
  ghost predicate InBounds(t: string, m: Matcher) {
    forall j: nat :: m(t, j).Some? ==> j + m(t, j).value <= |t|
  }

  /** The leftmost position from `i` on where `m` matches, with the length
      of that match: what a non-global `match` or `replace` uses. */
  function Leftmost(t: string, i: nat, m: Matcher): (r: Option<(nat, nat)>)
    requires i <= |t|
    ensures r.Some? ==> i <= r.value.0 <= |t| && m(t, r.value.0) == Some(r.value.1)
    ensures r.Some? ==> forall j :: i <= j < r.value.0 ==> m(t, j).None?
    ensures r.None? ==> forall j :: i <= j <= |t| ==> m(t, j).None?
    decreases |t| - i
  {
    if m(t, i).Some? then Some((i, m(t, i).value))
    else if i == |t| then None
    else Leftmost(t, i + 1, m)
  }

  /** `t.replace(re, '')`: the leftmost match deleted, the text unchanged
      when there is none. */
  function RemoveFirstMatch(t: string, m: Matcher): (r: string)
    requires InBounds(t, m)
    ensures (forall j :: 0 <= j <= |t| ==> m(t, j).None?) ==> r == t
    ensures forall i, n :: Leftmost(t, 0, m) == Some((i, n)) ==> r == t[..i] + t[i + n..]
  {
    match Leftmost(t, 0, m)
    case None => t
    case Some((i, n)) => t[..i] + t[i + n..]
  }

  /** `t` holds the lower-case word `w` at position `i`, ignoring case. */
  predicate StartsWithCI(t: string, i: nat, w: string) {
    i + |w| <= |t| && Lower(t[i..i + |w|]) == w
  }

  /** 1 when `t` has `c` at position `k`: a greedy `c?`. */
  function Optional(t: string, k: nat, c: char): nat {
    if k < |t| && LowerChar(t[k]) == c then 1 else 0
  }

  /** `/offres-d[']?emploi\/?/i` at position `i`. */
  function OffresMatch(t: string, i: nat): (r: Option<nat>)
    ensures r.Some? ==> i + r.value <= |t|
  {
    if StartsWithCI(t, i, "offres-d'emploi") then Some(15 + Optional(t, i + 15, '/'))
    else if StartsWithCI(t, i, "offres-demploi") then Some(14 + Optional(t, i + 14, '/'))
    else None
  }

  /** `/jobs?\/?/i` at position `i`. */
  function JobWordMatch(t: string, i: nat): (r: Option<nat>)
    ensures r.Some? ==> i + r.value <= |t|
  {
    if StartsWithCI(t, i, "job") then
      var s := Optional(t, i + 3, 's');
      Some(3 + s + Optional(t, i + 3 + s, '/'))
    else None
  }

  // ---------------------------------------------------------------------
  // slug to title

  /** The dashes at the front of a string dropped. */
  function SkipDashes(s: string): (r: string)
    ensures |r| <= |s| && r == s[|s| - |r|..]
    ensures r == [] || r[0] != '-'
  {
    if s != [] && s[0] == '-' then SkipDashes(s[1..]) else s
  }

  /** `.replace(/-+/g, ' ')`: every run of dashes becomes one space. */
  function CollapseDashes(s: string): (r: string)
    ensures '-' !in r
    ensures |r| <= |s|
    decreases |s|
  {
    if s == [] then []
    else if s[0] == '-' then [' '] + CollapseDashes(SkipDashes(s))
    else [s[0]] + CollapseDashes(s[1..])
  }

  /** A text without dashes is left as it is. */
  lemma {:induction false} CollapseNoDashes(s: string)
    requires '-' !in s
    ensures CollapseDashes(s) == s
  {
    if s != [] {
      assert '-' !in s[1..];
      CollapseNoDashes(s[1..]);
    }
  }

  /** A run of any length of dashes, followed by a non-dash, becomes a single space. */
  lemma CollapseRun(dashes: string, rest: string)
    requires dashes != [] && forall k :: 0 <= k < |dashes| ==> dashes[k] == '-'
    requires rest == [] || rest[0] != '-'
    ensures CollapseDashes(dashes + rest) == " " + CollapseDashes(rest)
  {
    SkipRun(dashes, rest);
    assert (dashes + rest)[0] == '-';
  }

  lemma {:induction false} SkipRun(dashes: string, rest: string)
    requires forall k :: 0 <= k < |dashes| ==> dashes[k] == '-'
    requires rest == [] || rest[0] != '-'
    ensures SkipDashes(dashes + rest) == rest
    decreases |dashes|
  {
    if dashes == [] {
      assert dashes + rest == rest;
      SkipNoDash(rest);
    } else {
      var fewer := dashes[1..];
      assert dashes + rest == "-" + (fewer + rest);
      SkipRun(fewer, rest);
      SkipDashesCons(fewer + rest);
    }
  }

  lemma SkipNoDash(t: string)
    requires t == [] || t[0] != '-'
    ensures SkipDashes(t) == t
  {
  }

  lemma SkipDashesCons(t: string)
    ensures SkipDashes("-" + t) == SkipDashes(t)
  {
    assert ("-" + t)[1..] == t;
  }

  /** The decoded path segment reduced to title words: the first
      `offres-d'emploi` (any case, optional apostrophe and slash) and then
      the first `job`/`jobs` (optional slash) removed, dashes turned into
      spaces, and the ends trimmed. */
  function CleanSlug(decoded: string): (r: string)
    ensures '-' !in r && IsTrimmed(r)
  {
    var a := RemoveFirstMatch(decoded, OffresMatch);
    var b := RemoveFirstMatch(a, JobWordMatch);
    var c := CollapseDashes(b);
    TrimChars(c);
    Trim(c)
  }

  /** Skipping leading dashes loses nothing but dashes. */
  lemma {:induction false} RemoveSkipDashes(s: string)
    ensures Remove(SkipDashes(s), {'-'}) == Remove(s, {'-'})
  {
    if s != [] && s[0] == '-' {
      RemoveSkipDashes(s[1..]);
    }
  }

  /** Collapsing dashes loses nothing but dashes and whitespace. */
  lemma {:induction false} CollapseDashesContent(s: string)
    ensures NoSpace(CollapseDashes(s)) == NoSpace(Remove(s, {'-'}))
    decreases |s|
  {
    if s != [] {
      if s[0] == '-' {
        var rest := SkipDashes(s);
        CollapseDashesContent(rest);
        RemoveSkipDashes(s);
        NoSpaceAppend([' '], CollapseDashes(rest));
        assert NoSpace([' ']) == [];
      } else {
        CollapseDashesContent(s[1..]);
        NoSpaceAppend([s[0]], CollapseDashes(s[1..]));
        NoSpaceAppend([s[0]], Remove(s[1..], {'-'}));
      }
    }
  }

  /** What the cleaning keeps: the segment without the two removed
      matches and without its dashes, up to whitespace. Only the two
      matches, dashes and whitespace are lost. */
  lemma CleanSlugContent(decoded: string)
    ensures var b := RemoveFirstMatch(RemoveFirstMatch(decoded, OffresMatch), JobWordMatch);
            NoSpace(CleanSlug(decoded)) == NoSpace(Remove(b, {'-'}))
  {
    var a := RemoveFirstMatch(decoded, OffresMatch);
    var b := RemoveFirstMatch(a, JobWordMatch);
    var c := CollapseDashes(b);
    assert CleanSlug(decoded) == Trim(c);
    NoSpaceTrim(c);
    CollapseDashesContent(b);
  }

  /** `s.charAt(0).toUpperCase() + s.slice(1)`. */
  function Capitalize(s: string): (r: string)
    ensures |r| == |s|
    ensures s != [] ==> r[0] == UpperChar(s[0]) && r[1..] == s[1..]
  {
    if s == [] then [] else [UpperChar(s[0])] + s[1..]
  }

  // ---------------------------------------------------------------------
  // title to title and location: /\s+([a-zA-Z\s]+\d{2,5})$/

  predicate IsLetterOrSpace(c: char) { IsAsciiLetter(c) || IsSpace(c) }

  /** The location pattern matches the suffix of `s` from `i`, with `\s+`
      covering `[i, w)`, `[a-zA-Z\s]+` covering `[w, d)` and `\d{2,5}`
      covering the rest. */
  predicate LocationSplit(s: string, i: int, w: int, d: int) {
    && 0 <= i < w < d <= |s| && 2 <= |s| - d <= 5
    && (forall k :: i <= k < w ==> IsSpace(s[k]))
    && (forall k :: w <= k < d ==> IsLetterOrSpace(s[k]))
    && (forall k :: d <= k < |s| ==> IsDigit(s[k]))
  }

  ghost predicate LocationMatchesAt(s: string, i: int) {
    exists w, d :: LocationSplit(s, i, w, d)
  }

  /** Where the run of digits that ends at `e` starts; the trailing
      digits of `s` start at `DigitRunStart(s, |s|)`. */
  function DigitRunStart(s: string, e: nat): (j: nat)
    requires e <= |s|
    ensures j <= e
    ensures forall k :: j <= k < e ==> IsDigit(s[k])
    ensures j > 0 ==> !IsDigit(s[j - 1])
  {
    if e > 0 && IsDigit(s[e - 1]) then DigitRunStart(s, e - 1) else e
  }

  /** Where the run of letters and whitespace that ends at `e` starts. */
  function LetterSpaceRunStart(s: string, e: nat): (j: nat)
    requires e <= |s|
    ensures j <= e
    ensures forall k :: j <= k < e ==> IsLetterOrSpace(s[k])
    ensures j > 0 ==> !IsLetterOrSpace(s[j - 1])
  {
    if e > 0 && IsLetterOrSpace(s[e - 1]) then LetterSpaceRunStart(s, e - 1) else e
  }

  /** The first whitespace position in `[from, to)`, -1 if none. */
  function FirstSpace(s: string, from: nat, to: nat): (r: int)
    requires to <= |s|
    ensures r == -1 || (from <= r < to && IsSpace(s[r]))
    ensures r == -1 ==> forall k :: from <= k < to ==> !IsSpace(s[k])
    ensures r != -1 ==> forall k :: from <= k < r ==> !IsSpace(s[k])
    decreases (to as int) - from
  {
    if from >= to then -1
    else if IsSpace(s[from]) then from
    else FirstSpace(s, from + 1, to)
  }

  /** The digit run that ends at `e` starts at `j` when it is bounded by
      a non-digit (or the start). */
  lemma DigitRunStartExact(s: string, e: nat, j: nat)
    requires j <= e <= |s| && forall k :: j <= k < e ==> IsDigit(s[k])
    requires j == 0 || !IsDigit(s[j - 1])
    ensures DigitRunStart(s, e) == j
  {
  }

  /** Any match of the location pattern ends its letters at the trailing
      digit run, lies inside the letter-and-space run before it, starts
      with whitespace and leaves room for one more letter or space. */
  lemma LocationMatchShape(s: string, i: int, w: int, d: int)
    requires LocationSplit(s, i, w, d)
    ensures d == DigitRunStart(s, |s|)
    ensures LetterSpaceRunStart(s, d) <= i < d - 1 && IsSpace(s[i])
  {
    assert IsLetterOrSpace(s[d - 1]);
    DigitRunStartExact(s, |s|, d);
    var r := LetterSpaceRunStart(s, d);
    assert forall k :: i <= k < d ==> IsLetterOrSpace(s[k]);
    assert r == 0 || !IsLetterOrSpace(s[r - 1]);
    assert r <= i;
  }

  /** Where a match can start: at whitespace in the letter-and-space run
      before a trailing run of two to five digits, one short of its end. */
  lemma LocationCandidates(s: string, j: int)
    requires LocationMatchesAt(s, j)
    ensures var e := DigitRunStart(s, |s|); 2 <= |s| - e <= 5 && LetterSpaceRunStart(s, e) <= j < e - 1 && IsSpace(s[j])
  {
    var w, d :| LocationSplit(s, j, w, d);
    LocationMatchShape(s, j, w, d);
  }

  /** A whitespace character followed by letters and spaces up to a final
      run of two to five digits starts a match. */
  lemma LocationSplitAt(s: string, k: nat, e: nat)
    requires k + 1 < e <= |s| && 2 <= |s| - e <= 5 && IsSpace(s[k])
    requires forall j :: k + 1 <= j < e ==> IsLetterOrSpace(s[j])
    requires forall j :: e <= j < |s| ==> IsDigit(s[j])
    ensures LocationSplit(s, k, k + 1, e)
  {
  }

  /** Conversely every such position is the start of a match. */
  lemma LocationMatchAtSpace(s: string, k: int)
    requires var e := DigitRunStart(s, |s|); 2 <= |s| - e <= 5 && LetterSpaceRunStart(s, e) <= k < e - 1 && IsSpace(s[k])
    ensures LocationMatchesAt(s, k)
  {
    LocationSplitAt(s, k, DigitRunStart(s, |s|));
  }

  /** Where the location pattern's match starts in `s`: the first
      whitespace of the letter-and-space run before a final run of two to
      five digits, one short of that run's end. */
  function LocationStart(s: string): (r: Option<nat>)
    ensures r.Some? ==> r.value < |s| && IsSpace(s[r.value])
  {
    var e := DigitRunStart(s, |s|);
    var k := if 2 <= |s| - e <= 5 then FirstSpace(s, LetterSpaceRunStart(s, e), if e >= 1 then e - 1 else 0) else -1;
    if k == -1 then None else Some(k)
  }

  /** `LocationStart` finds the leftmost match of the location pattern, and
      none when there is no match. */
  lemma LocationStartIsLeftmost(s: string)
    ensures LocationStart(s).Some? ==> LocationMatchesAt(s, LocationStart(s).value)
    ensures LocationStart(s).Some? ==> forall j :: 0 <= j < LocationStart(s).value ==> !LocationMatchesAt(s, j)
    ensures LocationStart(s).None? ==> forall j :: !LocationMatchesAt(s, j)
  {
    var e := DigitRunStart(s, |s|);
    var k := if 2 <= |s| - e <= 5 then FirstSpace(s, LetterSpaceRunStart(s, e), if e >= 1 then e - 1 else 0) else -1;
    forall j | LocationMatchesAt(s, j) ensures k != -1 && k <= j {
      LocationCandidates(s, j);
    }
    if k != -1 {
      LocationMatchAtSpace(s, k);
    }
  }

  /** The title with the location split off, and the location: the text
      before the match, trimmed, and the match, trimmed; the title as it
      was and the default location when there is no match. */
  function SplitLocation(title: string): (string, string) {
    match LocationStart(title)
    case None => (title, DefaultLocation)
    case Some(i) => (Trim(title[..i]), Trim(title[i..]))
  }

  /** As written: the title loses the first occurrence of the matched text,
      which need not be the match at the end. */
  function SplitLocationAsWritten(title: string): (string, string) {
    match LocationStart(title)
    case None => (title, DefaultLocation)
    case Some(i) => CutAsWritten(title, i)
  }

  /** The source's cut at a match starting at `i`: the matched text is
      deleted where it first occurs. */
  function CutAsWritten(title: string, i: nat): (string, string)
    requires i <= |title|
  {
    (Trim(ReplaceFirst(title, title[i..], "")), Trim(title[i..]))
  }

  /** Where the location split off starts in the title. */
  lemma LocationPosition(title: string, i: nat, w: nat, d: nat) returns (p: nat)
    requires LocationSplit(title, i, w, d)
    ensures i < p <= d && Trim(title[i..]) == title[p..]
    ensures forall q :: i <= q < p ==> IsSpace(title[q])
  {
    assert IsDigit(title[|title| - 1]) && IsDigit(title[d]);
    p := TrimSuffix(title, i, d);
    assert title[p..] != [] && title[p..][0] == title[p];
  }

  /** A location that is split off is the end of the title from `p` on,
      after the whitespace at the match start; it holds only ASCII
      letters, whitespace and digits, and it takes in the whole run of two
      to five digits that ends the title. */
  lemma SplitLocationShape(title: string, i: nat) returns (p: nat)
    requires LocationStart(title) == Some(i)
    ensures i < p <= DigitRunStart(title, |title|) && SplitLocation(title).1 == title[p..]
    ensures forall q :: i <= q < p ==> IsSpace(title[q])
    ensures forall q :: p <= q < |title| ==> IsLetterOrSpace(title[q]) || IsDigit(title[q])
    ensures 2 <= |title| - DigitRunStart(title, |title|) <= 5
  {
    var e := DigitRunStart(title, |title|);
    LocationSplitAt(title, i, e);
    p := LocationPosition(title, i, i + 1, e);
  }

  /** The letter-and-space run that ends at `e` starts at `j` when it is
      bounded by a non-letter, non-space character (or the start). */
  lemma RunStartExact(s: string, e: nat, j: nat)
    requires j <= e <= |s| && forall k :: j <= k < e ==> IsLetterOrSpace(s[k])
    requires j == 0 || !IsLetterOrSpace(s[j - 1])
    ensures LetterSpaceRunStart(s, e) == j
  {
  }

  /** A title whose location text also occurs earlier in it, what the
      source leaves of it and what it should leave, and its location. */
  const GarbledTitle: string := "Stage paris 75e paris 75"
  const GarbledAsWritten: string := "Stagee paris 75"
  const GarbledIntended: string := "Stage paris 75e"
  const GarbledLocationText: string := "paris 75"

  /** The first whitespace in `[from, to)` is the one with none before it. */
  lemma FirstSpaceExact(s: string, from: nat, to: nat, k: nat)
    requires from <= k < to <= |s| && IsSpace(s[k])
    requires forall q :: from <= q < k ==> !IsSpace(s[q])
    ensures FirstSpace(s, from, to) == k
  {
  }

  /** `LocationStart` from the shape of the title around the match. */
  lemma LocationStartExact(s: string, j: nat, k: nat, e: nat)
    requires j <= k && k + 1 < e <= |s| && 2 <= |s| - e <= 5
    requires !IsDigit(s[e - 1]) && forall q :: e <= q < |s| ==> IsDigit(s[q])
    requires j == 0 || !IsLetterOrSpace(s[j - 1])
    requires forall q :: j <= q < e ==> IsLetterOrSpace(s[q])
    requires IsSpace(s[k]) && forall q :: j <= q < k ==> !IsSpace(s[q])
    ensures LocationStart(s) == Some(k)
  {
    DigitRunStartExact(s, |s|, e);
    RunStartExact(s, e, j);
    FirstSpaceExact(s, j, e - 1, k);
  }

  lemma GarbledTitleStart()
    ensures LocationStart(GarbledTitle) == Some(15)
  {
    var s := GarbledTitle;
    assert !IsDigit(s[21]) && IsDigit(s[22]) && IsDigit(s[23]);
    assert !IsLetterOrSpace(s[13]);
    assert forall q :: 14 <= q < 22 ==> IsLetterOrSpace(s[q]);
    assert !IsSpace(s[14]) && IsSpace(s[15]);
    LocationStartExact(s, 14, 15, 22);
  }

  /** " paris 75" first occurs at position 5, inside "paris 75e". */
  lemma GarbledFirstOccurrence()
    ensures OccursAt(GarbledTitle, GarbledTitle[15..], 5)
    ensures forall k :: 0 <= k < 5 ==> !OccursAt(GarbledTitle, GarbledTitle[15..], k)
  {
    var s := GarbledTitle;
    var pat := s[15..];
    assert pat == " paris 75";
    assert s[5..14] == pat;
    forall k | 0 <= k < 5 ensures !OccursAt(s, pat, k) {
      assert s[k] != ' ';
      assert s[k..k + |pat|][0] == s[k];
    }
  }

  lemma GarbledLocation()
    ensures Trim(GarbledTitle[15..]) == GarbledLocationText
  {
    var loc := GarbledLocationText;
    assert GarbledTitle[15..] == [' '] + loc;
    assert IsTrimmed(loc) by { assert loc[0] == 'p' && loc[|loc| - 1] == '5'; }
    TrimLeadingSpace(' ', loc);
  }

  /** As written, the title loses the first occurrence `j` of the matched
      text, which comes no later than the match `i` itself. */
  lemma AsWrittenCutsFirstOccurrence(title: string, i: nat, j: nat)
    requires i <= |title|
    requires OccursAt(title, title[i..], j)
    requires forall k :: 0 <= k < j ==> !OccursAt(title, title[i..], k)
    ensures j <= i
    ensures CutAsWritten(title, i) == (Trim(title[..j] + title[j + |title| - i..]), Trim(title[i..]))
  {
    var pat := title[i..];
    assert OccursAt(title, pat, i);
    DeleteFirstAt(title, pat, j);
    assert title[..j] + title[j + |pat|..] == title[..j] + title[j + |title| - i..];
  }

  /** The input that shows the difference: the text " paris 75" first
      occurs inside "paris 75e", so that is what gets deleted. */
  lemma SplitLocationAsWrittenGarbles()
    ensures SplitLocationAsWritten(GarbledTitle) == (GarbledAsWritten, GarbledLocationText)
  {
    GarbledCut();
    GarbledAsWrittenTrimmed();
    GarbledLocation();
  }

  /** The source deletes positions 5 to 13 of the garbled title. */
  lemma GarbledCut()
    ensures SplitLocationAsWritten(GarbledTitle)
      == (Trim(GarbledAsWritten), Trim(GarbledTitle[15..]))
  {
    GarbledTitleStart();
    assert SplitLocationAsWritten(GarbledTitle) == CutAsWritten(GarbledTitle, 15);
    GarbledFirstOccurrence();
    AsWrittenCutsFirstOccurrence(GarbledTitle, 15, 5);
    assert |GarbledTitle| == 24;
    GarbledRemoval();
  }

  lemma GarbledRemoval()
    ensures GarbledTitle[..5] + GarbledTitle[14..] == GarbledAsWritten
  {
  }

  lemma GarbledAsWrittenTrimmed()
    ensures Trim(GarbledAsWritten) == GarbledAsWritten
  {
    var w := GarbledAsWritten;
    assert IsTrimmed(w) by { assert w[0] == 'S' && w[|w| - 1] == '5'; }
    TrimTrimmed(w);
  }

  /** The corrected split keeps the earlier "75e" in the title. */
  lemma SplitLocationKeepsTitle()
    ensures SplitLocation(GarbledTitle) == (GarbledIntended, GarbledLocationText)
  {
    GarbledTitleStart();
    GarbledIntendedTrimmed();
    GarbledLocation();
  }

  lemma GarbledIntendedTrimmed()
    ensures Trim(GarbledTitle[..15]) == GarbledIntended
  {
    var t := GarbledIntended;
    assert GarbledTitle[..15] == t;
    assert IsTrimmed(t) by { assert t[0] == 'S' && t[|t| - 1] == 'e'; }
    TrimTrimmed(t);
  }

  // ---------------------------------------------------------------------
  // job id: /([a-f0-9]{8}(-[a-f0-9]{4}){3}-[a-f0-9]{12})/

  predicate IsLowerHex(c: char) { '0' <= c <= '9' || 'a' <= c <= 'f' }

  /** A dash sits at offsets 8, 13, 18 and 23 of a UUID. */
  predicate UuidDash(k: int) { k == 8 || k == 13 || k == 18 || k == 23 }

  /** 36 characters of lower-case hex in groups of 8-4-4-4-12 at position `i`. */
  predicate UuidAt(s: string, i: nat) {
    i + 36 <= |s| && forall k :: 0 <= k < 36 ==> if UuidDash(k) then s[i + k] == '-' else IsLowerHex(s[i + k])
  }

  function UuidMatch(s: string, i: nat): (r: Option<nat>)
    ensures r.Some? ==> i + r.value <= |s|
  {
    if UuidAt(s, i) then Some(36) else None
  }

  /** The first UUID anywhere in the raw URL, or "Unknown". */
  function JobIdOf(url: string): (id: string)
    ensures id == UnknownJobId || (|id| == 36 && exists i: nat :: UuidAt(url, i) && id == url[i..i + 36])
    ensures id == UnknownJobId <==> forall i: nat :: !UuidAt(url, i)
  {
    var r := Leftmost(url, 0, UuidMatch);
    if r.None? then
      assert forall i: nat :: !UuidAt(url, i) by {
        forall i: nat ensures !UuidAt(url, i) {
          if i <= |url| {
            assert UuidMatch(url, i).None?;
          }
        }
      }
      UnknownJobId
    else
      var i := r.value.0;
      assert UuidAt(url, i) by {
        assert UuidMatch(url, i).Some?;
      }
      url[i..i + 36]
  }

  /** The job id is the leftmost UUID: none starts earlier. */
  lemma JobIdIsFirst(url: string, i: nat)
    requires UuidAt(url, i) && forall j: nat :: j < i ==> !UuidAt(url, j)
    ensures JobIdOf(url) == url[i..i + 36]
  {
    var r := Leftmost(url, 0, UuidMatch);
    assert UuidMatch(url, i).Some?;
    assert r.Some?;
    var k := r.value.0;
    assert UuidMatch(url, k).Some?;
    assert UuidAt(url, k);
    assert k == i;
  }

  // ---------------------------------------------------------------------
  // the extractor

  /** `pathParts.find(...)`: the first segment mentioning a job. */
  predicate MentionsJob(part: string) {
    Contains(part, "emploi") || Contains(part, "job") || Contains(part, "offres")
  }

  function FindJobSegment(parts: seq<string>): (r: Option<string>)
    ensures r.Some? ==> r.value in parts && MentionsJob(r.value)
    ensures r.Some? ==> exists k :: 0 <= k < |parts| && parts[k] == r.value && forall j :: 0 <= j < k ==> !MentionsJob(parts[j])
    ensures r.None? <==> forall p :: p in parts ==> !MentionsJob(p)
  {
    if parts == [] then None
    else if MentionsJob(parts[0]) then Some(parts[0])
    else
      var r := FindJobSegment(parts[1..]);
      assert forall p :: p in parts <==> p == parts[0] || p in parts[1..];
      assert r.Some? ==> exists k :: 0 <= k < |parts| && parts[k] == r.value && forall j :: 0 <= j < k ==> !MentionsJob(parts[j]) by {
        if r.Some? {
          var k :| 0 <= k < |parts[1..]| && parts[1..][k] == r.value && forall j :: 0 <= j < k ==> !MentionsJob(parts[1..][j]);
          assert parts[k + 1] == r.value;
          forall j | 0 <= j < k + 1 ensures !MentionsJob(parts[j]) {
            if j > 0 {
              assert parts[j] == parts[1..][j - 1];
            }
          }
        }
      }
      r
  }

  /** The title and location read from the path: the defaults unless a
      segment mentions a job and cleans to something non-empty. `None`
      when decoding that segment fails. */
  function TitleAndLocation(u: Url, decode: Decoder): Option<(string, string)> {
    match FindJobSegment(PathParts(u))
    case None => Some((DefaultTitle, DefaultLocation))
    case Some(part) =>
      match decode(part)
      case None => None
      case Some(decoded) =>
        var cleaned := CleanSlug(decoded);
        if cleaned == [] then Some((DefaultTitle, DefaultLocation))
        else Some(SplitLocation(Capitalize(cleaned)))
  }

  const FoundPrefix: string :=
    "This job was found on Monster but couldn't be accessed directly due to scraping protections. The job ID is: "
  const FoundSuffix: string :=
    ". Please copy the job details manually from the site and use the 'Extract by Text' option instead."

  function FoundDescription(jobId: string): string {
    FoundPrefix + jobId + FoundSuffix
  }

  const FallbackDescription: string :=
    "Error extracting information from Monster URL. Please copy the job details manually and use the 'Extract by Text' option."

  function LanguageOfHost(hostname: string): (lang: string)
    ensures lang == "fr" <==> EndsWith(hostname, ".fr")
  {
    assert "en"[0] != "fr"[0];
    if EndsWith(hostname, ".fr") then "fr" else "en"
  }

  /** The record returned when parsing or decoding fails. */
  function FallbackRecord(url: string): (r: ParserResult)
    ensures r.title == Some(DefaultTitle) && r.location.None? && r.jobId.None?
    ensures r.language == Some("fr") <==> Contains(url, ".fr")
  {
    assert "en"[0] != "fr"[0];
    NoFields.(
      title := Some(DefaultTitle),
      company := Some(MonsterCompany),
      description := Some(FallbackDescription),
      url := Some(url),
      language := Some(if Contains(url, ".fr") then "fr" else "en"),
      needsEnrichment := Some(true))
  }

  /** The record returned when the title and location were read. */
  function FoundRecord(url: string, hostname: string, title: string, location: string, jobId: string): (r: ParserResult)
    ensures r.title == Some(title) && r.location == Some(location) && r.jobId == Some(jobId)
    ensures r.language == Some(LanguageOfHost(hostname))
  {
    NoFields.(
      title := Some(title),
      company := Some(MonsterCompany),
      location := Some(location),
      description := Some(FoundDescription(jobId)),
      url := Some(url),
      language := Some(LanguageOfHost(hostname)),
      jobId := Some(jobId),
      needsEnrichment := Some(true))
  }

  /** `extractInfoFromMonsterUrl(url)`. */
  function ExtractInfoFromMonsterUrl(url: string, parse: UrlParser, decode: Decoder): (r: ParserResult)
    ensures r.company == Some(MonsterCompany) && r.url == Some(url) && r.needsEnrichment == Some(true)
    ensures r.title.Some? && r.description.Some? && r.language.Some?
    ensures r.location.None? <==> r.jobId.None?
  {
    match parse(url)
    case None => FallbackRecord(url)
    case Some(u) =>
      match TitleAndLocation(u, decode)
      case None => FallbackRecord(url)
      case Some((title, location)) => FoundRecord(url, u.hostname, title, location, JobIdOf(url))
  }

  /** The language: from the hostname's `.fr` ending when the URL parses
      and decodes, else from any `.fr` in the raw URL. */
  lemma MonsterLanguage(url: string, parse: UrlParser, decode: Decoder)
    ensures var r := ExtractInfoFromMonsterUrl(url, parse, decode);
      (parse(url).Some? && TitleAndLocation(parse(url).value, decode).Some? ==>
        (r.language == Some("fr") <==> EndsWith(parse(url).value.hostname, ".fr")))
      && (parse(url).None? ==> (r.language == Some("fr") <==> Contains(url, ".fr")))
  {
  }

  /** A URL that does not parse, or whose job segment does not decode,
      gives the fallback record: no location and no job id. */
  lemma MonsterFallback(url: string, parse: UrlParser, decode: Decoder)
    requires parse(url).None? || TitleAndLocation(parse(url).value, decode).None?
    ensures var r := ExtractInfoFromMonsterUrl(url, parse, decode);
      r.title == Some(DefaultTitle) && r.location.None? && r.jobId.None? && r.description == Some(FallbackDescription)
  {
  }

  /** Without a job segment, or with one that cleans to nothing, the title
      and location keep their defaults. */
  lemma MonsterDefaults(url: string, parse: UrlParser, decode: Decoder, u: Url)
    requires parse(url) == Some(u)
    requires FindJobSegment(PathParts(u)).None?
      || (decode(FindJobSegment(PathParts(u)).value).Some? && CleanSlug(decode(FindJobSegment(PathParts(u)).value).value) == [])
    ensures var r := ExtractInfoFromMonsterUrl(url, parse, decode);
      r.title == Some(DefaultTitle) && r.location == Some(DefaultLocation)
  {
    assert TitleAndLocation(u, decode) == Some((DefaultTitle, DefaultLocation));
  }

  /** Otherwise the title is the cleaned segment with its first character
      upper-cased, less the location when one is split off. */
  lemma MonsterTitle(url: string, parse: UrlParser, decode: Decoder, u: Url, part: string, decoded: string)
    requires parse(url) == Some(u) && FindJobSegment(PathParts(u)) == Some(part) && decode(part) == Some(decoded)
    requires CleanSlug(decoded) != []
    ensures var r := ExtractInfoFromMonsterUrl(url, parse, decode);
      var t := Capitalize(CleanSlug(decoded));
      && '-' !in t && t[0] == UpperChar(CleanSlug(decoded)[0])
      && r.title == Some(SplitLocation(t).0) && r.location == Some(SplitLocation(t).1)
  {
    var c := CleanSlug(decoded);
    var t := Capitalize(c);
    var split := SplitLocation(t);
    assert TitleAndLocation(u, decode) == Some(split);
    CapitalizeNoDash(c);
  }

  lemma CapitalizeNoDash(c: string)
    requires '-' !in c
    ensures '-' !in Capitalize(c)
  {
    var t := Capitalize(c);
    forall k | 0 <= k < |t| ensures t[k] != '-' {
      if k > 0 { assert t[k] == t[1..][k - 1] == c[1..][k - 1] == c[k]; }
      else { assert c[0] in c; }
    }
  }

  /** On success the job id is "Unknown" or the first UUID of the URL, and
      the description quotes it. */
  lemma MonsterJobId(url: string, parse: UrlParser, decode: Decoder)
    requires parse(url).Some? && TitleAndLocation(parse(url).value, decode).Some?
    ensures var r := ExtractInfoFromMonsterUrl(url, parse, decode);
      && r.jobId == Some(JobIdOf(url))
      && Contains(r.description.value, r.jobId.value)
  {
    ContainsInfix(FoundPrefix, JobIdOf(url), FoundSuffix);
  }

  /** The path shape of the example in the source's own comment,
      `/offres-demploi/<slug>`: the first segment mentioning a job is
      `offres-demploi` itself, which cleans to nothing. */
  lemma OffresSegmentCleansToNothing()
    ensures CleanSlug("offres-demploi") == []
  {
    var t := "offres-demploi";
    assert Lower(t[0..14]) == t;
    assert StartsWithCI(t, 0, "offres-demploi");
    assert !StartsWithCI(t, 0, "offres-d'emploi") by {
      assert Lower(t[0..14])[8] != '\'';
    }
    assert OffresMatch(t, 0) == Some(14);
    assert RemoveFirstMatch(t, OffresMatch) == [];
    assert RemoveFirstMatch([], JobWordMatch) == [];
  }
}
