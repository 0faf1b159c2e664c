/** URL helpers of the fetch layer (src/lib/proxy-utils.ts): the list of
    sites known to block scraping, the URL sanitiser that drops tracking
    parameters and canonicalises LinkedIn job URLs, and the per-site request
    headers. The random choice of user agent and referrer is a parameter. */
module ProxyUtils {
  import opened Wrappers
  import opened Strings
  import opened Urls

  // ---------------------------------------------------------------------
  // blocked sites

  const BlockedSites: seq<string> := ["monster.fr", "monster.com", "glassdoor.com", "glassdoor.fr"]

  /** `isBlockedSite(url)`: some listed site occurs somewhere in the whole
      URL string, host or not. */
  function IsBlockedSite(url: string): (r: bool)
    ensures r <==> exists k, i :: 0 <= k < |BlockedSites| && OccursAt(url, BlockedSites[k], i)
  {
    var hit := exists k :: 0 <= k < |BlockedSites| && Contains(url, BlockedSites[k]);
    assert hit <==> exists k, i :: 0 <= k < |BlockedSites| && OccursAt(url, BlockedSites[k], i) by {
      forall k | 0 <= k < |BlockedSites| {
        ContainsIffOccurs(url, BlockedSites[k]);
      }
    }
    hit
  }

  /** A listed site anywhere in the URL, for instance in a query value,
      makes it blocked. */
  lemma BlockedAnywhere(prefix: string, k: nat, suffix: string)
    requires k < |BlockedSites|
    ensures IsBlockedSite(prefix + BlockedSites[k] + suffix)
  {
    ContainsInfix(prefix, BlockedSites[k], suffix);
    ContainsIffOccurs(prefix + BlockedSites[k] + suffix, BlockedSites[k]);
  }

  /** A URL mentioning none of the sites, such as a WTTJ page, is not blocked. */
  lemma NotBlockedWithoutSite(url: string)
    requires forall k :: 0 <= k < |BlockedSites| ==> !Contains(url, BlockedSites[k])
    ensures !IsBlockedSite(url)
  {
    forall k | 0 <= k < |BlockedSites| {
      ContainsIffOccurs(url, BlockedSites[k]);
    }
  }

  // ---------------------------------------------------------------------
  // tracking parameters

  const TrackingParams: seq<string> :=
    ["utm_source", "utm_medium", "utm_campaign", "fbclid", "gclid", "ref", "source", "sid", "jvo", "hidesmr", "promoted"]

  /** `searchParams.delete(name)`: every pair with that name goes. */
  function DeleteParam(q: seq<QueryParam>, name: string): (r: seq<QueryParam>)
    ensures |r| <= |q|
  {
    if q == [] then []
    else (if q[0].name == name then [] else [q[0]]) + DeleteParam(q[1..], name)
  }

  /** The pairs of `q` whose name is not in `drop`, in their order. */
  function KeepParams(q: seq<QueryParam>, drop: seq<string>): (r: seq<QueryParam>)
    ensures forall p :: p in r <==> p in q && p.name !in drop
  {
    if q == [] then []
    else
      assert forall p :: p in q <==> p == q[0] || p in q[1..];
      (if q[0].name in drop then [] else [q[0]]) + KeepParams(q[1..], drop)
  }

  /** The query once every tracking parameter has been deleted. */
  function StripTracking(q: seq<QueryParam>): seq<QueryParam> {
    KeepParams(q, TrackingParams)
  }

  /** Deleting one more name is keeping with that name added to the drop list. */
  lemma {:induction false} DeleteAfterKeep(q: seq<QueryParam>, drop: seq<string>, name: string)
    ensures DeleteParam(KeepParams(q, drop), name) == KeepParams(q, drop + [name])
  {
    if q != [] {
      DeleteAfterKeep(q[1..], drop, name);
      assert q[0].name in drop + [name] <==> q[0].name in drop || q[0].name == name;
      var head := if q[0].name in drop then [] else [q[0]];
      var rest := KeepParams(q[1..], drop);
      DeleteAppend(head, rest, name);
    }
  }

  lemma {:induction false} DeleteAppend(a: seq<QueryParam>, b: seq<QueryParam>, name: string)
    ensures DeleteParam(a + b, name) == DeleteParam(a, name) + DeleteParam(b, name)
  {
    if a == [] {
      assert a + b == b;
    } else {
      assert (a + b)[1..] == a[1..] + b;
      DeleteAppend(a[1..], b, name);
    }
  }

  /** The `forEach` over the tracking names, deleting each in turn from the
      parsed URL's query. */
  method RemoveTrackingParams(u: Url) returns (r: Url)
    ensures r == u.(query := StripTracking(u.query))
  {
    r := u.(query := KeepParams(u.query, []));
    KeepNothing(u.query);
    for i := 0 to |TrackingParams|
      invariant r == u.(query := KeepParams(u.query, TrackingParams[..i]))
    {
      DeleteAfterKeep(u.query, TrackingParams[..i], TrackingParams[i]);
      PrefixSnoc(TrackingParams, i);
      r := r.(query := DeleteParam(r.query, TrackingParams[i]));
    }
    assert TrackingParams[..|TrackingParams|] == TrackingParams;
  }

  lemma PrefixSnoc(names: seq<string>, i: nat)
    requires i < |names|
    ensures names[..i] + [names[i]] == names[..i + 1]
  {
  }

  /** Keeping with an empty drop list keeps everything. */
  lemma {:induction false} KeepNothing(q: seq<QueryParam>)
    ensures KeepParams(q, []) == q
  {
    if q != [] {
      KeepNothing(q[1..]);
    }
  }

  /** After stripping, none of the tracking names remains, and every other
      pair is still there. */
  lemma NoTrackingRemains(q: seq<QueryParam>)
    ensures forall p :: p in StripTracking(q) ==> p.name !in TrackingParams
    ensures forall p :: p in q && p.name !in TrackingParams ==> p in StripTracking(q)
  {
  }

  /** Stripping keeps the other pairs in their relative order: it works pair
      by pair, so it distributes over a split of the query. */
  lemma {:induction false} KeepParamsAppend(a: seq<QueryParam>, b: seq<QueryParam>, drop: seq<string>)
    ensures KeepParams(a + b, drop) == KeepParams(a, drop) + KeepParams(b, drop)
  {
    if a == [] {
      assert a + b == b;
    } else {
      assert (a + b)[1..] == a[1..] + b;
      KeepParamsAppend(a[1..], b, drop);
    }
  }

  /** A query without tracking names is left exactly as it was. */
  lemma {:induction false} KeepParamsUntouched(q: seq<QueryParam>, drop: seq<string>)
    requires forall p :: p in q ==> p.name !in drop
    ensures KeepParams(q, drop) == q
  {
    if q != [] {
      KeepParamsUntouched(q[1..], drop);
    }
  }

  /** Stripping twice is stripping once. */
  lemma StripTrackingIdempotent(q: seq<QueryParam>)
    ensures StripTracking(StripTracking(q)) == StripTracking(q)
  {
    KeepParamsUntouched(StripTracking(q), TrackingParams);
  }

  // ---------------------------------------------------------------------
  // LinkedIn job URLs

  /** `/^\d+$/`: a non-empty run of ASCII digits. */
  predicate IsJobIdSegment(part: string) {
    part != [] && AllDigits(part)
  }

  /** `pathParts.findIndex(part => /^\d+$/.test(part))`. */
  function FirstJobIdSegment(parts: seq<string>): (r: int)
    ensures -1 <= r < |parts|
    ensures r >= 0 ==> IsJobIdSegment(parts[r])
    ensures forall j :: 0 <= j < |parts| && (r == -1 || j < r) ==> !IsJobIdSegment(parts[j])
  {
    if parts == [] then -1
    else if IsJobIdSegment(parts[0]) then 0
    else
      var k := FirstJobIdSegment(parts[1..]);
      if k == -1 then -1 else k + 1
  }

  const LinkedInHost: string := "www.linkedin.com"
  const LinkedInJobPath: string := "/jobs/view/"
  /** `https://www.linkedin.com/jobs/view/`. */
  const LinkedInJobPrefix: string := "https" + "://" + LinkedInHost + LinkedInJobPath

  /** The job id to canonicalise to: present for a `linkedin.com` host whose
      path has both a `jobs` and a `view` segment and an all-digit one. */
  function LinkedInJobId(u: Url): Option<string> {
    var parts := PathParts(u);
    if Contains(u.hostname, "linkedin.com") && "jobs" in parts && "view" in parts then
      var k := FirstJobIdSegment(parts);
      if k == -1 then None else Some(parts[k])
    else None
  }

  /** `sanitizeJobUrl(url)`: the input itself when it does not parse; else the
      canonical LinkedIn job URL when one applies; else the parsed URL,
      stripped of its tracking parameters, serialised again. */
  function SanitizedJobUrl(url: string, parse: UrlParser): string {
    match parse(url)
    case None => url
    case Some(u) =>
      var v := u.(query := StripTracking(u.query));
      match LinkedInJobId(v)
      case Some(id) => LinkedInJobPrefix + id
      case None => Serialize(v)
  }

  method SanitizeJobUrl(url: string, parse: UrlParser) returns (r: string)
    ensures r == SanitizedJobUrl(url, parse)
  {
    var parsed := parse(url);
    if parsed.None? {
      return url;
    }
    var u := RemoveTrackingParams(parsed.value);
    if Contains(u.hostname, "linkedin.com") {
      var parts := PathParts(u);
      if "jobs" in parts && "view" in parts {
        var k := FirstJobIdSegment(parts);
        if k != -1 {
          return LinkedInJobPrefix + parts[k];
        }
      }
    }
    return Serialize(u);
  }

  /** Input that does not parse comes back unchanged. */
  lemma SanitizeUnparsable(url: string, parse: UrlParser)
    requires parse(url) == None
    ensures SanitizedJobUrl(url, parse) == url
  {
  }

  /** A LinkedIn job URL becomes exactly the canonical form built from its
      first all-digit path segment, whatever its query was. */
  lemma SanitizeLinkedIn(url: string, parse: UrlParser, u: Url)
    requires parse(url) == Some(u) && Contains(u.hostname, "linkedin.com")
    requires "jobs" in PathParts(u) && "view" in PathParts(u)
    requires exists j :: 0 <= j < |PathParts(u)| && IsJobIdSegment(PathParts(u)[j])
    ensures var k := FirstJobIdSegment(PathParts(u));
      0 <= k && SanitizedJobUrl(url, parse) == LinkedInJobPrefix + PathParts(u)[k]
  {
  }

  /** Any other URL that parses is reserialised with the tracking
      parameters gone and every other parameter kept, in order. */
  lemma SanitizeOther(url: string, parse: UrlParser, u: Url)
    requires parse(url) == Some(u) && LinkedInJobId(u) == None
    ensures SanitizedJobUrl(url, parse) == Serialize(u.(query := StripTracking(u.query)))
  {
    assert PathParts(u.(query := StripTracking(u.query))) == PathParts(u);
  }

  /** The URL that the canonical LinkedIn string denotes. */
  function CanonicalLinkedInUrl(id: string): Url {
    Url("https", LinkedInHost, LinkedInJobPath + id, [])
  }

  /** The canonical string is the serialisation of that URL. */
  lemma CanonicalSerializes(id: string)
    ensures Serialize(CanonicalLinkedInUrl(id)) == LinkedInJobPrefix + id
  {
    var head := "https" + "://" + LinkedInHost;
    assert head + (LinkedInJobPath + id) == head + LinkedInJobPath + id;
  }

  /** The canonical URL's path splits into "", "jobs", "view" and the id. */
  lemma CanonicalPathParts(id: string)
    requires IsJobIdSegment(id)
    ensures PathParts(CanonicalLinkedInUrl(id)) == ["", "jobs", "view", id]
  {
    assert Avoids(id, {'/'}) by {
      forall k | 0 <= k < |id| ensures id[k] !in {'/'} {
        assert IsDigit(id[k]);
      }
    }
    JobPathSplit(id);
  }

  lemma JobPathSplit(id: string)
    requires Avoids(id, {'/'})
    ensures Split(LinkedInJobPath + id, {'/'}) == ["", "jobs", "view", id]
  {
    var seps := {'/'};
    SplitWord(id, seps);
    var a := "view" + ['/'] + id;
    var b := "jobs" + ['/'] + a;
    var c := "" + ['/'] + b;
    SplitWordThenSep("view", '/', id, seps);
    SplitWordThenSep("jobs", '/', a, seps);
    SplitWordThenSep("", '/', b, seps);
    assert c == LinkedInJobPath + id;
  }

  lemma CanonicalFirstJobId(id: string)
    requires IsJobIdSegment(id)
    ensures FirstJobIdSegment(["", "jobs", "view", id]) == 3
  {
    var cp := ["", "jobs", "view", id];
    assert !IsDigit(cp[1][0]) && !IsDigit(cp[2][0]);
    assert FirstJobIdSegment(cp[3..]) == 0;
    assert cp[2..][1..] == cp[3..];
    assert FirstJobIdSegment(cp[2..]) == 1;
    assert cp[1..][1..] == cp[2..];
    assert FirstJobIdSegment(cp[1..]) == 2;
  }

  lemma CanonicalHostIsLinkedIn()
    ensures Contains(LinkedInHost, "linkedin.com")
  {
    var host := LinkedInHost;
    assert host[4..] == "linkedin.com";
    assert OccursAt(host, "linkedin.com", 4);
  }

  /** The canonical URL names its own job id again. */
  lemma CanonicalJobId(id: string)
    requires IsJobIdSegment(id)
    ensures LinkedInJobId(CanonicalLinkedInUrl(id)) == Some(id)
  {
    CanonicalPathParts(id);
    CanonicalFirstJobId(id);
    CanonicalHostIsLinkedIn();
    var cp := PathParts(CanonicalLinkedInUrl(id));
    assert cp[1] == "jobs" && cp[2] == "view";
  }

  /** Sanitising is idempotent, given that parsing the sanitised string
      gives back the URL it was serialised from. */
  lemma SanitizeIdempotent(url: string, parse: UrlParser, u: Url)
    requires parse(url) == Some(u)
    requires var v := u.(query := StripTracking(u.query));
      parse(SanitizedJobUrl(url, parse)) == Some(if LinkedInJobId(v).Some? then CanonicalLinkedInUrl(LinkedInJobId(v).value) else v)
    ensures SanitizedJobUrl(SanitizedJobUrl(url, parse), parse) == SanitizedJobUrl(url, parse)
  {
    var v := u.(query := StripTracking(u.query));
    match LinkedInJobId(v)
    case Some(id) =>
      var c := CanonicalLinkedInUrl(id);
      CanonicalJobId(id);
      assert c.(query := StripTracking(c.query)) == c;
    case None =>
      StripTrackingIdempotent(u.query);
      assert v.(query := StripTracking(v.query)) == v;
  }

  // ---------------------------------------------------------------------
  // request headers

  const AcceptLanguageDefault: string := "en-US,en;q=0.9"
  const AcceptLanguageWithFrench: string := "en-US,en;q=0.9,fr;q=0.8"

  const AcceptDefault: string :=
    "text/html,application/xhtml+xml,application/xml;q=0.9,image/webp,image/apng,*/*;q=0.8"
  const SecChUa: string := "\"Google Chrome\";v=\"105\", \"Not)A;Brand\";v=\"8\", \"Chromium\";v=\"105\""

  /** The headers sent to every site; `userAgent` and `referrer` are the
      randomly chosen entries of the rotation lists. */
  function CommonHeaders(userAgent: string, referrer: string): map<string, string> {
    map[
      "User-Agent" := userAgent,
      "Accept" := AcceptDefault,
      "Accept-Encoding" := "gzip, deflate, br",
      "Accept-Language" := AcceptLanguageDefault,
      "Cache-Control" := "no-cache",
      "Connection" := "keep-alive",
      "Referer" := referrer,
      "Sec-Fetch-Dest" := "document",
      "Sec-Fetch-Mode" := "navigate",
      "Sec-Fetch-Site" := "cross-site",
      "Sec-Fetch-User" := "?1",
      "Upgrade-Insecure-Requests" := "1",
      "Pragma" := "no-cache",
      "DNT" := "1"
    ]
  }

  const LinkedInHeaders: map<string, string> := map[
    "Accept-Language" := AcceptLanguageWithFrench,
    "sec-ch-ua" := SecChUa,
    "sec-ch-ua-mobile" := "?0",
    "sec-ch-ua-platform" := "\"Windows\""
  ]

  const IndeedHeaders: map<string, string> := map[
    "Accept-Language" := AcceptLanguageWithFrench,
    "sec-ch-ua-mobile" := "?0"
  ]

  const GlassdoorHeaders: map<string, string> := map[
    "Accept-Language" := AcceptLanguageDefault,
    "X-Requested-With" := "XMLHttpRequest"
  ]

  /** The site-specific headers: the first of linkedin, indeed, glassdoor
      that the hostname contains decides. */
  function SiteHeaders(hostname: string): (h: map<string, string>)
    ensures Contains(hostname, "linkedin") ==> h == LinkedInHeaders
    ensures !Contains(hostname, "linkedin") && Contains(hostname, "indeed") ==> h == IndeedHeaders
    ensures !Contains(hostname, "linkedin") && !Contains(hostname, "indeed") && Contains(hostname, "glassdoor") ==> h == GlassdoorHeaders
    ensures !Contains(hostname, "linkedin") && !Contains(hostname, "indeed") && !Contains(hostname, "glassdoor") ==> h == map[]
  {
    if Contains(hostname, "linkedin") then LinkedInHeaders
    else if Contains(hostname, "indeed") then IndeedHeaders
    else if Contains(hostname, "glassdoor") then GlassdoorHeaders
    else map[]
  }

  /** `getRandomizedHeaders(hostname)`: the common headers, overridden key
      by key by the site-specific ones (the object spread). */
  function RandomizedHeaders(hostname: string, userAgent: string, referrer: string): (h: map<string, string>)
    ensures h.Keys == CommonHeaders(userAgent, referrer).Keys + SiteHeaders(hostname).Keys
    ensures forall k :: k in SiteHeaders(hostname) ==> h[k] == SiteHeaders(hostname)[k]
    ensures forall k :: k in CommonHeaders(userAgent, referrer) && k !in SiteHeaders(hostname) ==> h[k] == CommonHeaders(userAgent, referrer)[k]
  {
    CommonHeaders(userAgent, referrer) + SiteHeaders(hostname)
  }

  /** The rotation list of user agents. */
  const UserAgents: seq<string> := [
    "Mozilla/5.0 (Windows NT 10.0; Win64; x64) AppleWebKit/537.36 (KHTML, like Gecko) Chrome/96.0.4664.110 Safari/537.36",
    "Mozilla/5.0 (Macintosh; Intel Mac OS X 10_15_7) AppleWebKit/537.36 (KHTML, like Gecko) Chrome/96.0.4664.110 Safari/537.36",
    "Mozilla/5.0 (Windows NT 10.0; Win64; x64; rv:94.0) Gecko/20100101 Firefox/94.0",
    "Mozilla/5.0 (Macintosh; Intel Mac OS X 10.15; rv:94.0) Gecko/20100101 Firefox/94.0",
    "Mozilla/5.0 (Macintosh; Intel Mac OS X 10_15_7) AppleWebKit/605.1.15 (KHTML, like Gecko) Version/15.1 Safari/605.1.15",
    "Mozilla/5.0 (Windows NT 10.0; Win64; x64) AppleWebKit/537.36 (KHTML, like Gecko) Chrome/96.0.4664.55 Safari/537.36 Edg/96.0.1054.43",
    "Mozilla/5.0 (iPhone; CPU iPhone OS 15_1 like Mac OS X) AppleWebKit/605.1.15 (KHTML, like Gecko) Version/15.1 Mobile/15E148 Safari/604.1",
    "Mozilla/5.0 (Linux; Android 12; SM-G991B) AppleWebKit/537.36 (KHTML, like Gecko) Chrome/96.0.4664.104 Mobile Safari/537.36"
  ]

  /** The rotation list of referrers. */
  const Referrers: seq<string> := [
    "https://www.google.com/",
    "https://www.google.fr/",
    "https://www.bing.com/",
    "https://www.bing.fr/",
    "https://duckduckgo.com/",
    "https://www.linkedin.com/",
    "https://www.jobsearch.com/",
    "https://www.indeed.com/"
  ]

  /** `getRandomizedHeaders(hostname)` with the two random draws as
      parameters: `uaRoll` and `refRoll` are the indices that
      `Math.floor(Math.random() * length)` picks. */
  function GetRandomizedHeaders(hostname: string, uaRoll: nat, refRoll: nat): (h: map<string, string>)
    requires uaRoll < |UserAgents| && refRoll < |Referrers|
    ensures "User-Agent" in h && h["User-Agent"] in UserAgents
    ensures "Referer" in h && h["Referer"] in Referrers
    ensures h == RandomizedHeaders(hostname, UserAgents[uaRoll], Referrers[refRoll])
  {
    RotatedHeadersKept(hostname, UserAgents[uaRoll], Referrers[refRoll]);
    RandomizedHeaders(hostname, UserAgents[uaRoll], Referrers[refRoll])
  }

  /** LinkedIn and Indeed hosts ask for French as well; every other host
      keeps the common `Accept-Language`. */
  lemma AcceptLanguageBySite(hostname: string, userAgent: string, referrer: string)
    ensures var h := RandomizedHeaders(hostname, userAgent, referrer);
      "Accept-Language" in h
      && h["Accept-Language"] == if Contains(hostname, "linkedin") || Contains(hostname, "indeed") then AcceptLanguageWithFrench else AcceptLanguageDefault
  {
    var s := SiteHeaders(hostname);
    var c := CommonHeaders(userAgent, referrer);
    assert "Accept-Language" in c && c["Accept-Language"] == AcceptLanguageDefault;
    if Contains(hostname, "linkedin") {
      assert s["Accept-Language"] == AcceptLanguageWithFrench;
    } else if Contains(hostname, "indeed") {
      assert s["Accept-Language"] == AcceptLanguageWithFrench;
    } else if Contains(hostname, "glassdoor") {
      assert s["Accept-Language"] == AcceptLanguageDefault;
    } else {
      assert "Accept-Language" !in s;
    }
  }

  /** The rotated user agent and referrer always go through untouched. */
  lemma RotatedHeadersKept(hostname: string, userAgent: string, referrer: string)
    ensures var h := RandomizedHeaders(hostname, userAgent, referrer);
      "User-Agent" in h && h["User-Agent"] == userAgent && "Referer" in h && h["Referer"] == referrer
  {
    var c := CommonHeaders(userAgent, referrer);
    assert "User-Agent" in c && c["User-Agent"] == userAgent;
    assert "Referer" in c && c["Referer"] == referrer;
    assert "User-Agent" !in LinkedInHeaders && "Referer" !in LinkedInHeaders;
    assert "User-Agent" !in IndeedHeaders && "Referer" !in IndeedHeaders;
    assert "User-Agent" !in GlassdoorHeaders && "Referer" !in GlassdoorHeaders;
  }
}
