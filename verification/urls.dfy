/** The parts of a WHATWG `URL` object that the extraction code reads. */
module Urls {
  import opened Wrappers
  import opened Strings

  /** One `name=value` pair of `searchParams`. */
  datatype QueryParam = QueryParam(name: string, value: string)

  /** A parsed absolute URL: `protocol` without its colon, `hostname`,
      `pathname` and the decoded query pairs in order. */
  datatype Url = Url(scheme: string, hostname: string, pathname: string, query: seq<QueryParam>)

  /** `new URL(s)`, which throws on input that is not an absolute URL:
      a partial function, `None` standing for the thrown error. */
  type UrlParser = string -> Option<Url>

  /** `pathname.split('/')`. */
  function PathParts(u: Url): seq<string> {
    Split(u.pathname, {'/'})
  }

  function JoinQuery(q: seq<QueryParam>): string {
    if q == [] then []
    else q[0].name + "=" + q[0].value + (if |q| == 1 then [] else "&" + JoinQuery(q[1..]))
  }

  /** `url.toString()`; an empty query list leaves no `?`. */
  function Serialize(u: Url): string {
    u.scheme + "://" + u.hostname + u.pathname + (if u.query == [] then [] else "?" + JoinQuery(u.query))
  }
}
