/** The record shapes shared by the server pipeline and the browser client
    (apps/api/src/types/search.ts). JavaScript's `undefined`/`null` become `None`;
    numbers become `int` (counts, pages) or `real` (scores, weights, timestamps).
    The foreign routines the pipeline calls are parameters: the WHATWG URL parser,
    `Date.parse`, `Date.now()` and `Math.log1p`. */
module Types {

  datatype Option<+T> = None | Some(value: T) {
    function GetOr(default: T): T
    {
      match this
      case Some(v) => v
      case None => default
    }
  }

  /** JavaScript's `a ?? b` on optional values: `b` replaces a missing `a`. */
  function Coalesce<T>(a: Option<T>, b: Option<T>): (r: Option<T>)
    ensures a.Some? ==> r == a
    ensures a.None? ==> r == b
  {
    if a.Some? then a else b
  }

  datatype Result<+R, +E> = Success(value: R) | Failure(error: E)

  datatype TimeRange = TimeRange(from: Option<string>, to: Option<string>)

  /** What a provider is asked. */
  datatype ProviderQuery = ProviderQuery(
    q: string,
    page: Option<int>,
    pageSize: Option<int>,
    timeRange: Option<TimeRange>)

  /** A provider's raw record; `title` and `url` are always present. */
  datatype ProviderResult = ProviderResult(
    title: string,
    url: string,
    snippet: Option<string>,
    lang: Option<string>,
    date: Option<string>,
    authors: Option<seq<string>>,
    venue: Option<string>,
    doi: Option<string>,
    citations: Option<int>,
    rawScore: Option<real>)

  /** The fixed set of ranking factors, in the order the scorer considers them. */
  datatype WhyKey =
    | LangMatch | LangExcluded | Scholarly | Freshness
    | CitationWeight | DomainBoost | DomainBlock | MainstreamPenalty
  {
    /** Place of the factor in the scoring order. */
    function Rank(): nat
    {
      match this
      case LangMatch => 0
      case LangExcluded => 1
      case Scholarly => 2
      case Freshness => 3
      case CitationWeight => 4
      case DomainBoost => 5
      case DomainBlock => 6
      case MainstreamPenalty => 7
    }

    /** The key string shown to the user. */
    function Name(): string
    {
      match this
      case LangMatch => "lang_match"
      case LangExcluded => "lang_excluded"
      case Scholarly => "scholarly"
      case Freshness => "freshness"
      case CitationWeight => "citations"
      case DomainBoost => "domain_boost"
      case DomainBlock => "domain_block"
      case MainstreamPenalty => "mainstream_penalty"
    }
  }

  datatype WhyEntry = WhyEntry(key: WhyKey, weight: real, note: Option<string>)

  datatype NormalizedResult = NormalizedResult(
    id: string,
    title: string,
    url: string,
    snippet: Option<string>,
    source: string,
    lang: Option<string>,
    date: Option<string>,
    authors: Option<seq<string>>,
    venue: Option<string>,
    doi: Option<string>,
    citations: Option<int>,
    score: real,
    why: seq<WhyEntry>)

  datatype DomainRules = DomainRules(boost: Option<seq<string>>, block: Option<seq<string>>)

  datatype Profile = Profile(
    preferredLangs: seq<string>,
    excludeLangs: Option<seq<string>>,
    timeRange: Option<TimeRange>,
    mainstreamPenalty: Option<real>,
    domain: Option<DomainRules>)

  datatype SearchRequest = SearchRequest(
    q: string,
    page: Option<int>,
    pageSize: Option<int>,
    sources: seq<string>,
    profile: Profile)

  /** Per-source accounting; the elapsed-time field is not modelled. */
  datatype SourceMeta = SourceMeta(count: nat, errors: Option<seq<string>>)

  datatype SearchResponse = SearchResponse(
    q: string,
    results: seq<NormalizedResult>,
    perSource: map<string, SourceMeta>)

  /** The parts of a parsed URL the pipeline reads. */
  datatype ParsedUrl = ParsedUrl(hostname: string, pathname: string)

  /** `new URL(raw)`: `None` where the constructor throws. */
  type UrlParser = string -> Option<ParsedUrl>

  /** The environment of one ranking call: the URL parser, `Date.parse` (`None` for
      NaN) in milliseconds, the frozen `Date.now()` and `Math.log1p`. */
  datatype Env = Env(
    parseUrl: UrlParser,
    parseDate: string -> Option<real>,
    now: real,
    log1p: real -> real)

  /** A truthy optional string: present and non-empty. */
  predicate Truthy(s: Option<string>)
  {
    s.Some? && s.value != ""
  }

  function MaxInt(a: int, b: int): int
  {
    if a >= b then a else b
  }

  function MaxReal(a: real, b: real): real
  {
    if a >= b then a else b
  }

  function MinReal(a: real, b: real): real
  {
    if a <= b then a else b
  }
}
