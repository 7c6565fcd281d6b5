/** Record normalisation (apps/api/src/core/normalize.ts): each provider record
    becomes one shared record tagged with its source. The digest behind `makeId`
    (sha1 on the server, the client's `simpleHash`) is a parameter. */
module Normalize {
  import opened Types
  import Dedupe

  /** The string `makeId` hashes, `doi ?? url ?? title`: `??` only skips a missing
      DOI, and since `url` is always a string the title is never reached. */
  function IdKey(r: ProviderResult): string
  {
    if r.doi.Some? then r.doi.value else r.url
  }

  /** `makeId`: the digest of the DOI whenever one is present, even an empty one,
      and otherwise of the URL. */
  function MakeId(r: ProviderResult, digest: string -> string): (id: string)
    ensures r.doi.Some? ==> id == digest(r.doi.value)
    ensures r.doi.None? ==> id == digest(r.url)
  {
    digest(IdKey(r))
  }

  function NormalizeOne(source: string, r: ProviderResult, digest: string -> string): NormalizedResult
  {
    NormalizedResult(
      MakeId(r, digest), r.title, r.url, r.snippet, source, r.lang, r.date,
      r.authors, r.venue, r.doi, r.citations, 0.0, [])
  }

  /** The provider fields that normalisation copies. */
  predicate CopiesFields(r: ProviderResult, n: NormalizedResult)
  {
    && n.title == r.title && n.url == r.url && n.snippet == r.snippet
    && n.lang == r.lang && n.date == r.date && n.authors == r.authors
    && n.venue == r.venue && n.doi == r.doi && n.citations == r.citations
  }

  /** `normalizeResults`: one output per input at the same position, tagged with the
      source, unscored, with every provider field copied and the id taken from the
      identity key. */
  function NormalizeResults(source: string, results: seq<ProviderResult>, digest: string -> string)
    : (out: seq<NormalizedResult>)
    ensures |out| == |results|
    ensures forall i :: 0 <= i < |out| ==>
              out[i].source == source && out[i].score == 0.0 && out[i].why == []
    ensures forall i :: 0 <= i < |out| ==> CopiesFields(results[i], out[i])
    ensures forall i :: 0 <= i < |out| ==> out[i].id == digest(IdKey(results[i]))
  {
    seq(|results|, i requires 0 <= i < |results| => NormalizeOne(source, results[i], digest))
  }

  /** The provider record a normalised record was made from, given the dropped hint. */
  function Denormalize(n: NormalizedResult, rawScore: Option<real>): ProviderResult
  {
    ProviderResult(n.title, n.url, n.snippet, n.lang, n.date, n.authors, n.venue, n.doi,
                   n.citations, rawScore)
  }

  /** Nothing but the provider's relevance hint is lost: denormalising restores the input. */
  lemma NormalizeRoundTrip(source: string, results: seq<ProviderResult>, digest: string -> string)
    ensures forall i :: 0 <= i < |results| ==>
              Denormalize(NormalizeResults(source, results, digest)[i], results[i].rawScore) == results[i]
  {
  }

  /** The provider's `rawScore` does not reach the normalised record. */
  lemma RawScoreDropped(source: string, r: ProviderResult, hint: Option<real>, digest: string -> string)
    ensures NormalizeResults(source, [r], digest) == NormalizeResults(source, [r.(rawScore := hint)], digest)
  {
  }

  /** Records with the same identity key get the same id. */
  lemma SameKeySameId(a: ProviderResult, b: ProviderResult, digest: string -> string)
    requires IdKey(a) == IdKey(b)
    ensures MakeId(a, digest) == MakeId(b, digest)
  {
  }

  /** Normalising a concatenation is concatenating the normalised parts. */
  lemma NormalizeAppend(source: string, a: seq<ProviderResult>, b: seq<ProviderResult>, digest: string -> string)
    ensures NormalizeResults(source, a + b, digest)
         == NormalizeResults(source, a, digest) + NormalizeResults(source, b, digest)
  {
  }

  /** An empty-string DOI is still the identity key (`??` tests only for a missing
      value), while the deduplication key skips it (it tests truthiness). */
  lemma EmptyDoiIdentityVersusDedupeKey(source: string, r: ProviderResult, digest: string -> string, parse: UrlParser)
    requires r.doi == Some("") && r.url != ""
    ensures IdKey(r) == "" && IdKey(r.(doi := None)) == r.url
    ensures Dedupe.MakeKey(NormalizeOne(source, r, digest), parse)
         == Dedupe.MakeKey(NormalizeOne(source, r, digest).(doi := None), parse)
  {
  }
}
