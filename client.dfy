/** The browser client's copy of the pipeline (apps/web/src/api/client.ts): the
    32-bit string hash behind its record ids, the direct-mode fan-out over the
    requested sources, and the mock response. Its dedupe and ranking are the
    `Dedupe` and `Rank` modules; the provider fetches are a parameter. */
module Client {
  import opened Types
  import opened Strings
  import Normalize
  import Dedupe
  import Rank
  import Orchestrator

  /** The client's default source list, the same ids as the server's registry. */
  const DefaultSources: seq<string> := ["arxiv", "wikipedia", "semanticscholar"]

  /** The providers `runProvider` dispatches to. */
  const KnownSources: set<string> := {"wikipedia", "semanticscholar", "arxiv"}

  const Modulus: int := 0x1_0000_0000

  // ---------------------------------------------------------------------------
  // simpleHash

  /** JavaScript's ToInt32: the value modulo 2^32, read as a signed 32-bit integer. */
  function ToInt32(x: int): (r: int)
    ensures -0x8000_0000 <= r < 0x8000_0000
    ensures r % Modulus == x % Modulus
  {
    var u := x % Modulus;
    if u >= 0x8000_0000 then u - Modulus else u
  }

  /** `Math.imul`: the 32-bit truncated product. */
  function Imul(a: int, b: int): int
  {
    ToInt32(a * b)
  }

  /** `charCodeAt`: the code of one character. */
  function CharCode(c: char): int
  {
    c as int
  }

  /** The unsigned hash of a string: h := (31 * h + code) mod 2^32 over its
      characters, from h = 0. */
  function HashFold(s: string): (h: nat)
    ensures h < Modulus
  {
    if s == [] then 0 else (31 * HashFold(s[..|s| - 1]) + CharCode(s[|s| - 1])) % Modulus
  }

  function HexDigit(d: nat): char
    requires d < 16
  {
    if d < 10 then ('0' as int + d) as char else ('a' as int + d - 10) as char
  }

  /** `n.toString(16)`: lower-case hexadecimal digits without leading zeros. */
  function Hex(n: nat): (r: string)
    ensures r != []
  {
    if n < 16 then [HexDigit(n)] else Hex(n / 16) + [HexDigit(n % 16)]
  }

  /** The value of a lower-case hexadecimal digit (0 for any other character). */
  function HexValue(c: char): nat
  {
    if '0' <= c <= '9' then c as nat - '0' as nat
    else if 'a' <= c <= 'f' then c as nat - 'a' as nat + 10
    else 0
  }

  /** Reads a string of hexadecimal digits. */
  function ParseHex(s: string): nat
  {
    if s == [] then 0 else 16 * ParseHex(s[..|s| - 1]) + HexValue(s[|s| - 1])
  }

  /** What `simpleHash` returns: "h" and the hexadecimal form of the unsigned hash,
      one to eight digits with no leading zero. */
  function HashString(s: string): (id: string)
    ensures 2 <= |id| <= 9 && id[0] == 'h'
    ensures id[1] == '0' <==> id == "h0"
  {
    assert Pow16(8) == Modulus;
    HexLength(HashFold(s), 8);
    "h" + Hex(HashFold(s))
  }

  lemma ModOfMultiple(x: int, k: int)
    ensures (x + k * Modulus) % Modulus == x % Modulus
  {
  }

  /** One step of the loop: adding a code to a value congruent to 31 times the
      hash so far lands on the next hash. */
  lemma HashStep(hash: int, c: int)
    ensures (ToInt32(Imul(31, hash) + c)) % Modulus == (31 * (hash % Modulus) + c) % Modulus
  {
    var m := Imul(31, hash);
    assert m % Modulus == (31 * hash) % Modulus;
    ModOfMultiple(m + c, -(m / Modulus));
    ModOfMultiple(31 * hash + c, -((31 * hash) / Modulus));
    ModOfMultiple(31 * (hash % Modulus) + c, 31 * (hash / Modulus));
    assert 31 * hash == 31 * (hash % Modulus) + 31 * (hash / Modulus) * Modulus;
  }

  /** `simpleHash`: the loop keeps `hash` a signed 32-bit integer congruent to the
      unsigned hash of the prefix read so far; `>>> 0` reads it back unsigned. */
  method SimpleHash(input: string) returns (r: string)
    ensures r == HashString(input)
  {
    var hash: int := 0;
    for i := 0 to |input|
      invariant -0x8000_0000 <= hash < 0x8000_0000
      invariant hash % Modulus == HashFold(input[..i])
    {
      assert input[..i + 1][..i] == input[..i];
      HashStep(hash, CharCode(input[i]));
      hash := Imul(31, hash) + CharCode(input[i]);
      hash := ToInt32(hash);
    }
    assert input[..|input|] == input;
    r := "h" + Hex(hash % Modulus);
  }

  /** The empty string hashes to "h0". */
  lemma EmptyHash()
    ensures HashString("") == "h0"
  {
  }

  /** A one-character string hashes to its code in hexadecimal: "a" gives "h61". */
  lemma HashOfA()
    ensures HashString("a") == "h61"
  {
    assert "a"[..0] == [];
    assert HashFold("a") == 97;
    assert Hex(97) == Hex(6) + [HexDigit(1)];
  }

  /** Reading the hexadecimal form back gives the number. */
  lemma {:induction false} HexRoundTrip(n: nat)
    ensures ParseHex(Hex(n)) == n
  {
    if n >= 16 {
      HexRoundTrip(n / 16);
      var h := Hex(n / 16) + [HexDigit(n % 16)];
      assert h[..|h| - 1] == Hex(n / 16);
      assert HexValue(h[|h| - 1]) == n % 16;
      assert ParseHex(h) == 16 * (n / 16) + n % 16;
    }
  }

  function Pow16(k: nat): nat
  {
    if k == 0 then 1 else 16 * Pow16(k - 1)
  }

  /** A number below 16^k has at most k hexadecimal digits, and only the number 0
      is written with a leading zero. */
  lemma {:induction false} HexLength(n: nat, k: nat)
    requires 1 <= k && n < Pow16(k)
    ensures |Hex(n)| <= k
    ensures Hex(n)[0] == '0' <==> n == 0
  {
    if n >= 16 {
      HexLength(n / 16, k - 1);
    }
  }

  /** Client ids are "h" and one to eight hexadecimal digits, and the digits
      determine the unsigned hash. */
  lemma HashStringShape(s: string)
    ensures HashString(s)[0] == 'h'
    ensures 2 <= |HashString(s)| <= 9
    ensures ParseHex(HashString(s)[1..]) == HashFold(s)
  {
    assert Pow16(8) == Modulus;
    HexLength(HashFold(s), 8);
    HexRoundTrip(HashFold(s));
    assert HashString(s)[1..] == Hex(HashFold(s));
  }

  /** Two strings get the same client id exactly when their unsigned hashes agree. */
  lemma HashStringInjective(a: string, b: string)
    ensures HashString(a) == HashString(b) <==> HashFold(a) == HashFold(b)
  {
    if HashString(a) == HashString(b) {
      HashStringShape(a);
      HashStringShape(b);
    }
  }

  // ---------------------------------------------------------------------------
  // makeId and normalizeResults

  /** The client's `normalizeResults`: the server normalisation with `simpleHash`
      as the digest. */
  function ClientNormalize(source: string, results: seq<ProviderResult>): (out: seq<NormalizedResult>)
    ensures |out| == |results|
    ensures forall i :: 0 <= i < |out| ==> out[i].source == source && Normalize.CopiesFields(results[i], out[i])
  {
    Normalize.NormalizeResults(source, results, HashString)
  }

  /** The client's ids: the hash of the DOI when present and of the URL otherwise,
      so records with the same identity key get the same id. */
  lemma ClientIds(source: string, results: seq<ProviderResult>)
    ensures forall i :: 0 <= i < |results| ==>
              && ClientNormalize(source, results)[i].id == HashString(Normalize.IdKey(results[i]))
              && ClientNormalize(source, results)[i].id[0] == 'h'
    ensures forall i, j ::
              (0 <= i < |results| && 0 <= j < |results| &&
               Normalize.IdKey(results[i]) == Normalize.IdKey(results[j])) ==>
              ClientNormalize(source, results)[i].id == ClientNormalize(source, results)[j].id
  {
    forall i | 0 <= i < |results| ensures ClientNormalize(source, results)[i].id[0] == 'h' {
      HashStringShape(Normalize.IdKey(results[i]));
    }
  }

  // ---------------------------------------------------------------------------
  // directSearch and runProvider

  /** `request.sources?.length ? request.sources : defaultSources`, without any
      registry check. */
  function ClientSources(requested: seq<string>): (r: seq<string>)
    ensures requested != [] ==> r == requested
    ensures requested == [] ==> r == DefaultSources
  {
    if |requested| > 0 then requested else DefaultSources
  }

  /** `runProvider`: the known providers are fetched, any other source yields no
      records and no error. */
  function RunProvider(source: string, request: SearchRequest,
                       fetch: (string, SearchRequest) -> Orchestrator.ProviderOutcome): (o: Orchestrator.ProviderOutcome)
    ensures source !in KnownSources ==> o == Orchestrator.Returned([])
    ensures source in KnownSources ==> o == fetch(source, request)
  {
    if source in KnownSources then fetch(source, request) else Orchestrator.Returned([])
  }

  function ClientOutcomes(request: SearchRequest, fetch: (string, SearchRequest) -> Orchestrator.ProviderOutcome)
    : string -> Orchestrator.ProviderOutcome
  {
    s => RunProvider(s, request, fetch)
  }

  /** `directSearch` as a value. */
  function DirectSearchSpec(request: SearchRequest, fetch: (string, SearchRequest) -> Orchestrator.ProviderOutcome,
                            order: seq<nat>, env: Env): SearchResponse
    requires Orchestrator.IsOrder(order, |ClientSources(request.sources)|)
  {
    var sources := ClientSources(request.sources);
    var outcome := ClientOutcomes(request, fetch);
    SearchResponse(
      request.q,
      Rank.RankResults(Dedupe.Dedupe(Orchestrator.Collected(sources, order, outcome, HashString), env.parseUrl),
                       request.profile, env),
      Orchestrator.PerSource(sources, order, outcome, HashString))
  }

  /** `directSearch`: the same fan-out and accounting as the server, over the
      unfiltered source list, then dedupe and rank. */
  method DirectSearch(request: SearchRequest, fetch: (string, SearchRequest) -> Orchestrator.ProviderOutcome,
                      order: seq<nat>, env: Env)
    returns (response: SearchResponse)
    requires Orchestrator.IsOrder(order, |ClientSources(request.sources)|)
    ensures response == DirectSearchSpec(request, fetch, order, env)
  {
    var sources := ClientSources(request.sources);
    var collected, perSource := Orchestrator.FanOut(sources, order, ClientOutcomes(request, fetch), HashString);
    var deduped := Dedupe.DedupeResults(collected, env.parseUrl);
    var ranked := Rank.RankResults(deduped, request.profile, env);
    response := SearchResponse(request.q, ranked, perSource);
  }

  /** Every listed source, known or not, gets an entry: an unknown one count 0 and
      no errors, a known one the server's success or failure entry. */
  lemma DirectSearchEntries(request: SearchRequest, fetch: (string, SearchRequest) -> Orchestrator.ProviderOutcome,
                            order: seq<nat>, env: Env)
    requires Orchestrator.IsOrder(order, |ClientSources(request.sources)|)
    ensures forall s :: s in DirectSearchSpec(request, fetch, order, env).perSource <==> s in ClientSources(request.sources)
    ensures forall s :: s in ClientSources(request.sources) && s !in KnownSources ==>
              DirectSearchSpec(request, fetch, order, env).perSource[s] == SourceMeta(0, None)
    ensures forall s :: s in ClientSources(request.sources) && s in KnownSources && fetch(s, request).Threw? ==>
              DirectSearchSpec(request, fetch, order, env).perSource[s] ==
              SourceMeta(0, Some([Orchestrator.ErrorMessage(fetch(s, request).message)]))
    ensures forall s :: s in ClientSources(request.sources) && s in KnownSources && fetch(s, request).Returned? ==>
              DirectSearchSpec(request, fetch, order, env).perSource[s] == SourceMeta(|fetch(s, request).results|, None)
  {
    var outcome := ClientOutcomes(request, fetch);
    Orchestrator.PerSourceEntries(ClientSources(request.sources), order, outcome, HashString);
  }

  /** Unlike the server, the client dispatches an unregistered source: a request
      for "bogus" answers with an empty result list and a zero count for it. */
  lemma UnregisteredSourceKept(request: SearchRequest, fetch: (string, SearchRequest) -> Orchestrator.ProviderOutcome,
                               env: Env)
    requires request.sources == ["bogus"]
    ensures Orchestrator.IsOrder([0], |ClientSources(request.sources)|)
    ensures DirectSearchSpec(request, fetch, [0], env).results == []
    ensures DirectSearchSpec(request, fetch, [0], env).perSource == map["bogus" := SourceMeta(0, None)]
    ensures Orchestrator.ResolveSources(request.sources) == []
  {
    assert 0 in [0];
    assert "bogus" !in KnownSources;
    assert [0][..0] == [];
    var outcome := ClientOutcomes(request, fetch);
    assert Orchestrator.Collected(["bogus"], [0], outcome, HashString) == [];
    assert Dedupe.Dedupe([], env.parseUrl) == [];
    assert ["bogus"][1..] == [];
    assert "bogus" !in Orchestrator.Registry;
  }

  /** The fan-out reads each outcome only at the listed sources. */
  lemma {:induction false} FanOutCongruent(sources: seq<string>, done: seq<nat>,
                                           o1: string -> Orchestrator.ProviderOutcome,
                                           o2: string -> Orchestrator.ProviderOutcome, digest: string -> string)
    requires Orchestrator.Indices(done, |sources|)
    requires forall i :: 0 <= i < |sources| ==> o1(sources[i]) == o2(sources[i])
    ensures Orchestrator.Collected(sources, done, o1, digest) == Orchestrator.Collected(sources, done, o2, digest)
    ensures Orchestrator.PerSource(sources, done, o1, digest) == Orchestrator.PerSource(sources, done, o2, digest)
  {
    if done != [] {
      FanOutCongruent(sources, done[..|done| - 1], o1, o2, digest);
    }
  }

  /** On registered sources the client's direct search and the server's search
      agree: same query echo, same ranked results (up to the digest behind the ids)
      and the same per-source accounting, when the client's fetches return what the
      server's providers return for the request's query. */
  lemma DirectSearchMatchesServer(request: SearchRequest,
                                  fetch: (string, SearchRequest) -> Orchestrator.ProviderOutcome,
                                  call: (string, ProviderQuery) -> Orchestrator.ProviderOutcome,
                                  order: seq<nat>, env: Env)
    requires forall i :: 0 <= i < |request.sources| ==> request.sources[i] in Orchestrator.Registry
    requires forall s :: s in Orchestrator.Registry ==> fetch(s, request) == call(s, Orchestrator.QueryOf(request))
    requires Orchestrator.IsOrder(order, |ClientSources(request.sources)|)
    ensures Orchestrator.ResolveSources(request.sources) == ClientSources(request.sources)
    ensures Orchestrator.Search(request, call, HashString, order, env) ==
            Success(DirectSearchSpec(request, fetch, order, env))
  {
    Orchestrator.KeepRegisteredOfRegistered(request.sources);
    var sources := ClientSources(request.sources);
    assert forall i :: 0 <= i < |sources| ==> sources[i] in Orchestrator.Registry;
    FanOutCongruent(sources, order, ClientOutcomes(request, fetch),
                    Orchestrator.Outcomes(call, Orchestrator.QueryOf(request)), HashString);
  }

  // ---------------------------------------------------------------------------
  // mockSearch

  const MockSnippet: string := "Dette er mock-data for å gjøre UIet testbart før backend er på plass."

  /** `request.sources[idx % request.sources.length] || 'mock'`: an empty list
      indexes at NaN, and an empty id is falsy. */
  function MockSource(sources: seq<string>, idx: nat): (s: string)
    ensures s == "mock" || s in sources
  {
    if |sources| == 0 then "mock"
    else if sources[idx % |sources|] == "" then "mock"
    else sources[idx % |sources|]
  }

  /** `s.slice(0, n)`. */
  function Take(s: string, n: nat): string
  {
    if |s| <= n then s else s[..n]
  }

  /** The `idx`-th mock record; `encode` is `encodeURIComponent` and `isoDate` the
      ISO form of a millisecond timestamp. */
  function MockResult(request: SearchRequest, encode: string -> string, isoDate: real -> string,
                      now: real, idx: nat): (r: NormalizedResult)
    requires idx < 6
    ensures r.source == MockSource(request.sources, idx)
    ensures r.score == (10 - idx) as real * 0.1 + request.profile.mainstreamPenalty.GetOr(0.0)
    ensures r.lang.Some? && r.lang.value != ""
    ensures r.citations == Some(10 * idx)
  {
    var rankBoost := MaxInt(1, 10 - idx);
    NormalizedResult(
      request.q + "-" + DecimalString(idx),
      request.q + " \U{2014} sample finding " + DecimalString(idx + 1),
      "https://example.com/" + encode(request.q) + "/" + DecimalString(idx + 1),
      Some(MockSnippet),
      MockSource(request.sources, idx),
      Some(if |request.profile.preferredLangs| > 0 && request.profile.preferredLangs[0] != ""
           then request.profile.preferredLangs[0] else "en"),
      Some(Take(isoDate(now - (idx as real) * 86400000.0), 10)),
      Some(["J. Doe", "A. Researcher"]),
      Some(if idx % 2 == 0 then "OpenAlex" else "Crossref"),
      Some("10.1234/" + DecimalString(idx + 1)),
      Some(10 * idx),
      (rankBoost as real) * 0.1 + request.profile.mainstreamPenalty.GetOr(0.0),
      [WhyEntry(LangMatch, 0.2, Some("Matches preferredLangs")),
       WhyEntry(Scholarly, 0.3, Some("Indexed scholarly source")),
       WhyEntry(Freshness, 0.1, Some("Recent publication date"))])
  }

  /** `mockSearch`: six fixed records and a count of 2 for every requested source
      (elapsed times not modelled). */
  function MockSearch(request: SearchRequest, encode: string -> string, isoDate: real -> string, now: real)
    : (response: SearchResponse)
    ensures response.q == request.q && |response.results| == 6
    ensures response.perSource.Keys == set s | s in request.sources
  {
    SearchResponse(
      request.q,
      seq(6, idx requires 0 <= idx < 6 => MockResult(request, encode, isoDate, now, idx)),
      map s | s in request.sources :: SourceMeta(2, None))
  }

  /** The mock response has six records whose sources go round-robin through the
      requested list ("mock" for an empty list or an empty id), whose scores
      strictly decrease, and every requested source, and only those, counts 2. */
  lemma MockShape(request: SearchRequest, encode: string -> string, isoDate: real -> string, now: real)
    ensures |MockSearch(request, encode, isoDate, now).results| == 6
    ensures forall i :: 0 <= i < 6 ==>
              MockSearch(request, encode, isoDate, now).results[i].source == MockSource(request.sources, i)
    ensures forall i :: 0 <= i < 6 && |request.sources| > 0 && i + |request.sources| < 6 ==>
              MockSearch(request, encode, isoDate, now).results[i].source ==
              MockSearch(request, encode, isoDate, now).results[i + |request.sources|].source
    ensures forall i, j :: 0 <= i < j < 6 ==>
              MockSearch(request, encode, isoDate, now).results[i].score >
              MockSearch(request, encode, isoDate, now).results[j].score
    ensures forall s :: s in MockSearch(request, encode, isoDate, now).perSource <==> s in request.sources
    ensures forall s :: s in request.sources ==> MockSearch(request, encode, isoDate, now).perSource[s] == SourceMeta(2, None)
  {
    var n := |request.sources|;
    forall i | 0 <= i < 6 && n > 0 && i + n < 6
      ensures (i + n) % n == i % n
    {
      ModOfSum(i, n);
    }
  }

  lemma ModOfSum(i: nat, n: nat)
    requires n > 0 && i + n < 6
    ensures (i + n) % n == i % n
  {
    if n == 1 {
    } else if n == 2 {
    } else if n == 3 {
    } else if n == 4 {
    }
  }

  /** Unlike a ranked record, a mock record's score is not the sum of its
      rationale weights: the first scores 1.0 against weights summing to 0.6. */
  lemma MockScoreNotWhySum(request: SearchRequest, encode: string -> string, isoDate: real -> string, now: real)
    requires request.profile.mainstreamPenalty == None
    ensures MockSearch(request, encode, isoDate, now).results[0].score == 1.0
    ensures Rank.SumWeights(MockSearch(request, encode, isoDate, now).results[0].why) == 0.6
  {
  }
}
