/** The search orchestrator (apps/api/src/core/orchestrator.ts): resolves the
    requested sources against the provider registry, fans the query out, records
    per-source success or failure, and runs normalise, dedupe and rank over the
    collected records. `Promise.all` is sequentialised: `order` lists the dispatch
    positions in the order the provider calls complete. */
module Orchestrator {
  import opened Types
  import opened Seqs
  import Normalize
  import Dedupe
  import Rank

  /** The registry's ids, in declaration order (`Object.keys(providers)`). */
  const Registry: seq<string> := ["arxiv", "wikipedia", "semanticscholar"]

  /** The inherited property names of `Object.prototype`: `providers[name]` is
      truthy for each although none is a provider. */
  const PrototypeKeys: set<string> := {
    "constructor", "__defineGetter__", "__defineSetter__", "hasOwnProperty",
    "__lookupGetter__", "__lookupSetter__", "isPrototypeOf", "propertyIsEnumerable",
    "toString", "valueOf", "__proto__", "toLocaleString"}

  const NoSourcesError: string := "No valid sources selected"

  /** The requested ids that name a registered provider, in request order. */
  function KeepRegistered(requested: seq<string>): (r: seq<string>)
    ensures forall s :: s in r <==> s in requested && s in Registry
    ensures |r| <= |requested|
  {
    if requested == [] then []
    else (if requested[0] in Registry then [requested[0]] else []) + KeepRegistered(requested[1..])
  }

  /** Filtering distributes over concatenation, so the kept ids keep their order. */
  lemma {:induction false} KeepRegisteredAppend(a: seq<string>, b: seq<string>)
    ensures KeepRegistered(a + b) == KeepRegistered(a) + KeepRegistered(b)
  {
    if a == [] {
      assert a + b == b;
    } else {
      assert (a + b)[1..] == a[1..] + b;
      KeepRegisteredAppend(a[1..], b);
    }
  }

  /** A request naming only registered providers is kept as it is. */
  lemma {:induction false} KeepRegisteredOfRegistered(requested: seq<string>)
    requires forall i :: 0 <= i < |requested| ==> requested[i] in Registry
    ensures KeepRegistered(requested) == requested
  {
    if requested != [] {
      KeepRegisteredOfRegistered(requested[1..]);
    }
  }

  /** Source resolution: the registered ids among a non-empty request, otherwise
      every registered provider. */
  function ResolveSources(requested: seq<string>): (r: seq<string>)
    ensures requested == [] ==> r == Registry
    ensures requested != [] ==> r == KeepRegistered(requested)
    ensures forall s :: s in r ==> s in Registry
  {
    if |requested| > 0 then KeepRegistered(requested) else Registry
  }

  /** The filter as written, `providers[s]` truthy: inherited `Object.prototype`
      names pass as well. */
  function ResolveSourcesAsWritten(requested: seq<string>): (r: seq<string>)
    ensures requested == [] ==> r == Registry
    ensures requested != [] ==> r == KeepTruthyAsWritten(requested)
    ensures forall s :: s in r ==> s in Registry || s in PrototypeKeys
  {
    if |requested| > 0
    then KeepTruthyAsWritten(requested)
    else Registry
  }

  function KeepTruthyAsWritten(requested: seq<string>): (r: seq<string>)
    ensures forall s :: s in r <==> s in requested && (s in Registry || s in PrototypeKeys)
  {
    if requested == [] then []
    else
      (if requested[0] in Registry || requested[0] in PrototypeKeys then [requested[0]] else [])
      + KeepTruthyAsWritten(requested[1..])
  }

  /** As written, a request for `constructor` alone resolves to a non-empty source
      list, so no "No valid sources selected" error is raised and the source is
      dispatched; with the registry check it resolves to nothing. */
  lemma PrototypeKeyPassesFilter()
    ensures ResolveSourcesAsWritten(["constructor"]) == ["constructor"]
    ensures ResolveSources(["constructor"]) == []
  {
    assert "constructor" in PrototypeKeys;
    assert ["constructor"][1..] == [];
    assert "constructor" !in Registry;
  }

  /** What a provider call does: resolve with records, or throw. `Threw(Some(m))`
      is an `Error` with message `m`; `Threw(None)` any other thrown value. */
  datatype ProviderOutcome = Returned(results: seq<ProviderResult>) | Threw(message: Option<string>)

  /** `error instanceof Error ? error.message : 'unknown error'`. */
  function ErrorMessage(message: Option<string>): string
  {
    message.GetOr("unknown error")
  }

  /** What a provider is asked: the request's query, page and page size and the
      profile's time range. */
  function QueryOf(request: SearchRequest): ProviderQuery
  {
    ProviderQuery(request.q, request.page, request.pageSize, request.profile.timeRange)
  }

  /** The records one completed call adds to `collected`. */
  function Block(source: string, o: ProviderOutcome, digest: string -> string): seq<NormalizedResult>
  {
    match o
    case Returned(rs) => Normalize.NormalizeResults(source, rs, digest)
    case Threw(_) => []
  }

  /** The `perSource` entry one completed call writes (elapsed time not modelled). */
  function Meta(source: string, o: ProviderOutcome, digest: string -> string): SourceMeta
  {
    match o
    case Returned(rs) => SourceMeta(|Normalize.NormalizeResults(source, rs, digest)|, None)
    case Threw(m) => SourceMeta(0, Some([ErrorMessage(m)]))
  }

  predicate Indices(done: seq<nat>, n: nat)
  {
    forall k :: 0 <= k < |done| ==> done[k] < n
  }

  /** A completion order: every dispatch position exactly once. */
  predicate IsOrder(order: seq<nat>, n: nat)
  {
    |order| == n && Indices(order, n) && forall i :: 0 <= i < n ==> i in order
  }

  /** The dispatch order itself, 0, 1, ..., n - 1. */
  function Range(n: nat): (r: seq<nat>)
    ensures |r| == n && forall k :: 0 <= k < n ==> r[k] == k
  {
    if n == 0 then [] else Range(n - 1) + [n - 1]
  }

  /** `collected` once the calls at positions `done` have completed, in that order. */
  function Collected(sources: seq<string>, done: seq<nat>, outcome: string -> ProviderOutcome,
                     digest: string -> string): seq<NormalizedResult>
    requires Indices(done, |sources|)
  {
    if done == [] then []
    else
      var source := sources[done[|done| - 1]];
      Collected(sources, done[..|done| - 1], outcome, digest) + Block(source, outcome(source), digest)
  }

  /** `perSource` once the calls at positions `done` have completed, in that order. */
  function PerSource(sources: seq<string>, done: seq<nat>, outcome: string -> ProviderOutcome,
                     digest: string -> string): map<string, SourceMeta>
    requires Indices(done, |sources|)
  {
    if done == [] then map[]
    else
      var source := sources[done[|done| - 1]];
      PerSource(sources, done[..|done| - 1], outcome, digest)[source := Meta(source, outcome(source), digest)]
  }

  /** The fan-out: each completed call appends its normalised block to `collected`
      and writes its source's `perSource` entry; a throwing call writes an error
      entry and nothing else. */
  method FanOut(sources: seq<string>, order: seq<nat>, outcome: string -> ProviderOutcome,
                digest: string -> string)
    returns (collected: seq<NormalizedResult>, perSource: map<string, SourceMeta>)
    requires IsOrder(order, |sources|)
    ensures collected == Collected(sources, order, outcome, digest)
    ensures perSource == PerSource(sources, order, outcome, digest)
  {
    collected := [];
    perSource := map[];
    for k := 0 to |order|
      invariant collected == Collected(sources, order[..k], outcome, digest)
      invariant perSource == PerSource(sources, order[..k], outcome, digest)
    {
      assert order[..k + 1][..k] == order[..k];
      var source := sources[order[k]];
      match outcome(source) {
        case Returned(providerResults) =>
          var normalized := Normalize.NormalizeResults(source, providerResults, digest);
          collected := collected + normalized;
          perSource := perSource[source := SourceMeta(|normalized|, None)];
        case Threw(message) =>
          perSource := perSource[source := SourceMeta(0, Some([ErrorMessage(message)]))];
      }
    }
    assert order[..|order|] == order;
  }

  lemma {:induction false} PerSourceKeysOf(sources: seq<string>, done: seq<nat>, outcome: string -> ProviderOutcome,
                                           digest: string -> string)
    requires Indices(done, |sources|)
    ensures forall s :: s in PerSource(sources, done, outcome, digest) <==>
              exists k :: 0 <= k < |done| && sources[done[k]] == s
    ensures forall s :: s in PerSource(sources, done, outcome, digest) ==>
              PerSource(sources, done, outcome, digest)[s] == Meta(s, outcome(s), digest)
  {
    if done != [] {
      var init := done[..|done| - 1];
      PerSourceKeysOf(sources, init, outcome, digest);
      forall s ensures s in PerSource(sources, done, outcome, digest) <==>
                       exists k :: 0 <= k < |done| && sources[done[k]] == s
      {
        if s in PerSource(sources, init, outcome, digest) {
          var k :| 0 <= k < |init| && sources[init[k]] == s;
          assert done[k] == init[k];
        }
        if exists k :: 0 <= k < |done| && sources[done[k]] == s {
          var k :| 0 <= k < |done| && sources[done[k]] == s;
          if k < |init| {
            assert init[k] == done[k];
          }
        }
      }
    }
  }

  /** Every source gets a `perSource` entry and nothing else does; a source whose
      call resolved records the normalised count and no errors, one whose call threw
      records 0 and its one message. */
  lemma PerSourceEntries(sources: seq<string>, order: seq<nat>, outcome: string -> ProviderOutcome,
                         digest: string -> string)
    requires IsOrder(order, |sources|)
    ensures forall s :: s in PerSource(sources, order, outcome, digest) <==> s in sources
    ensures forall s :: s in sources && outcome(s).Returned? ==>
              PerSource(sources, order, outcome, digest)[s] == SourceMeta(|outcome(s).results|, None)
    ensures forall s :: s in sources && outcome(s).Threw? ==>
              PerSource(sources, order, outcome, digest)[s] == SourceMeta(0, Some([ErrorMessage(outcome(s).message)]))
  {
    PerSourceKeysOf(sources, order, outcome, digest);
    forall s | s in sources ensures s in PerSource(sources, order, outcome, digest) {
      var i :| 0 <= i < |sources| && sources[i] == s;
      assert i in order;
      var k :| 0 <= k < |order| && order[k] == i;
      assert sources[order[k]] == s;
    }
  }

  /** Every collected record comes from a source whose call resolved, is tagged with
      that source and is one of its normalised records: a throwing provider
      contributes nothing. */
  lemma {:induction false} CollectedFromSuccesses(sources: seq<string>, done: seq<nat>,
                                                  outcome: string -> ProviderOutcome, digest: string -> string)
    requires Indices(done, |sources|)
    ensures forall x :: x in Collected(sources, done, outcome, digest) ==>
              && x.source in sources
              && outcome(x.source).Returned?
              && x in Normalize.NormalizeResults(x.source, outcome(x.source).results, digest)
  {
    if done != [] {
      var init := done[..|done| - 1];
      CollectedFromSuccesses(sources, init, outcome, digest);
      var source := sources[done[|done| - 1]];
      forall x | x in Block(source, outcome(source), digest)
        ensures x.source == source && outcome(source).Returned?
      {
        var rs := outcome(source).results;
        var i :| 0 <= i < |Normalize.NormalizeResults(source, rs, digest)| &&
                 Normalize.NormalizeResults(source, rs, digest)[i] == x;
      }
    }
  }

  /** The blocks of the calls at positions `done`, concatenated in that order. */
  function Gather<T>(block: nat -> seq<T>, done: seq<nat>): seq<T>
  {
    if done == [] then [] else Gather(block, done[..|done| - 1]) + block(done[|done| - 1])
  }

  lemma {:induction false} GatherAppend<T>(block: nat -> seq<T>, a: seq<nat>, b: seq<nat>)
    ensures Gather(block, a + b) == Gather(block, a) + Gather(block, b)
    decreases |b|
  {
    if b == [] {
      assert a + b == a;
    } else {
      var binit := b[..|b| - 1];
      assert (a + b)[..|a + b| - 1] == a + binit;
      assert (a + b)[|a + b| - 1] == b[|b| - 1];
      GatherAppend(block, a, binit);
    }
  }

  /** Splits a sequence around one occurrence of `x`. */
  lemma SplitAt(b: seq<nat>, x: nat) returns (b1: seq<nat>, b2: seq<nat>)
    requires x in multiset(b)
    ensures b == b1 + [x] + b2
    ensures multiset(b1 + b2) == multiset(b) - multiset{x}
  {
    var p :| 0 <= p < |b| && b[p] == x;
    b1, b2 := b[..p], b[p + 1..];
    assert b == b1 + [x] + b2;
    assert multiset(b) == multiset(b1 + b2) + multiset{x};
  }

  /** Gathering the same positions in two orders gives the same multiset. */
  lemma {:induction false} GatherPermutes<T>(block: nat -> seq<T>, a: seq<nat>, b: seq<nat>)
    requires multiset(a) == multiset(b)
    ensures multiset(Gather(block, a)) == multiset(Gather(block, b))
    decreases |a|
  {
    if a == [] {
      assert |b| == |multiset(b)| == 0;
    } else {
      var x := a[|a| - 1];
      var ainit := a[..|a| - 1];
      assert a == ainit + [x];
      assert x in multiset(b);
      var b1, b2 := SplitAt(b, x);
      assert multiset(ainit) == multiset(a) - multiset{x};
      GatherPermutes(block, ainit, b1 + b2);
      GatherAppend(block, b1, b2);
      GatherAppend(block, b1 + [x], b2);
      GatherAppend(block, b1, [x]);
      assert [x][..0] == [];
      assert Gather(block, [x]) == [] + block(x) == block(x);
    }
  }

  /** The block a dispatch position contributes. */
  function BlockAt(sources: seq<string>, outcome: string -> ProviderOutcome, digest: string -> string)
    : nat -> seq<NormalizedResult>
  {
    (i: nat) => if i < |sources| then Block(sources[i], outcome(sources[i]), digest) else []
  }

  lemma {:induction false} CollectedIsGather(sources: seq<string>, done: seq<nat>,
                                             outcome: string -> ProviderOutcome, digest: string -> string)
    requires Indices(done, |sources|)
    ensures Collected(sources, done, outcome, digest) == Gather(BlockAt(sources, outcome, digest), done)
  {
    if done != [] {
      CollectedIsGather(sources, done[..|done| - 1], outcome, digest);
    }
  }

  /** The collected records depend on the completion order only up to a
      permutation: any two orders of the same calls collect the same multiset. */
  lemma CompletionOrderPermutes(sources: seq<string>, a: seq<nat>, b: seq<nat>,
                                outcome: string -> ProviderOutcome, digest: string -> string)
    requires Indices(a, |sources|) && Indices(b, |sources|)
    requires multiset(a) == multiset(b)
    ensures multiset(Collected(sources, a, outcome, digest)) == multiset(Collected(sources, b, outcome, digest))
  {
    CollectedIsGather(sources, a, outcome, digest);
    CollectedIsGather(sources, b, outcome, digest);
    GatherPermutes(BlockAt(sources, outcome, digest), a, b);
  }

  /** Every provider is called with the same query. */
  function Outcomes(call: (string, ProviderQuery) -> ProviderOutcome, query: ProviderQuery): string -> ProviderOutcome
  {
    s => call(s, query)
  }

  /** `runSearch` as a value: the error for an empty resolution, otherwise the echoed
      query, rank(dedupe(collected)) and the per-source accounting. */
  function Search(request: SearchRequest, call: (string, ProviderQuery) -> ProviderOutcome,
                  digest: string -> string, order: seq<nat>, env: Env): (r: Result<SearchResponse, string>)
    requires IsOrder(order, |ResolveSources(request.sources)|)
    ensures r.Failure? <==> ResolveSources(request.sources) == []
    ensures r.Failure? ==> r.error == NoSourcesError
    ensures r.Success? ==> r.value.q == request.q && Rank.SortedDesc(r.value.results)
  {
    var sources := ResolveSources(request.sources);
    var outcome := Outcomes(call, QueryOf(request));
    if |sources| == 0 then Failure(NoSourcesError)
    else
      var collected := Collected(sources, order, outcome, digest);
      Success(SearchResponse(
        request.q,
        Rank.RankResults(Dedupe.Dedupe(collected, env.parseUrl), request.profile, env),
        PerSource(sources, order, outcome, digest)))
  }

  /** `runSearch`: fans out over the resolved sources, then dedupes and ranks. */
  method RunSearch(request: SearchRequest, call: (string, ProviderQuery) -> ProviderOutcome,
                   digest: string -> string, order: seq<nat>, env: Env)
    returns (response: Result<SearchResponse, string>)
    requires IsOrder(order, |ResolveSources(request.sources)|)
    ensures response == Search(request, call, digest, order, env)
  {
    var sources := ResolveSources(request.sources);
    if |sources| == 0 {
      return Failure(NoSourcesError);
    }
    var query := QueryOf(request);
    var collected, perSource := FanOut(sources, order, Outcomes(call, query), digest);
    var deduped := Dedupe.DedupeResults(collected, env.parseUrl);
    var ranked := Rank.RankResults(deduped, request.profile, env);
    response := Success(SearchResponse(request.q, ranked, perSource));
  }

  /** The search fails exactly when no source resolves, and then with
      "No valid sources selected"; otherwise it echoes the query, reports every
      resolved source and ranks the deduplicated collection. */
  lemma SearchOutcome(request: SearchRequest, call: (string, ProviderQuery) -> ProviderOutcome,
                      digest: string -> string, order: seq<nat>, env: Env)
    requires IsOrder(order, |ResolveSources(request.sources)|)
    ensures Search(request, call, digest, order, env).Failure? <==> ResolveSources(request.sources) == []
    ensures Search(request, call, digest, order, env).Failure? ==>
              Search(request, call, digest, order, env).error == NoSourcesError
    ensures Search(request, call, digest, order, env).Success? ==>
              var response := Search(request, call, digest, order, env).value;
              && response.q == request.q
              && (forall s :: s in response.perSource <==> s in ResolveSources(request.sources))
              && forall s :: s in response.perSource ==>
                   response.perSource[s] == Meta(s, call(s, QueryOf(request)), digest)
  {
    var sources := ResolveSources(request.sources);
    if sources != [] {
      var outcome := Outcomes(call, QueryOf(request));
      PerSourceEntries(sources, order, outcome, digest);
      PerSourceKeysOf(sources, order, outcome, digest);
    }
  }

  /** A request for an unregistered source only fails with "No valid sources
      selected" rather than succeeding with no results. */
  lemma NoValidSources(request: SearchRequest, call: (string, ProviderQuery) -> ProviderOutcome,
                       digest: string -> string, env: Env)
    requires request.sources == ["bogus"]
    ensures IsOrder([], |ResolveSources(request.sources)|)
    ensures Search(request, call, digest, [], env) == Failure(NoSourcesError)
  {
    assert ["bogus"][1..] == [];
    assert "bogus" !in Registry;
  }

  /** Two completed calls, in the order given. */
  lemma TwoCalls(sources: seq<string>, i: nat, j: nat, outcome: string -> ProviderOutcome, digest: string -> string)
    requires i < |sources| && j < |sources|
    ensures Indices([i, j], |sources|)
    ensures Collected(sources, [i, j], outcome, digest)
         == Block(sources[i], outcome(sources[i]), digest) + Block(sources[j], outcome(sources[j]), digest)
    ensures PerSource(sources, [i, j], outcome, digest)
         == map[sources[i] := Meta(sources[i], outcome(sources[i]), digest)]
              [sources[j] := Meta(sources[j], outcome(sources[j]), digest)]
  {
    assert [i, j][..1] == [i];
    assert [i][..0] == [];
    var bi := Block(sources[i], outcome(sources[i]), digest);
    assert Collected(sources, [i], outcome, digest) == [] + bi;
    assert [] + bi == bi;
    var mi := Meta(sources[i], outcome(sources[i]), digest);
    assert PerSource(sources, [], outcome, digest) == map[];
    assert PerSource(sources, [i], outcome, digest) == map[sources[i] := mi];
  }

  /** With one of two sources failing, the results are the ranked, deduplicated
      records of the other alone; the failing source reports count 0 and its error,
      the other its count. */
  lemma PartialFailure(request: SearchRequest, call: (string, ProviderQuery) -> ProviderOutcome,
                       digest: string -> string, order: seq<nat>, env: Env, rs: seq<ProviderResult>)
    requires request.sources == ["arxiv", "wikipedia"]
    requires call("arxiv", QueryOf(request)) == Threw(Some("network error"))
    requires call("wikipedia", QueryOf(request)) == Returned(rs)
    requires order == [0, 1] || order == [1, 0]
    ensures IsOrder(order, |ResolveSources(request.sources)|)
    ensures Search(request, call, digest, order, env)
         == Success(SearchResponse(
              request.q,
              Rank.RankResults(Dedupe.Dedupe(Normalize.NormalizeResults("wikipedia", rs, digest), env.parseUrl),
                               request.profile, env),
              map["arxiv" := SourceMeta(0, Some(["network error"])), "wikipedia" := SourceMeta(|rs|, None)]))
  {
    var sources := ["arxiv", "wikipedia"];
    KeepRegisteredOfRegistered(sources);
    assert ResolveSources(request.sources) == sources;
    assert IsOrder(order, 2) by {
      assert 0 in order && 1 in order;
    }
    var outcome := Outcomes(call, QueryOf(request));
    var wiki := Normalize.NormalizeResults("wikipedia", rs, digest);
    assert Block("arxiv", outcome("arxiv"), digest) == [];
    assert Block("wikipedia", outcome("wikipedia"), digest) == wiki;
    assert Meta("arxiv", outcome("arxiv"), digest) == SourceMeta(0, Some(["network error"]));
    assert Meta("wikipedia", outcome("wikipedia"), digest) == SourceMeta(|rs|, None);
    OneOfTwoFails(order, outcome, digest, wiki, SourceMeta(0, Some(["network error"])), SourceMeta(|rs|, None));
  }

  /** The fan-out over arxiv and wikipedia, in either completion order, when
      arxiv contributes no records. */
  lemma OneOfTwoFails(order: seq<nat>, outcome: string -> ProviderOutcome, digest: string -> string,
                      wiki: seq<NormalizedResult>, arxivMeta: SourceMeta, wikiMeta: SourceMeta)
    requires order == [0, 1] || order == [1, 0]
    requires Block("arxiv", outcome("arxiv"), digest) == []
    requires Block("wikipedia", outcome("wikipedia"), digest) == wiki
    requires Meta("arxiv", outcome("arxiv"), digest) == arxivMeta
    requires Meta("wikipedia", outcome("wikipedia"), digest) == wikiMeta
    ensures Indices(order, 2)
    ensures Collected(["arxiv", "wikipedia"], order, outcome, digest) == wiki
    ensures PerSource(["arxiv", "wikipedia"], order, outcome, digest) == map["arxiv" := arxivMeta, "wikipedia" := wikiMeta]
  {
    var sources := ["arxiv", "wikipedia"];
    assert sources[0] == "arxiv" && sources[1] == "wikipedia";
    TwoCalls(sources, order[0], order[1], outcome, digest);
    assert order == [order[0], order[1]];
    if order == [0, 1] {
      assert wiki == [] + wiki;
    } else {
      assert wiki == wiki + [];
      assert map["wikipedia" := wikiMeta]["arxiv" := arxivMeta] == map["arxiv" := arxivMeta, "wikipedia" := wikiMeta];
    }
  }
}
