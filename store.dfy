/** The client's search store (apps/web/src/state/store.ts): the query, the
    selected sources, the ranking profile, the last results and the search status.
    The asynchronous `runSearch` is split at its `await`: `StartSearch` runs up to
    the call, `CompleteSearch` applies the call's outcome. */
module Store {
  import opened Types
  import opened Seqs
  import opened Strings
  import Profiles
  import Client

  datatype Status = Idle | Loading | Error | Success

  /** What the awaited `search` did: answered, or threw (`Some(m)` for an `Error`
      with message `m`, `None` for any other thrown value). */
  datatype SearchOutcome = Answered(response: SearchResponse) | Failed(message: Option<string>)

  const UnknownError: string := "Ukjent feil"
  const SearchPage: int := 1
  const SearchPageSize: int := 20

  /** `Array.from(new Set(sources)).filter(Boolean)`. */
  function CleanSources(sources: seq<string>): (r: seq<string>)
    ensures forall s :: s in r <==> s in sources && s != ""
  {
    DropEmpty(Nub(sources))
  }

  lemma {:induction false} DropEmptyKeepsDistinct(xs: seq<string>)
    requires NoDuplicates(xs)
    ensures NoDuplicates(DropEmpty(xs))
  {
    if xs != [] {
      DropEmptyKeepsDistinct(xs[1..]);
      var rest := DropEmpty(xs[1..]);
      var r := DropEmpty(xs);
      if xs[0] != "" {
        assert r == [xs[0]] + rest;
        forall i, j | 0 <= i < j < |r| ensures r[i] != r[j] {
          if i == 0 {
            assert r[j] in rest;
            assert xs[0] !in xs[1..] by {
              forall k | 0 <= k < |xs[1..]| ensures xs[1..][k] != xs[0] {
                assert xs[1..][k] == xs[k + 1];
              }
            }
          } else {
            assert r[i] == rest[i - 1] && r[j] == rest[j - 1];
          }
        }
      }
    }
  }

  /** The cleaned list keeps each non-empty source once. */
  lemma CleanSourcesDistinct(sources: seq<string>)
    ensures NoDuplicates(CleanSources(sources))
  {
    DropEmptyKeepsDistinct(Nub(sources));
  }

  /** The cleaned list keeps the first-seen order of the request: an id that
      appears earlier in the cleaned list was first requested earlier. */
  lemma CleanSourcesOrder(sources: seq<string>)
    ensures forall i, j :: 0 <= i < j < |CleanSources(sources)| ==>
              FirstIndex(sources, CleanSources(sources)[i]) < FirstIndex(sources, CleanSources(sources)[j])
  {
    var n := Nub(sources);
    NubOrder(sources);
    var idx := KeptIndices(n);
    forall i, j | 0 <= i < j < |CleanSources(sources)|
      ensures FirstIndex(sources, CleanSources(sources)[i]) < FirstIndex(sources, CleanSources(sources)[j])
    {
      assert CleanSources(sources)[i] == n[idx[i]] && CleanSources(sources)[j] == n[idx[j]];
      assert idx[i] < idx[j];
    }
  }

  /** Where each string that `filter(Boolean)` keeps stood in the input: the
      kept strings are a subsequence of the input. */
  ghost function KeptIndices(xs: seq<string>): (r: seq<nat>)
    ensures IndexedBy(DropEmpty(xs), xs, r)
  {
    if xs == [] then []
    else
      var rest := KeptIndices(xs[1..]);
      if xs[0] == "" then
        IndexedByTail(DropEmpty(xs[1..]), xs, rest);
        Shift(rest)
      else
        IndexedByCons(DropEmpty(xs[1..]), xs, rest);
        [0] + Shift(rest)
  }

  /** Cleaning a list that has no repeats and no empty ids keeps it as it is. */
  lemma {:induction false} CleanSourcesOfClean(sources: seq<string>)
    requires NoDuplicates(sources)
    requires forall i :: 0 <= i < |sources| ==> sources[i] != ""
    ensures CleanSources(sources) == sources
  {
    NubOfDistinct(sources);
    DropEmptyOfNonEmpty(sources);
  }

  /** `query.trim()` is empty. */
  predicate IsBlank(query: string)
  {
    Trim(query) == []
  }

  /** The request `runSearch` sends for a query that is not blank. */
  function Request(query: string, sources: seq<string>, profile: Profile): (r: Option<SearchRequest>)
    ensures r.None? <==> IsBlank(query)
  {
    if IsBlank(query) then None else Some(Payload(query, sources, profile))
  }

  /** The request `runSearch` sends. */
  function Payload(query: string, sources: seq<string>, profile: Profile): SearchRequest
  {
    SearchRequest(Trim(query), Some(SearchPage), Some(SearchPageSize), sources, profile)
  }

  class SearchStore {
    var query: string
    var sources: seq<string>
    var profile: Profile
    var results: seq<NormalizedResult>
    var meta: Option<map<string, SourceMeta>>
    var status: Status
    var error: Option<string>

    /** The source list holds no repeats and no empty id; the error state carries a
        message, and the idle and loading states carry none. A success may still
        carry the message of an earlier failure: an answer does not clear it, and
        with two searches in flight the later answer can land after the earlier
        failure. */
    ghost predicate Valid()
      reads this
    {
      && NoDuplicates(sources)
      && (forall i :: 0 <= i < |sources| ==> sources[i] != "")
      && (status == Status.Error ==> error.Some?)
      && (status == Idle || status == Loading ==> error.None?)
    }

    /** The initial state. */
    constructor ()
      ensures Valid()
      ensures query == "" && sources == Client.DefaultSources && profile == Profiles.DefaultProfile
      ensures results == [] && meta == None && status == Idle && error == None
    {
      query := "";
      sources := Client.DefaultSources;
      profile := Profiles.DefaultProfile;
      results := [];
      meta := None;
      status := Idle;
      error := None;
    }

    method SetQuery(q: string)
      requires Valid()
      modifies this
      ensures Valid()
      ensures query == q
      ensures sources == old(sources) && profile == old(profile) && results == old(results)
      ensures meta == old(meta) && status == old(status) && error == old(error)
    {
      query := q;
    }

    /** `setSources`: the list without repeats and empty ids. */
    method SetSources(requested: seq<string>)
      requires Valid()
      modifies this
      ensures Valid()
      ensures sources == CleanSources(requested)
      ensures query == old(query) && profile == old(profile) && results == old(results)
      ensures meta == old(meta) && status == old(status) && error == old(error)
    {
      CleanSourcesDistinct(requested);
      var cleaned := CleanSources(requested);
      assert forall i :: 0 <= i < |cleaned| ==> cleaned[i] in cleaned;
      sources := cleaned;
    }

    method UpdateProfile(partial: Profiles.PartialProfile)
      requires Valid()
      modifies this
      ensures Valid()
      ensures profile == Profiles.MergeProfile(old(profile), partial)
      ensures query == old(query) && sources == old(sources) && results == old(results)
      ensures meta == old(meta) && status == old(status) && error == old(error)
    {
      profile := Profiles.MergeProfile(profile, partial);
    }

    method ResetProfile()
      requires Valid()
      modifies this
      ensures Valid()
      ensures profile == Profiles.DefaultProfile
      ensures query == old(query) && sources == old(sources) && results == old(results)
      ensures meta == old(meta) && status == old(status) && error == old(error)
    {
      profile := Profiles.DefaultProfile;
    }

    /** `runSearch` up to its `await`: nothing for a blank query; otherwise the
        loading state, no error, and the request to send. */
    method StartSearch() returns (payload: Option<SearchRequest>)
      requires Valid()
      modifies this
      ensures Valid()
      ensures payload == Request(old(query), old(sources), old(profile))
      ensures payload.None? ==> status == old(status) && error == old(error)
      ensures payload.Some? ==> status == Loading && error == None
      ensures unchanged(this`query, this`sources, this`profile, this`results, this`meta)
    {
      if IsBlank(query) {
        payload := None;
      } else {
        payload := Some(Payload(query, sources, profile));
        status := Loading;
        error := None;
      }
    }

    /** `runSearch` after its `await`, whatever the store went through meanwhile
        (another search may have started or finished): an answer replaces the
        results and the per-source report and leaves the error as it is; a failure
        keeps them and records the message. */
    method CompleteSearch(outcome: SearchOutcome)
      requires Valid()
      modifies this
      ensures Valid()
      ensures outcome.Answered? ==>
                && results == outcome.response.results
                && meta == Some(outcome.response.perSource)
                && status == Status.Success && error == old(error)
      ensures outcome.Failed? ==>
                && results == old(results) && meta == old(meta)
                && status == Status.Error && error == Some(outcome.message.GetOr(UnknownError))
      ensures query == old(query) && sources == old(sources) && profile == old(profile)
    {
      match outcome {
        case Answered(response) =>
          results := response.results;
          meta := Some(response.perSource);
          status := Status.Success;
        case Failed(message) =>
          status := Status.Error;
          error := Some(message.GetOr(UnknownError));
      }
    }

    /** The whole of `runSearch`, with `search` resolved to `answer` of the request. */
    method RunSearch(answer: SearchRequest -> SearchOutcome)
      requires Valid()
      modifies this
      ensures Valid()
      ensures IsBlank(old(query)) ==>
                results == old(results) && meta == old(meta) && status == old(status) && error == old(error)
      ensures !IsBlank(old(query)) ==>
                var outcome := answer(Payload(old(query), old(sources), old(profile)));
                && (outcome.Answered? ==> results == outcome.response.results && meta == Some(outcome.response.perSource) &&
                                          status == Status.Success && error == None)
                && (outcome.Failed? ==> results == old(results) && meta == old(meta) && status == Status.Error &&
                                        error == Some(outcome.message.GetOr(UnknownError)))
      ensures query == old(query) && sources == old(sources) && profile == old(profile)
    {
      var payload := StartSearch();
      if payload.Some? {
        CompleteSearch(answer(payload.value));
      }
    }
  }

  /** Two searches in flight: the first fails with "x" and then the second
      answers. The store ends in the success state with the second answer's
      records and still carries the first failure's message. */
  method OverlappingSearches(response: SearchResponse) returns (store: SearchStore)
    ensures store.Valid()
    ensures store.status == Status.Success && store.error == Some("x")
    ensures store.results == response.results && store.meta == Some(response.perSource)
  {
    store := new SearchStore();
    store.SetQuery("a");
    TrimOfTrimmed("a");
    var first := store.StartSearch();
    var second := store.StartSearch();
    store.CompleteSearch(Failed(Some("x")));
    store.CompleteSearch(Answered(response));
  }

  /** A request is sent only for a query with something besides white space, and
      it carries the trimmed query, page 1 and page size 20. */
  lemma PayloadShape(query: string, sources: seq<string>, profile: Profile)
    requires !IsBlank(query)
    ensures Payload(query, sources, profile).q != []
    ensures IsTrimmed(Payload(query, sources, profile).q)
    ensures Payload(query, sources, profile).page == Some(1) && Payload(query, sources, profile).pageSize == Some(20)
  {
  }
}
