# Metasearch core in Dafny

This project models the core of a small metasearch service and proves properties of that model. The service sends one query to several scholarly and encyclopedic sources (arXiv, Wikipedia, Semantic Scholar), then merges the answers into one ranked list. Each ranked record carries a list of the factors that scored it.

The model covers two sides.

- **API server:**
  - source resolution against the provider registry;
  - the concurrent fan-out with per-source accounting;
  - normalisation of provider records;
  - deduplication with a field-by-field merge;
  - factor-based scoring and the descending sort.
- **Browser client:**
  - its own copy of that pipeline, with a 32-bit string hash for record ids and a fan-out without a registry check;
  - the mock response;
  - the ranking profiles and `mergeProfile`;
  - the search store's state transitions;
  - the domain helpers;
  - the source toggle;
  - the profile form's comma lists;
  - the highlighter's term extraction and regex escaping.

Anything the code gets from outside is a parameter of the model:

- the WHATWG URL parser;
- `Date.parse` and `Date.now`;
- `Math.log1p`;
- the sha1 digest;
- `encodeURIComponent`;
- the providers' network calls.

`Promise.all` is modelled as a sequential fold. Its completion order is an arbitrary permutation `order` of the dispatch indices, given as an input.

Modules, one per file:

- `Types`: the records of `types/search.ts`.
- `Strings`: the JavaScript string routines the code relies on.
- `Seqs`: first-occurrence filtering.
- `Normalize`;
- `Dedupe`;
- `Rank`;
- `Orchestrator`;
- `Client`;
- `Profiles`;
- `Store`;
- `Domains`;
- `SourcePicker`;
- `ProfileEditor`;
- `Highlight`.

Two consequences of the code are worth stating plainly:

- **Merge score.** When a duplicate is merged, the new score is the larger of the retained score and the *winner's* score. The winner is the record with more citations. So when the incoming record has the higher score but does not win, its score is ignored (`Dedupe.MergeScore`, `Dedupe.ScoreIgnoresLosingRecord`).
- **Scoring an English arXiv paper dated today, on a host the profile boosts, with 100 citations.** Under the profile `Rank.ExampleProfile` (English preferred, `.edu` boosted, mainstream coefficient 0.2), such a paper on `cs.mit.edu` gets language 0.3, scholarly 0.25, freshness 0.2 (recency 1) and boost 0.2, which sum to 0.95. The citation weight is `min(1, log1p(100)/5) × 0.25`. Since `ln 101 ≈ 4.615`, that is about 0.231, below its 0.25 cap, so the record scores about 0.95 + 0.231 ≈ 1.18. An older paper, or one on a host the profile does not boost, scores less: freshness shrinks with age, and the boost's 0.2 is missing. `Rank.ScoringExample` leaves `log1p` abstract. It proves the score is 0.95 plus the citation weight, below 1.2 whenever `log1p(100) < 5`, and 1.2 only when `log1p(100) >= 5`.

## Model

| member | source | states |
|---|---|---|
| Strings.Trim | apps/web/src/state/store.ts:53 | `trim` leaves no white space at either end and never lengthens |
| Strings.TrimSlice | apps/web/src/state/store.ts:53 | the trimmed string is the slice of the input right after its leading white space |
| Strings.TrimRemovesSpace | apps/web/src/state/store.ts:53 | everything `trim` drops is white space |
| Strings.TrimOfTrimmed | apps/web/src/state/store.ts:59 | trimming a trimmed string changes nothing |
| Strings.Lower | apps/api/src/core/dedupe.ts:35 | `toLowerCase` keeps the length and lower-cases character by character |
| Strings.Split | apps/web/src/components/ProfileEditor.tsx:23 | `split(',')` gives at least one piece, no piece holds the separator, and joining the pieces at it gives the input back |
| Strings.SplitJoin | apps/web/src/components/ProfileEditor.tsx:19-23 | splitting the join of separator-free pieces gives the pieces back |
| Strings.SplitSpaces | apps/web/src/utils/highlight.tsx:7 | `split(/\s+/)` gives at least one piece |
| Strings.SplitSpacesNoSpace | apps/web/src/utils/highlight.tsx:7 | no piece of the white-space split holds white space |
| Strings.SplitSpacesKeepsText | apps/web/src/utils/highlight.tsx:7 | the pieces together are the input without its white space |
| Normalize.NormalizeResults | apps/api/src/core/normalize.ts:4-20 | one record per input at the same position, tagged with the source, score 0 and empty rationale, every provider field copied, id = digest of the identity key |
| Normalize.NormalizeRoundTrip | apps/api/src/core/normalize.ts:5-19 | only the provider's relevance hint is lost: each input is recovered from its normalised record |
| Normalize.RawScoreDropped | apps/api/src/core/normalize.ts:5-19 | the normalised record does not depend on the provider's `rawScore` |
| Normalize.SameKeySameId | apps/api/src/core/normalize.ts:22-25 | records with the same `doi ?? url ?? title` get the same id |
| Normalize.MakeId | apps/api/src/core/normalize.ts:22-25 | the digest of the DOI whenever one is present, even an empty one, and otherwise of the URL |
| Normalize.NormalizeAppend | apps/api/src/core/normalize.ts:4-5 | normalising a concatenation concatenates the normalised parts |
| Normalize.EmptyDoiIdentityVersusDedupeKey | apps/api/src/core/normalize.ts:23 | an empty-string DOI is still the identity key (`??`), while the dedupe key skips it (truthiness) |
| Dedupe.NormalizeUrl | apps/api/src/core/dedupe.ts:42-51 | no key exactly for the empty string; lower-cased host plus the path without trailing slashes when the URL parses, the lower-cased string otherwise |
| Dedupe.MakeKey | apps/api/src/core/dedupe.ts:34-40 | a record has no key exactly when it has no truthy DOI, no truthy URL key and an empty title |
| Dedupe.DoiKeyFirst | apps/api/src/core/dedupe.ts:35 | a truthy DOI gives `doi:` + lower(doi), whatever the URL and title |
| Dedupe.UrlKeySecond | apps/api/src/core/dedupe.ts:36-37 | without a DOI a truthy URL key gives `url:` + that key, whatever the title |
| Dedupe.TitleKeyThird | apps/api/src/core/dedupe.ts:38 | with neither a truthy DOI nor a truthy URL key, a non-empty title gives `title:` + trim(lower(title)) |
| Dedupe.KeyPrefixesDiffer | apps/api/src/core/dedupe.ts:35-38 | keys of the three kinds never collide |
| Dedupe.Winner | apps/api/src/core/dedupe.ts:16-17 | the incoming record wins exactly when it has strictly more citations (missing = 0) |
| Dedupe.Merge | apps/api/src/core/dedupe.ts:16-28 | citations become the maximum and defined; the score never drops; fill-if-missing fields keep a present value and take the winner's value when missing, as do the authors (when not a non-empty list) and the rationale (when empty); a winning incoming record gives title and URL (`\|\|` the existing ones), a non-winning one changes neither; id, source and language never change |
| Dedupe.MergeScore | apps/api/src/core/dedupe.ts:27 | merged score = max(existing, incoming) when the incoming record wins, the existing score otherwise |
| Dedupe.MergeCitationsSymmetric | apps/api/src/core/dedupe.ts:26 | the merged citation count does not depend on arrival order |
| Dedupe.MergeKeepsKey | apps/api/src/core/dedupe.ts:8-28 | merging two records with the same key keeps that key, so the retained record stays under it |
| Dedupe.ScoreIgnoresLosingRecord | apps/api/src/core/dedupe.ts:16-27 | a concrete pair where the higher incoming score is ignored because the record has fewer citations |
| Dedupe.DedupeResults | apps/api/src/core/dedupe.ts:3-32 | the loop with its key-to-index map computes the fold `Dedupe` |
| Dedupe.DedupeIsGrouped | apps/api/src/core/dedupe.ts:3-32 | deduplication equals the reference grouping: per key in first-seen order, the left-to-right merge of all records with that key |
| Dedupe.GroupedStepKeyless | apps/api/src/core/dedupe.ts:10-12 | a keyless record leaves the grouping unchanged |
| Dedupe.GroupedStepNew | apps/api/src/core/dedupe.ts:10-12 | a record with a new key is appended |
| Dedupe.GroupedStepOld | apps/api/src/core/dedupe.ts:8-28 | a record with a known key is merged into that key's record in place |
| Dedupe.DedupeKeys | apps/api/src/core/dedupe.ts:31 | one output per distinct key, in first-seen order, each carrying its key |
| Dedupe.DedupeKeysDistinct | apps/api/src/core/dedupe.ts:4-31 | output keys are pairwise distinct |
| Dedupe.KeylessDropped | apps/api/src/core/dedupe.ts:10-12 | a keyless record never reaches the output, and appending one changes nothing |
| Dedupe.DedupeOfDistinct | apps/api/src/core/dedupe.ts:3-32 | input with distinct keys on every record comes back unchanged |
| Dedupe.DedupeIdempotent | apps/api/src/core/dedupe.ts:3-32 | deduplicating twice is deduplicating once |
| Dedupe.MergeAllCitations | apps/api/src/core/dedupe.ts:26 | a merged group carries its largest citation count, defined once two records met |
| Dedupe.MergeAllFirst | apps/api/src/core/dedupe.ts:11 | a merged group keeps the first record's id, source and language |
| Dedupe.DedupeRecord | apps/api/src/core/dedupe.ts:3-32 | each retained record is the first seen for its key and has the largest citation count of its group |
| Rank.GetDomain | apps/api/src/core/rank.ts:79-85 | no domain exactly when the URL does not parse; otherwise the lower-cased hostname, as long as the hostname and with no upper-case ASCII letter |
| Rank.AnySuffix | apps/api/src/core/rank.ts:68 | true exactly when some listed suffix ends the domain |
| Rank.Matches | apps/api/src/core/rank.ts:87-90 | false for a missing or empty list, otherwise some entry is a suffix of the domain |
| Rank.ComputeRecency | apps/api/src/core/rank.ts:92-100 | never negative; 0 for a missing, empty or unparseable date; at most 1 for a date not in the future |
| Rank.FutureDateRecency | apps/api/src/core/rank.ts:96-99 | a date one 365-day year ahead gives recency 1.1 |
| Rank.CitationContributionBounds | apps/api/src/core/rank.ts:48 | the citation weight is at most 0.25, non-negative when `log1p` is, and 0 for no citations |
| Rank.Push | apps/api/src/core/rank.ts:21-22 | one push: the running score stays the sum of the rationale weights |
| Rank.LanguageSection | apps/api/src/core/rank.ts:17-29 | appends exactly the language factors, score kept equal to the weight sum |
| Rank.ContentSection | apps/api/src/core/rank.ts:31-51 | appends exactly the scholarly, freshness and citation factors |
| Rank.DomainSection | apps/api/src/core/rank.ts:53-74 | appends exactly the boost, block and mainstream factors |
| Rank.ApplyHeuristics | apps/api/src/core/rank.ts:12-77 | rationale = the firing factors in fixed order, score = their weight sum, every other field unchanged |
| Rank.Factors | apps/api/src/core/rank.ts:17-74 | each of the eight factors adds at most one entry |
| Rank.Scored | apps/api/src/core/rank.ts:12-77 | the rationale is the factors, the score their weight sum, every other field kept |
| Rank.SumWeightsAppend | apps/api/src/core/rank.ts:13-14 | the weight sum is additive over concatenation |
| Rank.FactorsOrdered | apps/api/src/core/rank.ts:17-74 | each key appears at most once, in the fixed factor order |
| Rank.FactorsMembers | apps/api/src/core/rank.ts:17-74 | the rationale holds exactly the entries of the eight factor sections |
| Rank.LanguageFactors | apps/api/src/core/rank.ts:18-29 | lang match (+0.3) iff a set language is preferred; exclusion (-0.4) iff it is excluded; both noted with the language |
| Rank.ScholarlyFires | apps/api/src/core/rank.ts:4-36 | +0.25 noted with the source, exactly for arxiv and semanticscholar |
| Rank.FreshnessFires | apps/api/src/core/rank.ts:39-44 | fires iff recency > 0, never without a parseable date, weight 0.2 × recency |
| Rank.CitationFires | apps/api/src/core/rank.ts:47-51 | fires iff the count is a number (zero included), weight ≤ 0.25, noted with the decimal count |
| Rank.DomainFactors | apps/api/src/core/rank.ts:54-65 | no domain factor for an unparseable URL; boost +0.2 and block -0.5 fire independently on a suffix match |
| Rank.MainstreamFires | apps/api/src/core/rank.ts:68-74 | fires iff the host ends in .com/.co/.tv and the coefficient is non-zero; weight -0.3 × coefficient |
| Rank.ScoreSplit | apps/api/src/core/rank.ts:67-74 | the score is the other factors' weight minus the mainstream penalty |
| Rank.MainstreamPenaltyMonotone | apps/api/src/core/rank.ts:69-72 | raising the coefficient never raises a score and strictly lowers a mainstream host's |
| Rank.ScoringExample | apps/api/src/core/rank.ts:12-77 | an English arxiv paper dated today with 100 citations on a boosted .edu host: exactly five entries in order; score 0.95 + citation weight, below 1.2 when log1p(100) < 5 and 1.2 when log1p(100) ≥ 5 |
| Rank.InsertPermutes | apps/api/src/core/rank.ts:9 | inserting adds exactly one record |
| Rank.InsertSorted | apps/api/src/core/rank.ts:9 | inserting into a descending list keeps it descending |
| Rank.InsertStable | apps/api/src/core/rank.ts:9 | among the records of any one score, the inserted one comes first and the others keep their order |
| Rank.SortByScore | apps/api/src/core/rank.ts:9 | non-increasing by score and a permutation of the input |
| Rank.SortStable | apps/api/src/core/rank.ts:9 | records with equal scores keep their input order |
| Rank.ScoredAll | apps/api/src/core/rank.ts:8 | each record is scored at its own position |
| Rank.RankResults | apps/api/src/core/rank.ts:6-10 | the scored records as a permutation, non-increasing by score, stable among equal scores |
| Rank.RankedAreScored | apps/api/src/core/rank.ts:6-10 | every ranked record is some input record with its score and rationale replaced |
| Orchestrator.KeepRegistered | apps/api/src/core/orchestrator.ts:10 | keeps exactly the requested ids that are registered |
| Orchestrator.KeepRegisteredAppend | apps/api/src/core/orchestrator.ts:10 | the filter distributes over concatenation |
| Orchestrator.KeepRegisteredOfRegistered | apps/api/src/core/orchestrator.ts:10 | a list of registered ids passes unchanged |
| Orchestrator.ResolveSources | apps/api/src/core/orchestrator.ts:8-11 | an empty request gives the whole registry; otherwise the registered requested ids; the result is always registered |
| Orchestrator.ResolveSourcesAsWritten | apps/api/src/core/orchestrator.ts:8-11 | the whole registry for an empty request, otherwise the requested ids that are truthy properties of the provider object, which lets the Object.prototype keys through |
| Orchestrator.PrototypeKeyPassesFilter | apps/api/src/core/orchestrator.ts:10 | `["constructor"]` passes the written filter but resolves to nothing under the intended one |
| Orchestrator.FanOut | apps/api/src/core/orchestrator.ts:18-43 | the loop over completions computes exactly `Collected` and `PerSource` |
| Orchestrator.PerSourceKeysOf | apps/api/src/core/orchestrator.ts:34-40 | the report has an entry for exactly the completed sources, each that source's entry |
| Orchestrator.PerSourceEntries | apps/api/src/core/orchestrator.ts:32-40 | every resolved source is reported: count of records and no errors on success, count 0 and its message on failure |
| Orchestrator.CollectedFromSuccesses | apps/api/src/core/orchestrator.ts:32-33 | every collected record comes from a source that answered, as its normalised record |
| Orchestrator.GatherPermutes | apps/api/src/core/orchestrator.ts:21-43 | gathering blocks in two permutations of the same indices gives permutations of each other |
| Orchestrator.CollectedIsGather | apps/api/src/core/orchestrator.ts:33 | the collection is the concatenation of the per-source blocks in completion order |
| Orchestrator.CompletionOrderPermutes | apps/api/src/core/orchestrator.ts:21-43 | a different completion order only permutes the collected records |
| Orchestrator.Search | apps/api/src/core/orchestrator.ts:7-56 | fails exactly when nothing resolves, with "No valid sources selected"; otherwise echoes the query with results in non-increasing score order |
| Orchestrator.RunSearch | apps/api/src/core/orchestrator.ts:7-56 | the procedure computes `Search`: failure with no resolved source, else the ranked, deduplicated collection and the report |
| Orchestrator.SearchOutcome | apps/api/src/core/orchestrator.ts:13-55 | fails iff nothing resolves, with "No valid sources selected"; otherwise echoes the query and reports exactly the resolved sources |
| Orchestrator.NoValidSources | apps/api/src/core/orchestrator.ts:13-15 | a request for only "bogus" fails |
| Orchestrator.TwoCalls | apps/api/src/core/orchestrator.ts:21-43 | two completions give both blocks in order and both report entries |
| Orchestrator.PartialFailure | apps/api/src/core/orchestrator.ts:25-40 | with arXiv failing and Wikipedia answering, the results come from Wikipedia alone; the report has count 0 with the error beside Wikipedia's count |
| Client.ToInt32 | apps/web/src/api/client.ts:408-409 | a signed 32-bit value congruent to its input modulo 2^32 |
| Client.HashFold | apps/web/src/api/client.ts:405-412 | the unsigned hash is below 2^32 |
| Client.HashStep | apps/web/src/api/client.ts:408-409 | one `imul(31, h) + code \| 0` step agrees with the unsigned fold modulo 2^32 |
| Client.SimpleHash | apps/web/src/api/client.ts:405-412 | the loop returns "h" and the hexadecimal unsigned hash |
| Client.EmptyHash | apps/web/src/api/client.ts:405-412 | "" hashes to "h0" |
| Client.HashOfA | apps/web/src/api/client.ts:405-412 | "a" hashes to "h61" |
| Client.HexRoundTrip | apps/web/src/api/client.ts:411 | reading the hexadecimal form back gives the number |
| Client.HexLength | apps/web/src/api/client.ts:411 | below 16^k at most k digits, and only 0 has a leading '0' |
| Client.HashString | apps/web/src/api/client.ts:411 | "h" and one to eight hexadecimal digits, with a leading zero only for "h0" |
| Client.HashStringShape | apps/web/src/api/client.ts:411 | ids are "h" plus 1 to 8 hex digits that encode the unsigned hash |
| Client.HashStringInjective | apps/web/src/api/client.ts:411 | two ids agree iff the unsigned hashes agree |
| Client.ClientNormalize | apps/web/src/api/client.ts:241-257 | one record per input tagged with the source and every provider field copied |
| Client.ClientIds | apps/web/src/api/client.ts:259-262 | the id is the hash of the identity key, starts with 'h', and equal keys give equal ids |
| Client.ClientSources | apps/web/src/api/client.ts:72 | the requested list as is when non-empty, the defaults otherwise |
| Client.RunProvider | apps/web/src/api/client.ts:102-113 | the known providers are fetched; any other id answers no records and no error |
| Client.DirectSearch | apps/web/src/api/client.ts:68-100 | the procedure computes the fan-out over the unfiltered list, then dedupe and rank |
| Client.DirectSearchEntries | apps/web/src/api/client.ts:74-90 | every listed source is reported: unknown ones count 0 without error, known ones as on the server |
| Client.UnregisteredSourceKept | apps/web/src/api/client.ts:72-113 | "bogus" gives empty results and a zero entry, where the server resolves it to nothing |
| Client.FanOutCongruent | apps/web/src/api/client.ts:74-90 | the fan-out only reads the outcomes of the listed sources |
| Client.DirectSearchMatchesServer | apps/web/src/api/client.ts:68-100 | on registered sources the client's direct search equals the server's search with the client hash as the digest |
| Client.MockSource | apps/web/src/api/client.ts:425 | "mock" or one of the requested sources |
| Client.MockResult | apps/web/src/api/client.ts:417-439 | the idx-th record takes the round-robin source, a non-empty language, 10 × idx citations and score (10 − idx) × 0.1 plus the mainstream penalty |
| Client.MockSearch | apps/web/src/api/client.ts:414-456 | echoes the query with six records and a report keyed by exactly the requested sources |
| Client.MockShape | apps/web/src/api/client.ts:414-456 | six records, sources round-robin, strictly decreasing scores, every requested source and only those counts 2 |
| Client.MockScoreNotWhySum | apps/web/src/api/client.ts:416-440 | the first mock record scores 1.0 against rationale weights summing to 0.6 |
| Types.Coalesce | apps/web/src/state/profiles.ts:53-54 | `a ?? b` on optional values: `a` when present, `b` otherwise |
| Profiles.MergeProfile | apps/web/src/state/profiles.ts:46-57 | every present partial field overrides; the domain object is always present, each list from the partial when given |
| Profiles.MergeEmpty | apps/web/src/state/profiles.ts:46-57 | merging nothing keeps the base, only a missing domain becomes an empty one |
| Profiles.MergeIdempotent | apps/web/src/state/profiles.ts:46-57 | merging the same partial twice is merging it once |
| Profiles.MergeFull | apps/web/src/state/profiles.ts:46-57 | a partial setting every field replaces the base |
| Profiles.DefaultProfileValues | apps/web/src/state/profiles.ts:11-44 | the default profile's exact values |
| Profiles.PresetsWellFormed | apps/web/src/state/profiles.ts:10-42 | penalties lie in [0, 1] and preset ids are distinct |
| Profiles.DefaultAfterNordic | apps/web/src/state/profiles.ts:46-57 | choosing "default" after "nordic" keeps nordic's exclusions and block list |
| Store.CleanSources | apps/web/src/state/store.ts:41 | keeps exactly the non-empty requested ids |
| Store.CleanSourcesOrder | apps/web/src/state/store.ts:41 | the kept ids are in the order of their first occurrence in the request |
| Store.CleanSourcesDistinct | apps/web/src/state/store.ts:41 | the cleaned list has no repeats |
| Store.CleanSourcesOfClean | apps/web/src/state/store.ts:41 | a list with no repeats and no empty id is kept as is |
| Store.Request | apps/web/src/state/store.ts:53-64 | no request exactly for a blank query |
| Store.PayloadShape | apps/web/src/state/store.ts:58-64 | the request carries a non-empty trimmed query, page 1 and page size 20 |
| Store.SearchStore.constructor | apps/web/src/state/store.ts:29-35 | the initial state |
| Store.SearchStore.SetQuery | apps/web/src/state/store.ts:37 | sets the query, nothing else |
| Store.SearchStore.SetSources | apps/web/src/state/store.ts:39-42 | sets the cleaned list, nothing else; the list stays free of repeats and empty ids |
| Store.SearchStore.UpdateProfile | apps/web/src/state/store.ts:44-47 | the profile becomes the merge, nothing else |
| Store.SearchStore.ResetProfile | apps/web/src/state/store.ts:49 | the profile becomes the default, nothing else |
| Store.SearchStore.StartSearch | apps/web/src/state/store.ts:52-64 | a blank query changes nothing; otherwise loading, no error, and the request to send |
| Store.SearchStore.CompleteSearch | apps/web/src/state/store.ts:66-77 | in any valid state, also while an earlier search is pending or done: an answer sets results, report and success and leaves the error message as it was; a failure keeps them and records the message or "Ukjent feil" |
| Store.SearchStore.RunSearch | apps/web/src/state/store.ts:51-78 | the whole transition for the outcome of the request from any valid state; the error state always has a message, idle and loading never do |
| Store.OverlappingSearches | apps/web/src/state/store.ts:51-78 | two overlapping searches whose first fails after the second started and whose second then answers end in success still carrying the first one's message |
| Domains.IsMainstream | apps/web/src/utils/domainRules.ts:1-5 | true iff the whole string ends with .com, .co or .tv |
| Domains.MainstreamTestsWholeString | apps/web/src/utils/domainRules.ts:3-5 | a .com host with a path is not mainstream; a bare ".tv" string is |
| Domains.MatchesBoost | apps/web/src/utils/domainRules.ts:16-19 | false for a missing or empty list, otherwise some entry ends the domain |
| Domains.MatchesBlock | apps/web/src/utils/domainRules.ts:21-24 | same test for the block list |
| Domains.BoostBlockAgree | apps/web/src/utils/domainRules.ts:16-24 | the two list tests agree on every input |
| Domains.BoostMonotone | apps/web/src/utils/domainRules.ts:16-19 | a larger list matches whatever a smaller one matches |
| Domains.StripWww | apps/web/src/utils/domainRules.ts:10 | drops one leading "www." and nothing else |
| Domains.NormalizeDomain | apps/web/src/utils/domainRules.ts:7-14 | the hostname without one "www." when the URL parses, the input otherwise |
| Domains.StripWwwOnce | apps/web/src/utils/domainRules.ts:10 | at most four characters go, the rest is a suffix, and "www.www." keeps its second one |
| SourcePicker.Without | apps/web/src/components/SourcePicker.tsx:11 | removes every occurrence of the id and keeps every other id |
| SourcePicker.Toggle | apps/web/src/components/SourcePicker.tsx:8-15 | toggling flips the id's membership and keeps every other id's |
| SourcePicker.ToggleKeepsOthers | apps/web/src/components/SourcePicker.tsx:8-15 | with the toggled id removed, the list is the same before and after |
| SourcePicker.ToggleShape | apps/web/src/components/SourcePicker.tsx:9-13 | a selected id is filtered out (shorter list); an unselected one is appended |
| SourcePicker.ToggleTwice | apps/web/src/components/SourcePicker.tsx:8-15 | toggling an unselected id twice gives the list back |
| SourcePicker.WithoutTwice | apps/web/src/components/SourcePicker.tsx:11 | filtering twice is filtering once |
| ProfileEditor.ParseList | apps/web/src/components/ProfileEditor.tsx:22-25 | at most one entry per comma-separated piece, none empty; an empty field gives no entries |
| ProfileEditor.FormatList | apps/web/src/components/ProfileEditor.tsx:19 | `join(', ')` is the first entry and each later one after a blank, joined at bare commas |
| ProfileEditor.ParsedEntriesClean | apps/web/src/components/ProfileEditor.tsx:22-25 | every parsed entry is non-empty, trimmed and comma-free |
| ProfileEditor.ParseAtComma | apps/web/src/components/ProfileEditor.tsx:22-25 | the entries before a comma come before those after it |
| ProfileEditor.ParseAfterBlank | apps/web/src/components/ProfileEditor.tsx:22-25 | a leading blank does not change the parse |
| ProfileEditor.ParseClean | apps/web/src/components/ProfileEditor.tsx:22-25 | a clean entry parses to itself alone |
| ProfileEditor.ParseFormat | apps/web/src/components/ProfileEditor.tsx:19-25 | parsing the shown `join(', ')` of clean entries gives the list back |
| ProfileEditor.EditBoost | apps/web/src/components/ProfileEditor.tsx:52-58 | merged into the profile, the edit replaces the boost list and keeps the block list and every other field |
| ProfileEditor.EditBlock | apps/web/src/components/ProfileEditor.tsx:70-76 | merged into the profile, the edit replaces the block list and keeps the boost list and every other field |
| ProfileEditor.ResubmitKeepsProfile | apps/web/src/components/ProfileEditor.tsx:19-58 | resubmitting a field's shown text leaves a clean profile unchanged |
| ProfileEditor.ChoosePreset | apps/web/src/components/ProfileEditor.tsx:83-88 | a known preset id sends that preset's profile; an unknown id sends nothing |
| Highlight.EscapeRegex | apps/web/src/utils/highlight.tsx:30-32 | never shorter; empty exactly for the empty term |
| Highlight.UnescapeEscape | apps/web/src/utils/highlight.tsx:31 | deleting the inserted backslashes gives the term back |
| Highlight.EscapeIsEscaped | apps/web/src/utils/highlight.tsx:31 | the escape leaves no special character unescaped |
| Highlight.EscapeUnescape | apps/web/src/utils/highlight.tsx:31 | every fully escaped string is the escape of its unescaping |
| Highlight.EscapeAppend | apps/web/src/utils/highlight.tsx:31 | escaping works character by character |
| Highlight.EscapePlain | apps/web/src/utils/highlight.tsx:31 | a term is its own escape iff it has no special character |
| Highlight.Terms | apps/web/src/utils/highlight.tsx:6-9 | no term is empty |
| Highlight.TermsAreWords | apps/web/src/utils/highlight.tsx:6-9 | each term is non-empty and free of white space |
| Highlight.TermsKeepText | apps/web/src/utils/highlight.tsx:6-9 | the terms together are the query's non-space characters, in order |
| Highlight.NoTermsIffBlank | apps/web/src/utils/highlight.tsx:6-11 | no terms exactly when the query is all white space |
| Highlight.Pattern | apps/web/src/utils/highlight.tsx:13 | the expression source is parenthesised |
| Highlight.EscapeAll | apps/web/src/utils/highlight.tsx:13 | each alternative is its term's escape |
| Highlight.Highlight | apps/web/src/utils/highlight.tsx:3-13 | the text is always passed through as it is |
| Highlight.HighlightGuards | apps/web/src/utils/highlight.tsx:3-13 | the text is returned unchanged iff it is empty or the query has no terms; otherwise the pattern alternates the escaped terms |
| Highlight.AlternativesAreLiteral | apps/web/src/utils/highlight.tsx:13-32 | each alternative is fully escaped and unescapes to its term |
| Highlight.EscapeDotExample | apps/web/src/utils/highlight.tsx:31 | "a.b" escapes to `a\.b` |
| Highlight.EscapeParenExample | apps/web/src/utils/highlight.tsx:31 | "(x)" escapes to `\(x\)` |
| Highlight.BlankQueryExample | apps/web/src/utils/highlight.tsx:11 | a query of blanks leaves the text unchanged |

## Left out

- Provider clients (arXiv, Wikipedia, Semantic Scholar, server and client copies): HTTP and JSON/XML parsing of third-party formats. Each provider call is an outcome parameter, either a list of records or a thrown message.
- `search` and `backendSearch` in `apps/web/src/api/client.ts`: the fallback chain driven by environment flags and network calls. The store receives the search outcome as a parameter.
- Express server, route and configuration: HTTP wiring and environment reads.
- Concurrency of `Promise.all`: modelled as a sequential fold over an arbitrary completion order (`order`). Duplicate ids in the request are dispatched twice, but the model gives both calls the same outcome (the call is a function of the id and the query).
- Timing (`tookMs`, `Date.now()` per provider): wall-clock only. `Rank` reads one `now` for a whole ranking, where the code calls `Date.now()` once per record.
- IEEE-754 arithmetic: scores and weights are reals; `Math.log1p`, `Date.parse` and `Date.now` are parameters.
- Rank.ComputeRecency: the bound `recency <= 1` is proved only for dates not after `now`, because the formula as written exceeds 1 for future dates (`Rank.FutureDateRecency`).
- Rank.CitationContributionBounds: the lower bound is proved only when `log1p` of the count is non-negative, because `log1p` is abstract.
- `Math.random` in the client's `makeId`: unreachable because `url` is always a string, so the model leaves it out.
- `charCodeAt` on characters outside the Basic Multilingual Plane: the model hashes one code per Dafny `char`, where JavaScript would hash two UTF-16 code units.
- `toLowerCase` is modelled on ASCII letters only. `trim` and `\s` use JavaScript's white-space set.
- Object-record quirks of `perSource`: a source named `__proto__` would not become an own key in JavaScript, while the model's map keeps it.
- `Partial<Profile>` keys that are present but hold `undefined`: the model treats a key as either present with a value or absent.
- The mock response's `why` entries are fixed constants, and its score is not their sum (`Client.MockScoreNotWhySum`).
- In-place aliasing in `dedupeResults`: the retained record is replaced by its merge in a sequence. The caller cannot observe the difference.
- React rendering, including `highlight`'s `text.split(pattern)` and the `mark` test on each part: these depend on the JavaScript regular-expression engine. The model stops at the pattern source; the case-insensitive flag is not modelled.
- Zustand mechanics: only the store's field transitions are modelled. They run as methods on a class in one thread, and `runSearch` is split at its `await`.

## Findings

| source | as written | input that shows it | evidently intended | confidence | as-written member | corrected member |
|---|---|---|---|---|---|---|
| apps/api/src/core/orchestrator.ts:10 | `request.sources.filter((s) => providers[s])` tests the property on a plain object, so inherited `Object.prototype` names are truthy | `sources: ["constructor"]` passes the filter; `providers["constructor"]` is `Object`, whose missing `search` method makes the call fail, so the search succeeds with an error entry for "constructor" | keep only ids registered in the provider table, so that `["constructor"]` resolves to nothing and fails with "No valid sources selected" | not executed | Orchestrator.ResolveSourcesAsWritten (shown by Orchestrator.PrototypeKeyPassesFilter) | Orchestrator.ResolveSources |
