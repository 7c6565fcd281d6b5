/** Factor-based scoring and the descending sort (apps/api/src/core/rank.ts).
    Every factor that fires adds one rationale entry; the record's score is the sum
    of their weights. `Math.log1p`, `Date.parse`, `Date.now()` and the URL parser
    come from the environment `Env`. */
module Rank {
  import opened Types
  import opened Strings

  const MainstreamSuffixes: seq<string> := [".com", ".co", ".tv"]
  const ScholarlySources: set<string> := {"arxiv", "semanticscholar"}
  const MillisPerDay: real := 86400000.0

  /** `getDomain`: the lower-cased hostname, or `None` when the URL does not parse. */
  function GetDomain(url: string, parse: UrlParser): (d: Option<string>)
    ensures d.None? <==> parse(url).None?
    ensures d.Some? ==> d.value == Lower(parse(url).value.hostname)
    ensures d.Some? ==> |d.value| == |parse(url).value.hostname|
    ensures d.Some? ==> forall i :: 0 <= i < |d.value| ==> !('A' <= d.value[i] <= 'Z')
  {
    match parse(url)
    case Some(u) => Some(Lower(u.hostname))
    case None => None
  }

  /** `suffixes.some((s) => domain.endsWith(s))`. */
  function AnySuffix(domain: string, suffixes: seq<string>): (b: bool)
    ensures b <==> exists i :: 0 <= i < |suffixes| && EndsWith(domain, suffixes[i])
  {
    if suffixes == [] then false
    else EndsWith(domain, suffixes[0]) || AnySuffix(domain, suffixes[1..])
  }

  /** `matches`: false for a missing or empty list, otherwise whether some entry is a
      suffix of the domain. */
  function Matches(domain: string, list: Option<seq<string>>): (b: bool)
    ensures b <==> list.Some? && exists i :: 0 <= i < |list.value| && EndsWith(domain, list.value[i])
  {
    list.Some? && list.value != [] && AnySuffix(domain, list.value)
  }

  /** `computeRecency`: 0 for a missing, empty or unparseable date; otherwise one
      minus the age in tenths of 365-day years, floored at 0. */
  function ComputeRecency(date: Option<string>, env: Env): (recency: real)
    ensures recency >= 0.0
    ensures !Truthy(date) || env.parseDate(date.value).None? ==> recency == 0.0
    ensures (Truthy(date) && env.parseDate(date.value).Some? && env.parseDate(date.value).value <= env.now)
              ==> recency <= 1.0
  {
    if !Truthy(date) then 0.0
    else
      match env.parseDate(date.value)
      case None => 0.0
      case Some(ts) =>
        var days := (env.now - ts) / MillisPerDay;
        var years := days / 365.0;
        var recency := 1.0 - MinReal(1.0, years / 10.0);
        MaxReal(0.0, recency)
  }

  /** A date one 365-day year after `now` gives a recency above 1: the formula as
      written has no upper clamp for dates in the future. */
  lemma FutureDateRecency(env: Env, date: string)
    requires env.parseDate(date) == Some(env.now + 365.0 * MillisPerDay)
    requires date != ""
    ensures ComputeRecency(Some(date), env) == 1.1
  {
  }

  function CitationContribution(citations: int, log1p: real -> real): real
  {
    MinReal(1.0, log1p(citations as real) / 5.0) * 0.25
  }

  /** The citation weight is at most 0.25, not negative when `log1p` is not, and 0
      for no citations. */
  lemma CitationContributionBounds(citations: int, log1p: real -> real)
    ensures CitationContribution(citations, log1p) <= 0.25
    ensures log1p(citations as real) >= 0.0 ==> CitationContribution(citations, log1p) >= 0.0
    ensures citations == 0 && log1p(0.0) == 0.0 ==> CitationContribution(citations, log1p) == 0.0
  {
  }

  function BoostList(profile: Profile): Option<seq<string>>
  {
    if profile.domain.Some? then profile.domain.value.boost else None
  }

  function BlockList(profile: Profile): Option<seq<string>>
  {
    if profile.domain.Some? then profile.domain.value.block else None
  }

  /** `profile.mainstreamPenalty ?? 0`. */
  function PenaltyCoefficient(profile: Profile): real
  {
    profile.mainstreamPenalty.GetOr(0.0)
  }

  // The eight factors of rank.ts lines 18-74, each an empty list or one entry.

  function LangMatchFactor(r: NormalizedResult, profile: Profile): seq<WhyEntry>
  {
    if Truthy(r.lang) && r.lang.value in profile.preferredLangs
    then [WhyEntry(LangMatch, 0.3, r.lang)] else []
  }

  function LangExcludedFactor(r: NormalizedResult, profile: Profile): seq<WhyEntry>
  {
    if Truthy(r.lang) && profile.excludeLangs.Some? && r.lang.value in profile.excludeLangs.value
    then [WhyEntry(LangExcluded, -0.4, r.lang)] else []
  }

  function ScholarlyFactor(r: NormalizedResult): seq<WhyEntry>
  {
    if r.source in ScholarlySources then [WhyEntry(Scholarly, 0.25, Some(r.source))] else []
  }

  function FreshnessFactor(r: NormalizedResult, env: Env): seq<WhyEntry>
  {
    var recency := ComputeRecency(r.date, env);
    if recency > 0.0 then [WhyEntry(Freshness, 0.2 * recency, r.date)] else []
  }

  function CitationFactor(r: NormalizedResult, env: Env): seq<WhyEntry>
  {
    if r.citations.Some?
    then [WhyEntry(CitationWeight, CitationContribution(r.citations.value, env.log1p),
                   Some(DecimalString(r.citations.value)))]
    else []
  }

  function DomainBoostFactor(r: NormalizedResult, profile: Profile, env: Env): seq<WhyEntry>
  {
    var domain := GetDomain(r.url, env.parseUrl);
    if Truthy(domain) && Matches(domain.value, BoostList(profile))
    then [WhyEntry(DomainBoost, 0.2, domain)] else []
  }

  function DomainBlockFactor(r: NormalizedResult, profile: Profile, env: Env): seq<WhyEntry>
  {
    var domain := GetDomain(r.url, env.parseUrl);
    if Truthy(domain) && Matches(domain.value, BlockList(profile))
    then [WhyEntry(DomainBlock, -0.5, domain)] else []
  }

  /** True for a non-empty hostname ending in `.com`, `.co` or `.tv`. */
  predicate IsMainstreamHost(r: NormalizedResult, env: Env)
  {
    var domain := GetDomain(r.url, env.parseUrl);
    Truthy(domain) && AnySuffix(domain.value, MainstreamSuffixes)
  }

  function MainstreamFactor(r: NormalizedResult, profile: Profile, env: Env): seq<WhyEntry>
  {
    var penalty := PenaltyCoefficient(profile) * 0.3;
    if IsMainstreamHost(r, env) && penalty != 0.0
    then [WhyEntry(MainstreamPenalty, -penalty, GetDomain(r.url, env.parseUrl))] else []
  }

  /** The rationale list of a record, in the fixed order of the factors: each of
      the eight factors adds at most one entry. */
  function Factors(r: NormalizedResult, profile: Profile, env: Env): (why: seq<WhyEntry>)
    ensures |why| <= 8
  {
    FactorSections(r, profile, env);
    LangMatchFactor(r, profile) + LangExcludedFactor(r, profile) + ScholarlyFactor(r)
    + FreshnessFactor(r, env) + CitationFactor(r, env) + DomainBoostFactor(r, profile, env)
    + DomainBlockFactor(r, profile, env) + MainstreamFactor(r, profile, env)
  }

  function SumWeights(why: seq<WhyEntry>): real
  {
    if why == [] then 0.0 else why[0].weight + SumWeights(why[1..])
  }

  lemma {:induction false} SumWeightsAppend(a: seq<WhyEntry>, b: seq<WhyEntry>)
    ensures SumWeights(a + b) == SumWeights(a) + SumWeights(b)
  {
    if a == [] {
      assert a + b == b;
    } else {
      assert (a + b)[1..] == a[1..] + b;
      SumWeightsAppend(a[1..], b);
    }
  }

  /** `applyHeuristics` as a value: the record with its score and rationale replaced;
      the rationale holds the factors, the score is the sum of their weights, and
      every other field is kept. */
  function Scored(r: NormalizedResult, profile: Profile, env: Env): (s: NormalizedResult)
    ensures s.why == Factors(r, profile, env)
    ensures s.score == SumWeights(s.why)
    ensures s.(score := r.score, why := r.why) == r
  {
    var why := Factors(r, profile, env);
    r.(score := SumWeights(why), why := why)
  }

  /** `score += weight; why.push(entry)`: the running score stays the sum of the
      rationale's weights. */
  method Push(score: real, why: seq<WhyEntry>, e: WhyEntry) returns (score': real, why': seq<WhyEntry>)
    requires score == SumWeights(why)
    ensures why' == why + [e]
    ensures score' == SumWeights(why')
  {
    SumWeightsAppend(why, [e]);
    score' := score + e.weight;
    why' := why + [e];
  }

  /** rank.ts lines 17-29: language preference and exclusion. */
  method LanguageSection(result: NormalizedResult, profile: Profile, score: real, why: seq<WhyEntry>)
    returns (score': real, why': seq<WhyEntry>)
    requires score == SumWeights(why)
    ensures why' == why + LangMatchFactor(result, profile) + LangExcludedFactor(result, profile)
    ensures score' == SumWeights(why')
  {
    score', why' := score, why;
    if Truthy(result.lang) {
      if result.lang.value in profile.preferredLangs {
        var weight := 0.3;
        score', why' := Push(score', why', WhyEntry(LangMatch, weight, result.lang));
      }
      if profile.excludeLangs.Some? && result.lang.value in profile.excludeLangs.value {
        var weight := -0.4;
        score', why' := Push(score', why', WhyEntry(LangExcluded, weight, result.lang));
      }
    }
  }

  /** rank.ts lines 31-51: scholarly source, recency and citations. */
  method ContentSection(result: NormalizedResult, env: Env, score: real, why: seq<WhyEntry>)
    returns (score': real, why': seq<WhyEntry>)
    requires score == SumWeights(why)
    ensures why' == why + ScholarlyFactor(result) + FreshnessFactor(result, env) + CitationFactor(result, env)
    ensures score' == SumWeights(why')
  {
    score', why' := score, why;
    if result.source in ScholarlySources {
      var weight := 0.25;
      score', why' := Push(score', why', WhyEntry(Scholarly, weight, Some(result.source)));
    }
    ghost var w1 := why';
    var recency := ComputeRecency(result.date, env);
    if recency > 0.0 {
      var weight := 0.2 * recency;
      score', why' := Push(score', why', WhyEntry(Freshness, weight, result.date));
    }
    ghost var w2 := why';
    if result.citations.Some? {
      var contrib := CitationContribution(result.citations.value, env.log1p);
      score', why' := Push(score', why', WhyEntry(CitationWeight, contrib, Some(DecimalString(result.citations.value))));
    }
    assert w1 == why + ScholarlyFactor(result);
    assert w2 == w1 + FreshnessFactor(result, env);
    assert why' == w2 + CitationFactor(result, env);
  }

  /** rank.ts lines 53-74: domain boost, domain block and the mainstream penalty. */
  method DomainSection(result: NormalizedResult, profile: Profile, env: Env, domain: Option<string>,
                       score: real, why: seq<WhyEntry>)
    returns (score': real, why': seq<WhyEntry>)
    requires domain == GetDomain(result.url, env.parseUrl)
    requires score == SumWeights(why)
    ensures why' == why + DomainBoostFactor(result, profile, env) + DomainBlockFactor(result, profile, env)
                    + MainstreamFactor(result, profile, env)
    ensures score' == SumWeights(why')
  {
    score', why' := score, why;
    if Truthy(domain) {
      if Matches(domain.value, BoostList(profile)) {
        var weight := 0.2;
        score', why' := Push(score', why', WhyEntry(DomainBoost, weight, domain));
      }
      ghost var w1 := why';
      if Matches(domain.value, BlockList(profile)) {
        var weight := -0.5;
        score', why' := Push(score', why', WhyEntry(DomainBlock, weight, domain));
      }
      assert w1 == why + DomainBoostFactor(result, profile, env);
    }
    ghost var w2 := why';
    if Truthy(domain) && AnySuffix(domain.value, MainstreamSuffixes) {
      var penalty := PenaltyCoefficient(profile) * 0.3;
      if penalty != 0.0 {
        score', why' := Push(score', why', WhyEntry(MainstreamPenalty, -penalty, domain));
      }
    }
    assert why' == w2 + MainstreamFactor(result, profile, env);
  }

  /** `applyHeuristics`: the record with its score replaced by the sum of the weights
      of the factors that fire and its rationale by those factors, in order. */
  method ApplyHeuristics(result: NormalizedResult, profile: Profile, env: Env) returns (r: NormalizedResult)
    ensures r.why == Factors(result, profile, env)
    ensures r.score == SumWeights(r.why)
    ensures r == result.(score := r.score, why := r.why)
  {
    var score := 0.0;
    var why: seq<WhyEntry> := [];
    var domain := GetDomain(result.url, env.parseUrl);
    score, why := LanguageSection(result, profile, score, why);
    assert [] + LangMatchFactor(result, profile) == LangMatchFactor(result, profile);
    score, why := ContentSection(result, env, score, why);
    score, why := DomainSection(result, profile, env, domain, score, why);
    r := result.(score := score, why := why);
  }

  // ----- What the rationale list says -----

  /** Whether some entry of the rationale carries key `k`. */
  predicate HasKey(why: seq<WhyEntry>, k: WhyKey)
  {
    exists e :: e in why && e.key == k
  }

  /** Keys appear in strictly increasing factor order. */
  predicate KeysIncreasing(why: seq<WhyEntry>)
  {
    forall i, j :: 0 <= i < j < |why| ==> why[i].key.Rank() < why[j].key.Rank()
  }

  predicate RanksBelow(why: seq<WhyEntry>, k: nat)
  {
    forall i :: 0 <= i < |why| ==> why[i].key.Rank() < k
  }

  /** A factor section contributes at most one entry, and only with its own key. */
  predicate Section(f: seq<WhyEntry>, k: WhyKey)
  {
    |f| <= 1 && forall e :: e in f ==> e.key == k
  }

  lemma Extend(why: seq<WhyEntry>, f: seq<WhyEntry>, k: WhyKey)
    requires KeysIncreasing(why) && RanksBelow(why, k.Rank())
    requires Section(f, k)
    ensures KeysIncreasing(why + f) && RanksBelow(why + f, k.Rank() + 1)
  {
    if |f| == 1 {
      assert f[0] in f;
      forall i | 0 <= i < |why| ensures (why + f)[i] == why[i] { }
    }
  }

  /** Eight sections with the keys in factor order concatenate to a list whose keys
      strictly increase and whose entries with a given key come from its section. */
  lemma Sections(a: seq<WhyEntry>, b: seq<WhyEntry>, c: seq<WhyEntry>, d: seq<WhyEntry>,
                 e: seq<WhyEntry>, f: seq<WhyEntry>, g: seq<WhyEntry>, h: seq<WhyEntry>)
    requires Section(a, LangMatch) && Section(b, LangExcluded) && Section(c, Scholarly)
    requires Section(d, Freshness) && Section(e, CitationWeight) && Section(f, DomainBoost)
    requires Section(g, DomainBlock) && Section(h, MainstreamPenalty)
    ensures KeysIncreasing(a + b + c + d + e + f + g + h)
    ensures forall x :: x in a + b + c + d + e + f + g + h <==>
              x in a || x in b || x in c || x in d || x in e || x in f || x in g || x in h
  {
    var w0: seq<WhyEntry> := [];
    assert w0 + a == a;
    Extend(w0, a, LangMatch);
    Extend(a, b, LangExcluded);
    Extend(a + b, c, Scholarly);
    Extend(a + b + c, d, Freshness);
    Extend(a + b + c + d, e, CitationWeight);
    Extend(a + b + c + d + e, f, DomainBoost);
    Extend(a + b + c + d + e + f, g, DomainBlock);
    Extend(a + b + c + d + e + f + g, h, MainstreamPenalty);
  }

  lemma FactorSections(r: NormalizedResult, profile: Profile, env: Env)
    ensures Section(LangMatchFactor(r, profile), LangMatch)
    ensures Section(LangExcludedFactor(r, profile), LangExcluded)
    ensures Section(ScholarlyFactor(r), Scholarly)
    ensures Section(FreshnessFactor(r, env), Freshness)
    ensures Section(CitationFactor(r, env), CitationWeight)
    ensures Section(DomainBoostFactor(r, profile, env), DomainBoost)
    ensures Section(DomainBlockFactor(r, profile, env), DomainBlock)
    ensures Section(MainstreamFactor(r, profile, env), MainstreamPenalty)
  {
  }

  /** Each key appears at most once, and in the fixed order lang_match,
      lang_excluded, scholarly, freshness, citations, domain_boost, domain_block,
      mainstream_penalty. */
  lemma FactorsOrdered(r: NormalizedResult, profile: Profile, env: Env)
    ensures KeysIncreasing(Factors(r, profile, env))
    ensures forall i, j :: 0 <= i < j < |Factors(r, profile, env)| ==>
              Factors(r, profile, env)[i].key != Factors(r, profile, env)[j].key
  {
    FactorSections(r, profile, env);
    Sections(LangMatchFactor(r, profile), LangExcludedFactor(r, profile), ScholarlyFactor(r),
             FreshnessFactor(r, env), CitationFactor(r, env), DomainBoostFactor(r, profile, env),
             DomainBlockFactor(r, profile, env), MainstreamFactor(r, profile, env));
  }

  /** The entries of the rationale are those of its sections. */
  lemma FactorsMembers(r: NormalizedResult, profile: Profile, env: Env)
    ensures forall x :: x in Factors(r, profile, env) <==>
              x in LangMatchFactor(r, profile) || x in LangExcludedFactor(r, profile) || x in ScholarlyFactor(r)
              || x in FreshnessFactor(r, env) || x in CitationFactor(r, env) || x in DomainBoostFactor(r, profile, env)
              || x in DomainBlockFactor(r, profile, env) || x in MainstreamFactor(r, profile, env)
  {
    FactorSections(r, profile, env);
    Sections(LangMatchFactor(r, profile), LangExcludedFactor(r, profile), ScholarlyFactor(r),
             FreshnessFactor(r, env), CitationFactor(r, env), DomainBoostFactor(r, profile, env),
             DomainBlockFactor(r, profile, env), MainstreamFactor(r, profile, env));
  }

  /** The language factors need a set language; a preferred match weighs +0.3 and an
      exclusion -0.4, and the two fire independently. */
  lemma LanguageFactors(r: NormalizedResult, profile: Profile, env: Env)
    ensures HasKey(Factors(r, profile, env), LangMatch) <==>
              Truthy(r.lang) && r.lang.value in profile.preferredLangs
    ensures HasKey(Factors(r, profile, env), LangExcluded) <==>
              Truthy(r.lang) && profile.excludeLangs.Some? && r.lang.value in profile.excludeLangs.value
    ensures forall e :: e in Factors(r, profile, env) && e.key == LangMatch ==> e.weight == 0.3 && e.note == r.lang
    ensures forall e :: e in Factors(r, profile, env) && e.key == LangExcluded ==> e.weight == -0.4 && e.note == r.lang
  {
    FactorsMembers(r, profile, env);
    FactorSections(r, profile, env);
    if LangMatchFactor(r, profile) != [] {
      assert LangMatchFactor(r, profile)[0] in LangMatchFactor(r, profile);
    }
    if LangExcludedFactor(r, profile) != [] {
      assert LangExcludedFactor(r, profile)[0] in LangExcludedFactor(r, profile);
    }
  }

  /** The scholarly factor (+0.25, noted with the source) fires exactly for arxiv and
      semanticscholar. */
  lemma ScholarlyFires(r: NormalizedResult, profile: Profile, env: Env)
    ensures HasKey(Factors(r, profile, env), Scholarly) <==> r.source in ScholarlySources
    ensures forall e :: e in Factors(r, profile, env) && e.key == Scholarly ==>
              e.weight == 0.25 && e.note == Some(r.source)
  {
    FactorsMembers(r, profile, env);
    FactorSections(r, profile, env);
    assert HasKey(Factors(r, profile, env), Scholarly) <==> r.source in ScholarlySources by {
      if ScholarlyFactor(r) != [] {
        assert ScholarlyFactor(r)[0] in ScholarlyFactor(r);
      }
    }
  }

  /** Freshness fires exactly when the recency is positive, never for a missing or
      unparseable date, and weighs 0.2 times the recency. */
  lemma FreshnessFires(r: NormalizedResult, profile: Profile, env: Env)
    ensures HasKey(Factors(r, profile, env), Freshness) <==> ComputeRecency(r.date, env) > 0.0
    ensures !Truthy(r.date) || env.parseDate(r.date.value).None? ==> !HasKey(Factors(r, profile, env), Freshness)
    ensures forall e :: e in Factors(r, profile, env) && e.key == Freshness ==>
              e.weight == 0.2 * ComputeRecency(r.date, env) && e.weight > 0.0 && e.note == r.date
  {
    FactorsMembers(r, profile, env);
    FactorSections(r, profile, env);
    if FreshnessFactor(r, env) != [] {
      assert FreshnessFactor(r, env)[0] in FreshnessFactor(r, env);
    }
  }

  /** A citations entry is present whenever the count is a number, zero included;
      its weight is at most 0.25, and 0 for a zero count. */
  lemma CitationFires(r: NormalizedResult, profile: Profile, env: Env)
    ensures HasKey(Factors(r, profile, env), CitationWeight) <==> r.citations.Some?
    ensures forall e :: e in Factors(r, profile, env) && e.key == CitationWeight ==>
              e.weight <= 0.25 && e.note == Some(DecimalString(r.citations.value))
    ensures r.citations == Some(0) && env.log1p(0.0) == 0.0 ==>
              forall e :: e in Factors(r, profile, env) && e.key == CitationWeight ==> e.weight == 0.0
  {
    FactorsMembers(r, profile, env);
    FactorSections(r, profile, env);
    if r.citations.Some? {
      assert CitationFactor(r, env)[0] in CitationFactor(r, env);
      CitationContributionBounds(r.citations.value, env.log1p);
    }
  }

  /** No domain factor fires for an unparseable URL; boost (+0.2) and block (-0.5)
      fire independently on a suffix match of the lower-cased host. */
  lemma DomainFactors(r: NormalizedResult, profile: Profile, env: Env)
    ensures env.parseUrl(r.url).None? ==>
              !HasKey(Factors(r, profile, env), DomainBoost) && !HasKey(Factors(r, profile, env), DomainBlock)
              && !HasKey(Factors(r, profile, env), MainstreamPenalty)
    ensures HasKey(Factors(r, profile, env), DomainBoost) <==>
              Truthy(GetDomain(r.url, env.parseUrl))
                   && Matches(GetDomain(r.url, env.parseUrl).value, BoostList(profile))
    ensures HasKey(Factors(r, profile, env), DomainBlock) <==>
              Truthy(GetDomain(r.url, env.parseUrl))
                   && Matches(GetDomain(r.url, env.parseUrl).value, BlockList(profile))
    ensures forall e :: e in Factors(r, profile, env) && e.key == DomainBoost ==>
              e.weight == 0.2 && e.note == GetDomain(r.url, env.parseUrl)
    ensures forall e :: e in Factors(r, profile, env) && e.key == DomainBlock ==>
              e.weight == -0.5 && e.note == GetDomain(r.url, env.parseUrl)
  {
    FactorsMembers(r, profile, env);
    FactorSections(r, profile, env);
    if DomainBoostFactor(r, profile, env) != [] {
      assert DomainBoostFactor(r, profile, env)[0] in DomainBoostFactor(r, profile, env);
    }
    if DomainBlockFactor(r, profile, env) != [] {
      assert DomainBlockFactor(r, profile, env)[0] in DomainBlockFactor(r, profile, env);
    }
  }

  /** The mainstream penalty fires exactly for a .com/.co/.tv host with a non-zero
      coefficient, and weighs -0.3 times the coefficient. */
  lemma MainstreamFires(r: NormalizedResult, profile: Profile, env: Env)
    ensures HasKey(Factors(r, profile, env), MainstreamPenalty) <==>
              IsMainstreamHost(r, env) && PenaltyCoefficient(profile) != 0.0
    ensures forall e :: e in Factors(r, profile, env) && e.key == MainstreamPenalty ==>
              e.weight == -(PenaltyCoefficient(profile) * 0.3)
  {
    FactorsMembers(r, profile, env);
    FactorSections(r, profile, env);
    if MainstreamFactor(r, profile, env) != [] {
      assert MainstreamFactor(r, profile, env)[0] in MainstreamFactor(r, profile, env);
    }
  }

  /** The weight the factors other than the mainstream penalty contribute. */
  function BaseWeight(r: NormalizedResult, profile: Profile, env: Env): real
  {
    SumWeights(LangMatchFactor(r, profile) + LangExcludedFactor(r, profile) + ScholarlyFactor(r)
    + FreshnessFactor(r, env) + CitationFactor(r, env) + DomainBoostFactor(r, profile, env)
    + DomainBlockFactor(r, profile, env))
  }

  /** The score splits into the other factors' weight and the mainstream penalty. */
  lemma ScoreSplit(r: NormalizedResult, profile: Profile, env: Env)
    ensures Scored(r, profile, env).score
         == BaseWeight(r, profile, env) - (if IsMainstreamHost(r, env) then PenaltyCoefficient(profile) * 0.3 else 0.0)
  {
    var base := LangMatchFactor(r, profile) + LangExcludedFactor(r, profile) + ScholarlyFactor(r)
    + FreshnessFactor(r, env) + CitationFactor(r, env) + DomainBoostFactor(r, profile, env)
    + DomainBlockFactor(r, profile, env);
    SumWeightsAppend(base, MainstreamFactor(r, profile, env));
  }

  /** Raising the mainstream coefficient never raises a score, and strictly lowers
      the score of a record on a mainstream host. */
  lemma MainstreamPenaltyMonotone(r: NormalizedResult, p: Profile, q: Profile, env: Env)
    requires q == p.(mainstreamPenalty := q.mainstreamPenalty)
    requires PenaltyCoefficient(p) <= PenaltyCoefficient(q)
    ensures Scored(r, q, env).score <= Scored(r, p, env).score
    ensures IsMainstreamHost(r, env) && PenaltyCoefficient(p) < PenaltyCoefficient(q) ==>
              Scored(r, q, env).score < Scored(r, p, env).score
  {
    ScoreSplit(r, p, env);
    ScoreSplit(r, q, env);
    assert BaseWeight(r, p, env) == BaseWeight(r, q, env);
  }

  const ExampleProfile: Profile := Profile(["en"], None, None, Some(0.2), Some(DomainRules(Some([".edu"]), None)))

  /** The five entries a fresh English arxiv paper on a boosted `.edu` host gets. */
  predicate ExampleRecord(env: Env, r: NormalizedResult)
  {
    && r.lang == Some("en") && r.source == "arxiv" && r.citations == Some(100)
    && r.date.Some? && r.date.value != "" && env.parseDate(r.date.value) == Some(env.now)
    && env.parseUrl(r.url) == Some(ParsedUrl("cs.mit.edu", "/paper"))
  }

  lemma ExampleHostLower()
    ensures Lower("cs.mit.edu") == "cs.mit.edu"
  {
    var host := "cs.mit.edu";
    assert forall k :: 0 <= k < |host| ==> !('A' <= host[k] <= 'Z');
    LowerOfLowercase(host);
  }

  lemma ExampleHostSuffixes()
    ensures AnySuffix("cs.mit.edu", [".edu"])
    ensures !AnySuffix("cs.mit.edu", MainstreamSuffixes)
  {
    var host := "cs.mit.edu";
    assert EndsWith(host, [".edu"][0]);
    assert !EndsWith(host, MainstreamSuffixes[0]);
    assert !EndsWith(host, MainstreamSuffixes[1]);
    assert !EndsWith(host, MainstreamSuffixes[2]);
  }

  lemma ExampleHost(env: Env, r: NormalizedResult)
    requires ExampleRecord(env, r)
    ensures GetDomain(r.url, env.parseUrl) == Some("cs.mit.edu")
    ensures AnySuffix("cs.mit.edu", [".edu"]) && !AnySuffix("cs.mit.edu", MainstreamSuffixes)
  {
    ExampleHostLower();
    ExampleHostSuffixes();
  }

  lemma ExampleContentSections(env: Env, r: NormalizedResult)
    requires ExampleRecord(env, r)
    ensures LangMatchFactor(r, ExampleProfile) == [WhyEntry(LangMatch, 0.3, Some("en"))]
    ensures LangExcludedFactor(r, ExampleProfile) == []
    ensures ScholarlyFactor(r) == [WhyEntry(Scholarly, 0.25, Some("arxiv"))]
    ensures FreshnessFactor(r, env) == [WhyEntry(Freshness, 0.2, r.date)]
  {
    assert "arxiv" in ScholarlySources;
    assert ComputeRecency(r.date, env) == 1.0;
  }

  lemma ExampleBoost(env: Env, r: NormalizedResult)
    requires ExampleRecord(env, r)
    ensures DomainBoostFactor(r, ExampleProfile, env) == [WhyEntry(DomainBoost, 0.2, Some("cs.mit.edu"))]
  {
    ExampleHost(env, r);
    assert Matches("cs.mit.edu", BoostList(ExampleProfile));
  }

  lemma ExampleNoBlock(env: Env, r: NormalizedResult)
    requires ExampleRecord(env, r)
    ensures DomainBlockFactor(r, ExampleProfile, env) == []
  {
    assert BlockList(ExampleProfile) == None;
  }

  lemma ExampleNotMainstream(env: Env, r: NormalizedResult)
    requires ExampleRecord(env, r)
    ensures MainstreamFactor(r, ExampleProfile, env) == []
  {
    ExampleHost(env, r);
  }

  /** The concatenation and the weight sum of the example's sections. */
  lemma ExampleConcat(lm: WhyEntry, sc: WhyEntry, fr: WhyEntry, cf: seq<WhyEntry>, db: WhyEntry)
    requires lm.weight == 0.3 && sc.weight == 0.25 && fr.weight == 0.2 && db.weight == 0.2
    requires |cf| == 1
    ensures [lm] + [] + [sc] + [fr] + cf + [db] + [] + [] == [lm, sc, fr, cf[0], db]
    ensures SumWeights([lm, sc, fr, cf[0], db]) == 0.95 + cf[0].weight
  {
    var w := [lm, sc, fr, cf[0], db];
    assert w[1..] == [sc, fr, cf[0], db];
    assert w[1..][1..] == [fr, cf[0], db];
    assert w[1..][1..][1..] == [cf[0], db];
    assert w[1..][1..][1..][1..] == [db];
    assert w[1..][1..][1..][1..][1..] == [];
    assert SumWeights([db]) == 0.2;
    assert SumWeights([cf[0], db]) == cf[0].weight + 0.2;
    assert SumWeights([fr, cf[0], db]) == 0.2 + cf[0].weight + 0.2;
    assert SumWeights([sc, fr, cf[0], db]) == 0.25 + 0.2 + cf[0].weight + 0.2;
  }

  /** Scoring an English arxiv paper dated today with 100
      citations on a boosted `.edu` host gets exactly the language, scholarly,
      freshness, citation and boost entries, in that order, for a score of 0.95 plus
      the citation weight; no block or mainstream entries. */
  lemma ScoringExample(env: Env, r: NormalizedResult)
    requires ExampleRecord(env, r)
    ensures Factors(r, ExampleProfile, env)
         == [WhyEntry(LangMatch, 0.3, Some("en")), WhyEntry(Scholarly, 0.25, Some("arxiv")),
             WhyEntry(Freshness, 0.2, r.date),
             WhyEntry(CitationWeight, CitationContribution(100, env.log1p), Some(DecimalString(100))),
             WhyEntry(DomainBoost, 0.2, Some("cs.mit.edu"))]
    ensures Scored(r, ExampleProfile, env).score == 0.95 + CitationContribution(100, env.log1p)
    ensures env.log1p(100.0) >= 5.0 ==> Scored(r, ExampleProfile, env).score == 1.2
    ensures env.log1p(100.0) < 5.0 ==> Scored(r, ExampleProfile, env).score < 1.2
  {
    ExampleContentSections(env, r);
    ExampleBoost(env, r);
    ExampleNoBlock(env, r);
    ExampleNotMainstream(env, r);
    ExampleConcat(WhyEntry(LangMatch, 0.3, Some("en")), WhyEntry(Scholarly, 0.25, Some("arxiv")),
                  WhyEntry(Freshness, 0.2, r.date), CitationFactor(r, env),
                  WhyEntry(DomainBoost, 0.2, Some("cs.mit.edu")));
  }

  // ----- The descending sort -----

  predicate SortedDesc(s: seq<NormalizedResult>)
  {
    forall i, j :: 0 <= i < j < |s| ==> s[i].score >= s[j].score
  }

  /** The records with score `v`, in their order. */
  function WithScore(s: seq<NormalizedResult>, v: real): seq<NormalizedResult>
  {
    if s == [] then []
    else (if s[0].score == v then [s[0]] else []) + WithScore(s[1..], v)
  }

  /** Places `x` before the first record scoring no more than it. */
  function Insert(x: NormalizedResult, s: seq<NormalizedResult>): seq<NormalizedResult>
  {
    if s == [] || x.score >= s[0].score then [x] + s
    else [s[0]] + Insert(x, s[1..])
  }

  lemma {:induction false} InsertPermutes(x: NormalizedResult, s: seq<NormalizedResult>)
    ensures multiset(Insert(x, s)) == multiset(s) + multiset{x}
    ensures |Insert(x, s)| == |s| + 1
  {
    if s != [] && x.score < s[0].score {
      InsertPermutes(x, s[1..]);
      assert s == [s[0]] + s[1..];
    }
  }

  lemma {:induction false} InsertSorted(x: NormalizedResult, s: seq<NormalizedResult>)
    requires SortedDesc(s)
    ensures SortedDesc(Insert(x, s))
    ensures forall e :: e in Insert(x, s) ==> e == x || e in s
  {
    if s != [] && x.score < s[0].score {
      var t := Insert(x, s[1..]);
      InsertSorted(x, s[1..]);
      assert Insert(x, s) == [s[0]] + t;
      forall e | e in t ensures s[0].score >= e.score {
        if e != x {
          var k :| 0 <= k < |s[1..]| && s[1..][k] == e;
          assert s[k + 1] == e;
        }
      }
      forall i, j | 0 <= i < j < |[s[0]] + t| ensures ([s[0]] + t)[i].score >= ([s[0]] + t)[j].score {
        if i > 0 {
          assert ([s[0]] + t)[i] == t[i - 1];
        }
        assert ([s[0]] + t)[j] == t[j - 1];
        assert t[j - 1] in t;
      }
    }
  }

  lemma {:induction false} InsertStable(x: NormalizedResult, s: seq<NormalizedResult>, v: real)
    ensures WithScore(Insert(x, s), v) == (if x.score == v then [x] else []) + WithScore(s, v)
  {
    var mine: seq<NormalizedResult> := if x.score == v then [x] else [];
    if s == [] || x.score >= s[0].score {
      assert Insert(x, s) == [x] + s;
      assert ([x] + s)[1..] == s;
    } else {
      var t := Insert(x, s[1..]);
      var head: seq<NormalizedResult> := if s[0].score == v then [s[0]] else [];
      assert Insert(x, s) == [s[0]] + t;
      assert ([s[0]] + t)[1..] == t;
      InsertStable(x, s[1..], v);
      assert WithScore(Insert(x, s), v) == head + (mine + WithScore(s[1..], v));
      assert head == [] || mine == [];
      assert WithScore(s, v) == head + WithScore(s[1..], v);
    }
  }

  /** `Array.prototype.sort` with comparator `b.score - a.score`: a stable sort into
      non-increasing score. */
  function SortByScore(s: seq<NormalizedResult>): (out: seq<NormalizedResult>)
    ensures |out| == |s|
    ensures SortedDesc(out)
    ensures multiset(out) == multiset(s)
  {
    if s == [] then []
    else
      var rest := SortByScore(s[1..]);
      InsertSorted(s[0], rest);
      InsertPermutes(s[0], rest);
      assert s == [s[0]] + s[1..];
      Insert(s[0], rest)
  }

  /** Equal scores keep their input order. */
  lemma {:induction false} SortStable(s: seq<NormalizedResult>, v: real)
    ensures WithScore(SortByScore(s), v) == WithScore(s, v)
  {
    if s != [] {
      SortStable(s[1..], v);
      InsertStable(s[0], SortByScore(s[1..]), v);
    }
  }

  function ScoredAll(results: seq<NormalizedResult>, profile: Profile, env: Env): (out: seq<NormalizedResult>)
    ensures |out| == |results|
    ensures forall i :: 0 <= i < |out| ==> out[i] == Scored(results[i], profile, env)
  {
    seq(|results|, i requires 0 <= i < |results| => Scored(results[i], profile, env))
  }

  /** `rankResults`: the scored records, as a permutation in non-increasing score
      order that keeps the input order among equal scores. */
  function RankResults(results: seq<NormalizedResult>, profile: Profile, env: Env): (out: seq<NormalizedResult>)
    ensures |out| == |results|
    ensures SortedDesc(out)
    ensures multiset(out) == multiset(ScoredAll(results, profile, env))
    ensures forall v :: WithScore(out, v) == WithScore(ScoredAll(results, profile, env), v)
  {
    var out := SortByScore(ScoredAll(results, profile, env));
    forall v ensures WithScore(out, v) == WithScore(ScoredAll(results, profile, env), v) {
      SortStable(ScoredAll(results, profile, env), v);
    }
    out
  }

  /** Every ranked record is some input record with its score and rationale
      replaced by the factors. */
  lemma RankedAreScored(results: seq<NormalizedResult>, profile: Profile, env: Env)
    ensures forall o :: o in RankResults(results, profile, env) ==>
              exists i :: 0 <= i < |results| && o == Scored(results[i], profile, env)
  {
    var scored := ScoredAll(results, profile, env);
    forall o | o in RankResults(results, profile, env)
      ensures exists i :: 0 <= i < |results| && o == Scored(results[i], profile, env)
    {
      assert o in multiset(RankResults(results, profile, env));
      assert o in multiset(scored);
      var i :| 0 <= i < |scored| && scored[i] == o;
    }
  }
}
