/** Ranking profiles on the client (apps/web/src/state/profiles.ts): the three
    presets, the default profile, and `mergeProfile`, which overlays a partial
    profile on a base one and always yields a `domain` object. */
module Profiles {
  import opened Types

  /** A `Partial<Profile>`: each field is `Some` when its key is present. */
  datatype PartialProfile = PartialProfile(
    preferredLangs: Option<seq<string>>,
    excludeLangs: Option<seq<string>>,
    timeRange: Option<TimeRange>,
    mainstreamPenalty: Option<real>,
    domain: Option<DomainRules>)

  const EmptyPartial: PartialProfile := PartialProfile(None, None, None, None, None)

  datatype ProfilePreset = ProfilePreset(id: string, name: string, description: string, profile: Profile)

  const Presets: seq<ProfilePreset> := [
    ProfilePreset("default", "Balansert", "Engelsk først, lett straff for mainstream-kilder.",
      Profile(["en"], None, None, Some(0.2), Some(DomainRules(Some([".edu", ".org"]), None)))),
    ProfilePreset("nordic", "Nordisk", "Foretrekker norsk/svensk/dansk, blokkerer kommersielle domener.",
      Profile(["no", "sv", "da"], Some(["ru", "zh"]), None, Some(0.4),
              Some(DomainRules(Some([".no", ".se", ".dk"]), Some([".com"]))))),
    ProfilePreset("scholarly", "Akademisk", "Favoriserer DOI og institusjonelle domener.",
      Profile(["en"], None, None, Some(0.5), Some(DomainRules(Some([".edu", ".ac.uk", ".org"]), Some([".com"])))))
  ]

  /** `defaultProfile`, the first preset's profile. */
  const DefaultProfile: Profile := Presets[0].profile

  /** A profile object used as a partial one: its absent optional keys are absent. */
  function AsPartial(p: Profile): PartialProfile
  {
    PartialProfile(Some(p.preferredLangs), p.excludeLangs, p.timeRange, p.mainstreamPenalty, p.domain)
  }

  function BoostOf(d: Option<DomainRules>): Option<seq<string>>
  {
    if d.Some? then d.value.boost else None
  }

  function BlockOf(d: Option<DomainRules>): Option<seq<string>>
  {
    if d.Some? then d.value.block else None
  }

  /** `mergeProfile`: the partial's present fields over the base's, and a domain
      object whose boost and block lists each come from the partial when it gives
      one and from the base otherwise. */
  function MergeProfile(base: Profile, partial: PartialProfile): (r: Profile)
    ensures r.preferredLangs == (if partial.preferredLangs.Some? then partial.preferredLangs.value else base.preferredLangs)
    ensures r.excludeLangs == (if partial.excludeLangs.Some? then partial.excludeLangs else base.excludeLangs)
    ensures r.timeRange == (if partial.timeRange.Some? then partial.timeRange else base.timeRange)
    ensures r.mainstreamPenalty == (if partial.mainstreamPenalty.Some? then partial.mainstreamPenalty else base.mainstreamPenalty)
    ensures r.domain.Some?
    ensures r.domain.value.boost == (if BoostOf(partial.domain).Some? then BoostOf(partial.domain) else BoostOf(base.domain))
    ensures r.domain.value.block == (if BlockOf(partial.domain).Some? then BlockOf(partial.domain) else BlockOf(base.domain))
  {
    Profile(
      partial.preferredLangs.GetOr(base.preferredLangs),
      Coalesce(partial.excludeLangs, base.excludeLangs),
      Coalesce(partial.timeRange, base.timeRange),
      Coalesce(partial.mainstreamPenalty, base.mainstreamPenalty),
      Some(DomainRules(Coalesce(BoostOf(partial.domain), BoostOf(base.domain)),
                       Coalesce(BlockOf(partial.domain), BlockOf(base.domain)))))
  }

  /** Merging nothing keeps every base value; only a missing domain object becomes
      an empty one. */
  lemma MergeEmpty(base: Profile)
    ensures MergeProfile(base, EmptyPartial) ==
            base.(domain := Some(DomainRules(BoostOf(base.domain), BlockOf(base.domain))))
    ensures base.domain.Some? ==> MergeProfile(base, EmptyPartial) == base
  {
  }

  /** Merging the same partial twice is merging it once. */
  lemma MergeIdempotent(base: Profile, partial: PartialProfile)
    ensures MergeProfile(MergeProfile(base, partial), partial) == MergeProfile(base, partial)
  {
  }

  /** A partial that sets every field, domain lists included, replaces the base. */
  lemma MergeFull(base: Profile, p: Profile)
    requires p.excludeLangs.Some? && p.timeRange.Some? && p.mainstreamPenalty.Some?
    requires p.domain.Some? && p.domain.value.boost.Some? && p.domain.value.block.Some?
    ensures MergeProfile(base, AsPartial(p)) == p
  {
  }

  /** The default profile: English, penalty 0.2, boost ".edu" and ".org", no block. */
  lemma DefaultProfileValues()
    ensures DefaultProfile.preferredLangs == ["en"]
    ensures DefaultProfile.mainstreamPenalty == Some(0.2)
    ensures DefaultProfile.domain == Some(DomainRules(Some([".edu", ".org"]), None))
    ensures DefaultProfile.excludeLangs == None && DefaultProfile.timeRange == None
    ensures Presets[0].id == "default"
  {
  }

  /** Every preset's penalty lies in [0, 1] and the preset ids are distinct. */
  lemma PresetsWellFormed()
    ensures forall i :: 0 <= i < |Presets| ==>
              Presets[i].profile.mainstreamPenalty.Some? &&
              0.0 <= Presets[i].profile.mainstreamPenalty.value <= 1.0
    ensures forall i, j :: 0 <= i < j < |Presets| ==> Presets[i].id != Presets[j].id
  {
  }

  /** Choosing the "default" preset after "nordic" does not give the default
      profile: the merge keeps the Nordic exclusions and the ".com" block list,
      because the default preset has no such keys. */
  lemma DefaultAfterNordic()
    ensures var r := MergeProfile(Presets[1].profile, AsPartial(Presets[0].profile));
            && r.preferredLangs == ["en"]
            && r.excludeLangs == Some(["ru", "zh"])
            && r.domain == Some(DomainRules(Some([".edu", ".org"]), Some([".com"])))
            && r != DefaultProfile
  {
  }
}
