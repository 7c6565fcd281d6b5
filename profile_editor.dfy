/** The profile form's list fields (apps/web/src/components/ProfileEditor.tsx):
    a list is shown as `join(', ')`, read back with `split(',')`, `trim` and
    `filter(Boolean)`, and each edit becomes a partial profile for `mergeProfile`.
    The domain fields spread the current domain object so that editing one list
    keeps the other. */
module ProfileEditor {
  import opened Types
  import opened Strings
  import Profiles

  /** A list entry as the parser leaves it: non-empty, trimmed, without a comma. */
  predicate Clean(entry: string)
  {
    entry != "" && IsTrimmed(entry) && ',' !in entry
  }

  /** The comma-list parse: `value.split(',').map((v) => v.trim()).filter(Boolean)`:
      at most one entry per comma-separated piece, none of them empty, and nothing
      for an empty field. */
  function ParseList(text: string): (r: seq<string>)
    ensures |r| <= |Split(text, ',')|
    ensures forall i :: 0 <= i < |r| ==> r[i] != ""
    ensures text == "" ==> r == []
  {
    assert Split("", ',') == [""];
    assert Trim("") == "";
    var r := DropEmpty(TrimAll(Split(text, ',')));
    assert forall i :: 0 <= i < |r| ==> r[i] in r;
    r
  }

  /** The comma-list format: `list.join(', ')`, which is the spaced pieces joined at
      bare commas. */
  function FormatList(list: seq<string>): (r: string)
    ensures r == Join(Spaced(list), ",")
  {
    JoinSpaced(list);
    Join(list, ", ")
  }

  lemma TrimKeepsNoComma(s: string)
    requires ',' !in s
    ensures ',' !in Trim(s)
  {
    TrimSlice(s);
    var a := LeadingSpaces(s);
    forall k | 0 <= k < |Trim(s)| ensures Trim(s)[k] != ',' {
      assert Trim(s)[k] == s[a + k];
    }
  }

  /** Every parsed entry is non-empty, trimmed and comma-free. */
  lemma ParsedEntriesClean(text: string)
    ensures forall i :: 0 <= i < |ParseList(text)| ==> Clean(ParseList(text)[i])
  {
    var pieces := Split(text, ',');
    var trimmed := TrimAll(pieces);
    forall e | e in trimmed ensures ',' !in e && IsTrimmed(e) {
      var i :| 0 <= i < |trimmed| && trimmed[i] == e;
      TrimKeepsNoComma(pieces[i]);
    }
    forall i | 0 <= i < |ParseList(text)| ensures Clean(ParseList(text)[i]) {
      assert ParseList(text)[i] in ParseList(text);
    }
  }

  /** Splitting at a comma is splitting either side. */
  lemma {:induction false} SplitAtComma(a: string, b: string)
    ensures Split(a + "," + b, ',') == Split(a, ',') + Split(b, ',')
    decreases |a|
  {
    var i := IndexOf(a, ',');
    if i == |a| {
      SplitAtFirstComma(a, b);
    } else {
      SplitAtComma(a[i + 1..], b);
      SplitAtLaterComma(a, b, i);
    }
  }

  /** The case where `a` has no comma: the pieces are `a` and those of `b`. */
  lemma SplitAtFirstComma(a: string, b: string)
    requires IndexOf(a, ',') == |a|
    ensures Split(a + "," + b, ',') == Split(a, ',') + Split(b, ',')
  {
    var s := a + "," + b;
    IndexOfPrefix(a, ',', b);
    assert s[..|a|] == a;
    assert s[|a| + 1..] == b;
  }

  /** The case where `a` has a comma at `i`: both splits cut there first, and
      what follows is the same case for the rest of `a`. */
  lemma SplitAtLaterComma(a: string, b: string, i: nat)
    requires i == IndexOf(a, ',') && i < |a|
    requires Split(a[i + 1..] + "," + b, ',') == Split(a[i + 1..], ',') + Split(b, ',')
    ensures Split(a + "," + b, ',') == Split(a, ',') + Split(b, ',')
  {
    FirstCutBeforeComma(a, b, i);
    SplitCutsAt(a, i);
    ConsAppend(Split(a + "," + b, ','), Split(a, ','), a[..i], Split(a[i + 1..] + "," + b, ','),
               Split(a[i + 1..], ','), Split(b, ','));
  }

  lemma FirstCutBeforeComma(a: string, b: string, i: nat)
    requires i == IndexOf(a, ',') && i < |a|
    ensures Split(a + "," + b, ',') == [a[..i]] + Split(a[i + 1..] + "," + b, ',')
  {
    var s := a + "," + b;
    var rest := a[i + 1..] + "," + b;
    assert s[i] == ',';
    assert IndexOf(s, ',') == i by {
      assert forall j :: 0 <= j < i ==> s[j] == a[j];
      IndexOfFirst(s, ',', i);
    }
    assert a == a[..i + 1] + a[i + 1..];
    assert s == a[..i + 1] + rest;
    assert s[..i] == a[..i];
    assert s[i + 1..] == rest;
    SplitCutsAt(s, i);
  }

  lemma ConsAppend<T>(whole: seq<T>, left: seq<T>, x: T, wholeRest: seq<T>, leftRest: seq<T>, right: seq<T>)
    requires whole == [x] + wholeRest && left == [x] + leftRest
    requires wholeRest == leftRest + right
    ensures whole == left + right
  {
  }

  lemma SplitCutsAt(s: string, i: nat)
    requires i == IndexOf(s, ',') && i < |s|
    ensures Split(s, ',') == [s[..i]] + Split(s[i + 1..], ',')
  {
  }

  lemma IndexOfFirst(s: string, c: char, i: nat)
    requires i < |s| && s[i] == c
    requires forall j :: 0 <= j < i ==> s[j] != c
    ensures IndexOf(s, c) == i
  {
    if i > 0 {
      IndexOfFirst(s[1..], c, i - 1);
    }
  }

  /** Parsed entries keep the order of the text: the entries of the text before a
      comma come before those after it. */
  lemma ParseAtComma(a: string, b: string)
    ensures ParseList(a + "," + b) == ParseList(a) + ParseList(b)
  {
    SplitAtComma(a, b);
    TrimAllAppend(Split(a, ','), Split(b, ','));
    DropEmptyAppend(TrimAll(Split(a, ',')), TrimAll(Split(b, ',')));
  }

  /** A leading blank does not change the parse. */
  lemma {:induction false} ParseAfterBlank(t: string)
    ensures ParseList(" " + t) == ParseList(t)
  {
    var i := IndexOf(t, ',');
    if i == |t| {
      BlankNoComma(t);
      TrimBlankPrefix(t);
    } else {
      assert t == t[..i] + "," + t[i + 1..];
      assert " " + t == (" " + t[..i]) + "," + t[i + 1..];
      ParseAtComma(t[..i], t[i + 1..]);
      ParseAtComma(" " + t[..i], t[i + 1..]);
      ParseAfterBlank(t[..i]);
    }
  }

  lemma BlankNoComma(t: string)
    requires IndexOf(t, ',') == |t|
    ensures Split(" " + t, ',') == [" " + t]
  {
    var s := " " + t;
    assert s[1..] == t;
    assert IndexOf(s, ',') == 1 + IndexOf(t, ',');
  }

  lemma ParseClean(entry: string)
    requires Clean(entry)
    ensures ParseList(entry) == [entry]
  {
    assert IndexOf(entry, ',') == |entry|;
    TrimOfTrimmed(entry);
  }

  /** The pieces `list.join(', ')` cuts into at its commas: the first entry, then
      each later entry after its blank. */
  function Spaced(list: seq<string>): (r: seq<string>)
    ensures |r| == |list|
    ensures |list| > 0 ==> r[0] == list[0]
    ensures forall i :: 0 < i < |list| ==> r[i] == " " + list[i]
  {
    if list == [] then [] else [list[0]] + Blanked(list[1..])
  }

  function Blanked(list: seq<string>): (r: seq<string>)
    ensures |r| == |list|
    ensures forall i :: 0 <= i < |list| ==> r[i] == " " + list[i]
  {
    if list == [] then [] else [" " + list[0]] + Blanked(list[1..])
  }

  lemma {:induction false} JoinBlanked(list: seq<string>)
    requires list != []
    ensures Join(Blanked(list), ",") == " " + Join(list, ", ")
  {
    if |list| >= 2 {
      JoinBlanked(list[1..]);
      assert Blanked(list)[1..] == Blanked(list[1..]);
    }
  }

  lemma JoinSpaced(list: seq<string>)
    ensures Join(Spaced(list), ",") == Join(list, ", ")
  {
    if |list| >= 2 {
      JoinBlanked(list[1..]);
      assert Spaced(list)[1..] == Blanked(list[1..]);
    }
  }

  /** Round trip: parsing the shown text of a list of clean entries gives the list. */
  lemma ParseFormat(list: seq<string>)
    requires forall i :: 0 <= i < |list| ==> Clean(list[i])
    ensures ParseList(FormatList(list)) == list
  {
    if list == [] {
      assert Split("", ',') == [""];
      assert Trim("") == "";
    } else {
      var pieces := Spaced(list);
      forall i | 0 <= i < |pieces| ensures ',' !in pieces[i] {
        if i > 0 {
          assert forall k :: 0 < k < |pieces[i]| ==> pieces[i][k] == list[i][k - 1];
        }
      }
      SplitJoin(pieces, ',');
      forall i | 0 <= i < |list| ensures Trim(pieces[i]) == list[i] {
        TrimOfTrimmed(list[i]);
        if i > 0 {
          TrimBlankPrefix(list[i]);
        }
      }
      assert TrimAll(pieces) == list;
      DropEmptyOfNonEmpty(list);
    }
  }

  /** The text of an optional list field: its shown list, or "" when absent. */
  function FieldText(list: Option<seq<string>>): string
  {
    if list.Some? then FormatList(list.value) else ""
  }

  /** Editing the preferred-languages field. */
  function EditPreferredLangs(text: string): Profiles.PartialProfile
  {
    Profiles.PartialProfile(Some(ParseList(text)), None, None, None, None)
  }

  /** Editing the excluded-languages field. */
  function EditExcludeLangs(text: string): Profiles.PartialProfile
  {
    Profiles.PartialProfile(None, Some(ParseList(text)), None, None, None)
  }

  /** Editing the boost field: `{ ...profile.domain, boost }`. Merged into the
      profile, it replaces the boost list and keeps the block list and every other
      field. */
  function EditBoost(profile: Profile, text: string): (edit: Profiles.PartialProfile)
    ensures Profiles.MergeProfile(profile, edit) ==
            profile.(domain := Some(DomainRules(Some(ParseList(text)), Profiles.BlockOf(profile.domain))))
  {
    Profiles.PartialProfile(None, None, None, None,
      Some(DomainRules(Some(ParseList(text)), Profiles.BlockOf(profile.domain))))
  }

  /** Editing the block field: `{ ...profile.domain, block }`. Merged into the
      profile, it replaces the block list and keeps the boost list and every other
      field. */
  function EditBlock(profile: Profile, text: string): (edit: Profiles.PartialProfile)
    ensures Profiles.MergeProfile(profile, edit) ==
            profile.(domain := Some(DomainRules(Profiles.BoostOf(profile.domain), Some(ParseList(text)))))
  {
    Profiles.PartialProfile(None, None, None, None,
      Some(DomainRules(Profiles.BoostOf(profile.domain), Some(ParseList(text)))))
  }

  /** Submitting a field's shown text unchanged leaves a profile with clean lists
      as it is. */
  lemma ResubmitKeepsProfile(profile: Profile)
    requires forall i :: 0 <= i < |profile.preferredLangs| ==> Clean(profile.preferredLangs[i])
    requires profile.domain.Some? && profile.domain.value.boost.Some?
    requires forall i :: 0 <= i < |profile.domain.value.boost.value| ==> Clean(profile.domain.value.boost.value[i])
    ensures Profiles.MergeProfile(profile, EditPreferredLangs(FormatList(profile.preferredLangs))) == profile
    ensures Profiles.MergeProfile(profile, EditBoost(profile, FieldText(profile.domain.value.boost))) == profile
  {
    ParseFormat(profile.preferredLangs);
    ParseFormat(profile.domain.value.boost.value);
  }

  /** The preset select: the partial profile sent for a chosen preset id, or
      nothing when no preset has that id. */
  function ChoosePreset(id: string): (r: Option<Profiles.PartialProfile>)
    ensures r.Some? <==> exists i :: 0 <= i < |Profiles.Presets| && Profiles.Presets[i].id == id
    ensures forall i :: 0 <= i < |Profiles.Presets| && Profiles.Presets[i].id == id ==>
              r == Some(Profiles.AsPartial(Profiles.Presets[i].profile))
  {
    Profiles.PresetsWellFormed();
    FindPreset(Profiles.Presets, id)
  }

  /** `presets.find((p) => p.id === id)`, turned into the partial it sends. */
  function FindPreset(presets: seq<Profiles.ProfilePreset>, id: string): (r: Option<Profiles.PartialProfile>)
    ensures r.Some? <==> exists i :: 0 <= i < |presets| && presets[i].id == id
    ensures r.Some? ==> exists i :: 0 <= i < |presets| && presets[i].id == id &&
                          (forall j :: 0 <= j < i ==> presets[j].id != id) &&
                          r == Some(Profiles.AsPartial(presets[i].profile))
  {
    if presets == [] then None
    else if presets[0].id == id then Some(Profiles.AsPartial(presets[0].profile))
    else
      var r := FindPreset(presets[1..], id);
      assert forall i :: 1 <= i < |presets| ==> presets[i] == presets[1..][i - 1];
      r
  }
}
