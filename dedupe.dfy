/** Cross-source deduplication with field-level merge (apps/api/src/core/dedupe.ts).
    The source keeps a key-to-record `Map` and overwrites the fields of the first
    record seen for a key; here the map's values, in insertion order, are the
    sequence `out`, and overwriting a record is replacing `out[i]` by its merge. */
module Dedupe {
  import opened Types
  import opened Strings
  import opened Seqs

  /** `normalizeUrl`: `None` for the empty string; otherwise the lower-cased host
      followed by the path without trailing slashes, or the whole lower-cased string
      when the URL does not parse. */
  function NormalizeUrl(raw: string, parse: UrlParser): (r: Option<string>)
    ensures r.None? <==> raw == ""
    ensures raw != "" && parse(raw).None? ==> r == Some(Lower(raw))
    ensures raw != "" && parse(raw).Some? ==>
              var u := parse(raw).value;
              && |u.hostname| <= |r.value|
              && r.value[..|u.hostname|] == Lower(u.hostname)
              && var path := r.value[|u.hostname|..];
              && StartsWith(u.pathname, path)
              && (path == [] || path[|path| - 1] != '/')
              && (forall i :: |path| <= i < |u.pathname| ==> u.pathname[i] == '/')
  {
    if raw == "" then None
    else
      match parse(raw)
      case Some(u) =>
        var path := StripTrailingSlashes(u.pathname);
        var s := Lower(u.hostname) + path;
        assert s[|u.hostname|..] == path;
        Some(s)
      case None => Some(Lower(raw))
  }

  /** `makeKey`: the first of a truthy DOI, a truthy normalised URL and a non-empty
      title gives the key; a record has no key exactly when it has none of them. */
  function MakeKey(r: NormalizedResult, parse: UrlParser): (k: Option<string>)
    ensures k.None? <==> !Truthy(r.doi) && !Truthy(NormalizeUrl(r.url, parse)) && r.title == ""
  {
    if Truthy(r.doi) then Some("doi:" + Lower(r.doi.value))
    else
      var u := NormalizeUrl(r.url, parse);
      if Truthy(u) then Some("url:" + u.value)
      else if r.title != "" then Some("title:" + Trim(Lower(r.title)))
      else None
  }

  /** A truthy DOI decides the key whatever the URL and title are. */
  lemma DoiKeyFirst(r: NormalizedResult, url: string, title: string, parse: UrlParser)
    requires Truthy(r.doi)
    ensures MakeKey(r, parse) == MakeKey(r.(url := url, title := title), parse)
    ensures MakeKey(r, parse) == Some("doi:" + Lower(r.doi.value))
  {
  }

  /** Without a truthy DOI, a truthy URL key decides the key whatever the title is. */
  lemma UrlKeySecond(r: NormalizedResult, title: string, parse: UrlParser)
    requires !Truthy(r.doi) && Truthy(NormalizeUrl(r.url, parse))
    ensures MakeKey(r, parse) == MakeKey(r.(title := title), parse)
    ensures MakeKey(r, parse) == Some("url:" + NormalizeUrl(r.url, parse).value)
  {
  }

  /** Without a truthy DOI or URL key, a non-empty title gives the key: the title
      lower-cased, then trimmed. */
  lemma TitleKeyThird(r: NormalizedResult, parse: UrlParser)
    requires !Truthy(r.doi) && !Truthy(NormalizeUrl(r.url, parse)) && r.title != ""
    ensures MakeKey(r, parse) == Some("title:" + Trim(Lower(r.title)))
  {
  }

  /** Missing citation counts compare as 0. */
  function Citations(r: NormalizedResult): int
  {
    r.citations.GetOr(0)
  }

  /** The record whose non-empty title and URL survive a merge: the incoming one only
      when it has strictly more citations. */
  function Winner(existing: NormalizedResult, incoming: NormalizedResult): (w: NormalizedResult)
    ensures w == incoming <== Citations(incoming) > Citations(existing)
    ensures w == existing <== Citations(incoming) <= Citations(existing)
  {
    if Citations(incoming) > Citations(existing) then incoming else existing
  }

  /** JavaScript's `a || b` on strings: `b` replaces an empty `a`. */
  function OrElse(a: string, b: string): (r: string)
    ensures a != "" ==> r == a
    ensures a == "" ==> r == b
  {
    if a != "" then a else b
  }

  /** The field-by-field merge of lines 16-28 of dedupe.ts. */
  function Merge(existing: NormalizedResult, incoming: NormalizedResult): (m: NormalizedResult)
    // the citation count becomes the larger of both and is defined from now on
    ensures m.citations.Some?
    ensures Citations(m) == MaxInt(Citations(existing), Citations(incoming))
    // the score never drops
    ensures m.score >= existing.score
    // fill-if-missing fields keep a value once they have one
    ensures existing.snippet.Some? ==> m.snippet == existing.snippet
    ensures existing.venue.Some? ==> m.venue == existing.venue
    ensures existing.date.Some? ==> m.date == existing.date
    ensures existing.doi.Some? ==> m.doi == existing.doi
    ensures existing.authors.Some? && existing.authors.value != [] ==> m.authors == existing.authors
    ensures existing.why != [] ==> m.why == existing.why
    // a record with no more citations than the retained one changes no title or URL;
    // one with more brings its non-empty title and URL
    ensures Citations(incoming) <= Citations(existing) ==>
              m.title == existing.title && m.url == existing.url
    ensures Citations(incoming) > Citations(existing) ==>
              m.title == OrElse(incoming.title, existing.title) && m.url == OrElse(incoming.url, existing.url)
    // a missing field is taken from the winner
    ensures existing.snippet.None? ==> m.snippet == Winner(existing, incoming).snippet
    ensures existing.venue.None? ==> m.venue == Winner(existing, incoming).venue
    ensures existing.date.None? ==> m.date == Winner(existing, incoming).date
    ensures existing.doi.None? ==> m.doi == Winner(existing, incoming).doi
    ensures !(existing.authors.Some? && existing.authors.value != []) ==>
              m.authors == Winner(existing, incoming).authors
    ensures existing.why == [] ==> m.why == Winner(existing, incoming).why
    // identity, source and language are never merged
    ensures m.id == existing.id && m.source == existing.source && m.lang == existing.lang
  {
    var better := Winner(existing, incoming);
    NormalizedResult(
      existing.id,
      OrElse(better.title, existing.title),
      OrElse(better.url, existing.url),
      Coalesce(existing.snippet, better.snippet),
      existing.source,
      existing.lang,
      Coalesce(existing.date, better.date),
      if existing.authors.Some? && existing.authors.value != [] then existing.authors
      else better.authors,
      Coalesce(existing.venue, better.venue),
      Coalesce(existing.doi, better.doi),
      Some(MaxInt(Citations(existing), Citations(better))),
      MaxReal(existing.score, better.score),
      if existing.why != [] then existing.why else better.why)
  }

  /** The merged score is the larger of the existing score and the WINNER's score,
      so the incoming score is ignored when the incoming record does not win. */
  lemma MergeScore(existing: NormalizedResult, incoming: NormalizedResult)
    ensures Citations(incoming) > Citations(existing) ==>
              Merge(existing, incoming).score == MaxReal(existing.score, incoming.score)
    ensures Citations(incoming) <= Citations(existing) ==>
              Merge(existing, incoming).score == existing.score
  {
  }

  /** Which record wins does not depend on which one came first: the merged citation
      count is the same both ways. */
  lemma MergeCitationsSymmetric(a: NormalizedResult, b: NormalizedResult)
    ensures Merge(a, b).citations == Merge(b, a).citations
  {
  }

  lemma KeyPrefixesDiffer(a: string, b: string)
    ensures "doi:" + a != "url:" + b
    ensures "doi:" + a != "title:" + b
    ensures "url:" + a != "title:" + b
  {
    assert ("doi:" + a)[0] == 'd';
    assert ("url:" + b)[0] == 'u';
    assert ("url:" + a)[0] == 'u';
    assert ("title:" + b)[0] == 't';
  }

  lemma PrefixInjective(p: string, a: string, b: string)
    requires p + a == p + b
    ensures a == b
  {
    assert a == (p + a)[|p|..];
    assert b == (p + b)[|p|..];
  }

  /** Merging two records with the same key keeps that key, so the retained record
      stays findable under the key it was stored with. */
  lemma MergeKeepsKey(existing: NormalizedResult, incoming: NormalizedResult, k: string, parse: UrlParser)
    requires MakeKey(existing, parse) == Some(k) && MakeKey(incoming, parse) == Some(k)
    ensures MakeKey(Merge(existing, incoming), parse) == Some(k)
  {
    var m := Merge(existing, incoming);
    var better := Winner(existing, incoming);
    if Truthy(existing.doi) {
      assert m.doi == existing.doi;
    } else {
      var eu := NormalizeUrl(existing.url, parse);
      if Truthy(incoming.doi) {
        KeyPrefixesDiffer(Lower(incoming.doi.value), if Truthy(eu) then eu.value else Trim(Lower(existing.title)));
        assert false;
      }
      assert !Truthy(m.doi);
      var iu := NormalizeUrl(incoming.url, parse);
      if Truthy(eu) {
        if !Truthy(iu) {
          KeyPrefixesDiffer(eu.value, Trim(Lower(incoming.title)));
          assert false;
        }
        PrefixInjective("url:", eu.value, iu.value);
        assert NormalizeUrl(m.url, parse) == eu;
      } else {
        if Truthy(iu) {
          KeyPrefixesDiffer(iu.value, Trim(Lower(existing.title)));
          assert false;
        }
        assert !Truthy(NormalizeUrl(m.url, parse));
        PrefixInjective("title:", Trim(Lower(existing.title)), Trim(Lower(incoming.title)));
        assert m.title == better.title;
      }
    }
  }

  /** Position of the first record of `out` whose key is `k`, or `|out|`. */
  function IndexOfKey(out: seq<NormalizedResult>, k: string, parse: UrlParser): (i: nat)
    ensures i <= |out|
    ensures i < |out| ==> MakeKey(out[i], parse) == Some(k)
    ensures forall j :: 0 <= j < i ==> MakeKey(out[j], parse) != Some(k)
  {
    if out == [] then 0
    else if MakeKey(out[0], parse) == Some(k) then 0
    else 1 + IndexOfKey(out[1..], k, parse)
  }

  /** One iteration of the loop of dedupe.ts: a keyless record is dropped, a record
      with a new key is appended, and a record with a known key is merged into the
      record retained for it. */
  function Step(out: seq<NormalizedResult>, r: NormalizedResult, parse: UrlParser): seq<NormalizedResult>
  {
    match MakeKey(r, parse)
    case None => out
    case Some(k) =>
      var i := IndexOfKey(out, k, parse);
      if i == |out| then out + [r] else out[i := Merge(out[i], r)]
  }

  /** `dedupeResults` as a fold over the input. */
  function Dedupe(rs: seq<NormalizedResult>, parse: UrlParser): seq<NormalizedResult>
  {
    if rs == [] then [] else Step(Dedupe(rs[..|rs| - 1], parse), rs[|rs| - 1], parse)
  }

  /** The keys of the keyed records of `rs`, in order (keyless records skipped). */
  function KeyList(rs: seq<NormalizedResult>, parse: UrlParser): seq<string>
  {
    if rs == [] then []
    else
      var init := KeyList(rs[..|rs| - 1], parse);
      match MakeKey(rs[|rs| - 1], parse)
      case None => init
      case Some(k) => init + [k]
  }

  /** The records of `rs` whose key is `k`, in order. */
  function WithKey(rs: seq<NormalizedResult>, k: string, parse: UrlParser): seq<NormalizedResult>
  {
    if rs == [] then []
    else
      var init := WithKey(rs[..|rs| - 1], k, parse);
      if MakeKey(rs[|rs| - 1], parse) == Some(k) then init + [rs[|rs| - 1]] else init
  }

  /** Merging a group of records from left to right into its first one. */
  function MergeAll(group: seq<NormalizedResult>): NormalizedResult
    requires |group| >= 1
  {
    if |group| == 1 then group[0] else Merge(MergeAll(group[..|group| - 1]), group[|group| - 1])
  }

  /** The reference description of deduplication: one record per distinct key, in
      the order the keys are first seen, each the left-to-right merge of all input
      records with that key. */
  function Grouped(rs: seq<NormalizedResult>, parse: UrlParser): seq<NormalizedResult>
  {
    var ks := Nub(KeyList(rs, parse));
    seq(|ks|, i requires 0 <= i < |ks| =>
      WithKeyNonEmpty(rs, ks[i], parse);
      MergeAll(WithKey(rs, ks[i], parse)))
  }

  lemma {:induction false} WithKeyNonEmpty(rs: seq<NormalizedResult>, k: string, parse: UrlParser)
    ensures k in KeyList(rs, parse) <==> WithKey(rs, k, parse) != []
  {
    if rs != [] {
      WithKeyNonEmpty(rs[..|rs| - 1], k, parse);
    }
  }

  lemma {:induction false} WithKeyKeys(rs: seq<NormalizedResult>, k: string, parse: UrlParser)
    ensures forall i :: 0 <= i < |WithKey(rs, k, parse)| ==> MakeKey(WithKey(rs, k, parse)[i], parse) == Some(k)
  {
    if rs != [] {
      WithKeyKeys(rs[..|rs| - 1], k, parse);
    }
  }

  lemma {:induction false} MergeAllKey(group: seq<NormalizedResult>, k: string, parse: UrlParser)
    requires |group| >= 1
    requires forall i :: 0 <= i < |group| ==> MakeKey(group[i], parse) == Some(k)
    ensures MakeKey(MergeAll(group), parse) == Some(k)
  {
    if |group| > 1 {
      MergeAllKey(group[..|group| - 1], k, parse);
      MergeKeepsKey(MergeAll(group[..|group| - 1]), group[|group| - 1], k, parse);
    }
  }

  lemma GroupKey(rs: seq<NormalizedResult>, k: string, parse: UrlParser)
    requires k in KeyList(rs, parse)
    ensures WithKey(rs, k, parse) != []
    ensures MakeKey(MergeAll(WithKey(rs, k, parse)), parse) == Some(k)
  {
    WithKeyNonEmpty(rs, k, parse);
    WithKeyKeys(rs, k, parse);
    MergeAllKey(WithKey(rs, k, parse), k, parse);
  }

  /** In a sequence whose i-th record has key ks[i], with ks free of repetitions,
      the key k sits at the first index of k in ks. */
  lemma {:induction false} IndexOfKeyOfKeyed(out: seq<NormalizedResult>, ks: seq<string>, k: string, parse: UrlParser)
    requires |out| == |ks| && NoDuplicates(ks)
    requires forall i :: 0 <= i < |out| ==> MakeKey(out[i], parse) == Some(ks[i])
    ensures k in ks ==> IndexOfKey(out, k, parse) == FirstIndex(ks, k)
    ensures k !in ks ==> IndexOfKey(out, k, parse) == |out|
  {
    var i := IndexOfKey(out, k, parse);
    if i < |out| {
      assert ks[i] == k;
      assert FirstIndex(ks, k) == i;
    } else {
      assert forall j :: 0 <= j < |ks| ==> ks[j] != k;
    }
  }

  /** The grouped fold has one record per first-seen key, each carrying its key. */
  lemma GroupedKeys(rs: seq<NormalizedResult>, parse: UrlParser)
    ensures |Grouped(rs, parse)| == |Nub(KeyList(rs, parse))|
    ensures forall i :: 0 <= i < |Grouped(rs, parse)| ==>
              MakeKey(Grouped(rs, parse)[i], parse) == Some(Nub(KeyList(rs, parse))[i])
  {
    var ks := Nub(KeyList(rs, parse));
    forall i | 0 <= i < |ks| ensures MakeKey(Grouped(rs, parse)[i], parse) == Some(ks[i]) {
      GroupKey(rs, ks[i], parse);
    }
  }

  /** A keyless record leaves the grouped fold as it is. */
  lemma GroupedStepKeyless(init: seq<NormalizedResult>, x: NormalizedResult, parse: UrlParser)
    requires MakeKey(x, parse).None?
    ensures Grouped(init + [x], parse) == Grouped(init, parse)
  {
    var rs := init + [x];
    assert rs[..|rs| - 1] == init;
    assert KeyList(rs, parse) == KeyList(init, parse);
    forall k ensures WithKey(rs, k, parse) == WithKey(init, k, parse) {}
  }

  /** A record with a key not seen before adds itself at the end of the grouped fold. */
  lemma GroupedStepNew(init: seq<NormalizedResult>, x: NormalizedResult, k: string, parse: UrlParser)
    requires MakeKey(x, parse) == Some(k) && k !in KeyList(init, parse)
    ensures Grouped(init + [x], parse) == Grouped(init, parse) + [x]
  {
    var rs := init + [x];
    assert rs[..|rs| - 1] == init;
    var kl := KeyList(init, parse);
    assert KeyList(rs, parse) == kl + [k];
    NubAppendNew(kl, k);
    WithKeyNonEmpty(init, k, parse);
    assert WithKey(rs, k, parse) == [x];
    var ks := Nub(kl);
    forall i | 0 <= i < |ks| ensures WithKey(rs, ks[i], parse) == WithKey(init, ks[i], parse) {
      assert ks[i] != k;
    }
    AppendedTo(Grouped(rs, parse), Grouped(init, parse), x);
  }

  lemma WithKeyAppend(init: seq<NormalizedResult>, x: NormalizedResult, k: string, parse: UrlParser)
    ensures WithKey(init + [x], k, parse)
         == if MakeKey(x, parse) == Some(k) then WithKey(init, k, parse) + [x] else WithKey(init, k, parse)
  {
    assert (init + [x])[..|init|] == init;
  }

  lemma MergeAllAppend(group: seq<NormalizedResult>, x: NormalizedResult)
    requires |group| >= 1
    ensures MergeAll(group + [x]) == Merge(MergeAll(group), x)
  {
    assert (group + [x])[..|group|] == group;
  }

  /** The group of an old key after one more record with key `k`. */
  lemma GroupAfterOld(init: seq<NormalizedResult>, x: NormalizedResult, k: string, j: string, parse: UrlParser)
    requires MakeKey(x, parse) == Some(k) && k in KeyList(init, parse) && j in KeyList(init, parse)
    ensures WithKey(init, j, parse) != [] && WithKey(init + [x], j, parse) != []
    ensures MergeAll(WithKey(init + [x], j, parse))
         == if j == k then Merge(MergeAll(WithKey(init, j, parse)), x) else MergeAll(WithKey(init, j, parse))
  {
    WithKeyAppend(init, x, j, parse);
    GroupKey(init, j, parse);
    if j == k {
      MergeAllAppend(WithKey(init, k, parse), x);
    }
  }

  /** A record with a key seen before is merged into that key's record. */
  lemma GroupedStepOld(init: seq<NormalizedResult>, x: NormalizedResult, k: string, parse: UrlParser)
    requires MakeKey(x, parse) == Some(k) && k in KeyList(init, parse)
    ensures var g := Grouped(init, parse);
            var p := FirstIndex(Nub(KeyList(init, parse)), k);
            p < |g| && Grouped(init + [x], parse) == g[p := Merge(g[p], x)]
  {
    var rs := init + [x];
    assert rs[..|rs| - 1] == init;
    var kl := KeyList(init, parse);
    assert KeyList(rs, parse) == kl + [k];
    NubAppendOld(kl, k);
    var ks := Nub(kl);
    var p := FirstIndex(ks, k);
    var g := Grouped(init, parse);
    var g' := Grouped(rs, parse);
    forall i | 0 <= i < |ks| ensures g'[i] == (if i == p then Merge(g[i], x) else g[i]) {
      GroupAfterOld(init, x, k, ks[i], parse);
    }
    UpdatedAt(g', g, p, Merge(g[p], x));
  }

  /** Deduplication is the grouped fold: the loop's in-place merges build, for each
      key in first-seen order, the merge of all records with that key. */
  lemma {:induction false} DedupeIsGrouped(rs: seq<NormalizedResult>, parse: UrlParser)
    ensures Dedupe(rs, parse) == Grouped(rs, parse)
  {
    if rs == [] {
      return;
    }
    var init := rs[..|rs| - 1];
    var x := rs[|rs| - 1];
    assert rs == init + [x];
    DedupeIsGrouped(init, parse);
    var g := Grouped(init, parse);
    match MakeKey(x, parse)
    case None =>
      GroupedStepKeyless(init, x, parse);
    case Some(k) =>
      GroupedKeys(init, parse);
      IndexOfKeyOfKeyed(g, Nub(KeyList(init, parse)), k, parse);
      if k in KeyList(init, parse) {
        GroupedStepOld(init, x, k, parse);
      } else {
        GroupedStepNew(init, x, k, parse);
      }
  }

  /** Output: exactly one record per distinct key of the input, in first-seen order,
      and no keyless record. */
  lemma DedupeKeys(rs: seq<NormalizedResult>, parse: UrlParser)
    ensures |Dedupe(rs, parse)| == |Nub(KeyList(rs, parse))|
    ensures forall i :: 0 <= i < |Dedupe(rs, parse)| ==>
              MakeKey(Dedupe(rs, parse)[i], parse) == Some(Nub(KeyList(rs, parse))[i])
  {
    DedupeIsGrouped(rs, parse);
    var ks := Nub(KeyList(rs, parse));
    forall i | 0 <= i < |ks| ensures MakeKey(Dedupe(rs, parse)[i], parse) == Some(ks[i]) {
      GroupKey(rs, ks[i], parse);
    }
  }

  /** Output keys are pairwise distinct. */
  lemma DedupeKeysDistinct(rs: seq<NormalizedResult>, parse: UrlParser)
    ensures forall i, j :: 0 <= i < j < |Dedupe(rs, parse)| ==>
              MakeKey(Dedupe(rs, parse)[i], parse) != MakeKey(Dedupe(rs, parse)[j], parse)
  {
    DedupeKeys(rs, parse);
  }

  /** A keyless record never reaches the output, and appending one changes nothing. */
  lemma KeylessDropped(rs: seq<NormalizedResult>, x: NormalizedResult, parse: UrlParser)
    requires MakeKey(x, parse).None?
    ensures x !in Dedupe(rs, parse)
    ensures Dedupe(rs + [x], parse) == Dedupe(rs, parse)
  {
    DedupeKeys(rs, parse);
    assert (rs + [x])[..|rs|] == rs;
  }

  /** A sequence whose records all have keys, pairwise distinct, is left as it is. */
  lemma {:induction false} DedupeOfDistinct(out: seq<NormalizedResult>, parse: UrlParser)
    requires forall i :: 0 <= i < |out| ==> MakeKey(out[i], parse).Some?
    requires forall i, j :: 0 <= i < j < |out| ==> MakeKey(out[i], parse) != MakeKey(out[j], parse)
    ensures Dedupe(out, parse) == out
  {
    if out != [] {
      var init := out[..|out| - 1];
      var x := out[|out| - 1];
      assert forall j :: 0 <= j < |init| ==> init[j] == out[j];
      DedupeOfDistinct(init, parse);
      assert Dedupe(out, parse) == Step(init, x, parse);
      StepFresh(init, x, parse);
      FrontLast(out);
    }
  }

  /** A record whose key no retained record has is appended. */
  lemma StepFresh(out: seq<NormalizedResult>, x: NormalizedResult, parse: UrlParser)
    requires MakeKey(x, parse).Some?
    requires forall j :: 0 <= j < |out| ==> MakeKey(out[j], parse) != MakeKey(x, parse)
    ensures Step(out, x, parse) == out + [x]
  {
    var i := IndexOfKey(out, MakeKey(x, parse).value, parse);
    assert i == |out|;
  }

  /** Deduplicating twice is deduplicating once. */
  lemma DedupeIdempotent(rs: seq<NormalizedResult>, parse: UrlParser)
    ensures Dedupe(Dedupe(rs, parse), parse) == Dedupe(rs, parse)
  {
    DedupeKeys(rs, parse);
    DedupeOfDistinct(Dedupe(rs, parse), parse);
  }

  /** The largest citation count of a group, missing counts as 0. */
  function MaxCitations(group: seq<NormalizedResult>): int
    requires |group| >= 1
  {
    if |group| == 1 then Citations(group[0])
    else MaxInt(MaxCitations(group[..|group| - 1]), Citations(group[|group| - 1]))
  }

  lemma {:induction false} MergeAllCitations(group: seq<NormalizedResult>)
    requires |group| >= 1
    ensures Citations(MergeAll(group)) == MaxCitations(group)
    ensures |group| >= 2 ==> MergeAll(group).citations.Some?
    ensures forall i :: 0 <= i < |group| ==> Citations(group[i]) <= Citations(MergeAll(group))
  {
    if |group| > 1 {
      MergeAllCitations(group[..|group| - 1]);
      assert forall i :: 0 <= i < |group| - 1 ==> group[i] == group[..|group| - 1][i];
    }
  }

  /** The first record of a group keeps its identity, source and language. */
  lemma {:induction false} MergeAllFirst(group: seq<NormalizedResult>)
    requires |group| >= 1
    ensures MergeAll(group).id == group[0].id
    ensures MergeAll(group).source == group[0].source
    ensures MergeAll(group).lang == group[0].lang
  {
    if |group| > 1 {
      MergeAllFirst(group[..|group| - 1]);
    }
  }

  /** Each retained record is the first one seen for its key (same id, source and
      language) and carries the largest citation count among the records with its
      key; it is defined whenever at least two records shared the key. */
  lemma DedupeRecord(rs: seq<NormalizedResult>, i: nat, parse: UrlParser)
    requires i < |Nub(KeyList(rs, parse))|
    ensures |Dedupe(rs, parse)| == |Nub(KeyList(rs, parse))|
    ensures var k := Nub(KeyList(rs, parse))[i];
            var grp := WithKey(rs, k, parse);
            && grp != []
            && Dedupe(rs, parse)[i].id == grp[0].id
            && Dedupe(rs, parse)[i].source == grp[0].source
            && Citations(Dedupe(rs, parse)[i]) == MaxCitations(grp)
            && (forall j :: 0 <= j < |grp| ==> Citations(grp[j]) <= Citations(Dedupe(rs, parse)[i]))
            && (|grp| >= 2 ==> Dedupe(rs, parse)[i].citations.Some?)
  {
    DedupeIsGrouped(rs, parse);
    var k := Nub(KeyList(rs, parse))[i];
    WithKeyNonEmpty(rs, k, parse);
    var grp := WithKey(rs, k, parse);
    var r := MergeAll(grp);
    assert Dedupe(rs, parse)[i] == r;
    MergeAllCitations(grp);
    MergeAllFirst(grp);
  }

  /** A concrete pair showing the merged score is not the larger of both scores: the
      incoming record has the higher score but fewer citations, so it is ignored. */
  lemma ScoreIgnoresLosingRecord()
    ensures var e := NormalizedResult("a", "T", "u", None, "arxiv", None, None, None, None,
                                      Some("10.1/x"), Some(5), 0.0, []);
            var x := e.(citations := Some(1), score := 1.0);
            Merge(e, x).score == 0.0 && x.score == 1.0
  {
  }

  /** The loop of `dedupeResults`: `seen` maps each key to the index of its
      retained record in `out`. */
  method DedupeResults(results: seq<NormalizedResult>, parse: UrlParser) returns (out: seq<NormalizedResult>)
    ensures out == Dedupe(results, parse)
  {
    var seen: map<string, nat> := map[];
    out := [];
    for i := 0 to |results|
      invariant out == Dedupe(results[..i], parse)
      invariant forall k :: k in seen <==> IndexOfKey(out, k, parse) < |out|
      invariant forall k :: k in seen ==> seen[k] == IndexOfKey(out, k, parse)
    {
      var result := results[i];
      assert results[..i + 1][..i] == results[..i];
      var key := MakeKey(result, parse);
      if key.Some? && key.value in seen {
        var j := seen[key.value];
        var merged := Merge(out[j], result);
        MergeKeepsKey(out[j], result, key.value, parse);
        var out' := out[j := merged];
        IndexOfKeyReplace(out, j, merged, parse);
        out := out';
      } else if key.Some? {
        IndexOfKeyAppend(out, result, parse);
        seen := seen[key.value := |out|];
        out := out + [result];
      }
    }
    assert results[..|results|] == results;
  }

  lemma IndexOfKeyReplace(out: seq<NormalizedResult>, j: nat, m: NormalizedResult, parse: UrlParser)
    requires j < |out| && MakeKey(m, parse) == MakeKey(out[j], parse)
    ensures forall k :: IndexOfKey(out[j := m], k, parse) == IndexOfKey(out, k, parse)
  {
    forall k ensures IndexOfKey(out[j := m], k, parse) == IndexOfKey(out, k, parse) {
      IndexOfKeySameKeys(out, out[j := m], k, parse);
    }
  }

  lemma {:induction false} IndexOfKeySameKeys(a: seq<NormalizedResult>, b: seq<NormalizedResult>, k: string, parse: UrlParser)
    requires |a| == |b|
    requires forall i :: 0 <= i < |a| ==> MakeKey(a[i], parse) == MakeKey(b[i], parse)
    ensures IndexOfKey(a, k, parse) == IndexOfKey(b, k, parse)
  {
    if a != [] {
      IndexOfKeySameKeys(a[1..], b[1..], k, parse);
    }
  }

  lemma IndexOfKeyAppend(out: seq<NormalizedResult>, x: NormalizedResult, parse: UrlParser)
    requires MakeKey(x, parse).Some?
    requires IndexOfKey(out, MakeKey(x, parse).value, parse) == |out|
    ensures forall k :: IndexOfKey(out + [x], k, parse) ==
              if IndexOfKey(out, k, parse) < |out| then IndexOfKey(out, k, parse)
              else if Some(k) == MakeKey(x, parse) then |out| else |out| + 1
  {
    forall k ensures IndexOfKey(out + [x], k, parse) ==
              if IndexOfKey(out, k, parse) < |out| then IndexOfKey(out, k, parse)
              else if Some(k) == MakeKey(x, parse) then |out| else |out| + 1
    {
      IndexOfKeyPrefix(out, x, k, parse);
    }
  }

  lemma {:induction false} IndexOfKeyPrefix(out: seq<NormalizedResult>, x: NormalizedResult, k: string, parse: UrlParser)
    ensures IndexOfKey(out + [x], k, parse) ==
              if IndexOfKey(out, k, parse) < |out| then IndexOfKey(out, k, parse)
              else if Some(k) == MakeKey(x, parse) then |out| else |out| + 1
  {
    if out != [] {
      assert (out + [x])[1..] == out[1..] + [x];
      IndexOfKeyPrefix(out[1..], x, k, parse);
    }
  }
}
