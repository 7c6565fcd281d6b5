/** The client's domain helpers (apps/web/src/utils/domainRules.ts): the
    mainstream-suffix test, the boost and block list tests, and the hostname
    normaliser. */
module Domains {
  import opened Types
  import opened Strings
  import Rank

  /** `isMainstream`: whether the whole string, not its hostname, ends with one of
      ".com", ".co", ".tv". */
  function IsMainstream(url: string): (b: bool)
    ensures b <==> EndsWith(url, ".com") || EndsWith(url, ".co") || EndsWith(url, ".tv")
  {
    AnyOfThree(url, ".com", ".co", ".tv");
    Rank.AnySuffix(url, Rank.MainstreamSuffixes)
  }

  lemma AnyOfThree(s: string, a: string, b: string, c: string)
    ensures Rank.AnySuffix(s, [a, b, c]) <==> EndsWith(s, a) || EndsWith(s, b) || EndsWith(s, c)
  {
    assert [c][1..] == [];
    assert Rank.AnySuffix(s, [c]) == EndsWith(s, c);
    assert [b, c][1..] == [c];
    assert Rank.AnySuffix(s, [b, c]) == (EndsWith(s, b) || EndsWith(s, c));
    assert [a, b, c][1..] == [b, c];
  }

  /** A URL with a path is judged by its last characters: a ".com" host with a
      path is not mainstream, while a bare ".tv" string is. */
  lemma MainstreamTestsWholeString()
    ensures !IsMainstream("https://news.com/a")
    ensures IsMainstream("stream.tv")
  {
    assert "https://news.com/a"[14..] == "om/a";
    assert "https://news.com/a"[15..] == "m/a";
    assert "stream.tv"[6..] == ".tv";
  }

  /** `matchesBoost`. */
  function MatchesBoost(domain: string, boostList: Option<seq<string>>): (b: bool)
    ensures boostList.None? || boostList.value == [] ==> !b
    ensures b <==> boostList.Some? && exists i :: 0 <= i < |boostList.value| && EndsWith(domain, boostList.value[i])
  {
    Rank.Matches(domain, boostList)
  }

  /** `matchesBlock`, written out separately in the source with the same body. */
  function MatchesBlock(domain: string, blockList: Option<seq<string>>): (b: bool)
    ensures blockList.None? || blockList.value == [] ==> !b
    ensures b <==> blockList.Some? && exists i :: 0 <= i < |blockList.value| && EndsWith(domain, blockList.value[i])
  {
    Rank.Matches(domain, blockList)
  }

  /** The two list tests agree on every input. */
  lemma BoostBlockAgree(domain: string, list: Option<seq<string>>)
    ensures MatchesBoost(domain, list) == MatchesBlock(domain, list)
  {
  }

  /** Adding entries can only turn a boost test from false to true: a list that
      holds every entry of another matches whatever the other matches. */
  lemma BoostMonotone(domain: string, list: seq<string>, larger: seq<string>)
    requires forall x :: x in list ==> x in larger
    requires MatchesBoost(domain, Some(list))
    ensures MatchesBoost(domain, Some(larger))
  {
    var i :| 0 <= i < |list| && EndsWith(domain, list[i]);
    assert list[i] in larger;
    var j :| 0 <= j < |larger| && larger[j] == list[i];
  }

  /** `hostname.replace(/^www\./, '')`. */
  function StripWww(host: string): (r: string)
    ensures StartsWith(host, "www.") ==> r == host[4..]
    ensures !StartsWith(host, "www.") ==> r == host
  {
    if |host| >= 4 && host[..4] == "www." then host[4..] else host
  }

  /** `normalizeDomain`: the hostname without one leading "www.", or the input
      itself when it does not parse. */
  function NormalizeDomain(url: string, parse: UrlParser): (r: string)
    ensures parse(url).None? ==> r == url
    ensures parse(url).Some? ==> r == StripWww(parse(url).value.hostname)
  {
    match parse(url)
    case Some(u) => StripWww(u.hostname)
    case None => url
  }

  /** At most one "www." goes: the result is the hostname less a prefix of at most
      four characters, and a doubled "www.www." keeps its second one. */
  lemma StripWwwOnce(host: string)
    ensures |StripWww(host)| >= |host| - 4
    ensures EndsWith(host, StripWww(host))
    ensures StripWww("www.www.example.org") == "www.example.org"
    ensures StripWww(StripWww(host)) == StripWww(host) <==> !StartsWith(StripWww(host), "www.")
  {
    assert "www.www.example.org"[..4] == "www.";
    assert "www.www.example.org"[4..] == "www.example.org";
  }
}
