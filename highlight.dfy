/** The search-term highlighter (apps/web/src/utils/highlight.tsx) up to the
    regular expression it builds: the guards that return the text unchanged, the
    terms taken from the query, and `escapeRegex`, which makes each term match
    literally. Splitting the text with the expression and marking the parts is
    rendering work of the regular-expression engine and is not modelled. */
module Highlight {
  import opened Strings

  /** The characters `escapeRegex` puts a backslash before: `. * + ? ^ $ { } ( ) | [ ] \`. */
  predicate IsRegexSpecial(c: char)
  {
    c == '.' || c == '*' || c == '+' || c == '?' || c == '^' || c == '$' || c == '{' || c == '}'
    || c == '(' || c == ')' || c == '|' || c == '[' || c == ']' || c == '\\'
  }

  /** `term.replace(/[.*+?^${}()|[\]\\]/g, '\\$&')`. */
  function EscapeRegex(term: string): (r: string)
    ensures |r| >= |term|
    ensures term == [] <==> r == []
  {
    if term == [] then []
    else (if IsRegexSpecial(term[0]) then ['\\', term[0]] else [term[0]]) + EscapeRegex(term[1..])
  }

  /** Deletes the backslash of every escape pair, reading left to right. */
  function Unescape(s: string): (r: string)
    ensures |r| <= |s|
    decreases |s|
  {
    if s == [] then []
    else if s[0] == '\\' && |s| >= 2 then [s[1]] + Unescape(s[2..])
    else [s[0]] + Unescape(s[1..])
  }

  /** A string in which every special character stands escaped: a backslash
      followed by a special character, or a character that is not special. */
  predicate IsEscaped(s: string)
    decreases |s|
  {
    if s == [] then true
    else if s[0] == '\\' then |s| >= 2 && IsRegexSpecial(s[1]) && IsEscaped(s[2..])
    else !IsRegexSpecial(s[0]) && IsEscaped(s[1..])
  }

  /** Deleting the inserted backslashes gives the term back. */
  lemma {:induction false} UnescapeEscape(term: string)
    ensures Unescape(EscapeRegex(term)) == term
  {
    if term != [] {
      var rest := EscapeRegex(term[1..]);
      UnescapeEscape(term[1..]);
      if IsRegexSpecial(term[0]) {
        assert EscapeRegex(term) == ['\\', term[0]] + rest;
        assert (['\\', term[0]] + rest)[2..] == rest;
      } else {
        assert EscapeRegex(term) == [term[0]] + rest;
        assert ([term[0]] + rest)[1..] == rest;
      }
    }
  }

  /** The escaped term leaves no special character unescaped. */
  lemma {:induction false} EscapeIsEscaped(term: string)
    ensures IsEscaped(EscapeRegex(term))
  {
    if term != [] {
      var rest := EscapeRegex(term[1..]);
      EscapeIsEscaped(term[1..]);
      if IsRegexSpecial(term[0]) {
        assert EscapeRegex(term) == ['\\', term[0]] + rest;
        assert (['\\', term[0]] + rest)[2..] == rest;
      } else {
        assert EscapeRegex(term) == [term[0]] + rest;
        assert ([term[0]] + rest)[1..] == rest;
      }
    }
  }

  /** Every fully escaped string is the escape of exactly one term: its unescaping. */
  lemma {:induction false} EscapeUnescape(s: string)
    requires IsEscaped(s)
    ensures EscapeRegex(Unescape(s)) == s
    decreases |s|
  {
    if s != [] {
      if s[0] == '\\' {
        EscapeUnescape(s[2..]);
        assert Unescape(s) == [s[1]] + Unescape(s[2..]);
        assert (([s[1]] + Unescape(s[2..]))[1..]) == Unescape(s[2..]);
        assert s == ['\\', s[1]] + s[2..];
      } else {
        EscapeUnescape(s[1..]);
        assert Unescape(s) == [s[0]] + Unescape(s[1..]);
        assert (([s[0]] + Unescape(s[1..]))[1..]) == Unescape(s[1..]);
        assert s == [s[0]] + s[1..];
      }
    }
  }

  /** Escaping works character by character: escaping a concatenation is
      concatenating the escapes. */
  lemma {:induction false} EscapeAppend(a: string, b: string)
    ensures EscapeRegex(a + b) == EscapeRegex(a) + EscapeRegex(b)
  {
    if a == [] {
      assert a + b == b;
    } else {
      assert (a + b)[1..] == a[1..] + b;
      EscapeAppend(a[1..], b);
    }
  }

  /** A term without special characters is its own escape, and a term with one
      gets longer. */
  lemma {:induction false} EscapePlain(term: string)
    ensures (forall i :: 0 <= i < |term| ==> !IsRegexSpecial(term[i])) <==> EscapeRegex(term) == term
  {
    if term != [] {
      EscapePlain(term[1..]);
      var rest := EscapeRegex(term[1..]);
      if IsRegexSpecial(term[0]) {
        assert |EscapeRegex(term)| == 2 + |rest|;
      } else {
        assert forall i :: 1 <= i < |term| ==> term[i] == term[1..][i - 1];
        if EscapeRegex(term) == term {
          assert rest == EscapeRegex(term)[1..];
        }
      }
    }
  }

  /** `query.split(/\s+/).map((t) => t.trim()).filter(Boolean)`: no term is empty. */
  function Terms(query: string): (ts: seq<string>)
    ensures forall i :: 0 <= i < |ts| ==> ts[i] != []
  {
    var ts := DropEmpty(TrimAll(SplitSpaces(query)));
    assert forall i :: 0 <= i < |ts| ==> ts[i] in ts;
    ts
  }

  /** Each term is a non-empty run of characters that are not white space. */
  lemma TermsAreWords(query: string)
    ensures forall i :: 0 <= i < |Terms(query)| ==> Terms(query)[i] != [] && HasNoSpace(Terms(query)[i])
  {
    var pieces := SplitSpaces(query);
    SplitSpacesNoSpace(query);
    var trimmed := TrimAll(pieces);
    forall k | 0 <= k < |trimmed| ensures trimmed[k] == pieces[k] {
      TrimOfTrimmed(pieces[k]);
    }
    forall t | t in Terms(query) ensures t != [] && HasNoSpace(t) {
      var k :| 0 <= k < |trimmed| && trimmed[k] == t;
    }
    forall i | 0 <= i < |Terms(query)| ensures Terms(query)[i] != [] && HasNoSpace(Terms(query)[i]) {
      assert Terms(query)[i] in Terms(query);
    }
  }

  lemma {:induction false} ConcatDropEmpty(xs: seq<string>)
    ensures Concat(DropEmpty(xs)) == Concat(xs)
  {
    if xs != [] {
      ConcatDropEmpty(xs[1..]);
      if xs[0] != "" {
        ConcatCons(xs[0], DropEmpty(xs[1..]));
      } else {
        assert DropEmpty(xs) == [] + DropEmpty(xs[1..]);
        assert [] + DropEmpty(xs[1..]) == DropEmpty(xs[1..]);
        assert Concat(xs) == xs[0] + Concat(xs[1..]);
        assert xs[0] + Concat(xs[1..]) == Concat(xs[1..]);
      }
    }
  }

  lemma TrimAllOfWords(xs: seq<string>)
    requires forall i :: 0 <= i < |xs| ==> HasNoSpace(xs[i])
    ensures TrimAll(xs) == xs
  {
    forall i | 0 <= i < |xs| ensures TrimAll(xs)[i] == xs[i] {
      WordIsTrimmed(xs[i]);
      TrimOfTrimmed(xs[i]);
    }
  }

  lemma WordIsTrimmed(s: string)
    requires HasNoSpace(s)
    ensures IsTrimmed(s)
  {
    if s != [] {
      assert !IsSpace(s[0]);
      assert !IsSpace(s[|s| - 1]);
    }
  }

  /** The terms together hold exactly the query's characters other than white
      space, in order. */
  lemma TermsKeepText(query: string)
    ensures Concat(Terms(query)) == NonSpace(query)
  {
    SplitSpacesNoSpace(query);
    TrimAllOfWords(SplitSpaces(query));
    ConcatDropEmpty(SplitSpaces(query));
    SplitSpacesKeepsText(query);
  }

  lemma {:induction false} NonSpaceEmpty(s: string)
    ensures NonSpace(s) == [] <==> forall i :: 0 <= i < |s| ==> IsSpace(s[i])
  {
    if s != [] {
      NonSpaceEmpty(s[1..]);
      assert forall i :: 1 <= i < |s| ==> s[i] == s[1..][i - 1];
    }
  }

  /** There are no terms exactly when the query is white space only. */
  lemma NoTermsIffBlank(query: string)
    ensures Terms(query) == [] <==> forall i :: 0 <= i < |query| ==> IsSpace(query[i])
  {
    TermsKeepText(query);
    NonSpaceEmpty(query);
    ConcatEmpty(Terms(query));
  }

  lemma ConcatEmpty(xs: seq<string>)
    requires forall i :: 0 <= i < |xs| ==> xs[i] != []
    ensures Concat(xs) == [] <==> xs == []
  {
    if xs != [] {
      assert Concat(xs) == xs[0] + Concat(xs[1..]);
    }
  }

  /** The alternation source: `(` + the escaped terms joined by `|` + `)`. */
  function Pattern(terms: seq<string>): (r: string)
    ensures |r| >= 2 && r[0] == '(' && r[|r| - 1] == ')'
  {
    "(" + Join(EscapeAll(terms), "|") + ")"
  }

  function EscapeAll(terms: seq<string>): (r: seq<string>)
    ensures |r| == |terms|
    ensures forall i :: 0 <= i < |terms| ==> r[i] == EscapeRegex(terms[i])
  {
    if terms == [] then [] else [EscapeRegex(terms[0])] + EscapeAll(terms[1..])
  }

  /** The result of `highlight`: the text as it was, or the text to be split by the
      case-insensitive, global expression with the given source. */
  datatype Highlighting = Unchanged(text: string) | Marked(text: string, pattern: string)

  /** `highlight` up to the split. */
  function Highlight(text: string, query: string): (r: Highlighting)
    ensures r.text == text
  {
    if text == [] || query == [] then Unchanged(text)
    else if Terms(query) == [] then Unchanged(text)
    else Marked(text, Pattern(Terms(query)))
  }

  /** The text comes back unchanged exactly when it is empty, the query is empty,
      or the query is all white space; otherwise the expression alternates the
      escaped terms. */
  lemma HighlightGuards(text: string, query: string)
    ensures Highlight(text, query).Unchanged? <==>
              text == [] || forall i :: 0 <= i < |query| ==> IsSpace(query[i])
    ensures Highlight(text, query).Marked? ==>
              Highlight(text, query).pattern == "(" + Join(EscapeAll(Terms(query)), "|") + ")"
  {
    NoTermsIffBlank(query);
  }

  /** Each alternative of the expression is an escaped term, and unescaping it
      gives the term back. */
  lemma AlternativesAreLiteral(terms: seq<string>)
    ensures forall i :: 0 <= i < |terms| ==>
              IsEscaped(EscapeAll(terms)[i]) && Unescape(EscapeAll(terms)[i]) == terms[i]
  {
    forall i | 0 <= i < |terms|
      ensures IsEscaped(EscapeAll(terms)[i]) && Unescape(EscapeAll(terms)[i]) == terms[i]
    {
      EscapeIsEscaped(terms[i]);
      UnescapeEscape(terms[i]);
    }
  }

  /** Special characters are escaped where they stand. */
  lemma EscapeDotExample()
    ensures EscapeRegex("a.b") == "a\\.b"
  {
    EscapeAppend("a", ".b");
    EscapeAppend(".", "b");
    assert "a.b" == "a" + ("." + "b");
  }

  lemma EscapeParenExample()
    ensures EscapeRegex("(x)") == "\\(x\\)"
  {
    EscapeAppend("(", "x)");
    EscapeAppend("x", ")");
    assert "(x)" == "(" + ("x" + ")");
  }

  /** A query of blanks changes nothing. */
  lemma BlankQueryExample()
    ensures Highlight("abc", "  ").Unchanged?
  {
    NoTermsIffBlank("  ");
  }
}
