/** The source checkbox list's `toggle` (apps/web/src/components/SourcePicker.tsx):
    a selected source is removed, any other is appended. */
module SourcePicker {

  /** `xs.filter((s) => s !== x)`. */
  function Without(xs: seq<string>, x: string): (r: seq<string>)
    ensures x !in r
    ensures forall s :: s != x ==> (s in r <==> s in xs)
    ensures |r| <= |xs|
  {
    if xs == [] then []
    else (if xs[0] == x then [] else [xs[0]]) + Without(xs[1..], x)
  }

  /** `toggle`: flips the source's membership and keeps every other source's. */
  function Toggle(selected: seq<string>, source: string): (r: seq<string>)
    ensures source in r <==> source !in selected
    ensures forall s :: s != source ==> (s in r <==> s in selected)
  {
    if source in selected then Without(selected, source) else selected + [source]
  }

  lemma {:induction false} WithoutAppend(xs: seq<string>, ys: seq<string>, x: string)
    ensures Without(xs + ys, x) == Without(xs, x) + Without(ys, x)
  {
    if xs == [] {
      assert xs + ys == ys;
    } else {
      assert (xs + ys)[1..] == xs[1..] + ys;
      WithoutAppend(xs[1..], ys, x);
    }
  }

  lemma WithoutTwice(xs: seq<string>, x: string)
    ensures Without(Without(xs, x), x) == Without(xs, x)
  {
    WithoutAbsent(Without(xs, x), x);
  }

  lemma {:induction false} WithoutAbsent(xs: seq<string>, x: string)
    requires x !in xs
    ensures Without(xs, x) == xs
  {
    if xs != [] {
      assert x !in xs[1..];
      WithoutAbsent(xs[1..], x);
    }
  }

  /** The other sources keep their relative order: with the toggled source taken
      out, the list before and after is the same. */
  lemma ToggleKeepsOthers(selected: seq<string>, source: string)
    ensures Without(Toggle(selected, source), source) == Without(selected, source)
  {
    if source in selected {
      WithoutTwice(selected, source);
    } else {
      WithoutAppend(selected, [source], source);
      assert Without([source], source) == [];
      assert Without(selected, source) + [] == Without(selected, source);
    }
  }

  /** A selected source goes at every occurrence; an unselected one goes at the end. */
  lemma ToggleShape(selected: seq<string>, source: string)
    ensures source in selected ==> Toggle(selected, source) == Without(selected, source)
    ensures source !in selected ==> Toggle(selected, source) == selected + [source]
    ensures source in selected ==> |Toggle(selected, source)| < |selected|
  {
    if source in selected {
      WithoutShorter(selected, source);
    }
  }

  lemma {:induction false} WithoutShorter(xs: seq<string>, x: string)
    requires x in xs
    ensures |Without(xs, x)| < |xs|
  {
    if xs[0] != x {
      WithoutShorter(xs[1..], x);
    }
  }

  /** Toggling an unselected source twice gives the list back. */
  lemma ToggleTwice(selected: seq<string>, source: string)
    requires source !in selected
    ensures Toggle(Toggle(selected, source), source) == selected
  {
    WithoutAppend(selected, [source], source);
    WithoutAbsent(selected, source);
    assert Without([source], source) == [];
    assert selected + [] == selected;
  }
}
