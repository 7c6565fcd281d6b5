/** List routines shared by the model: removal of repeated elements keeping the
    first occurrence (what `Array.from(new Set(xs))` and the key order of an
    insertion-ordered `Map` do), and the first position of an element. */
module Seqs {

  predicate NoDuplicates<T(==)>(s: seq<T>)
  {
    forall i, j :: 0 <= i < j < |s| ==> s[i] != s[j]
  }

  /** Position of the first occurrence of `x` in `s`. */
  function FirstIndex<T(==)>(s: seq<T>, x: T): (i: nat)
    requires x in s
    ensures i < |s| && s[i] == x
    ensures forall j :: 0 <= j < i ==> s[j] != x
  {
    if s[0] == x then 0 else 1 + FirstIndex(s[1..], x)
  }

  lemma FirstIndexAppend<T>(s: seq<T>, y: T, x: T)
    requires x in s
    ensures x in s + [y] && FirstIndex(s + [y], x) == FirstIndex(s, x)
  {
    var i := FirstIndex(s, x);
    var t := s + [y];
    assert t[i] == x;
    var k := FirstIndex(t, x);
    assert k <= i;
    assert t[k] == s[k];
  }

  lemma FirstIndexLast<T>(s: seq<T>, y: T)
    requires y !in s
    ensures y in s + [y] && FirstIndex(s + [y], y) == |s|
  {
    var t := s + [y];
    assert t[|s|] == y;
    assert forall j :: 0 <= j < |s| ==> t[j] == s[j];
  }

  /** The distinct elements of `s`, each at the place of its first occurrence. */
  function Nub<T(==)>(s: seq<T>): (r: seq<T>)
    ensures forall i :: 0 <= i < |r| ==> r[i] in s
    ensures forall i :: 0 <= i < |s| ==> s[i] in r
    ensures NoDuplicates(r)
  {
    if s == [] then []
    else
      var init := s[..|s| - 1];
      var x := s[|s| - 1];
      assert s == init + [x];
      var p := Nub(init);
      if x in p then p else p + [x]
  }

  /** The distinct elements appear in the order of their first occurrences. */
  lemma {:induction false} NubOrder<T>(s: seq<T>)
    ensures forall i, j :: 0 <= i < j < |Nub(s)| ==> FirstIndex(s, Nub(s)[i]) < FirstIndex(s, Nub(s)[j])
  {
    if s != [] {
      var init := s[..|s| - 1];
      var x := s[|s| - 1];
      assert s == init + [x];
      NubOrder(init);
      var p := Nub(init);
      forall y | y in init ensures FirstIndex(s, y) == FirstIndex(init, y) {
        FirstIndexAppend(init, x, y);
      }
      if x !in p {
        FirstIndexLast(init, x);
        assert Nub(s) == p + [x];
        forall i | 0 <= i < |p| ensures FirstIndex(s, Nub(s)[i]) < |init| {
          assert Nub(s)[i] == p[i];
          assert p[i] in init;
        }
      }
    }
  }

  /** A list without repetitions is its own set of first occurrences. */
  lemma {:induction false} NubOfDistinct<T>(s: seq<T>)
    requires NoDuplicates(s)
    ensures Nub(s) == s
  {
    if s != [] {
      var init := s[..|s| - 1];
      NubOfDistinct(init);
      assert s[|s| - 1] !in init;
      assert s == init + [s[|s| - 1]];
    }
  }

  lemma NubAppendOld<T>(s: seq<T>, x: T)
    requires x in s
    ensures Nub(s + [x]) == Nub(s)
  {
    assert (s + [x])[..|s|] == s;
  }

  lemma NubAppendNew<T>(s: seq<T>, x: T)
    requires x !in s
    ensures Nub(s + [x]) == Nub(s) + [x]
  {
    assert (s + [x])[..|s|] == s;
  }

  /** `sub` is the subsequence of `xs` at the strictly increasing positions `idx`. */
  ghost predicate IndexedBy<T>(sub: seq<T>, xs: seq<T>, idx: seq<nat>)
  {
    && |idx| == |sub|
    && (forall k :: 0 <= k < |idx| ==> idx[k] < |xs| && sub[k] == xs[idx[k]])
    && (forall k, l :: 0 <= k < l < |idx| ==> idx[k] < idx[l])
  }

  function Shift(idx: seq<nat>): (r: seq<nat>)
    ensures |r| == |idx|
    ensures forall k :: 0 <= k < |idx| ==> r[k] == idx[k] + 1
  {
    if idx == [] then [] else [idx[0] + 1] + Shift(idx[1..])
  }

  /** Positions in the tail of `xs` are the next positions in `xs`. */
  lemma IndexedByTail<T>(sub: seq<T>, xs: seq<T>, idx: seq<nat>)
    requires xs != [] && IndexedBy(sub, xs[1..], idx)
    ensures IndexedBy(sub, xs, Shift(idx))
  {
    forall k | 0 <= k < |idx| ensures sub[k] == xs[Shift(idx)[k]] {
      assert xs[1..][idx[k]] == xs[idx[k] + 1];
    }
  }

  /** Keeping the head of `xs` adds position 0 in front. */
  lemma IndexedByCons<T>(sub: seq<T>, xs: seq<T>, idx: seq<nat>)
    requires xs != [] && IndexedBy(sub, xs[1..], idx)
    ensures IndexedBy([xs[0]] + sub, xs, [0] + Shift(idx))
  {
    IndexedByTail(sub, xs, idx);
    var r := [0] + Shift(idx);
    var t := [xs[0]] + sub;
    forall k | 1 <= k < |r| ensures r[k] < |xs| && t[k] == xs[r[k]] {
      assert r[k] == Shift(idx)[k - 1] && t[k] == sub[k - 1];
    }
  }

  /** A non-empty sequence is its front followed by its last element. */
  lemma FrontLast<T>(s: seq<T>)
    requires s != []
    ensures s == s[..|s| - 1] + [s[|s| - 1]]
  {
  }

  /** A sequence that agrees with `b` except at `p`, where it holds `v`, is `b`
      updated at `p`. */
  lemma UpdatedAt<T>(a: seq<T>, b: seq<T>, p: nat, v: T)
    requires |a| == |b| && p < |b| && a[p] == v
    requires forall i :: 0 <= i < |b| && i != p ==> a[i] == b[i]
    ensures a == b[p := v]
  {
  }

  /** A sequence one longer than `b` that agrees with it and ends in `x` is `b + [x]`. */
  lemma AppendedTo<T>(a: seq<T>, b: seq<T>, x: T)
    requires |a| == |b| + 1 && a[|b|] == x
    requires forall i :: 0 <= i < |b| ==> a[i] == b[i]
    ensures a == b + [x]
  {
  }
}
