/** Generic row selection over sequences: the observable meaning of a boolean
    row mask applied to a table, and of dropping rows with missing cells. */
module Sequences {

  /** The elements of `s` that satisfy `p`, in their original order. */
  function Filter<T>(s: seq<T>, p: T -> bool): (r: seq<T>)
    ensures |r| <= |s|
    ensures forall i :: 0 <= i < |r| ==> r[i] in s && p(r[i])
    ensures forall i :: 0 <= i < |s| && p(s[i]) ==> s[i] in r
  {
    if s == [] then []
    else
      var init, last := s[..|s| - 1], s[|s| - 1];
      assert s == init + [last];
      Filter(init, p) + (if p(last) then [last] else [])
  }

  /** A selection keeps every occurrence of an accepted element, duplicates
      included, and no occurrence of a rejected one. */
  lemma {:induction false} FilterMultiplicity<T>(s: seq<T>, p: T -> bool, x: T)
    ensures multiset(Filter(s, p))[x] == (if p(x) then multiset(s)[x] else 0)
  {
    if s != [] {
      var init, last := s[..|s| - 1], s[|s| - 1];
      FilterMultiplicity(init, p, x);
      assert s == init + [last];
      assert multiset(s) == multiset(init) + multiset{last};
    }
  }

  /** `idx` lists strictly increasing positions of `b` whose elements spell out `a`. */
  ghost predicate Embedding<T>(a: seq<T>, b: seq<T>, idx: seq<nat>)
  {
    && |idx| == |a|
    && (forall i :: 0 <= i < |idx| ==> idx[i] < |b| && a[i] == b[idx[i]])
    && (forall i, j :: 0 <= i < j < |idx| ==> idx[i] < idx[j])
  }

  /** `a` is an order-preserving subsequence of `b`. */
  ghost predicate IsSubsequence<T>(a: seq<T>, b: seq<T>)
  {
    exists idx :: Embedding(a, b, idx)
  }

  lemma FilterSnoc<T>(s: seq<T>, x: T, p: T -> bool)
    ensures Filter(s + [x], p) == Filter(s, p) + (if p(x) then [x] else [])
  {
    assert (s + [x])[..|s|] == s;
  }

  /** The kept elements sit at strictly increasing positions of the input. */
  lemma {:induction false} FilterPositions<T>(s: seq<T>, p: T -> bool) returns (idx: seq<nat>)
    ensures Embedding(Filter(s, p), s, idx)
  {
    if s == [] {
      idx := [];
    } else {
      var init, last := s[..|s| - 1], |s| - 1;
      var idx0 := FilterPositions(init, p);
      assert s == init + [s[last]];
      FilterSnoc(init, s[last], p);
      if p(s[last]) {
        idx := idx0 + [last];
        assert Filter(s, p) == Filter(init, p) + [s[last]];
      } else {
        idx := idx0;
        assert Filter(s, p) == Filter(init, p);
      }
    }
  }

  lemma FilterIsSubsequence<T>(s: seq<T>, p: T -> bool)
    ensures IsSubsequence(Filter(s, p), s)
  {
    var idx := FilterPositions(s, p);
  }

  /** Nothing is dropped exactly when every element satisfies the predicate. */
  lemma {:induction false} FilterKeepsAll<T>(s: seq<T>, p: T -> bool)
    ensures |Filter(s, p)| == |s| <==> forall i :: 0 <= i < |s| ==> p(s[i])
    ensures (forall i :: 0 <= i < |s| ==> p(s[i])) ==> Filter(s, p) == s
  {
    if s != [] {
      var init, last := s[..|s| - 1], s[|s| - 1];
      FilterKeepsAll(init, p);
      assert s == init + [last];
      if !p(last) {
        assert |Filter(s, p)| < |s|;
      }
    }
  }

  /** Applying two selections one after the other keeps exactly the elements
      that satisfy both. */
  lemma {:induction false} FilterFusion<T>(s: seq<T>, p: T -> bool, q: T -> bool, both: T -> bool)
    requires forall x :: both(x) == (p(x) && q(x))
    ensures Filter(Filter(s, p), q) == Filter(s, both)
  {
    if s != [] {
      var init, last := s[..|s| - 1], s[|s| - 1];
      FilterFusion(init, p, q, both);
      assert s == init + [last];
      FilterSnoc(init, last, p);
      FilterSnoc(init, last, both);
      assert both(last) == (p(last) && q(last));
      if p(last) {
        FilterSnoc(Filter(init, p), last, q);
        assert Filter(s, p) == Filter(init, p) + [last];
      } else {
        assert Filter(s, p) == Filter(init, p);
      }
    }
  }
}
