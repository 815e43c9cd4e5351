/** Sequence helpers shared by the statistics engine: the JavaScript array
    methods `filter` and `reduce`, and `Math.min`/`Math.max` over a spread array. */
module Seqs {

  /** Ascending order, as the numeric comparator of the page's sorts produces. */
  predicate Sorted(s: seq<real>) {
    forall i, j :: 0 <= i < j < |s| ==> s[i] <= s[j]
  }

  /** `Array.prototype.filter`: the elements satisfying `f`, in their original order. */
  function Filter<T>(s: seq<T>, f: T -> bool): (r: seq<T>)
    ensures |r| <= |s|
    decreases |s|
  {
    if s == [] then []
    else Filter(s[..|s| - 1], f) + (if f(s[|s| - 1]) then [s[|s| - 1]] else [])
  }

  /** An element is kept by a filter exactly when it occurs in the input and satisfies the predicate. */
  lemma {:induction false} FilterMembers<T>(s: seq<T>, f: T -> bool)
    ensures forall i :: 0 <= i < |Filter(s, f)| ==> Filter(s, f)[i] in s && f(Filter(s, f)[i])
    ensures forall i :: 0 <= i < |s| && f(s[i]) ==> s[i] in Filter(s, f)
    decreases |s|
  {
    if s != [] {
      var init := s[..|s| - 1];
      FilterMembers(init, f);
      assert s == init + [s[|s| - 1]];
      forall i | 0 <= i < |s| && f(s[i]) ensures s[i] in Filter(s, f) {
        if i < |init| {
          assert s[i] == init[i];
        }
      }
    }
  }

  /** Filtering distributes over concatenation. */
  lemma {:induction false} FilterAppend<T>(a: seq<T>, b: seq<T>, f: T -> bool)
    ensures Filter(a + b, f) == Filter(a, f) + Filter(b, f)
    decreases |b|
  {
    if b == [] {
      assert a + b == a;
    } else {
      var b' := b[..|b| - 1];
      assert (a + b)[..|a + b| - 1] == a + b';
      assert (a + b)[|a + b| - 1] == b[|b| - 1];
      FilterAppend(a, b', f);
    }
  }

  /** A filter that keeps everything is the identity. */
  lemma {:induction false} FilterAll<T>(s: seq<T>, f: T -> bool)
    requires forall i :: 0 <= i < |s| ==> f(s[i])
    ensures Filter(s, f) == s
    decreases |s|
  {
    if s != [] {
      FilterAll(s[..|s| - 1], f);
      assert s[..|s| - 1] + [s[|s| - 1]] == s;
    }
  }

  /** A filter that keeps nothing is empty. */
  lemma {:induction false} FilterNone<T>(s: seq<T>, f: T -> bool)
    requires forall i :: 0 <= i < |s| ==> !f(s[i])
    ensures Filter(s, f) == []
    decreases |s|
  {
    if s != [] {
      FilterNone(s[..|s| - 1], f);
    }
  }

  /** A filter of a sorted sequence is sorted: it is an order-preserving subsequence. */
  lemma {:induction false} FilterSorted(s: seq<real>, f: real -> bool)
    requires Sorted(s)
    ensures Sorted(Filter(s, f))
    decreases |s|
  {
    if s != [] {
      var init := s[..|s| - 1];
      FilterSorted(init, f);
      FilterMembers(init, f);
      var r := Filter(init, f);
      forall x | x in r ensures x <= s[|s| - 1] {
        var i :| 0 <= i < |init| && init[i] == x;
      }
    }
  }

  /** Exactly one of three conditions holds. */
  predicate ExactlyOne(a: bool, b: bool, c: bool) {
    (a && !b && !c) || (!a && b && !c) || (!a && !b && c)
  }

  /** Three filters whose predicates split every element three ways split the multiset too. */
  lemma {:induction false} FilterPartition3<T>(s: seq<T>, f: T -> bool, g: T -> bool, h: T -> bool)
    requires forall i :: 0 <= i < |s| ==> ExactlyOne(f(s[i]), g(s[i]), h(s[i]))
    ensures multiset(Filter(s, f)) + multiset(Filter(s, g)) + multiset(Filter(s, h)) == multiset(s)
    decreases |s|
  {
    if s != [] {
      var init, x := s[..|s| - 1], s[|s| - 1];
      FilterPartition3(init, f, g, h);
      assert init + [x] == s;
      assert ExactlyOne(f(x), g(x), h(x));
    }
  }

  /** The sum, folded from the left starting at 0. */
  function Sum(s: seq<real>): real
    decreases |s|
  {
    if s == [] then 0.0 else Sum(s[..|s| - 1]) + s[|s| - 1]
  }

  /** `Math.min(...s)` of a non-empty array. */
  function MinOf(s: seq<real>): (m: real)
    requires |s| > 0
    ensures m in s
    ensures forall i :: 0 <= i < |s| ==> m <= s[i]
    decreases |s|
  {
    if |s| == 1 then s[0]
    else
      var rest := MinOf(s[..|s| - 1]);
      if s[|s| - 1] < rest then s[|s| - 1] else rest
  }

  /** `Math.max(...s)` of a non-empty array. */
  function MaxOf(s: seq<real>): (m: real)
    requires |s| > 0
    ensures m in s
    ensures forall i :: 0 <= i < |s| ==> s[i] <= m
    decreases |s|
  {
    if |s| == 1 then s[0]
    else
      var rest := MaxOf(s[..|s| - 1]);
      if s[|s| - 1] > rest then s[|s| - 1] else rest
  }
}
