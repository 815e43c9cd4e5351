/** The numeric `sort` of the page: an in-place ascending sort of an array of numbers. The engine only
    relies on the outcome, a sorted permutation, and that outcome is unique. */
module Sorting {
  import opened Seqs

  /** Sorts `a` ascending in place by insertion: each element in turn is moved left past the
      larger ones before it. */
  method SortAscending(a: array<real>)
    modifies a
    ensures Sorted(a[..])
    ensures multiset(a[..]) == old(multiset(a[..]))
  {
    for i := 0 to a.Length
      invariant Sorted(a[..i])
      invariant multiset(a[..]) == old(multiset(a[..]))
    {
      InsertLast(a, i);
    }
    assert a[..] == a[..a.Length];
  }

  /** Moves `a[i]` left past the larger elements of the ascending prefix `a[..i]` by adjacent
      swaps, leaving `a[..i + 1]` ascending and the rest of the array as it was. */
  method InsertLast(a: array<real>, i: nat)
    requires i < a.Length && Sorted(a[..i])
    modifies a
    ensures Sorted(a[..i + 1])
    ensures multiset(a[..]) == old(multiset(a[..]))
    ensures a[i + 1..] == old(a[i + 1..])
  {
    var j := i;
    while j > 0 && a[j - 1] > a[j]
      invariant 0 <= j <= i
      invariant forall p, q :: 0 <= p < q <= i && q != j ==> a[p] <= a[q]
      invariant multiset(a[..]) == old(multiset(a[..]))
      invariant a[i + 1..] == old(a[i + 1..])
    {
      SwapAdjacent(a, j - 1);
      j := j - 1;
    }
  }

  /** Exchanges `a[k]` and `a[k + 1]`. */
  method SwapAdjacent(a: array<real>, k: nat)
    requires k + 1 < a.Length
    modifies a
    ensures a[..] == old(a[..])[k := old(a[k + 1])][k + 1 := old(a[k])]
    ensures multiset(a[..]) == old(multiset(a[..]))
  {
    a[k], a[k + 1] := a[k + 1], a[k];
  }

  /** Two ascending sequences with the same elements are equal, so every correct sort of a
      sample gives the same sequence. */
  lemma {:induction false} SortedPermutationUnique(s: seq<real>, t: seq<real>)
    requires Sorted(s) && Sorted(t) && multiset(s) == multiset(t)
    ensures s == t
    decreases |s|
  {
    assert |s| == |multiset(s)| == |multiset(t)| == |t|;
    if |s| > 0 {
      SameLast(s, t);
      DropLast(s);
      DropLast(t);
      SortedPermutationUnique(s[..|s| - 1], t[..|t| - 1]);
      SnocLast(s);
      SnocLast(t);
    }
  }

  /** A non-empty sequence is its prefix followed by its last element. */
  lemma SnocLast(s: seq<real>)
    requires |s| > 0
    ensures s == s[..|s| - 1] + [s[|s| - 1]]
  {
  }

  /** Ascending sequences with the same non-empty multiset end in the same element, its
      maximum. */
  lemma SameLast(s: seq<real>, t: seq<real>)
    requires Sorted(s) && Sorted(t) && multiset(s) == multiset(t) && |s| > 0 && |t| > 0
    ensures s[|s| - 1] == t[|t| - 1]
  {
    assert s[|s| - 1] in multiset(t) && t[|t| - 1] in multiset(s);
    LastIsMaximum(s, t[|t| - 1]);
    LastIsMaximum(t, s[|s| - 1]);
  }

  /** Dropping the last element of an ascending sequence keeps it ascending and removes one
      occurrence of that element. */
  lemma DropLast(s: seq<real>)
    requires Sorted(s) && |s| > 0
    ensures Sorted(s[..|s| - 1])
    ensures multiset(s[..|s| - 1]) == multiset(s) - multiset{s[|s| - 1]}
  {
    assert s == s[..|s| - 1] + [s[|s| - 1]];
  }

  /** In an ascending sequence every element is at most the last one. */
  lemma LastIsMaximum(s: seq<real>, v: real)
    requires Sorted(s) && v in multiset(s)
    ensures v <= s[|s| - 1]
  {
    var k :| 0 <= k < |s| && s[k] == v;
  }
}
