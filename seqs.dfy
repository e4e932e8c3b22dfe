/** Order-preserving selection over sequences: the shape of a Python list
    comprehension `[x for x in xs if p(x)]`. */
module Seqs {

  /** Keeps the elements of `s` that satisfy `p`, in their original order. */
  function Filter<T(==)>(s: seq<T>, p: T -> bool): (r: seq<T>)
    ensures |r| <= |s|
  {
    if s == [] then [] else (if p(s[0]) then [s[0]] else []) + Filter(s[1..], p)
  }

  /** An element is kept exactly when it occurs in `s` and satisfies `p`. */
  lemma {:induction false} FilterMembers<T>(s: seq<T>, p: T -> bool)
    ensures forall x :: x in Filter(s, p) <==> x in s && p(x)
    decreases |s|
  {
    if s != [] {
      FilterMembers(s[1..], p);
      assert s == [s[0]] + s[1..];
    }
  }

  /** `r` can be obtained from `s` by deleting elements, without reordering. */
  predicate IsSubsequence<T(==)>(r: seq<T>, s: seq<T>)
    decreases |s|
  {
    r == [] || (s != [] && ((r[0] == s[0] && IsSubsequence(r[1..], s[1..])) || IsSubsequence(r, s[1..])))
  }

  lemma {:induction false} FilterIsSubsequence<T>(s: seq<T>, p: T -> bool)
    ensures IsSubsequence(Filter(s, p), s)
    decreases |s|
  {
    if s != [] {
      FilterIsSubsequence(s[1..], p);
      if p(s[0]) {
        assert Filter(s, p) == [s[0]] + Filter(s[1..], p);
        assert Filter(s, p)[1..] == Filter(s[1..], p);
      } else {
        assert Filter(s, p) == Filter(s[1..], p);
      }
    }
  }

  /** Each element that satisfies `p` is kept as often as it occurs; the others are dropped. */
  lemma {:induction false} FilterMultiplicity<T>(s: seq<T>, p: T -> bool, x: T)
    ensures multiset(Filter(s, p))[x] == if p(x) then multiset(s)[x] else 0
    decreases |s|
  {
    if s != [] {
      FilterMultiplicity(s[1..], p, x);
      assert s == [s[0]] + s[1..];
      assert multiset(s) == multiset([s[0]]) + multiset(s[1..]);
    }
  }

  lemma FilterCounts<T>(s: seq<T>, p: T -> bool)
    ensures forall x :: multiset(Filter(s, p))[x] == if p(x) then multiset(s)[x] else 0
  {
    forall x ensures multiset(Filter(s, p))[x] == if p(x) then multiset(s)[x] else 0 {
      FilterMultiplicity(s, p, x);
    }
  }

  /** The last element kept is the last element of `s` that satisfies `p`. */
  lemma {:induction false} FilterLast<T>(s: seq<T>, p: T -> bool, i: nat)
    requires i < |s| && p(s[i])
    requires forall j :: i < j < |s| ==> !p(s[j])
    ensures Filter(s, p) != []
    ensures Filter(s, p)[|Filter(s, p)| - 1] == s[i]
    decreases |s|
  {
    var rest := Filter(s[1..], p);
    if i == 0 {
      assert forall j :: 0 <= j < |s[1..]| ==> !p(s[1..][j]) by {
        forall j | 0 <= j < |s[1..]| ensures !p(s[1..][j]) { assert s[1..][j] == s[j + 1]; }
      }
      FilterEmptyIff(s[1..], p);
      assert Filter(s, p) == [s[0]];
    } else {
      FilterLast(s[1..], p, i - 1);
      assert Filter(s, p) == (if p(s[0]) then [s[0]] else []) + rest;
    }
  }

  /** Sequences that agree elementwise on the test and on a key `f` keep
      elements with the same keys. */
  lemma {:induction false} FilterAgrees<T, U>(a: seq<T>, b: seq<T>, p: T -> bool, f: T -> U)
    requires |a| == |b|
    requires forall i :: 0 <= i < |a| ==> f(a[i]) == f(b[i]) && p(a[i]) == p(b[i])
    ensures |Filter(a, p)| == |Filter(b, p)|
    ensures forall k :: 0 <= k < |Filter(a, p)| ==> f(Filter(a, p)[k]) == f(Filter(b, p)[k])
    decreases |a|
  {
    if a != [] {
      var ta, tb := a[1..], b[1..];
      forall i | 0 <= i < |ta| ensures f(ta[i]) == f(tb[i]) && p(ta[i]) == p(tb[i]) {
        assert ta[i] == a[i + 1] && tb[i] == b[i + 1];
      }
      FilterAgrees(ta, tb, p, f);
      var ra, rb := Filter(ta, p), Filter(tb, p);
      var fa, fb := Filter(a, p), Filter(b, p);
      if p(a[0]) {
        assert fa == [a[0]] + ra && fb == [b[0]] + rb;
        forall k | 0 <= k < |fa| ensures f(fa[k]) == f(fb[k]) {
          if k > 0 {
            assert fa[k] == ra[k - 1] && fb[k] == rb[k - 1];
          }
        }
      } else {
        assert fa == ra && fb == rb;
      }
    }
  }

  /** Nothing is kept exactly when no element of `s` satisfies `p`. */
  lemma FilterEmptyIff<T>(s: seq<T>, p: T -> bool)
    ensures Filter(s, p) == [] <==> forall j :: 0 <= j < |s| ==> !p(s[j])
  {
    FilterMembers(s, p);
  }
}
