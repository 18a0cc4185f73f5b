/** Sequence combinators behind the source's `filter`, `map` and SQL `WHERE` clauses. */
module Seqs {

  /** The elements of `s` that satisfy `p`, in their original order. */
  function Filter<T(!new)>(s: seq<T>, p: T -> bool): (r: seq<T>)
    ensures |r| <= |s|
    ensures forall x :: x in r <==> x in s && p(x)
  {
    if s == [] then []
    else
      assert s == [s[0]] + s[1..];
      if p(s[0]) then [s[0]] + Filter(s[1..], p) else Filter(s[1..], p)
  }

  /** `f` applied to every element of `s`. */
  function Map<T, U>(s: seq<T>, f: T -> U): (r: seq<U>)
    ensures |r| == |s|
    ensures forall k :: 0 <= k < |s| ==> r[k] == f(s[k])
  {
    if s == [] then [] else [f(s[0])] + Map(s[1..], f)
  }

  /** `a` is obtained from `b` by deleting elements: same order, nothing new. */
  ghost predicate IsSubsequence<T>(a: seq<T>, b: seq<T>)
    decreases |b|
  {
    if a == [] then true
    else if b == [] then false
    else (a[0] == b[0] && IsSubsequence(a[1..], b[1..])) || IsSubsequence(a, b[1..])
  }

  lemma {:induction false} FilterIsSubsequence<T(!new)>(s: seq<T>, p: T -> bool)
    ensures IsSubsequence(Filter(s, p), s)
  {
    if s != [] {
      FilterIsSubsequence(s[1..], p);
      if p(s[0]) {
        assert Filter(s, p)[1..] == Filter(s[1..], p);
      }
    }
  }

  /** Each value occurs in the filtered sequence exactly as often as in `s` when it satisfies `p`, else never. */
  lemma {:induction false} FilterMultiplicity<T(!new)>(s: seq<T>, p: T -> bool, x: T)
    ensures multiset(Filter(s, p))[x] == if p(x) then multiset(s)[x] else 0
  {
    if s != [] {
      FilterMultiplicity(s[1..], p, x);
      assert s == [s[0]] + s[1..];
      assert multiset(s) == multiset{s[0]} + multiset(s[1..]);
      if p(s[0]) {
        assert multiset(Filter(s, p)) == multiset{s[0]} + multiset(Filter(s[1..], p));
      }
    }
  }

  /** Filtering with a condition every element meets changes nothing. */
  lemma {:induction false} FilterKeepsAll<T(!new)>(s: seq<T>, p: T -> bool)
    requires forall k :: 0 <= k < |s| ==> p(s[k])
    ensures Filter(s, p) == s
  {
    if s != [] {
      FilterKeepsAll(s[1..], p);
      assert s == [s[0]] + s[1..];
    }
  }

  /** Mapping preserves the subsequence relation. */
  lemma {:induction false} MapPreservesSubsequence<T, U>(a: seq<T>, b: seq<T>, f: T -> U)
    requires IsSubsequence(a, b)
    ensures IsSubsequence(Map(a, f), Map(b, f))
    decreases |b|
  {
    if a != [] {
      assert b != [];
      assert Map(a, f)[1..] == Map(a[1..], f);
      assert Map(b, f)[1..] == Map(b[1..], f);
      if a[0] == b[0] && IsSubsequence(a[1..], b[1..]) {
        MapPreservesSubsequence(a[1..], b[1..], f);
      } else {
        MapPreservesSubsequence(a, b[1..], f);
      }
    }
  }

  /** A subsequence of a sequence whose keys strictly increase also has strictly increasing keys. */
  lemma {:induction false} SubsequenceKeepsIncreasing<T>(a: seq<T>, b: seq<T>, key: T -> int)
    requires IsSubsequence(a, b)
    requires forall i, j :: 0 <= i < j < |b| ==> key(b[i]) < key(b[j])
    ensures forall i, j :: 0 <= i < j < |a| ==> key(a[i]) < key(a[j])
    decreases |b|
  {
    if a != [] {
      if a[0] == b[0] && IsSubsequence(a[1..], b[1..]) {
        SubsequenceKeepsIncreasing(a[1..], b[1..], key);
        SubsequenceElements(a[1..], b[1..]);
        forall i, j | 0 <= i < j < |a| ensures key(a[i]) < key(a[j]) {
          if i > 0 {
            assert a[i] == a[1..][i - 1] && a[j] == a[1..][j - 1];
          } else {
            assert a[j] == a[1..][j - 1];
            var m :| 0 <= m < |b[1..]| && b[1..][m] == a[j];
            assert b[m + 1] == a[j];
          }
        }
      } else {
        SubsequenceKeepsIncreasing(a, b[1..], key);
      }
    }
  }

  /** Every element of a subsequence is an element of the sequence. */
  lemma {:induction false} SubsequenceElements<T>(a: seq<T>, b: seq<T>)
    requires IsSubsequence(a, b)
    ensures forall k :: 0 <= k < |a| ==> exists m :: 0 <= m < |b| && b[m] == a[k]
    decreases |b|
  {
    if a != [] {
      if a[0] == b[0] && IsSubsequence(a[1..], b[1..]) {
        SubsequenceElements(a[1..], b[1..]);
        forall k | 0 <= k < |a| ensures exists m :: 0 <= m < |b| && b[m] == a[k] {
          if k == 0 {
            assert b[0] == a[0];
          } else {
            assert a[k] == a[1..][k - 1];
            var m :| 0 <= m < |b[1..]| && b[1..][m] == a[k];
            assert b[m + 1] == a[k];
          }
        }
      } else {
        SubsequenceElements(a, b[1..]);
        forall k | 0 <= k < |a| ensures exists m :: 0 <= m < |b| && b[m] == a[k] {
          var m :| 0 <= m < |b[1..]| && b[1..][m] == a[k];
          assert b[m + 1] == a[k];
        }
      }
    }
  }
}
