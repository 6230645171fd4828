/**
 * Sequence operations behind the ORM's query chain: a filter that keeps
 * order, the subsequence relation it produces, and ordering by a key.
 */
module Seqs {

  /** The elements of `s` that satisfy `f`, in the order of `s`. */
  function Filter<T(==,!new)>(f: T -> bool, s: seq<T>): (r: seq<T>)
    ensures |r| <= |s|
    ensures forall x :: x in r <==> x in s && f(x)
    decreases |s|
  {
    if s == [] then []
    else
      assert s == [s[0]] + s[1..];
      (if f(s[0]) then [s[0]] else []) + Filter(f, s[1..])
  }

  /** Filtering twice is filtering once by the conjunction, in the same order. */
  lemma {:induction false} FilterFilter<T(!new)>(f: T -> bool, g: T -> bool, h: T -> bool, s: seq<T>)
    requires forall x :: h(x) == (f(x) && g(x))
    ensures Filter(g, Filter(f, s)) == Filter(h, s)
    decreases |s|
  {
    if s != [] {
      FilterFilter(f, g, h, s[1..]);
      var fs := Filter(f, s);
      if f(s[0]) {
        assert fs[0] == s[0] && fs[1..] == Filter(f, s[1..]);
      } else {
        assert fs == Filter(f, s[1..]);
      }
    }
  }

  /** Filters that agree on every element give the same result. */
  lemma {:induction false} FilterCongruent<T(!new)>(f: T -> bool, g: T -> bool, s: seq<T>)
    requires forall x :: x in s ==> f(x) == g(x)
    ensures Filter(f, s) == Filter(g, s)
    decreases |s|
  {
    if s != [] {
      FilterCongruent(f, g, s[1..]);
    }
  }

  /** No element of `s` occurs twice. */
  predicate Distinct<T(==)>(s: seq<T>)
  {
    forall i, j :: 0 <= i < j < |s| ==> s[i] != s[j]
  }

  /**
   * The first `m` elements a filter keeps are the first `m` of `s` that satisfy
   * it: an element that satisfies `f` and comes before a kept one is kept too.
   */
  lemma {:induction false} FilterTakesFirst<T(!new)>(f: T -> bool, s: seq<T>, m: nat)
    requires Distinct(s)
    requires m <= |Filter(f, s)|
    ensures forall i, j :: 0 <= i < j < |s| && f(s[i]) && s[j] in Filter(f, s)[..m] ==> s[i] in Filter(f, s)[..m]
    decreases |s|
  {
    if s != [] {
      var fs := Filter(f, s);
      var tail := Filter(f, s[1..]);
      assert Distinct(s[1..]);
      if f(s[0]) {
        assert fs == [s[0]] + tail;
        if m > 0 {
          FilterTakesFirst(f, s[1..], m - 1);
          assert fs[..m] == [s[0]] + tail[..m - 1];
        }
      } else {
        assert fs == tail;
        FilterTakesFirst(f, s[1..], m);
      }
      forall i, j | 0 <= i < j < |s| && f(s[i]) && s[j] in fs[..m]
        ensures s[i] in fs[..m]
      {
        if i == 0 {
          assert fs[0] == s[0];
        } else {
          assert s[i] == s[1..][i - 1] && s[j] == s[1..][j - 1];
        }
      }
    }
  }

  /** `a` can be obtained from `b` by deleting elements. */
  predicate IsSubsequence<T(==)>(a: seq<T>, b: seq<T>)
    decreases |b|
  {
    a == [] || (b != [] && ((a[0] == b[0] && IsSubsequence(a[1..], b[1..])) || IsSubsequence(a, b[1..])))
  }

  lemma {:induction false} FilterIsSubsequence<T(!new)>(f: T -> bool, s: seq<T>)
    ensures IsSubsequence(Filter(f, s), s)
    decreases |s|
  {
    if s != [] {
      FilterIsSubsequence(f, s[1..]);
      var fs := Filter(f, s);
      if f(s[0]) {
        assert fs[0] == s[0] && fs[1..] == Filter(f, s[1..]);
      } else {
        assert fs == Filter(f, s[1..]);
      }
    }
  }

  lemma {:induction false} PrefixIsSubsequence<T>(a: seq<T>, b: seq<T>)
    requires a <= b
    ensures IsSubsequence(a, b)
    decreases |b|
  {
    if a != [] {
      PrefixIsSubsequence(a[1..], b[1..]);
    }
  }

  lemma {:induction false} SubsequenceTransitive<T>(a: seq<T>, b: seq<T>, c: seq<T>)
    requires IsSubsequence(a, b) && IsSubsequence(b, c)
    ensures IsSubsequence(a, c)
    decreases |c|
  {
    if a != [] {
      if IsSubsequence(b, c[1..]) {
        SubsequenceTransitive(a, b, c[1..]);
      } else if a[0] == b[0] && IsSubsequence(a[1..], b[1..]) {
        SubsequenceTransitive(a[1..], b[1..], c[1..]);
      } else {
        SubsequenceTransitive(a, b[1..], c[1..]);
      }
    }
  }

  lemma {:induction false} SubsequenceElements<T>(a: seq<T>, b: seq<T>)
    requires IsSubsequence(a, b)
    ensures forall x :: x in a ==> x in b
    decreases |b|
  {
    if a != [] {
      if IsSubsequence(a, b[1..]) {
        SubsequenceElements(a, b[1..]);
      } else {
        SubsequenceElements(a[1..], b[1..]);
        assert a == [a[0]] + a[1..];
      }
    }
  }

  /** `s` is ordered by `key`, largest first (the ORM's `-field` ordering). */
  predicate SortedDescending<T>(key: T -> int, s: seq<T>)
  {
    forall i, j :: 0 <= i < j < |s| ==> key(s[i]) >= key(s[j])
  }

  /** Deleting elements keeps a sequence ordered. */
  lemma {:induction false} SubsequenceKeepsOrder<T>(key: T -> int, a: seq<T>, b: seq<T>)
    requires IsSubsequence(a, b) && SortedDescending(key, b)
    ensures SortedDescending(key, a)
    decreases |b|
  {
    if a != [] {
      assert SortedDescending(key, b[1..]);
      if IsSubsequence(a, b[1..]) {
        SubsequenceKeepsOrder(key, a, b[1..]);
      } else {
        SubsequenceKeepsOrder(key, a[1..], b[1..]);
        SubsequenceElements(a[1..], b[1..]);
        forall j | 0 < j < |a|
          ensures key(a[0]) >= key(a[j])
        {
          assert a[j] == a[1..][j - 1];
          assert a[j] in a[1..];
          var k :| 0 <= k < |b[1..]| && b[1..][k] == a[j];
          assert b[k + 1] == a[j];
        }
      }
    }
  }
}
