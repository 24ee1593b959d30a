/**
 * Kotlin's `List.filter`, with the two facts that pin it down: the result
 * keeps exactly the elements that pass the test, each as often as the input
 * holds it, and keeps them in their input order.
 */
module Seqs {

  /** `a` is `b` with some elements dropped and the others kept in order. */
  predicate IsSubsequence<T(==)>(a: seq<T>, b: seq<T>)
    decreases |b|
  {
    a == [] || (b != [] && ((a[0] == b[0] && IsSubsequence(a[1..], b[1..])) || IsSubsequence(a, b[1..])))
  }

  /** A subsequence holds no element more often than the sequence it was taken from. */
  lemma {:induction false} SubsequenceCounts<T>(a: seq<T>, b: seq<T>)
    requires IsSubsequence(a, b)
    ensures multiset(a) <= multiset(b)
    decreases |b|
  {
    if a != [] {
      assert b == [b[0]] + b[1..];
      if a[0] == b[0] && IsSubsequence(a[1..], b[1..]) {
        SubsequenceCounts(a[1..], b[1..]);
        assert a == [a[0]] + a[1..];
      } else {
        SubsequenceCounts(a, b[1..]);
      }
    }
  }

  lemma {:induction false} SubsequenceTransitive<T>(a: seq<T>, b: seq<T>, c: seq<T>)
    requires IsSubsequence(a, b) && IsSubsequence(b, c)
    ensures IsSubsequence(a, c)
    decreases |c|
  {
    if a != [] {
      if b[0] == c[0] && IsSubsequence(b[1..], c[1..]) {
        if a[0] == b[0] && IsSubsequence(a[1..], b[1..]) {
          SubsequenceTransitive(a[1..], b[1..], c[1..]);
        } else {
          SubsequenceTransitive(a, b[1..], c[1..]);
        }
      } else {
        SubsequenceTransitive(a, b, c[1..]);
      }
    }
  }

  /** `s.filter(p)`: the elements of `s` that satisfy `p`, in order. */
  function Filter<T(==,!new)>(s: seq<T>, p: T -> bool): (r: seq<T>)
    ensures forall i :: 0 <= i < |r| ==> p(r[i])
  {
    if s == [] then [] else (if p(s[0]) then [s[0]] else []) + Filter(s[1..], p)
  }

  /** `Filter` keeps the order of the elements it keeps. */
  lemma {:induction false} FilterIsSubsequence<T(!new)>(s: seq<T>, p: T -> bool)
    ensures IsSubsequence(Filter(s, p), s)
    decreases |s|
  {
    if s != [] {
      FilterIsSubsequence(s[1..], p);
      var r := Filter(s, p);
      if p(s[0]) {
        assert r[0] == s[0] && r[1..] == Filter(s[1..], p);
      } else {
        assert r == Filter(s[1..], p);
      }
    }
  }

  /** `Filter` keeps every passing element as often as `s` holds it, and no other. */
  lemma {:induction false} FilterCounts<T(!new)>(s: seq<T>, p: T -> bool)
    ensures forall x :: multiset(Filter(s, p))[x] == if p(x) then multiset(s)[x] else 0
    decreases |s|
  {
    if s != [] {
      assert s == [s[0]] + s[1..];
      FilterCounts(s[1..], p);
      if p(s[0]) {
        assert Filter(s, p) == [s[0]] + Filter(s[1..], p);
      }
    }
  }

  /** An element of `s` that passes the test is in `Filter(s, p)`. */
  lemma {:induction false} FilterKeeps<T(!new)>(s: seq<T>, p: T -> bool, x: T)
    requires x in s && p(x)
    ensures x in Filter(s, p)
    decreases |s|
  {
    if s[0] != x {
      FilterKeeps(s[1..], p, x);
    }
  }

  /**
   * The properties stated by Filter, FilterCounts and FilterIsSubsequence determine its result: any
   * in-order selection of `s` that passes `p` and misses no passing element
   * is `Filter(s, p)`.
   */
  lemma {:induction false} FilterUnique<T(!new)>(s: seq<T>, p: T -> bool, r: seq<T>)
    requires forall i :: 0 <= i < |r| ==> p(r[i])
    requires forall x :: p(x) ==> multiset(r)[x] == multiset(s)[x]
    requires IsSubsequence(r, s)
    ensures r == Filter(s, p)
    decreases |s|
  {
    if s != [] {
      var x := s[0];
      assert s == [x] + s[1..];
      if p(x) {
        if r != [] && r[0] == x && IsSubsequence(r[1..], s[1..]) {
          assert r == [x] + r[1..];
          forall y | p(y)
            ensures multiset(r[1..])[y] == multiset(s[1..])[y]
          {
          }
          FilterUnique(s[1..], p, r[1..]);
        } else {
          // r would then be a subsequence of s[1..] and hold one copy of x too few
          SubsequenceCounts(r, s[1..]);
          assert false;
        }
      } else {
        assert r == [] || IsSubsequence(r, s[1..]);
        forall y | p(y)
          ensures multiset(r)[y] == multiset(s[1..])[y]
        {
        }
        FilterUnique(s[1..], p, r);
      }
    }
  }

  /** A test every element passes keeps the whole sequence; one none passes keeps nothing. */
  lemma {:induction false} FilterAllOrNone<T(!new)>(s: seq<T>, p: T -> bool)
    ensures (forall i :: 0 <= i < |s| ==> p(s[i])) ==> Filter(s, p) == s
    ensures (forall i :: 0 <= i < |s| ==> !p(s[i])) ==> Filter(s, p) == []
    decreases |s|
  {
    if s != [] {
      FilterAllOrNone(s[1..], p);
      assert s == [s[0]] + s[1..];
      assert forall i :: 0 <= i < |s[1..]| ==> s[1..][i] == s[i + 1];
    }
  }

  /** Filtering a list with one more element at its front. */
  lemma FilterCons<T(!new)>(x: T, s: seq<T>, p: T -> bool)
    ensures Filter([x] + s, p) == (if p(x) then [x] else []) + Filter(s, p)
  {
    assert ([x] + s)[0] == x && ([x] + s)[1..] == s;
  }

  /** Filtering a list with one more element at its end. */
  lemma {:induction false} FilterSnoc<T(!new)>(s: seq<T>, x: T, p: T -> bool)
    ensures Filter(s + [x], p) == Filter(s, p) + (if p(x) then [x] else [])
    decreases |s|
  {
    var tail := if p(x) then [x] else [];
    if s == [] {
      assert s + [x] == [x] == [x] + [];
      assert Filter([x], p) == tail + Filter([], p);
    } else {
      var t := s + [x];
      assert t == [s[0]] + (s[1..] + [x]);
      assert t[0] == s[0] && t[1..] == s[1..] + [x];
      FilterSnoc(s[1..], x, p);
      if p(s[0]) {
        assert Filter(t, p) == [s[0]] + Filter(s[1..] + [x], p);
        assert Filter(s, p) == [s[0]] + Filter(s[1..], p);
        assert [s[0]] + (Filter(s[1..], p) + tail) == ([s[0]] + Filter(s[1..], p)) + tail;
      } else {
        assert Filter(t, p) == Filter(s[1..] + [x], p);
        assert Filter(s, p) == Filter(s[1..], p);
      }
    }
  }
}
