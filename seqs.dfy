/**
 * Order-preserving filtering of a listing, the shape of every
 * `queryset.filter(...)` in the views, and the default descending orderings
 * of the models.
 */
module Seqs {

  /** `r` is `s` with some elements dropped and the rest kept in order. */
  predicate IsSubsequence<T(==)>(r: seq<T>, s: seq<T>)
    decreases |s|
  {
    if r == [] then true
    else if s == [] then false
    else (r[0] == s[0] && IsSubsequence(r[1..], s[1..])) || IsSubsequence(r, s[1..])
  }

  /** The elements of `s` that satisfy `p`, in their original order. */
  function Filter<T(==,!new)>(s: seq<T>, p: T -> bool): (r: seq<T>)
    ensures |r| <= |s|
    ensures forall x :: x in r <==> x in s && p(x)
    ensures IsSubsequence(r, s)
  {
    if s == [] then []
    else if p(s[0]) then
      var rest := Filter(s[1..], p);
      assert ([s[0]] + rest)[1..] == rest;
      [s[0]] + rest
    else
      Filter(s[1..], p)
  }

  lemma {:induction false} SubsequenceReflexive<T>(s: seq<T>)
    ensures IsSubsequence(s, s)
    decreases |s|
  {
    if s != [] {
      SubsequenceReflexive(s[1..]);
    }
  }

  lemma {:induction false} SubsequenceMembers<T>(r: seq<T>, s: seq<T>)
    requires IsSubsequence(r, s)
    ensures forall x :: x in r ==> x in s
    decreases |s|
  {
    if r != [] {
      assert s != [];
      if r[0] == s[0] && IsSubsequence(r[1..], s[1..]) {
        SubsequenceMembers(r[1..], s[1..]);
        forall x | x in r ensures x in s {
          if x != r[0] { assert x in r[1..]; assert x in s[1..]; }
        }
      } else {
        SubsequenceMembers(r, s[1..]);
      }
    }
  }

  /** Filtering a filtered listing again still yields a subsequence of the original. */
  lemma {:induction false} SubsequenceTransitive<T>(q: seq<T>, r: seq<T>, s: seq<T>)
    requires IsSubsequence(q, r) && IsSubsequence(r, s)
    ensures IsSubsequence(q, s)
    decreases |s|
  {
    if q == [] {
    } else {
      assert r != [] && s != [];
      if r[0] == s[0] && IsSubsequence(r[1..], s[1..]) {
        if q[0] == r[0] && IsSubsequence(q[1..], r[1..]) {
          SubsequenceTransitive(q[1..], r[1..], s[1..]);
        } else {
          SubsequenceTransitive(q, r[1..], s[1..]);
        }
      } else {
        SubsequenceTransitive(q, r, s[1..]);
      }
    }
  }

  /** Listing order of `ordering = ["-key"]`: non-increasing key. */
  predicate DescendingBy<T>(s: seq<T>, key: T -> int)
  {
    forall i, j :: 0 <= i < j < |s| ==> key(s[i]) >= key(s[j])
  }

  /** Dropping elements from a listing never breaks its ordering. */
  lemma {:induction false} SubsequenceKeepsDescending<T>(r: seq<T>, s: seq<T>, key: T -> int)
    requires IsSubsequence(r, s) && DescendingBy(s, key)
    ensures DescendingBy(r, key)
    decreases |s|
  {
    if r != [] {
      assert s != [];
      assert DescendingBy(s[1..], key) by {
        forall i, j | 0 <= i < j < |s| - 1 ensures key(s[1..][i]) >= key(s[1..][j]) {
          assert s[1..][i] == s[i + 1] && s[1..][j] == s[j + 1];
        }
      }
      if r[0] == s[0] && IsSubsequence(r[1..], s[1..]) {
        SubsequenceKeepsDescending(r[1..], s[1..], key);
        SubsequenceMembers(r[1..], s[1..]);
        forall i, j | 0 <= i < j < |r| ensures key(r[i]) >= key(r[j]) {
          if i == 0 {
            assert r[j] in r[1..] by { assert r[j] == r[1..][j - 1]; }
            assert r[j] in s[1..];
            var k :| 0 <= k < |s[1..]| && s[1..][k] == r[j];
            assert s[k + 1] == r[j];
          } else {
            assert r[i] == r[1..][i - 1] && r[j] == r[1..][j - 1];
          }
        }
      } else {
        SubsequenceKeepsDescending(r, s[1..], key);
      }
    }
  }
}
