/** Shared vocabulary: optional values, Python's string order, and sorting by a strict order. */
module Basics {
  datatype Option<+T> = None | Some(value: T)

  /** Python orders strings by code point: the first differing character decides. */
  predicate StrLess(a: string, b: string) {
    if |b| == 0 then false
    else if |a| == 0 then true
    else if a[0] != b[0] then a[0] < b[0]
    else StrLess(a[1..], b[1..])
  }

  predicate DivergeAt(a: string, b: string, k: int)
    requires 0 <= k <= |a|
  {
    && k < |b|
    && a[..k] == b[..k]
    && (k < |a| ==> (a[k] as int) < (b[k] as int))
  }

  /** The order by code points, without recursion: after a common prefix, a ends or has the smaller character. */
  ghost predicate CodePointsBefore(a: string, b: string) {
    exists k :: 0 <= k <= |a| && DivergeAt(a, b, k)
  }

  lemma DivergeLater(a: string, b: string, k: int)
    requires |a| > 0 && |b| > 0 && a[0] == b[0] && 0 <= k < |a|
    ensures DivergeAt(a, b, k + 1) <==> DivergeAt(a[1..], b[1..], k)
  {
    if k + 1 < |b| {
      assert a[..k + 1] == [a[0]] + a[1..][..k] && b[..k + 1] == [b[0]] + b[1..][..k];
    }
  }

  lemma {:induction false} StrLessIff(a: string, b: string)
    ensures StrLess(a, b) <==> CodePointsBefore(a, b)
  {
    if |a| == 0 || |b| == 0 || a[0] != b[0] {
      assert a[..0] == b[..0];
      assert StrLess(a, b) ==> DivergeAt(a, b, 0);
      if |a| > 0 && |b| > 0 {
        forall k | 0 < k <= |a| && k < |b| ensures !DivergeAt(a, b, k) {
          assert a[..k][0] == a[0] && b[..k][0] == b[0];
        }
      }
    } else {
      StrLessIff(a[1..], b[1..]);
      if k :| 0 <= k <= |a[1..]| && DivergeAt(a[1..], b[1..], k) { DivergeLater(a, b, k); }
      if k :| 0 <= k <= |a| && DivergeAt(a, b, k) {
        if k > 0 { DivergeLater(a, b, k - 1); }
      }
    }
  }

  lemma {:induction false} StrLessTotal(a: string, b: string)
    ensures a == b || StrLess(a, b) || StrLess(b, a)
    ensures StrLess(a, b) ==> !StrLess(b, a)
  {
    if |a| > 0 && |b| > 0 && a[0] == b[0] {
      StrLessTotal(a[1..], b[1..]);
      if a[1..] == b[1..] {
        assert a == [a[0]] + a[1..] && b == [b[0]] + b[1..];
      }
    }
  }

  lemma {:induction false} StrLessTransitive(a: string, b: string, c: string)
    requires StrLess(a, b) && StrLess(b, c)
    ensures StrLess(a, c)
  {
    if |a| > 0 && a[0] == b[0] && b[0] == c[0] {
      StrLessTransitive(a[1..], b[1..], c[1..]);
    }
  }

  // ---- Sorting by a strict order ----

  ghost predicate Asymmetric<T(!new)>(less: (T, T) -> bool) {
    forall x, y :: less(x, y) ==> !less(y, x)
  }

  ghost predicate Transitive<T(!new)>(less: (T, T) -> bool) {
    forall x, y, z :: less(x, y) && less(y, z) ==> less(x, z)
  }

  ghost predicate StrictlySorted<T>(s: seq<T>, less: (T, T) -> bool) {
    forall i, j :: 0 <= i < j < |s| ==> less(s[i], s[j])
  }

  /** Any two positions are comparable one way or the other: in particular no two are equal. */
  ghost predicate Comparable<T>(s: seq<T>, less: (T, T) -> bool) {
    forall i, j :: 0 <= i < j < |s| ==> less(s[i], s[j]) || less(s[j], s[i])
  }

  function Insert<T>(x: T, s: seq<T>, less: (T, T) -> bool): seq<T> {
    if |s| == 0 || less(x, s[0]) then [x] + s
    else [s[0]] + Insert(x, s[1..], less)
  }

  function Sort<T>(s: seq<T>, less: (T, T) -> bool): seq<T> {
    if |s| == 0 then [] else Insert(s[0], Sort(s[1..], less), less)
  }

  lemma {:induction false} InsertElements<T>(x: T, s: seq<T>, less: (T, T) -> bool)
    ensures multiset(Insert(x, s, less)) == multiset{x} + multiset(s)
  {
    if |s| != 0 && !less(x, s[0]) {
      InsertElements(x, s[1..], less);
      assert s == [s[0]] + s[1..];
    }
  }

  lemma {:induction false} SortElements<T>(s: seq<T>, less: (T, T) -> bool)
    ensures multiset(Sort(s, less)) == multiset(s)
    ensures |Sort(s, less)| == |s|
    ensures forall x :: x in Sort(s, less) <==> x in s
  {
    if |s| == 0 {
    } else {
      SortElements(s[1..], less);
      InsertElements(s[0], Sort(s[1..], less), less);
      assert s == [s[0]] + s[1..];
    }
    assert |multiset(Sort(s, less))| == |Sort(s, less)| && |multiset(s)| == |s|;
    forall x ensures x in Sort(s, less) <==> x in s {
      assert x in Sort(s, less) <==> x in multiset(Sort(s, less));
      assert x in s <==> x in multiset(s);
    }
  }

  lemma {:induction false} InsertSorted<T(!new)>(x: T, s: seq<T>, less: (T, T) -> bool)
    requires Transitive(less) && StrictlySorted(s, less)
    requires forall y :: y in s ==> less(x, y) || less(y, x)
    ensures StrictlySorted(Insert(x, s, less), less)
  {
    if |s| != 0 && !less(x, s[0]) {
      InsertSorted(x, s[1..], less);
      var r := Insert(x, s[1..], less);
      InsertElements(x, s[1..], less);
      forall k | 0 <= k < |r| ensures less(s[0], r[k]) {
        assert r[k] in multiset(r);
        assert r[k] == x || r[k] in s[1..];
      }
    }
  }

  lemma {:induction false} SortSorted<T(!new)>(s: seq<T>, less: (T, T) -> bool)
    requires Transitive(less) && Comparable(s, less)
    ensures StrictlySorted(Sort(s, less), less)
  {
    if |s| == 0 {
    } else {
      SortSorted(s[1..], less);
      SortElements(s[1..], less);
      InsertSorted(s[0], Sort(s[1..], less), less);
    }
  }

  /** A set of values has only one strictly sorted listing. */
  lemma {:induction false} SortedListingUnique<T(!new)>(s: seq<T>, t: seq<T>, less: (T, T) -> bool)
    requires Asymmetric(less) && StrictlySorted(s, less) && StrictlySorted(t, less)
    requires forall x :: x in s <==> x in t
    ensures s == t
  {
    if |s| == 0 {
      assert |t| == 0 by {
        assert forall k :: 0 <= k < |t| ==> t[k] in t;
      }
    } else {
      assert s[0] in t && |t| > 0 && t[0] in s;
      assert s[0] == t[0];
      forall x ensures x in s[1..] <==> x in t[1..] {
        assert s == [s[0]] + s[1..] && t == [t[0]] + t[1..];
        if x in s[1..] { assert x in t && less(s[0], x) && x != t[0]; }
        if x in t[1..] { assert x in s && less(t[0], x) && x != s[0]; }
      }
      SortedListingUnique(s[1..], t[1..], less);
      assert s == [s[0]] + s[1..] && t == [t[0]] + t[1..];
    }
  }
}
