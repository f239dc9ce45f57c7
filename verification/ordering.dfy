/**
 * Orders and the stable sort used by `Array.prototype.sort` with a
 * consistent comparator. A comparator `cmp` is represented by the relation
 * `le(a, b)`, meaning `cmp(a, b) <= 0`; it is consistent when that relation
 * is a total preorder (two distinct values may compare as equal).
 */
module Ordering {

  /** Every two values compare one way or the other, and comparison chains. */
  ghost predicate TotalPreorder<T(!new)>(le: (T, T) -> bool) {
    && (forall a, b :: le(a, b) || le(b, a))
    && (forall a, b, c :: le(a, b) && le(b, c) ==> le(a, c))
  }

  /** Every element is ordered before-or-equal every later element. */
  ghost predicate SortedBy<T>(le: (T, T) -> bool, s: seq<T>) {
    forall i, j :: 0 <= i < j < |s| ==> le(s[i], s[j])
  }

  /** Places `x` just before the first element it is ordered before-or-equal. */
  function Insert<T>(x: T, s: seq<T>, le: (T, T) -> bool): (r: seq<T>)
    ensures multiset(r) == multiset(s) + multiset{x}
    decreases |s|
  {
    if |s| == 0 then [x]
    else if le(x, s[0]) then [x] + s
    else
      assert s == [s[0]] + s[1..];
      [s[0]] + Insert(x, s[1..], le)
  }

  /**
   * A stable sort: insertion of each element, from the last to the first,
   * keeps equal elements in their original order.
   */
  function Sort<T>(s: seq<T>, le: (T, T) -> bool): (r: seq<T>)
    ensures multiset(r) == multiset(s)
    decreases |s|
  {
    if |s| == 0 then []
    else
      assert s == [s[0]] + s[1..];
      Insert(s[0], Sort(s[1..], le), le)
  }

  /** Every element of `s` is ordered after-or-equal `y`. */
  ghost predicate AllAfter<T>(le: (T, T) -> bool, y: T, s: seq<T>) {
    forall k :: 0 <= k < |s| ==> le(y, s[k])
  }

  /** A sequence with a head is sorted when its tail is and the head comes first. */
  lemma SortedCons<T>(le: (T, T) -> bool, y: T, t: seq<T>)
    requires AllAfter(le, y, t) && SortedBy(le, t)
    ensures SortedBy(le, [y] + t)
  {
    var r := [y] + t;
    forall i, j | 0 <= i < j < |r| ensures le(r[i], r[j]) {
      assert r[j] == t[j - 1];
      if i > 0 {
        assert r[i] == t[i - 1];
      }
    }
  }

  /** Inserting an element that comes after `y` keeps everything after `y`. */
  lemma {:induction false} InsertAllAfter<T>(le: (T, T) -> bool, y: T, x: T, s: seq<T>)
    requires le(y, x) && AllAfter(le, y, s)
    ensures AllAfter(le, y, Insert(x, s, le))
    decreases |s|
  {
    if |s| > 0 && !le(x, s[0]) {
      InsertAllAfter(le, y, x, s[1..]);
    }
  }

  /** Inserting into a sorted sequence keeps it sorted. */
  lemma {:induction false} InsertSorted<T(!new)>(x: T, s: seq<T>, le: (T, T) -> bool)
    requires TotalPreorder(le)
    requires SortedBy(le, s)
    ensures SortedBy(le, Insert(x, s, le))
    decreases |s|
  {
    if |s| > 0 {
      if le(x, s[0]) {
        assert AllAfter(le, x, s);
        SortedCons(le, x, s);
      } else {
        assert SortedBy(le, s[1..]);
        InsertSorted(x, s[1..], le);
        assert AllAfter(le, s[0], s[1..]);
        InsertAllAfter(le, s[0], x, s[1..]);
        SortedCons(le, s[0], Insert(x, s[1..], le));
      }
    }
  }

  /** The sort's output is ordered under any consistent comparator. */
  lemma {:induction false} SortSorted<T(!new)>(s: seq<T>, le: (T, T) -> bool)
    requires TotalPreorder(le)
    ensures SortedBy(le, Sort(s, le))
    decreases |s|
  {
    if |s| > 0 {
      SortSorted(s[1..], le);
      InsertSorted(s[0], Sort(s[1..], le), le);
    }
  }

  /**
   * Lexicographic order on Unicode code points, the characters of a Dafny
   * string. It differs from JavaScript's default comparison, which orders
   * UTF-16 code units, only for characters outside the Basic Multilingual Plane.
   */
  predicate CodePointLe(a: string, b: string)
    decreases |a|
  {
    |a| == 0 || (|b| > 0 && (a[0] < b[0] || (a[0] == b[0] && CodePointLe(a[1..], b[1..]))))
  }

  /** Code-point order compares any two strings. */
  lemma {:induction false} CodePointLeTotal(a: string, b: string)
    ensures CodePointLe(a, b) || CodePointLe(b, a)
    decreases |a|
  {
    if |a| > 0 && |b| > 0 && a[0] == b[0] {
      CodePointLeTotal(a[1..], b[1..]);
    }
  }

  /** Code-point order chains. */
  lemma {:induction false} CodePointLeTransitive(a: string, b: string, c: string)
    requires CodePointLe(a, b) && CodePointLe(b, c)
    ensures CodePointLe(a, c)
    decreases |a|
  {
    if |a| > 0 && a[0] == b[0] && b[0] == c[0] {
      CodePointLeTransitive(a[1..], b[1..], c[1..]);
    }
  }

  /** So code-point order is one consistent comparator a locale may use. */
  lemma CodePointLeIsTotalPreorder()
    ensures TotalPreorder(CodePointLe)
  {
    forall a, b ensures CodePointLe(a, b) || CodePointLe(b, a) {
      CodePointLeTotal(a, b);
    }
    forall a, b, c | CodePointLe(a, b) && CodePointLe(b, c) ensures CodePointLe(a, c) {
      CodePointLeTransitive(a, b, c);
    }
  }
}
