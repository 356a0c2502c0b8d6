/** Ascending sort of rows by a nullable numeric column, as a data frame's
    `sort_values` orders them: present values ascending, empty cells last. */
module Sorting {
  import opened Wrappers

  /** The order of sort keys: numbers by value, every empty cell after every number. */
  predicate KeyLe(a: Option<real>, b: Option<real>) {
    match (a, b)
    case (Some(x), Some(y)) => x <= y
    case (Some(_), None) => true
    case (None, None) => true
    case (None, Some(_)) => false
  }

  ghost predicate SortedBy<T>(s: seq<T>, key: T -> Option<real>) {
    forall i, j :: 0 <= i < j < |s| ==> KeyLe(key(s[i]), key(s[j]))
  }

  /** Every element of `s` has a key no smaller than `b`. */
  ghost predicate Above<T>(b: Option<real>, s: seq<T>, key: T -> Option<real>) {
    forall k :: 0 <= k < |s| ==> KeyLe(b, key(s[k]))
  }

  /** Places `x` in front of the first element it does not follow. */
  function Insert<T>(x: T, s: seq<T>, key: T -> Option<real>): seq<T> {
    if s == [] || KeyLe(key(x), key(s[0])) then [x] + s
    else [s[0]] + Insert(x, s[1..], key)
  }

  /** A sorted sequence with a bound below its head is above that bound throughout. */
  lemma SortedAbove<T>(b: Option<real>, s: seq<T>, key: T -> Option<real>)
    requires SortedBy(s, key)
    requires s != [] && KeyLe(b, key(s[0]))
    ensures Above(b, s, key)
  {
  }

  /** A bound below `x` and below all of `s` stays below the inserted result. */
  lemma {:induction false} InsertAbove<T>(b: Option<real>, x: T, s: seq<T>, key: T -> Option<real>)
    requires KeyLe(b, key(x)) && Above(b, s, key)
    ensures Above(b, Insert(x, s, key), key)
  {
    if s != [] && !KeyLe(key(x), key(s[0])) {
      InsertAbove(b, x, s[1..], key);
      var rest := Insert(x, s[1..], key);
      assert Insert(x, s, key) == [s[0]] + rest;
    }
  }

  /** Inserting adds exactly `x`. */
  lemma {:induction false} InsertPermutes<T>(x: T, s: seq<T>, key: T -> Option<real>)
    ensures multiset(Insert(x, s, key)) == multiset(s) + multiset{x}
    ensures |Insert(x, s, key)| == |s| + 1
  {
    if s != [] && !KeyLe(key(x), key(s[0])) {
      assert s == [s[0]] + s[1..];
      InsertPermutes(x, s[1..], key);
    }
  }

  /** Inserting into a sorted sequence keeps it sorted. */
  lemma {:induction false} InsertSorted<T>(x: T, s: seq<T>, key: T -> Option<real>)
    requires SortedBy(s, key)
    ensures SortedBy(Insert(x, s, key), key)
  {
    if s == [] || KeyLe(key(x), key(s[0])) {
      if s != [] {
        SortedAbove(key(x), s, key);
      }
    } else {
      InsertSorted(x, s[1..], key);
      InsertAbove(key(s[0]), x, s[1..], key);
      var rest := Insert(x, s[1..], key);
      assert Insert(x, s, key) == [s[0]] + rest;
      assert Above(key(s[0]), rest, key);
    }
  }

  /** Insertion sort: a sorted rearrangement of `s`. */
  function SortByKey<T>(s: seq<T>, key: T -> Option<real>): (r: seq<T>)
    ensures SortedBy(r, key)
    ensures multiset(r) == multiset(s)
    ensures |r| == |s|
  {
    if s == [] then []
    else
      assert s == [s[0]] + s[1..];
      var rest := SortByKey(s[1..], key);
      InsertSorted(s[0], rest, key);
      InsertPermutes(s[0], rest, key);
      Insert(s[0], rest, key)
  }
}
