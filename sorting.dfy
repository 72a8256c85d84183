/**
 * A stable sort by a numeric key, highest key first: what
 * `Array.prototype.sort` does with a comparator of the form
 * `(a, b) => key(b) - key(a)` (the ECMAScript 2019 edition of ECMA-262
 * requires that sort to be stable). An ascending comparator
 * `key(a) - key(b)` is the same sort on the negated key.
 */
module Sorting {
  import opened Seqs

  /** Non-increasing by `key`. */
  predicate SortedDesc<T>(s: seq<T>, key: T -> real) {
    forall i, j :: 0 <= i < j < |s| ==> key(s[i]) >= key(s[j])
  }

  /** The test "has key `v`", as one function value for Filter. */
  function KeyIs<T>(key: T -> real, v: real): T -> bool {
    x => key(x) == v
  }

  /** Insert `x` in front of the first element whose key is not greater than its own. */
  function Insert<T>(x: T, s: seq<T>, key: T -> real): (r: seq<T>)
    ensures |r| == |s| + 1
    decreases |s|
  {
    if s == [] || key(x) >= key(s[0]) then [x] + s
    else [s[0]] + Insert(x, s[1..], key)
  }

  /** Insertion sort: the head goes in front of every later element with the same key. */
  function SortDesc<T>(s: seq<T>, key: T -> real): (r: seq<T>)
    ensures |r| == |s|
    decreases |s|
  {
    if s == [] then [] else Insert(s[0], SortDesc(s[1..], key), key)
  }

  lemma {:induction false} InsertMembers<T>(x: T, s: seq<T>, key: T -> real)
    ensures forall i :: 0 <= i < |Insert(x, s, key)| ==>
      Insert(x, s, key)[i] == x || Insert(x, s, key)[i] in s
    decreases |s|
  {
    if s != [] && key(x) < key(s[0]) {
      InsertMembers(x, s[1..], key);
    }
  }

  lemma {:induction false} InsertSorted<T>(x: T, s: seq<T>, key: T -> real)
    requires SortedDesc(s, key)
    ensures SortedDesc(Insert(x, s, key), key)
    decreases |s|
  {
    if s != [] && key(x) < key(s[0]) {
      InsertSorted(x, s[1..], key);
      InsertMembers(x, s[1..], key);
      var rest := Insert(x, s[1..], key);
      assert forall j :: 0 <= j < |rest| ==> key(s[0]) >= key(rest[j]);
    }
  }

  /** The result is ordered by key, highest first. */
  lemma {:induction false} SortDescSorted<T>(s: seq<T>, key: T -> real)
    ensures SortedDesc(SortDesc(s, key), key)
    decreases |s|
  {
    if s != [] {
      SortDescSorted(s[1..], key);
      InsertSorted(s[0], SortDesc(s[1..], key), key);
    }
  }

  lemma {:induction false} InsertPermutation<T>(x: T, s: seq<T>, key: T -> real)
    ensures multiset(Insert(x, s, key)) == multiset(s) + multiset{x}
    decreases |s|
  {
    if s != [] && key(x) < key(s[0]) {
      InsertPermutation(x, s[1..], key);
      assert s == [s[0]] + s[1..];
    }
  }

  /** The result holds exactly the input's elements, as often as they occur. */
  lemma {:induction false} SortDescPermutation<T>(s: seq<T>, key: T -> real)
    ensures multiset(SortDesc(s, key)) == multiset(s)
    decreases |s|
  {
    if s != [] {
      SortDescPermutation(s[1..], key);
      InsertPermutation(s[0], SortDesc(s[1..], key), key);
      assert s == [s[0]] + s[1..];
    }
  }

  lemma {:induction false} InsertStable<T>(x: T, s: seq<T>, key: T -> real, v: real)
    ensures Filter(Insert(x, s, key), KeyIs(key, v)) == Filter([x] + s, KeyIs(key, v))
    decreases |s|
  {
    var p := KeyIs(key, v);
    if s != [] && key(x) < key(s[0]) {
      InsertStable(x, s[1..], key, v);
      var r := Insert(x, s[1..], key);
      calc {
        Filter(Insert(x, s, key), p);
        { assert Insert(x, s, key) == [s[0]] + r; FilterAppend([s[0]], r, p); }
        Filter([s[0]], p) + Filter(r, p);
        { FilterAppend([x], s[1..], p); }
        Filter([s[0]], p) + (Filter([x], p) + Filter(s[1..], p));
        { assert Filter([s[0]], p) == [] || Filter([x], p) == []; }
        Filter([x], p) + (Filter([s[0]], p) + Filter(s[1..], p));
        { FilterAppend([s[0]], s[1..], p); assert [s[0]] + s[1..] == s; }
        Filter([x], p) + Filter(s, p);
        { FilterAppend([x], s, p); }
        Filter([x] + s, p);
      }
    }
  }

  /**
   * The sort is stable: for every key value, the elements with that key
   * come out in the order they went in.
   */
  lemma {:induction false} SortDescStable<T>(s: seq<T>, key: T -> real, v: real)
    ensures Filter(SortDesc(s, key), KeyIs(key, v)) == Filter(s, KeyIs(key, v))
    decreases |s|
  {
    if s != [] {
      var p := KeyIs(key, v);
      SortDescStable(s[1..], key, v);
      InsertStable(s[0], SortDesc(s[1..], key), key, v);
      FilterAppend([s[0]], SortDesc(s[1..], key), p);
      FilterAppend([s[0]], s[1..], p);
      assert [s[0]] + s[1..] == s;
    }
  }

  /** A comparator that always answers 0 leaves the order as it is. */
  lemma SortConstantKey<T>(s: seq<T>, key: T -> real, c: real)
    requires forall x :: key(x) == c
    ensures SortDesc(s, key) == s
  {
    var sorted := SortDesc(s, key);
    SortDescStable(s, key, c);
    FilterAll(s, KeyIs(key, c));
    FilterAll(sorted, KeyIs(key, c));
  }
}
