/**
 * Sequence operations the engine and the filters are built from:
 * Array.prototype.filter, the "keep the tokens that also occur in the
 * other list" filter, and an insertion-ordered JavaScript Set.
 */
module Seqs {

  /** The elements of `s` that satisfy `p`, in their original order. */
  function Filter<T>(s: seq<T>, p: T -> bool): (r: seq<T>)
    ensures |r| <= |s|
    ensures forall x :: x in r ==> x in s && p(x)
    decreases |s|
  {
    if s == [] then []
    else (if p(s[0]) then [s[0]] else []) + Filter(s[1..], p)
  }

  /** Filter keeps every element of `s` that satisfies `p`, and as often as it occurs. */
  lemma {:induction false} FilterCount<T>(s: seq<T>, p: T -> bool, x: T)
    ensures multiset(Filter(s, p))[x] == if p(x) then multiset(s)[x] else 0
    decreases |s|
  {
    if s != [] {
      FilterCount(s[1..], p, x);
      assert s == [s[0]] + s[1..];
    }
  }

  /** Filtering twice is filtering once by the conjunction. */
  lemma {:induction false} FilterTwice<T>(s: seq<T>, p: T -> bool, q: T -> bool, both: T -> bool)
    requires forall x :: both(x) == (p(x) && q(x))
    ensures Filter(Filter(s, p), q) == Filter(s, both)
    decreases |s|
  {
    if s != [] {
      FilterTwice(s[1..], p, q, both);
      var head := if p(s[0]) then [s[0]] else [];
      assert Filter(s, p) == head + Filter(s[1..], p);
      FilterAppend(head, Filter(s[1..], p), q);
    }
  }

  /** Filter distributes over concatenation. */
  lemma {:induction false} FilterAppend<T>(a: seq<T>, b: seq<T>, p: T -> bool)
    ensures Filter(a + b, p) == Filter(a, p) + Filter(b, p)
    decreases |a|
  {
    if a != [] {
      assert (a + b)[1..] == a[1..] + b;
      FilterAppend(a[1..], b, p);
    } else {
      assert a + b == b;
    }
  }

  /** Filter depends only on which elements the predicate accepts. */
  lemma {:induction false} FilterSame<T>(s: seq<T>, p: T -> bool, q: T -> bool)
    requires forall x :: p(x) == q(x)
    ensures Filter(s, p) == Filter(s, q)
    decreases |s|
  {
    if s != [] {
      FilterSame(s[1..], p, q);
    }
  }

  /** A predicate every element satisfies filters nothing out. */
  lemma {:induction false} FilterAll<T>(s: seq<T>, p: T -> bool)
    requires forall i :: 0 <= i < |s| ==> p(s[i])
    ensures Filter(s, p) == s
    decreases |s|
  {
    if s != [] {
      FilterAll(s[1..], p);
    }
  }

  /** A predicate no element satisfies filters everything out. */
  lemma {:induction false} FilterNone<T>(s: seq<T>, p: T -> bool)
    requires forall i :: 0 <= i < |s| ==> !p(s[i])
    ensures Filter(s, p) == []
    decreases |s|
  {
    if s != [] {
      FilterNone(s[1..], p);
    }
  }

  /** Filtering a prefix yields a prefix of the filtered whole. */
  lemma {:induction false} FilterPrefix<T>(s: seq<T>, n: nat, p: T -> bool)
    requires n <= |s|
    ensures Filter(s[..n], p) <= Filter(s, p)
    decreases n
  {
    if n == 0 {
      assert s[..n] == [];
    } else {
      assert s[..n][0] == s[0];
      assert s[..n][1..] == s[1..][..n - 1];
      FilterPrefix(s[1..], n - 1, p);
    }
  }

  /**
   * `xs.filter(x => ys.includes(x))`: the elements of `xs`, repeats included
   * and in their order, that occur anywhere in `ys`.
   */
  function Common(xs: seq<string>, ys: seq<string>): (r: seq<string>)
    ensures |r| <= |xs|
    decreases |xs|
  {
    if xs == [] then []
    else (if xs[0] in ys then [xs[0]] else []) + Common(xs[1..], ys)
  }

  /** The predicate `x => ys.includes(x)`. */
  function InList(ys: seq<string>): string -> bool {
    x => x in ys
  }

  /** Common is the general `filter` with the `includes` predicate. */
  lemma {:induction false} CommonIsFilter(xs: seq<string>, ys: seq<string>)
    ensures Common(xs, ys) == Filter(xs, InList(ys))
    decreases |xs|
  {
    if xs != [] {
      CommonIsFilter(xs[1..], ys);
    }
  }

  /** An element is common exactly when it occurs in both lists. */
  lemma CommonMembers(xs: seq<string>, ys: seq<string>, x: string)
    ensures x in Common(xs, ys) <==> x in xs && x in ys
  {
    CommonCount(xs, ys, x);
    assert x in Common(xs, ys) <==> x in multiset(Common(xs, ys));
    assert x in xs <==> x in multiset(xs);
  }

  /**
   * Common is a multiset count, not a set intersection: every occurrence in
   * `xs` of an element of `ys` is kept, and nothing else.
   */
  lemma CommonCount(xs: seq<string>, ys: seq<string>, x: string)
    ensures multiset(Common(xs, ys))[x] == if x in ys then multiset(xs)[x] else 0
  {
    CommonIsFilter(xs, ys);
    FilterCount(xs, InList(ys), x);
  }

  /** Every element of a list is common with the list itself. */
  lemma CommonSelf(xs: seq<string>, ys: seq<string>)
    requires forall i :: 0 <= i < |xs| ==> xs[i] in ys
    ensures Common(xs, ys) == xs
  {
    CommonIsFilter(xs, ys);
    FilterAll(xs, InList(ys));
  }

  /** No element occurs twice: the contents of a JavaScript Set. */
  predicate NoDuplicates(s: seq<string>) {
    forall i, j :: 0 <= i < j < |s| ==> s[i] != s[j]
  }

  /** `set.add(x)` on an insertion-ordered set held as a sequence. */
  function Add(members: seq<string>, x: string): (r: seq<string>)
    ensures NoDuplicates(members) ==> NoDuplicates(r)
    ensures forall y :: y in r <==> y in members || y == x
    ensures members <= r
  {
    if x in members then members else members + [x]
  }

  /** `xs.forEach(x => set.add(x))`. */
  function AddAll(members: seq<string>, xs: seq<string>): (r: seq<string>)
    ensures NoDuplicates(members) ==> NoDuplicates(r)
    ensures forall y :: y in r <==> y in members || y in xs
    ensures members <= r
    decreases |xs|
  {
    if xs == [] then members else AddAll(Add(members, xs[0]), xs[1..])
  }

  /** Adding a list one element longer adds that element to the earlier result. */
  lemma {:induction false} AddAllSnoc(members: seq<string>, xs: seq<string>, x: string)
    ensures AddAll(members, xs + [x]) == Add(AddAll(members, xs), x)
    decreases |xs|
  {
    if xs == [] {
      assert xs + [x] == [x];
    } else {
      assert (xs + [x])[1..] == xs[1..] + [x];
      AddAllSnoc(Add(members, xs[0]), xs[1..], x);
    }
  }

  /** Adding the first `k + 1` elements is adding the first `k`, then element `k`. */
  lemma AddAllPrefix(members: seq<string>, xs: seq<string>, k: nat)
    requires k < |xs|
    ensures AddAll(members, xs[..k + 1]) == Add(AddAll(members, xs[..k]), xs[k])
  {
    assert xs[..k + 1] == xs[..k] + [xs[k]];
    AddAllSnoc(members, xs[..k], xs[k]);
  }

  /** Adding several lists' elements, list after list, to an empty set. */
  function Union(lists: seq<seq<string>>): (r: seq<string>)
    ensures NoDuplicates(r)
    decreases |lists|
  {
    if lists == [] then [] else AddAll(Union(lists[..|lists| - 1]), lists[|lists| - 1])
  }

  /** An element is in the union exactly when some list holds it. */
  lemma {:induction false} UnionMembers(lists: seq<seq<string>>, x: string)
    ensures x in Union(lists) <==> exists j :: 0 <= j < |lists| && x in lists[j]
    decreases |lists|
  {
    if lists != [] {
      var n := |lists| - 1;
      var init := lists[..n];
      UnionMembers(init, x);
      if x in Union(init) {
        var j :| 0 <= j < |init| && x in init[j];
        assert lists[j] == init[j];
      } else if x !in lists[n] {
        forall j | 0 <= j < |lists| ensures x !in lists[j] {
          if j < n {
            assert lists[j] == init[j];
          }
        }
      }
    }
  }
}
