/** `Array.prototype.sort` with a numeric comparator `(a, b) => key(a) - key(b)`.
    The sort is stable, so it is modelled as an insertion sort that places each
    element before the first one whose key is not smaller. */
module Sorting {
  import opened Seqs

  /** Non-decreasing in the key. */
  predicate SortedBy<T>(xs: seq<T>, key: T -> int) {
    forall i, j :: 0 <= i < j < |xs| ==> key(xs[i]) <= key(xs[j])
  }

  /** The test "has key `k`". */
  function KeyIs<T>(key: T -> int, k: int): T -> bool {
    (e: T) => key(e) == k
  }

  /** The elements of `xs` whose key is `k`, in order. */
  function WithKey<T>(xs: seq<T>, key: T -> int, k: int): seq<T> {
    Filter(xs, KeyIs(key, k))
  }

  /** Places `x` before the first element whose key is not smaller. */
  function Insert<T>(x: T, xs: seq<T>, key: T -> int): (r: seq<T>)
    ensures SortedBy(xs, key) ==> SortedBy(r, key)
    ensures multiset(r) == multiset(xs) + multiset{x}
    decreases |xs|
  {
    if xs == [] || key(x) <= key(xs[0]) then [x] + xs
    else
      var rest := Insert(x, xs[1..], key);
      InsertKeepsOrder(x, xs, key, rest);
      [xs[0]] + rest
  }

  lemma InsertKeepsOrder<T>(x: T, xs: seq<T>, key: T -> int, rest: seq<T>)
    requires xs != [] && key(xs[0]) < key(x)
    requires multiset(rest) == multiset(xs[1..]) + multiset{x}
    requires SortedBy(xs[1..], key) ==> SortedBy(rest, key)
    ensures multiset([xs[0]] + rest) == multiset(xs) + multiset{x}
    ensures SortedBy(xs, key) ==> SortedBy([xs[0]] + rest, key)
  {
    assert xs == [xs[0]] + xs[1..];
    if SortedBy(xs, key) {
      forall i | 0 <= i < |rest| ensures key(xs[0]) <= key(rest[i]) {
        assert rest[i] in multiset(rest);
        assert rest[i] == x || rest[i] in xs[1..];
      }
    }
  }

  /** The stable sort on the key: sorted, and a permutation of the input. */
  function SortBy<T>(xs: seq<T>, key: T -> int): (r: seq<T>)
    ensures SortedBy(r, key)
    ensures multiset(r) == multiset(xs)
    decreases |xs|
  {
    if xs == [] then []
    else
      assert xs == [xs[0]] + xs[1..];
      Insert(xs[0], SortBy(xs[1..], key), key)
  }

  /** Inserting keeps the order among elements of any one key, with `x` first among its own. */
  lemma {:induction false} InsertKeepsKeyGroups<T>(x: T, xs: seq<T>, key: T -> int, k: int)
    ensures WithKey(Insert(x, xs, key), key, k) == (if key(x) == k then [x] else []) + WithKey(xs, key, k)
    decreases |xs|
  {
    if xs == [] || key(x) <= key(xs[0]) {
      FilterOne(x, KeyIs(key, k));
      FilterAppend([x], xs, KeyIs(key, k));
    } else {
      InsertKeepsKeyGroups(x, xs[1..], key, k);
      InsertPastHead(x, xs, key, k);
    }
  }

  /** The step of the lemma above where `x` goes past the head of `xs`. */
  lemma InsertPastHead<T>(x: T, xs: seq<T>, key: T -> int, k: int)
    requires xs != [] && key(xs[0]) < key(x)
    requires WithKey(Insert(x, xs[1..], key), key, k)
          == (if key(x) == k then [x] else []) + WithKey(xs[1..], key, k)
    ensures WithKey(Insert(x, xs, key), key, k) == (if key(x) == k then [x] else []) + WithKey(xs, key, k)
  {
    var p := KeyIs(key, k);
    var rest := Insert(x, xs[1..], key);
    assert Insert(x, xs, key) == [xs[0]] + rest;
    FilterAppend([xs[0]], rest, p);
    FilterCons(xs, p);
    FilterOne(xs[0], p);
    if key(x) == k {
      assert !p(xs[0]);
      assert Filter([xs[0]], p) == [];
      assert WithKey(Insert(x, xs, key), key, k) == Filter(rest, p);
      assert WithKey(xs, key, k) == Filter(xs[1..], p);
    } else {
      var none: seq<T> := [];
      assert (if key(x) == k then [x] else []) == none;
      assert none + WithKey(xs[1..], key, k) == WithKey(xs[1..], key, k);
      assert none + WithKey(xs, key, k) == WithKey(xs, key, k);
      assert Filter(rest, p) == WithKey(xs[1..], key, k);
    }
  }

  /** Stability: for every key, the elements with that key keep their input order. With
      sortedness and the permutation property this determines the result completely. */
  lemma {:induction false} SortKeepsKeyGroups<T>(xs: seq<T>, key: T -> int, k: int)
    ensures WithKey(SortBy(xs, key), key, k) == WithKey(xs, key, k)
    decreases |xs|
  {
    if xs != [] {
      SortKeepsKeyGroups(xs[1..], key, k);
      InsertKeepsKeyGroups(xs[0], SortBy(xs[1..], key), key, k);
      FilterCons(xs, KeyIs(key, k));
      FilterOne(xs[0], KeyIs(key, k));
    }
  }

  /** Filtering then sorting keeps exactly the satisfying elements, none twice more than
      in the input. */
  lemma FilterThenSort<T>(xs: seq<T>, p: T -> bool, key: T -> int)
    ensures forall e :: e in SortBy(Filter(xs, p), key) <==> e in xs && p(e)
    ensures multiset(SortBy(Filter(xs, p), key)) <= multiset(xs)
  {
    FilterSubMultiset(xs, p);
    forall e ensures e in SortBy(Filter(xs, p), key) <==> e in xs && p(e) {
      SameMembers(SortBy(Filter(xs, p), key), Filter(xs, p), e);
      FilterMembers(xs, p, e);
    }
  }
}
