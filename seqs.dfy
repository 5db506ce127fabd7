/** `Array.prototype.filter` and element counting, over sequences. */
module Seqs {

  /** The elements of `xs` that satisfy `p`, in their original order. */
  function Filter<T>(xs: seq<T>, p: T -> bool): (r: seq<T>)
    ensures |r| <= |xs|
    ensures forall i :: 0 <= i < |r| ==> p(r[i])
    decreases |xs|
  {
    if xs == [] then []
    else
      var rest := Filter(xs[1..], p);
      if p(xs[0]) then [xs[0]] + rest else rest
  }

  /** A filter only drops elements: what it keeps is a sub-multiset of the input. */
  lemma {:induction false} FilterSubMultiset<T>(xs: seq<T>, p: T -> bool)
    ensures multiset(Filter(xs, p)) <= multiset(xs)
    decreases |xs|
  {
    if xs != [] {
      FilterSubMultiset(xs[1..], p);
      assert xs == [xs[0]] + xs[1..];
    }
  }

  /** Every element kept comes from the input, and every satisfying input element is kept. */
  lemma {:induction false} FilterKeeps<T>(xs: seq<T>, p: T -> bool)
    ensures forall i :: 0 <= i < |Filter(xs, p)| ==> Filter(xs, p)[i] in xs
    ensures forall i :: 0 <= i < |xs| && p(xs[i]) ==> xs[i] in Filter(xs, p)
    decreases |xs|
  {
    var r := Filter(xs, p);
    FilterSubMultiset(xs, p);
    forall i | 0 <= i < |r| ensures r[i] in xs {
      assert r[i] in multiset(r);
    }
    if xs != [] {
      FilterKeeps(xs[1..], p);
      forall i | 0 <= i < |xs| && p(xs[i]) ensures xs[i] in r {
        if i > 0 {
          assert xs[i] == xs[1..][i - 1];
        }
      }
    }
  }

  /** Filtering a one-element sequence. */
  lemma FilterOne<T>(x: T, p: T -> bool)
    ensures Filter([x], p) == if p(x) then [x] else []
  {
    assert [x][1..] == [];
  }

  /** Filtering a non-empty sequence: its head, then its tail. */
  lemma FilterCons<T>(xs: seq<T>, p: T -> bool)
    requires xs != []
    ensures Filter(xs, p) == Filter([xs[0]], p) + Filter(xs[1..], p)
  {
    FilterOne(xs[0], p);
  }

  /** Filtering distributes over concatenation: together with the one-element case this
      says that `Filter` keeps exactly the satisfying elements and never reorders them. */
  lemma {:induction false} FilterAppend<T>(xs: seq<T>, ys: seq<T>, p: T -> bool)
    ensures Filter(xs + ys, p) == Filter(xs, p) + Filter(ys, p)
    decreases |xs|
  {
    if xs == [] {
      assert xs + ys == ys;
    } else {
      assert (xs + ys)[1..] == xs[1..] + ys;
      FilterAppend(xs[1..], ys, p);
    }
  }

  /** A filter whose predicate holds everywhere changes nothing. */
  lemma {:induction false} FilterAll<T>(xs: seq<T>, p: T -> bool)
    requires forall i :: 0 <= i < |xs| ==> p(xs[i])
    ensures Filter(xs, p) == xs
    decreases |xs|
  {
    if xs != [] {
      FilterAll(xs[1..], p);
    }
  }

  /** A filter whose predicate holds nowhere keeps nothing. */
  lemma {:induction false} FilterNone<T>(xs: seq<T>, p: T -> bool)
    requires forall i :: 0 <= i < |xs| ==> !p(xs[i])
    ensures Filter(xs, p) == []
    decreases |xs|
  {
    if xs != [] {
      FilterNone(xs[1..], p);
    }
  }

  /** The number of elements of `xs` that satisfy `p`. */
  function Count<T>(xs: seq<T>, p: T -> bool): (n: nat)
    ensures n == |Filter(xs, p)|
    ensures n == 0 <==> forall i :: 0 <= i < |xs| ==> !p(xs[i])
    decreases |xs|
  {
    if xs == [] then 0
    else
      var rest := Count(xs[1..], p);
      assert forall i :: 1 <= i < |xs| ==> xs[i] == xs[1..][i - 1];
      (if p(xs[0]) then 1 else 0) + rest
  }

  /** `i` is the one and only index of `xs` whose element satisfies `p`. */
  predicate OnlyAt<T>(xs: seq<T>, p: T -> bool, i: int) {
    0 <= i < |xs| && p(xs[i]) && forall j :: 0 <= j < |xs| && p(xs[j]) ==> j == i
  }

  /** A filter keeps exactly one element precisely when exactly one index satisfies the
      predicate, and that element is the one kept. */
  lemma {:induction false} FilterSingle<T>(xs: seq<T>, p: T -> bool)
    ensures |Filter(xs, p)| == 1 <==> exists i :: OnlyAt(xs, p, i)
    ensures forall i :: OnlyAt(xs, p, i) ==> Filter(xs, p) == [xs[i]]
    decreases |xs|
  {
    if xs != [] {
      var t := xs[1..];
      FilterSingle(t, p);
      assert forall j :: 1 <= j < |xs| ==> xs[j] == t[j - 1];
      if p(xs[0]) {
        if |Filter(xs, p)| == 1 {
          assert Filter(t, p) == [];
          FilterKeeps(t, p);
          assert OnlyAt(xs, p, 0);
        }
        forall i | OnlyAt(xs, p, i) ensures Filter(xs, p) == [xs[i]] {
          assert i == 0;
          forall j | 0 <= j < |t| ensures !p(t[j]) {
            assert xs[j + 1] == t[j];
          }
          FilterNone(t, p);
        }
      } else {
        forall i | OnlyAt(xs, p, i) ensures i >= 1 && OnlyAt(t, p, i - 1) {
          forall j | 0 <= j < |t| && p(t[j]) ensures j == i - 1 {
            assert xs[j + 1] == t[j];
          }
        }
        forall i | OnlyAt(t, p, i) ensures OnlyAt(xs, p, i + 1) {
          forall j | 0 <= j < |xs| && p(xs[j]) ensures j == i + 1 {
            assert j != 0;
            assert t[j - 1] == xs[j];
          }
        }
        if |Filter(xs, p)| == 1 {
          var i :| OnlyAt(t, p, i);
          assert OnlyAt(xs, p, i + 1);
        }
      }
    }
  }

  /** An element is kept exactly when it occurs in the input and satisfies the predicate. */
  lemma FilterMembers<T>(xs: seq<T>, p: T -> bool, e: T)
    ensures e in Filter(xs, p) <==> e in xs && p(e)
  {
    FilterKeeps(xs, p);
    if e in xs && p(e) {
      var i :| 0 <= i < |xs| && xs[i] == e;
    }
    if e in Filter(xs, p) {
      var i :| 0 <= i < |Filter(xs, p)| && Filter(xs, p)[i] == e;
    }
  }

  /** Two sequences with the same multiset of elements have the same members. */
  lemma SameMembers<T>(xs: seq<T>, ys: seq<T>, e: T)
    requires multiset(xs) == multiset(ys)
    ensures e in xs <==> e in ys
  {
    assert e in xs <==> e in multiset(xs);
    assert e in ys <==> e in multiset(ys);
  }

  /** The elements satisfying `p` and those satisfying its negation `q` together make up
      the whole sequence. */
  lemma {:induction false} CountComplement<T>(xs: seq<T>, p: T -> bool, q: T -> bool)
    requires forall x :: q(x) == !p(x)
    ensures |Filter(xs, q)| == |xs| - Count(xs, p)
    decreases |xs|
  {
    if xs != [] {
      CountComplement(xs[1..], p, q);
    }
  }
}
