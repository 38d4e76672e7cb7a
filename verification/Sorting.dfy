/** Python's `sorted`: a stable insertion order, and what a strict order makes of it. */
module Sorting {

  function Insert<T>(x: T, xs: seq<T>, less: (T, T) -> bool): seq<T> {
    if xs == [] || less(x, xs[0]) then [x] + xs else [xs[0]] + Insert(x, xs[1..], less)
  }

  function Sort<T>(xs: seq<T>, less: (T, T) -> bool): seq<T> {
    if xs == [] then [] else Insert(xs[|xs| - 1], Sort(xs[..|xs| - 1], less), less)
  }

  /** `less` is a strict order, total on the (pairwise different) members of `xs`. */
  ghost predicate Orders<T(!new)>(less: (T, T) -> bool, xs: seq<T>) {
    && (forall a, b :: a in xs && b in xs && less(a, b) ==> !less(b, a))
    && (forall a, b, c :: a in xs && b in xs && c in xs && less(a, b) && less(b, c) ==> less(a, c))
    && (forall a, b :: a in xs && b in xs && a != b ==> less(a, b) || less(b, a))
  }

  ghost predicate Sorted<T>(xs: seq<T>, less: (T, T) -> bool) {
    forall i, j :: 0 <= i < j < |xs| ==> less(xs[i], xs[j])
  }

  lemma {:induction false} InsertMembers<T>(x: T, xs: seq<T>, less: (T, T) -> bool)
    ensures |Insert(x, xs, less)| == |xs| + 1
    ensures forall y :: y in Insert(x, xs, less) <==> y == x || y in xs
  {
    if xs != [] && !less(x, xs[0]) {
      InsertMembers(x, xs[1..], less);
      assert xs == [xs[0]] + xs[1..];
    }
  }

  lemma {:induction false} SortMembers<T>(xs: seq<T>, less: (T, T) -> bool)
    ensures |Sort(xs, less)| == |xs|
    ensures forall y :: y in Sort(xs, less) <==> y in xs
  {
    if xs != [] {
      SortMembers(xs[..|xs| - 1], less);
      InsertMembers(xs[|xs| - 1], Sort(xs[..|xs| - 1], less), less);
      assert xs == xs[..|xs| - 1] + [xs[|xs| - 1]];
    }
  }

  lemma {:induction false} InsertSorted<T(!new)>(x: T, xs: seq<T>, less: (T, T) -> bool)
    requires Sorted(xs, less) && Orders(less, [x] + xs) && x !in xs
    ensures Sorted(Insert(x, xs, less), less)
  {
    if xs != [] {
      var r := Insert(x, xs, less);
      if less(x, xs[0]) {
        forall j | 0 < j < |r|
          ensures less(r[0], r[j])
        {
          assert r[j] in [x] + xs && xs[0] in [x] + xs && x in [x] + xs;
        }
      } else {
        InsertSorted(x, xs[1..], less);
        InsertMembers(x, xs[1..], less);
        forall j | 0 < j < |r|
          ensures less(r[0], r[j])
        {
          assert r[j] in Insert(x, xs[1..], less);
          assert xs[0] in [x] + xs && x in [x] + xs;
        }
      }
    }
  }

  lemma {:induction false} SortSorted<T(!new)>(xs: seq<T>, less: (T, T) -> bool)
    requires Orders(less, xs) && forall i, j :: 0 <= i < j < |xs| ==> xs[i] != xs[j]
    ensures Sorted(Sort(xs, less), less)
  {
    if xs != [] {
      var init, last := xs[..|xs| - 1], xs[|xs| - 1];
      SortSorted(init, less);
      SortMembers(init, less);
      InsertSorted(last, Sort(init, less), less);
    }
  }

  lemma HasMember<T>(xs: seq<T>)
    requires xs != []
    ensures exists x :: x in xs
  {
    assert xs[0] in xs;
  }

  /** A sorted list is determined by its members. */
  lemma {:induction false} SortedUnique<T(!new)>(a: seq<T>, b: seq<T>, less: (T, T) -> bool)
    requires Orders(less, a) && Sorted(a, less) && Sorted(b, less) && forall x :: x in a <==> x in b
    ensures a == b
  {
    if a == [] {
      if b != [] {
        HasMember(b);
      }
    } else {
      assert a[0] in b && (b != [] ==> b[0] in a);
      assert a[0] == b[0];
      forall x
        ensures x in a[1..] <==> x in b[1..]
      {
        assert x in a[1..] ==> x in a && less(a[0], x);
        assert x in b[1..] ==> x in b && less(b[0], x);
        assert x in a ==> x == a[0] || x in a[1..];
        assert x in b ==> x == b[0] || x in b[1..];
      }
      SortedUnique(a[1..], b[1..], less);
      assert a == [a[0]] + a[1..] && b == [b[0]] + b[1..];
    }
  }
}
