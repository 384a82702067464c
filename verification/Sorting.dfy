/** Sorting by a total preorder: what `std::sort` and `std::stable_sort` promise. */
module Sorting {

  ghost predicate TotalPreorder<T(!new)>(leq: (T, T) -> bool) {
    && (forall x, y :: leq(x, y) || leq(y, x))
    && (forall x, y, z :: leq(x, y) && leq(y, z) ==> leq(x, z))
  }

  ghost predicate Sorted<T>(xs: seq<T>, leq: (T, T) -> bool) {
    forall i, j :: 0 <= i < j < |xs| ==> leq(xs[i], xs[j])
  }

  /** Inserts `x` in front of the first element that it does not follow. */
  function Insert<T>(x: T, xs: seq<T>, leq: (T, T) -> bool): seq<T> {
    if xs == [] || leq(x, xs[0]) then [x] + xs else [xs[0]] + Insert(x, xs[1..], leq)
  }

  /** Insertion sort; elements that compare equal keep their order. */
  function Sort<T>(xs: seq<T>, leq: (T, T) -> bool): seq<T> {
    if xs == [] then [] else Insert(xs[0], Sort(xs[1..], leq), leq)
  }

  lemma {:induction false} InsertPermutes<T>(x: T, xs: seq<T>, leq: (T, T) -> bool)
    ensures multiset(Insert(x, xs, leq)) == multiset{x} + multiset(xs)
  {
    if !(xs == [] || leq(x, xs[0])) {
      InsertPermutes(x, xs[1..], leq);
      assert xs == [xs[0]] + xs[1..];
    }
  }

  lemma {:induction false} SortPermutes<T>(xs: seq<T>, leq: (T, T) -> bool)
    ensures multiset(Sort(xs, leq)) == multiset(xs)
    ensures |Sort(xs, leq)| == |xs|
  {
    if xs != [] {
      SortPermutes(xs[1..], leq);
      InsertPermutes(xs[0], Sort(xs[1..], leq), leq);
      assert xs == [xs[0]] + xs[1..];
    }
    assert |multiset(Sort(xs, leq))| == |multiset(xs)|;
  }

  lemma {:induction false} InsertSorts<T(!new)>(x: T, xs: seq<T>, leq: (T, T) -> bool)
    requires TotalPreorder(leq) && Sorted(xs, leq)
    ensures Sorted(Insert(x, xs, leq), leq)
  {
    if xs == [] || leq(x, xs[0]) {
      forall j | 0 <= j < |xs| ensures leq(x, xs[j]) {
        assert leq(xs[0], xs[j]);
      }
    } else {
      var rest := Insert(x, xs[1..], leq);
      InsertSorts(x, xs[1..], leq);
      InsertPermutes(x, xs[1..], leq);
      forall y | y in rest ensures leq(xs[0], y) {
        assert y in multiset(rest);
        assert y == x || y in xs[1..];
      }
    }
  }

  lemma {:induction false} SortSorts<T(!new)>(xs: seq<T>, leq: (T, T) -> bool)
    requires TotalPreorder(leq)
    ensures Sorted(Sort(xs, leq), leq)
  {
    if xs != [] {
      SortSorts(xs[1..], leq);
      InsertSorts(xs[0], Sort(xs[1..], leq), leq);
    }
  }

  // ---------- stability ----------

  /** The elements of a class, in order. */
  function Select<T>(xs: seq<T>, inClass: T -> bool): seq<T> {
    if xs == [] then [] else (if inClass(xs[0]) then [xs[0]] else []) + Select(xs[1..], inClass)
  }

  /** Elements that compare equal. */
  ghost predicate IsClass<T(!new)>(inClass: T -> bool, leq: (T, T) -> bool) {
    forall x, y :: inClass(x) && inClass(y) ==> leq(x, y)
  }

  lemma {:induction false} InsertStable<T(!new)>(x: T, xs: seq<T>, leq: (T, T) -> bool, inClass: T -> bool)
    requires IsClass(inClass, leq)
    ensures Select(Insert(x, xs, leq), inClass) == Select([x] + xs, inClass)
  {
    if !(xs == [] || leq(x, xs[0])) {
      InsertStable(x, xs[1..], leq, inClass);
      assert ([x] + xs)[1..] == xs && ([x] + xs[1..])[1..] == xs[1..];
      assert ([xs[0]] + Insert(x, xs[1..], leq))[1..] == Insert(x, xs[1..], leq);
    }
  }

  /** Elements that compare equal come out in the order in which they went in. */
  lemma {:induction false} SortStable<T(!new)>(xs: seq<T>, leq: (T, T) -> bool, inClass: T -> bool)
    requires IsClass(inClass, leq)
    ensures Select(Sort(xs, leq), inClass) == Select(xs, inClass)
  {
    if xs != [] {
      SortStable(xs[1..], leq, inClass);
      var rest := Sort(xs[1..], leq);
      InsertStable(xs[0], rest, leq, inClass);
      assert ([xs[0]] + rest)[1..] == rest;
    }
  }
}
