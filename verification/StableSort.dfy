/**
 A functional account of Go's sort.SliceStable, the library call behind three sorts of the
 backend: policy areas, SLA alerts and GPS pings.

 `less` is the strict comparison handed to the library. A stable sort is fully determined
 by its input, so `Sort` can stand for the library call whatever algorithm that call uses:
 `SortIsTheOnlyStableSort` says any ordered sequence that keeps each group of equal
 elements in input order is `Sort(xs, less)`.
 */
module StableSort {

  /** What the comparison must satisfy for sorting to be meaningful. */
  ghost predicate StrictWeakOrder<T(!new)>(less: (T, T) -> bool) {
    && (forall x :: !less(x, x))
    && (forall x, y, z :: less(x, y) && less(y, z) ==> less(x, z))
    && (forall x, y, z :: less(x, z) ==> less(x, y) || less(y, z))
  }

  predicate Equivalent<T>(less: (T, T) -> bool, x: T, y: T) {
    !less(x, y) && !less(y, x)
  }

  ghost predicate Ordered<T>(xs: seq<T>, less: (T, T) -> bool) {
    forall i, j | 0 <= i < j < |xs| :: !less(xs[j], xs[i])
  }

  /** The elements of `xs` that tie with `e`, in order. */
  function Ties<T>(xs: seq<T>, less: (T, T) -> bool, e: T): seq<T> {
    if xs == [] then []
    else (if Equivalent(less, xs[0], e) then [xs[0]] else []) + Ties(xs[1..], less, e)
  }

  function Insert<T>(x: T, ys: seq<T>, less: (T, T) -> bool): seq<T> {
    if ys == [] || !less(ys[0], x) then [x] + ys
    else [ys[0]] + Insert(x, ys[1..], less)
  }

  function Sort<T>(xs: seq<T>, less: (T, T) -> bool): seq<T> {
    if xs == [] then [] else Insert(xs[0], Sort(xs[1..], less), less)
  }

  lemma {:induction false} InsertPermutes<T>(x: T, ys: seq<T>, less: (T, T) -> bool)
    ensures multiset(Insert(x, ys, less)) == multiset([x] + ys)
  {
    if ys == [] || !less(ys[0], x) {
    } else {
      InsertPermutes(x, ys[1..], less);
      assert ys == [ys[0]] + ys[1..];
    }
  }

  lemma {:induction false} SortPermutes<T>(xs: seq<T>, less: (T, T) -> bool)
    ensures multiset(Sort(xs, less)) == multiset(xs)
    ensures |Sort(xs, less)| == |xs|
  {
    if xs == [] {
    } else {
      SortPermutes(xs[1..], less);
      InsertPermutes(xs[0], Sort(xs[1..], less), less);
      assert xs == [xs[0]] + xs[1..];
    }
    assert |multiset(Sort(xs, less))| == |multiset(xs)|;
  }

  lemma InSort<T>(xs: seq<T>, less: (T, T) -> bool, x: T)
    ensures x in Sort(xs, less) <==> x in xs
  {
    SortPermutes(xs, less);
    assert x in multiset(Sort(xs, less)) <==> x in multiset(xs);
  }

  lemma {:induction false} InsertOrdered<T(!new)>(x: T, ys: seq<T>, less: (T, T) -> bool)
    requires StrictWeakOrder(less) && Ordered(ys, less)
    ensures Ordered(Insert(x, ys, less), less)
  {
    if ys == [] || !less(ys[0], x) {
    } else {
      InsertOrdered(x, ys[1..], less);
      InsertPermutes(x, ys[1..], less);
      var rest := Insert(x, ys[1..], less);
      forall j | 0 <= j < |rest| ensures !less(rest[j], ys[0]) {
        assert rest[j] in multiset([x] + ys[1..]);
      }
    }
  }

  lemma {:induction false} SortOrdered<T(!new)>(xs: seq<T>, less: (T, T) -> bool)
    requires StrictWeakOrder(less)
    ensures Ordered(Sort(xs, less), less)
  {
    if xs == [] {
    } else {
      SortOrdered(xs[1..], less);
      InsertOrdered(xs[0], Sort(xs[1..], less), less);
    }
  }

  lemma {:induction false} InsertKeepsTies<T(!new)>(x: T, ys: seq<T>, less: (T, T) -> bool, e: T)
    requires StrictWeakOrder(less)
    ensures Ties(Insert(x, ys, less), less, e) == Ties([x] + ys, less, e)
  {
    if ys == [] || !less(ys[0], x) {
    } else {
      InsertKeepsTies(x, ys[1..], less, e);
      InsertPastKeepsTies(x, ys, less, e);
    }
  }

  lemma InsertPastKeepsTies<T>(x: T, ys: seq<T>, less: (T, T) -> bool, e: T)
    requires ys != [] && less(ys[0], x) && !(Equivalent(less, ys[0], e) && Equivalent(less, x, e))
    requires Ties(Insert(x, ys[1..], less), less, e) == Ties([x] + ys[1..], less, e)
    ensures Ties(Insert(x, ys, less), less, e) == Ties([x] + ys, less, e)
  {
    TiesOfCons(ys[0], Insert(x, ys[1..], less), less, e);
    TiesOfCons(x, ys[1..], less, e);
    TiesOfCons(x, ys, less, e);
    if !Equivalent(less, ys[0], e) {
      assert Ties(ys, less, e) == Ties(ys[1..], less, e);
      assert Ties(Insert(x, ys, less), less, e) == Ties(Insert(x, ys[1..], less), less, e);
    } else {
      assert Ties([x] + ys, less, e) == Ties(ys, less, e);
      assert Ties([x] + ys[1..], less, e) == Ties(ys[1..], less, e);
    }
  }

  lemma TiesOfCons<T>(x: T, ys: seq<T>, less: (T, T) -> bool, e: T)
    ensures Ties([x] + ys, less, e) == (if Equivalent(less, x, e) then [x] else []) + Ties(ys, less, e)
  {
    assert ([x] + ys)[1..] == ys;
  }

  /** Stability: elements that tie keep their input order. */
  lemma {:induction false} SortKeepsTies<T(!new)>(xs: seq<T>, less: (T, T) -> bool, e: T)
    requires StrictWeakOrder(less)
    ensures Ties(Sort(xs, less), less, e) == Ties(xs, less, e)
  {
    if xs == [] {
    } else {
      SortKeepsTies(xs[1..], less, e);
      InsertKeepsTies(xs[0], Sort(xs[1..], less), less, e);
      assert ([xs[0]] + Sort(xs[1..], less))[1..] == Sort(xs[1..], less);
    }
  }

  lemma {:induction false} TiesMember<T>(xs: seq<T>, less: (T, T) -> bool, e: T, x: T)
    ensures x in Ties(xs, less, e) <==> x in xs && Equivalent(less, x, e)
  {
    if xs == [] {
    } else {
      TiesMember(xs[1..], less, e, x);
      assert xs == [xs[0]] + xs[1..];
    }
  }

  lemma {:induction false} SameTiesSameOrder<T(!new)>(a: seq<T>, b: seq<T>, less: (T, T) -> bool)
    requires StrictWeakOrder(less) && Ordered(a, less) && Ordered(b, less)
    requires forall e :: Ties(a, less, e) == Ties(b, less, e)
    ensures a == b
  {
    if a == [] || b == [] {
      if a != [] {
        TiesMember(a, less, a[0], a[0]);
      }
      if b != [] {
        TiesMember(b, less, b[0], b[0]);
      }
    } else {
      TiesMember(a, less, a[0], a[0]);
      TiesMember(b, less, a[0], a[0]);
      TiesMember(b, less, b[0], b[0]);
      TiesMember(a, less, b[0], b[0]);
      assert a[0] in b && b[0] in a;
      assert Equivalent(less, a[0], b[0]);
      assert Ties(a, less, a[0])[0] == a[0];
      assert Ties(b, less, a[0])[0] == b[0];
      forall e ensures Ties(a[1..], less, e) == Ties(b[1..], less, e) {
        var n := if Equivalent(less, a[0], e) then 1 else 0;
        assert Ties(a[1..], less, e) == Ties(a, less, e)[n..];
        assert Ties(b[1..], less, e) == Ties(b, less, e)[n..];
      }
      SameTiesSameOrder(a[1..], b[1..], less);
      assert a == [a[0]] + a[1..] && b == [b[0]] + b[1..];
    }
  }

  /** Order plus stability pins the result down completely. */
  lemma SortIsTheOnlyStableSort<T(!new)>(xs: seq<T>, ys: seq<T>, less: (T, T) -> bool)
    requires StrictWeakOrder(less) && Ordered(ys, less)
    requires forall e :: Ties(ys, less, e) == Ties(xs, less, e)
    ensures ys == Sort(xs, less)
  {
    SortOrdered(xs, less);
    forall e { SortKeepsTies(xs, less, e); }
    SameTiesSameOrder(ys, Sort(xs, less), less);
  }
}
