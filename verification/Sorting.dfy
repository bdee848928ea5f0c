/**
 Stable sorting with a caller-supplied `less`, as `sort.SliceStable` promises it. `Sort` is the
 specification; `StableSortUnique` shows that every algorithm meeting the promise gives this result.
 */
module Sorting {

  /** `less` is a strict weak order on the elements of `xs`. */
  ghost predicate WeakOrderOn<T(!new)>(less: (T, T) -> bool, xs: seq<T>) {
    && (forall x, y :: x in xs && y in xs && less(x, y) ==> !less(y, x))
    && (forall x, y, z :: x in xs && y in xs && z in xs && !less(x, y) && !less(y, z) ==> !less(x, z))
  }

  /** `less` moreover separates distinct elements of `xs`. */
  ghost predicate TotalOrderOn<T(!new)>(less: (T, T) -> bool, xs: seq<T>) {
    && WeakOrderOn(less, xs)
    && (forall x, y :: x in xs && y in xs && x != y ==> less(x, y) || less(y, x))
  }

  ghost predicate Sorted<T>(less: (T, T) -> bool, xs: seq<T>) {
    forall i, j :: 0 <= i < j < |xs| ==> !less(xs[j], xs[i])
  }

  predicate Tied<T>(less: (T, T) -> bool, x: T, y: T) {
    !less(x, y) && !less(y, x)
  }

  function Ties<T>(less: (T, T) -> bool, x: T, xs: seq<T>): seq<T> {
    if xs == [] then []
    else if Tied(less, x, xs[0]) then [xs[0]] + Ties(less, x, xs[1..])
    else Ties(less, x, xs[1..])
  }

  /** `ys` holds the elements of `xs`, in order, tied elements in their original order. */
  ghost predicate StableSortOf<T(!new)>(less: (T, T) -> bool, xs: seq<T>, ys: seq<T>) {
    && multiset(ys) == multiset(xs)
    && Sorted(less, ys)
    && (forall x :: x in xs ==> Ties(less, x, ys) == Ties(less, x, xs))
  }

  /** Puts `x` before everything that is not strictly smaller. */
  function Insert<T>(less: (T, T) -> bool, x: T, ys: seq<T>): seq<T> {
    if ys != [] && less(ys[0], x) then [ys[0]] + Insert(less, x, ys[1..]) else [x] + ys
  }

  function Sort<T>(less: (T, T) -> bool, xs: seq<T>): seq<T> {
    if xs == [] then [] else Insert(less, xs[0], Sort(less, xs[1..]))
  }

  lemma {:induction false} InsertPermutes<T>(less: (T, T) -> bool, x: T, ys: seq<T>)
    ensures multiset(Insert(less, x, ys)) == multiset(ys) + multiset{x}
  {
    if ys != [] && less(ys[0], x) {
      InsertPermutes(less, x, ys[1..]);
      assert ys == [ys[0]] + ys[1..];
    }
  }

  lemma {:induction false} SortPermutes<T>(less: (T, T) -> bool, xs: seq<T>)
    ensures multiset(Sort(less, xs)) == multiset(xs)
    ensures |Sort(less, xs)| == |xs|
    ensures forall x :: x in Sort(less, xs) <==> x in xs
  {
    if xs != [] {
      SortPermutes(less, xs[1..]);
      InsertPermutes(less, xs[0], Sort(less, xs[1..]));
      assert xs == [xs[0]] + xs[1..];
    }
    SameElements(Sort(less, xs), xs);
  }

  lemma SameElements<T>(xs: seq<T>, ys: seq<T>)
    requires multiset(xs) == multiset(ys)
    ensures |xs| == |ys|
    ensures forall x :: x in xs <==> x in ys
  {
    assert |xs| == |multiset(xs)| && |ys| == |multiset(ys)|;
    assert forall x :: x in xs <==> x in multiset(xs);
    assert forall x :: x in ys <==> x in multiset(ys);
  }

  lemma WeakOrderOnSubset<T(!new)>(less: (T, T) -> bool, xs: seq<T>, ys: seq<T>)
    requires WeakOrderOn(less, xs) && forall y :: y in ys ==> y in xs
    ensures WeakOrderOn(less, ys)
  {
  }

  lemma SortedCons<T>(less: (T, T) -> bool, h: T, t: seq<T>)
    requires Sorted(less, t) && forall z :: z in t ==> !less(z, h)
    ensures Sorted(less, [h] + t)
  {
    var s := [h] + t;
    forall i, j | 0 <= i < j < |s| ensures !less(s[j], s[i]) {
      assert s[j] == t[j-1] && s[j] in t;
      assert i > 0 ==> s[i] == t[i-1];
    }
  }

  lemma InsertElements<T>(less: (T, T) -> bool, x: T, ys: seq<T>)
    ensures forall z :: z in Insert(less, x, ys) <==> z == x || z in ys
  {
    InsertPermutes(less, x, ys);
    assert multiset(Insert(less, x, ys)) == multiset([x] + ys);
    SameElements(Insert(less, x, ys), [x] + ys);
  }

  lemma {:induction false} InsertSorts<T(!new)>(less: (T, T) -> bool, x: T, ys: seq<T>)
    requires Sorted(less, ys) && WeakOrderOn(less, [x] + ys)
    ensures Sorted(less, Insert(less, x, ys))
  {
    var all := [x] + ys;
    assert x in all && forall i :: 0 <= i < |ys| ==> ys[i] in all;
    if ys != [] && less(ys[0], x) {
      assert forall z :: z in [x] + ys[1..] ==> z in all;
      WeakOrderOnSubset(less, all, [x] + ys[1..]);
      InsertSorts(less, x, ys[1..]);
      InsertElements(less, x, ys[1..]);
      SortedCons(less, ys[0], Insert(less, x, ys[1..]));
    } else {
      forall z | z in ys ensures !less(z, x) {
        assert !less(z, ys[0]) && !less(ys[0], x);
      }
      SortedCons(less, x, ys);
    }
  }

  lemma {:induction false} InsertTies<T(!new)>(less: (T, T) -> bool, x: T, ys: seq<T>, y: T)
    requires WeakOrderOn(less, [x, y] + ys)
    ensures Ties(less, y, Insert(less, x, ys)) == (if Tied(less, y, x) then [x] else []) + Ties(less, y, ys)
  {
    if ys != [] && less(ys[0], x) {
      InsertTies(less, x, ys[1..], y);
      assert Insert(less, x, ys)[1..] == Insert(less, x, ys[1..]);
      assert x in [x, y] + ys && y in [x, y] + ys && ys[0] in [x, y] + ys;
      assert !(Tied(less, y, x) && Tied(less, y, ys[0]));
    } else {
      assert Insert(less, x, ys)[1..] == ys;
    }
  }

  /** For a strict weak order the result is the sorted, stable permutation. */
  lemma {:induction false} SortIsStableSort<T(!new)>(less: (T, T) -> bool, xs: seq<T>)
    requires WeakOrderOn(less, xs)
    ensures StableSortOf(less, xs, Sort(less, xs))
  {
    SortPermutes(less, xs);
    if xs != [] {
      var x, rest := xs[0], Sort(less, xs[1..]);
      SortPermutes(less, xs[1..]);
      WeakOrderOnSubset(less, xs, xs[1..]);
      SortIsStableSort(less, xs[1..]);
      WeakOrderOnSubset(less, xs, [x] + rest);
      InsertSorts(less, x, rest);
      forall y | y in xs ensures Ties(less, y, Sort(less, xs)) == Ties(less, y, xs) {
        WeakOrderOnSubset(less, xs, [x, y] + rest);
        InsertTies(less, x, rest, y);
        TiesOfSort(less, xs[1..], y, xs);
      }
    }
  }

  /** Stability also against elements that are not in the sequence. */
  lemma {:induction false} TiesOfSort<T(!new)>(less: (T, T) -> bool, xs: seq<T>, y: T, all: seq<T>)
    requires WeakOrderOn(less, all) && y in all && forall x :: x in xs ==> x in all
    ensures Ties(less, y, Sort(less, xs)) == Ties(less, y, xs)
  {
    if xs == [] {
    } else {
      TiesOfSort(less, xs[1..], y, all);
      SortPermutes(less, xs[1..]);
      WeakOrderOnSubset(less, all, [xs[0], y] + Sort(less, xs[1..]));
      InsertTies(less, xs[0], Sort(less, xs[1..]), y);
    }
  }

  lemma HeadsAgree<T(!new)>(less: (T, T) -> bool, ys: seq<T>, zs: seq<T>)
    requires Sorted(less, ys) && Sorted(less, zs) && ys != [] && zs != []
    requires ys[0] in zs && zs[0] in ys && !less(ys[0], ys[0])
    requires Ties(less, ys[0], ys) == Ties(less, ys[0], zs) && !less(zs[0], zs[0])
    ensures ys[0] == zs[0]
  {
    assert Tied(less, ys[0], zs[0]);
    assert ys[0] == Ties(less, ys[0], ys)[0];
    assert zs[0] == Ties(less, ys[0], zs)[0];
  }

  lemma TailTies<T(!new)>(less: (T, T) -> bool, x: T, ys: seq<T>, zs: seq<T>)
    requires ys != [] && zs != [] && ys[0] == zs[0] && Ties(less, x, ys) == Ties(less, x, zs)
    ensures Ties(less, x, ys[1..]) == Ties(less, x, zs[1..])
  {
    if Tied(less, x, ys[0]) {
      assert Ties(less, x, ys[1..]) == Ties(less, x, ys)[1..];
      assert Ties(less, x, zs[1..]) == Ties(less, x, zs)[1..];
    }
  }

  lemma TailMultiset<T>(ys: seq<T>)
    requires ys != []
    ensures multiset(ys[1..]) == multiset(ys) - multiset{ys[0]}
  {
    assert ys == [ys[0]] + ys[1..];
  }

  lemma {:induction false} TiesEqualMeansEqual<T(!new)>(less: (T, T) -> bool, all: seq<T>, ys: seq<T>, zs: seq<T>)
    requires WeakOrderOn(less, all) && Sorted(less, ys) && Sorted(less, zs)
    requires multiset(ys) == multiset(zs) && forall y :: y in ys ==> y in all
    requires forall x :: x in all ==> Ties(less, x, ys) == Ties(less, x, zs)
    ensures ys == zs
  {
    SameElements(ys, zs);
    if ys != [] {
      assert ys[0] in ys && zs[0] in zs;
      HeadsAgree(less, ys, zs);
      TailMultiset(ys);
      TailMultiset(zs);
      forall x | x in all ensures Ties(less, x, ys[1..]) == Ties(less, x, zs[1..]) {
        TailTies(less, x, ys, zs);
      }
      TiesEqualMeansEqual(less, all, ys[1..], zs[1..]);
    }
  }

  /** The stable sort is unique, so the library's algorithm cannot matter. */
  lemma StableSortUnique<T(!new)>(less: (T, T) -> bool, xs: seq<T>, ys: seq<T>)
    requires WeakOrderOn(less, xs) && StableSortOf(less, xs, ys)
    ensures ys == Sort(less, xs)
  {
    SortIsStableSort(less, xs);
    SameElements(ys, xs);
    TiesEqualMeansEqual(less, xs, ys, Sort(less, xs));
  }

  lemma {:induction false} TiesInTotalOrder<T(!new)>(less: (T, T) -> bool, all: seq<T>, x: T, xs: seq<T>)
    requires TotalOrderOn(less, all) && x in all && forall y :: y in xs ==> y in all
    ensures |Ties(less, x, xs)| == multiset(xs)[x]
    ensures forall y :: y in Ties(less, x, xs) ==> y == x
  {
    if xs == [] {
    } else {
      assert xs[0] in all;
      assert xs == [xs[0]] + xs[1..];
      TiesInTotalOrder(less, all, x, xs[1..]);
    }
  }

  lemma SameTies<T(!new)>(less: (T, T) -> bool, all: seq<T>, x: T, xs: seq<T>, ys: seq<T>)
    requires TotalOrderOn(less, all) && x in all && multiset(xs) == multiset(ys) && forall y :: y in xs ==> y in all
    ensures Ties(less, x, xs) == Ties(less, x, ys)
  {
    SameElements(xs, ys);
    TiesInTotalOrder(less, all, x, xs);
    TiesInTotalOrder(less, all, x, ys);
    var a, b := Ties(less, x, xs), Ties(less, x, ys);
    assert forall i :: 0 <= i < |a| ==> a[i] in a && b[i] in b;
  }

  /** Under a total order any sorted permutation is the result, whatever order the input came in. */
  lemma SortIgnoresInputOrder<T(!new)>(less: (T, T) -> bool, xs: seq<T>, ys: seq<T>)
    requires TotalOrderOn(less, xs) && multiset(xs) == multiset(ys)
    ensures Sort(less, xs) == Sort(less, ys)
  {
    SameElements(xs, ys);
    SortPermutes(less, xs);
    SortPermutes(less, ys);
    SortIsStableSort(less, xs);
    WeakOrderOnSubset(less, xs, ys);
    SortIsStableSort(less, ys);
    forall x | x in xs ensures Ties(less, x, Sort(less, xs)) == Ties(less, x, Sort(less, ys)) {
      SameTies(less, xs, x, Sort(less, xs), Sort(less, ys));
    }
    TiesEqualMeansEqual(less, xs, Sort(less, xs), Sort(less, ys));
  }

  function Map<T, U>(f: T -> U, xs: seq<T>): (r: seq<U>)
    ensures |r| == |xs|
    ensures forall i :: 0 <= i < |xs| ==> r[i] == f(xs[i])
  {
    if xs == [] then [] else [f(xs[0])] + Map(f, xs[1..])
  }

  lemma {:induction false} InsertByKey<T(!new), K>(less: (T, T) -> bool, kless: (K, K) -> bool, key: T -> K, x: T, ys: seq<T>)
    requires forall a, b :: less(a, b) <==> kless(key(a), key(b))
    ensures Map(key, Insert(less, x, ys)) == Insert(kless, key(x), Map(key, ys))
  {
    if ys != [] && less(ys[0], x) {
      InsertByKey(less, kless, key, x, ys[1..]);
      assert Insert(less, x, ys)[1..] == Insert(less, x, ys[1..]);
    }
  }

  /** Sorting by a comparator that looks at a key only commutes with taking the keys. */
  lemma {:induction false} SortByKey<T(!new), K>(less: (T, T) -> bool, kless: (K, K) -> bool, key: T -> K, xs: seq<T>)
    requires forall a, b :: less(a, b) <==> kless(key(a), key(b))
    ensures Map(key, Sort(less, xs)) == Sort(kless, Map(key, xs))
  {
    if xs == [] {
    } else {
      SortByKey(less, kless, key, xs[1..]);
      InsertByKey(less, kless, key, xs[0], Sort(less, xs[1..]));
    }
  }
}
