/** The stable sort of the standard library, by its meaning: sorted, a permutation, ties in their old order. */
module Sorting {
  ghost predicate TotalOrder<T(!new)>(le: (T, T) -> bool) {
    && (forall x, y :: le(x, y) || le(y, x))
    && (forall x, y, z :: le(x, y) && le(y, z) ==> le(x, z))
  }

  ghost predicate Sorted<T>(xs: seq<T>, le: (T, T) -> bool) {
    forall i, j | 0 <= i < j < |xs| :: le(xs[i], xs[j])
  }

  function Insert<T>(x: T, xs: seq<T>, le: (T, T) -> bool): seq<T> {
    if xs == [] || le(x, xs[0]) then [x] + xs else [xs[0]] + Insert(x, xs[1..], le)
  }

  function StableSort<T>(xs: seq<T>, le: (T, T) -> bool): (r: seq<T>)
    ensures |r| == |xs|
  {
    if xs == [] then []
    else
      InsertLength(xs[0], StableSort(xs[1..], le), le);
      Insert(xs[0], StableSort(xs[1..], le), le)
  }

  lemma {:induction false} InsertLength<T>(x: T, xs: seq<T>, le: (T, T) -> bool)
    ensures |Insert(x, xs, le)| == |xs| + 1
  {
    if xs != [] && !le(x, xs[0]) { InsertLength(x, xs[1..], le); }
  }

  lemma {:induction false} InsertIsPermutation<T>(x: T, xs: seq<T>, le: (T, T) -> bool)
    ensures multiset(Insert(x, xs, le)) == multiset{x} + multiset(xs)
  {
    if xs != [] && !le(x, xs[0]) {
      InsertIsPermutation(x, xs[1..], le);
      assert xs == [xs[0]] + xs[1..];
    }
  }

  lemma {:induction false} SortIsPermutation<T>(xs: seq<T>, le: (T, T) -> bool)
    ensures multiset(StableSort(xs, le)) == multiset(xs)
  {
    if xs != [] {
      SortIsPermutation(xs[1..], le);
      InsertIsPermutation(xs[0], StableSort(xs[1..], le), le);
      assert xs == [xs[0]] + xs[1..];
    }
  }

  lemma SameElements<T>(xs: seq<T>, le: (T, T) -> bool)
    ensures forall x :: x in StableSort(xs, le) <==> x in xs
  {
    SortIsPermutation(xs, le);
    forall x ensures x in StableSort(xs, le) <==> x in xs {
      assert x in StableSort(xs, le) <==> x in multiset(StableSort(xs, le));
      assert x in xs <==> x in multiset(xs);
    }
  }

  lemma {:induction false} InsertIsSorted<T(!new)>(x: T, xs: seq<T>, le: (T, T) -> bool)
    requires TotalOrder(le) && Sorted(xs, le)
    ensures Sorted(Insert(x, xs, le), le)
  {
    if xs != [] && !le(x, xs[0]) {
      InsertIsSorted(x, xs[1..], le);
      InsertIsPermutation(x, xs[1..], le);
      var rest := Insert(x, xs[1..], le);
      forall j | 0 <= j < |rest| ensures le(xs[0], rest[j]) {
        assert rest[j] in multiset(rest);
        assert rest[j] == x || rest[j] in xs[1..];
      }
    } else if xs != [] {
      forall j | 0 <= j < |xs| ensures le(x, xs[j]) { assert le(x, xs[0]) && (j > 0 ==> le(xs[0], xs[j])); }
    }
  }

  lemma {:induction false} SortIsSorted<T(!new)>(xs: seq<T>, le: (T, T) -> bool)
    requires TotalOrder(le)
    ensures Sorted(StableSort(xs, le), le)
  {
    if xs != [] {
      SortIsSorted(xs[1..], le);
      InsertIsSorted(xs[0], StableSort(xs[1..], le), le);
    }
  }

  /** The elements that rank exactly as `z` does, in order. */
  function Ties<T>(z: T, xs: seq<T>, le: (T, T) -> bool): seq<T> {
    if xs == [] then [] else (if le(z, xs[0]) && le(xs[0], z) then [xs[0]] else []) + Ties(z, xs[1..], le)
  }

  lemma {:induction false} InsertBeforeTies<T(!new)>(z: T, x: T, xs: seq<T>, le: (T, T) -> bool)
    requires TotalOrder(le)
    ensures Ties(z, Insert(x, xs, le), le) == Ties(z, [x] + xs, le)
  {
    assert ([x] + xs)[1..] == xs;
    if xs != [] && !le(x, xs[0]) {
      InsertBeforeTies(z, x, xs[1..], le);
      assert ([x] + xs[1..])[1..] == xs[1..];
      assert Insert(x, xs, le)[1..] == Insert(x, xs[1..], le);
    }
  }

  /** Elements of equal rank stay in their order. */
  lemma {:induction false} SortIsStable<T(!new)>(z: T, xs: seq<T>, le: (T, T) -> bool)
    requires TotalOrder(le)
    ensures Ties(z, StableSort(xs, le), le) == Ties(z, xs, le)
  {
    if xs != [] {
      SortIsStable(z, xs[1..], le);
      InsertBeforeTies(z, xs[0], StableSort(xs[1..], le), le);
      assert ([xs[0]] + StableSort(xs[1..], le))[1..] == StableSort(xs[1..], le);
    }
  }
}
