/**
 Go's `sort` package. sort.Slice is not stable and leaves open which of several sorted permutations it
 produces, so properties are proved for every result that SortOf admits; Sort shows that there is one.
 */
module Sorting {
  import opened GoStrings

  ghost predicate StrictWeakOrder<T(!new)>(less: (T, T) -> bool) {
    && (forall x :: !less(x, x))
    && (forall x, y, z :: less(x, y) && less(y, z) ==> less(x, z))
    && (forall x, y, z :: !less(x, y) && !less(y, z) ==> !less(x, z))
  }

  /** No element is less than an earlier one. */
  ghost predicate Sorted<T>(less: (T, T) -> bool, s: seq<T>) {
    forall i, j | 0 <= i < j < |s| :: !less(s[j], s[i])
  }

  /** `out` is a sorted permutation of `s`. */
  ghost predicate SortOf<T>(less: (T, T) -> bool, s: seq<T>, out: seq<T>) {
    Sorted(less, out) && multiset(out) == multiset(s)
  }

  function Insert<T>(less: (T, T) -> bool, x: T, s: seq<T>): seq<T> {
    if s == [] || less(x, s[0]) then [x] + s else [s[0]] + Insert(less, x, s[1..])
  }

  function Sort<T>(less: (T, T) -> bool, s: seq<T>): seq<T> {
    if s == [] then [] else Insert(less, s[0], Sort(less, s[1..]))
  }

  /** An element that nothing in a sorted sequence is less than may stand before it. */
  lemma SortedCons<T>(less: (T, T) -> bool, x: T, s: seq<T>)
    requires Sorted(less, s) && forall y | y in s :: !less(y, x)
    ensures Sorted(less, [x] + s)
  {
    var out := [x] + s;
    forall i, j | 0 <= i < j < |out| ensures !less(out[j], out[i]) {
      assert out[j] == s[j - 1] && out[j] in s;
    }
  }

  lemma {:induction false} InsertPermutes<T>(less: (T, T) -> bool, x: T, s: seq<T>)
    ensures multiset(Insert(less, x, s)) == multiset(s) + multiset{x}
    ensures forall y :: y in Insert(less, x, s) <==> y == x || y in s
  {
    if s != [] && !less(x, s[0]) {
      InsertPermutes(less, x, s[1..]);
      assert s == [s[0]] + s[1..];
    }
  }

  lemma {:induction false} InsertSorts<T(!new)>(less: (T, T) -> bool, x: T, s: seq<T>)
    requires StrictWeakOrder(less) && Sorted(less, s)
    ensures Sorted(less, Insert(less, x, s))
  {
    if s != [] && !less(x, s[0]) {
      InsertSorts(less, x, s[1..]);
      InsertPermutes(less, x, s[1..]);
      SortedCons(less, s[0], Insert(less, x, s[1..]));
    } else {
      SortedCons(less, x, s);
    }
  }

  lemma {:induction false} SortSorts<T(!new)>(less: (T, T) -> bool, s: seq<T>)
    requires StrictWeakOrder(less)
    ensures SortOf(less, s, Sort(less, s))
  {
    if s != [] {
      SortSorts(less, s[1..]);
      InsertSorts(less, s[0], Sort(less, s[1..]));
      InsertPermutes(less, s[0], Sort(less, s[1..]));
      assert s == [s[0]] + s[1..];
    }
  }

  /** The first element of a sorted sequence is not greater than any. */
  lemma FirstIsLeast<T>(less: (T, T) -> bool, s: seq<T>, x: T)
    requires Sorted(less, s) && x in s
    ensures x == s[0] || !less(x, s[0])
  {
    var i :| 0 <= i < |s| && s[i] == x;
  }

  lemma SameTails<T>(a: seq<T>, b: seq<T>)
    requires a != [] && b != [] && a[0] == b[0] && multiset(a) == multiset(b)
    ensures multiset(a[1..]) == multiset(b[1..])
  {
    assert a == [a[0]] + a[1..] && b == [b[0]] + b[1..];
    assert multiset(a[1..]) == multiset(a) - multiset{a[0]};
    assert multiset(b[1..]) == multiset(b) - multiset{b[0]};
  }

  lemma SameLength<T>(a: seq<T>, b: seq<T>)
    requires multiset(a) == multiset(b)
    ensures |a| == |b|
  {
    assert |multiset(a)| == |a| && |multiset(b)| == |b|;
  }

  lemma SortedTail<T>(less: (T, T) -> bool, s: seq<T>)
    requires Sorted(less, s) && s != []
    ensures Sorted(less, s[1..])
  {
    forall i, j | 0 <= i < j < |s[1..]| ensures !less(s[1..][j], s[1..][i]) {
      assert s[1..][j] == s[j + 1] && s[1..][i] == s[i + 1];
    }
  }

  /** Only equal elements are incomparable. */
  ghost predicate Total<T(!new)>(less: (T, T) -> bool) {
    forall x, y :: less(x, y) || x == y || less(y, x)
  }

  lemma SameFirst<T(!new)>(less: (T, T) -> bool, a: seq<T>, b: seq<T>)
    requires Total(less) && Sorted(less, a) && Sorted(less, b) && multiset(a) == multiset(b)
    requires a != [] && b != []
    ensures a[0] == b[0]
  {
    assert a[0] in multiset(b) && b[0] in multiset(a);
    FirstIsLeast(less, a, b[0]);
    FirstIsLeast(less, b, a[0]);
  }

  /** Under a total order there is just one sorted permutation. */
  lemma {:induction false} SortUnique<T(!new)>(less: (T, T) -> bool, a: seq<T>, b: seq<T>)
    requires Total(less) && Sorted(less, a) && Sorted(less, b) && multiset(a) == multiset(b)
    ensures a == b
  {
    SameLength(a, b);
    if a != [] {
      SameFirst(less, a, b);
      SameTails(a, b);
      SortedTail(less, a);
      SortedTail(less, b);
      SortUnique(less, a[1..], b[1..]);
      assert a == [a[0]] + a[1..] && b == [b[0]] + b[1..];
    }
  }

  ghost predicate Distinct<T>(s: seq<T>) {
    forall i, j | 0 <= i < j < |s| :: s[i] != s[j]
  }

  /** Permuting keeps the elements and their distinctness. */
  lemma PermutationFacts<T>(s: seq<T>, out: seq<T>)
    requires multiset(out) == multiset(s)
    ensures |out| == |s|
    ensures forall x :: x in out <==> x in s
    ensures Distinct(s) ==> Distinct(out)
  {
    assert |multiset(out)| == |multiset(s)|;
    forall x ensures x in out <==> x in s {
      assert x in out <==> x in multiset(out);
      assert x in s <==> x in multiset(s);
    }
    if Distinct(s) {
      forall i, j | 0 <= i < j < |out| ensures out[i] != out[j] {
        if out[i] == out[j] {
          TwiceIn(out, i, j);
          DistinctOnce(s, out[i]);
        }
      }
    }
  }

  lemma TwiceIn<T>(s: seq<T>, i: int, j: int)
    requires 0 <= i < j < |s| && s[i] == s[j]
    ensures multiset(s)[s[i]] >= 2
  {
    assert s == s[..j] + [s[j]] + s[j + 1..];
    assert s[..j][i] == s[i];
  }

  lemma {:induction false} DistinctOnce<T>(s: seq<T>, x: T)
    requires Distinct(s)
    ensures multiset(s)[x] <= 1
  {
    if s != [] {
      assert s == [s[0]] + s[1..];
      DistinctOnce(s[1..], x);
      if s[0] == x {
        assert x !in s[1..];
      }
    }
  }

  // ---- Strings ----

  /** The order of sort.Strings. */
  lemma StringOrder()
    ensures StrictWeakOrder(Less) && Total(Less)
  {
    forall x, y, z
      ensures !Less(x, x)
      ensures Less(x, y) && Less(y, z) ==> Less(x, z)
      ensures Less(x, y) || x == y || Less(y, x)
    {
      LessIrreflexive(x);
      LessTotal(x, y);
      if Less(x, y) && Less(y, z) { LessTransitive(x, y, z); }
    }
    forall x, y, z | !Less(x, y) && !Less(y, z) ensures !Less(x, z) {
      LessTotal(x, y);
      LessTotal(y, z);
      if Less(x, z) {
        if Less(y, x) { LessTransitive(y, x, z); }
      }
    }
  }
}
