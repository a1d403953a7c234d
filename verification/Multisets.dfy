/** Sums of multisets. */
module Multisets {
  function Sum<T>(parts: seq<multiset<T>>): multiset<T> {
    if parts == [] then multiset{} else Sum(parts[..|parts| - 1]) + parts[|parts| - 1]
  }

  /** Replacing a part: the sum without the new part is the old sum without the old part. */
  lemma {:induction false} SumUpdate<T>(parts: seq<multiset<T>>, i: nat, part: multiset<T>)
    requires i < |parts|
    ensures Sum(parts[i := part]) + parts[i] == Sum(parts) + part
  {
    var after, n := parts[i := part], |parts| - 1;
    if i < n {
      SumUpdate(parts[..n], i, part);
      assert after[..n] == parts[..n][i := part] && after[n] == parts[n];
      Exchange(Sum(after[..n]), parts[i], Sum(parts[..n]), part, parts[n]);
    } else {
      assert after[..n] == parts[..n];
    }
  }

  lemma {:induction false} SumNone<T>(parts: seq<multiset<T>>)
    requires forall i | 0 <= i < |parts| :: parts[i] == multiset{}
    ensures Sum(parts) == multiset{}
  {
    if parts != [] { SumNone(parts[..|parts| - 1]); }
  }

  lemma Regroup<T>(a: multiset<T>, b: multiset<T>, c: multiset<T>)
    ensures a + (b + c) == a + b + c
    ensures a + b + c == a + c + b
  {
  }

  lemma NoMore<T>(a: multiset<T>)
    ensures a + multiset{} == a && multiset{} + a == a
  {
  }

  lemma Exchange<T>(a: multiset<T>, b: multiset<T>, c: multiset<T>, d: multiset<T>, more: multiset<T>)
    requires a + b == c + d
    ensures a + more + b == c + more + d
  {
    Regroup(a, more, b);
    Regroup(c, more, d);
  }

  lemma Cancel<T>(a: multiset<T>, b: multiset<T>, common: multiset<T>)
    requires a + common == b + common
    ensures a == b
  {
    assert a == a + common - common;
    assert b == b + common - common;
  }

  lemma Append<T>(s: seq<T>, x: T, more: multiset<T>)
    ensures multiset(s + [x]) + more == multiset(s) + (more + multiset{x})
  {
    assert multiset(s + [x]) == multiset(s) + multiset{x};
  }
}
