/**
 Double counting on the service graph, for any service names: the index lists add up to the dependency counts
 of the services, and the dependency lists of the edges add up to the pairs of users of each dependency.
 */
module GraphCounting {
  import opened GraphExactness
  import opened ServiceGraph
  import opened Sorting

  // ---- Sums ----

  function Sum<T>(s: seq<T>, f: T -> nat): nat {
    if s == [] then 0 else Sum(s[..|s| - 1], f) + f(s[|s| - 1])
  }

  lemma SumSnoc<T>(s: seq<T>, x: T, f: T -> nat)
    ensures Sum(s + [x], f) == Sum(s, f) + f(x)
  {
    assert (s + [x])[..|s|] == s;
  }

  lemma {:induction false} SumAppend<T>(s: seq<T>, t: seq<T>, f: T -> nat)
    ensures Sum(s + t, f) == Sum(s, f) + Sum(t, f)
  {
    if t == [] {
      assert s + t == s;
    } else {
      var before := t[..|t| - 1];
      SumAppend(s, before, f);
      assert s + t == (s + before) + [t[|t| - 1]];
      SumSnoc(s + before, t[|t| - 1], f);
    }
  }

  lemma SumMiddle<T>(a: seq<T>, x: T, b: seq<T>, f: T -> nat)
    ensures Sum(a + [x] + b, f) == Sum(a + b, f) + f(x)
  {
    SumSnoc(a, x, f);
    SumAppend(a + [x], b, f);
    SumAppend(a, b, f);
  }

  lemma CutAt<T>(t: seq<T>, i: nat)
    requires i < |t|
    ensures t == t[..i] + [t[i]] + t[i + 1..]
  {
  }

  lemma SumRemove<T>(t: seq<T>, i: nat, f: T -> nat)
    requires i < |t|
    ensures Sum(t, f) == Sum(t[..i] + t[i + 1..], f) + f(t[i])
  {
    CutAt(t, i);
    SumMiddle(t[..i], t[i], t[i + 1..], f);
  }

  lemma RemoveDistinct<T>(t: seq<T>, i: nat)
    requires Distinct(t) && i < |t|
    ensures Distinct(t[..i] + t[i + 1..])
    ensures forall x :: x in t[..i] + t[i + 1..] <==> x in t && x != t[i]
  {
    var rest := t[..i] + t[i + 1..];
    forall x | x in t && x != t[i] ensures x in rest {
      var k :| 0 <= k < |t| && t[k] == x;
      assert rest[if k < i then k else k - 1] == x;
    }
  }

  lemma {:induction false} SumZero<T>(t: seq<T>, f: T -> nat)
    requires forall x | x in t :: f(x) == 0
    ensures Sum(t, f) == 0
  {
    if t != [] {
      assert t[|t| - 1] in t;
      SumZero(t[..|t| - 1], f);
    }
  }

  /** Sums over lists without repeats agree when the lists have the same elements, but for those counting 0. */
  lemma {:induction false} SumSame<T>(s: seq<T>, t: seq<T>, f: T -> nat)
    requires Distinct(s) && Distinct(t)
    requires forall x | x in s :: x in t
    requires forall x | x in t && f(x) != 0 :: x in s
    ensures Sum(s, f) == Sum(t, f)
  {
    if s == [] {
      SumZero(t, f);
    } else {
      var rest, x := s[..|s| - 1], s[|s| - 1];
      assert s == rest + [x] && x in s && x in t;
      forall y | y in rest ensures y in t && y != x { assert y in s; }
      var i :| 0 <= i < |t| && t[i] == x;
      SumRemove(t, i, f);
      RemoveDistinct(t, i);
      SumSame(rest, t[..i] + t[i + 1..], f);
    }
  }

  // ---- The index ----

  function UserCount(results: seq<SvcDeps>): string -> nat {
    dep => |Users(results, dep)|
  }

  function DepCount(r: SvcDeps): nat {
    |r.deps|
  }

  function Membership(keys: set<string>): string -> nat {
    k => if k in keys then 1 else 0
  }

  function Elements(s: seq<string>): set<string> {
    set k | k in s
  }

  lemma {:induction false} MembersCounted(keys: set<string>, s: seq<string>)
    requires Distinct(s)
    ensures Sum(s, Membership(keys)) == |keys * Elements(s)|
  {
    if s == [] {
      assert keys * Elements(s) == {};
    } else {
      var before, last := s[..|s| - 1], s[|s| - 1];
      MembersCounted(keys, before);
      assert s == before + [last];
      assert Elements(s) == Elements(before) + {last} && last !in Elements(before);
      MeetGrows(keys, Elements(before), last);
    }
  }

  lemma MeetGrows(keys: set<string>, s: set<string>, x: string)
    requires x !in s
    ensures |keys * (s + {x})| == |keys * s| + Membership(keys)(x)
  {
    if x in keys {
      assert keys * (s + {x}) == keys * s + {x};
    } else {
      assert keys * (s + {x}) == keys * s;
    }
  }

  lemma {:induction false} CountsGrow(before: seq<SvcDeps>, r: SvcDeps, deps: seq<string>)
    ensures Sum(deps, UserCount(before + [r])) == Sum(deps, UserCount(before)) + Sum(deps, Membership(r.deps.Keys))
  {
    if deps != [] {
      CountsGrow(before, r, deps[..|deps| - 1]);
      UsersSnoc(before, r, deps[|deps| - 1]);
    }
  }

  /** The index lists together are as long as the services have dependencies. */
  lemma {:induction false} IndexCounts(results: seq<SvcDeps>, deps: seq<string>)
    requires Distinct(deps)
    requires forall r, dep | r in results && dep in r.deps :: dep in deps
    ensures Sum(deps, UserCount(results)) == Sum(results, DepCount)
  {
    if results == [] {
      SumSame([], deps, UserCount(results));
    } else {
      var before, r := results[..|results| - 1], results[|results| - 1];
      assert results == before + [r];
      IndexCounts(before, deps);
      CountsGrow(before, r, deps);
      MembersCounted(r.deps.Keys, deps);
      assert r.deps.Keys * Elements(deps) == r.deps.Keys;
    }
  }

  lemma {:induction false} UsedIsListed(results: seq<SvcDeps>, r: SvcDeps, dep: string)
    requires r in results && dep in r.deps
    ensures Users(results, dep) != []
  {
    if r != results[|results| - 1] {
      UsedIsListed(results[..|results| - 1], r, dep);
    }
  }

  /** So do the lists of the index that the handler builds, read in any order of its keys. */
  lemma IndexDoubleCount(results: seq<SvcDeps>, index: Index, deps: seq<string>)
    requires Indexes(index, results) && Enumerates(deps, index.Keys)
    ensures Sum(deps, k => |Get(index, k)|) == Sum(results, DepCount)
  {
    forall r, dep | r in results && dep in r.deps ensures dep in deps {
      UsedIsListed(results, r, dep);
      assert Lists(index, results, dep);
    }
    IndexCounts(results, deps);
    SameCounts(results, index, deps);
  }

  lemma {:induction false} SameCounts(results: seq<SvcDeps>, index: Index, deps: seq<string>)
    requires Indexes(index, results)
    ensures Sum(deps, k => |Get(index, k)|) == Sum(deps, UserCount(results))
  {
    if deps != [] {
      SameCounts(results, index, deps[..|deps| - 1]);
      assert Lists(index, results, deps[|deps| - 1]);
    }
  }

  // ---- The edges ----

  /** How many pairs the users of a dependency make. */
  function PairCount(results: seq<SvcDeps>): string -> nat {
    dep => var n := |Users(results, dep)|; n * (n - 1) / 2
  }

  function SharedSize(e: Edge): nat {
    |e.sharedDeps|
  }

  function SizeUnder(edges: EdgeMap): string -> nat {
    key => if key in edges then |edges[key].sharedDeps| else 0
  }

  lemma {:induction false} RowsCounted(dep: string, users: seq<User>)
    ensures 2 * |Rows(dep, users)| == |users| * (|users| - 1)
  {
    if users != [] {
      RowsCounted(dep, users[1..]);
      PairsGrow(|users|);
    }
  }

  lemma PairsGrow(n: nat)
    ensures n * (n - 1) == 2 * (n - 1) + (n - 1) * (n - 2)
  {
  }

  lemma {:induction false} LogCounted(results: seq<SvcDeps>, order: seq<string>)
    ensures |Log(results, order)| == Sum(order, PairCount(results))
  {
    if order != [] {
      var dep := order[|order| - 1];
      LogCounted(results, order[..|order| - 1]);
      RowsCounted(dep, Users(results, dep));
    }
  }

  /** Changing the size under one key changes the sum by as much. */
  lemma {:induction false} SumUpdate(keys: seq<string>, edges: EdgeMap, key: string, e: Edge)
    requires Distinct(keys)
    ensures key in keys ==>
      Sum(keys, SizeUnder(edges[key := e])) + SizeUnder(edges)(key) == Sum(keys, SizeUnder(edges)) + |e.sharedDeps|
    ensures key !in keys ==> Sum(keys, SizeUnder(edges[key := e])) == Sum(keys, SizeUnder(edges))
  {
    if keys != [] {
      var before := keys[..|keys| - 1];
      assert keys == before + [keys[|keys| - 1]];
      SumUpdate(before, edges, key, e);
    }
  }

  /** Every link adds one dependency to one list. */
  lemma {:induction false} ReplayCounted(edges: EdgeMap, keys: seq<string>, log: seq<Link>) returns (after: seq<string>)
    requires Enumerates(keys, edges.Keys)
    ensures Enumerates(after, Replay(edges, log).Keys)
    ensures Sum(after, SizeUnder(Replay(edges, log))) == Sum(keys, SizeUnder(edges)) + |log|
    decreases log
  {
    after := keys;
    if log != [] {
      var key, next := EdgeKey(log[0].a, log[0].b), AddLink(edges, log[0]);
      SumUpdate(keys, edges, key, next[key]);
      if key !in edges {
        after := keys + [key];
        EnumerateOne(keys, edges.Keys, key);
        assert next.Keys == edges.Keys + {key};
        SumSnoc(keys, key, SizeUnder(next));
      } else {
        assert next.Keys == edges.Keys;
      }
      after := ReplayCounted(next, after, log[1..]);
    }
  }

  lemma {:induction false} TidyCounted(edges: EdgeMap, keys: seq<string>)
    requires forall k | k in keys :: k in edges
    ensures Sum(TidyAll(edges, keys), SharedSize) == Sum(keys, SizeUnder(edges))
  {
    var list := TidyAll(edges, keys);
    if keys != [] {
      var last := |keys| - 1;
      TidyCounted(edges, keys[..last]);
      assert list[..last] == TidyAll(edges, keys[..last]);
      assert keys[last] in keys;
      TidyFacts(edges[keys[last]]);
    }
  }

  lemma ListCounted(edges: EdgeMap, keys: seq<string>, list: seq<Edge>)
    requires Keyed(edges) && Enumerates(keys, edges.Keys) && SortOf(MoreShared, TidyAll(edges, keys), list)
    ensures Sum(list, SharedSize) == Sum(keys, SizeUnder(edges))
  {
    var tidied := TidyAll(edges, keys);
    forall i, j | 0 <= i < j < |tidied| ensures tidied[i] != tidied[j] {
      assert keys[i] in keys && keys[j] in keys;
    }
    PermutationFacts(tidied, list);
    SumSame(tidied, list, SharedSize);
    TidyCounted(edges, keys);
  }

  /** The edges' lists together are as long as there are pairs of users, summed over the dependencies. */
  lemma EdgeDoubleCount(results: seq<SvcDeps>, list: seq<Edge>, deps: seq<string>)
    requires IsGraph(results, list)
    requires Distinct(deps) && forall r, dep | r in results && dep in r.deps :: dep in deps
    ensures Sum(list, SharedSize) == Sum(deps, PairCount(results))
  {
    var order, keys :| Outcome(results, order, keys, list);
    var log := Log(results, order);
    ReplayKeyed(map[], log);
    ListCounted(Replay(map[], log), keys, list);
    var after := ReplayCounted(map[], [], log);
    SumSame(after, keys, SizeUnder(Replay(map[], log)));
    LogCounted(results, order);
    OrderFitsDeps(results, order, deps);
    SumSame(order, deps, PairCount(results));
  }

  lemma {:induction false} ListedIsUsed(results: seq<SvcDeps>, dep: string) returns (r: SvcDeps)
    requires Users(results, dep) != []
    ensures r in results && dep in r.deps
  {
    r := results[|results| - 1];
    if dep !in r.deps { r := ListedIsUsed(results[..|results| - 1], dep); }
  }

  lemma OrderFitsDeps(results: seq<SvcDeps>, order: seq<string>, deps: seq<string>)
    requires forall dep :: dep in order <==> |Users(results, dep)| >= 2
    requires forall r, dep | r in results && dep in r.deps :: dep in deps
    ensures forall dep | dep in order :: dep in deps
    ensures forall dep | dep in deps && PairCount(results)(dep) != 0 :: dep in order
  {
    forall dep | dep in order ensures dep in deps {
      var r := ListedIsUsed(results, dep);
    }
  }

  // ---- The order of the edges ----

  lemma {:induction false} DistinctSize(s: seq<string>)
    requires Distinct(s)
    ensures |s| == |Elements(s)|
  {
    if s != [] {
      var before, last := s[..|s| - 1], s[|s| - 1];
      DistinctSize(before);
      assert s == before + [last];
      assert Elements(s) == Elements(before) + {last} && last !in Elements(before);
    }
  }

  lemma EdgeSize(e: Edge, r: SvcDeps, s: SvcDeps)
    requires IsEdgeOf(e, r, s)
    ensures |e.sharedDeps| == |r.deps.Keys * s.deps.Keys|
  {
    DistinctSize(e.sharedDeps);
    assert Elements(e.sharedDeps) == r.deps.Keys * s.deps.Keys;
  }

  lemma NamesIdentify(results: seq<SvcDeps>, r: SvcDeps, s: SvcDeps)
    requires DistinctNames(results) && r in results && s in results && r.name == s.name
    ensures r == s
  {
    var i :| 0 <= i < |results| && results[i] == r;
    var j :| 0 <= j < |results| && results[j] == s;
  }

  lemma ListedSize(results: seq<SvcDeps>, list: seq<Edge>, e: Edge, r: SvcDeps, s: SvcDeps)
    requires DistinctNames(results) && KeysApart(results) && IsGraph(results, list) && e in list
    requires r in results && s in results && e.service1 == r.name && e.service2 == s.name
    ensures |e.sharedDeps| == |r.deps.Keys * s.deps.Keys|
  {
    ExactIff(results, list);
    var p, q :| p in results && q in results && Meet(p, q) && IsEdgeOf(e, p, q);
    NamesIdentify(results, p, r);
    NamesIdentify(results, q, s);
    EdgeSize(e, r, s);
  }

  /** Two services that have more dependencies in common than two others are listed before them. */
  lemma MoreInCommonFirst(
    results: seq<SvcDeps>, list: seq<Edge>, i: nat, j: nat, r: SvcDeps, s: SvcDeps, p: SvcDeps, q: SvcDeps)
    requires DistinctNames(results) && KeysApart(results) && IsGraph(results, list) && i < |list| && j < |list|
    requires r in results && s in results && list[i].service1 == r.name && list[i].service2 == s.name
    requires p in results && q in results && list[j].service1 == p.name && list[j].service2 == q.name
    requires |r.deps.Keys * s.deps.Keys| > |p.deps.Keys * q.deps.Keys|
    ensures i < j
  {
    ListedSize(results, list, list[i], r, s);
    ListedSize(results, list, list[j], p, q);
    if j < i { MostSharedFirst(results, list, j, i); }
  }
}
