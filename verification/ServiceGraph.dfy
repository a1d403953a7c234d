/**
 The service graph (internal/mcpserver/tools_extended.go): an index from dependencies to the services using
 them, and an edge for every pair of services with a dependency in common. Go's map iteration order is
 unspecified, so the loops below pick the next key arbitrarily; the ghost results record what was picked.
 */
module ServiceGraph {
  import opened GoStrings
  import opened Sorting

  /** A service with its parsed dependencies (none when the lookup failed). */
  datatype SvcDeps = SvcDeps(name: string, deps: map<string, string>)

  datatype User = User(service: string, version: string)

  datatype Edge = Edge(service1: string, service2: string, sharedDeps: seq<string>)

  type Index = map<string, seq<User>>

  type EdgeMap = map<string, Edge>

  // ---- The index ----

  /** The services that use a dependency, in configuration order. */
  function Users(results: seq<SvcDeps>, dep: string): seq<User> {
    if results == [] then []
    else
      var r, before := results[|results| - 1], Users(results[..|results| - 1], dep);
      if dep in r.deps then before + [User(r.name, r.deps[dep])] else before
  }

  function Get(index: Index, dep: string): seq<User> {
    if dep in index then index[dep] else []
  }

  /** What the index holds for `dep` is exactly its users; a dependency without users has no entry. */
  ghost predicate Lists(index: Index, results: seq<SvcDeps>, dep: string) {
    Get(index, dep) == Users(results, dep) && (dep in index <==> Users(results, dep) != [])
  }

  ghost predicate Indexes(index: Index, results: seq<SvcDeps>) {
    forall dep :: Lists(index, results, dep)
  }

  lemma UsersSnoc(results: seq<SvcDeps>, r: SvcDeps, dep: string)
    ensures dep in r.deps ==> Users(results + [r], dep) == Users(results, dep) + [User(r.name, r.deps[dep])]
    ensures dep !in r.deps ==> Users(results + [r], dep) == Users(results, dep)
  {
    assert (results + [r])[..|results|] == results;
  }

  method AddUses(results: seq<SvcDeps>, r: SvcDeps, start: Index) returns (index: Index)
    requires Indexes(start, results)
    ensures Indexes(index, results + [r])
  {
    index := start;
    var todo := r.deps.Keys;
    while todo != {}
      invariant todo <= r.deps.Keys
      invariant forall dep | dep in todo || dep !in r.deps :: Lists(index, results, dep)
      invariant forall dep | dep in r.deps && dep !in todo :: Lists(index, results + [r], dep)
    {
      var dep :| dep in todo;
      UsersSnoc(results, r, dep);
      assert Lists(index, results, dep);
      index := index[dep := Get(index, dep) + [User(r.name, r.deps[dep])]];
      todo := todo - {dep};
    }
    forall dep | dep !in r.deps ensures Lists(index, results + [r], dep) {
      UsersSnoc(results, r, dep);
    }
  }

  method BuildIndex(results: seq<SvcDeps>) returns (index: Index)
    ensures Indexes(index, results)
  {
    index := map[];
    for i := 0 to |results|
      invariant Indexes(index, results[..i])
    {
      index := AddUses(results[..i], results[i], index);
      assert results[..i] + [results[i]] == results[..i + 1];
    }
    assert results[..|results|] == results;
  }

  // ---- Edges ----

  /** A dependency together with two services using it, in string order. */
  datatype Link = Link(dep: string, a: string, b: string)

  function LinkOf(dep: string, x: string, y: string): Link {
    if Less(y, x) then Link(dep, y, x) else Link(dep, x, y)
  }

  function EdgeKey(a: string, b: string): string {
    a + "|" + b
  }

  /** What the innermost loop body does with one pair of users. */
  function AddLink(edges: EdgeMap, l: Link): EdgeMap {
    var key := EdgeKey(l.a, l.b);
    if key in edges then edges[key := edges[key].(sharedDeps := edges[key].sharedDeps + [l.dep])]
    else edges[key := Edge(l.a, l.b, [l.dep])]
  }

  function Replay(edges: EdgeMap, log: seq<Link>): EdgeMap
    decreases log
  {
    if log == [] then edges else Replay(AddLink(edges, log[0]), log[1..])
  }

  /** The links of one user with each of the others. */
  function Row(dep: string, u: User, others: seq<User>): (row: seq<Link>)
    ensures |row| == |others|
    ensures forall k | 0 <= k < |row| :: row[k] == LinkOf(dep, u.service, others[k].service)
  {
    if others == [] then [] else [LinkOf(dep, u.service, others[0].service)] + Row(dep, u, others[1..])
  }

  /** All links of a dependency with these users: one for every two positions. */
  function Rows(dep: string, users: seq<User>): seq<Link> {
    if users == [] then [] else Row(dep, users[0], users[1..]) + Rows(dep, users[1..])
  }

  /** All links, dependency by dependency in the given order. */
  function Log(results: seq<SvcDeps>, order: seq<string>): seq<Link> {
    if order == [] then []
    else Log(results, order[..|order| - 1]) + Rows(order[|order| - 1], Users(results, order[|order| - 1]))
  }

  lemma {:induction false} ReplayAppend(edges: EdgeMap, log: seq<Link>, more: seq<Link>)
    ensures Replay(edges, log + more) == Replay(Replay(edges, log), more)
    decreases log
  {
    if log == [] {
      assert log + more == more;
    } else {
      assert (log + more)[1..] == log[1..] + more;
      ReplayAppend(AddLink(edges, log[0]), log[1..], more);
    }
  }

  /** The body of the innermost loop. */
  method LinkPair(start: EdgeMap, dep: string, x: string, y: string) returns (edges: EdgeMap)
    ensures edges == AddLink(start, LinkOf(dep, x, y))
  {
    var s1, s2 := x, y;
    if Less(s2, s1) { s1, s2 := s2, s1; }
    var key := EdgeKey(s1, s2);
    if key in start {
      edges := start[key := start[key].(sharedDeps := start[key].sharedDeps + [dep])];
    } else {
      edges := start[key := Edge(s1, s2, [dep])];
    }
  }

  /** The edges once user `i` has been linked with the users from `j` on. */
  ghost function AfterRow(edges: EdgeMap, dep: string, svcs: seq<User>, i: nat, j: nat): EdgeMap
    requires i < j <= |svcs|
  {
    Replay(edges, Row(dep, svcs[i], svcs[j..]))
  }

  lemma RowFrom(edges: EdgeMap, dep: string, svcs: seq<User>, i: nat, j: nat)
    requires i < j < |svcs|
    ensures AfterRow(edges, dep, svcs, i, j) ==
      AfterRow(AddLink(edges, LinkOf(dep, svcs[i].service, svcs[j].service)), dep, svcs, i, j + 1)
  {
    var link, rest := LinkOf(dep, svcs[i].service, svcs[j].service), Row(dep, svcs[i], svcs[j + 1..]);
    assert svcs[j..][0] == svcs[j] && svcs[j..][1..] == svcs[j + 1..];
    assert Row(dep, svcs[i], svcs[j..]) == [link] + rest;
    assert ([link] + rest)[0] == link && ([link] + rest)[1..] == rest;
  }

  lemma RowsFrom(edges: EdgeMap, dep: string, svcs: seq<User>, i: nat)
    requires i < |svcs|
    ensures Replay(edges, Rows(dep, svcs[i..])) ==
      Replay(Replay(edges, Row(dep, svcs[i], svcs[i + 1..])), Rows(dep, svcs[i + 1..]))
  {
    assert svcs[i..][0] == svcs[i] && svcs[i..][1..] == svcs[i + 1..];
    ReplayAppend(edges, Row(dep, svcs[i], svcs[i + 1..]), Rows(dep, svcs[i + 1..]));
  }

  /** The innermost loop: one user with all later ones. */
  method LinkRow(start: EdgeMap, dep: string, svcs: seq<User>, i: nat) returns (edges: EdgeMap)
    requires i < |svcs|
    ensures edges == Replay(start, Row(dep, svcs[i], svcs[i + 1..]))
  {
    edges := start;
    ghost var goal := AfterRow(start, dep, svcs, i, i + 1);
    for j := i + 1 to |svcs|
      invariant AfterRow(edges, dep, svcs, i, j) == goal
    {
      RowFrom(edges, dep, svcs, i, j);
      edges := LinkPair(edges, dep, svcs[i].service, svcs[j].service);
    }
  }

  /** The two inner loops, over the users of one dependency. */
  method LinkUsers(start: EdgeMap, dep: string, svcs: seq<User>) returns (edges: EdgeMap)
    ensures edges == Replay(start, Rows(dep, svcs))
  {
    edges := start;
    for i := 0 to |svcs|
      invariant Replay(edges, Rows(dep, svcs[i..])) == Replay(start, Rows(dep, svcs))
    {
      RowsFrom(edges, dep, svcs, i);
      edges := LinkRow(edges, dep, svcs, i);
    }
  }

  /** `keys` lists the elements of `s`, each once: one possible iteration order. */
  ghost predicate Enumerates(keys: seq<string>, s: set<string>) {
    Distinct(keys) && forall k :: k in keys <==> k in s
  }

  lemma EnumerateOne(keys: seq<string>, s: set<string>, k: string)
    requires Enumerates(keys, s) && k !in s
    ensures Enumerates(keys + [k], s + {k})
  {
  }

  /** The dependencies used by two or more services. */
  function Shared(index: Index): Index {
    map dep | dep in index && |index[dep]| >= 2 :: index[dep]
  }

  lemma LogSnoc(results: seq<SvcDeps>, order: seq<string>, dep: string)
    ensures Replay(map[], Log(results, order + [dep])) ==
      Replay(Replay(map[], Log(results, order)), Rows(dep, Users(results, dep)))
  {
    assert (order + [dep])[..|order|] == order;
    ReplayAppend(map[], Log(results, order), Rows(dep, Users(results, dep)));
  }

  /** One more shared dependency is done. */
  lemma NextShared(results: seq<SvcDeps>, index: Index, order: seq<string>, todo: set<string>, dep: string)
    requires Indexes(index, results) && dep in todo && todo <= Shared(index).Keys
    requires Enumerates(order, Shared(index).Keys - todo)
    ensures Shared(index)[dep] == Users(results, dep)
    ensures Enumerates(order + [dep], Shared(index).Keys - (todo - {dep}))
  {
    var all := Shared(index).Keys;
    assert Lists(index, results, dep);
    EnumerateOne(order, all - todo, dep);
    assert all - todo + {dep} == all - (todo - {dep});
  }

  method LinkAll(results: seq<SvcDeps>, index: Index) returns (edges: EdgeMap, ghost order: seq<string>)
    requires Indexes(index, results)
    ensures Enumerates(order, Shared(index).Keys)
    ensures edges == Replay(map[], Log(results, order))
  {
    var shared := Shared(index);
    edges, order := map[], [];
    var todo := shared.Keys;
    while todo != {}
      invariant todo <= shared.Keys
      invariant Enumerates(order, shared.Keys - todo)
      invariant edges == Replay(map[], Log(results, order))
    {
      var dep :| dep in todo;
      NextShared(results, index, order, todo, dep);
      LogSnoc(results, order, dep);
      edges := LinkUsers(edges, dep, shared[dep]);
      order := order + [dep];
      todo := todo - {dep};
    }
    assert shared.Keys - todo == shared.Keys;
  }

  // ---- The edge list ----

  /** The edge with its dependencies in string order. */
  function Tidy(e: Edge): Edge {
    e.(sharedDeps := Sort(Less, e.sharedDeps))
  }

  function TidyAll(edges: EdgeMap, keys: seq<string>): (list: seq<Edge>)
    requires forall k | k in keys :: k in edges
    ensures |list| == |keys|
    ensures forall i | 0 <= i < |keys| :: list[i] == Tidy(edges[keys[i]])
  {
    seq(|keys|, i requires 0 <= i < |keys| => Tidy(edges[keys[i]]))
  }

  predicate MoreShared(e: Edge, f: Edge) {
    |e.sharedDeps| > |f.sharedDeps|
  }

  /** `list` is an outcome of the whole computation: for some iteration orders, and some unstable sort. */
  ghost predicate Outcome(results: seq<SvcDeps>, order: seq<string>, keys: seq<string>, list: seq<Edge>) {
    var edges := Replay(map[], Log(results, order));
    && Distinct(order) && (forall dep :: dep in order <==> |Users(results, dep)| >= 2)
    && Enumerates(keys, edges.Keys)
    && SortOf(MoreShared, TidyAll(edges, keys), list)
  }

  /** `list` is what the handler can answer for these results. */
  ghost predicate IsGraph(results: seq<SvcDeps>, list: seq<Edge>) {
    exists order, keys :: Outcome(results, order, keys, list)
  }

  /** Of two edges of an answer, the first has as many dependencies as the other, or more. */
  lemma MostSharedFirst(results: seq<SvcDeps>, list: seq<Edge>, i: nat, j: nat)
    requires IsGraph(results, list) && i < j < |list|
    ensures |list[i].sharedDeps| >= |list[j].sharedDeps|
  {
    var order, keys :| Outcome(results, order, keys, list);
    assert !MoreShared(list[j], list[i]);
  }

  method ListEdges(edges: EdgeMap) returns (list: seq<Edge>, ghost keys: seq<string>)
    ensures |list| == |keys| && forall i, j | 0 <= i < j < |list| :: |list[i].sharedDeps| >= |list[j].sharedDeps|
    ensures Enumerates(keys, edges.Keys)
    ensures SortOf(MoreShared, TidyAll(edges, keys), list)
  {
    list, keys := [], [];
    var todo := edges.Keys;
    while todo != {}
      invariant todo <= edges.Keys
      invariant Enumerates(keys, edges.Keys - todo)
      invariant list == TidyAll(edges, keys)
    {
      var key :| key in todo;
      EnumerateOne(keys, edges.Keys - todo, key);
      assert edges.Keys - todo + {key} == edges.Keys - (todo - {key});
      list := list + [Tidy(edges[key])];
      keys := keys + [key];
      todo := todo - {key};
    }
    assert edges.Keys - todo == edges.Keys;
    SortSorts(MoreShared, list);
    PermutationFacts(list, Sort(MoreShared, list));
    list := Sort(MoreShared, list);
  }

  /** The graph part of the handler. */
  method Graph(results: seq<SvcDeps>) returns (index: Index, list: seq<Edge>)
    ensures Indexes(index, results)
    ensures IsGraph(results, list)
  {
    index := BuildIndex(results);
    ghost var order, keys;
    var edges;
    edges, order := LinkAll(results, index);
    list, keys := ListEdges(edges);
    forall dep ensures dep in order <==> |Users(results, dep)| >= 2 {
      assert Lists(index, results, dep);
    }
    assert Outcome(results, order, keys, list);
  }
}
