/**
 Exactness of the service graph, for distinct service names, whatever the iteration orders and whatever the
 unstable sort does: two services have an edge exactly when their dependency sets meet, there is one edge for
 the two, and it lists the intersection in string order without repeats. This holds if and only if no two
 pairs of services that meet fall on one edge key, and names without '|' never do.
 */
module GraphExactness {
  import opened GoStrings
  import opened ServiceGraph
  import opened Sorting

  ghost predicate DistinctNames(results: seq<SvcDeps>) {
    forall i, j | 0 <= i < j < |results| :: results[i].name != results[j].name
  }

  // ---- Users ----

  /** The service `name` is among the results and has the dependency. */
  ghost predicate Has(results: seq<SvcDeps>, name: string, dep: string) {
    exists i | 0 <= i < |results| :: results[i].name == name && dep in results[i].deps
  }

  ghost predicate Uses(users: seq<User>, name: string) {
    exists i | 0 <= i < |users| :: users[i].service == name
  }

  ghost predicate DistinctUsers(users: seq<User>) {
    forall i, j | 0 <= i < j < |users| :: users[i].service != users[j].service
  }

  lemma UsesSnoc(users: seq<User>, u: User, name: string)
    ensures Uses(users + [u], name) <==> Uses(users, name) || u.service == name
  {
    var all := users + [u];
    if Uses(users, name) {
      var i :| 0 <= i < |users| && users[i].service == name;
      assert all[i] == users[i];
    }
    assert all[|users|] == u;
  }

  lemma HasSnoc(results: seq<SvcDeps>, r: SvcDeps, name: string, dep: string)
    ensures Has(results + [r], name, dep) <==> Has(results, name, dep) || (r.name == name && dep in r.deps)
  {
    var all := results + [r];
    if Has(results, name, dep) {
      var i :| 0 <= i < |results| && results[i].name == name && dep in results[i].deps;
      assert all[i] == results[i];
    }
    assert all[|results|] == r;
  }

  /** The users listed for a dependency are the services that have it. */
  lemma {:induction false} UsersAre(results: seq<SvcDeps>, dep: string, name: string)
    ensures Uses(Users(results, dep), name) <==> Has(results, name, dep)
  {
    if results != [] {
      var before, r := results[..|results| - 1], results[|results| - 1];
      assert results == before + [r];
      UsersAre(before, dep, name);
      UsersSnoc(before, r, dep);
      HasSnoc(before, r, name, dep);
      if dep in r.deps { UsesSnoc(Users(before, dep), User(r.name, r.deps[dep]), name); }
    }
  }

  lemma {:induction false} UsersDistinct(results: seq<SvcDeps>, dep: string)
    requires DistinctNames(results)
    ensures DistinctUsers(Users(results, dep))
  {
    if results != [] {
      var before, r := results[..|results| - 1], results[|results| - 1];
      assert results == before + [r];
      UsersDistinct(before, dep);
      UsersSnoc(before, r, dep);
      var users := Users(before, dep);
      forall i | 0 <= i < |users| ensures users[i].service != r.name {
        assert Uses(users, users[i].service);
        UsersAre(before, dep, users[i].service);
      }
    }
  }

  // ---- Links ----

  lemma LinkOfFacts(dep: string, x: string, y: string)
    requires x != y
    ensures var l := LinkOf(dep, x, y);
      l.dep == dep && Less(l.a, l.b) && ((l.a == x && l.b == y) || (l.a == y && l.b == x))
  {
    LessTotal(x, y);
  }

  lemma LessAsymmetric(x: string, y: string)
    ensures !(Less(x, y) && Less(y, x))
  {
    if Less(x, y) && Less(y, x) {
      LessTransitive(x, y, x);
      LessIrreflexive(x);
    }
  }

  /** A good link joins a user and one of the others exactly when it is in the user's row. */
  lemma RowIs(dep: string, u: User, others: seq<User>, l: Link)
    requires forall k | 0 <= k < |others| :: others[k].service != u.service
    ensures l in Row(dep, u, others) <==>
      l.dep == dep && Less(l.a, l.b) &&
      ((l.a == u.service && Uses(others, l.b)) || (l.b == u.service && Uses(others, l.a)))
  {
    if l in Row(dep, u, others) {
      var k :| 0 <= k < |others| && Row(dep, u, others)[k] == l;
      LinkOfFacts(dep, u.service, others[k].service);
    }
    LessAsymmetric(l.a, l.b);
    if l.dep == dep && Less(l.a, l.b) && l.a == u.service && Uses(others, l.b) {
      var k :| 0 <= k < |others| && others[k].service == l.b;
      assert Row(dep, u, others)[k] == l;
    }
    if l.dep == dep && Less(l.a, l.b) && l.b == u.service && Uses(others, l.a) {
      var k :| 0 <= k < |others| && others[k].service == l.a;
      assert Row(dep, u, others)[k] == l;
    }
  }

  lemma LinksDiffer(dep: string, x: string, y: string, z: string)
    requires x != y && x != z && y != z
    ensures LinkOf(dep, x, y) != LinkOf(dep, x, z)
  {
    LinkOfFacts(dep, x, y);
    LinkOfFacts(dep, x, z);
  }

  lemma ThreeDiffer(u: User, others: seq<User>, i: nat, j: nat)
    requires DistinctUsers([u] + others) && i < j < |others|
    ensures u.service != others[i].service && u.service != others[j].service
    ensures others[i].service != others[j].service
  {
    var all := [u] + others;
    assert all[0] == u && all[i + 1] == others[i] && all[j + 1] == others[j];
  }

  lemma RowDistinct(dep: string, u: User, others: seq<User>)
    requires DistinctUsers([u] + others)
    ensures Distinct(Row(dep, u, others))
  {
    var row := Row(dep, u, others);
    forall i, j | 0 <= i < j < |row| ensures row[i] != row[j] {
      ThreeDiffer(u, others, i, j);
      LinksDiffer(dep, u.service, others[i].service, others[j].service);
    }
  }

  lemma DistinctTail(users: seq<User>)
    requires DistinctUsers(users) && users != []
    ensures DistinctUsers(users[1..])
    ensures !Uses(users[1..], users[0].service)
    ensures forall name :: Uses(users, name) <==> name == users[0].service || Uses(users[1..], name)
  {
    var rest := users[1..];
    forall i | 0 <= i < |rest| ensures rest[i] == users[i + 1] {}
    forall i, j | 0 <= i < j < |rest| ensures rest[i].service != rest[j].service {
      assert rest[i] == users[i + 1] && rest[j] == users[j + 1];
    }
    forall name ensures Uses(users, name) <==> name == users[0].service || Uses(rest, name) {
      if Uses(rest, name) {
        var i :| 0 <= i < |rest| && rest[i].service == name;
        assert users[i + 1].service == name;
      }
      if Uses(users, name) && name != users[0].service {
        var i :| 0 <= i < |users| && users[i].service == name;
        assert rest[i - 1].service == name;
      }
    }
  }

  /** The links of a dependency: every two different users, in string order. */
  lemma {:induction false} RowsAre(dep: string, users: seq<User>, l: Link)
    requires DistinctUsers(users)
    ensures l in Rows(dep, users) <==>
      l.dep == dep && Less(l.a, l.b) && Uses(users, l.a) && Uses(users, l.b)
  {
    if users != [] {
      DistinctTail(users);
      RowIs(dep, users[0], users[1..], l);
      RowsAre(dep, users[1..], l);
      LessIrreflexive(l.a);
    }
  }

  lemma DistinctAppend<T>(s: seq<T>, t: seq<T>)
    requires Distinct(s) && Distinct(t) && forall x | x in s :: x !in t
    ensures Distinct(s + t)
  {
    var all := s + t;
    forall i, j | 0 <= i < j < |all| ensures all[i] != all[j] {
      if i < |s| <= j { assert all[i] in s && all[j] in t; }
    }
  }

  lemma {:induction false} RowsDistinct(dep: string, users: seq<User>)
    requires DistinctUsers(users)
    ensures Distinct(Rows(dep, users))
  {
    if users != [] {
      DistinctTail(users);
      assert [users[0]] + users[1..] == users;
      RowDistinct(dep, users[0], users[1..]);
      RowsDistinct(dep, users[1..]);
      forall l | l in Row(dep, users[0], users[1..]) ensures l !in Rows(dep, users[1..]) {
        RowIs(dep, users[0], users[1..], l);
        RowsAre(dep, users[1..], l);
      }
      DistinctAppend(Row(dep, users[0], users[1..]), Rows(dep, users[1..]));
    }
  }

  /** The links made in all: for each dependency visited, every two services that have it. */
  lemma {:induction false} LogIs(results: seq<SvcDeps>, order: seq<string>, l: Link)
    requires DistinctNames(results)
    ensures l in Log(results, order) <==>
      l.dep in order && Less(l.a, l.b) && Has(results, l.a, l.dep) && Has(results, l.b, l.dep)
  {
    if order != [] {
      var before, dep := order[..|order| - 1], order[|order| - 1];
      assert order == before + [dep];
      LogIs(results, before, l);
      UsersDistinct(results, dep);
      RowsAre(dep, Users(results, dep), l);
      UsersAre(results, dep, l.a);
      UsersAre(results, dep, l.b);
    }
  }

  lemma {:induction false} LogDistinct(results: seq<SvcDeps>, order: seq<string>)
    requires DistinctNames(results) && Distinct(order)
    ensures Distinct(Log(results, order))
  {
    if order != [] {
      var before, dep := order[..|order| - 1], order[|order| - 1];
      LogDistinct(results, before);
      UsersDistinct(results, dep);
      RowsDistinct(dep, Users(results, dep));
      forall l | l in Log(results, before) ensures l !in Rows(dep, Users(results, dep)) {
        LogIs(results, before, l);
        RowsAre(dep, Users(results, dep), l);
      }
      DistinctAppend(Log(results, before), Rows(dep, Users(results, dep)));
    }
  }

  // ---- The edge map ----

  /** Every edge is under the key of its services. */
  ghost predicate Keyed(edges: EdgeMap) {
    forall key | key in edges :: key == EdgeKey(edges[key].service1, edges[key].service2)
  }

  /** The edge lists what the links made so far join its services by, each once. */
  ghost predicate EdgeMatches(e: Edge, log: seq<Link>) {
    && e.sharedDeps != [] && Distinct(e.sharedDeps)
    && forall dep :: dep in e.sharedDeps <==> Link(dep, e.service1, e.service2) in log
  }

  /** The edge map holds exactly the links made so far. */
  ghost predicate Matches(edges: EdgeMap, log: seq<Link>) {
    && Keyed(edges)
    && (forall key | key in edges :: EdgeMatches(edges[key], log))
    && (forall l | l in log :: EdgeKey(l.a, l.b) in edges)
  }

  /** Links with one key join the same services. */
  ghost predicate LinksApart(log: seq<Link>) {
    forall l, k | l in log && k in log && EdgeKey(l.a, l.b) == EdgeKey(k.a, k.b) :: l.a == k.a && l.b == k.b
  }

  lemma AddLinkKeeps(edges: EdgeMap, log: seq<Link>, l: Link)
    requires Matches(edges, log) && l !in log && LinksApart(log + [l])
    ensures Matches(AddLink(edges, l), log + [l])
  {
    var key, after := EdgeKey(l.a, l.b), AddLink(edges, l);
    if key in edges {
      var e := edges[key];
      assert e.sharedDeps[0] in e.sharedDeps;
      assert Link(e.sharedDeps[0], e.service1, e.service2) in log + [l] && l in log + [l];
    }
    forall k | k in after ensures EdgeMatches(after[k], log + [l]) {}
  }

  lemma {:induction false} ReplayMatches(edges: EdgeMap, log: seq<Link>, more: seq<Link>)
    requires Matches(edges, log) && Distinct(log + more) && LinksApart(log + more)
    ensures Matches(Replay(edges, more), log + more)
    decreases more
  {
    if more == [] {
      assert log + more == log;
    } else {
      assert (log + more)[|log|] == more[0];
      forall i | 0 <= i < |log| ensures log[i] != more[0] { assert (log + more)[i] == log[i]; }
      assert log + [more[0]] + more[1..] == log + more;
      forall l | l in log + [more[0]] ensures l in log + more {}
      AddLinkKeeps(edges, log, more[0]);
      ReplayMatches(AddLink(edges, more[0]), log + [more[0]], more[1..]);
    }
  }

  /** Edges are under the key of their services whatever the names are. */
  lemma {:induction false} ReplayKeyed(edges: EdgeMap, log: seq<Link>)
    requires Keyed(edges)
    ensures Keyed(Replay(edges, log))
    decreases log
  {
    if log != [] { ReplayKeyed(AddLink(edges, log[0]), log[1..]); }
  }

  // ---- The theorem ----

  /** The two services are in string order and have a dependency in common. */
  ghost predicate Meet(r: SvcDeps, s: SvcDeps) {
    Less(r.name, s.name) && exists dep :: dep in r.deps && dep in s.deps
  }

  /** Services of these names meet. */
  ghost predicate Paired(results: seq<SvcDeps>, x: string, y: string) {
    exists r, s | r in results && s in results :: r.name == x && s.name == y && Meet(r, s)
  }

  /** Pairs of services that meet have different keys. */
  ghost predicate KeysApart(results: seq<SvcDeps>) {
    forall x, y, z, w | Paired(results, x, y) && Paired(results, z, w) && EdgeKey(x, y) == EdgeKey(z, w) ::
      x == z && y == w
  }

  /** The edge of these two services, as the design has it. */
  ghost predicate IsEdgeOf(e: Edge, r: SvcDeps, s: SvcDeps) {
    && e.service1 == r.name && e.service2 == s.name
    && Sorted(Less, e.sharedDeps) && Distinct(e.sharedDeps)
    && forall dep :: dep in e.sharedDeps <==> dep in r.deps && dep in s.deps
  }

  /** Every edge joins two different services that meet, and is the edge of the two. */
  ghost predicate Sound(results: seq<SvcDeps>, list: seq<Edge>) {
    forall e | e in list ::
      exists r, s | r in results && s in results :: Meet(r, s) && IsEdgeOf(e, r, s)
  }

  /** Every two services that meet have an edge. */
  ghost predicate Complete(results: seq<SvcDeps>, list: seq<Edge>) {
    forall r, s | r in results && s in results && Meet(r, s) ::
      exists e | e in list :: IsEdgeOf(e, r, s)
  }

  /** No two edges join the same services. */
  ghost predicate Single(list: seq<Edge>) {
    forall i, j | 0 <= i < j < |list| ::
      list[i].service1 != list[j].service1 || list[i].service2 != list[j].service2
  }

  lemma TidyFacts(e: Edge)
    ensures var t := Tidy(e);
      && t.service1 == e.service1 && t.service2 == e.service2
      && Sorted(Less, t.sharedDeps) && |t.sharedDeps| == |e.sharedDeps|
      && (forall dep :: dep in t.sharedDeps <==> dep in e.sharedDeps)
      && (Distinct(e.sharedDeps) ==> Distinct(t.sharedDeps))
  {
    StringOrder();
    SortSorts(Less, e.sharedDeps);
    PermutationFacts(e.sharedDeps, Tidy(e).sharedDeps);
  }

  lemma OnlyOne(results: seq<SvcDeps>, r: SvcDeps, dep: string)
    requires DistinctNames(results) && r in results
    ensures Has(results, r.name, dep) <==> dep in r.deps
  {
    var i :| 0 <= i < |results| && results[i] == r;
    if Has(results, r.name, dep) {
      var j :| 0 <= j < |results| && results[j].name == r.name && dep in results[j].deps;
      assert i == j;
    }
  }

  /** What the map holds for the key of two services is their edge once tidied. */
  lemma MapEdge(results: seq<SvcDeps>, order: seq<string>, e: Edge, r: SvcDeps, s: SvcDeps)
    requires DistinctNames(results) && r in results && s in results && Less(r.name, s.name)
    requires forall dep :: dep in order <==> |Users(results, dep)| >= 2
    requires r.name == e.service1 && s.name == e.service2
    requires EdgeMatches(e, Log(results, order))
    ensures IsEdgeOf(Tidy(e), r, s)
  {
    TidyFacts(e);
    LessIrreflexive(r.name);
    forall dep ensures dep in e.sharedDeps <==> dep in r.deps && dep in s.deps {
      LogIs(results, order, Link(dep, r.name, s.name));
      OnlyOne(results, r, dep);
      OnlyOne(results, s, dep);
      if dep in r.deps && dep in s.deps { TwoUsers(results, dep, r.name, s.name); }
    }
  }

  lemma TwoUsers(results: seq<SvcDeps>, dep: string, x: string, y: string)
    requires Has(results, x, dep) && Has(results, y, dep) && x != y
    ensures |Users(results, dep)| >= 2
  {
    UsersAre(results, dep, x);
    UsersAre(results, dep, y);
    var users := Users(results, dep);
    var i :| 0 <= i < |users| && users[i].service == x;
    var j :| 0 <= j < |users| && users[j].service == y;
    assert i != j;
  }

  /** A link comes from two services that meet. */
  lemma LinkMeets(results: seq<SvcDeps>, order: seq<string>, l: Link) returns (r: SvcDeps, s: SvcDeps)
    requires DistinctNames(results) && l in Log(results, order)
    ensures r in results && s in results && Meet(r, s) && r.name == l.a && s.name == l.b
  {
    LogIs(results, order, l);
    var i :| 0 <= i < |results| && results[i].name == l.a && l.dep in results[i].deps;
    var j :| 0 <= j < |results| && results[j].name == l.b && l.dep in results[j].deps;
    r, s := results[i], results[j];
  }

  lemma LogApart(results: seq<SvcDeps>, order: seq<string>)
    requires DistinctNames(results) && KeysApart(results)
    ensures LinksApart(Log(results, order))
  {
    var log := Log(results, order);
    forall l, k | l in log && k in log && EdgeKey(l.a, l.b) == EdgeKey(k.a, k.b) ensures l.a == k.a && l.b == k.b {
      var r, s := LinkMeets(results, order, l);
      var t, u := LinkMeets(results, order, k);
      assert Paired(results, l.a, l.b) && Paired(results, k.a, k.b);
    }
  }

  lemma LogMatches(results: seq<SvcDeps>, order: seq<string>)
    requires DistinctNames(results) && Distinct(order) && KeysApart(results)
    ensures Matches(Replay(map[], Log(results, order)), Log(results, order))
  {
    var log := Log(results, order);
    LogDistinct(results, order);
    LogApart(results, order);
    assert [] + log == log;
    ReplayMatches(map[], [], log);
  }

  lemma MapSound(results: seq<SvcDeps>, order: seq<string>, key: string)
    requires DistinctNames(results) && Distinct(order) && KeysApart(results)
    requires forall dep :: dep in order <==> |Users(results, dep)| >= 2
    requires key in Replay(map[], Log(results, order))
    ensures exists r, s | r in results && s in results ::
      Meet(r, s) && IsEdgeOf(Tidy(Replay(map[], Log(results, order))[key]), r, s)
  {
    var log := Log(results, order);
    LogMatches(results, order);
    var e := Replay(map[], log)[key];
    assert e.sharedDeps[0] in e.sharedDeps;
    var r, s := LinkMeets(results, order, Link(e.sharedDeps[0], e.service1, e.service2));
    MapEdge(results, order, e, r, s);
  }

  /** Services that meet are linked. */
  lemma MeetLinked(results: seq<SvcDeps>, order: seq<string>, r: SvcDeps, s: SvcDeps) returns (l: Link)
    requires DistinctNames(results) && forall dep :: dep in order <==> |Users(results, dep)| >= 2
    requires r in results && s in results && Meet(r, s)
    ensures l in Log(results, order) && l.a == r.name && l.b == s.name
  {
    var dep :| dep in r.deps && dep in s.deps;
    OnlyOne(results, r, dep);
    OnlyOne(results, s, dep);
    LessIrreflexive(r.name);
    TwoUsers(results, dep, r.name, s.name);
    l := Link(dep, r.name, s.name);
    LogIs(results, order, l);
  }

  lemma MapComplete(results: seq<SvcDeps>, order: seq<string>, r: SvcDeps, s: SvcDeps)
    requires DistinctNames(results) && Distinct(order) && KeysApart(results)
    requires forall dep :: dep in order <==> |Users(results, dep)| >= 2
    requires r in results && s in results && Meet(r, s)
    ensures var edges := Replay(map[], Log(results, order));
      EdgeKey(r.name, s.name) in edges && IsEdgeOf(Tidy(edges[EdgeKey(r.name, s.name)]), r, s)
  {
    var edges, key := Replay(map[], Log(results, order)), EdgeKey(r.name, s.name);
    var l := MeetLinked(results, order, r, s);
    assert EdgeKey(l.a, l.b) == key;
    LogMatches(results, order);
    var e := edges[key];
    assert e.sharedDeps[0] in e.sharedDeps;
    LogApart(results, order);
    assert Link(e.sharedDeps[0], e.service1, e.service2) in Log(results, order);
    MapEdge(results, order, e, r, s);
  }

  lemma OneEdgePerPair(results: seq<SvcDeps>, order: seq<string>, keys: seq<string>, list: seq<Edge>)
    requires Outcome(results, order, keys, list)
    ensures Single(list)
  {
    var edges := Replay(map[], Log(results, order));
    var tidied := TidyAll(edges, keys);
    ReplayKeyed(map[], Log(results, order));
    forall i, j | 0 <= i < j < |tidied|
      ensures tidied[i].service1 != tidied[j].service1 || tidied[i].service2 != tidied[j].service2
    {
      assert keys[i] in keys && keys[j] in keys;
    }
    SinglePermuted(tidied, list);
  }

  lemma SinglePermuted(tidied: seq<Edge>, list: seq<Edge>)
    requires Single(tidied) && multiset(list) == multiset(tidied)
    ensures Single(list)
  {
    PermutationFacts(tidied, list);
    forall i, j | 0 <= i < j < |list|
      ensures list[i].service1 != list[j].service1 || list[i].service2 != list[j].service2
    {
      assert list[i] in tidied && list[j] in tidied && list[i] != list[j];
    }
  }

  /** With keys apart, the graph is exact. */
  lemma ApartIsExact(results: seq<SvcDeps>, order: seq<string>, keys: seq<string>, list: seq<Edge>)
    requires DistinctNames(results) && KeysApart(results) && Outcome(results, order, keys, list)
    ensures Sound(results, list) && Complete(results, list)
  {
    var tidied := TidyAll(Replay(map[], Log(results, order)), keys);
    PermutationFacts(tidied, list);
    forall e | e in list
      ensures exists r, s | r in results && s in results :: Meet(r, s) && IsEdgeOf(e, r, s)
    {
      var i :| 0 <= i < |tidied| && tidied[i] == e;
      assert keys[i] in keys;
      MapSound(results, order, keys[i]);
    }
    forall r, s | r in results && s in results && Meet(r, s)
      ensures exists e | e in list :: IsEdgeOf(e, r, s)
    {
      MapComplete(results, order, r, s);
      var i :| 0 <= i < |keys| && keys[i] == EdgeKey(r.name, s.name);
      assert tidied[i] in list;
    }
  }

  /** Two edges whose services have one key are one edge. */
  lemma KeyDetermines(results: seq<SvcDeps>, order: seq<string>, keys: seq<string>, list: seq<Edge>, e: Edge, f: Edge)
    requires Outcome(results, order, keys, list) && e in list && f in list
    requires EdgeKey(e.service1, e.service2) == EdgeKey(f.service1, f.service2)
    ensures e == f
  {
    var edges := Replay(map[], Log(results, order));
    var tidied := TidyAll(edges, keys);
    ReplayKeyed(map[], Log(results, order));
    PermutationFacts(tidied, list);
    var i :| 0 <= i < |tidied| && tidied[i] == e;
    var j :| 0 <= j < |tidied| && tidied[j] == f;
    assert keys[i] in keys && keys[j] in keys;
  }

  lemma EdgeFor(results: seq<SvcDeps>, list: seq<Edge>, x: string, y: string) returns (e: Edge)
    requires Complete(results, list) && Paired(results, x, y)
    ensures e in list && e.service1 == x && e.service2 == y
  {
    var r, s :| r in results && s in results && r.name == x && s.name == y && Meet(r, s);
    e :| e in list && IsEdgeOf(e, r, s);
  }

  lemma CompleteIsApart(results: seq<SvcDeps>, order: seq<string>, keys: seq<string>, list: seq<Edge>)
    requires Outcome(results, order, keys, list) && Complete(results, list)
    ensures KeysApart(results)
  {
    forall x, y, z, w | Paired(results, x, y) && Paired(results, z, w) && EdgeKey(x, y) == EdgeKey(z, w)
      ensures x == z && y == w
    {
      var e := EdgeFor(results, list, x, y);
      var f := EdgeFor(results, list, z, w);
      KeyDetermines(results, order, keys, list, e, f);
    }
  }

  /** There is never a second edge for two services, and the graph is exact just when keys are apart. */
  lemma ExactIff(results: seq<SvcDeps>, list: seq<Edge>)
    requires DistinctNames(results) && IsGraph(results, list)
    ensures Single(list)
    ensures Sound(results, list) && Complete(results, list) <==> KeysApart(results)
  {
    var order, keys :| Outcome(results, order, keys, list);
    OneEdgePerPair(results, order, keys, list);
    if KeysApart(results) { ApartIsExact(results, order, keys, list); }
    if Complete(results, list) { CompleteIsApart(results, order, keys, list); }
  }

  lemma EdgeKeyInjective(a: string, b: string, c: string, d: string)
    requires '|' !in a && '|' !in c && EdgeKey(a, b) == EdgeKey(c, d)
    ensures a == c && b == d
  {
    SplitCons(a, '|', b);
    SplitCons(c, '|', d);
    assert a == Split(EdgeKey(a, b), '|')[0] == c;
    assert b == EdgeKey(a, b)[|a| + 1..] && d == EdgeKey(c, d)[|c| + 1..];
  }

  /** Without '|' in the names, the key of an edge determines its two services. */
  lemma PipeFreeApart(results: seq<SvcDeps>)
    requires forall r | r in results :: '|' !in r.name
    ensures KeysApart(results)
  {
    forall x, y, z, w | Paired(results, x, y) && Paired(results, z, w) && EdgeKey(x, y) == EdgeKey(z, w)
      ensures x == z && y == w
    {
      EdgeKeyInjective(x, y, z, w);
    }
  }

  // ---- Where the hypotheses fail ----

  /** Two services, at different positions, of these names and both with the dependency. */
  ghost predicate HasTwo(results: seq<SvcDeps>, x: string, y: string, dep: string) {
    exists i, j | 0 <= i < j < |results| ::
      results[i].name == x && dep in results[i].deps && results[j].name == y && dep in results[j].deps
  }

  ghost predicate UsesTwo(users: seq<User>, x: string, y: string) {
    exists i, j | 0 <= i < j < |users| :: users[i].service == x && users[j].service == y
  }

  lemma UsesTwoSnoc(users: seq<User>, u: User, x: string, y: string)
    ensures UsesTwo(users + [u], x, y) <==> UsesTwo(users, x, y) || (Uses(users, x) && u.service == y)
  {
    var all := users + [u];
    assert all[|users|] == u && forall i | 0 <= i < |users| :: all[i] == users[i];
    if UsesTwo(users, x, y) {
      var i, j :| 0 <= i < j < |users| && users[i].service == x && users[j].service == y;
      assert all[i].service == x && all[j].service == y;
    }
    if Uses(users, x) && u.service == y {
      var i :| 0 <= i < |users| && users[i].service == x;
      assert all[i].service == x && all[|users|].service == y;
    }
  }

  lemma HasTwoSnoc(results: seq<SvcDeps>, r: SvcDeps, x: string, y: string, dep: string)
    ensures HasTwo(results + [r], x, y, dep) <==>
      HasTwo(results, x, y, dep) || (Has(results, x, dep) && r.name == y && dep in r.deps)
  {
    var all := results + [r];
    assert all[|results|] == r && forall i | 0 <= i < |results| :: all[i] == results[i];
    if HasTwo(results, x, y, dep) {
      var i, j :| 0 <= i < j < |results| && results[i].name == x && dep in results[i].deps
        && results[j].name == y && dep in results[j].deps;
      assert all[i].name == x && all[j].name == y;
    }
    if Has(results, x, dep) && r.name == y && dep in r.deps {
      var i :| 0 <= i < |results| && results[i].name == x && dep in results[i].deps;
      assert all[i].name == x && all[|results|].name == y;
    }
  }

  /** Users keep the order of the services, whatever their names are. */
  lemma {:induction false} UsersTwo(results: seq<SvcDeps>, dep: string, x: string, y: string)
    ensures UsesTwo(Users(results, dep), x, y) <==> HasTwo(results, x, y, dep)
  {
    if results != [] {
      var before, r := results[..|results| - 1], results[|results| - 1];
      assert results == before + [r];
      UsersTwo(before, dep, x, y);
      UsersAre(before, dep, x);
      UsersSnoc(before, r, dep);
      HasTwoSnoc(before, r, x, y, dep);
      if dep in r.deps { UsesTwoSnoc(Users(before, dep), User(r.name, r.deps[dep]), x, y); }
    }
  }

  lemma UsesTwoLater(u: User, rest: seq<User>, x: string, y: string)
    requires UsesTwo(rest, x, y) || (u.service == x && Uses(rest, y))
    ensures UsesTwo([u] + rest, x, y)
  {
    var all := [u] + rest;
    if UsesTwo(rest, x, y) {
      var i, j :| 0 <= i < j < |rest| && rest[i].service == x && rest[j].service == y;
      assert all[i + 1].service == x && all[j + 1].service == y;
    } else {
      var j :| 0 <= j < |rest| && rest[j].service == y;
      assert all[0].service == x && all[j + 1].service == y;
    }
  }

  lemma UsesTwoCons(u: User, rest: seq<User>, x: string, y: string)
    ensures UsesTwo([u] + rest, x, y) <==> UsesTwo(rest, x, y) || (u.service == x && Uses(rest, y))
  {
    var all := [u] + rest;
    if UsesTwo(rest, x, y) || (u.service == x && Uses(rest, y)) { UsesTwoLater(u, rest, x, y); }
    if i, j :| 0 <= i < j < |all| && all[i].service == x && all[j].service == y {
      assert rest[j - 1].service == y;
      if i > 0 { assert rest[i - 1].service == x; }
    }
  }

  lemma LinkOfSelf(dep: string, x: string, y: string)
    ensures LinkOf(dep, x, y).a == LinkOf(dep, x, y).b <==> x == y
    ensures LinkOf(dep, x, y).a == x || LinkOf(dep, x, y).a == y
  {
  }

  lemma SelfRow(dep: string, u: User, others: seq<User>, name: string)
    ensures Link(dep, name, name) in Row(dep, u, others) <==> u.service == name && Uses(others, name)
  {
    var row, self := Row(dep, u, others), Link(dep, name, name);
    if self in row {
      var k :| 0 <= k < |row| && row[k] == self;
      LinkOfSelf(dep, u.service, others[k].service);
    }
    if u.service == name && Uses(others, name) {
      var k :| 0 <= k < |others| && others[k].service == name;
      LessIrreflexive(name);
      assert row[k] == self;
    }
  }

  /** A link of a service name to itself comes from two users of that name. */
  lemma {:induction false} SelfRows(dep: string, users: seq<User>, name: string)
    ensures Link(dep, name, name) in Rows(dep, users) <==> UsesTwo(users, name, name)
  {
    if users != [] {
      var u, rest := users[0], users[1..];
      assert users == [u] + rest;
      SelfRows(dep, rest, name);
      UsesTwoCons(u, rest, name, name);
      SelfRow(dep, u, rest, name);
    }
  }

  lemma {:induction false} RowsDep(dep: string, users: seq<User>, l: Link)
    requires l in Rows(dep, users)
    ensures l.dep == dep
  {
    var row := Row(dep, users[0], users[1..]);
    if l in row {
      var k :| 0 <= k < |row| && row[k] == l;
    } else {
      RowsDep(dep, users[1..], l);
    }
  }

  lemma {:induction false} SelfLog(results: seq<SvcDeps>, order: seq<string>, dep: string, name: string)
    ensures Link(dep, name, name) in Log(results, order) <==> dep in order && HasTwo(results, name, name, dep)
  {
    if order != [] {
      var before, last := order[..|order| - 1], order[|order| - 1];
      assert order == before + [last];
      SelfLog(results, before, dep, name);
      SelfRows(last, Users(results, last), name);
      UsersTwo(results, last, name, name);
      if Link(dep, name, name) in Rows(last, Users(results, last)) {
        RowsDep(last, Users(results, last), Link(dep, name, name));
      }
    }
  }

  ghost predicate JoinsSome(log: seq<Link>, e: Edge) {
    exists l | l in log :: l.a == e.service1 && l.b == e.service2
  }

  /** Every edge joins the services of some link. */
  ghost predicate Joined(edges: EdgeMap, log: seq<Link>) {
    forall key | key in edges :: JoinsSome(log, edges[key])
  }

  /** Every link has an edge under its key. */
  ghost predicate Present(edges: EdgeMap, log: seq<Link>) {
    forall l | l in log :: EdgeKey(l.a, l.b) in edges
  }

  lemma SomeJoins(log: seq<Link>, l: Link, e: Edge)
    requires l in log && l.a == e.service1 && l.b == e.service2
    ensures JoinsSome(log, e)
  {
  }

  lemma JoinsTail(log: seq<Link>, e: Edge)
    requires log != [] && JoinsSome(log[1..], e)
    ensures JoinsSome(log, e)
  {
    var l :| l in log[1..] && l.a == e.service1 && l.b == e.service2;
    SomeJoins(log, l, e);
  }

  /** An edge joins the services of a link, or was there before. */
  lemma {:induction false} ReplayJoins(edges: EdgeMap, log: seq<Link>, key: string)
    requires key in Replay(edges, log)
    ensures
      var e := Replay(edges, log)[key];
      || JoinsSome(log, e)
      || (key in edges && edges[key].service1 == e.service1 && edges[key].service2 == e.service2)
    decreases log
  {
    if log != [] {
      var first, e := AddLink(edges, log[0]), Replay(edges, log)[key];
      ReplayJoins(first, log[1..], key);
      if JoinsSome(log[1..], e) {
        JoinsTail(log, e);
      } else if key !in edges {
        SomeJoins(log, log[0], e);
      }
    }
  }

  lemma {:induction false} ReplayPresent(edges: EdgeMap, log: seq<Link>, key: string)
    requires key in edges || exists l | l in log :: EdgeKey(l.a, l.b) == key
    ensures key in Replay(edges, log)
    decreases log
  {
    if log != [] {
      assert log == [log[0]] + log[1..];
      ReplayPresent(AddLink(edges, log[0]), log[1..], key);
    }
  }

  /** The edge map of the whole computation. */
  lemma MapJoined(results: seq<SvcDeps>, order: seq<string>)
    ensures
      var log := Log(results, order);
      var edges := Replay(map[], log);
      Joined(edges, log) && Present(edges, log) && Keyed(edges)
  {
    var log := Log(results, order);
    var edges := Replay(map[], log);
    forall key | key in edges ensures JoinsSome(log, edges[key]) { ReplayJoins(map[], log, key); }
    forall l | l in log ensures EdgeKey(l.a, l.b) in edges { ReplayPresent(map[], log, EdgeKey(l.a, l.b)); }
    ReplayKeyed(map[], log);
  }

  /** Links join names of services. */
  lemma {:induction false} RowsNames(dep: string, users: seq<User>, l: Link)
    requires l in Rows(dep, users)
    ensures exists u | u in users :: u.service == l.a
  {
    var row := Row(dep, users[0], users[1..]);
    if l in row {
      var k :| 0 <= k < |row| && row[k] == l;
      assert users[1..][k] == users[k + 1] && users[k + 1] in users && users[0] in users;
      LinkOfSelf(dep, users[0].service, users[k + 1].service);
    } else {
      RowsNames(dep, users[1..], l);
      var u :| u in users[1..] && u.service == l.a;
      assert u in users;
    }
  }

  lemma {:induction false} LogNames(results: seq<SvcDeps>, order: seq<string>, l: Link)
    requires l in Log(results, order)
    ensures exists r | r in results :: r.name == l.a
  {
    var before, last := order[..|order| - 1], order[|order| - 1];
    if l in Log(results, before) {
      LogNames(results, before, l);
    } else {
      RowsNames(last, Users(results, last), l);
      var u :| u in Users(results, last) && u.service == l.a;
      UsersAre(results, last, l.a);
      var i :| 0 <= i < |results| && results[i].name == l.a && last in results[i].deps;
      assert results[i] in results;
    }
  }

  lemma EnoughUsers(results: seq<SvcDeps>, dep: string, x: string, y: string)
    requires HasTwo(results, x, y, dep)
    ensures |Users(results, dep)| >= 2
  {
    UsersTwo(results, dep, x, y);
  }

  lemma SelfEdgeInMap(results: seq<SvcDeps>, order: seq<string>, name: string, dep: string)
    requires forall r | r in results :: '|' !in r.name
    requires (forall d :: d in order <==> |Users(results, d)| >= 2) && HasTwo(results, name, name, dep)
    ensures var edges := Replay(map[], Log(results, order));
      var key := EdgeKey(name, name);
      key in edges && edges[key].service1 == name == edges[key].service2
  {
    var log, l := Log(results, order), Link(dep, name, name);
    EnoughUsers(results, dep, name, name);
    SelfLog(results, order, dep, name);
    MapJoined(results, order);
    var edges, key := Replay(map[], log), EdgeKey(name, name);
    assert EdgeKey(l.a, l.b) in edges;
    assert JoinsSome(log, edges[key]);
    var k :| k in log && k.a == edges[key].service1 && k.b == edges[key].service2;
    LogNames(results, order, k);
    LogNames(results, order, l);
    EdgeKeyInjective(edges[key].service1, edges[key].service2, name, name);
  }

  lemma SelfEdgeListed(
    results: seq<SvcDeps>, order: seq<string>, keys: seq<string>, list: seq<Edge>, name: string, dep: string)
    requires forall r | r in results :: '|' !in r.name
    requires Outcome(results, order, keys, list) && HasTwo(results, name, name, dep)
    ensures exists e | e in list :: e.service1 == e.service2
  {
    var tidied := TidyAll(Replay(map[], Log(results, order)), keys);
    PermutationFacts(tidied, list);
    SelfEdgeInMap(results, order, name, dep);
    var i :| 0 <= i < |keys| && keys[i] == EdgeKey(name, name);
    assert tidied[i] in list && tidied[i].service1 == tidied[i].service2;
  }

  lemma SelfEdgeShows(results: seq<SvcDeps>, order: seq<string>, keys: seq<string>, list: seq<Edge>, e: Edge)
    requires Outcome(results, order, keys, list) && e in list && e.service1 == e.service2
    ensures exists name, dep :: HasTwo(results, name, name, dep)
  {
    var log := Log(results, order);
    var edges := Replay(map[], log);
    var tidied := TidyAll(edges, keys);
    PermutationFacts(tidied, list);
    var i :| 0 <= i < |tidied| && tidied[i] == e;
    assert keys[i] in keys;
    MapJoined(results, order);
    assert JoinsSome(log, edges[keys[i]]);
    var l :| l in log && l.a == edges[keys[i]].service1 && l.b == edges[keys[i]].service2;
    SelfLog(results, order, l.dep, l.a);
    assert HasTwo(results, l.a, l.a, l.dep);
  }

  /**
   Exactly when the graph has an edge from a service name to itself, for names without '|': when two services
   share a name and a dependency. Distinct names, as Validate demands them, rule that out.
   */
  lemma SelfEdgeIff(results: seq<SvcDeps>, list: seq<Edge>)
    requires IsGraph(results, list) && forall r | r in results :: '|' !in r.name
    ensures (exists e | e in list :: e.service1 == e.service2) <==>
      exists name, dep :: HasTwo(results, name, name, dep)
    ensures DistinctNames(results) ==> forall e | e in list :: e.service1 != e.service2
  {
    var order, keys :| Outcome(results, order, keys, list);
    if e :| e in list && e.service1 == e.service2 {
      SelfEdgeShows(results, order, keys, list, e);
    }
    if name, dep :| HasTwo(results, name, name, dep) {
      SelfEdgeListed(results, order, keys, list, name, dep);
    }
  }

  /** Two pairs of names with one key: "a|b" with "c", and "a" with "b|c". */
  lemma PipesCollide()
    ensures EdgeKey("a|b", "c") == EdgeKey("a", "b|c")
  {
    assert EdgeKey("a|b", "c") == "a|b|c" == EdgeKey("a", "b|c");
  }

  /** When these four services meet in two pairs, no outcome is exact: the two edges become one. */
  lemma PipesMergeEdges(results: seq<SvcDeps>, list: seq<Edge>)
    requires DistinctNames(results) && IsGraph(results, list)
    requires Paired(results, "a|b", "c") && Paired(results, "a", "b|c")
    ensures !(Sound(results, list) && Complete(results, list))
  {
    PipesCollide();
    ExactIff(results, list);
  }
}
