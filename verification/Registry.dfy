/**
 The list of tracked services: its validity rules (internal/config/config.go), the handlers
 that add and delete entries (internal/api/api.go, internal/web/web.go) and the merge of
 discovered services (cmd/releasewave/discover.go).
 */
module Registry {
  import opened Wrappers
  import opened GoStrings

  datatype ServiceConfig = ServiceConfig(name: string, repo: string, registry: string)

  /** What ParseRepo reads out of host/owner/repo. */
  datatype Repo = Repo(platform: string, owner: string, repoName: string)

  predicate RepoForm(repo: string) {
    |Split(repo, '/')| >= 3
  }

  function Platform(host: string): string {
    if Contains(host, "github") then "github"
    else if Contains(host, "gitlab") then "gitlab"
    else host
  }

  function ParseRepo(repo: string): Option<Repo> {
    var parts := Split(repo, '/');
    if |parts| < 3 then None else Some(Repo(Platform(parts[0]), parts[1], parts[2]))
  }

  /** A repository can be parsed exactly when it has two slashes or more. */
  lemma ParsesIff(repo: string)
    ensures RepoForm(repo) <==> multiset(repo)['/'] >= 2
    ensures ParseRepo(repo).Some? <==> multiset(repo)['/'] >= 2
  {
    SplitCount(repo, '/');
  }

  lemma ParseJoined(host: string, owner: string, repoName: string)
    requires '/' !in host && '/' !in owner && '/' !in repoName
    ensures RepoForm(Join([host, owner, repoName], "/"))
    ensures ParseRepo(Join([host, owner, repoName], "/")) == Some(Repo(Platform(host), owner, repoName))
  {
    SplitJoin([host, owner, repoName], '/');
  }

  /**
   What is read out of host/owner/repository and whatever path follows: owner and repository as they are, and for
   the platform "github" or "gitlab" if the host has it anywhere in its name, "github" first, else the host itself.
   */
  lemma ParsedParts(host: string, owner: string, repoName: string, tail: string)
    requires '/' !in host && '/' !in owner && '/' !in repoName && (tail == "" || tail[0] == '/')
    ensures
      var parsed := ParseRepo(host + "/" + (owner + "/" + (repoName + tail)));
      && parsed.Some? && parsed.value.owner == owner && parsed.value.repoName == repoName
      && (Contains(host, "github") ==> parsed.value.platform == "github")
      && (!Contains(host, "github") && Contains(host, "gitlab") ==> parsed.value.platform == "gitlab")
      && (!Contains(host, "github") && !Contains(host, "gitlab") ==> parsed.value.platform == host)
  {
    SplitCons(host, '/', owner + "/" + (repoName + tail));
    SplitCons(owner, '/', repoName + tail);
    if tail == "" {
      assert repoName + tail == repoName;
      SplitWhole(repoName, '/');
    } else {
      assert repoName + tail == repoName + "/" + tail[1..];
      SplitCons(repoName, '/', tail[1..]);
    }
  }

  // ---- Validity ----

  predicate ValidEntry(svc: ServiceConfig) {
    svc.name != "" && RepoForm(svc.repo)
  }

  predicate DistinctNames(services: seq<ServiceConfig>) {
    forall i, j | 0 <= i < j < |services| :: services[i].name != services[j].name
  }

  predicate ValidServices(services: seq<ServiceConfig>) {
    && (forall i | 0 <= i < |services| :: ValidEntry(services[i]))
    && DistinctNames(services)
  }

  predicate HasName(services: seq<ServiceConfig>, name: string) {
    exists i | 0 <= i < |services| :: services[i].name == name
  }

  datatype ConfigError = NameRequired | RepoRequired | BadRepoForm | DuplicateName

  /** The first rule that entry `i` breaks, given that the entries before it are fine. */
  ghost predicate Breaks(services: seq<ServiceConfig>, i: nat, e: ConfigError)
    requires i < |services|
  {
    match e
    case NameRequired => services[i].name == ""
    case RepoRequired => services[i].name != "" && services[i].repo == ""
    case BadRepoForm => services[i].name != "" && services[i].repo != "" && !RepoForm(services[i].repo)
    case DuplicateName => ValidEntry(services[i]) && HasName(services[..i], services[i].name)
  }

  /** The service part of Config.Validate: an error and its index, or None. */
  method Validate(services: seq<ServiceConfig>) returns (err: Option<(nat, ConfigError)>)
    ensures err.None? <==> ValidServices(services)
    ensures err.Some? ==>
      && err.value.0 < |services|
      && ValidServices(services[..err.value.0])
      && Breaks(services, err.value.0, err.value.1)
  {
    var seen := {};
    for i := 0 to |services|
      invariant ValidServices(services[..i])
      invariant forall n :: n in seen <==> HasName(services[..i], n)
    {
      var svc := services[i];
      assert services[..i + 1] == services[..i] + [svc];
      assert Split("", '/') == [""];
      if svc.name == "" {
        return Some((i, NameRequired));
      }
      if svc.repo == "" {
        return Some((i, RepoRequired));
      }
      if |Split(svc.repo, '/')| < 3 {
        return Some((i, BadRepoForm));
      }
      if svc.name in seen {
        var k :| 0 <= k < i && services[..i][k].name == svc.name;
        assert services[k].name == services[i].name;
        return Some((i, DuplicateName));
      }
      ValidAfterAppend(services[..i], svc);
      NamesAfterAppend(services[..i], svc);
      seen := seen + {svc.name};
    }
    assert services[..|services|] == services;
    return None;
  }

  // ---- Adding and deleting ----

  datatype Status = Created | Deleted | BadRequest | Conflict | NotFound

  datatype Request =
    | Add(name: string, repo: string, registry: string)
    | Delete(name: string)

  function Without(services: seq<ServiceConfig>, name: string): seq<ServiceConfig> {
    if services == [] then []
    else (if services[0].name == name then [] else [services[0]]) + Without(services[1..], name)
  }

  /** What one request answers and leaves behind. */
  function Answer(services: seq<ServiceConfig>, req: Request): (Status, seq<ServiceConfig>) {
    match req
    case Add(name, repo, registry) =>
      if name == "" || repo == "" || !RepoForm(repo) then (BadRequest, services)
      else if HasName(services, name) then (Conflict, services)
      else (Created, services + [ServiceConfig(name, repo, registry)])
    case Delete(name) =>
      if HasName(services, name) then (Deleted, Without(services, name)) else (NotFound, services)
  }

  /** The configuration as one handler sees it; each method body runs under the handler's lock. */
  class ServiceList {
    var services: seq<ServiceConfig>

    constructor (initial: seq<ServiceConfig>)
      ensures services == initial
    {
      services := initial;
    }

    method AddService(name: string, repo: string, registry: string) returns (status: Status)
      modifies this
      ensures (status, services) == Answer(old(services), Add(name, repo, registry))
      ensures status == BadRequest <==> name == "" || multiset(repo)['/'] < 2
      ensures status == Conflict <==> status != BadRequest && exists svc | svc in old(services) :: svc.name == name
      ensures status in {BadRequest, Conflict, Created}
      ensures services ==
        if status == Created then old(services) + [ServiceConfig(name, repo, registry)] else old(services)
    {
      ParsesIff(repo);
      if name == "" || repo == "" {
        return BadRequest;
      }
      if |Split(repo, '/')| < 3 {
        return BadRequest;
      }
      for i := 0 to |services|
        invariant services == old(services)
        invariant forall k | 0 <= k < i :: services[k].name != name
      {
        if services[i].name == name {
          return Conflict;
        }
      }
      services := services + [ServiceConfig(name, repo, registry)];
      status := Created;
    }

    method DeleteService(name: string) returns (status: Status)
      modifies this
      ensures (status, services) == Answer(old(services), Delete(name))
      ensures status == Deleted <==> exists svc | svc in old(services) :: svc.name == name
      ensures status != Deleted ==> status == NotFound && services == old(services)
      ensures forall svc :: svc in services <==> svc in old(services) && svc.name != name
    {
      WithoutIsFilter(services, name);
      var found := false;
      var kept: seq<ServiceConfig> := [];
      for i := 0 to |services|
        invariant services == old(services)
        invariant found <==> HasName(services[..i], name)
        invariant kept == Without(services[..i], name)
      {
        assert services[..i + 1] == services[..i] + [services[i]];
        NamesAfterAppend(services[..i], services[i]);
        WithoutAppend(services[..i], [services[i]], name);
        WithoutOne(services[i], name);
        if services[i].name == name {
          found := true;
          continue;
        }
        kept := kept + [services[i]];
      }
      assert services[..|services|] == services;
      if !found {
        return NotFound;
      }
      services := kept;
      status := Deleted;
    }
  }

  lemma {:induction false} WithoutIsFilter(services: seq<ServiceConfig>, name: string)
    ensures forall x :: x in Without(services, name) <==> x in services && x.name != name
  {
    if services != [] {
      WithoutIsFilter(services[1..], name);
      assert services == [services[0]] + services[1..];
    }
  }

  lemma {:induction false} WithoutKeepsDistinct(services: seq<ServiceConfig>, name: string)
    requires DistinctNames(services)
    ensures DistinctNames(Without(services, name))
  {
    if services != [] {
      var rest := services[1..];
      WithoutKeepsDistinct(rest, name);
      WithoutIsFilter(rest, name);
      if services[0].name != name {
        var out := Without(rest, name);
        assert Without(services, name) == [services[0]] + out;
        forall j | 0 <= j < |out| ensures out[j].name != services[0].name {
          assert out[j] in rest;
          var k :| 0 <= k < |rest| && rest[k] == out[j];
          assert services[k + 1] == out[j];
        }
      }
    }
  }

  lemma {:induction false} WithoutAbsent(services: seq<ServiceConfig>, name: string)
    requires !HasName(services, name)
    ensures Without(services, name) == services
  {
    if services != [] {
      assert services[0].name != name;
      forall i | 0 <= i < |services[1..]| ensures services[1..][i].name != name {
        assert services[1..][i] == services[i + 1];
      }
      WithoutAbsent(services[1..], name);
    }
  }

  lemma {:induction false} WithoutAppend(a: seq<ServiceConfig>, b: seq<ServiceConfig>, name: string)
    ensures Without(a + b, name) == Without(a, name) + Without(b, name)
  {
    if a == [] {
      assert a + b == b;
    } else {
      assert (a + b)[1..] == a[1..] + b;
      WithoutAppend(a[1..], b, name);
    }
  }

  lemma WithoutOne(svc: ServiceConfig, name: string)
    ensures Without([svc], name) == if svc.name == name then [] else [svc]
  {
    assert [svc][1..] == [];
  }

  lemma RequestKeepsValid(services: seq<ServiceConfig>, req: Request)
    requires ValidServices(services)
    ensures ValidServices(Answer(services, req).1)
  {
    if req.Delete? {
      WithoutIsFilter(services, req.name);
      WithoutKeepsDistinct(services, req.name);
      var out := Without(services, req.name);
      forall i | 0 <= i < |out| ensures ValidEntry(out[i]) {
        assert out[i] in services;
      }
    }
  }

  function Serve(services: seq<ServiceConfig>, reqs: seq<Request>): seq<ServiceConfig>
    decreases reqs
  {
    if reqs == [] then services else Serve(Answer(services, reqs[0]).1, reqs[1..])
  }

  /** Every run of adds and deletes keeps the rules that Validate checks. */
  lemma {:induction false} RunKeepsValid(services: seq<ServiceConfig>, reqs: seq<Request>)
    requires ValidServices(services)
    ensures ValidServices(Serve(services, reqs))
    decreases reqs
  {
    if reqs != [] {
      RequestKeepsValid(services, reqs[0]);
      RunKeepsValid(Answer(services, reqs[0]).1, reqs[1..]);
    }
  }

  lemma {:induction false} ServeSnoc(services: seq<ServiceConfig>, reqs: seq<Request>, req: Request)
    ensures Serve(services, reqs + [req]) == Answer(Serve(services, reqs), req).1
    decreases reqs
  {
    if reqs == [] {
      assert [req][1..] == [] && reqs + [req] == [req];
    } else {
      assert (reqs + [req])[1..] == reqs[1..] + [req];
      ServeSnoc(Answer(services, reqs[0]).1, reqs[1..], req);
    }
  }

  /** Request `k` added the entry: it has a name and a repository of the right form, and its name was free. */
  ghost predicate AddedBy(services: seq<ServiceConfig>, reqs: seq<Request>, k: nat, svc: ServiceConfig) {
    && k < |reqs| && reqs[k] == Add(svc.name, svc.repo, svc.registry)
    && svc.name != "" && multiset(svc.repo)['/'] >= 2
    && forall other | other in Serve(services, reqs[..k]) :: other.name != svc.name
  }

  /** No request from position `k` on deletes the name. */
  ghost predicate KeptFrom(reqs: seq<Request>, k: nat, name: string) {
    forall j | k <= j < |reqs| :: reqs[j] != Delete(name)
  }

  /** The entry was there from the beginning or was added, and its name has not been deleted since. */
  ghost predicate Remains(services: seq<ServiceConfig>, reqs: seq<Request>, svc: ServiceConfig) {
    || (svc in services && KeptFrom(reqs, 0, svc.name))
    || exists k: nat :: AddedBy(services, reqs, k, svc) && KeptFrom(reqs, k, svc.name)
  }

  lemma AddedBySnoc(services: seq<ServiceConfig>, reqs: seq<Request>, req: Request, k: nat, svc: ServiceConfig)
    requires k < |reqs|
    ensures AddedBy(services, reqs + [req], k, svc) <==> AddedBy(services, reqs, k, svc)
  {
    assert (reqs + [req])[k] == reqs[k] && (reqs + [req])[..k] == reqs[..k];
  }

  lemma KeptFromSnoc(reqs: seq<Request>, req: Request, k: nat, name: string)
    requires k <= |reqs|
    ensures KeptFrom(reqs + [req], k, name) <==> KeptFrom(reqs, k, name) && req != Delete(name)
  {
    var all := reqs + [req];
    assert all[|reqs|] == req && forall j | 0 <= j < |reqs| :: all[j] == reqs[j];
  }

  lemma RemainsSnoc(services: seq<ServiceConfig>, reqs: seq<Request>, req: Request, svc: ServiceConfig)
    ensures Remains(services, reqs + [req], svc) <==>
      || (Remains(services, reqs, svc) && req != Delete(svc.name))
      || AddedBy(services, reqs + [req], |reqs|, svc)
  {
    var all, n := reqs + [req], |reqs|;
    KeptFromSnoc(reqs, req, 0, svc.name);
    if AddedBy(services, all, n, svc) {
      assert all[n] == req;
      assert KeptFrom(all, n, svc.name);
    }
    if k: nat :| AddedBy(services, all, k, svc) && KeptFrom(all, k, svc.name) && k < n {
      AddedBySnoc(services, reqs, req, k, svc);
      KeptFromSnoc(reqs, req, k, svc.name);
    }
    if k: nat :| AddedBy(services, reqs, k, svc) && KeptFrom(reqs, k, svc.name) {
      AddedBySnoc(services, reqs, req, k, svc);
      KeptFromSnoc(reqs, req, k, svc.name);
    }
  }

  lemma AnswerHas(services: seq<ServiceConfig>, req: Request, svc: ServiceConfig)
    ensures svc in Answer(services, req).1 <==>
      || (svc in services && req != Delete(svc.name))
      || (req == Add(svc.name, svc.repo, svc.registry) && svc.name != "" && multiset(svc.repo)['/'] >= 2
          && forall other | other in services :: other.name != svc.name)
  {
    ParsesIff(svc.repo);
    if req.Delete? { WithoutIsFilter(services, req.name); }
    if req.Add? && HasName(services, req.name) {
      var i :| 0 <= i < |services| && services[i].name == req.name;
      assert services[i] in services;
    }
  }

  /**
   Over every run of requests, the list has an entry exactly when it was there from the beginning, or was added
   under a free name with a repository of the right form, and its name was not deleted since.
   */
  lemma {:induction false} ListIsHistory(services: seq<ServiceConfig>, reqs: seq<Request>, svc: ServiceConfig)
    ensures svc in Serve(services, reqs) <==> Remains(services, reqs, svc)
  {
    if reqs != [] {
      var before, req := reqs[..|reqs| - 1], reqs[|reqs| - 1];
      assert reqs == before + [req] && reqs[..|before|] == before;
      ListIsHistory(services, before, svc);
      ServeSnoc(services, before, req);
      AnswerHas(Serve(services, before), req, svc);
      RemainsSnoc(services, before, req, svc);
    }
  }

  /** A successful add followed by a delete of the same name restores the list. */
  lemma AddThenDelete(services: seq<ServiceConfig>, name: string, repo: string, registry: string)
    requires Answer(services, Add(name, repo, registry)).0 == Created
    ensures Answer(Answer(services, Add(name, repo, registry)).1, Delete(name)) == (Deleted, services)
  {
    var entry := ServiceConfig(name, repo, registry);
    var grown := services + [entry];
    assert grown[|services|].name == name;
    WithoutAppend(services, [entry], name);
    WithoutAbsent(services, name);
    WithoutOne(entry, name);
    assert services + [] == services;
  }

  // ---- Merging discovered services ----

  function Merged(base: seq<ServiceConfig>, discovered: seq<ServiceConfig>): seq<ServiceConfig>
    decreases discovered
  {
    if discovered == [] then base
    else Merged(
      if HasName(base, discovered[0].name) then base else base + [discovered[0]],
      discovered[1..])
  }

  method MergeIntoConfig(base: seq<ServiceConfig>, discovered: seq<ServiceConfig>)
    returns (services: seq<ServiceConfig>, added: nat)
    ensures services == Merged(base, discovered)
    ensures |services| == |base| + added
  {
    var existing: set<string> := {};
    for i := 0 to |base|
      invariant forall n :: n in existing <==> HasName(base[..i], n)
    {
      NamesAfterAppend(base[..i], base[i]);
      assert base[..i + 1] == base[..i] + [base[i]];
      existing := existing + {base[i].name};
    }
    assert base[..|base|] == base;
    services, added := base, 0;
    for i := 0 to |discovered|
      invariant Merged(base, discovered) == Merged(services, discovered[i..])
      invariant forall n :: n in existing <==> HasName(services, n)
      invariant |services| == |base| + added
    {
      assert discovered[i..][1..] == discovered[i + 1..];
      if discovered[i].name !in existing {
        NamesAfterAppend(services, discovered[i]);
        services := services + [discovered[i]];
        existing := existing + {discovered[i].name};
        added := added + 1;
      }
    }
  }

  lemma NamesAfterAppend(services: seq<ServiceConfig>, svc: ServiceConfig)
    ensures forall n :: HasName(services + [svc], n) <==> HasName(services, n) || n == svc.name
  {
    forall n ensures HasName(services + [svc], n) <==> HasName(services, n) || n == svc.name {
      var grown := services + [svc];
      if HasName(services, n) {
        var k :| 0 <= k < |services| && services[k].name == n;
        assert grown[k].name == n;
      }
      assert grown[|services|].name == svc.name;
    }
  }

  /** Position i of `discovered` is the first to bring in its name. */
  ghost predicate Fresh(base: seq<ServiceConfig>, discovered: seq<ServiceConfig>, i: nat)
    requires i < |discovered|
  {
    !HasName(base, discovered[i].name) && !HasName(discovered[..i], discovered[i].name)
  }

  /**
   Merging keeps the old list as a prefix, keeps names distinct, covers every discovered name,
   and introduces no other name.
   */
  lemma {:induction false} MergeProperties(base: seq<ServiceConfig>, discovered: seq<ServiceConfig>)
    ensures base <= Merged(base, discovered)
    ensures DistinctNames(base) ==> DistinctNames(Merged(base, discovered))
    ensures forall n ::
      HasName(Merged(base, discovered), n) <==> HasName(base, n) || HasName(discovered, n)
    decreases discovered
  {
    if discovered != [] {
      var d := discovered[0];
      var next := if HasName(base, d.name) then base else base + [d];
      MergeProperties(next, discovered[1..]);
      NamesAfterAppend(base, d);
      assert discovered == [d] + discovered[1..];
      forall n ensures HasName(discovered, n) <==> d.name == n || HasName(discovered[1..], n) {
        NamesAfterPrepend(d, discovered[1..], n);
      }
      if DistinctNames(base) && !HasName(base, d.name) {
        assert DistinctNames(next);
      }
    }
  }

  /** Merging a list whose names are all present changes nothing; so a second merge adds nothing. */
  lemma {:induction false} MergeOfKnownNames(base: seq<ServiceConfig>, discovered: seq<ServiceConfig>)
    requires forall i | 0 <= i < |discovered| :: HasName(base, discovered[i].name)
    ensures Merged(base, discovered) == base
  {
    if discovered != [] {
      assert HasName(base, discovered[0].name);
      forall i | 0 <= i < |discovered[1..]| ensures HasName(base, discovered[1..][i].name) {
        assert discovered[1..][i] == discovered[i + 1];
      }
      MergeOfKnownNames(base, discovered[1..]);
    }
  }

  lemma SecondMergeAddsNothing(base: seq<ServiceConfig>, discovered: seq<ServiceConfig>)
    ensures Merged(Merged(base, discovered), discovered) == Merged(base, discovered)
  {
    MergeProperties(base, discovered);
    forall i | 0 <= i < |discovered| ensures HasName(discovered, discovered[i].name) {}
    MergeOfKnownNames(Merged(base, discovered), discovered);
  }

  lemma FreshShift(base: seq<ServiceConfig>, d: ServiceConfig, rest: seq<ServiceConfig>, i: nat)
    requires i < |rest|
    ensures
      var next := if HasName(base, d.name) then base else base + [d];
      Fresh(base, [d] + rest, i + 1) <==> Fresh(next, rest, i)
  {
    NamesAfterAppend(base, d);
    var n, all := rest[i].name, [d] + rest;
    assert all[i + 1] == rest[i];
    assert HasName(all[..i + 1], n) <==> d.name == n || HasName(rest[..i], n) by {
      assert all[..i + 1] == [d] + rest[..i];
      NamesAfterPrepend(d, rest[..i], n);
    }
  }

  lemma NamesAfterPrepend(d: ServiceConfig, rest: seq<ServiceConfig>, n: string)
    ensures HasName([d] + rest, n) <==> d.name == n || HasName(rest, n)
  {
    var all := [d] + rest;
    if HasName(rest, n) {
      var k :| 0 <= k < |rest| && rest[k].name == n;
      assert all[k + 1].name == n;
    }
    if HasName(all, n) && d.name != n {
      var k :| 0 <= k < |all| && all[k].name == n;
      assert rest[k - 1].name == n;
    }
    assert all[0] == d;
  }

  lemma ValidAfterAppend(base: seq<ServiceConfig>, d: ServiceConfig)
    requires !HasName(base, d.name)
    ensures ValidServices(base + [d]) <==> ValidServices(base) && ValidEntry(d)
  {
    var next := base + [d];
    if ValidServices(next) {
      assert next[|base|] == d;
      forall i | 0 <= i < |base| ensures ValidEntry(base[i]) { assert next[i] == base[i]; }
      forall i, j | 0 <= i < j < |base| ensures base[i].name != base[j].name {
        assert next[i].name != next[j].name;
      }
    }
  }

  /** Every entry that brings in a new name is well formed. */
  ghost predicate FreshEntriesValid(base: seq<ServiceConfig>, discovered: seq<ServiceConfig>) {
    forall i | 0 <= i < |discovered| && Fresh(base, discovered, i) :: ValidEntry(discovered[i])
  }

  lemma FreshEntriesValidCons(base: seq<ServiceConfig>, d: ServiceConfig, rest: seq<ServiceConfig>)
    ensures
      var next := if HasName(base, d.name) then base else base + [d];
      FreshEntriesValid(base, [d] + rest) <==>
        (HasName(base, d.name) || ValidEntry(d)) && FreshEntriesValid(next, rest)
  {
    var next := if HasName(base, d.name) then base else base + [d];
    var all := [d] + rest;
    assert Fresh(base, all, 0) <==> !HasName(base, d.name);
    if FreshEntriesValid(base, all) {
      forall i | 0 <= i < |rest| && Fresh(next, rest, i) ensures ValidEntry(rest[i]) {
        FreshShift(base, d, rest, i);
        assert ValidEntry(all[i + 1]);
      }
    }
    if (HasName(base, d.name) || ValidEntry(d)) && FreshEntriesValid(next, rest) {
      forall i | 0 <= i < |all| && Fresh(base, all, i) ensures ValidEntry(all[i]) {
        if i > 0 {
          FreshShift(base, d, rest, i - 1);
          assert ValidEntry(rest[i - 1]);
        }
      }
    }
  }

  /**
   mergeIntoConfig writes the file without validating it. The merged list is valid exactly when the
   old list is and every entry that brings in a new name is well formed.
   */
  lemma {:induction false} MergeValidIff(base: seq<ServiceConfig>, discovered: seq<ServiceConfig>)
    ensures ValidServices(Merged(base, discovered)) <==>
      ValidServices(base) && FreshEntriesValid(base, discovered)
    decreases discovered
  {
    if discovered != [] {
      var d, rest := discovered[0], discovered[1..];
      assert discovered == [d] + rest;
      FreshEntriesValidCons(base, d, rest);
      if HasName(base, d.name) {
        MergeValidIff(base, rest);
      } else {
        ValidAfterAppend(base, d);
        MergeValidIff(base + [d], rest);
      }
    }
  }
}
