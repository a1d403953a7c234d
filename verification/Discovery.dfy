/** Discovery of services from Kubernetes workloads (internal/discovery/discovery.go). */
module Discovery {
  import opened Wrappers
  import opened GoStrings
  import opened Registry

  // ---- Image references ----

  function StripDigest(image: string): string {
    var at := Index(image, "@");
    if at != -1 then image[..at] else image
  }

  function StripTag(image: string): string {
    var colon := LastIndex(image, ':');
    if colon != -1 && !Contains(image[colon + 1..], "/") then image[..colon] else image
  }

  /** The image reference without tag and digest; a colon before a slash is a port and stays. */
  function ImageWithoutTag(image: string): string {
    StripTag(StripDigest(image))
  }

  function LastPart(image: string): string {
    image[LastIndex(image, '/') + 1..]
  }

  lemma StripDigestOf(name: string, rest: string)
    requires '@' !in name
    ensures StripDigest(name) == name
    ensures StripDigest(name + "@" + rest) == name
  {
    ContainsChar(name, '@');
    var image := name + "@" + rest;
    assert OccursAt(image, "@", |name|);
    forall k: nat | OccursAt(image, "@", k) ensures image[k] == '@' {
      assert image[k..k + 1][0] == image[k];
    }
    assert image[..|name|] == name;
  }

  /** A reference without a tag is left alone exactly when its last path part has no colon. */
  lemma StripTagFixpoint(name: string)
    ensures StripTag(name) == name <==> ':' !in LastPart(name)
  {
    var colon, slash := LastIndex(name, ':'), LastIndex(name, '/');
    var tail, last := name[colon + 1..], LastPart(name);
    ContainsChar(tail, '/');
    if colon > slash {
      assert '/' !in tail;
      assert last[colon - slash - 1] == ':';
      assert |StripTag(name)| == colon < |name|;
    } else {
      assert colon < slash || colon == slash == -1;
      if colon != -1 { assert tail[slash - colon - 1] == '/'; }
      assert ':' !in last;
    }
  }

  lemma StripTagOf(name: string, tag: string)
    requires ':' !in tag && '/' !in tag
    ensures StripTag(name + ":" + tag) == name
  {
    var image := name + ":" + tag;
    assert image[|name|] == ':';
    assert LastIndex(image, ':') == |name| by {
      forall k | |name| < k < |image| ensures image[k] != ':' {
        assert image[k] == tag[k - |name| - 1];
      }
    }
    assert image[|name| + 1..] == tag;
    ContainsChar(tag, '/');
  }

  /** ImageWithoutTag undoes appending a tag, a digest, or both. */
  lemma TagAndDigestUndone(name: string, tag: string, digest: string)
    requires '@' !in name && ':' !in LastPart(name)
    requires ':' !in tag && '/' !in tag && '@' !in tag
    ensures ImageWithoutTag(name) == name
    ensures ImageWithoutTag(name + ":" + tag) == name
    ensures ImageWithoutTag(name + "@" + digest) == name
    ensures ImageWithoutTag(name + ":" + tag + "@" + digest) == name
  {
    StripDigestOf(name, digest);
    StripTagFixpoint(name);
    StripDigestOf(name + ":" + tag, digest);
    StripTagOf(name, tag);
  }

  /** The names that TagAndDigestUndone asks for are exactly the ones without tag or digest. */
  lemma BareNameIff(name: string)
    ensures ImageWithoutTag(name) == name <==> '@' !in name && ':' !in LastPart(name)
  {
    ContainsChar(name, '@');
    StripTagFixpoint(name);
    if '@' in name {
      assert |StripDigest(name)| < |name|;
    }
  }

  // ---- From image to repository ----

  /** The source host behind an image registry, or "" when none is known. */
  function SourceHost(registry: string): string {
    if Contains(registry, "ghcr.io") then "github.com"
    else if Contains(registry, "gitlab") then "gitlab.com"
    else if Contains(registry, "docker.io") then "github.com"
    else ""
  }

  function InferRepo(image: string): string {
    var parts := Split(ImageWithoutTag(image), '/');
    if |parts| < 3 || SourceHost(parts[0]) == "" then ""
    else Join([SourceHost(parts[0]), parts[1], parts[2]], "/")
  }

  lemma SourceHostPlatform(registry: string)
    requires SourceHost(registry) != ""
    ensures '/' !in SourceHost(registry)
    ensures Platform(SourceHost(registry)) ==
      if !Contains(registry, "ghcr.io") && Contains(registry, "gitlab") then "gitlab" else "github"
  {
    assert OccursAt("github.com", "github", 0);
    assert OccursAt("gitlab.com", "gitlab", 0);
    ContainsHas("gitlab.com", "github", 3);
  }

  /**
   Whatever image is given, an inferred repository is well formed, and ParseRepo reads back
   a supported platform together with the image's own second and third path parts.
   */
  lemma InferredRepoParses(image: string)
    requires InferRepo(image) != ""
    ensures RepoForm(InferRepo(image))
    ensures
      var parts := Split(ImageWithoutTag(image), '/');
      && |parts| >= 3
      && ParseRepo(InferRepo(image)) == Some(Repo(
           if !Contains(parts[0], "ghcr.io") && Contains(parts[0], "gitlab") then "gitlab" else "github",
           parts[1], parts[2]))
  {
    var parts := Split(ImageWithoutTag(image), '/');
    SplitParts(ImageWithoutTag(image), '/');
    SourceHostPlatform(parts[0]);
    ParseJoined(SourceHost(parts[0]), parts[1], parts[2]);
  }

  /** The first path part: the host of the registry, perhaps with a port. */
  predicate HostPart(host: string) {
    '/' !in host && '@' !in host
  }

  predicate PathPart(part: string) {
    '/' !in part && '@' !in part && ':' !in part
  }

  lemma ImageShape(host: string, owner: string, name: string)
    requires HostPart(host) && PathPart(owner) && PathPart(name)
    ensures
      var image := Join([host, owner, name], "/");
      image == host + "/" + (owner + "/" + name) && '@' !in image && ':' !in LastPart(image)
  {
    var image := host + "/" + (owner + "/" + name);
    assert [owner, name][1..] == [name] && [host, owner, name][1..] == [owner, name];
    assert Join([owner, name], "/") == owner + "/" + name;
    var k := LastIndex(image, '/');
    assert image[|host| + 1 + |owner|] == '/';
    assert forall i | |host| + 2 + |owner| <= i < |image| :: image[i] == name[i - |host| - 2 - |owner|];
    assert LastPart(image) == name;
  }

  /** The source host that goes with a registry, by what its name contains. */
  ghost predicate GoesWith(source: string, host: string) {
    && (Contains(host, "ghcr.io") ==> source == "github.com")
    && (!Contains(host, "ghcr.io") && Contains(host, "gitlab") ==> source == "gitlab.com")
    && (!Contains(host, "ghcr.io") && !Contains(host, "gitlab") ==>
          source == if Contains(host, "docker.io") then "github.com" else "")
  }

  lemma SourceHostIs(host: string)
    ensures GoesWith(SourceHost(host), host)
  {
  }

  /**
   The repository of an image host/owner/name, with any tag or none: the owner and the name at the source host that
   goes with the registry, and none for any other registry.
   */
  lemma ImageRepository(host: string, owner: string, name: string, tag: string) returns (source: string)
    requires HostPart(host) && PathPart(owner) && PathPart(name) && PathPart(tag)
    ensures GoesWith(source, host)
    ensures
      var image := Join([host, owner, name], "/");
      InferRepo(image) == InferRepo(image + ":" + tag) == if source == "" then "" else source + "/" + owner + "/" + name
  {
    var image := Join([host, owner, name], "/");
    source := SourceHost(host);
    SourceHostIs(host);
    ImageShape(host, owner, name);
    TagAndDigestUndone(image, tag, "");
    SplitJoin([host, owner, name], '/');
    InferredFrom(image, host, owner, name);
    InferredFrom(image + ":" + tag, host, owner, name);
  }

  lemma InferredFrom(image: string, host: string, owner: string, name: string)
    requires Split(ImageWithoutTag(image), '/') == [host, owner, name]
    ensures InferRepo(image) == if SourceHost(host) == "" then "" else SourceHost(host) + "/" + owner + "/" + name
  {
    JoinThree(SourceHost(host), owner, name);
  }

  lemma JoinThree(a: string, b: string, c: string)
    ensures Join([a, b, c], "/") == a + "/" + b + "/" + c
  {
    assert [a, b, c][1..] == [b, c] && [b, c][1..] == [c];
    assert Join([b, c], "/") == b + "/" + c;
  }

  // ---- Workloads ----

  const ANNOTATION_REPO := "releasewave.io/repo"
  const ANNOTATION_NAME := "releasewave.io/name"

  datatype Workload = Workload(name: string, annotations: map<string, string>, images: seq<string>)

  function NonEmptyAnnotation(w: Workload, key: string): Option<string> {
    if key in w.annotations && w.annotations[key] != "" then Some(w.annotations[key]) else None
  }

  function ServiceName(w: Workload): string {
    match NonEmptyAnnotation(w, ANNOTATION_NAME)
    case Some(n) => n
    case None => w.name
  }

  /** At most one entry: none when no repository can be inferred from the image. */
  function InferredEntry(name: string, image: string): seq<ServiceConfig> {
    var repo := InferRepo(image);
    if repo == "" then [] else [ServiceConfig(name, repo, ImageWithoutTag(image))]
  }

  function Inferred(name: string, images: seq<string>): seq<ServiceConfig> {
    if images == [] then [] else InferredEntry(name, images[0]) + Inferred(name, images[1..])
  }

  /** The entries one workload stands for. */
  function WorkloadServices(w: Workload): seq<ServiceConfig> {
    match NonEmptyAnnotation(w, ANNOTATION_REPO)
    case Some(repo) => [ServiceConfig(ServiceName(w), repo, "")]
    case None => Inferred(ServiceName(w), w.images)
  }

  /** The service is the one that this image stands for. */
  predicate IsOfImage(svc: ServiceConfig, name: string, image: string) {
    && InferRepo(image) != ""
    && svc.name == name && svc.repo == InferRepo(image) && svc.registry == ImageWithoutTag(image)
  }

  lemma EntryIs(name: string, image: string, svc: ServiceConfig)
    ensures svc in InferredEntry(name, image) <==> IsOfImage(svc, name, image)
  {
  }

  predicate IsOfSome(svc: ServiceConfig, name: string, images: seq<string>) {
    exists image | image in images :: IsOfImage(svc, name, image)
  }

  lemma IsOfSomeCons(svc: ServiceConfig, name: string, images: seq<string>)
    requires images != []
    ensures IsOfSome(svc, name, images) <==> IsOfImage(svc, name, images[0]) || IsOfSome(svc, name, images[1..])
  {
    assert images == [images[0]] + images[1..];
  }

  lemma {:induction false} InferredIs(name: string, images: seq<string>, svc: ServiceConfig)
    ensures svc in Inferred(name, images) <==> IsOfSome(svc, name, images)
  {
    if images != [] {
      var first, later := InferredEntry(name, images[0]), Inferred(name, images[1..]);
      InferredIs(name, images[1..], svc);
      EntryIs(name, images[0], svc);
      IsOfSomeCons(svc, name, images);
      assert Inferred(name, images) == first + later;
      assert svc in first + later <==> svc in first || svc in later;
    }
  }

  /**
   What a workload stands for. Its name is the one annotated, if there is one. An annotated repository makes it one
   service, without a registry; otherwise every image with a repository makes a service with the bare image name.
   */
  lemma WorkloadIs(w: Workload, svc: ServiceConfig)
    ensures
      var named := "releasewave.io/name" in w.annotations && w.annotations["releasewave.io/name"] != "";
      var name := if named then w.annotations["releasewave.io/name"] else w.name;
      if "releasewave.io/repo" in w.annotations && w.annotations["releasewave.io/repo"] != "" then
        WorkloadServices(w) == [ServiceConfig(name, w.annotations["releasewave.io/repo"], "")]
      else
        svc in WorkloadServices(w) <==> IsOfSome(svc, name, w.images)
  {
    InferredIs(ServiceName(w), w.images, svc);
  }

  method DiscoverFromWorkload(w: Workload) returns (services: seq<ServiceConfig>)
    ensures services == WorkloadServices(w)
  {
    var annotated := NonEmptyAnnotation(w, ANNOTATION_REPO);
    if annotated.Some? {
      services := [ServiceConfig(ServiceName(w), annotated.value, "")];
    } else {
      services := DiscoverFromImages(ServiceName(w), w.images);
    }
  }

  lemma EntriesFrom(name: string, images: seq<string>, i: nat)
    requires i < |images|
    ensures Inferred(name, images[i..]) == InferredEntry(name, images[i]) + Inferred(name, images[i + 1..])
  {
    assert images[i..][0] == images[i] && images[i..][1..] == images[i + 1..];
  }

  lemma AppendEntry(a: seq<ServiceConfig>, entry: seq<ServiceConfig>, later: seq<ServiceConfig>)
    ensures a + (entry + later) == a + entry + later
  {
  }

  method DiscoverFromImages(name: string, images: seq<string>) returns (services: seq<ServiceConfig>)
    ensures services == Inferred(name, images)
  {
    services := [];
    for i := 0 to |images|
      invariant services + Inferred(name, images[i..]) == Inferred(name, images)
    {
      ghost var entry, later := InferredEntry(name, images[i]), Inferred(name, images[i + 1..]);
      EntriesFrom(name, images, i);
      AppendEntry(services, entry, later);
      var repo := InferRepo(images[i]);
      if repo == "" {
        assert services + entry == services;
      } else {
        services := services + [ServiceConfig(name, repo, ImageWithoutTag(images[i]))];
      }
    }
  }

  function AllServices(workloads: seq<Workload>): seq<ServiceConfig> {
    if workloads == [] then [] else WorkloadServices(workloads[0]) + AllServices(workloads[1..])
  }

  /** Appends the entries whose names have not been seen yet. */
  method Absorb(svcs: seq<ServiceConfig>, found: seq<ServiceConfig>, names: set<string>)
    returns (services: seq<ServiceConfig>, seen: set<string>)
    requires forall n :: n in names <==> HasName(found, n)
    ensures services == Merged(found, svcs)
    ensures forall n :: n in seen <==> HasName(services, n)
  {
    services, seen := found, names;
    for j := 0 to |svcs|
      invariant Merged(found, svcs) == Merged(services, svcs[j..])
      invariant forall n :: n in seen <==> HasName(services, n)
    {
      assert svcs[j..][1..] == svcs[j + 1..];
      if svcs[j].name !in seen {
        NamesAfterAppend(services, svcs[j]);
        services := services + [svcs[j]];
        seen := seen + {svcs[j].name};
      }
    }
  }

  /** The loop over one kind of workload. */
  method Scan(workloads: seq<Workload>, found: seq<ServiceConfig>, names: set<string>)
    returns (services: seq<ServiceConfig>, seen: set<string>)
    requires forall n :: n in names <==> HasName(found, n)
    ensures services == Merged(found, AllServices(workloads))
    ensures forall n :: n in seen <==> HasName(services, n)
  {
    services, seen := found, names;
    for i := 0 to |workloads|
      invariant Merged(found, AllServices(workloads)) == Merged(services, AllServices(workloads[i..]))
      invariant forall n :: n in seen <==> HasName(services, n)
    {
      assert workloads[i..][1..] == workloads[i + 1..];
      var svcs := DiscoverFromWorkload(workloads[i]);
      MergedAppend(services, svcs, AllServices(workloads[i + 1..]));
      services, seen := Absorb(svcs, services, seen);
    }
  }

  /** Discover: deployments first, then stateful sets. */
  method Discover(deployments: seq<Workload>, statefulSets: seq<Workload>) returns (services: seq<ServiceConfig>)
    ensures services == Merged([], AllServices(deployments + statefulSets))
    ensures DistinctNames(services)
  {
    var seen := {};
    services, seen := Scan(deployments, [], seen);
    services, seen := Scan(statefulSets, services, seen);
    AllServicesAppend(deployments, statefulSets);
    MergedAppend([], AllServices(deployments), AllServices(statefulSets));
    MergeProperties([], AllServices(deployments + statefulSets));
  }

  lemma {:induction false} AllServicesAppend(a: seq<Workload>, b: seq<Workload>)
    ensures AllServices(a + b) == AllServices(a) + AllServices(b)
  {
    if a == [] {
      assert a + b == b;
    } else {
      assert (a + b)[1..] == a[1..] + b;
      AllServicesAppend(a[1..], b);
    }
  }

  lemma {:induction false} MergedAppend(base: seq<ServiceConfig>, a: seq<ServiceConfig>, b: seq<ServiceConfig>)
    ensures Merged(base, a + b) == Merged(Merged(base, a), b)
    decreases a
  {
    if a == [] {
      assert a + b == b;
    } else {
      assert (a + b)[0] == a[0] && (a + b)[1..] == a[1..] + b;
      MergedAppend(if HasName(base, a[0].name) then base else base + [a[0]], a[1..], b);
    }
  }

  // ---- Discovery followed by merging ----

  /** What a workload needs for its entries to be valid: a name, and a well-formed annotated repository. */
  predicate Mergeable(w: Workload) {
    && ServiceName(w) != ""
    && var repo := NonEmptyAnnotation(w, ANNOTATION_REPO);
       repo.Some? ==> RepoForm(repo.value)
  }

  /** The workload stands for some entry. */
  predicate Yields(w: Workload) {
    WorkloadServices(w) != []
  }

  /** Workload `k` is the first to bring in its service's name. */
  ghost predicate Introduces(base: seq<ServiceConfig>, workloads: seq<Workload>, k: nat)
    requires k < |workloads|
  {
    && Yields(workloads[k]) && !HasName(base, ServiceName(workloads[k]))
    && forall j | 0 <= j < k && Yields(workloads[j]) :: ServiceName(workloads[j]) != ServiceName(workloads[k])
  }

  lemma {:induction false} InferredNames(name: string, images: seq<string>)
    ensures forall svc | svc in Inferred(name, images) :: svc.name == name && RepoForm(svc.repo)
  {
    if images != [] {
      if InferRepo(images[0]) != "" { InferredRepoParses(images[0]); }
      InferredNames(name, images[1..]);
    }
  }

  /** All entries of a workload have its service's name, and they are valid exactly when it is mergeable. */
  lemma WorkloadEntries(w: Workload)
    ensures forall svc | svc in WorkloadServices(w) :: svc.name == ServiceName(w) && (ValidEntry(svc) <==> Mergeable(w))
  {
    if NonEmptyAnnotation(w, ANNOTATION_REPO).None? { InferredNames(ServiceName(w), w.images); }
  }

  /** Of entries of one name, merging takes the first, if the name is new. */
  lemma MergeOneName(base: seq<ServiceConfig>, entries: seq<ServiceConfig>, name: string)
    requires forall svc | svc in entries :: svc.name == name
    ensures Merged(base, entries) == if entries == [] || HasName(base, name) then base else base + [entries[0]]
  {
    if entries != [] {
      assert entries[0] in entries;
      var next := if HasName(base, name) then base else base + [entries[0]];
      NamesAfterAppend(base, entries[0]);
      forall i | 0 <= i < |entries[1..]| ensures HasName(next, entries[1..][i].name) {
        assert entries[1..][i] in entries;
      }
      MergeOfKnownNames(next, entries[1..]);
    }
  }

  /** What discovery removes as repeated, merging would have passed over anyway. */
  lemma {:induction false} MergeOfMerged(
    base: seq<ServiceConfig>, found: seq<ServiceConfig>, rest: seq<ServiceConfig>)
    ensures Merged(base, Merged(found, rest)) == Merged(Merged(base, found), rest)
    decreases rest
  {
    if rest != [] {
      var d := rest[0];
      MergeProperties(base, found);
      if HasName(found, d.name) {
        MergeOfMerged(base, found, rest[1..]);
      } else {
        MergeOfMerged(base, found + [d], rest[1..]);
        MergedAppend(base, found, [d]);
        assert [d][1..] == [];
      }
    }
  }

  /** The workload's name, if it yields an entry, is the only one that merging adds. */
  ghost predicate AddsName(base: seq<ServiceConfig>, w: Workload, next: seq<ServiceConfig>) {
    forall n :: HasName(next, n) <==> HasName(base, n) || (Yields(w) && n == ServiceName(w))
  }

  lemma IntroducesShift(base: seq<ServiceConfig>, all: seq<Workload>, next: seq<ServiceConfig>, k: nat)
    requires k + 1 < |all| && AddsName(base, all[0], next)
    ensures Introduces(base, all, k + 1) <==> Introduces(next, all[1..], k)
  {
    var rest := all[1..];
    assert forall j | 0 <= j < |rest| :: all[j + 1] == rest[j];
    if Introduces(next, rest, k) {
      forall j | 0 <= j < k + 1 && Yields(all[j]) ensures ServiceName(all[j]) != ServiceName(all[k + 1]) {
        if j > 0 { assert Yields(rest[j - 1]); }
      }
    }
    if Introduces(base, all, k + 1) {
      forall j | 0 <= j < k && Yields(rest[j]) ensures ServiceName(rest[j]) != ServiceName(rest[k]) {
        assert Yields(all[j + 1]);
      }
      assert Yields(all[0]) ==> ServiceName(all[0]) != ServiceName(all[k + 1]);
    }
  }

  ghost predicate FitsAt(base: seq<ServiceConfig>, workloads: seq<Workload>, k: nat)
    requires k < |workloads|
  {
    Introduces(base, workloads, k) ==> Mergeable(workloads[k])
  }

  /** Every workload that brings in a new name is mergeable. */
  ghost predicate NewOnesMergeable(base: seq<ServiceConfig>, workloads: seq<Workload>) {
    forall k | 0 <= k < |workloads| :: FitsAt(base, workloads, k)
  }

  lemma FitsShift(base: seq<ServiceConfig>, all: seq<Workload>, next: seq<ServiceConfig>, k: nat)
    requires k + 1 < |all| && AddsName(base, all[0], next)
    ensures FitsAt(base, all, k + 1) <==> FitsAt(next, all[1..], k)
  {
    IntroducesShift(base, all, next, k);
  }

  lemma NewOnesTail(base: seq<ServiceConfig>, all: seq<Workload>, next: seq<ServiceConfig>)
    requires all != [] && AddsName(base, all[0], next) && NewOnesMergeable(base, all)
    ensures NewOnesMergeable(next, all[1..])
  {
    forall k | 0 <= k < |all[1..]| ensures FitsAt(next, all[1..], k) {
      FitsShift(base, all, next, k);
      assert FitsAt(base, all, k + 1);
    }
  }

  lemma NewOnesMore(base: seq<ServiceConfig>, all: seq<Workload>, next: seq<ServiceConfig>)
    requires all != [] && AddsName(base, all[0], next)
    requires NewOnesMergeable(next, all[1..]) && FitsAt(base, all, 0)
    ensures NewOnesMergeable(base, all)
  {
    forall k | 0 <= k < |all| ensures FitsAt(base, all, k) {
      if k > 0 {
        FitsShift(base, all, next, k - 1);
        assert FitsAt(next, all[1..], k - 1);
      }
    }
  }

  lemma NewOnesCons(base: seq<ServiceConfig>, all: seq<Workload>, next: seq<ServiceConfig>)
    requires all != [] && AddsName(base, all[0], next)
    ensures NewOnesMergeable(base, all) <==> FitsAt(base, all, 0) && NewOnesMergeable(next, all[1..])
  {
    if NewOnesMergeable(base, all) {
      NewOnesTail(base, all, next);
    } else if NewOnesMergeable(next, all[1..]) && FitsAt(base, all, 0) {
      NewOnesMore(base, all, next);
    }
  }

  lemma {:induction false} ScanValidIff(base: seq<ServiceConfig>, workloads: seq<Workload>)
    ensures ValidServices(Merged(base, AllServices(workloads))) <==>
      ValidServices(base) && NewOnesMergeable(base, workloads)
    decreases workloads
  {
    if workloads != [] {
      var w, rest := workloads[0], workloads[1..];
      assert workloads == [w] + rest;
      var entries := WorkloadServices(w);
      WorkloadEntries(w);
      MergeOneName(base, entries, ServiceName(w));
      MergedAppend(base, entries, AllServices(rest));
      var next := Merged(base, entries);
      if entries != [] {
        assert entries[0] in entries;
        NamesAfterAppend(base, entries[0]);
        if !HasName(base, ServiceName(w)) { ValidAfterAppend(base, entries[0]); }
      }
      NewOnesCons(base, workloads, next);
      ScanValidIff(next, rest);
    }
  }

  /**
   Exactly when `discover --merge` leaves a configuration that Validate accepts: when the old one is, and every
   workload that brings in a new name has a non-empty one and, if its repository is annotated, one of the right form.
   */
  lemma DiscoverMergeValidIff(base: seq<ServiceConfig>, workloads: seq<Workload>)
    ensures ValidServices(Merged(base, Merged([], AllServices(workloads)))) <==>
      ValidServices(base) && NewOnesMergeable(base, workloads)
  {
    MergeOfMerged(base, [], AllServices(workloads));
    ScanValidIff(base, workloads);
  }

  /** So `discover --merge` keeps a configuration valid when all workloads are mergeable. */
  lemma DiscoverMergeKeepsValid(base: seq<ServiceConfig>, workloads: seq<Workload>)
    requires ValidServices(base)
    requires forall i | 0 <= i < |workloads| :: Mergeable(workloads[i])
    ensures ValidServices(Merged(base, Merged([], AllServices(workloads))))
  {
    DiscoverMergeValidIff(base, workloads);
  }

  /** An annotated repository is not checked: one without slashes reaches the file and fails Validate. */
  lemma AnnotatedRepoCanBreakConfig()
    ensures
      var w := Workload("api", map[ANNOTATION_REPO := "api"], []);
      !ValidServices(Merged([], Merged([], AllServices([w]))))
  {
    var w := Workload("api", map[ANNOTATION_REPO := "api"], []);
    var svc := ServiceConfig("api", "api", "");
    assert [w][1..] == [] && [svc][1..] == [];
    assert AllServices([w]) == [svc] by {
      assert WorkloadServices(w) == [svc];
    }
    assert Merged([], [svc]) == [svc] by {
      assert Merged([svc], []) == [svc];
    }
    SplitWhole("api", '/');
    assert !ValidEntry([svc][0]);
  }
}
