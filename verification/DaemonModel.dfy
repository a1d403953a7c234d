/**
 The polling daemon (internal/daemon/daemon.go) as a state machine whose steps are the atomic
 actions of its goroutines. Only the key-value and releases tables survive a crash.
 */
module DaemonModel {
  import opened Wrappers
  import opened Registry
  import opened Tables

  // ---- State ----

  /** What a provider answers for the latest release. */
  datatype Latest = Latest(tag: string, url: string)

  /** A configured service and the repository to ask about, if it parses and its platform has a provider. */
  datatype Watch = Watch(name: string, target: Option<Repo>)

  datatype Config = Config(services: seq<Watch>, hasStore: bool, hasNotifier: bool)

  function WatchOf(svc: ServiceConfig, platforms: set<string>): Watch {
    var repo := ParseRepo(svc.repo);
    Watch(svc.name, if repo.Some? && repo.value.platform in platforms then repo else None)
  }

  /** The configuration of a daemon, given the platforms that have a provider. */
  function ConfigOf(
    services: seq<ServiceConfig>, platforms: set<string>, hasStore: bool, hasNotifier: bool): (cfg: Config)
    ensures |cfg.services| == |services|
    ensures forall i | 0 <= i < |services| :: cfg.services[i] == WatchOf(services[i], platforms)
  {
    Config(seq(|services|, i requires 0 <= i < |services| => WatchOf(services[i], platforms)), hasStore, hasNotifier)
  }

  /** Where the goroutine checking one service stands. */
  datatype Pc =
    | Started
    | Fetched(rel: Latest)
    | Swapped(prev: Option<string>, rel: Latest)
    | Saved(prev: Option<string>, rel: Latest)
    | Recorded(prev: Option<string>, rel: Latest)
    | Finished(outcome: Option<Latest>)

  datatype Phase = Down | Fresh | Loading(next: nat) | Ready | Polling

  /** What an outside observer can note, in order. */
  datatype Effect =
    | Loaded(name: string, tag: string)
    | Seen(name: string, tag: string)
    | Persisted(name: string, tag: string)
    | Notified(name: string, prev: string, tag: string)

  /**
   `kv` is the key-value table's content under the keys "version:" + name, indexed by name; these keys
   are distinct for distinct names (DaemonProcess.VersionKeyInjective).
   */
  datatype State = State(
    phase: Phase,
    known: map<string, string>,
    kv: map<string, string>,
    rows: seq<Row>,
    pcs: seq<Pc>,
    trace: seq<Effect>)

  predicate Pollable(cfg: Config, i: nat)
    requires i < |cfg.services|
  {
    cfg.services[i].target.Some?
  }

  // ---- Steps ----

  datatype Action =
    | Boot                                  // New
    | Load                                  // Start, or the first RunOnce, reads the store
    | Reload                                // a later RunOnce on the same daemon reads it again
    | LoadOne(ok: bool)                     // GetKV for the next service
    | EndLoad
    | BeginPoll
    | Fetch(i: nat, answer: Option<Latest>) // ParseRepo, provider lookup, GetLatestRelease
    | Swap(i: nat)                          // read and replace known[name] under the mutex
    | Save(i: nat, ok: bool)                // SetKV
    | Record(i: nat, ok: bool)              // RecordRelease
    | Announce(i: nat)                      // Notify
    | EndPoll                               // wg.Wait returns
    | Crash

  predicate At(s: State, i: nat) {
    s.phase == Polling && i < |s.pcs|
  }

  predicate Enabled(cfg: Config, s: State, a: Action) {
    match a
    case Boot => s.phase == Down
    case Load => s.phase == Fresh
    case Reload => s.phase == Ready
    case LoadOne(_) => s.phase.Loading? && s.phase.next < |cfg.services|
    case EndLoad => s.phase == Loading(|cfg.services|)
    case BeginPoll => s.phase == Ready
    case Fetch(i, _) => At(s, i) && s.pcs[i].Started?
    case Swap(i) => At(s, i) && s.pcs[i].Fetched?
    case Save(i, _) => At(s, i) && s.pcs[i].Swapped?
    case Record(i, _) => At(s, i) && s.pcs[i].Saved?
    case Announce(i) => At(s, i) && s.pcs[i].Recorded?
    case EndPoll => s.phase == Polling && forall i | 0 <= i < |s.pcs| :: s.pcs[i].Finished?
    case Crash => s.phase != Down
  }

  predicate IsNew(prev: Option<string>, tag: string) {
    prev.Some? && prev.value != tag
  }

  function NewRow(svc: Watch, rel: Latest): Row {
    Row(svc.name, rel.tag, if svc.target.Some? then svc.target.value.platform else "", rel.url)
  }

  /** Every goroutine belongs to a configured service. */
  predicate Sized(cfg: Config, s: State) {
    |s.pcs| <= |cfg.services|
  }

  function Next(cfg: Config, s: State, a: Action): (s': State)
    requires Sized(cfg, s) && Enabled(cfg, s, a)
    ensures Sized(cfg, s')
  {
    match a
    case Boot => s.(phase := Fresh, known := map[], pcs := [])
    case Load => s.(phase := Loading(0))
    case Reload => s.(phase := Loading(0))
    case LoadOne(ok) =>
      var name := cfg.services[s.phase.next].name;
      var s1 := s.(phase := Loading(s.phase.next + 1));
      if cfg.hasStore && ok && name in s.kv then
        var tag := s.kv[name];
        s1.(known := s.known[name := tag], trace := s.trace + [Loaded(name, tag)])
      else s1
    case EndLoad => s.(phase := Ready)
    case BeginPoll => s.(phase := Polling, pcs := seq(|cfg.services|, _ => Started))
    case Fetch(i, answer) =>
      var pc := if Pollable(cfg, i) && answer.Some? then Fetched(answer.value) else Finished(None);
      s.(pcs := s.pcs[i := pc])
    case Swap(i) =>
      var name, rel := cfg.services[i].name, s.pcs[i].rel;
      var prev := if name in s.known then Some(s.known[name]) else None;
      s.(known := s.known[name := rel.tag],
         pcs := s.pcs[i := Swapped(prev, rel)],
         trace := s.trace + [Seen(name, rel.tag)])
    case Save(i, ok) =>
      var name, rel := cfg.services[i].name, s.pcs[i].rel;
      var s1 := s.(pcs := s.pcs[i := Saved(s.pcs[i].prev, rel)]);
      if cfg.hasStore && ok then
        s1.(kv := s.kv[name := rel.tag], trace := s.trace + [Persisted(name, rel.tag)])
      else s1
    case Record(i, ok) =>
      var name, rel := cfg.services[i].name, s.pcs[i].rel;
      var s1 := s.(pcs := s.pcs[i := Recorded(s.pcs[i].prev, rel)]);
      if cfg.hasStore && ok then s1.(rows := InsertOrIgnore(s.rows, NewRow(cfg.services[i], rel))) else s1
    case Announce(i) =>
      var name, prev, rel := cfg.services[i].name, s.pcs[i].prev, s.pcs[i].rel;
      var s1 := s.(pcs := s.pcs[i := Finished(Some(rel))]);
      if IsNew(prev, rel.tag) && cfg.hasNotifier then
        s1.(trace := s.trace + [Notified(name, prev.value, rel.tag)])
      else s1
    case EndPoll => s.(phase := Ready)
    case Crash => s.(phase := Down, known := map[], pcs := [])
  }

  /** The actions can be taken one after the other. */
  predicate Runs(cfg: Config, s: State, acts: seq<Action>)
    decreases acts
  {
    && Sized(cfg, s)
    && (acts == [] || (Enabled(cfg, s, acts[0]) && Runs(cfg, Next(cfg, s, acts[0]), acts[1..])))
  }

  function Exec(cfg: Config, s: State, acts: seq<Action>): State
    requires Runs(cfg, s, acts)
    decreases acts
  {
    if acts == [] then s else Exec(cfg, Next(cfg, s, acts[0]), acts[1..])
  }

  lemma {:induction false} ExecAppend(cfg: Config, s: State, a: seq<Action>, b: seq<Action>)
    requires Runs(cfg, s, a) && Runs(cfg, Exec(cfg, s, a), b)
    ensures Runs(cfg, s, a + b) && Exec(cfg, s, a + b) == Exec(cfg, Exec(cfg, s, a), b)
    decreases a
  {
    if a == [] {
      assert a + b == b;
    } else {
      assert (a + b)[0] == a[0] && (a + b)[1..] == a[1..] + b;
      ExecAppend(cfg, Next(cfg, s, a[0]), a[1..], b);
    }
  }

  // ---- Building runs ----

  /** The actions can be taken from `s` and end in `t`. */
  ghost predicate Leads(cfg: Config, s: State, acts: seq<Action>, t: State) {
    Runs(cfg, s, acts) && Exec(cfg, s, acts) == t
  }

  lemma Prepend(cfg: Config, s: State, a: Action, acts: seq<Action>, t: State) returns (all: seq<Action>)
    requires Sized(cfg, s) && Enabled(cfg, s, a) && Leads(cfg, Next(cfg, s, a), acts, t)
    ensures all == [a] + acts && Leads(cfg, s, all, t)
  {
    all := [a] + acts;
    assert all[0] == a && all[1..] == acts;
  }

  lemma Compose(cfg: Config, s: State, a: seq<Action>, t: State, b: seq<Action>, u: State) returns (all: seq<Action>)
    requires Leads(cfg, s, a, t) && Leads(cfg, t, b, u)
    ensures all == a + b && Leads(cfg, s, all, u)
  {
    all := a + b;
    ExecAppend(cfg, s, a, b);
  }

  /** Before the process starts: nothing in memory, any tables, nothing observed yet. */
  predicate Initial(s: State) {
    s.phase == Down && s.known == map[] && s.pcs == [] && s.trace == []
  }

  // ---- Observations about one service ----

  /** The values that memory has held for a service: loaded ones and observed tags. */
  function History(trace: seq<Effect>, name: string): seq<string> {
    if trace == [] then []
    else
      var e := trace[|trace| - 1];
      var before := History(trace[..|trace| - 1], name);
      if (e.Loaded? || e.Seen?) && e.name == name then before + [e.tag] else before
  }

  /** The values the key-value table has held for a service, starting with the one found there. */
  function Versions(kv0: map<string, string>, trace: seq<Effect>, name: string): seq<string> {
    if trace == [] then (if name in kv0 then [kv0[name]] else [])
    else
      var e := trace[|trace| - 1];
      var before := Versions(kv0, trace[..|trace| - 1], name);
      if e.Persisted? && e.name == name then before + [e.tag] else before
  }

  /** The (old, new) pairs a service has been announced with. */
  function Announced(trace: seq<Effect>, name: string): seq<(string, string)> {
    if trace == [] then []
    else
      var e := trace[|trace| - 1];
      var before := Announced(trace[..|trace| - 1], name);
      if e.Notified? && e.name == name then before + [(e.prev, e.tag)] else before
  }

  /** The adjacent pairs of different values. */
  function Changes(h: seq<string>): seq<(string, string)> {
    if |h| <= 1 then []
    else
      var prev, tag, before := h[|h| - 2], h[|h| - 1], Changes(h[..|h| - 1]);
      if prev != tag then before + [(prev, tag)] else before
  }

  /** No pair is from a value to itself, and each starts where the one before it ended. */
  ghost predicate Chained(pairs: seq<(string, string)>) {
    && (forall k | 0 <= k < |pairs| :: pairs[k].0 != pairs[k].1)
    && forall k | 0 < k < |pairs| :: pairs[k - 1].1 == pairs[k].0
  }

  /** Changes chain from the first value to the last, and no change is from a value to itself. */
  lemma {:induction false} ChangesChain(h: seq<string>)
    ensures Chained(Changes(h))
    ensures Changes(h) == [] ==> forall x | x in h :: x == h[0]
    ensures Changes(h) != [] ==> Changes(h)[0].0 == h[0] && Changes(h)[|Changes(h)| - 1].1 == h[|h| - 1]
  {
    if |h| > 1 {
      var init, last := h[..|h| - 1], h[|h| - 1];
      ChangesChain(init);
      assert h == init + [last];
      assert h[|h| - 2] == init[|init| - 1] && h[|h| - 2] in init && h[0] == init[0];
      assert Changes(h) == if h[|h| - 2] != last then Changes(init) + [(h[|h| - 2], last)] else Changes(init);
    }
  }

  lemma TraceSnoc(kv0: map<string, string>, trace: seq<Effect>, e: Effect, name: string)
    ensures History(trace + [e], name) ==
      if (e.Loaded? || e.Seen?) && e.name == name then History(trace, name) + [e.tag] else History(trace, name)
    ensures Versions(kv0, trace + [e], name) ==
      var before := Versions(kv0, trace, name);
      if e.Persisted? && e.name == name then before + [e.tag] else before
    ensures Announced(trace + [e], name) ==
      var before := Announced(trace, name);
      if e.Notified? && e.name == name then before + [(e.prev, e.tag)] else before
  {
    assert (trace + [e])[..|trace|] == trace;
  }

  lemma ChangesSnoc(h: seq<string>, tag: string)
    ensures Changes(h + [tag]) ==
      if h != [] && h[|h| - 1] != tag then Changes(h) + [(h[|h| - 1], tag)] else Changes(h)
  {
    assert (h + [tag])[..|h|] == h;
  }

  // ---- Progress of a poll ----

  /** How many steps a goroutine has left. */
  function Left(pc: Pc): nat {
    match pc
    case Started => 5
    case Fetched(_) => 4
    case Swapped(_, _) => 3
    case Saved(_, _) => 2
    case Recorded(_, _) => 1
    case Finished(_) => 0
  }

  function AllLeft(pcs: seq<Pc>): nat {
    if pcs == [] then 0 else AllLeft(pcs[..|pcs| - 1]) + Left(pcs[|pcs| - 1])
  }

  lemma {:induction false} OneLess(pcs: seq<Pc>, i: nat, pc: Pc)
    requires i < |pcs| && Left(pc) < Left(pcs[i])
    ensures AllLeft(pcs[i := pc]) < AllLeft(pcs)
  {
    var after, n := pcs[i := pc], |pcs| - 1;
    if i < n {
      OneLess(pcs[..n], i, pc);
      assert after[..n] == pcs[..n][i := pc];
    } else {
      assert after[..n] == pcs[..n];
    }
  }

  // ---- Goroutines that never write ----

  /** A goroutine whose service cannot be polled has observed nothing. */
  ghost predicate IdleInv(cfg: Config, s: State) {
    && Sized(cfg, s)
    && (s.phase == Polling ==> |s.pcs| == |cfg.services|)
    && (s.phase in {Down, Fresh} ==> s.known == map[])
    && forall j | 0 <= j < |s.pcs| && !Pollable(cfg, j) :: s.pcs[j] == Started || s.pcs[j] == Finished(None)
  }

  lemma IdleStep(cfg: Config, s: State, a: Action)
    requires IdleInv(cfg, s) && Enabled(cfg, s, a)
    ensures IdleInv(cfg, Next(cfg, s, a))
  {
  }

  /** Nobody but goroutine `i` can write under the name of service `i`. */
  ghost predicate SoleWriter(cfg: Config, i: nat) {
    && i < |cfg.services|
    && forall j | 0 <= j < |cfg.services| && j != i && cfg.services[j].name == cfg.services[i].name ::
         !Pollable(cfg, j)
  }

  /**
   What a service given as host/owner/repository, and whatever path follows, is asked for: its own name, and the
   owner and repository as they are, at the platform that the host names, if there is a provider for it.
   */
  lemma WatchIs(
    services: seq<ServiceConfig>, platforms: set<string>, hasStore: bool, hasNotifier: bool, i: nat,
    host: string, owner: string, repoName: string, tail: string)
    requires i < |services| && services[i].repo == host + "/" + (owner + "/" + (repoName + tail))
    requires '/' !in host && '/' !in owner && '/' !in repoName && (tail == "" || tail[0] == '/')
    ensures
      var watch := ConfigOf(services, platforms, hasStore, hasNotifier).services[i];
      && watch.name == services[i].name
      && (watch.target.Some? <==> Platform(host) in platforms)
      && (watch.target.Some? ==> watch.target.value == Repo(Platform(host), owner, repoName))
  {
    ParsedParts(host, owner, repoName, tail);
  }

  /** A configuration that Validate accepts has a sole writer for every service. */
  lemma ValidServicesSoleWriter(
    services: seq<ServiceConfig>, platforms: set<string>, hasStore: bool, hasNotifier: bool, i: nat)
    requires ValidServices(services) && i < |services|
    ensures SoleWriter(ConfigOf(services, platforms, hasStore, hasNotifier), i)
    ensures
      var repo := ParseRepo(services[i].repo);
      Pollable(ConfigOf(services, platforms, hasStore, hasNotifier), i) <==>
        repo.Some? && repo.value.platform in platforms
  {
    forall j | 0 <= j < |services| && j != i ensures services[j].name != services[i].name {
      assert if i < j then services[i].name != services[j].name else services[j].name != services[i].name;
    }
  }
}
