/** Where the daemon's guarantees end: runs that break them once a hypothesis is dropped. */
module DaemonLimits {
  import opened Wrappers
  import opened Tables
  import opened DaemonModel
  import opened DaemonRuns

  // ---- Two polled services under one name ----

  predicate PolledTwice(cfg: Config, i: nat, j: nat) {
    && i < |cfg.services| && j < |cfg.services| && i != j
    && cfg.services[i].name == cfg.services[j].name
    && Pollable(cfg, i) && Pollable(cfg, j)
  }

  /** From a start of the process to between two polls, with working store calls. */
  ghost predicate CleanRun(cfg: Config, s: State, acts: seq<Action>, t: State) {
    Initial(s) && UniqueRows(s.rows) && Leads(cfg, s, acts, t) && Reliable(acts) && t.phase == Ready
  }

  /** Memory and disk agree between polls of every run with working store calls. */
  ghost predicate AlwaysAgrees(cfg: Config) {
    forall s, acts, t, i: nat | CleanRun(cfg, s, acts, t) && i < |cfg.services| :: Agrees(cfg, t, i)
  }

  /** With an empty table, starting up leaves memory empty. */
  lemma {:induction false} LoadNothing(cfg: Config, s: State) returns (acts: seq<Action>, t: State)
    requires s.phase.Loading? && s.phase.next <= |cfg.services| && s.kv == map[] && Sized(cfg, s)
    ensures Leads(cfg, s, acts, t) && Reliable(acts)
    ensures t == s.(phase := Loading(|cfg.services|))
    decreases |cfg.services| - s.phase.next
  {
    if s.phase.next == |cfg.services| {
      acts, t := [], s;
    } else {
      acts, t := LoadNothing(cfg, Next(cfg, s, LoadOne(true)));
      acts := Prepend(cfg, s, LoadOne(true), acts, t);
    }
  }

  /** Services i and j get their answers, the others fail. */
  function FetchedPc(k: nat, i: nat, a: Latest, j: nat, b: Latest): Pc {
    if k == i then Fetched(a) else if k == j then Fetched(b) else Finished(None)
  }

  lemma {:induction false} FetchAll(cfg: Config, s: State, k: nat, i: nat, a: Latest, j: nat, b: Latest)
    returns (acts: seq<Action>, t: State)
    requires PolledTwice(cfg, i, j) && s.phase == Polling && |s.pcs| == |cfg.services| && k <= |s.pcs|
    requires forall m | 0 <= m < |s.pcs| :: s.pcs[m] == if m < k then FetchedPc(m, i, a, j, b) else Started
    ensures Leads(cfg, s, acts, t) && Reliable(acts)
    ensures t == s.(pcs := t.pcs) && |t.pcs| == |cfg.services|
    ensures forall m | 0 <= m < |t.pcs| :: t.pcs[m] == FetchedPc(m, i, a, j, b)
    decreases |s.pcs| - k
  {
    if k == |s.pcs| {
      acts, t := [], s;
    } else {
      var step := Fetch(k, if k == i then Some(a) else if k == j then Some(b) else None);
      acts, t := FetchAll(cfg, Next(cfg, s, step), k + 1, i, a, j, b);
      acts := Prepend(cfg, s, step, acts, t);
    }
  }

  const EMPTY := State(Down, map[], map[], [], [], [])

  lemma TwoSteps(cfg: Config, s: State, a: Action, b: Action) returns (acts: seq<Action>, t: State)
    requires Sized(cfg, s) && Enabled(cfg, s, a) && Enabled(cfg, Next(cfg, s, a), b)
    ensures acts == [a, b] && t == Next(cfg, Next(cfg, s, a), b) && Leads(cfg, s, acts, t)
  {
    var s1 := Next(cfg, s, a);
    t := Next(cfg, s1, b);
    acts := Prepend(cfg, s1, b, [], t);
    acts := Prepend(cfg, s, a, acts, t);
  }

  lemma StartUp(cfg: Config) returns (acts: seq<Action>, t: State)
    ensures Leads(cfg, EMPTY, acts, t) && Reliable(acts)
    ensures t == EMPTY.(phase := Polling, pcs := seq(|cfg.services|, _ => Started))
  {
    var boot, loading := TwoSteps(cfg, EMPTY, Boot, Load);
    assert loading == EMPTY.(phase := Loading(0));
    var loads, loaded := LoadNothing(cfg, loading);
    acts, t := TwoSteps(cfg, loaded, EndLoad, BeginPoll);
    assert Reliable(boot) && Reliable(acts);
    acts := Compose(cfg, loading, loads, loaded, acts, t);
    acts := Compose(cfg, EMPTY, boot, loading, acts, t);
  }

  /** Memory takes the tags in the order v1, v2. */
  lemma CrossSwaps(cfg: Config, s: State, i: nat, j: nat) returns (acts: seq<Action>, t: State)
    requires PolledTwice(cfg, i, j) && s.phase == Polling && |s.pcs| == |cfg.services|
    requires forall m | 0 <= m < |s.pcs| :: s.pcs[m] == FetchedPc(m, i, Latest("v1", ""), j, Latest("v2", ""))
    ensures Leads(cfg, s, acts, t) && Reliable(acts)
    ensures t.phase == Polling && |t.pcs| == |cfg.services| && Known(t, cfg.services[i].name) == Some("v2")
    ensures forall m | 0 <= m < |t.pcs| && m != i && m != j :: t.pcs[m].Finished?
    ensures t.pcs[i].Swapped? && t.pcs[i].rel.tag == "v1" && t.pcs[j].Swapped? && t.pcs[j].rel.tag == "v2"
  {
    var s1 := Next(cfg, s, Swap(i));
    t := Next(cfg, s1, Swap(j));
    acts := Prepend(cfg, s1, Swap(j), [], t);
    acts := Prepend(cfg, s, Swap(i), acts, t);
  }

  /** The table takes them in the order v2, v1. */
  lemma CrossSaves(cfg: Config, s: State, i: nat, j: nat) returns (acts: seq<Action>, t: State)
    requires cfg.hasStore && PolledTwice(cfg, i, j) && s.phase == Polling && |s.pcs| == |cfg.services|
    requires s.pcs[i].Swapped? && s.pcs[i].rel.tag == "v1" && s.pcs[j].Swapped? && s.pcs[j].rel.tag == "v2"
    ensures Leads(cfg, s, acts, t) && Reliable(acts)
    ensures t.phase == Polling && |t.pcs| == |cfg.services|
    ensures Known(t, cfg.services[i].name) == Known(s, cfg.services[i].name)
    ensures Stored(t, cfg.services[i].name) == Some("v1")
    ensures forall m | 0 <= m < |t.pcs| :: if m == i || m == j then t.pcs[m].Saved? else t.pcs[m] == s.pcs[m]
  {
    var s1 := Next(cfg, s, Save(j, true));
    t := Next(cfg, s1, Save(i, true));
    acts := Prepend(cfg, s1, Save(i, true), [], t);
    acts := Prepend(cfg, s, Save(j, true), acts, t);
  }

  lemma RecordAndAnnounce(cfg: Config, s: State, i: nat) returns (acts: seq<Action>, t: State)
    requires s.phase == Polling && |s.pcs| == |cfg.services| && i < |s.pcs| && s.pcs[i].Saved?
    ensures Leads(cfg, s, acts, t) && Reliable(acts)
    ensures t.phase == Polling && t.known == s.known && t.kv == s.kv
    ensures |t.pcs| == |s.pcs| && t.pcs == s.pcs[i := t.pcs[i]] && t.pcs[i].Finished?
  {
    var s1 := Next(cfg, s, Record(i, true));
    t := Next(cfg, s1, Announce(i));
    acts := Prepend(cfg, s1, Announce(i), [], t);
    acts := Prepend(cfg, s, Record(i, true), acts, t);
  }

  /** The whole run to a disagreement between polls. */
  lemma Disagreement(cfg: Config, i: nat, j: nat) returns (acts: seq<Action>, t: State)
    requires cfg.hasStore && PolledTwice(cfg, i, j)
    ensures Leads(cfg, EMPTY, acts, t) && Reliable(acts) && t.phase == Ready && !Agrees(cfg, t, i)
  {
    var start, s1 := StartUp(cfg);
    var fetch, s2 := FetchAll(cfg, s1, 0, i, Latest("v1", ""), j, Latest("v2", ""));
    var swaps, s3 := CrossSwaps(cfg, s2, i, j);
    var saves, s4 := CrossSaves(cfg, s3, i, j);
    var first, s5 := RecordAndAnnounce(cfg, s4, i);
    var second, s6 := RecordAndAnnounce(cfg, s5, j);
    t := Next(cfg, s6, EndPoll);
    acts := Prepend(cfg, s6, EndPoll, [], t);
    acts := Compose(cfg, s5, second, s6, acts, t);
    acts := Compose(cfg, s4, first, s5, acts, t);
    acts := Compose(cfg, s3, saves, s4, acts, t);
    acts := Compose(cfg, s2, swaps, s3, acts, t);
    acts := Compose(cfg, s1, fetch, s2, acts, t);
    acts := Compose(cfg, EMPTY, start, s1, acts, t);
  }

  lemma AgreesByOwner(cfg: Config, s: State, acts: seq<Action>, i: nat)
    requires cfg.hasStore && forall k, j :: !PolledTwice(cfg, k, j)
    requires Initial(s) && UniqueRows(s.rows) && Runs(cfg, s, acts) && Reliable(acts)
    requires Exec(cfg, s, acts).phase == Ready && i < |cfg.services|
    ensures Agrees(cfg, Exec(cfg, s, acts), i)
  {
    if SoleWriter(cfg, i) {
      MemoryAndDiskAgree(cfg, s, acts, i);
    } else {
      var j :| 0 <= j < |cfg.services| && j != i
        && cfg.services[j].name == cfg.services[i].name && Pollable(cfg, j);
      forall k | 0 <= k < |cfg.services| && k != j && cfg.services[k].name == cfg.services[j].name
        ensures !Pollable(cfg, k)
      {
        assert !PolledTwice(cfg, k, j);
      }
      assert SoleWriter(cfg, j);
      MemoryAndDiskAgree(cfg, s, acts, j);
    }
  }

  /**
   Exactly when memory and disk always agree: when no two polled services share a name. Nothing in the
   daemon checks this; Validate does, for configurations that pass through it.
   */
  lemma AgreementIff(cfg: Config)
    requires cfg.hasStore
    ensures AlwaysAgrees(cfg) <==> forall i, j :: !PolledTwice(cfg, i, j)
  {
    if i, j :| PolledTwice(cfg, i, j) {
      var acts, t := Disagreement(cfg, i, j);
      assert CleanRun(cfg, EMPTY, acts, t);
    } else {
      forall s, acts, t, i: nat | CleanRun(cfg, s, acts, t) && i < |cfg.services|
        ensures Agrees(cfg, t, i)
      {
        AgreesByOwner(cfg, s, acts, i);
      }
    }
  }

  // ---- Failing SetKV, and a crash before Notify ----

  /** Loading the rest of the services, with working calls, leaves memory with the stored version. */
  lemma {:induction false} LoadRest(cfg: Config, kv0: map<string, string>, s: State, i: nat)
    returns (acts: seq<Action>, t: State)
    requires cfg.hasStore && i < |cfg.services| && IdleInv(cfg, s) && Stored(s, cfg.services[i].name).Some?
    requires s.phase.Loading? && s.phase.next <= |cfg.services|
    requires i < s.phase.next ==> Known(s, cfg.services[i].name) == Stored(s, cfg.services[i].name)
    ensures Leads(cfg, s, acts, t) && Reliable(acts) && IdleInv(cfg, t) && t.phase == Loading(|cfg.services|)
    ensures
      var v, w := ViewOf(cfg, kv0, s, i), ViewOf(cfg, kv0, t, i);
      w == v.(current := v.stored, history := w.history)
    decreases |cfg.services| - s.phase.next
  {
    if s.phase.next == |cfg.services| {
      acts, t := [], s;
    } else {
      var s1 := Next(cfg, s, LoadOne(true));
      RestView(cfg, kv0, s, LoadOne(true), i);
      IdleStep(cfg, s, LoadOne(true));
      acts, t := LoadRest(cfg, kv0, s1, i);
      acts := Prepend(cfg, s, LoadOne(true), acts, t);
    }
  }

  /** The process starts and is about to load. */
  lemma StartLoading(cfg: Config, kv0: map<string, string>, s: State, i: nat) returns (acts: seq<Action>, t: State)
    requires i < |cfg.services| && IdleInv(cfg, s) && s.phase == Down
    ensures Leads(cfg, s, acts, t) && acts == [Boot, Load] && IdleInv(cfg, t) && t.phase == Loading(0)
    ensures ViewOf(cfg, kv0, t, i) == ViewOf(cfg, kv0, s, i).(current := None, pc := Started)
  {
    RestView(cfg, kv0, s, Boot, i);
    IdleStep(cfg, s, Boot);
    RestView(cfg, kv0, Next(cfg, s, Boot), Load, i);
    IdleStep(cfg, Next(cfg, s, Boot), Load);
    acts, t := TwoSteps(cfg, s, Boot, Load);
  }

  /** Loading is done and a poll begins. */
  lemma StartPolling(cfg: Config, kv0: map<string, string>, s: State, i: nat) returns (acts: seq<Action>, t: State)
    requires i < |cfg.services| && IdleInv(cfg, s) && s.phase == Loading(|cfg.services|)
    ensures Leads(cfg, s, acts, t) && acts == [EndLoad, BeginPoll] && IdleInv(cfg, t) && At(t, i)
    ensures ViewOf(cfg, kv0, t, i) == ViewOf(cfg, kv0, s, i).(pc := Started)
  {
    RestView(cfg, kv0, s, EndLoad, i);
    IdleStep(cfg, s, EndLoad);
    RestView(cfg, kv0, Next(cfg, s, EndLoad), BeginPoll, i);
    IdleStep(cfg, Next(cfg, s, EndLoad), BeginPoll);
    acts, t := TwoSteps(cfg, s, EndLoad, BeginPoll);
  }

  /** A process that starts, loads and begins to poll. */
  lemma Restart(cfg: Config, kv0: map<string, string>, s: State, i: nat) returns (acts: seq<Action>, t: State)
    requires cfg.hasStore && i < |cfg.services| && IdleInv(cfg, s) && Stored(s, cfg.services[i].name).Some?
    requires s.phase == Down
    ensures Leads(cfg, s, acts, t) && Reliable(acts) && IdleInv(cfg, t) && At(t, i)
    ensures
      var v, w := ViewOf(cfg, kv0, s, i), ViewOf(cfg, kv0, t, i);
      w == v.(current := v.stored, history := w.history, pc := Started)
  {
    var start, s1 := StartLoading(cfg, kv0, s, i);
    var loads, s2 := LoadRest(cfg, kv0, s1, i);
    acts, t := StartPolling(cfg, kv0, s2, i);
    acts := Compose(cfg, s1, loads, s2, acts, t);
    acts := Compose(cfg, s, start, s1, acts, t);
  }

  /** The service is found at a release, and memory has been swapped. */
  lemma UpToSwap(cfg: Config, kv0: map<string, string>, s: State, i: nat, rel: Latest)
    returns (acts: seq<Action>, t: State)
    requires cfg.hasStore && i < |cfg.services| && Pollable(cfg, i) && IdleInv(cfg, s) && s.phase == Down
    requires Stored(s, cfg.services[i].name).Some?
    ensures Leads(cfg, s, acts, t) && Reliable(acts) && IdleInv(cfg, t) && At(t, i)
    ensures
      var v, w := ViewOf(cfg, kv0, s, i), ViewOf(cfg, kv0, t, i);
      w == v.(current := Some(rel.tag), history := w.history, pc := Swapped(v.stored, rel))
  {
    var start, s1 := Restart(cfg, kv0, s, i);
    var fetch := Fetch(i, Some(rel));
    var s2 := Next(cfg, s1, fetch);
    t := Next(cfg, s2, Swap(i));
    OwnView(cfg, kv0, s1, fetch, i);
    IdleStep(cfg, s1, fetch);
    OwnView(cfg, kv0, s2, Swap(i), i);
    IdleStep(cfg, s2, Swap(i));
    acts := Prepend(cfg, s2, Swap(i), [], t);
    acts := Prepend(cfg, s1, fetch, acts, t);
    acts := Compose(cfg, s, start, s1, acts, t);
  }

  lemma SaveAndRecord(cfg: Config, kv0: map<string, string>, s: State, i: nat, ok: bool)
    returns (acts: seq<Action>, t: State)
    requires cfg.hasStore && i < |cfg.services| && IdleInv(cfg, s) && At(s, i) && s.pcs[i].Swapped?
    ensures Leads(cfg, s, acts, t) && acts == [Save(i, ok), Record(i, true)] && IdleInv(cfg, t) && At(t, i)
    ensures
      var v := ViewOf(cfg, kv0, s, i);
      var w := v.(pc := Recorded(v.pc.prev, v.pc.rel));
      ViewOf(cfg, kv0, t, i) ==
        if ok then w.(stored := Some(v.pc.rel.tag), versions := v.versions + [v.pc.rel.tag]) else w
  {
    OwnView(cfg, kv0, s, Save(i, ok), i);
    IdleStep(cfg, s, Save(i, ok));
    OwnView(cfg, kv0, Next(cfg, s, Save(i, ok)), Record(i, true), i);
    IdleStep(cfg, Next(cfg, s, Save(i, ok)), Record(i, true));
    acts, t := TwoSteps(cfg, s, Save(i, ok), Record(i, true));
  }

  /** The announcements after a check that found this previous version and this tag. */
  function Told(
    cfg: Config, sent: seq<(string, string)>, prev: Option<string>, tag: string): seq<(string, string)>
  {
    if IsNew(prev, tag) && cfg.hasNotifier then sent + [(prev.value, tag)] else sent
  }

  lemma AnnounceView(cfg: Config, kv0: map<string, string>, s: State, i: nat)
    requires i < |cfg.services| && IdleInv(cfg, s) && At(s, i) && s.pcs[i].Recorded?
    ensures
      var v, t := ViewOf(cfg, kv0, s, i), Next(cfg, s, Announce(i));
      && IdleInv(cfg, t) && At(t, i)
      && ViewOf(cfg, kv0, t, i) ==
           v.(pc := Finished(Some(v.pc.rel)), sent := Told(cfg, v.sent, v.pc.prev, v.pc.rel.tag))
  {
    OwnView(cfg, kv0, s, Announce(i), i);
    IdleStep(cfg, s, Announce(i));
  }

  /** From a swap to the end of the check. */
  lemma FromSwap(cfg: Config, kv0: map<string, string>, s: State, i: nat, ok: bool)
    returns (acts: seq<Action>, t: State)
    requires cfg.hasStore && i < |cfg.services| && IdleInv(cfg, s) && At(s, i) && s.pcs[i].Swapped?
    ensures Leads(cfg, s, acts, t) && acts == [Save(i, ok), Record(i, true), Announce(i)]
    ensures IdleInv(cfg, t) && At(t, i)
    ensures
      var v, w := ViewOf(cfg, kv0, s, i), ViewOf(cfg, kv0, t, i);
      var prev, rel := v.pc.prev, v.pc.rel;
      && w.pc == Finished(Some(rel)) && w.current == v.current
      && w.stored == (if ok then Some(rel.tag) else v.stored)
      && w.versions == (if ok then v.versions + [rel.tag] else v.versions)
      && w.sent == Told(cfg, v.sent, prev, rel.tag)
  {
    var save, s1 := SaveAndRecord(cfg, kv0, s, i, ok);
    t := Next(cfg, s1, Announce(i));
    AnnounceView(cfg, kv0, s1, i);
    acts := Prepend(cfg, s1, Announce(i), [], t);
    acts := Compose(cfg, s, save, s1, acts, t);
  }

  /** A crash, a restart with working calls, and a check that finds the same release again. */
  lemma CrashAndCheck(cfg: Config, kv0: map<string, string>, s: State, i: nat, rel: Latest)
    returns (acts: seq<Action>, t: State)
    requires cfg.hasStore && i < |cfg.services| && Pollable(cfg, i) && IdleInv(cfg, s) && s.phase != Down
    requires Stored(s, cfg.services[i].name).Some?
    ensures Leads(cfg, s, acts, t) && Reliable(acts) && acts != [] && acts[0] == Crash
    ensures At(t, i) && t.pcs[i] == Finished(Some(rel))
    ensures
      var v, w := ViewOf(cfg, kv0, s, i), ViewOf(cfg, kv0, t, i);
      && w.versions == v.versions + [rel.tag]
      && w.sent == Told(cfg, v.sent, v.stored, rel.tag)
  {
    var s1 := Next(cfg, s, Crash);
    RestView(cfg, kv0, s, Crash, i);
    IdleStep(cfg, s, Crash);
    var start, s2 := UpToSwap(cfg, kv0, s1, i, rel);
    acts, t := FromSwap(cfg, kv0, s2, i, true);
    assert Reliable(acts);
    acts := Compose(cfg, s1, start, s2, acts, t);
    acts := Prepend(cfg, s, Crash, acts, t);
  }

  /** SetKV for the service fails first, and all other calls work. */
  ghost predicate FailsOnce(acts: seq<Action>, i: nat) {
    acts != [] && acts[0] == Save(i, false) && Reliable(acts[1..])
  }

  lemma FailsFirstOnly(i: nat, rest: seq<Action>)
    requires Reliable(rest)
    ensures FailsOnce([Save(i, false), Record(i, true), Announce(i)] + rest, i)
  {
  }

  /** The service is announced with the change twice, and its persisted version changes that way once. */
  ghost predicate AnnouncedTwice(v: View, w: View, change: (string, string)) {
    w.sent == v.sent + [change, change] && Changes(w.versions) == Changes(v.versions) + [change]
  }

  lemma RunTwice(cfg: Config, kv0: map<string, string>, s: State, i: nat)
    returns (acts: seq<Action>, mid: State, t: State)
    requires cfg.hasStore && i < |cfg.services| && Pollable(cfg, i) && IdleInv(cfg, s)
    requires At(s, i) && s.pcs[i].Swapped? && Stored(s, cfg.services[i].name).Some?
    ensures Leads(cfg, s, acts, t) && FailsOnce(acts, i)
    ensures
      var v, u, w := ViewOf(cfg, kv0, s, i), ViewOf(cfg, kv0, mid, i), ViewOf(cfg, kv0, t, i);
      && u.sent == Told(cfg, v.sent, v.pc.prev, v.pc.rel.tag) && w.sent == Told(cfg, u.sent, v.stored, v.pc.rel.tag)
      && w.versions == v.versions + [v.pc.rel.tag]
  {
    var check;
    check, mid := FromSwap(cfg, kv0, s, i, false);
    var again;
    again, t := CrashAndCheck(cfg, kv0, mid, i, s.pcs[i].rel);
    acts := Compose(cfg, s, check, mid, again, t);
    FailsFirstOnly(i, again);
  }

  lemma FailAndRepeat(cfg: Config, kv0: map<string, string>, s: State, i: nat) returns (acts: seq<Action>, t: State)
    requires cfg.hasStore && cfg.hasNotifier && i < |cfg.services| && IdleInv(cfg, s)
    requires At(s, i) && s.pcs[i].Swapped? && s.pcs[i].prev.Some? && OnDisk(ViewOf(cfg, kv0, s, i))
    requires Stored(s, cfg.services[i].name) != Some(s.pcs[i].rel.tag)
    ensures Leads(cfg, s, acts, t) && FailsOnce(acts, i)
    ensures AnnouncedTwice(ViewOf(cfg, kv0, s, i), ViewOf(cfg, kv0, t, i), (s.pcs[i].prev.value, s.pcs[i].rel.tag))
  {
    assert Pollable(cfg, i);
    var mid;
    acts, mid, t := RunTwice(cfg, kv0, s, i);
    ChangesSnoc(ViewOf(cfg, kv0, s, i).versions, s.pcs[i].rel.tag);
  }

  /**
   In any run up to the point where SetKV is due for a change from a version that memory knew, if that call fails
   then the daemon, crashing after Notify and restarting with nothing but working calls, announces the change
   twice, while it is persisted once. What any other failed save leads to is in DaemonConverse.
   */
  lemma FailedSaveAnnouncesTwice(cfg: Config, s0: State, pre: seq<Action>, s: State, i: nat)
    returns (acts: seq<Action>, t: State)
    requires cfg.hasStore && cfg.hasNotifier && SoleWriter(cfg, i)
    requires Initial(s0) && Leads(cfg, s0, pre, s) && SavesHold(cfg, s0, pre, i)
    requires At(s, i) && s.pcs[i].Swapped? && s.pcs[i].prev.Some?
    requires Stored(s, cfg.services[i].name) != Some(s.pcs[i].rel.tag)
    ensures Leads(cfg, s, acts, t) && FailsOnce(acts, i)
    ensures AnnouncedTwice(ViewOf(cfg, s0.kv, s, i), ViewOf(cfg, s0.kv, t, i),
      (s.pcs[i].prev.value, s.pcs[i].rel.tag))
  {
    DiskRun(cfg, s0.kv, s0, pre, i);
    acts, t := FailAndRepeat(cfg, s0.kv, s, i);
  }

  /** The pending change stays the last one, and is not announced. */
  ghost predicate NeverAnnounced(v: View, w: View) {
    && Pending(v.pc) && w.sent == v.sent && w.pc == Finished(Some(v.pc.rel))
    && Changes(w.versions) == Changes(Settled(v)) + [(v.pc.prev.value, v.pc.rel.tag)]
  }

  lemma LoseForGood(cfg: Config, kv0: map<string, string>, s: State, i: nat) returns (acts: seq<Action>, t: State)
    requires cfg.hasStore && i < |cfg.services| && IdleInv(cfg, s) && OnDisk(ViewOf(cfg, kv0, s, i))
    requires Pending(PcOf(s, i))
    ensures Leads(cfg, s, acts, t) && Reliable(acts) && acts != [] && acts[0] == Crash
    ensures NeverAnnounced(ViewOf(cfg, kv0, s, i), ViewOf(cfg, kv0, t, i))
  {
    var v := ViewOf(cfg, kv0, s, i);
    assert Pollable(cfg, i);
    acts, t := CrashAndCheck(cfg, kv0, s, i, v.pc.rel);
    StaysLost(v, ViewOf(cfg, kv0, t, i));
  }

  lemma StaysLost(v: View, w: View)
    requires OnDisk(v) && Pending(v.pc) && w.sent == v.sent && w.pc == Finished(Some(v.pc.rel))
    requires w.versions == v.versions + [v.pc.rel.tag]
    ensures NeverAnnounced(v, w)
  {
    PendingChange(v);
    ChangesSnoc(v.versions, v.pc.rel.tag);
  }

  /**
   At most once is not exactly once: a crash between SetKV and Notify loses the announcement for good,
   because the restarted daemon finds the new version in the store.
   */
  lemma CrashLosesAnnouncement(cfg: Config, s0: State, pre: seq<Action>, s: State, i: nat)
    returns (acts: seq<Action>, t: State)
    requires cfg.hasStore && SoleWriter(cfg, i)
    requires Initial(s0) && Leads(cfg, s0, pre, s) && SavesHold(cfg, s0, pre, i)
    requires Pending(PcOf(s, i))
    ensures Leads(cfg, s, acts, t) && Reliable(acts) && acts != [] && acts[0] == Crash
    ensures NeverAnnounced(ViewOf(cfg, s0.kv, s, i), ViewOf(cfg, s0.kv, t, i))
  {
    DiskRun(cfg, s0.kv, s0, pre, i);
    acts, t := LoseForGood(cfg, s0.kv, s, i);
  }

  /** Both situations come up: from any stored version, a different release leads to each of them. */
  lemma PendingIsReachable(cfg: Config, s: State, i: nat, rel: Latest)
    returns (acts: seq<Action>, swapped: State, pending: State)
    requires cfg.hasStore && i < |cfg.services| && Pollable(cfg, i) && Initial(s)
    requires Stored(s, cfg.services[i].name).Some? && Stored(s, cfg.services[i].name) != Some(rel.tag)
    ensures Leads(cfg, s, acts, swapped) && Reliable(acts)
    ensures At(swapped, i) && swapped.pcs[i] == Swapped(Stored(s, cfg.services[i].name), rel)
    ensures Stored(swapped, cfg.services[i].name) == Stored(s, cfg.services[i].name)
    ensures IdleInv(cfg, swapped) && Enabled(cfg, swapped, Save(i, true))
    ensures pending == Next(cfg, swapped, Save(i, true))
    ensures Pending(PcOf(pending, i))
  {
    acts, swapped := UpToSwap(cfg, s.kv, s, i, rel);
    pending := Next(cfg, swapped, Save(i, true));
    OwnView(cfg, s.kv, swapped, Save(i, true), i);
  }
}
