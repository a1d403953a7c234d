/** What every run of the daemon's state machine keeps. */
module DaemonRuns {
  import opened Wrappers
  import opened Tables
  import opened DaemonModel

  // ---- Sequences ----

  /** `f` lists strictly increasing positions of `b` that hold the elements of `a`. */
  ghost predicate Embeds<T>(f: seq<nat>, a: seq<T>, b: seq<T>) {
    && |f| == |a|
    && (forall k | 0 <= k < |f| :: f[k] < |b| && b[f[k]] == a[k])
    && forall j, k | 0 <= j < k < |f| :: f[j] < f[k]
  }

  /** The elements of `a` occur in `b`, in order, each at a place of its own. */
  ghost predicate Subsequence<T>(a: seq<T>, b: seq<T>) {
    exists f :: Embeds(f, a, b)
  }

  /** The same by recursion, from the back. */
  predicate Picks<T(==)>(a: seq<T>, b: seq<T>) {
    || a == []
    || (b != [] && (
          || Picks(a, b[..|b| - 1])
          || (a[|a| - 1] == b[|b| - 1] && Picks(a[..|a| - 1], b[..|b| - 1]))))
  }

  lemma {:induction false} PicksSubsequence<T>(a: seq<T>, b: seq<T>) returns (f: seq<nat>)
    requires Picks(a, b)
    ensures Embeds(f, a, b)
  {
    if a == [] {
      f := [];
    } else if Picks(a, b[..|b| - 1]) {
      f := PicksSubsequence(a, b[..|b| - 1]);
    } else {
      f := PicksSubsequence(a[..|a| - 1], b[..|b| - 1]);
      f := f + [|b| - 1];
    }
  }

  lemma PicksGrows<T>(a: seq<T>, b: seq<T>, x: T)
    requires Picks(a, b)
    ensures Picks(a, b + [x])
    ensures Picks(a + [x], b + [x])
  {
    assert (a + [x])[..|a|] == a && (b + [x])[..|b|] == b;
  }

  function Last<T>(s: seq<T>): Option<T> {
    if s == [] then None else Some(s[|s| - 1])
  }

  function Init<T>(s: seq<T>): seq<T> {
    if s == [] then [] else s[..|s| - 1]
  }

  lemma Snoc<T>(s: seq<T>, x: T)
    ensures Last(s + [x]) == Some(x) && Init(s + [x]) == s
  {
  }

  // ---- One service in isolation ----

  function Known(s: State, name: string): Option<string> {
    if name in s.known then Some(s.known[name]) else None
  }

  function Stored(s: State, name: string): Option<string> {
    if name in s.kv then Some(s.kv[name]) else None
  }

  /** The program counter of goroutine `i`; a goroutine that does not run counts as not started. */
  function PcOf(s: State, i: nat): Pc {
    if At(s, i) then s.pcs[i] else Started
  }

  /** All that concerns one service: memory, table, observations, and where its goroutine stands. */
  datatype View = View(
    current: Option<string>,
    stored: Option<string>,
    history: seq<string>,
    versions: seq<string>,
    sent: seq<(string, string)>,
    pc: Pc)

  function ViewOf(cfg: Config, kv0: map<string, string>, s: State, i: nat): View
    requires i < |cfg.services|
  {
    var name := cfg.services[i].name;
    View(Known(s, name), Stored(s, name),
         History(s.trace, name), Versions(kv0, s.trace, name), Announced(s.trace, name), PcOf(s, i))
  }

  predicate Goroutine(a: Action) {
    a.Fetch? || a.Swap? || a.Save? || a.Record? || a.Announce?
  }

  /** An action of goroutine `i`. */
  predicate Concerns(a: Action, i: nat) {
    Goroutine(a) && a.i == i
  }

  /** A goroutine's step moves nobody else, and brings its own end nearer. */
  lemma GoroutineMoves(cfg: Config, s: State, a: Action)
    requires Sized(cfg, s) && Enabled(cfg, s, a) && Goroutine(a)
    ensures
      var t := Next(cfg, s, a);
      t.phase == Polling && t.pcs == s.pcs[a.i := t.pcs[a.i]] && Left(t.pcs[a.i]) < Left(s.pcs[a.i])
  {
  }

  predicate OwnTurn(v: View, a: Action) {
    match a
    case Fetch(_, _) => v.pc.Started?
    case Swap(_) => v.pc.Fetched?
    case Save(_, _) => v.pc.Swapped?
    case Record(_, _) => v.pc.Saved?
    case Announce(_) => v.pc.Recorded?
    case _ => false
  }

  /** What a goroutine's own action does to the view of its service. */
  function OwnStep(cfg: Config, i: nat, v: View, a: Action): View
    requires i < |cfg.services| && OwnTurn(v, a)
  {
    match a
    case Fetch(_, answer) =>
      v.(pc := if Pollable(cfg, i) && answer.Some? then Fetched(answer.value) else Finished(None))
    case Swap(_) =>
      var rel := v.pc.rel;
      v.(current := Some(rel.tag), history := v.history + [rel.tag], pc := Swapped(v.current, rel))
    case Save(_, ok) =>
      var v1 := v.(pc := Saved(v.pc.prev, v.pc.rel));
      if cfg.hasStore && ok then v1.(stored := Some(v.pc.rel.tag), versions := v.versions + [v.pc.rel.tag]) else v1
    case Record(_, _) => v.(pc := Recorded(v.pc.prev, v.pc.rel))
    case Announce(_) =>
      var v1 := v.(pc := Finished(Some(v.pc.rel)));
      if IsNew(v.pc.prev, v.pc.rel.tag) && cfg.hasNotifier
      then v1.(sent := v.sent + [(v.pc.prev.value, v.pc.rel.tag)]) else v1
    case _ => v
  }

  lemma OwnSwap(cfg: Config, kv0: map<string, string>, s: State, i: nat)
    requires i < |cfg.services| && IdleInv(cfg, s) && Enabled(cfg, s, Swap(i))
    ensures ViewOf(cfg, kv0, Next(cfg, s, Swap(i)), i) == OwnStep(cfg, i, ViewOf(cfg, kv0, s, i), Swap(i))
  {
    TraceSnoc(kv0, s.trace, Seen(cfg.services[i].name, s.pcs[i].rel.tag), cfg.services[i].name);
  }

  lemma OwnSave(cfg: Config, kv0: map<string, string>, s: State, i: nat, ok: bool)
    requires i < |cfg.services| && IdleInv(cfg, s) && Enabled(cfg, s, Save(i, ok))
    ensures ViewOf(cfg, kv0, Next(cfg, s, Save(i, ok)), i) == OwnStep(cfg, i, ViewOf(cfg, kv0, s, i), Save(i, ok))
  {
    TraceSnoc(kv0, s.trace, Persisted(cfg.services[i].name, s.pcs[i].rel.tag), cfg.services[i].name);
  }

  lemma OwnAnnounce(cfg: Config, kv0: map<string, string>, s: State, i: nat)
    requires i < |cfg.services| && IdleInv(cfg, s) && Enabled(cfg, s, Announce(i))
    ensures ViewOf(cfg, kv0, Next(cfg, s, Announce(i)), i) == OwnStep(cfg, i, ViewOf(cfg, kv0, s, i), Announce(i))
  {
    var name, pc := cfg.services[i].name, s.pcs[i];
    if IsNew(pc.prev, pc.rel.tag) {
      TraceSnoc(kv0, s.trace, Notified(name, pc.prev.value, pc.rel.tag), name);
    }
  }

  /** A goroutine's own step, seen from its service. */
  lemma OwnView(cfg: Config, kv0: map<string, string>, s: State, a: Action, i: nat)
    requires i < |cfg.services| && IdleInv(cfg, s) && Enabled(cfg, s, a) && Concerns(a, i)
    ensures ViewOf(cfg, kv0, Next(cfg, s, a), i) == OwnStep(cfg, i, ViewOf(cfg, kv0, s, i), a)
  {
    match a
    case Swap(_) => OwnSwap(cfg, kv0, s, i);
    case Save(_, ok) => OwnSave(cfg, kv0, s, i, ok);
    case Announce(_) => OwnAnnounce(cfg, kv0, s, i);
    case _ =>
  }

  lemma OtherName(cfg: Config, s: State, a: Action, i: nat)
    requires SoleWriter(cfg, i) && IdleInv(cfg, s) && Enabled(cfg, s, a)
    requires Goroutine(a) && !Concerns(a, i) && !a.Fetch?
    ensures cfg.services[a.i].name != cfg.services[i].name
  {
    assert Pollable(cfg, a.i);
  }

  /** Other goroutines leave alone everything about service `i`. */
  lemma OthersKeepOut(cfg: Config, kv0: map<string, string>, s: State, a: Action, i: nat)
    requires SoleWriter(cfg, i) && IdleInv(cfg, s) && Enabled(cfg, s, a)
    requires Goroutine(a) && !Concerns(a, i)
    ensures ViewOf(cfg, kv0, Next(cfg, s, a), i) == ViewOf(cfg, kv0, s, i)
  {
    if !a.Fetch? {
      OtherName(cfg, s, a, i);
      var name, other, pc := cfg.services[i].name, cfg.services[a.i].name, s.pcs[a.i];
      match a
      case Swap(_) => TraceSnoc(kv0, s.trace, Seen(other, pc.rel.tag), name);
      case Save(_, _) => TraceSnoc(kv0, s.trace, Persisted(other, pc.rel.tag), name);
      case Announce(_) =>
        if IsNew(pc.prev, pc.rel.tag) {
          TraceSnoc(kv0, s.trace, Notified(other, pc.prev.value, pc.rel.tag), name);
        }
      case _ =>
    }
  }

  /** The store is read into memory for the service's name. */
  predicate Loads(cfg: Config, s: State, a: Action, i: nat)
    requires i < |cfg.services|
  {
    && a.LoadOne? && a.ok && cfg.hasStore
    && s.phase.Loading? && s.phase.next < |cfg.services|
    && cfg.services[s.phase.next].name == cfg.services[i].name
    && Stored(s, cfg.services[i].name).Some?
  }

  /** Actions outside the goroutines load the stored value, lose memory, or only move the phase. */
  lemma RestView(cfg: Config, kv0: map<string, string>, s: State, a: Action, i: nat)
    requires i < |cfg.services| && IdleInv(cfg, s) && Enabled(cfg, s, a) && !Goroutine(a)
    ensures
      var v, v' := ViewOf(cfg, kv0, s, i), ViewOf(cfg, kv0, Next(cfg, s, a), i);
      if Loads(cfg, s, a, i) then v' == v.(current := v.stored, history := v.history + [v.stored.value])
      else if a.Crash? || a.Boot? then v' == v.(current := None, pc := Started)
      else v' == v.(pc := v'.pc) && (v.pc.Started? || v.pc.Finished?) && v'.pc == Started
  {
    if a.LoadOne? {
      var name, loaded := cfg.services[i].name, cfg.services[s.phase.next].name;
      if Stored(s, loaded).Some? {
        TraceSnoc(kv0, s.trace, Loaded(loaded, Stored(s, loaded).value), name);
      }
    }
  }

  // ---- At most once, whatever crashes ----

  /** SetKV never fails in the run. */
  ghost predicate SavesSucceed(acts: seq<Action>) {
    forall k | 0 <= k < |acts| && acts[k].Save? :: acts[k].ok
  }

  /** In the run, SetKV fails for service `i` only when it would not have changed the stored tag. */
  ghost predicate SavesHold(cfg: Config, s: State, acts: seq<Action>, i: nat)
    requires i < |cfg.services| && Runs(cfg, s, acts)
    decreases acts
  {
    acts == [] || (
      && (acts[0] == Save(i, false) ==> Stored(s, cfg.services[i].name) == Some(s.pcs[i].rel.tag))
      && SavesHold(cfg, Next(cfg, s, acts[0]), acts[1..], i))
  }

  lemma {:induction false} WorkingSavesHold(cfg: Config, s: State, acts: seq<Action>, i: nat)
    requires i < |cfg.services| && Runs(cfg, s, acts) && SavesSucceed(acts)
    ensures SavesHold(cfg, s, acts, i)
    decreases acts
  {
    if acts != [] { WorkingSavesHold(cfg, Next(cfg, s, acts[0]), acts[1..], i); }
  }

  /** A change is on disk and still to be announced. */
  predicate Pending(pc: Pc) {
    (pc.Saved? || pc.Recorded?) && IsNew(pc.prev, pc.rel.tag)
  }

  /** The persisted versions, but for one whose announcement is pending. */
  function Settled(v: View): seq<string> {
    if Pending(v.pc) then Init(v.versions) else v.versions
  }

  /**
   The table holds the last version, memory agrees with it once it holds a value, a pending change is the
   last one, and announcements are a subsequence of the changes before it.
   */
  ghost predicate OnDisk(v: View) {
    && v.stored == Last(v.versions)
    && (if v.pc.Saved? || v.pc.Recorded? then v.current == v.stored == Some(v.pc.rel.tag)
        else if v.pc.Swapped? then v.current == Some(v.pc.rel.tag) && (v.pc.prev.Some? ==> v.pc.prev == v.stored)
        else v.current.Some? ==> v.current == v.stored)
    && (Pending(v.pc) ==> v.pc.prev == Last(Init(v.versions)))
    && Picks(v.sent, Changes(Settled(v)))
  }

  /** A pending change is the last one. */
  lemma PendingChange(v: View)
    requires OnDisk(v) && Pending(v.pc)
    ensures Changes(v.versions) == Changes(Settled(v)) + [(v.pc.prev.value, v.pc.rel.tag)]
  {
    assert v.versions == Init(v.versions) + [v.pc.rel.tag];
    ChangesSnoc(Init(v.versions), v.pc.rel.tag);
  }

  /** Dropping the pending announcement, as a crash does, or making it, keeps a subsequence. */
  lemma PendingResolved(v: View)
    requires OnDisk(v)
    ensures Picks(v.sent, Changes(v.versions))
    ensures Pending(v.pc) ==> Picks(v.sent + [(v.pc.prev.value, v.pc.rel.tag)], Changes(v.versions))
  {
    if Pending(v.pc) {
      PendingChange(v);
      PicksGrows(v.sent, Changes(Settled(v)), (v.pc.prev.value, v.pc.rel.tag));
    }
  }

  /** What a successful save does to the changes, unless the change is left pending. */
  lemma SavedChange(v: View)
    requires OnDisk(v) && v.pc.Swapped? && !IsNew(v.pc.prev, v.pc.rel.tag)
    ensures Changes(v.versions + [v.pc.rel.tag]) ==
      if v.stored.Some? && v.stored != Some(v.pc.rel.tag)
      then Changes(v.versions) + [(v.stored.value, v.pc.rel.tag)] else Changes(v.versions)
  {
    ChangesSnoc(v.versions, v.pc.rel.tag);
  }

  lemma OnDiskOwn(cfg: Config, v: View, a: Action, i: nat)
    requires cfg.hasStore && i < |cfg.services| && OnDisk(v)
    requires OwnTurn(v, a) && (a.Save? ==> a.ok || v.stored == Some(v.pc.rel.tag))
    ensures OnDisk(OwnStep(cfg, i, v, a))
  {
    if a.Save? && a.ok {
      Snoc(v.versions, v.pc.rel.tag);
      if !IsNew(v.pc.prev, v.pc.rel.tag) {
        SavedChange(v);
        if v.stored.Some? { PicksGrows(v.sent, Changes(v.versions), (v.stored.value, v.pc.rel.tag)); }
      }
    } else if a.Announce? {
      PendingResolved(v);
    }
  }

  lemma DiskStep(cfg: Config, kv0: map<string, string>, s: State, a: Action, i: nat)
    requires cfg.hasStore && SoleWriter(cfg, i) && IdleInv(cfg, s) && Enabled(cfg, s, a)
    requires a == Save(i, false) ==> Stored(s, cfg.services[i].name) == Some(s.pcs[i].rel.tag)
    requires OnDisk(ViewOf(cfg, kv0, s, i))
    ensures OnDisk(ViewOf(cfg, kv0, Next(cfg, s, a), i))
  {
    if !Goroutine(a) {
      RestView(cfg, kv0, s, a, i);
      PendingResolved(ViewOf(cfg, kv0, s, i));
    } else if Concerns(a, i) {
      OwnView(cfg, kv0, s, a, i);
      OnDiskOwn(cfg, ViewOf(cfg, kv0, s, i), a, i);
    } else {
      OthersKeepOut(cfg, kv0, s, a, i);
    }
  }

  lemma {:induction false} DiskRun(cfg: Config, kv0: map<string, string>, s: State, acts: seq<Action>, i: nat)
    requires cfg.hasStore && SoleWriter(cfg, i) && Runs(cfg, s, acts) && SavesHold(cfg, s, acts, i)
    requires IdleInv(cfg, s) && OnDisk(ViewOf(cfg, kv0, s, i))
    ensures IdleInv(cfg, Exec(cfg, s, acts)) && OnDisk(ViewOf(cfg, kv0, Exec(cfg, s, acts), i))
    decreases acts
  {
    if acts != [] {
      DiskStep(cfg, kv0, s, acts[0], i);
      IdleStep(cfg, s, acts[0]);
      DiskRun(cfg, kv0, Next(cfg, s, acts[0]), acts[1..], i);
    }
  }

  /**
   At most once across crashes: in every run of polls, reloads, failed fetches, failed loads, crashes at
   any point and restarts, what a service is announced with is a subsequence of the changes of its
   persisted version, provided SetKV fails only for a tag already stored and no other polled service has
   its name.
   */
  lemma AtMostOnce(cfg: Config, s: State, acts: seq<Action>, i: nat)
    requires cfg.hasStore && SoleWriter(cfg, i)
    requires Initial(s) && Runs(cfg, s, acts) && SavesHold(cfg, s, acts, i)
    ensures
      var name, trace := cfg.services[i].name, Exec(cfg, s, acts).trace;
      Subsequence(Announced(trace, name), Changes(Versions(s.kv, trace, name)))
  {
    DiskRun(cfg, s.kv, s, acts, i);
    var v := ViewOf(cfg, s.kv, Exec(cfg, s, acts), i);
    PendingResolved(v);
    var _ := PicksSubsequence(v.sent, Changes(v.versions));
  }

  // ---- Exact announcements without crashes ----

  /** A value is on its way to being announced. */
  predicate Midway(pc: Pc) {
    pc.Swapped? || pc.Saved? || pc.Recorded?
  }

  /**
   Memory holds the last value of the history, and announcements are its changes, except for the
   newest value while its goroutine is on the way to announce it.
   */
  ghost predicate Tracked(v: View) {
    && v.current == Last(v.history)
    && if Midway(v.pc) then
         && v.current == Some(v.pc.rel.tag)
         && v.pc.prev == Last(Init(v.history))
         && v.sent == Changes(Init(v.history))
       else v.sent == Changes(v.history)
  }

  lemma TrackedAnnounce(v: View)
    requires Tracked(v) && Midway(v.pc)
    ensures Changes(v.history) ==
      if IsNew(v.pc.prev, v.pc.rel.tag) then v.sent + [(v.pc.prev.value, v.pc.rel.tag)] else v.sent
  {
    assert v.history == Init(v.history) + [v.pc.rel.tag];
    ChangesSnoc(Init(v.history), v.pc.rel.tag);
  }

  lemma TrackedOwn(cfg: Config, v: View, a: Action, i: nat)
    requires cfg.hasNotifier && i < |cfg.services| && Tracked(v) && OwnTurn(v, a)
    ensures Tracked(OwnStep(cfg, i, v, a))
  {
    if a.Swap? {
      Snoc(v.history, v.pc.rel.tag);
    } else if a.Announce? {
      TrackedAnnounce(v);
    }
  }

  lemma TrackedLoad(v: View, tag: string)
    requires Tracked(v) && !Midway(v.pc) && (v.current.Some? ==> v.current == Some(tag))
    ensures Tracked(v.(current := Some(tag), history := v.history + [tag]))
  {
    Snoc(v.history, tag);
    ChangesSnoc(v.history, tag);
  }

  /** The table holds what memory holds: while it is being loaded and, with `saves`, whenever it has been saved. */
  ghost predicate Follows(cfg: Config, v: View, phase: Phase, saves: bool) {
    && (phase == Fresh ==> v.current == None)
    && (cfg.hasStore && (saves || phase.Loading?) && !v.pc.Swapped? && v.current.Some? ==> v.stored == v.current)
  }

  /** No crash; and reloading the store happens only when every SetKV succeeds. */
  ghost predicate Steady(acts: seq<Action>) {
    && (forall k | 0 <= k < |acts| :: !acts[k].Crash? && !acts[k].Boot?)
    && (SavesSucceed(acts) || forall k | 0 <= k < |acts| :: !acts[k].Reload?)
  }

  lemma MemoryRest(cfg: Config, kv0: map<string, string>, s: State, a: Action, i: nat, saves: bool)
    requires i < |cfg.services| && IdleInv(cfg, s) && Enabled(cfg, s, a) && !Goroutine(a)
    requires !a.Crash? && !a.Boot? && (!saves ==> !a.Reload?)
    requires Tracked(ViewOf(cfg, kv0, s, i)) && Follows(cfg, ViewOf(cfg, kv0, s, i), s.phase, saves)
    ensures
      var s' := Next(cfg, s, a);
      Tracked(ViewOf(cfg, kv0, s', i)) && Follows(cfg, ViewOf(cfg, kv0, s', i), s'.phase, saves)
  {
    var v := ViewOf(cfg, kv0, s, i);
    RestView(cfg, kv0, s, a, i);
    if Loads(cfg, s, a, i) { TrackedLoad(v, v.stored.value); }
  }

  lemma MemoryOwn(cfg: Config, kv0: map<string, string>, s: State, a: Action, i: nat, saves: bool)
    requires cfg.hasNotifier && i < |cfg.services| && IdleInv(cfg, s) && Enabled(cfg, s, a) && Concerns(a, i)
    requires saves && a.Save? ==> a.ok
    requires Tracked(ViewOf(cfg, kv0, s, i)) && Follows(cfg, ViewOf(cfg, kv0, s, i), s.phase, saves)
    ensures
      var s' := Next(cfg, s, a);
      Tracked(ViewOf(cfg, kv0, s', i)) && Follows(cfg, ViewOf(cfg, kv0, s', i), s'.phase, saves)
  {
    OwnView(cfg, kv0, s, a, i);
    TrackedOwn(cfg, ViewOf(cfg, kv0, s, i), a, i);
  }

  lemma MemoryStep(cfg: Config, kv0: map<string, string>, s: State, a: Action, i: nat, saves: bool)
    requires cfg.hasNotifier && SoleWriter(cfg, i) && IdleInv(cfg, s) && Enabled(cfg, s, a)
    requires !a.Crash? && !a.Boot? && (if saves then a.Save? ==> a.ok else !a.Reload?)
    requires Tracked(ViewOf(cfg, kv0, s, i)) && Follows(cfg, ViewOf(cfg, kv0, s, i), s.phase, saves)
    ensures
      var s' := Next(cfg, s, a);
      Tracked(ViewOf(cfg, kv0, s', i)) && Follows(cfg, ViewOf(cfg, kv0, s', i), s'.phase, saves)
  {
    if !Goroutine(a) {
      MemoryRest(cfg, kv0, s, a, i, saves);
    } else if Concerns(a, i) {
      MemoryOwn(cfg, kv0, s, a, i, saves);
    } else {
      OthersKeepOut(cfg, kv0, s, a, i);
    }
  }

  lemma {:induction false} MemoryRun(
    cfg: Config, kv0: map<string, string>, s: State, acts: seq<Action>, i: nat, saves: bool)
    requires cfg.hasNotifier && SoleWriter(cfg, i) && Runs(cfg, s, acts)
    requires forall k | 0 <= k < |acts| :: !acts[k].Crash? && !acts[k].Boot?
    requires if saves then SavesSucceed(acts) else forall k | 0 <= k < |acts| :: !acts[k].Reload?
    requires IdleInv(cfg, s)
    requires Tracked(ViewOf(cfg, kv0, s, i)) && Follows(cfg, ViewOf(cfg, kv0, s, i), s.phase, saves)
    ensures Tracked(ViewOf(cfg, kv0, Exec(cfg, s, acts), i))
    decreases acts
  {
    if acts != [] {
      MemoryStep(cfg, kv0, s, acts[0], i, saves);
      IdleStep(cfg, s, acts[0]);
      MemoryRun(cfg, kv0, Next(cfg, s, acts[0]), acts[1..], i, saves);
    }
  }

  /**
   Exact announcements: under every interleaving of the goroutines of every poll, what a service has been
   announced with is at every moment a prefix of the changes of the values seen for it, starting from the
   loaded or first-seen one, and exactly those changes whenever no poll is running. So announcements
   chain, none repeats its own version, and a first sighting brings none.
   */
  lemma ExactAnnouncements(cfg: Config, s: State, acts: seq<Action>, i: nat)
    requires cfg.hasNotifier && SoleWriter(cfg, i)
    requires s.phase == Fresh && s.known == map[] && s.pcs == [] && s.trace == []
    requires Runs(cfg, s, acts) && Steady(acts)
    ensures
      var end, name := Exec(cfg, s, acts), cfg.services[i].name;
      var h, sent := History(end.trace, name), Announced(end.trace, name);
      && sent <= Changes(h)
      && (end.phase != Polling ==> sent == Changes(h))
      && Known(end, name) == Last(h)
      && Chained(sent)
      && (sent != [] ==> sent[0].0 == h[0])
      && (|h| <= 1 ==> sent == [])
  {
    var saves := forall k | 0 <= k < |acts| && acts[k].Save? :: acts[k].ok;
    MemoryRun(cfg, s.kv, s, acts, i, saves);
    TrackedMeaning(ViewOf(cfg, s.kv, Exec(cfg, s, acts), i));
  }

  lemma TrackedMeaning(v: View)
    requires Tracked(v)
    ensures v.sent <= Changes(v.history)
    ensures Chained(v.sent)
    ensures v.sent != [] ==> v.sent[0].0 == v.history[0]
  {
    ChangesChain(v.history);
    ChangesChain(Init(v.history));
    if Midway(v.pc) {
      TrackedAnnounce(v);
    }
  }

  // ---- Memory and disk agree ----

  ghost predicate Agrees(cfg: Config, s: State, i: nat)
    requires i < |cfg.services|
  {
    Known(s, cfg.services[i].name) == Stored(s, cfg.services[i].name)
  }

  /** The program counter a goroutine of the current or latest poll stopped at. */
  function LastPc(s: State, i: nat): Pc {
    if i < |s.pcs| then s.pcs[i] else Started
  }

  /** The release a goroutine has recorded, if it got that far. */
  function RecordedTag(pc: Pc): Option<string> {
    match pc
    case Recorded(_, rel) => Some(rel.tag)
    case Finished(Some(rel)) => Some(rel.tag)
    case _ => None
  }

  ghost predicate AgreeInv(cfg: Config, s: State, i: nat)
    requires i < |cfg.services|
  {
    var name, pc := cfg.services[i].name, LastPc(s, i);
    var current, stored := Known(s, name), Stored(s, name);
    && UniqueRows(s.rows)
    && (s.phase != Polling ==> !Midway(pc))
    && (Midway(pc) ==> current == Some(pc.rel.tag))
    && (!pc.Swapped? && current.Some? ==> current == stored)
    && (!pc.Swapped? && (s.phase in {Ready, Polling} || (s.phase.Loading? && i < s.phase.next)) ==> current == stored)
    && (RecordedTag(pc).Some? ==> current == RecordedTag(pc) && CountRows(s.rows, name, current.value) == 1)
  }

  /** Every store call of the run succeeds. */
  predicate Works(a: Action) {
    (a.Save? || a.Record? || a.LoadOne?) ==> a.ok
  }

  ghost predicate Reliable(acts: seq<Action>) {
    forall k | 0 <= k < |acts| :: Works(acts[k])
  }

  lemma RecordRow(cfg: Config, s: State, i: nat)
    requires IdleInv(cfg, s) && Enabled(cfg, s, Record(i, true)) && UniqueRows(s.rows)
    ensures
      var rows, name, tag := Next(cfg, s, Record(i, true)).rows, cfg.services[i].name, s.pcs[i].rel.tag;
      && UniqueRows(rows)
      && (cfg.hasStore ==> CountRows(rows, name, tag) == 1)
      && forall n, t | n != name :: CountRows(rows, n, t) == CountRows(s.rows, n, t)
  {
    RecordedOnce(s.rows, NewRow(cfg.services[i], s.pcs[i].rel));
  }

  lemma AgreeOther(cfg: Config, s: State, a: Action, i: nat)
    requires cfg.hasStore && SoleWriter(cfg, i) && IdleInv(cfg, s) && Enabled(cfg, s, a)
    requires AgreeInv(cfg, s, i) && Goroutine(a) && !Concerns(a, i)
    ensures AgreeInv(cfg, Next(cfg, s, a), i)
  {
    OthersKeepOut(cfg, s.kv, s, a, i);
    if a.Record? {
      OtherName(cfg, s, a, i);
      RecordRow(cfg, s, a.i);
    }
  }

  lemma AgreeOwn(cfg: Config, s: State, a: Action, i: nat)
    requires cfg.hasStore && i < |cfg.services| && IdleInv(cfg, s) && Enabled(cfg, s, a)
    requires AgreeInv(cfg, s, i) && Concerns(a, i) && Works(a)
    ensures AgreeInv(cfg, Next(cfg, s, a), i)
  {
    if a.Record? {
      RecordRow(cfg, s, i);
    }
  }

  lemma AgreeRest(cfg: Config, s: State, a: Action, i: nat)
    requires cfg.hasStore && i < |cfg.services| && IdleInv(cfg, s) && Enabled(cfg, s, a)
    requires AgreeInv(cfg, s, i) && !Goroutine(a) && Works(a)
    ensures AgreeInv(cfg, Next(cfg, s, a), i)
  {
  }

  lemma {:induction false} AgreeRun(cfg: Config, s: State, acts: seq<Action>, i: nat)
    requires cfg.hasStore && SoleWriter(cfg, i) && Runs(cfg, s, acts) && Reliable(acts)
    requires IdleInv(cfg, s) && AgreeInv(cfg, s, i)
    ensures AgreeInv(cfg, Exec(cfg, s, acts), i)
    decreases acts
  {
    if acts != [] {
      var a := acts[0];
      assert Works(a);
      if !Goroutine(a) {
        AgreeRest(cfg, s, a, i);
      } else if Concerns(a, i) {
        AgreeOwn(cfg, s, a, i);
      } else {
        AgreeOther(cfg, s, a, i);
      }
      IdleStep(cfg, s, a);
      AgreeRun(cfg, Next(cfg, s, a), acts[1..], i);
    }
  }

  /**
   Between polls, after any run of polls, crashes and restarts with working store calls, memory and disk
   agree on a service, and if its latest check succeeded, both hold the tag found by that check and the
   releases table has exactly one row for it.
   */
  lemma MemoryAndDiskAgree(cfg: Config, s: State, acts: seq<Action>, i: nat)
    requires cfg.hasStore && SoleWriter(cfg, i)
    requires Initial(s) && UniqueRows(s.rows) && Runs(cfg, s, acts) && Reliable(acts)
    requires Exec(cfg, s, acts).phase == Ready
    ensures
      var end, name := Exec(cfg, s, acts), cfg.services[i].name;
      && Agrees(cfg, end, i)
      && (i < |end.pcs| && end.pcs[i].Finished? && end.pcs[i].outcome.Some? ==>
            var tag := end.pcs[i].outcome.value.tag;
            && Known(end, name) == Some(tag) == Stored(end, name)
            && CountRows(end.rows, name, tag) == 1)
  {
    AgreeRun(cfg, s, acts, i);
  }
}
