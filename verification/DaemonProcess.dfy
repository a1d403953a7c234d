/**
 The daemon as the program runs it: fields, a store object and a notifier. Each method below is one atomic
 block of checkService, or a sequence of them, and takes the steps of the state machine in module DaemonModel.
 */
module DaemonProcess {
  import opened Wrappers
  import opened Tables
  import opened DaemonModel
  import opened DaemonRuns
  import opened Registry

  function VersionKey(name: string): string {
    "version:" + name
  }

  lemma VersionKeyInjective(a: string, b: string)
    ensures VersionKey(a) == VersionKey(b) <==> a == b
  {
    assert VersionKey(a)[8..] == a && VersionKey(b)[8..] == b;
  }

  /** What the outside world answers during one check. */
  datatype Answers = Answers(release: Option<Latest>, saveOk: bool, recordOk: bool)

  /** The steps one goroutine takes when it runs without interruption. */
  function CheckActions(cfg: Config, i: nat, env: Answers): seq<Action>
    requires i < |cfg.services|
  {
    if Pollable(cfg, i) && env.release.Some?
    then [Fetch(i, env.release), Swap(i), Save(i, env.saveOk), Record(i, env.recordOk), Announce(i)]
    else [Fetch(i, env.release)]
  }

  function LoadsFrom(oks: seq<bool>): seq<Action> {
    if oks == [] then [] else LoadsFrom(oks[..|oks| - 1]) + [LoadOne(oks[|oks| - 1])]
  }

  function LoadActions(phase: Phase, oks: seq<bool>): seq<Action> {
    [if phase == Fresh then Load else Reload] + (LoadsFrom(oks) + [EndLoad])
  }

  lemma NextLoad(cfg: Config, s: State, oks: seq<bool>, i: nat, t: State)
    requires i < |oks| && Leads(cfg, s, LoadsFrom(oks[..i]), t)
    requires Sized(cfg, t) && Enabled(cfg, t, LoadOne(oks[i]))
    ensures Leads(cfg, s, LoadsFrom(oks[..i + 1]), Next(cfg, t, LoadOne(oks[i])))
  {
    var u := Next(cfg, t, LoadOne(oks[i]));
    var last := Prepend(cfg, t, LoadOne(oks[i]), [], u);
    assert last == [LoadOne(oks[i])];
    var _ := Compose(cfg, s, LoadsFrom(oks[..i]), t, last, u);
    assert oks[..i + 1][..i] == oks[..i];
  }

  lemma WrapLoads(cfg: Config, s: State, oks: seq<bool>, t: State)
    requires Sized(cfg, s) && s.phase in {Fresh, Ready} && t.phase == Loading(|cfg.services|) && Sized(cfg, t)
    requires Leads(cfg, s.(phase := Loading(0)), LoadsFrom(oks), t)
    ensures Leads(cfg, s, LoadActions(s.phase, oks), Next(cfg, t, EndLoad))
  {
    var u := Next(cfg, t, EndLoad);
    var acts := Prepend(cfg, t, EndLoad, [], u);
    assert acts == [EndLoad];
    acts := Compose(cfg, s.(phase := Loading(0)), LoadsFrom(oks), t, acts, u);
    acts := Prepend(cfg, s, if s.phase == Fresh then Load else Reload, acts, u);
  }

  /** A step of a goroutine, with the answers its service gets. */
  predicate TakesAnswers(a: Action, env: seq<Answers>) {
    Goroutine(a) && a.i < |env| &&
    match a
    case Fetch(i, answer) => answer == env[i].release
    case Save(i, ok) => ok == env[i].saveOk
    case Record(i, ok) => ok == env[i].recordOk
    case _ => true
  }

  /** The next step of a goroutine, with the answers its service gets. */
  function TurnOf(pc: Pc, i: nat, env: Answers): Action
    requires !pc.Finished?
  {
    match pc
    case Started => Fetch(i, env.release)
    case Fetched(_) => Swap(i)
    case Swapped(_, _) => Save(i, env.saveOk)
    case Saved(_, _) => Record(i, env.recordOk)
    case Recorded(_, _) => Announce(i)
  }

  lemma TurnEnabled(cfg: Config, s: State, i: nat, env: seq<Answers>)
    requires At(s, i) && !s.pcs[i].Finished? && i < |env|
    ensures
      var a := TurnOf(s.pcs[i], i, env[i]);
      Concerns(a, i) && TakesAnswers(a, env) && Enabled(cfg, s, a)
  {
  }

  /** The actions of a poll: its begin, steps of its goroutines in any order, and its end. */
  ghost predicate IsPoll(acts: seq<Action>, env: seq<Answers>) {
    && |acts| >= 2 && acts[0] == BeginPoll && acts[|acts| - 1] == EndPoll
    && forall k | 0 < k < |acts| - 1 :: TakesAnswers(acts[k], env)
  }

  lemma OneMore(cfg: Config, s: State, steps: seq<Action>, t: State, a: Action, env: seq<Answers>)
    returns (all: seq<Action>)
    requires Leads(cfg, s, steps, t) && Sized(cfg, t) && Enabled(cfg, t, a)
    requires (forall k | 0 <= k < |steps| :: TakesAnswers(steps[k], env)) && TakesAnswers(a, env)
    ensures Leads(cfg, s, all, Next(cfg, t, a)) && forall k | 0 <= k < |all| :: TakesAnswers(all[k], env)
  {
    var u := Next(cfg, t, a);
    var one := Prepend(cfg, t, a, [], u);
    all := Compose(cfg, s, steps, t, one, u);
  }

  lemma WrapPoll(cfg: Config, s: State, steps: seq<Action>, t: State, env: seq<Answers>) returns (acts: seq<Action>)
    requires Sized(cfg, s) && s.phase == Ready
    requires t.phase == Polling && Sized(cfg, t) && forall i | 0 <= i < |t.pcs| :: t.pcs[i].Finished?
    requires Leads(cfg, Next(cfg, s, BeginPoll), steps, t) && forall k | 0 <= k < |steps| :: TakesAnswers(steps[k], env)
    ensures Leads(cfg, s, acts, Next(cfg, t, EndPoll)) && IsPoll(acts, env)
  {
    var u := Next(cfg, t, EndPoll);
    var last := Prepend(cfg, t, EndPoll, [], u);
    assert last == [EndPoll];
    var rest := Compose(cfg, Next(cfg, s, BeginPoll), steps, t, last, u);
    acts := Prepend(cfg, s, BeginPoll, rest, u);
    assert forall k | 0 < k < |acts| - 1 :: acts[k] == steps[k - 1];
  }

  /** Where an uninterrupted check leads. */
  ghost function AfterCheck(cfg: Config, s: State, i: nat, env: Answers): State
    requires Sized(cfg, s) && At(s, i) && s.pcs[i].Started?
  {
    var s1 := Next(cfg, s, Fetch(i, env.release));
    if Pollable(cfg, i) && env.release.Some? then AfterFetch(cfg, s1, i, env) else s1
  }

  ghost function AfterFetch(cfg: Config, s: State, i: nat, env: Answers): State
    requires Sized(cfg, s) && At(s, i) && s.pcs[i].Fetched?
  {
    var s2 := Next(cfg, s, Swap(i));
    var s3 := Next(cfg, s2, Save(i, env.saveOk));
    var s4 := Next(cfg, s3, Record(i, env.recordOk));
    Next(cfg, s4, Announce(i))
  }

  lemma FetchedLeads(cfg: Config, s: State, i: nat, env: Answers) returns (acts: seq<Action>)
    requires Sized(cfg, s) && At(s, i) && s.pcs[i].Fetched?
    ensures acts == [Swap(i), Save(i, env.saveOk), Record(i, env.recordOk), Announce(i)]
    ensures Leads(cfg, s, acts, AfterFetch(cfg, s, i, env))
    ensures
      var t := AfterFetch(cfg, s, i, env);
      t.phase == Polling && |t.pcs| == |s.pcs| && t.pcs == s.pcs[i := t.pcs[i]] && t.pcs[i].Finished?
  {
    var t := AfterFetch(cfg, s, i, env);
    var s2 := Next(cfg, s, Swap(i));
    var s3 := Next(cfg, s2, Save(i, env.saveOk));
    var s4 := Next(cfg, s3, Record(i, env.recordOk));
    acts := Prepend(cfg, s4, Announce(i), [], t);
    acts := Prepend(cfg, s3, Record(i, env.recordOk), acts, t);
    acts := Prepend(cfg, s2, Save(i, env.saveOk), acts, t);
    acts := Prepend(cfg, s, Swap(i), acts, t);
  }

  lemma CheckLeads(cfg: Config, s: State, i: nat, env: Answers)
    requires Sized(cfg, s) && At(s, i) && s.pcs[i].Started?
    ensures Leads(cfg, s, CheckActions(cfg, i, env), AfterCheck(cfg, s, i, env))
    ensures
      var t := AfterCheck(cfg, s, i, env);
      t.phase == Polling && |t.pcs| == |s.pcs| && t.pcs == s.pcs[i := t.pcs[i]] && t.pcs[i].Finished?
  {
    var s1 := Next(cfg, s, Fetch(i, env.release));
    var acts: seq<Action> := [];
    if Pollable(cfg, i) && env.release.Some? {
      acts := FetchedLeads(cfg, s1, i, env);
    }
    acts := Prepend(cfg, s, Fetch(i, env.release), acts, AfterCheck(cfg, s, i, env));
    assert acts == CheckActions(cfg, i, env);
  }

  /** The events handed to the notifier, in order. */
  function Sent(trace: seq<Effect>): seq<Effect> {
    if trace == [] then []
    else
      var e, before := trace[|trace| - 1], Sent(trace[..|trace| - 1]);
      if e.Notified? then before + [e] else before
  }

  lemma SentSnoc(trace: seq<Effect>, e: Effect)
    ensures Sent(trace + [e]) == if e.Notified? then Sent(trace) + [e] else Sent(trace)
  {
    assert (trace + [e])[..|trace|] == trace;
  }

  ghost predicate SameVersions(versions: map<string, string>, kv: map<string, string>) {
    forall n ::
      && (n in versions <==> VersionKey(n) in kv)
      && (n in versions ==> versions[n] == kv[VersionKey(n)])
  }

  lemma SameVersionsAfterSet(versions: map<string, string>, kv: map<string, string>, name: string, tag: string)
    requires SameVersions(versions, kv)
    ensures SameVersions(versions[name := tag], kv[VersionKey(name) := tag])
  {
    forall n {
      VersionKeyInjective(n, name);
    }
  }

  class Daemon {
    const cfg: Config
    const store: Store?
    var known: map<string, string>
    var notifications: seq<Effect>
    /** The goroutines of the current or latest poll: where each stands, with its local variables. */
    var goroutines: seq<Pc>
    ghost var model: State

    ghost predicate Valid()
      reads this, store
    {
      && (store != null <==> cfg.hasStore)
      && Sized(cfg, model)
      && model.known == known
      && model.pcs == goroutines
      && (store != null ==> model.rows == store.releases && SameVersions(model.kv, store.kv))
      && Sent(model.trace) == notifications
    }

    constructor (
      services: seq<ServiceConfig>, platforms: set<string>, store: Store?, hasNotifier: bool, ghost s: State)
      requires s.phase == Down && |s.pcs| <= |services| && Sent(s.trace) == []
      requires store != null ==> s.rows == store.releases && SameVersions(s.kv, store.kv)
      ensures Valid() && this.store == store
      ensures cfg == ConfigOf(services, platforms, store != null, hasNotifier)
      ensures model == Next(cfg, s, Boot)
    {
      this.cfg := ConfigOf(services, platforms, store != null, hasNotifier);
      this.store := store;
      known := map[];
      notifications := [];
      goroutines := [];
      model := Next(ConfigOf(services, platforms, store != null, hasNotifier), s, Boot);
    }

    /** ParseRepo, the provider lookup and GetLatestRelease, up to the early returns. */
    method FetchLatest(i: nat, answer: Option<Latest>)
      requires Valid() && At(model, i) && model.pcs[i].Started?
      modifies this
      ensures Valid() && model == Next(cfg, old(model), Fetch(i, answer)) && model.phase == Polling
      ensures goroutines == old(goroutines)[i := goroutines[i]]
      ensures
        goroutines[i] == if Pollable(cfg, i) && answer.Some? then Fetched(answer.value) else Finished(None)
    {
      var found := cfg.services[i].target.Some? && answer.Some?;
      goroutines := goroutines[i := if found then Fetched(answer.value) else Finished(None)];
      model := Next(cfg, model, Fetch(i, answer));
    }

    /** The critical section under the mutex. */
    method SwapKnown(i: nat, rel: Latest) returns (prev: Option<string>)
      requires Valid() && At(model, i) && model.pcs[i] == Fetched(rel)
      modifies this
      ensures Valid() && model == Next(cfg, old(model), Swap(i)) && model.phase == Polling
      ensures goroutines == old(goroutines)[i := Swapped(prev, rel)]
      ensures
        var name := cfg.services[i].name;
        && prev == (if name in old(known) then Some(old(known)[name]) else None)
        && known == old(known)[name := rel.tag] && notifications == old(notifications)
    {
      var name := cfg.services[i].name;
      ghost var after := Next(cfg, model, Swap(i));
      prev := if name in known then Some(known[name]) else None;
      assert after.kv == model.kv && after.rows == model.rows && after.phase == model.phase;
      assert after.known == known[name := rel.tag] && after.pcs == goroutines[i := Swapped(prev, rel)];
      SentSnoc(model.trace, Seen(name, rel.tag));
      known := known[name := rel.tag];
      goroutines := goroutines[i := Swapped(prev, rel)];
      model := after;
    }

    method Persist(i: nat, prev: Option<string>, rel: Latest, ok: bool)
      requires Valid() && At(model, i) && model.pcs[i] == Swapped(prev, rel)
      modifies this, store
      ensures Valid() && model == Next(cfg, old(model), Save(i, ok)) && model.phase == Polling
      ensures goroutines == old(goroutines)[i := Saved(prev, rel)]
      ensures known == old(known) && notifications == old(notifications)
      ensures
        var name := cfg.services[i].name;
        store != null ==> store.kv == if ok then old(store.kv)["version:" + name := rel.tag] else old(store.kv)
    {
      var name := cfg.services[i].name;
      ghost var after := Next(cfg, model, Save(i, ok));
      assert after.known == known && after.rows == model.rows && after.phase == model.phase;
      assert after.pcs == goroutines[i := Saved(prev, rel)];
      if store != null && ok {
        SentSnoc(model.trace, Persisted(name, rel.tag));
        SameVersionsAfterSet(model.kv, store.kv, name, rel.tag);
        store.SetKV(VersionKey(name), rel.tag);
      }
      goroutines := goroutines[i := Saved(prev, rel)];
      model := after;
    }

    method RecordRow(i: nat, prev: Option<string>, rel: Latest, ok: bool)
      requires Valid() && At(model, i) && model.pcs[i] == Saved(prev, rel)
      modifies this, store
      ensures Valid() && model == Next(cfg, old(model), Record(i, ok)) && model.phase == Polling
      ensures goroutines == old(goroutines)[i := Recorded(prev, rel)]
      ensures known == old(known) && notifications == old(notifications)
      ensures
        var svc := cfg.services[i];
        store != null && ok && svc.target.Some? ==>
          store.releases ==
            InsertOrIgnore(old(store.releases), Row(svc.name, rel.tag, svc.target.value.platform, rel.url))
    {
      ghost var after := Next(cfg, model, Record(i, ok));
      assert after.known == known && after.kv == model.kv && after.trace == model.trace && after.phase == model.phase;
      assert after.pcs == goroutines[i := Recorded(prev, rel)];
      if store != null && ok {
        store.RecordRelease(NewRow(cfg.services[i], rel));
      }
      goroutines := goroutines[i := Recorded(prev, rel)];
      model := after;
    }

    method Notify(i: nat, prev: Option<string>, rel: Latest)
      requires Valid() && At(model, i) && model.pcs[i] == Recorded(prev, rel)
      modifies this
      ensures Valid() && model == Next(cfg, old(model), Announce(i)) && model.phase == Polling
      ensures goroutines == old(goroutines)[i := Finished(Some(rel))]
      ensures
        if prev.Some? && prev.value != rel.tag && cfg.hasNotifier
        then notifications == old(notifications) + [Notified(cfg.services[i].name, prev.value, rel.tag)]
        else notifications == old(notifications)
    {
      ghost var after := Next(cfg, model, Announce(i));
      assert after.known == known && after.kv == model.kv && after.rows == model.rows && after.phase == model.phase;
      assert after.pcs == goroutines[i := Finished(Some(rel))];
      if IsNew(prev, rel.tag) && cfg.hasNotifier {
        var event := Notified(cfg.services[i].name, prev.value, rel.tag);
        SentSnoc(model.trace, event);
        notifications := notifications + [event];
      }
      goroutines := goroutines[i := Finished(Some(rel))];
      model := after;
    }

    /** One goroutine, run without interruption. */
    method CheckService(i: nat, env: Answers)
      requires Valid() && At(model, i) && model.pcs[i].Started?
      modifies this, store
      ensures Valid() && Leads(cfg, old(model), CheckActions(cfg, i, env), model)
    {
      ghost var before := model;
      FetchLatest(i, env.release);
      if cfg.services[i].target.Some? && env.release.Some? {
        HandleRelease(i, env.release.value, env);
      }
      CheckLeads(cfg, before, i, env);
    }

    method HandleRelease(i: nat, rel: Latest, env: Answers)
      requires Valid() && At(model, i) && model.pcs[i] == Fetched(rel)
      modifies this, store
      ensures Valid() && model == AfterFetch(cfg, old(model), i, env)
    {
      var prev := SwapKnown(i, rel);
      Persist(i, prev, rel, env.saveOk);
      RecordRow(i, prev, rel, env.recordOk);
      Notify(i, prev, rel);
    }

    /** The next atomic step of one goroutine, from where it stands. */
    method StepGoroutine(i: nat, env: seq<Answers>) returns (ghost a: Action)
      requires Valid() && At(model, i) && !model.pcs[i].Finished? && |env| == |model.pcs|
      modifies this, store
      ensures Concerns(a, i) && TakesAnswers(a, env)
      ensures Valid() && Enabled(cfg, old(model), a) && model == Next(cfg, old(model), a)
    {
      a := TurnOf(model.pcs[i], i, env[i]);
      TurnEnabled(cfg, model, i, env);
      match goroutines[i]
      case Started => FetchLatest(i, env[i].release);
      case Fetched(rel) => var _ := SwapKnown(i, rel);
      case Swapped(prev, rel) => Persist(i, prev, rel, env[i].saveOk);
      case Saved(prev, rel) => RecordRow(i, prev, rel, env[i].recordOk);
      case Recorded(prev, rel) => Notify(i, prev, rel);
    }

    /** GetKV for the next service, into memory. */
    method LoadNext(i: nat, ok: bool)
      requires Valid() && i < |cfg.services| && model.phase == Loading(i)
      modifies this
      ensures Valid() && model == Next(cfg, old(model), LoadOne(ok))
      ensures
        var name := cfg.services[i].name;
        known == if store != null && ok && "version:" + name in store.kv
                 then old(known)[name := store.kv["version:" + name]] else old(known)
    {
      var name := cfg.services[i].name;
      if store != null && ok {
        var value := store.GetKV(VersionKey(name));
        if value.Some? {
          SentSnoc(model.trace, Loaded(name, value.value));
          known := known[name := value.value];
        }
      }
      model := Next(cfg, model, LoadOne(ok));
    }

    /** GetKV for every service, into memory. */
    method LoadKnownVersions(oks: seq<bool>)
      requires Valid() && |oks| == |cfg.services| && model.phase in {Fresh, Ready}
      modifies this
      ensures Valid() && model.phase == Ready
      ensures Leads(cfg, old(model), LoadActions(old(model).phase, oks), model)
    {
      ghost var s0 := model;
      model := model.(phase := Loading(0));
      ghost var s1 := model;
      for i := 0 to |cfg.services|
        invariant Valid() && model.phase == Loading(i)
        invariant Leads(cfg, s1, LoadsFrom(oks[..i]), model)
      {
        NextLoad(cfg, s1, oks, i, model);
        LoadNext(i, oks[i]);
      }
      assert oks[..|oks|] == oks;
      WrapLoads(cfg, s0, oks, model);
      model := Next(cfg, model, EndLoad);
    }

    /** One step of some goroutine, at the end of the steps so far. */
    method Interleave(i: nat, env: seq<Answers>, ghost s: State, ghost steps: seq<Action>)
      returns (ghost after: seq<Action>)
      requires Valid() && At(model, i) && !model.pcs[i].Finished? && |env| == |model.pcs|
      requires Leads(cfg, s, steps, model) && forall k | 0 <= k < |steps| :: TakesAnswers(steps[k], env)
      modifies this, store
      ensures Valid() && model.phase == Polling && |model.pcs| == |old(model).pcs|
      ensures Leads(cfg, s, after, model) && forall k | 0 <= k < |after| :: TakesAnswers(after[k], env)
      ensures AllLeft(goroutines) < AllLeft(old(goroutines))
    {
      ghost var before, stacks := model, goroutines;
      ghost var a := StepGoroutine(i, env);
      GoroutineMoves(cfg, before, a);
      OneLess(stacks, i, goroutines[i]);
      after := OneMore(cfg, s, steps, before, a, env);
    }

    /** One poll: it starts a goroutine per service, they take their steps in any order, and it waits for all. */
    method Poll(env: seq<Answers>) returns (ghost acts: seq<Action>)
      requires Valid() && |env| == |cfg.services| && model.phase == Ready
      modifies this, store
      ensures Valid() && model.phase == Ready
      ensures Leads(cfg, old(model), acts, model) && IsPoll(acts, env)
    {
      ghost var s0 := model;
      goroutines := seq(|cfg.services|, _ => Started);
      model := Next(cfg, model, BeginPoll);
      ghost var s1 := model;
      ghost var steps: seq<Action> := [];
      while exists i :: 0 <= i < |goroutines| && !goroutines[i].Finished?
        invariant Valid() && model.phase == Polling && |model.pcs| == |cfg.services|
        invariant Leads(cfg, s1, steps, model) && forall k | 0 <= k < |steps| :: TakesAnswers(steps[k], env)
        decreases AllLeft(goroutines)
      {
        var i :| 0 <= i < |goroutines| && !goroutines[i].Finished?;
        steps := Interleave(i, env, s1, steps);
      }
      acts := WrapPoll(cfg, s0, steps, model, env);
      model := Next(cfg, model, EndPoll);
    }

    method RunOnce(oks: seq<bool>, env: seq<Answers>) returns (ghost poll: seq<Action>)
      requires Valid() && |oks| == |env| == |cfg.services| && model.phase in {Fresh, Ready}
      modifies this, store
      ensures Valid() && model.phase == Ready && IsPoll(poll, env)
      ensures Leads(cfg, old(model), LoadActions(old(model).phase, oks) + poll, model)
    {
      ghost var s0 := model;
      LoadKnownVersions(oks);
      ghost var s1 := model;
      poll := Poll(env);
      ghost var _ := Compose(cfg, s0, LoadActions(s0.phase, oks), s1, poll, model);
    }
  }
}
