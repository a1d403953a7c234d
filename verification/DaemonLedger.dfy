/**
 When announcements are exactly the changes of the persisted version: every change that is not announced is
 accounted for, by a crash between SetKV and Notify or by a save that did not know the stored version.
 */
module DaemonLedger {
  import opened Wrappers
  import opened DaemonModel
  import opened DaemonRuns

  /** The process dies while service `i` has a change on disk and still to be announced. */
  predicate CrashLoses(s: State, a: Action, i: nat) {
    a.Crash? && Pending(PcOf(s, i))
  }

  /** Service `i` replaces a stored version that memory, after a failed load, did not know. */
  predicate SavesBlind(cfg: Config, s: State, a: Action, i: nat)
    requires i < |cfg.services|
  {
    && a == Save(i, true) && At(s, i) && s.pcs[i].Swapped? && s.pcs[i].prev.None?
    && Stored(s, cfg.services[i].name).Some? && Stored(s, cfg.services[i].name) != Some(s.pcs[i].rel.tag)
  }

  function CrashLosses(cfg: Config, s: State, acts: seq<Action>, i: nat): nat
    requires Runs(cfg, s, acts)
    decreases acts
  {
    if acts == [] then 0
    else CrashLosses(cfg, Next(cfg, s, acts[0]), acts[1..], i) + if CrashLoses(s, acts[0], i) then 1 else 0
  }

  function BlindSaves(cfg: Config, s: State, acts: seq<Action>, i: nat): nat
    requires i < |cfg.services| && Runs(cfg, s, acts)
    decreases acts
  {
    if acts == [] then 0
    else BlindSaves(cfg, Next(cfg, s, acts[0]), acts[1..], i) + if SavesBlind(cfg, s, acts[0], i) then 1 else 0
  }

  /** Announced and lost changes are all the changes but a pending one. */
  ghost predicate Balanced(v: View, lost: nat) {
    OnDisk(v) && |v.sent| + lost == |Changes(Settled(v))|
  }

  lemma BalancedOwn(cfg: Config, v: View, lost: nat, a: Action, i: nat)
    requires cfg.hasStore && cfg.hasNotifier && i < |cfg.services| && Balanced(v, lost)
    requires OwnTurn(v, a) && (a.Save? ==> a.ok || v.stored == Some(v.pc.rel.tag))
    ensures
      var blind := a.Save? && a.ok && v.pc.prev.None? && v.stored.Some? && v.stored != Some(v.pc.rel.tag);
      Balanced(OwnStep(cfg, i, v, a), if blind then lost + 1 else lost)
  {
    OnDiskOwn(cfg, v, a, i);
    if a.Save? && a.ok {
      Snoc(v.versions, v.pc.rel.tag);
      if !IsNew(v.pc.prev, v.pc.rel.tag) { SavedChange(v); }
    } else if a.Announce? && Pending(v.pc) {
      PendingChange(v);
    }
  }

  lemma BalancedRest(cfg: Config, kv0: map<string, string>, s: State, a: Action, i: nat, lost: nat)
    requires cfg.hasStore && SoleWriter(cfg, i) && IdleInv(cfg, s) && Enabled(cfg, s, a) && !Goroutine(a)
    requires Balanced(ViewOf(cfg, kv0, s, i), lost)
    ensures Balanced(ViewOf(cfg, kv0, Next(cfg, s, a), i), if CrashLoses(s, a, i) then lost + 1 else lost)
  {
    var v := ViewOf(cfg, kv0, s, i);
    DiskStep(cfg, kv0, s, a, i);
    RestView(cfg, kv0, s, a, i);
    if Pending(v.pc) { PendingChange(v); }
  }

  lemma BalancedStep(cfg: Config, kv0: map<string, string>, s: State, a: Action, i: nat, lost: nat)
    requires cfg.hasStore && cfg.hasNotifier && SoleWriter(cfg, i) && IdleInv(cfg, s) && Enabled(cfg, s, a)
    requires a == Save(i, false) ==> Stored(s, cfg.services[i].name) == Some(s.pcs[i].rel.tag)
    requires Balanced(ViewOf(cfg, kv0, s, i), lost)
    ensures Balanced(ViewOf(cfg, kv0, Next(cfg, s, a), i),
      lost + (if CrashLoses(s, a, i) then 1 else 0) + (if SavesBlind(cfg, s, a, i) then 1 else 0))
  {
    if !Goroutine(a) {
      BalancedRest(cfg, kv0, s, a, i, lost);
    } else if Concerns(a, i) {
      OwnView(cfg, kv0, s, a, i);
      BalancedOwn(cfg, ViewOf(cfg, kv0, s, i), lost, a, i);
    } else {
      OthersKeepOut(cfg, kv0, s, a, i);
    }
  }

  lemma {:induction false} BalancedRun(
    cfg: Config, kv0: map<string, string>, s: State, acts: seq<Action>, i: nat, lost: nat)
    requires cfg.hasStore && cfg.hasNotifier && SoleWriter(cfg, i) && IdleInv(cfg, s)
    requires Runs(cfg, s, acts) && SavesHold(cfg, s, acts, i)
    requires Balanced(ViewOf(cfg, kv0, s, i), lost)
    ensures Balanced(ViewOf(cfg, kv0, Exec(cfg, s, acts), i),
      lost + CrashLosses(cfg, s, acts, i) + BlindSaves(cfg, s, acts, i))
    decreases acts
  {
    if acts != [] {
      var a := acts[0];
      BalancedStep(cfg, kv0, s, a, i, lost);
      IdleStep(cfg, s, a);
      var now := lost + (if CrashLoses(s, a, i) then 1 else 0) + (if SavesBlind(cfg, s, a, i) then 1 else 0);
      BalancedRun(cfg, kv0, Next(cfg, s, a), acts[1..], i, now);
    }
  }

  /** A subsequence as long as the whole is the whole. */
  lemma {:induction false} PicksLength<T>(a: seq<T>, b: seq<T>)
    requires Picks(a, b)
    ensures |a| <= |b|
    ensures |a| == |b| ==> a == b
  {
    if a != [] {
      if Picks(a, b[..|b| - 1]) {
        PicksLength(a, b[..|b| - 1]);
      } else {
        PicksLength(a[..|a| - 1], b[..|b| - 1]);
        assert a == a[..|a| - 1] + [a[|a| - 1]] && b == b[..|b| - 1] + [b[|b| - 1]];
      }
    }
  }

  /**
   Every change is announced or accounted for: in every run of polls, reloads, failed fetches and loads,
   crashes and restarts, as long as SetKV fails only for a tag already stored. At any moment when nothing is
   pending, in particular between polls, announcements and losses add up to the persisted changes, and the
   announcements are those changes exactly when nothing was lost.
   */
  lemma AnnouncedOrLost(cfg: Config, s: State, acts: seq<Action>, i: nat)
    requires cfg.hasStore && cfg.hasNotifier && SoleWriter(cfg, i)
    requires Initial(s) && Runs(cfg, s, acts) && SavesHold(cfg, s, acts, i)
    requires !Pending(PcOf(Exec(cfg, s, acts), i))
    ensures
      var name, trace := cfg.services[i].name, Exec(cfg, s, acts).trace;
      var sent, changes := Announced(trace, name), Changes(Versions(s.kv, trace, name));
      var lost := CrashLosses(cfg, s, acts, i) + BlindSaves(cfg, s, acts, i);
      && |sent| + lost == |changes|
      && (sent == changes <==> lost == 0)
  {
    BalancedRun(cfg, s.kv, s, acts, i, 0);
    var v := ViewOf(cfg, s.kv, Exec(cfg, s, acts), i);
    PicksLength(v.sent, Changes(v.versions));
  }

  // ---- With loads that work ----

  ghost predicate LoadsSucceed(acts: seq<Action>) {
    forall k | 0 <= k < |acts| && acts[k].LoadOne? :: acts[k].ok
  }

  /** From the end of loading on, memory knows the stored version. */
  ghost predicate Informed(v: View, phase: Phase, i: nat) {
    phase in {Ready, Polling} || (phase.Loading? && i < phase.next) ==>
      if v.pc.Swapped? then v.pc.prev == v.stored else v.current == v.stored
  }

  lemma InformedOwn(cfg: Config, v: View, a: Action, i: nat)
    requires cfg.hasStore && i < |cfg.services| && OnDisk(v) && Informed(v, Polling, i)
    requires OwnTurn(v, a) && (a.Save? ==> a.ok || v.stored == Some(v.pc.rel.tag))
    ensures Informed(OwnStep(cfg, i, v, a), Polling, i)
  {
  }

  lemma InformedRest(cfg: Config, kv0: map<string, string>, s: State, a: Action, i: nat)
    requires cfg.hasStore && SoleWriter(cfg, i) && IdleInv(cfg, s) && Enabled(cfg, s, a) && !Goroutine(a)
    requires a.LoadOne? ==> a.ok
    requires OnDisk(ViewOf(cfg, kv0, s, i)) && Informed(ViewOf(cfg, kv0, s, i), s.phase, i)
    ensures Informed(ViewOf(cfg, kv0, Next(cfg, s, a), i), Next(cfg, s, a).phase, i)
  {
    RestView(cfg, kv0, s, a, i);
  }

  lemma InformedStep(cfg: Config, kv0: map<string, string>, s: State, a: Action, i: nat)
    requires cfg.hasStore && SoleWriter(cfg, i) && IdleInv(cfg, s) && Enabled(cfg, s, a)
    requires a == Save(i, false) ==> Stored(s, cfg.services[i].name) == Some(s.pcs[i].rel.tag)
    requires a.LoadOne? ==> a.ok
    requires OnDisk(ViewOf(cfg, kv0, s, i)) && Informed(ViewOf(cfg, kv0, s, i), s.phase, i)
    ensures Informed(ViewOf(cfg, kv0, Next(cfg, s, a), i), Next(cfg, s, a).phase, i)
  {
    if !Goroutine(a) {
      InformedRest(cfg, kv0, s, a, i);
    } else if Concerns(a, i) {
      OwnView(cfg, kv0, s, a, i);
      InformedOwn(cfg, ViewOf(cfg, kv0, s, i), a, i);
    } else {
      OthersKeepOut(cfg, kv0, s, a, i);
    }
  }

  lemma {:induction false} NoBlindSaves(cfg: Config, kv0: map<string, string>, s: State, acts: seq<Action>, i: nat)
    requires cfg.hasStore && SoleWriter(cfg, i) && IdleInv(cfg, s)
    requires Runs(cfg, s, acts) && SavesHold(cfg, s, acts, i) && LoadsSucceed(acts)
    requires OnDisk(ViewOf(cfg, kv0, s, i)) && Informed(ViewOf(cfg, kv0, s, i), s.phase, i)
    ensures BlindSaves(cfg, s, acts, i) == 0
    decreases acts
  {
    if acts != [] {
      InformedStep(cfg, kv0, s, acts[0], i);
      DiskStep(cfg, kv0, s, acts[0], i);
      IdleStep(cfg, s, acts[0]);
      NoBlindSaves(cfg, kv0, Next(cfg, s, acts[0]), acts[1..], i);
    }
  }

  /**
   Exactly once: with working GetKV calls, and SetKV failing only for a tag already stored, announcements are
   exactly the persisted changes between polls if and only if no crash fell between a change's SetKV and its
   Notify. Each such crash loses one.
   */
  lemma ExactlyOnceIff(cfg: Config, s: State, acts: seq<Action>, i: nat)
    requires cfg.hasStore && cfg.hasNotifier && SoleWriter(cfg, i)
    requires Initial(s) && Runs(cfg, s, acts) && SavesHold(cfg, s, acts, i) && LoadsSucceed(acts)
    requires Exec(cfg, s, acts).phase != Polling
    ensures
      var name, trace := cfg.services[i].name, Exec(cfg, s, acts).trace;
      var sent, changes := Announced(trace, name), Changes(Versions(s.kv, trace, name));
      && |sent| + CrashLosses(cfg, s, acts, i) == |changes|
      && (sent == changes <==> CrashLosses(cfg, s, acts, i) == 0)
  {
    AnnouncedOrLost(cfg, s, acts, i);
    NoBlindSaves(cfg, s.kv, s, acts, i);
  }
}
