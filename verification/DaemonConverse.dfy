/**
 The converse of at-most-once: every failed SetKV that AtMostOnce excludes can be followed by working calls
 alone, without a crash, until the service is announced with a change that its persisted version never made.
 */
module DaemonConverse {
  import opened Wrappers
  import opened DaemonLimits
  import opened DaemonModel
  import opened DaemonRuns

  // ---- Finishing a poll ----

  /** The next step of a goroutine, with working calls and no new release. */
  function QuietStep(pc: Pc, j: nat): Action
    requires !pc.Finished?
  {
    match pc
    case Started => Fetch(j, None)
    case Fetched(_) => Swap(j)
    case Swapped(_, _) => Save(j, true)
    case Saved(_, _) => Record(j, true)
    case Recorded(_, _) => Announce(j)
  }

  lemma QuietMoves(cfg: Config, s: State, j: nat)
    requires IdleInv(cfg, s) && At(s, j) && !s.pcs[j].Finished?
    ensures
      var a := QuietStep(s.pcs[j], j);
      Enabled(cfg, s, a) && Works(a) && Goroutine(a) && a.i == j
  {
  }

  lemma OtherSteps(cfg: Config, kv0: map<string, string>, s: State, i: nat, j: nat)
    requires SoleWriter(cfg, i) && IdleInv(cfg, s) && At(s, i) && At(s, j) && j != i && !s.pcs[j].Finished?
    ensures
      var a := QuietStep(s.pcs[j], j);
      && Enabled(cfg, s, a) && Works(a)
      && IdleInv(cfg, Next(cfg, s, a)) && At(Next(cfg, s, a), i)
      && AllLeft(Next(cfg, s, a).pcs) < AllLeft(s.pcs)
      && ViewOf(cfg, kv0, Next(cfg, s, a), i) == ViewOf(cfg, kv0, s, i)
  {
    var a := QuietStep(s.pcs[j], j);
    QuietMoves(cfg, s, j);
    GoroutineMoves(cfg, s, a);
    OthersKeepOut(cfg, kv0, s, a, i);
    IdleStep(cfg, s, a);
    OneLess(s.pcs, j, Next(cfg, s, a).pcs[j]);
  }

  /** With service `i` finished, the other goroutines finish too and the poll ends, without touching it. */
  lemma {:induction false} FinishPoll(cfg: Config, kv0: map<string, string>, s: State, i: nat)
    returns (acts: seq<Action>, t: State)
    requires SoleWriter(cfg, i) && IdleInv(cfg, s) && At(s, i) && s.pcs[i].Finished?
    ensures Leads(cfg, s, acts, t) && Reliable(acts) && IdleInv(cfg, t) && t.phase == Ready
    ensures ViewOf(cfg, kv0, t, i) == ViewOf(cfg, kv0, s, i).(pc := Started)
    decreases AllLeft(s.pcs)
  {
    if j :| 0 <= j < |s.pcs| && !s.pcs[j].Finished? {
      var a := QuietStep(s.pcs[j], j);
      OtherSteps(cfg, kv0, s, i, j);
      acts, t := FinishPoll(cfg, kv0, Next(cfg, s, a), i);
      acts := Prepend(cfg, s, a, acts, t);
    } else {
      RestView(cfg, kv0, s, EndPoll, i);
      IdleStep(cfg, s, EndPoll);
      t := Next(cfg, s, EndPoll);
      acts := Prepend(cfg, s, EndPoll, [], t);
    }
  }

  /** The next poll finds another release for the service. */
  lemma NextPoll(cfg: Config, kv0: map<string, string>, s: State, i: nat, rel: Latest)
    returns (acts: seq<Action>, t: State)
    requires cfg.hasStore && i < |cfg.services| && Pollable(cfg, i) && IdleInv(cfg, s) && s.phase == Ready
    ensures Leads(cfg, s, acts, t) && Reliable(acts) && IdleInv(cfg, t) && At(t, i)
    ensures
      var v, w := ViewOf(cfg, kv0, s, i), ViewOf(cfg, kv0, t, i);
      w == v.(current := Some(rel.tag), history := w.history, pc := Swapped(v.current, rel))
  {
    var s1 := Next(cfg, s, BeginPoll);
    RestView(cfg, kv0, s, BeginPoll, i);
    IdleStep(cfg, s, BeginPoll);
    var swap, u := FetchAndSwap(cfg, kv0, s1, i, rel);
    t := u;
    acts := Prepend(cfg, s, BeginPoll, swap, t);
  }

  lemma FetchAndSwap(cfg: Config, kv0: map<string, string>, s: State, i: nat, rel: Latest)
    returns (acts: seq<Action>, t: State)
    requires i < |cfg.services| && Pollable(cfg, i) && IdleInv(cfg, s) && At(s, i) && s.pcs[i].Started?
    ensures Leads(cfg, s, acts, t) && acts == [Fetch(i, Some(rel)), Swap(i)] && IdleInv(cfg, t) && At(t, i)
    ensures
      var v, w := ViewOf(cfg, kv0, s, i), ViewOf(cfg, kv0, t, i);
      w == v.(current := Some(rel.tag), history := w.history, pc := Swapped(v.current, rel))
  {
    var fetch := Fetch(i, Some(rel));
    OwnView(cfg, kv0, s, fetch, i);
    IdleStep(cfg, s, fetch);
    OwnView(cfg, kv0, Next(cfg, s, fetch), Swap(i), i);
    IdleStep(cfg, Next(cfg, s, fetch), Swap(i));
    acts, t := TwoSteps(cfg, s, fetch, Swap(i));
  }

  // ---- After a failed save ----

  /** From a failed save, through its poll, to a check in the next poll that finds another release. */
  lemma FailAndGoOn(cfg: Config, kv0: map<string, string>, s: State, i: nat, newer: Latest)
    returns (acts: seq<Action>, t: State)
    requires cfg.hasStore && SoleWriter(cfg, i) && Pollable(cfg, i) && IdleInv(cfg, s)
    requires At(s, i) && s.pcs[i].Swapped? && Known(s, cfg.services[i].name) == Some(s.pcs[i].rel.tag)
    ensures Leads(cfg, s, acts, t) && FailsOnce(acts, i) && IdleInv(cfg, t) && At(t, i)
    ensures
      var v, w := ViewOf(cfg, kv0, s, i), ViewOf(cfg, kv0, t, i);
      && w.pc == Swapped(Some(v.pc.rel.tag), newer) && w.versions == v.versions
      && w.sent == Told(cfg, v.sent, v.pc.prev, v.pc.rel.tag)
  {
    var check, s1 := FromSwap(cfg, kv0, s, i, false);
    var finish, s2 := FinishPoll(cfg, kv0, s1, i);
    var next, u := NextPoll(cfg, kv0, s2, i, newer);
    t := u;
    acts := Compose(cfg, s1, finish, s2, next, t);
    FailsFirstOnly(i, acts);
    acts := Compose(cfg, s, check, s1, acts, t);
  }

  /** The service is told last of a change from a tag that was never its persisted version before `newer`. */
  ghost predicate ToldWrongly(cfg: Config, v: View, w: View, newer: string)
    requires v.pc.Swapped?
  {
    var tag := v.pc.rel.tag;
    && w.sent == Told(cfg, v.sent, v.pc.prev, tag) + [(tag, newer)]
    && w.versions == v.versions + [newer]
  }

  lemma FailAndTell(cfg: Config, kv0: map<string, string>, s: State, i: nat, newer: Latest)
    returns (acts: seq<Action>, t: State)
    requires cfg.hasStore && cfg.hasNotifier && SoleWriter(cfg, i) && Pollable(cfg, i) && IdleInv(cfg, s)
    requires At(s, i) && s.pcs[i].Swapped? && Known(s, cfg.services[i].name) == Some(s.pcs[i].rel.tag)
    requires newer.tag != s.pcs[i].rel.tag
    ensures Leads(cfg, s, acts, t) && FailsOnce(acts, i)
    ensures ToldWrongly(cfg, ViewOf(cfg, kv0, s, i), ViewOf(cfg, kv0, t, i), newer.tag)
  {
    var start, s1 := FailAndGoOn(cfg, kv0, s, i, newer);
    var check, u := FromSwap(cfg, kv0, s1, i, true);
    t := u;
    acts := Compose(cfg, s, start, s1, check, t);
    assert acts[1..] == start[1..] + check;
  }

  // ---- Not a subsequence ----

  function Longest(s: seq<string>): nat {
    if s == [] then 0
    else
      var rest := Longest(s[1..]);
      if |s[0]| > rest then |s[0]| else rest
  }

  lemma {:induction false} LongestIs(s: seq<string>, x: string)
    requires x in s
    ensures |x| <= Longest(s)
  {
    if x != s[0] { LongestIs(s[1..], x); }
  }

  lemma NewTag(s: seq<string>) returns (x: string)
    ensures x !in s
  {
    x := seq(Longest(s) + 1, _ => 'v');
    if x in s { LongestIs(s, x); }
  }

  lemma {:induction false} ChangesEndIn(h: seq<string>, change: (string, string))
    requires change in Changes(h)
    ensures change.1 in h
  {
    if |h| > 1 && change != (h[|h| - 2], h[|h| - 1]) {
      ChangesEndIn(h[..|h| - 1], change);
    }
  }

  /** A change to a new version is in the changes only as the last one, from the last version. */
  lemma ChangeToNew(h: seq<string>, tag: string, newer: string)
    requires newer !in h && Last(h) != Some(tag)
    ensures (tag, newer) !in Changes(h + [newer])
  {
    ChangesSnoc(h, newer);
    if (tag, newer) in Changes(h) { ChangesEndIn(h, (tag, newer)); }
  }

  lemma EmbeddedIn<T>(f: seq<nat>, a: seq<T>, b: seq<T>, k: nat)
    requires Embeds(f, a, b) && k < |a|
    ensures a[k] in b
  {
    assert b[f[k]] == a[k];
  }

  lemma NotSubsequence<T>(a: seq<T>, b: seq<T>, x: T)
    requires x in a && x !in b
    ensures !Subsequence(a, b)
  {
    var k :| 0 <= k < |a| && a[k] == x;
    if f :| Embeds(f, a, b) { EmbeddedIn(f, a, b, k); }
  }

  // ---- The converse ----

  ghost predicate AtMostOnceAt(cfg: Config, kv0: map<string, string>, t: State, i: nat)
    requires i < |cfg.services|
  {
    var name := cfg.services[i].name;
    Subsequence(Announced(t.trace, name), Changes(Versions(kv0, t.trace, name)))
  }

  /** In any run up to a SetKV that would change the stored tag, if it fails, then working calls break at-most-once. */
  lemma FailedSaveBreaks(cfg: Config, s0: State, pre: seq<Action>, s: State, i: nat)
    returns (acts: seq<Action>, t: State)
    requires cfg.hasStore && cfg.hasNotifier && SoleWriter(cfg, i)
    requires Initial(s0) && Leads(cfg, s0, pre, s) && SavesHold(cfg, s0, pre, i)
    requires At(s, i) && s.pcs[i].Swapped? && Stored(s, cfg.services[i].name) != Some(s.pcs[i].rel.tag)
    ensures Leads(cfg, s, acts, t) && FailsOnce(acts, i)
    ensures !AtMostOnceAt(cfg, s0.kv, t, i)
  {
    DiskRun(cfg, s0.kv, s0, pre, i);
    acts, t := BreakFrom(cfg, s0.kv, s, i);
  }

  lemma BreakFrom(cfg: Config, kv0: map<string, string>, s: State, i: nat) returns (acts: seq<Action>, t: State)
    requires cfg.hasStore && cfg.hasNotifier && SoleWriter(cfg, i) && IdleInv(cfg, s)
    requires OnDisk(ViewOf(cfg, kv0, s, i))
    requires At(s, i) && s.pcs[i].Swapped? && Stored(s, cfg.services[i].name) != Some(s.pcs[i].rel.tag)
    ensures Leads(cfg, s, acts, t) && FailsOnce(acts, i)
    ensures !AtMostOnceAt(cfg, kv0, t, i)
  {
    var v := ViewOf(cfg, kv0, s, i);
    var tag := v.pc.rel.tag;
    var newer := NewTag(v.versions + [tag]);
    assert Pollable(cfg, i);
    acts, t := FailAndTell(cfg, kv0, s, i, Latest(newer, ""));
    var w := ViewOf(cfg, kv0, t, i);
    ChangeToNew(v.versions, tag, newer);
    NotSubsequence(w.sent, Changes(w.versions), (tag, newer));
  }

  // ---- Over whole runs ----

  lemma {:induction false} SavesHoldAppend(cfg: Config, s: State, a: seq<Action>, b: seq<Action>, i: nat)
    requires i < |cfg.services| && Runs(cfg, s, a) && Runs(cfg, Exec(cfg, s, a), b)
    requires SavesHold(cfg, s, a, i) && SavesHold(cfg, Exec(cfg, s, a), b, i)
    ensures Runs(cfg, s, a + b) && SavesHold(cfg, s, a + b, i)
    decreases a
  {
    ExecAppend(cfg, s, a, b);
    if a == [] {
      assert a + b == b;
    } else {
      assert (a + b)[0] == a[0] && (a + b)[1..] == a[1..] + b;
      SavesHoldAppend(cfg, Next(cfg, s, a[0]), a[1..], b, i);
    }
  }

  lemma {:induction false} Prefix(cfg: Config, s: State, acts: seq<Action>, k: nat, i: nat)
    requires i < |cfg.services| && k <= |acts| && Runs(cfg, s, acts)
    ensures Runs(cfg, s, acts[..k]) && (SavesHold(cfg, s, acts, i) ==> SavesHold(cfg, s, acts[..k], i))
    decreases acts
  {
    if k > 0 {
      assert acts[..k][1..] == acts[1..][..k - 1];
      Prefix(cfg, Next(cfg, s, acts[0]), acts[1..], k - 1, i);
    }
  }

  /** The first failed save of the service that would have changed the stored tag. */
  lemma {:induction false} FirstBreach(cfg: Config, s: State, acts: seq<Action>, i: nat)
    returns (k: nat, t: State)
    requires i < |cfg.services| && Runs(cfg, s, acts) && !SavesHold(cfg, s, acts, i)
    ensures k < |acts| && acts[k] == Save(i, false)
    ensures Leads(cfg, s, acts[..k], t) && SavesHold(cfg, s, acts[..k], i) && Enabled(cfg, t, Save(i, false))
    ensures Stored(t, cfg.services[i].name) != Some(t.pcs[i].rel.tag)
    decreases acts
  {
    if acts[0] == Save(i, false) && Stored(s, cfg.services[i].name) != Some(s.pcs[i].rel.tag) {
      k, t := 0, s;
    } else {
      k, t := FirstBreach(cfg, Next(cfg, s, acts[0]), acts[1..], i);
      k := k + 1;
      assert acts[..k][0] == acts[0] && acts[..k][1..] == acts[1..][..k - 1];
    }
  }

  /** At-most-once holds whenever the run is left at any point and continued with working calls. */
  ghost predicate StaysAtMostOnce(cfg: Config, s: State, acts: seq<Action>, i: nat)
    requires i < |cfg.services|
  {
    forall k: nat, more, t | k <= |acts| && Reliable(more) && Leads(cfg, s, acts[..k] + more, t) ::
      AtMostOnceAt(cfg, s.kv, t, i)
  }

  lemma HoldStays(cfg: Config, s: State, acts: seq<Action>, i: nat, k: nat, more: seq<Action>, t: State)
    requires cfg.hasStore && SoleWriter(cfg, i) && Initial(s) && Runs(cfg, s, acts) && SavesHold(cfg, s, acts, i)
    requires k <= |acts| && Reliable(more) && Leads(cfg, s, acts[..k] + more, t)
    ensures AtMostOnceAt(cfg, s.kv, t, i)
  {
    Prefix(cfg, s, acts, k, i);
    Suffix(cfg, s, acts[..k], more);
    WorkingSavesHold(cfg, Exec(cfg, s, acts[..k]), more, i);
    SavesHoldAppend(cfg, s, acts[..k], more, i);
    AtMostOnce(cfg, s, acts[..k] + more, i);
  }

  lemma {:induction false} Suffix(cfg: Config, s: State, a: seq<Action>, b: seq<Action>)
    requires Runs(cfg, s, a) && Runs(cfg, s, a + b)
    ensures Runs(cfg, Exec(cfg, s, a), b)
    decreases a
  {
    if a == [] {
      assert a + b == b;
    } else {
      assert (a + b)[0] == a[0] && (a + b)[1..] == a[1..] + b;
      Suffix(cfg, Next(cfg, s, a[0]), a[1..], b);
    }
  }

  lemma BreachShows(cfg: Config, s: State, acts: seq<Action>, i: nat)
    requires cfg.hasStore && cfg.hasNotifier && SoleWriter(cfg, i)
    requires Initial(s) && Runs(cfg, s, acts) && !SavesHold(cfg, s, acts, i)
    ensures !StaysAtMostOnce(cfg, s, acts, i)
  {
    var k, u := FirstBreach(cfg, s, acts, i);
    var fail, t := FailedSaveBreaks(cfg, s, acts[..k], u, i);
    var all := Compose(cfg, s, acts[..k], u, fail, t);
    SplitAfter(acts, k, fail);
    assert Leads(cfg, s, acts[..k + 1] + fail[1..], t) && !AtMostOnceAt(cfg, s.kv, t, i);
  }

  lemma SplitAfter(acts: seq<Action>, k: nat, fail: seq<Action>)
    requires k < |acts| && fail != [] && fail[0] == acts[k]
    ensures acts[..k] + fail == acts[..k + 1] + fail[1..]
  {
    assert acts[..k + 1] == acts[..k] + [acts[k]];
    assert fail == [acts[k]] + fail[1..];
  }

  /**
   Exactly which runs keep announcements at most once, whatever working calls follow at whatever point: those in
   which SetKV fails for the service only when it would not have changed the stored tag.
   */
  lemma AtMostOnceIff(cfg: Config, s: State, acts: seq<Action>, i: nat)
    requires cfg.hasStore && cfg.hasNotifier && SoleWriter(cfg, i) && Initial(s) && Runs(cfg, s, acts)
    ensures StaysAtMostOnce(cfg, s, acts, i) <==> SavesHold(cfg, s, acts, i)
  {
    if SavesHold(cfg, s, acts, i) {
      forall k: nat, more, t | k <= |acts| && Reliable(more) && Leads(cfg, s, acts[..k] + more, t)
        ensures AtMostOnceAt(cfg, s.kv, t, i)
      {
        HoldStays(cfg, s, acts, i, k, more, t);
      }
    } else {
      BreachShows(cfg, s, acts, i);
    }
  }
}
