/**
 The shutdown handshake of the daemon (internal/daemon/daemon.go): Start runs polls until it sees a closed
 `stopCh` or a cancelled context and closes `stopped` on its way out; Stop closes `stopCh` once and waits
 for `stopped`. Any number of threads may call either.
 */
module StopProtocol {

  /** A channel that is only ever closed; closing it twice panics. */
  datatype Chan = Open | Closed | Panicked

  function Close(c: Chan): Chan {
    if c == Open then Closed else Panicked
  }

  /** sync.Once: the first caller runs the function, the others wait until it is done. */
  datatype Once = Unused | Busy(owner: nat) | Done

  /** A thread in Start. In a poll, `left` goroutines remain to be started and `running` are checking a service. */
  datatype StartPc = NotCalled | Loading | InPoll(left: nat, running: nat) | Selecting | Closing | Exited

  /** A thread in Stop. */
  datatype StopPc = Called | InOnce | LeavingOnce | Waiting | Returned

  datatype State = State(
    starts: seq<StartPc>,
    stops: seq<StopPc>,
    once: Once,
    stopCh: Chan,
    stopped: Chan,
    cancelled: bool)

  function Init(n: nat): State {
    State(seq(n, _ => NotCalled), [], Unused, Open, Open, false)
  }

  datatype Action =
    | CallStart(i: nat)
    | EndLoad(i: nat)      // loadKnownVersions is done, the first poll begins
    | Spawn(i: nat)        // go checkService
    | Finish(i: nat)       // a checkService ends
    | EndPoll(i: nat)      // wg.Wait returns
    | Tick(i: nat)         // select: the ticker fired
    | SeeStop(i: nat)      // select: stopCh is closed
    | SeeCancel(i: nat)    // select: the context is done
    | CloseStopped(i: nat) // deferred close(stopped), and Start returns
    | Cancel               // the caller cancels the context
    | CallStop
    | EnterOnce(j: nat)
    | CloseStopCh(j: nat)
    | LeaveOnce(j: nat)
    | PassOnce(j: nat)     // Do returns without running the function
    | Receive(j: nat)      // <-stopped, and Stop returns

  predicate StartAt(s: State, i: nat, pc: StartPc) {
    i < |s.starts| && s.starts[i] == pc
  }

  predicate StopAt(s: State, j: nat, pc: StopPc) {
    j < |s.stops| && s.stops[j] == pc
  }

  predicate Polls(s: State, i: nat) {
    i < |s.starts| && s.starts[i].InPoll?
  }

  predicate Enabled(s: State, a: Action) {
    match a
    case CallStart(i) => StartAt(s, i, NotCalled)
    case EndLoad(i) => StartAt(s, i, Loading)
    case Spawn(i) => Polls(s, i) && s.starts[i].left > 0
    case Finish(i) => Polls(s, i) && s.starts[i].running > 0
    case EndPoll(i) => StartAt(s, i, InPoll(0, 0))
    case Tick(i) => StartAt(s, i, Selecting)
    case SeeStop(i) => StartAt(s, i, Selecting) && s.stopCh != Open
    case SeeCancel(i) => StartAt(s, i, Selecting) && s.cancelled
    case CloseStopped(i) => StartAt(s, i, Closing)
    case Cancel => true
    case CallStop => true
    case EnterOnce(j) => StopAt(s, j, Called) && s.once == Unused
    case CloseStopCh(j) => StopAt(s, j, InOnce)
    case LeaveOnce(j) => StopAt(s, j, LeavingOnce)
    case PassOnce(j) => StopAt(s, j, Called) && s.once == Done
    case Receive(j) => StopAt(s, j, Waiting) && s.stopped != Open
  }

  /** One step; `services` is the number of configured services. */
  function Next(services: nat, s: State, a: Action): State
    requires Enabled(s, a)
  {
    match a
    case CallStart(i) => s.(starts := s.starts[i := Loading])
    case EndLoad(i) => s.(starts := s.starts[i := InPoll(services, 0)])
    case Spawn(i) => s.(starts := s.starts[i := InPoll(s.starts[i].left - 1, s.starts[i].running + 1)])
    case Finish(i) => s.(starts := s.starts[i := InPoll(s.starts[i].left, s.starts[i].running - 1)])
    case EndPoll(i) => s.(starts := s.starts[i := Selecting])
    case Tick(i) => s.(starts := s.starts[i := InPoll(services, 0)])
    case SeeStop(i) => s.(starts := s.starts[i := Closing])
    case SeeCancel(i) => s.(starts := s.starts[i := Closing])
    case CloseStopped(i) => s.(starts := s.starts[i := Exited], stopped := Close(s.stopped))
    case Cancel => s.(cancelled := true)
    case CallStop => s.(stops := s.stops + [Called])
    case EnterOnce(j) => s.(stops := s.stops[j := InOnce], once := Busy(j))
    case CloseStopCh(j) => s.(stops := s.stops[j := LeavingOnce], stopCh := Close(s.stopCh))
    case LeaveOnce(j) => s.(stops := s.stops[j := Waiting], once := Done)
    case PassOnce(j) => s.(stops := s.stops[j := Waiting])
    case Receive(j) => s.(stops := s.stops[j := Returned])
  }

  ghost predicate Leads(services: nat, s: State, acts: seq<Action>, t: State)
    decreases acts
  {
    if acts == [] then s == t
    else Enabled(s, acts[0]) && Leads(services, Next(services, s, acts[0]), acts[1..], t)
  }

  // ---- Safety ----

  /** Exactly the thread inside Do may close stopCh, and only once. */
  ghost predicate OnceInv(s: State) {
    && (forall j | 0 <= j < |s.stops| :: s.stops[j] == InOnce || s.stops[j] == LeavingOnce ==> s.once == Busy(j))
    && (forall j | 0 <= j < |s.stops| :: s.stops[j] == Waiting || s.stops[j] == Returned ==> s.once == Done)
    && (s.once.Busy? ==> s.once.owner < |s.stops| && s.stops[s.once.owner] in {InOnce, LeavingOnce})
    && s.stopCh ==
         if s.once == Unused || (s.once.Busy? && s.stops[s.once.owner] == InOnce) then Open else Closed
  }

  /** A step of a thread in Stop. */
  predicate StopTurn(a: Action) {
    a.CallStop? || a.EnterOnce? || a.CloseStopCh? || a.LeaveOnce? || a.PassOnce? || a.Receive?
  }

  lemma StopKeepsOnce(services: nat, s: State, a: Action)
    requires OnceInv(s) && Enabled(s, a) && StopTurn(a)
    ensures OnceInv(Next(services, s, a))
  {
  }

  lemma OnceStep(services: nat, s: State, a: Action)
    requires OnceInv(s) && Enabled(s, a)
    ensures OnceInv(Next(services, s, a))
  {
    var t := Next(services, s, a);
    if StopTurn(a) {
      StopKeepsOnce(services, s, a);
    } else {
      assert t.stops == s.stops && t.once == s.once && t.stopCh == s.stopCh;
    }
  }

  /** With one Start, `stopped` is closed by its exit, and no Stop returns before. */
  ghost predicate SingleInv(s: State) {
    && |s.starts| == 1
    && s.stopped == (if s.starts[0] == Exited then Closed else Open)
    && forall j | 0 <= j < |s.stops| && s.stops[j] == Returned :: s.starts[0] == Exited
  }

  lemma SingleStep(services: nat, s: State, a: Action)
    requires SingleInv(s) && Enabled(s, a)
    ensures SingleInv(Next(services, s, a))
    ensures s.starts[0] == Exited ==> Next(services, s, a).starts[0] == Exited
  {
  }

  lemma {:induction false} SingleRun(services: nat, s: State, acts: seq<Action>, t: State)
    requires SingleInv(s) && OnceInv(s) && Leads(services, s, acts, t)
    ensures SingleInv(t) && OnceInv(t)
    ensures s.starts[0] == Exited ==> t.starts[0] == Exited
    decreases acts
  {
    if acts != [] {
      SingleStep(services, s, acts[0]);
      OnceStep(services, s, acts[0]);
      SingleRun(services, Next(services, s, acts[0]), acts[1..], t);
    }
  }

  // ---- What a run has done ----

  /** The checks that a thread in Start has running, and those its poll has yet to start. */
  function Running(pc: StartPc): nat {
    if pc.InPoll? then pc.running else 0
  }

  function ToStart(pc: StartPc): nat {
    if pc.InPoll? then pc.left else 0
  }

  /** How often each action was taken adds up: `done` starts from `before`. */
  ghost predicate Counted(services: nat, s: State, i: nat, done: multiset<Action>)
    requires i < |s.starts|
  {
    && done[Spawn(i)] == done[Finish(i)] + Running(s.starts[i])
    && done[Spawn(i)] + ToStart(s.starts[i]) == services * (done[EndLoad(i)] + done[Tick(i)])
  }

  lemma CountedStep(services: nat, s: State, i: nat, done: multiset<Action>, a: Action)
    requires i < |s.starts| && Counted(services, s, i, done) && Enabled(s, a)
    ensures Counted(services, Next(services, s, a), i, done + multiset{a})
  {
    var now := done + multiset{a};
    if a == EndLoad(i) || a == Tick(i) {
      assert now[EndLoad(i)] + now[Tick(i)] == done[EndLoad(i)] + done[Tick(i)] + 1;
    } else {
      assert now[EndLoad(i)] == done[EndLoad(i)] && now[Tick(i)] == done[Tick(i)];
    }
  }

  lemma {:induction false} CountedRun(
    services: nat, s: State, i: nat, done: multiset<Action>, acts: seq<Action>, t: State)
    requires i < |s.starts| && Counted(services, s, i, done) && Leads(services, s, acts, t)
    ensures |t.starts| == |s.starts| && Counted(services, t, i, done + multiset(acts))
    decreases acts
  {
    if acts == [] {
      assert done + multiset(acts) == done;
    } else {
      CountedStep(services, s, i, done, acts[0]);
      CountedRun(services, Next(services, s, acts[0]), i, done + multiset{acts[0]}, acts[1..], t);
      assert acts == [acts[0]] + acts[1..];
      assert done + multiset(acts) == done + multiset{acts[0]} + multiset(acts[1..]);
    }
  }

  /**
   Every poll starts one check for each service, and no poll is over before all of its checks are: over every
   run, the checks that a thread in Start has started are those it has seen finish and, inside a poll, those still
   running; and they are as many as its polls call for, but for those its current poll has yet to start.
   */
  lemma ChecksAreAwaited(services: nat, n: nat, acts: seq<Action>, s: State, i: nat)
    requires Leads(services, Init(n), acts, s) && i < n
    ensures |s.starts| == n
    ensures
      var pc, done := s.starts[i], multiset(acts);
      && done[Spawn(i)] == done[Finish(i)] + (if pc.InPoll? then pc.running else 0)
      && done[Spawn(i)] + (if pc.InPoll? then pc.left else 0) == services * (done[EndLoad(i)] + done[Tick(i)])
  {
    CountedRun(services, Init(n), i, multiset{}, acts, s);
    assert multiset{} + multiset(acts) == multiset(acts);
  }

  predicate StartTurn(a: Action) {
    a.CallStart? || a.EndLoad? || a.Spawn? || a.Finish? || a.EndPoll? || a.Tick? || a.SeeStop? || a.SeeCancel?
    || a.CloseStopped?
  }

  lemma {:induction false} ExitedRun(services: nat, s: State, acts: seq<Action>, t: State)
    requires s.starts == [Exited] && Leads(services, s, acts, t)
    ensures t.starts == [Exited] && forall k | 0 <= k < |acts| :: !StartTurn(acts[k])
    decreases acts
  {
    if acts != [] { ExitedRun(services, Next(services, s, acts[0]), acts[1..], t); }
  }

  /** How often stopCh was closed in a run, by whatever thread. */
  function Closings(acts: seq<Action>): nat {
    if acts == [] then 0 else (if acts[0].CloseStopCh? then 1 else 0) + Closings(acts[1..])
  }

  function IsClosed(c: Chan): nat {
    if c == Closed then 1 else 0
  }

  lemma SignalsStep(services: nat, s: State, a: Action)
    requires SingleInv(s) && OnceInv(s) && Enabled(s, a)
    ensures
      var t := Next(services, s, a);
      && (t.cancelled <==> s.cancelled || a == Cancel)
      && IsClosed(t.stopCh) == IsClosed(s.stopCh) + (if a.CloseStopCh? then 1 else 0)
      && IsClosed(t.stopped) == IsClosed(s.stopped) + multiset{a}[CloseStopped(0)]
  {
    OnceStep(services, s, a);
  }

  /** Whether the context is cancelled, stopCh closed and `stopped` closed says what the run has done. */
  lemma {:induction false} SignalsRun(services: nat, s: State, acts: seq<Action>, t: State)
    requires |s.starts| == 1 && SingleInv(s) && OnceInv(s) && Leads(services, s, acts, t)
    ensures t.cancelled <==> s.cancelled || Cancel in acts
    ensures IsClosed(t.stopCh) == IsClosed(s.stopCh) + Closings(acts)
    ensures IsClosed(t.stopped) == IsClosed(s.stopped) + multiset(acts)[CloseStopped(0)]
    decreases acts
  {
    if acts != [] {
      SingleStep(services, s, acts[0]);
      OnceStep(services, s, acts[0]);
      SignalsStep(services, s, acts[0]);
      SignalsRun(services, Next(services, s, acts[0]), acts[1..], t);
      assert acts == [acts[0]] + acts[1..];
      assert multiset(acts) == multiset{acts[0]} + multiset(acts[1..]);
    }
  }

  /** Start leaves its loop only for a reason. */
  ghost predicate LeavesForReason(s: State) {
    forall i | 0 <= i < |s.starts| && s.starts[i] in {Closing, Exited} :: s.cancelled || s.stopCh != Open
  }

  lemma {:induction false} ReasonRun(services: nat, s: State, acts: seq<Action>, t: State)
    requires LeavesForReason(s) && Leads(services, s, acts, t)
    ensures LeavesForReason(t)
    decreases acts
  {
    if acts != [] { ReasonRun(services, Next(services, s, acts[0]), acts[1..], t); }
  }

  /**
   With one thread in Start, it is on its way out only after the context was cancelled or some Stop has closed
   stopCh, which happens at most once, and has happened before any Stop waits.
   */
  lemma LeavesOnlyWhenTold(services: nat, acts: seq<Action>, s: State)
    requires Leads(services, Init(1), acts, s)
    ensures Closings(acts) <= 1 && multiset(acts)[CloseStopped(0)] <= 1
    ensures |s.starts| == 1 && (s.starts[0] in {Closing, Exited} ==> Cancel in acts || Closings(acts) == 1)
    ensures forall j | 0 <= j < |s.stops| && s.stops[j] in {Waiting, Returned} :: Closings(acts) == 1
  {
    SingleRun(services, Init(1), acts, s);
    SignalsRun(services, Init(1), acts, s);
    ReasonRun(services, Init(1), acts, s);
  }

  /**
   With Start called by one thread and Stop by any number of them: once some Stop has returned, stopCh was closed
   and Start has returned, each once, and all the checks that were ever started have finished; and in every
   continuation Start takes no further step, so there is no poll and no check ever again. Neither channel is
   closed twice.
   */
  lemma StopMeansStopped(services: nat, acts: seq<Action>, s: State, more: seq<Action>, t: State)
    requires Leads(services, Init(1), acts, s) && Leads(services, s, more, t)
    ensures s.stopCh != Panicked && s.stopped != Panicked
    ensures (exists j | 0 <= j < |s.stops| :: s.stops[j] == Returned) ==>
              && s.starts == t.starts == [Exited]
              && Closings(acts) == 1 && multiset(acts)[CloseStopped(0)] == 1
              && multiset(acts)[Spawn(0)] == multiset(acts)[Finish(0)]
              && forall k | 0 <= k < |more| :: !StartTurn(more[k])
  {
    SingleRun(services, Init(1), acts, s);
    if exists j | 0 <= j < |s.stops| :: s.stops[j] == Returned {
      SignalsRun(services, Init(1), acts, s);
      ChecksAreAwaited(services, 1, acts, s, 0);
      ExitedRun(services, s, more, t);
    }
  }

  /**
   Nobody is stuck: while a Stop has not returned and Start has been called, some thread of the daemon can
   move other than by another tick.
   */
  lemma NoDeadlock(services: nat, acts: seq<Action>, s: State, j: nat) returns (a: Action)
    requires Leads(services, Init(1), acts, s)
    requires |s.starts| == 1 && s.starts[0] != NotCalled && j < |s.stops| && s.stops[j] != Returned
    ensures Enabled(s, a) && !a.Tick? && !a.Cancel? && !a.CallStop? && !a.CallStart?
  {
    SingleRun(services, Init(1), acts, s);
    var start := s.starts[0];
    if start == Loading {
      a := EndLoad(0);
    } else if start.InPoll? {
      a := if start.left > 0 then Spawn(0) else if start.running > 0 then Finish(0) else EndPoll(0);
    } else if start == Closing {
      a := CloseStopped(0);
    } else if s.once.Busy? {
      a := if s.stops[s.once.owner] == InOnce then CloseStopCh(s.once.owner) else LeaveOnce(s.once.owner);
    } else if start == Selecting && s.once == Done {
      a := SeeStop(0);
    } else {
      a := if s.stops[j] == Waiting then Receive(j) else if s.once == Unused then EnterOnce(j) else PassOnce(j);
    }
  }

  /** The steps that threads have left when no tick comes any more. */
  function StartLeft(services: nat, pc: StartPc): nat {
    match pc
    case NotCalled => 0
    case Loading => 4 + 2 * services
    case InPoll(left, running) => 3 + 2 * left + running
    case Selecting => 2
    case Closing => 1
    case Exited => 0
  }

  function StopLeft(pc: StopPc): nat {
    match pc
    case Called => 4
    case InOnce => 3
    case LeavingOnce => 2
    case Waiting => 1
    case Returned => 0
  }

  function StopsLeft(stops: seq<StopPc>): nat {
    if stops == [] then 0 else StopsLeft(stops[..|stops| - 1]) + StopLeft(stops[|stops| - 1])
  }

  lemma {:induction false} StopMoves(stops: seq<StopPc>, j: nat, pc: StopPc)
    requires j < |stops| && StopLeft(pc) < StopLeft(stops[j])
    ensures StopsLeft(stops[j := pc]) < StopsLeft(stops)
  {
    var after, n := stops[j := pc], |stops| - 1;
    if j < n {
      StopMoves(stops[..n], j, pc);
      assert after[..n] == stops[..n][j := pc];
    } else {
      assert after[..n] == stops[..n];
    }
  }

  /** The steps left to one thread in Start and all threads in Stop. */
  function WorkLeft(services: nat, s: State): nat
    requires |s.starts| == 1
  {
    StartLeft(services, s.starts[0]) + StopsLeft(s.stops)
  }

  /** A step that is neither a tick nor a new call nor the caller's cancelling. */
  predicate OwnWork(a: Action) {
    !a.Tick? && !a.CallStart? && !a.CallStop? && !a.Cancel?
  }

  lemma WorkShrinks(services: nat, s: State, a: Action)
    requires |s.starts| == 1 && Enabled(s, a) && OwnWork(a)
    ensures |Next(services, s, a).starts| == 1 && WorkLeft(services, Next(services, s, a)) < WorkLeft(services, s)
  {
    var t := Next(services, s, a);
    if StopTurn(a) {
      assert t.stops == s.stops[a.j := t.stops[a.j]];
      StopMoves(s.stops, a.j, t.stops[a.j]);
    }
  }

  /**
   Between ticks and new calls every run is finite. As NoDeadlock always finds another step while a Stop has not
   returned, threads that keep taking steps reach a state in which all of them have.
   */
  lemma {:induction false} WorkEnds(services: nat, s: State, acts: seq<Action>, t: State)
    requires |s.starts| == 1 && Leads(services, s, acts, t) && forall k | 0 <= k < |acts| :: OwnWork(acts[k])
    ensures |t.starts| == 1 && |acts| + WorkLeft(services, t) <= WorkLeft(services, s)
    decreases acts
  {
    if acts != [] {
      WorkShrinks(services, s, acts[0]);
      WorkEnds(services, Next(services, s, acts[0]), acts[1..], t);
    }
  }

  /** From every state after Start was called, its own steps can bring every Stop to return. */
  lemma {:induction false} AllStopsReturn(services: nat, before: seq<Action>, s: State)
    returns (acts: seq<Action>, t: State)
    requires Leads(services, Init(1), before, s) && |s.starts| == 1 && s.starts[0] != NotCalled
    ensures Leads(services, s, acts, t) && forall k | 0 <= k < |acts| :: OwnWork(acts[k])
    ensures |t.stops| == |s.stops| && forall j | 0 <= j < |t.stops| :: t.stops[j] == Returned
    decreases WorkLeft(services, s)
  {
    if j :| 0 <= j < |s.stops| && s.stops[j] != Returned {
      var a := NoDeadlock(services, before, s, j);
      var s1 := Next(services, s, a);
      WorkShrinks(services, s, a);
      LeadsAppend(services, Init(1), before, s, [a], s1);
      acts, t := AllStopsReturn(services, before + [a], s1);
      acts := Prepend(services, s, a, acts, t);
    } else {
      acts, t := [], s;
    }
  }

  // ---- Two calls of Start ----

  /** No reachable state has a panic, with `n` threads that may call Start. */
  ghost predicate NeverPanics(services: nat, n: nat) {
    forall acts, s | Leads(services, Init(n), acts, s) :: s.stopCh != Panicked && s.stopped != Panicked
  }

  lemma {:induction false} LeadsAppend(services: nat, s: State, a: seq<Action>, t: State, b: seq<Action>, u: State)
    requires Leads(services, s, a, t) && Leads(services, t, b, u)
    ensures Leads(services, s, a + b, u)
    decreases a
  {
    if a == [] {
      assert a + b == b;
    } else {
      assert (a + b)[0] == a[0] && (a + b)[1..] == a[1..] + b;
      LeadsAppend(services, Next(services, s, a[0]), a[1..], t, b, u);
    }
  }

  lemma Prepend(services: nat, s: State, a: Action, acts: seq<Action>, t: State) returns (all: seq<Action>)
    requires Enabled(s, a) && Leads(services, Next(services, s, a), acts, t)
    ensures all == [a] + acts && Leads(services, s, all, t)
  {
    all := [a] + acts;
    assert all[0] == a && all[1..] == acts;
  }

  /** A poll can run to its end, one check after the other. */
  lemma {:induction false} RunPoll(services: nat, s: State, i: nat) returns (acts: seq<Action>)
    requires i < |s.starts| && s.starts[i].InPoll? && s.starts[i].running == 0
    ensures Leads(services, s, acts, s.(starts := s.starts[i := Selecting])) && Tick(i) !in acts
    decreases s.starts[i].left
  {
    var t := s.(starts := s.starts[i := Selecting]);
    if s.starts[i].left == 0 {
      acts := Prepend(services, s, EndPoll(i), [], t);
    } else {
      var s1 := Next(services, s, Spawn(i));
      var s2 := Next(services, s1, Finish(i));
      assert s2.(starts := s2.starts[i := Selecting]) == t;
      acts := RunPoll(services, s2, i);
      acts := Prepend(services, s1, Finish(i), acts, t);
      acts := Prepend(services, s, Spawn(i), acts, t);
    }
  }

  /** Start polls at once and after every tick: any number of ticks comes up. */
  lemma {:induction false} AnyNumberOfTicks(services: nat, k: nat) returns (acts: seq<Action>, s: State)
    ensures Leads(services, Init(1), acts, s) && s == Init(1).(starts := [Selecting])
    ensures multiset(acts)[Tick(0)] == k
  {
    var before: seq<Action>, polling: State;
    if k == 0 {
      before, polling := [CallStart(0), EndLoad(0)], Init(1).(starts := [InPoll(services, 0)]);
      StartsPolling(services);
    } else {
      before, s := AnyNumberOfTicks(services, k - 1);
      polling := Next(services, s, Tick(0));
      LeadsAppend(services, Init(1), before, s, [Tick(0)], polling);
      before := before + [Tick(0)];
    }
    var poll := RunPoll(services, polling, 0);
    s := polling.(starts := polling.starts[0 := Selecting]);
    LeadsAppend(services, Init(1), before, polling, poll, s);
    acts := before + poll;
  }

  /** A Stop called while the daemon waits for its next tick can run to its end. */
  lemma StopWhileWaiting(services: nat, polls: seq<Action>) returns (acts: seq<Action>, s: State)
    requires Leads(services, Init(1), polls, Init(1).(starts := [Selecting]))
    ensures Leads(services, Init(1), polls + acts, s) && Tick(0) !in acts
    ensures |s.stops| == 1 && s.stops[0] == Returned
  {
    var s0 := Init(1).(starts := [Selecting]);
    var s1 := Next(services, s0, CallStop);
    LeadsAppend(services, Init(1), polls, s0, [CallStop], s1);
    var more;
    more, s := AllStopsReturn(services, polls + [CallStop], s1);
    LeadsAppend(services, Init(1), polls + [CallStop], s1, more, s);
    acts := [CallStop] + more;
    assert polls + [CallStop] + more == polls + acts;
  }

  /** After any number of ticks Stop can be called, and then it can run to its end. */
  lemma StopCanReturn(services: nat, k: nat) returns (acts: seq<Action>, s: State)
    ensures Leads(services, Init(1), acts, s) && multiset(acts)[Tick(0)] == k
    ensures s.starts == [Exited] && s.stops == [Returned]
  {
    var polls, s0 := AnyNumberOfTicks(services, k);
    var stop;
    stop, s := StopWhileWaiting(services, polls);
    acts := polls + stop;
    SingleRun(services, Init(1), acts, s);
  }

  lemma StartsPolling(services: nat)
    ensures Leads(services, Init(1), [CallStart(0), EndLoad(0)], Init(1).(starts := [InPoll(services, 0)]))
  {
    var s1 := Next(services, Init(1), CallStart(0));
    var t := Next(services, s1, EndLoad(0));
    var last := Prepend(services, s1, EndLoad(0), [], t);
    var all := Prepend(services, Init(1), CallStart(0), last, t);
    assert all == [CallStart(0), EndLoad(0)] && t == Init(1).(starts := [InPoll(services, 0)]);
  }

  /** Under a cancelled context, a call of Start can poll once and return. */
  lemma StartAndExit(services: nat, s: State, i: nat) returns (acts: seq<Action>)
    requires StartAt(s, i, NotCalled) && s.cancelled
    ensures Leads(services, s, acts, s.(starts := s.starts[i := Exited], stopped := Close(s.stopped)))
  {
    var s1 := Next(services, s, CallStart(i));
    var s2 := Next(services, s1, EndLoad(i));
    var s3 := s2.(starts := s2.starts[i := Selecting]);
    var s4 := Next(services, s3, SeeCancel(i));
    var t := Next(services, s4, CloseStopped(i));
    assert t == s.(starts := s.starts[i := Exited], stopped := Close(s.stopped));
    var poll := RunPoll(services, s2, i);
    acts := Prepend(services, s4, CloseStopped(i), [], t);
    acts := Prepend(services, s3, SeeCancel(i), acts, t);
    LeadsAppend(services, s2, poll, s3, acts, t);
    acts := Prepend(services, s1, EndLoad(i), poll + acts, t);
    acts := Prepend(services, s, CallStart(i), acts, t);
  }

  /** The channels are safe exactly when at most one thread calls Start; Stop may be called freely. */
  lemma PanicFreeIff(services: nat, n: nat)
    ensures NeverPanics(services, n) <==> n <= 1
  {
    var s0 := Init(n);
    if n >= 2 {
      var s1 := Next(services, s0, Cancel);
      var first := StartAndExit(services, s1, 0);
      var s2 := s1.(starts := s1.starts[0 := Exited], stopped := Closed);
      var second := StartAndExit(services, s2, 1);
      var s3 := s2.(starts := s2.starts[1 := Exited], stopped := Panicked);
      LeadsAppend(services, s1, first, s2, second, s3);
      var acts := Prepend(services, s0, Cancel, first + second, s3);
      assert !NeverPanics(services, n);
    } else {
      forall acts, s | Leads(services, s0, acts, s)
        ensures s.stopCh != Panicked && s.stopped != Panicked
      {
        if n == 1 {
          SingleRun(services, s0, acts, s);
        } else {
          NoStartRun(services, s0, acts, s);
        }
      }
    }
  }

  lemma {:induction false} NoStartRun(services: nat, s: State, acts: seq<Action>, t: State)
    requires s.starts == [] && s.stopped == Open && OnceInv(s) && Leads(services, s, acts, t)
    ensures t.stopped == Open && OnceInv(t)
    decreases acts
  {
    if acts != [] {
      OnceStep(services, s, acts[0]);
      NoStartRun(services, Next(services, s, acts[0]), acts[1..], t);
    }
  }
}
