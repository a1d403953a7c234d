/**
 Announcements when several configured services share a name: their goroutines swap the one entry in memory in
 any order and announce later, in any other order.
 */
module DaemonShared {
  import opened Wrappers
  import opened DaemonModel
  import opened DaemonRuns
  import opened Multisets

  /** What a goroutine has still to announce under a name. */
  function Owed(cfg: Config, j: nat, pc: Pc, name: string): multiset<(string, string)>
    requires j < |cfg.services|
  {
    if cfg.services[j].name == name && Midway(pc) && IsNew(pc.prev, pc.rel.tag)
    then multiset{(pc.prev.value, pc.rel.tag)} else multiset{}
  }

  function AllOwed(cfg: Config, pcs: seq<Pc>, name: string): seq<multiset<(string, string)>>
    requires |pcs| <= |cfg.services|
  {
    seq(|pcs|, j requires 0 <= j < |pcs| => Owed(cfg, j, pcs[j], name))
  }

  /** What all goroutines have still to announce under a name. */
  function Due(cfg: Config, pcs: seq<Pc>, name: string): multiset<(string, string)>
    requires |pcs| <= |cfg.services|
  {
    Sum(AllOwed(cfg, pcs, name))
  }

  lemma DueUpdate(cfg: Config, pcs: seq<Pc>, i: nat, pc: Pc, name: string)
    requires i < |pcs| <= |cfg.services|
    ensures Due(cfg, pcs[i := pc], name) + Owed(cfg, i, pcs[i], name) == Due(cfg, pcs, name) + Owed(cfg, i, pc, name)
  {
    assert AllOwed(cfg, pcs[i := pc], name) == AllOwed(cfg, pcs, name)[i := Owed(cfg, i, pc, name)];
    SumUpdate(AllOwed(cfg, pcs, name), i, Owed(cfg, i, pc, name));
  }

  /** A step that owes as much as before. */
  lemma DueKept(cfg: Config, pcs: seq<Pc>, i: nat, pc: Pc, name: string)
    requires i < |pcs| <= |cfg.services| && Owed(cfg, i, pc, name) == Owed(cfg, i, pcs[i], name)
    ensures Due(cfg, pcs[i := pc], name) == Due(cfg, pcs, name)
  {
    DueUpdate(cfg, pcs, i, pc, name);
    Cancel(Due(cfg, pcs[i := pc], name), Due(cfg, pcs, name), Owed(cfg, i, pc, name));
  }

  lemma DueMore(cfg: Config, pcs: seq<Pc>, i: nat, pc: Pc, name: string)
    requires i < |pcs| <= |cfg.services| && !Midway(pcs[i])
    ensures Due(cfg, pcs[i := pc], name) == Due(cfg, pcs, name) + Owed(cfg, i, pc, name)
  {
    DueUpdate(cfg, pcs, i, pc, name);
    assert Owed(cfg, i, pcs[i], name) == multiset{};
  }

  lemma DueLess(cfg: Config, pcs: seq<Pc>, i: nat, pc: Pc, name: string)
    requires i < |pcs| <= |cfg.services| && !Midway(pc)
    ensures Due(cfg, pcs, name) == Due(cfg, pcs[i := pc], name) + Owed(cfg, i, pcs[i], name)
  {
    DueUpdate(cfg, pcs, i, pc, name);
    assert Owed(cfg, i, pc, name) == multiset{};
  }

  lemma NothingDue(cfg: Config, pcs: seq<Pc>, name: string)
    requires |pcs| <= |cfg.services|
    requires forall j | 0 <= j < |pcs| :: !Midway(pcs[j])
    ensures Due(cfg, pcs, name) == multiset{}
  {
    SumNone(AllOwed(cfg, pcs, name));
  }

  // ---- One name ----

  /** All that concerns one name, but for what its goroutines have still to announce. */
  datatype Board = Board(
    current: Option<string>, stored: Option<string>, history: seq<string>, sent: seq<(string, string)>)

  function BoardOf(s: State, name: string): Board {
    Board(Known(s, name), Stored(s, name), History(s.trace, name), Announced(s.trace, name))
  }

  /** Memory holds the last value seen, and what was announced or is open is the changes between values seen. */
  ghost predicate Squares(b: Board, open: multiset<(string, string)>) {
    && b.current == Last(b.history)
    && multiset(b.sent) + open == multiset(Changes(b.history))
  }

  /** A new value in memory opens the change to it, if it is one. */
  function Change(current: Option<string>, tag: string): multiset<(string, string)> {
    if IsNew(current, tag) then multiset{(current.value, tag)} else multiset{}
  }

  lemma SquaresNew(b: Board, open: multiset<(string, string)>, tag: string)
    requires Squares(b, open)
    ensures Squares(b.(current := Some(tag), history := b.history + [tag]), open + Change(b.current, tag))
  {
    Snoc(b.history, tag);
    ChangesSnoc(b.history, tag);
    if IsNew(b.current, tag) {
      var change := (b.current.value, tag);
      assert multiset(Changes(b.history) + [change]) == multiset(Changes(b.history)) + multiset{change};
    }
  }

  lemma SquaresAnnounce(b: Board, open: multiset<(string, string)>, change: (string, string))
    requires Squares(b, open + multiset{change})
    ensures Squares(b.(sent := b.sent + [change]), open)
  {
    Append(b.sent, change, open);
  }

  // ---- Steps ----

  /** The store holds another value for the name than memory, and it is read. */
  predicate Surprises(cfg: Config, s: State, a: Action, name: string) {
    && a.LoadOne? && a.ok && cfg.hasStore
    && s.phase.Loading? && s.phase.next < |cfg.services| && cfg.services[s.phase.next].name == name
    && Stored(s, name).Some? && IsNew(Known(s, name), Stored(s, name).value)
  }

  /** The change that such a reading makes and nobody announces. */
  function MissedBy(cfg: Config, s: State, a: Action, name: string): multiset<(string, string)> {
    if Surprises(cfg, s, a, name) then multiset{(Known(s, name).value, Stored(s, name).value)} else multiset{}
  }

  lemma BoardSwap(cfg: Config, s: State, i: nat, name: string)
    requires IdleInv(cfg, s) && Enabled(cfg, s, Swap(i))
    ensures
      var b, tag := BoardOf(s, name), s.pcs[i].rel.tag;
      BoardOf(Next(cfg, s, Swap(i)), name) ==
        if cfg.services[i].name == name then b.(current := Some(tag), history := b.history + [tag]) else b
  {
    TraceSnoc(map[], s.trace, Seen(cfg.services[i].name, s.pcs[i].rel.tag), name);
  }

  lemma DueSwap(cfg: Config, s: State, i: nat, name: string)
    requires IdleInv(cfg, s) && Enabled(cfg, s, Swap(i))
    ensures
      var due := Due(cfg, s.pcs, name);
      Due(cfg, Next(cfg, s, Swap(i)).pcs, name) ==
        if cfg.services[i].name == name then due + Change(Known(s, name), s.pcs[i].rel.tag) else due
  {
    var pc, due := Swapped(Known(s, cfg.services[i].name), s.pcs[i].rel), Due(cfg, s.pcs, name);
    assert Next(cfg, s, Swap(i)).pcs == s.pcs[i := pc];
    DueMore(cfg, s.pcs, i, pc, name);
    if cfg.services[i].name != name { NoMore(due); }
  }

  lemma SquareSwap(cfg: Config, s: State, i: nat, name: string, missed: multiset<(string, string)>)
    requires IdleInv(cfg, s) && Enabled(cfg, s, Swap(i))
    requires Squares(BoardOf(s, name), Due(cfg, s.pcs, name) + missed)
    ensures
      var t := Next(cfg, s, Swap(i));
      Squares(BoardOf(t, name), Due(cfg, t.pcs, name) + missed)
  {
    BoardSwap(cfg, s, i, name);
    DueSwap(cfg, s, i, name);
    if cfg.services[i].name == name {
      var due, change := Due(cfg, s.pcs, name), Change(Known(s, name), s.pcs[i].rel.tag);
      SquaresNew(BoardOf(s, name), due + missed, s.pcs[i].rel.tag);
      Regroup(due, missed, change);
    }
  }

  lemma BoardAnnounce(cfg: Config, s: State, i: nat, name: string)
    requires cfg.hasNotifier && IdleInv(cfg, s) && Enabled(cfg, s, Announce(i))
    ensures
      var b, pc := BoardOf(s, name), s.pcs[i];
      BoardOf(Next(cfg, s, Announce(i)), name) ==
        if cfg.services[i].name == name && IsNew(pc.prev, pc.rel.tag)
        then b.(sent := b.sent + [(pc.prev.value, pc.rel.tag)]) else b
  {
    var pc := s.pcs[i];
    if IsNew(pc.prev, pc.rel.tag) {
      TraceSnoc(map[], s.trace, Notified(cfg.services[i].name, pc.prev.value, pc.rel.tag), name);
    }
  }

  lemma DueAnnounce(cfg: Config, s: State, i: nat, name: string)
    requires IdleInv(cfg, s) && Enabled(cfg, s, Announce(i))
    ensures Due(cfg, s.pcs, name) == Due(cfg, Next(cfg, s, Announce(i)).pcs, name) + Owed(cfg, i, s.pcs[i], name)
  {
    var pc := Finished(Some(s.pcs[i].rel));
    assert Next(cfg, s, Announce(i)).pcs == s.pcs[i := pc];
    DueLess(cfg, s.pcs, i, pc, name);
  }

  lemma SquareAnnounce(cfg: Config, s: State, i: nat, name: string, missed: multiset<(string, string)>)
    requires cfg.hasNotifier && IdleInv(cfg, s) && Enabled(cfg, s, Announce(i))
    requires Squares(BoardOf(s, name), Due(cfg, s.pcs, name) + missed)
    ensures
      var t := Next(cfg, s, Announce(i));
      Squares(BoardOf(t, name), Due(cfg, t.pcs, name) + missed)
  {
    var pc, due := s.pcs[i], Due(cfg, Next(cfg, s, Announce(i)).pcs, name);
    BoardAnnounce(cfg, s, i, name);
    DueAnnounce(cfg, s, i, name);
    if cfg.services[i].name == name && IsNew(pc.prev, pc.rel.tag) {
      var change := (pc.prev.value, pc.rel.tag);
      Regroup(due, multiset{change}, missed);
      SquaresAnnounce(BoardOf(s, name), due + missed, change);
    } else {
      NoMore(due);
    }
  }

  /** Fetching, saving and recording open nothing, and change at most what is stored. */
  lemma QuietTurn(cfg: Config, s: State, a: Action, name: string)
    requires IdleInv(cfg, s) && Enabled(cfg, s, a) && (a.Fetch? || a.Save? || a.Record?)
    ensures
      var t := Next(cfg, s, a);
      && BoardOf(t, name) == BoardOf(s, name).(stored := Stored(t, name))
      && Due(cfg, t.pcs, name) == Due(cfg, s.pcs, name)
  {
    DueQuiet(cfg, s, a, name);
    if a.Save? { TraceSnoc(map[], s.trace, Persisted(cfg.services[a.i].name, s.pcs[a.i].rel.tag), name); }
  }

  lemma DueQuiet(cfg: Config, s: State, a: Action, name: string)
    requires IdleInv(cfg, s) && Enabled(cfg, s, a) && (a.Fetch? || a.Save? || a.Record?)
    ensures Due(cfg, Next(cfg, s, a).pcs, name) == Due(cfg, s.pcs, name)
  {
    var pc := Next(cfg, s, a).pcs[a.i];
    assert Next(cfg, s, a).pcs == s.pcs[a.i := pc];
    DueKept(cfg, s.pcs, a.i, pc, name);
  }

  lemma BoardLoad(cfg: Config, s: State, ok: bool, name: string)
    requires IdleInv(cfg, s) && Enabled(cfg, s, LoadOne(ok))
    ensures
      var b, b' := BoardOf(s, name), BoardOf(Next(cfg, s, LoadOne(ok)), name);
      if cfg.hasStore && ok && cfg.services[s.phase.next].name == name && b.stored.Some?
      then b' == b.(current := b.stored, history := b.history + [b.stored.value]) else b' == b
  {
    var loaded := cfg.services[s.phase.next].name;
    if Stored(s, loaded).Some? { TraceSnoc(map[], s.trace, Loaded(loaded, s.kv[loaded]), name); }
  }

  lemma SquareLoad(cfg: Config, s: State, ok: bool, name: string, open: multiset<(string, string)>)
    requires IdleInv(cfg, s) && Enabled(cfg, s, LoadOne(ok)) && Squares(BoardOf(s, name), open)
    ensures Squares(BoardOf(Next(cfg, s, LoadOne(ok)), name), open + MissedBy(cfg, s, LoadOne(ok), name))
  {
    var b := BoardOf(s, name);
    BoardLoad(cfg, s, ok, name);
    if cfg.hasStore && ok && cfg.services[s.phase.next].name == name && b.stored.Some? {
      SquaresNew(b, open, b.stored.value);
    } else {
      NoMore(open);
    }
  }

  /** Outside the goroutines and without a crash nothing is due, before and after. */
  lemma DueRest(cfg: Config, s: State, a: Action, name: string)
    requires IdleInv(cfg, s) && Enabled(cfg, s, a) && !Goroutine(a) && InLife(a)
    requires s.phase != Polling ==> Due(cfg, s.pcs, name) == multiset{}
    ensures Due(cfg, s.pcs, name) == Due(cfg, Next(cfg, s, a).pcs, name) == multiset{}
  {
    var pcs := Next(cfg, s, a).pcs;
    if a.BeginPoll? {
      NothingDue(cfg, pcs, name);
    } else {
      assert pcs == s.pcs;
      if a.EndPoll? { NothingDue(cfg, pcs, name); }
    }
  }

  // ---- Runs ----

  /** One life of the daemon: no crash. */
  predicate InLife(a: Action) {
    !a.Crash? && !a.Boot?
  }

  /** The books balance, and between polls nothing is due. */
  ghost predicate Shared(cfg: Config, s: State, name: string, missed: multiset<(string, string)>) {
    && IdleInv(cfg, s)
    && Squares(BoardOf(s, name), Due(cfg, s.pcs, name) + missed)
    && (s.phase != Polling ==> Due(cfg, s.pcs, name) == multiset{})
  }

  lemma SharedTurn(cfg: Config, s: State, a: Action, name: string, missed: multiset<(string, string)>)
    requires cfg.hasNotifier && Shared(cfg, s, name, missed) && Enabled(cfg, s, a) && Goroutine(a)
    ensures
      var t := Next(cfg, s, a);
      Squares(BoardOf(t, name), Due(cfg, t.pcs, name) + missed) && t.phase == Polling
  {
    match a
    case Swap(i) => SquareSwap(cfg, s, i, name, missed);
    case Announce(i) => SquareAnnounce(cfg, s, i, name, missed);
    case _ => QuietTurn(cfg, s, a, name);
  }

  lemma SharedRest(cfg: Config, s: State, a: Action, name: string, missed: multiset<(string, string)>)
    requires Shared(cfg, s, name, missed) && Enabled(cfg, s, a) && !Goroutine(a) && InLife(a)
    ensures
      var t := Next(cfg, s, a);
      && Due(cfg, t.pcs, name) == multiset{}
      && Squares(BoardOf(t, name), multiset{} + (missed + MissedBy(cfg, s, a, name)))
  {
    DueRest(cfg, s, a, name);
    NoMore(missed);
    NoMore(missed + MissedBy(cfg, s, a, name));
    if a.LoadOne? {
      SquareLoad(cfg, s, a.ok, name, missed);
    } else {
      assert BoardOf(Next(cfg, s, a), name) == BoardOf(s, name);
    }
  }

  lemma SharedStep(cfg: Config, s: State, a: Action, name: string, missed: multiset<(string, string)>)
    requires cfg.hasNotifier && Shared(cfg, s, name, missed) && Enabled(cfg, s, a) && InLife(a)
    ensures Shared(cfg, Next(cfg, s, a), name, missed + MissedBy(cfg, s, a, name))
  {
    IdleStep(cfg, s, a);
    if Goroutine(a) {
      SharedTurn(cfg, s, a, name, missed);
      NoMore(missed);
    } else {
      SharedRest(cfg, s, a, name, missed);
    }
  }

  /** All changes in a run that a reading of the store makes. */
  function Missed(cfg: Config, s: State, acts: seq<Action>, name: string): multiset<(string, string)>
    requires Runs(cfg, s, acts)
    decreases acts
  {
    if acts == [] then multiset{}
    else MissedBy(cfg, s, acts[0], name) + Missed(cfg, Next(cfg, s, acts[0]), acts[1..], name)
  }

  lemma {:induction false} SharedRun(
    cfg: Config, s: State, acts: seq<Action>, name: string, missed: multiset<(string, string)>)
    requires cfg.hasNotifier && Runs(cfg, s, acts) && (forall k | 0 <= k < |acts| :: InLife(acts[k]))
    requires Shared(cfg, s, name, missed)
    ensures Shared(cfg, Exec(cfg, s, acts), name, missed + Missed(cfg, s, acts, name))
    decreases acts
  {
    if acts == [] {
      NoMore(missed);
    } else {
      var now, s1 := MissedBy(cfg, s, acts[0], name), Next(cfg, s, acts[0]);
      SharedStep(cfg, s, acts[0], name, missed);
      SharedRun(cfg, s1, acts[1..], name, missed + now);
      Regroup(missed, now, Missed(cfg, s1, acts[1..], name));
    }
  }

  lemma Part<T>(part: multiset<T>, rest: multiset<T>)
    ensures part <= part + rest
    ensures part == part + rest <==> rest == multiset{}
  {
    if part == part + rest {
      assert rest == (part + rest) - part;
      assert part - part == multiset{};
    }
  }

  lemma SharedMeaning(cfg: Config, s: State, name: string, missed: multiset<(string, string)>)
    requires Shared(cfg, s, name, missed)
    ensures
      var sent, changes := multiset(Announced(s.trace, name)), multiset(Changes(History(s.trace, name)));
      && sent + missed <= changes
      && (s.phase != Polling ==> sent + missed == changes && (sent == changes <==> missed == multiset{}))
  {
    var sent, due := multiset(Announced(s.trace, name)), Due(cfg, s.pcs, name);
    Regroup(sent, due, missed);
    Part(sent + missed, due);
    Part(sent, missed);
    NoMore(sent + missed);
  }

  /**
   Announcements under a name that any number of services share: in one life of the daemon, under every
   interleaving of the goroutines and with any failing calls, each change of the values seen under the name is
   announced at most once at every moment. Between polls all of them are announced but for those that reading
   the store made, so exactly once if and only if no reading found another value than memory held.
   */
  lemma SharedExactIff(cfg: Config, s: State, acts: seq<Action>, name: string)
    requires cfg.hasNotifier && s.phase == Fresh && s.known == map[] && s.pcs == [] && s.trace == []
    requires Runs(cfg, s, acts) && forall k | 0 <= k < |acts| :: InLife(acts[k])
    ensures
      var end, missed := Exec(cfg, s, acts), Missed(cfg, s, acts, name);
      var h, sent := History(end.trace, name), multiset(Announced(end.trace, name));
      && Known(end, name) == Last(h)
      && sent + missed <= multiset(Changes(h))
      && (end.phase != Polling ==>
            sent + missed == multiset(Changes(h)) && (sent == multiset(Changes(h)) <==> missed == multiset{}))
  {
    var missed := Missed(cfg, s, acts, name);
    NothingDue(cfg, s.pcs, name);
    SharedRun(cfg, s, acts, name, multiset{});
    NoMore(missed);
    SharedMeaning(cfg, Exec(cfg, s, acts), name, missed);
  }

  // ---- When the store is read once ----

  /** While the store is read for the first time, memory holds nothing else than the store. */
  ghost predicate FirstReading(s: State, name: string) {
    && (s.phase == Fresh ==> Known(s, name) == None)
    && (s.phase.Loading? && Known(s, name).Some? ==> Known(s, name) == Stored(s, name))
  }

  lemma FirstReadingStep(cfg: Config, s: State, a: Action, name: string)
    requires FirstReading(s, name) && Sized(cfg, s) && Enabled(cfg, s, a) && InLife(a) && !a.Reload?
    ensures FirstReading(Next(cfg, s, a), name) && MissedBy(cfg, s, a, name) == multiset{}
  {
  }

  lemma {:induction false} FirstReadingRun(cfg: Config, s: State, acts: seq<Action>, name: string)
    requires Runs(cfg, s, acts) && FirstReading(s, name)
    requires forall k | 0 <= k < |acts| :: InLife(acts[k]) && !acts[k].Reload?
    ensures Missed(cfg, s, acts, name) == multiset{}
    decreases acts
  {
    if acts != [] {
      FirstReadingStep(cfg, s, acts[0], name);
      FirstReadingRun(cfg, Next(cfg, s, acts[0]), acts[1..], name);
    }
  }

  /**
   A daemon that reads its store once announces each change under a shared name exactly once between polls.
   Goroutines of one name may announce in another order than they swapped; for a service that is alone with its
   name, ExactAnnouncements has the order too.
   */
  lemma SharedAnnouncements(cfg: Config, s: State, acts: seq<Action>, name: string)
    requires cfg.hasNotifier && s.phase == Fresh && s.known == map[] && s.pcs == [] && s.trace == []
    requires Runs(cfg, s, acts) && forall k | 0 <= k < |acts| :: InLife(acts[k]) && !acts[k].Reload?
    requires Exec(cfg, s, acts).phase != Polling
    ensures
      var trace := Exec(cfg, s, acts).trace;
      multiset(Announced(trace, name)) == multiset(Changes(History(trace, name)))
  {
    SharedExactIff(cfg, s, acts, name);
    FirstReadingRun(cfg, s, acts, name);
  }
}
