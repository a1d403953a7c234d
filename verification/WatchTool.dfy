/**
 The change detection of watch_releases (internal/mcpserver/tools_extended.go). Calls of the tool may overlap
 and service names may repeat: all goroutines of all calls share one map, swap their service's entry under the
 mutex, and notify afterwards, in any order.
 */
module WatchTool {
  import D = DaemonModel

  /** One call of Notify: the service, its old version and its new one. */
  datatype Event = Event(name: string, prev: string, tag: string)

  /**
   The shared map, the notifications that goroutines still have to make, the swaps done so far in the order of
   the mutex, and the calls of Notify made so far.
   */
  datatype State = State(
    known: map<string, string>,
    pending: multiset<Event>,
    swaps: seq<(string, string)>,
    sent: seq<Event>)

  const INITIAL: State := State(map[], multiset{}, [], [])

  datatype Action =
    | Swap(name: string, tag: string)   // the critical section after a successful GetLatestRelease
    | Notify(e: Event)                  // a goroutine calls Notify
    | Skip(name: string)                // a goroutine ends with an error, or without a notification

  predicate Enabled(s: State, a: Action) {
    a.Notify? ==> a.e in s.pending
  }

  /** Reading a missing key of a Go map gives "". */
  function Old(known: map<string, string>, name: string): string {
    if name in known then known[name] else ""
  }

  function Next(s: State, a: Action): State
    requires Enabled(s, a)
  {
    match a
    case Swap(name, tag) =>
      var prev := Old(s.known, name);
      var s1 := s.(known := s.known[name := tag], swaps := s.swaps + [(name, tag)]);
      if prev != "" && prev != tag then s1.(pending := s.pending + multiset{Event(name, prev, tag)}) else s1
    case Notify(e) => s.(pending := s.pending - multiset{e}, sent := s.sent + [e])
    case Skip(_) => s
  }

  ghost predicate Leads(s: State, acts: seq<Action>, t: State)
    decreases acts
  {
    if acts == [] then s == t else Enabled(s, acts[0]) && Leads(Next(s, acts[0]), acts[1..], t)
  }

  /** The swaps among the actions of a run, in the order of the mutex. */
  function SwapsIn(acts: seq<Action>): seq<(string, string)> {
    if acts == [] then []
    else (if acts[0].Swap? then [(acts[0].name, acts[0].tag)] else []) + SwapsIn(acts[1..])
  }

  /** The calls of Notify among the actions of a run. */
  function NotifiesIn(acts: seq<Action>): seq<Event> {
    if acts == [] then [] else (if acts[0].Notify? then [acts[0].e] else []) + NotifiesIn(acts[1..])
  }

  /** The logs of the state are what the run did. */
  lemma {:induction false} LogsAreActions(s: State, acts: seq<Action>, t: State)
    requires Leads(s, acts, t)
    ensures t.swaps == s.swaps + SwapsIn(acts) && t.sent == s.sent + NotifiesIn(acts)
    decreases acts
  {
    if acts != [] { LogsAreActions(Next(s, acts[0]), acts[1..], t); }
  }

  /** The tags a service's entry has been set to. */
  function Tags(swaps: seq<(string, string)>, name: string): seq<string> {
    if swaps == [] then []
    else
      var last, before := swaps[|swaps| - 1], Tags(swaps[..|swaps| - 1], name);
      if last.0 == name then before + [last.1] else before
  }

  /** The changes with a non-empty old version, as events. */
  function Due(name: string, changes: seq<(string, string)>): multiset<Event> {
    if changes == [] then multiset{}
    else
      var last, before := changes[|changes| - 1], Due(name, changes[..|changes| - 1]);
      if last.0 != "" then before + multiset{Event(name, last.0, last.1)} else before
  }

  function LastTag(tags: seq<string>): string {
    if tags == [] then "" else tags[|tags| - 1]
  }

  /** The map holds the last tag, and what was sent or is pending for a service is what its changes call for. */
  ghost predicate Inv(s: State, name: string) {
    && Old(s.known, name) == LastTag(Tags(s.swaps, name))
    && forall e: Event | e.name == name ::
         (multiset(s.sent) + s.pending)[e] == Due(name, D.Changes(Tags(s.swaps, name)))[e]
  }

  lemma DueSnoc(name: string, changes: seq<(string, string)>, change: (string, string))
    ensures Due(name, changes + [change]) ==
      if change.0 != "" then Due(name, changes) + multiset{Event(name, change.0, change.1)} else Due(name, changes)
  {
    assert (changes + [change])[..|changes|] == changes;
  }

  lemma TagsSnoc(swaps: seq<(string, string)>, swap: (string, string), name: string)
    ensures Tags(swaps + [swap], name) == if swap.0 == name then Tags(swaps, name) + [swap.1] else Tags(swaps, name)
  {
    assert (swaps + [swap])[..|swaps|] == swaps;
  }

  lemma SwapStep(s: State, name: string, tag: string, of: string)
    requires Inv(s, of)
    ensures Inv(Next(s, Swap(name, tag)), of)
  {
    TagsSnoc(s.swaps, (name, tag), of);
    if name == of {
      var tags := Tags(s.swaps, name);
      D.ChangesSnoc(tags, tag);
      if tags != [] && tags[|tags| - 1] != tag {
        DueSnoc(name, D.Changes(tags), (tags[|tags| - 1], tag));
      }
    }
  }

  lemma NotifyStep(s: State, e: Event, of: string)
    requires Inv(s, of) && e in s.pending
    ensures Inv(Next(s, Notify(e)), of)
  {
    assert multiset(s.sent + [e]) + (s.pending - multiset{e}) == multiset(s.sent) + s.pending;
  }

  lemma {:induction false} InvRun(s: State, acts: seq<Action>, t: State, name: string)
    requires Inv(s, name) && Leads(s, acts, t)
    ensures Inv(t, name)
    decreases acts
  {
    if acts != [] {
      match acts[0] {
        case Swap(other, tag) => SwapStep(s, other, tag, name);
        case Notify(e) => NotifyStep(s, e, name);
        case Skip(_) =>
      }
      InvRun(Next(s, acts[0]), acts[1..], t, name);
    }
  }

  /**
   Over every interleaving of every number of overlapping calls, duplicate names included: each change of a
   service's entry, in the order of the mutex, is notified at most once, and exactly once when nothing is
   pending, except that a change from the empty tag is not notified.
   */
  lemma EachChangeOnce(acts: seq<Action>, t: State, e: Event)
    requires Leads(INITIAL, acts, t)
    ensures multiset(t.sent)[e] <= Due(e.name, D.Changes(Tags(t.swaps, e.name)))[e]
    ensures t.pending == multiset{} ==> multiset(t.sent)[e] == Due(e.name, D.Changes(Tags(t.swaps, e.name)))[e]
  {
    InvRun(INITIAL, acts, t, e.name);
  }

  lemma {:induction false} DueIsAllIff(name: string, changes: seq<(string, string)>)
    ensures |Due(name, changes)| <= |changes|
    ensures |Due(name, changes)| == |changes| <==> forall k | 0 <= k < |changes| :: changes[k].0 != ""
  {
    if changes != [] {
      var before := changes[..|changes| - 1];
      DueIsAllIff(name, before);
      assert changes == before + [changes[|changes| - 1]];
    }
  }

  lemma {:induction false} DueNamed(name: string, changes: seq<(string, string)>, e: Event)
    requires e.name != name
    ensures Due(name, changes)[e] == 0
  {
    if changes != [] { DueNamed(name, changes[..|changes| - 1], e); }
  }

  /** The notifications sent for one service. */
  function SentFor(sent: seq<Event>, name: string): seq<Event> {
    if sent == [] then []
    else
      var e, before := sent[|sent| - 1], SentFor(sent[..|sent| - 1], name);
      if e.name == name then before + [e] else before
  }

  lemma {:induction false} SentForCounts(sent: seq<Event>, name: string, e: Event)
    ensures multiset(SentFor(sent, name))[e] == if e.name == name then multiset(sent)[e] else 0
  {
    if sent != [] {
      SentForCounts(sent[..|sent| - 1], name, e);
      assert sent == sent[..|sent| - 1] + [sent[|sent| - 1]];
    }
  }

  /** What has been sent for a service, once nothing is pending, is what its changes call for. */
  lemma SentIsDue(acts: seq<Action>, t: State, name: string)
    requires Leads(INITIAL, acts, t) && t.pending == multiset{}
    ensures multiset(SentFor(t.sent, name)) == Due(name, D.Changes(Tags(t.swaps, name)))
  {
    var sent, due := multiset(SentFor(t.sent, name)), Due(name, D.Changes(Tags(t.swaps, name)));
    InvRun(INITIAL, acts, t, name);
    forall e ensures sent[e] == due[e] {
      SentForCounts(t.sent, name, e);
      if e.name != name { DueNamed(name, D.Changes(Tags(t.swaps, name)), e); }
    }
  }

  /**
   Exactly when all changes of a service are notified, over every run that has nothing pending: when none is
   from the empty tag. The daemon, which records whether it has seen a service, has no such exception.
   */
  lemma AllNotifiedIff(acts: seq<Action>, t: State, name: string)
    requires Leads(INITIAL, acts, t) && t.pending == multiset{}
    ensures
      var changes := D.Changes(Tags(t.swaps, name));
      && |SentFor(t.sent, name)| <= |changes|
      && (|SentFor(t.sent, name)| == |changes| <==> forall k | 0 <= k < |changes| :: changes[k].0 != "")
  {
    SentIsDue(acts, t, name);
    assert |multiset(SentFor(t.sent, name))| == |SentFor(t.sent, name)|;
    DueIsAllIff(name, D.Changes(Tags(t.swaps, name)));
  }
}
