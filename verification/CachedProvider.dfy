/**
 The caching provider under concurrency (internal/provider/cached.go over internal/cache/cache.go): threads
 make cached calls whose atomic actions interleave. Get reads the entry under the lock, compares the time
 after releasing it, and deletes an expired entry in a third step; two providers share one cache.
 */
module CachedProvider {
  import opened Wrappers
  import opened Cache
  import opened CacheKeys

  /** A cached value with the dynamic type that the type assertion in the caller looks at. */
  datatype Value =
    | ReleaseList(tags: seq<string>)
    | OneRelease(tag: string)
    | TagList(names: seq<string>)
    | FileContent(content: string)

  function TypeOf(v: Value): Kind {
    match v
    case ReleaseList(_) => Releases
    case OneRelease(_) => Latest
    case TagList(_) => Tags
    case FileContent(_) => File
  }

  /** One invocation of a cached call: its request, the key it computed, and where the log notes its begin. */
  datatype Call = Call(req: Request, key: string, id: nat)

  /** Where a thread stands in a cached call; `looked` is how long the log was when it read the entry. */
  datatype Pc =
    | Idle
    | Looking(call: Call)
    | Checking(call: Call, found: Option<Entry<Value>>, looked: nat)
    | Evicting(call: Call, looked: nat)
    | Asking(call: Call)
    | Storing(call: Call, value: Value)
    | Panicked

  /** What happened, in order: begins and results of calls, answers of the inner provider, changes of the cache. */
  datatype Event =
    | Begun(thread: nat, req: Request, at: int)
    | Answered(call: Call, value: Value, at: int)
    | Stored(key: string, value: Value, at: int)
    | Removed(key: string)
    | Cleared
    | ReturnedFresh(call: Call, value: Value, at: int)
    | ReturnedHit(call: Call, value: Value, at: int)
    | ReturnedError(call: Call, at: int)

  datatype State = State(
    now: int,
    entries: map<string, Entry<Value>>,
    threads: seq<Pc>,
    log: seq<Event>)

  datatype Action =
    | Tick(now: int)
    | Begin(t: nat, req: Request)
    | Look(t: nat)                            // entries[key] under the read lock
    | Check(t: nat)                           // time.Now().After(expiresAt), and the type assertion on a hit
    | Evict(t: nat)                           // Delete(key)
    | Answer(t: nat, answer: Option<Value>)   // the inner provider returns a value or an error
    | Put(t: nat)                             // Set(key, value), and the call returns
    | Drop(key: string)                       // Delete from elsewhere
    | Clear

  predicate At(s: State, t: nat) {
    t < |s.threads|
  }

  predicate Enabled(s: State, a: Action) {
    match a
    case Tick(now) => now >= s.now
    case Begin(t, req) => At(s, t) && s.threads[t].Idle? && WellFormed(req)
    case Look(t) => At(s, t) && s.threads[t].Looking?
    case Check(t) => At(s, t) && s.threads[t].Checking?
    case Evict(t) => At(s, t) && s.threads[t].Evicting?
    case Answer(t, answer) =>
      At(s, t) && s.threads[t].Asking? && (answer.Some? ==> TypeOf(answer.value) == s.threads[t].call.req.kind)
    case Put(t) => At(s, t) && s.threads[t].Storing?
    case Drop(_) => true
    case Clear => true
  }

  function Next(ttl: nat, s: State, a: Action): State
    requires Enabled(s, a)
  {
    match a
    case Tick(now) => s.(now := now)
    case Begin(t, req) =>
      s.(threads := s.threads[t := Looking(Call(req, KeyOf(req), |s.log|))], log := s.log + [Begun(t, req, s.now)])
    case Look(t) =>
      var call := s.threads[t].call;
      s.(threads := s.threads[t := Checking(call, Find(s.entries, call.key), |s.log|)])
    case Check(t) =>
      var call, found := s.threads[t].call, s.threads[t].found;
      if found.None? then s.(threads := s.threads[t := Asking(call)])
      else if Expired(found.value, s.now) then s.(threads := s.threads[t := Evicting(call, s.threads[t].looked)])
      else if TypeOf(found.value.value) != call.req.kind then s.(threads := s.threads[t := Panicked])
      else s.(threads := s.threads[t := Idle], log := s.log + [ReturnedHit(call, found.value.value, s.now)])
    case Evict(t) =>
      var call := s.threads[t].call;
      s.(entries := s.entries - {call.key}, threads := s.threads[t := Asking(call)], log := s.log + [Removed(call.key)])
    case Answer(t, answer) =>
      var call := s.threads[t].call;
      if answer.None? then s.(threads := s.threads[t := Idle], log := s.log + [ReturnedError(call, s.now)])
      else s.(threads := s.threads[t := Storing(call, answer.value)],
              log := s.log + [Answered(call, answer.value, s.now)])
    case Put(t) =>
      var call, value := s.threads[t].call, s.threads[t].value;
      s.(entries := s.entries[call.key := Entry(value, s.now + ttl)],
         threads := s.threads[t := Idle],
         log := s.log + [Stored(call.key, value, s.now)] + [ReturnedFresh(call, value, s.now)])
    case Drop(key) => s.(entries := s.entries - {key}, log := s.log + [Removed(key)])
    case Clear => s.(entries := map[], log := s.log + [Cleared])
  }

  ghost predicate Leads(ttl: nat, s: State, acts: seq<Action>, u: State)
    decreases acts
  {
    if acts == [] then s == u
    else Enabled(s, acts[0]) && Leads(ttl, Next(ttl, s, acts[0]), acts[1..], u)
  }

  function Init(now: int, threads: nat): State {
    State(now, map[], seq(threads, _ => Idle), [])
  }

  // ---- What the log says ----

  /** The invocation began at its place in the log, before position `k`, with this request. */
  ghost predicate BeganBy(log: seq<Event>, call: Call, k: nat) {
    && call.id < k <= |log| && log[call.id].Begun? && log[call.id].req == call.req
    && WellFormed(call.req) && call.key == KeyOf(call.req)
  }

  /** Position `i` says that the inner provider gave this value to a call under this key, not after `at`. */
  ghost predicate AnsweredAt(log: seq<Event>, i: nat, key: string, value: Value, at: int) {
    && i < |log| && log[i].Answered? && log[i].value == value && log[i].at <= at
    && BeganBy(log, log[i].call, i) && log[i].call.key == key && log[i].call.req.kind == TypeOf(value)
  }

  /** Position `j` says that the value was stored under the key at time `at`; it had been answered before. */
  ghost predicate StoredAt(log: seq<Event>, j: nat, key: string, value: Value, at: int) {
    && j < |log| && log[j] == Stored(key, value, at)
    && exists i | 0 <= i < j :: AnsweredAt(log, i, key, value, at)
  }

  ghost predicate WasStored(log: seq<Event>, before: nat, key: string, value: Value, at: int) {
    exists j | 0 <= j < before :: StoredAt(log, j, key, value, at)
  }

  /** Position `i` answers this very invocation, between its begin and time `at`. */
  ghost predicate AnswersCall(log: seq<Event>, i: nat, call: Call, value: Value, at: int) {
    && call.id < i < |log| && log[i].Answered? && log[i].call == call && log[i].value == value
    && log[call.id].Begun? && log[call.id].at <= log[i].at <= at
  }

  /**
   A fresh result was answered to this very invocation, between its begin and its return. A hit was stored
   under the invocation's key, after an answer to a call with that key, at most one TTL before the moment its
   expiry was checked, which falls within the invocation. An error is returned to an invocation that got no answer.
   */
  ghost predicate Sound(ttl: nat, log: seq<Event>, k: nat)
    requires k < |log|
  {
    match log[k]
    case Answered(call, value, at) =>
      BeganBy(log, call, k) && log[call.id].at <= at && TypeOf(value) == call.req.kind
    case Stored(key, value, at) => StoredAt(log, k, key, value, at)
    case ReturnedFresh(call, value, at) =>
      BeganBy(log, call, k) && exists i | 0 <= i < k :: AnswersCall(log, i, call, value, at)
    case ReturnedHit(call, value, at) =>
      && BeganBy(log, call, k) && log[call.id].at <= at
      && exists stored: int :: at - ttl <= stored <= at && WasStored(log, k, call.key, value, stored)
    case ReturnedError(call, at) =>
      && BeganBy(log, call, k) && log[call.id].at <= at
      && forall i | 0 <= i < k && log[i].Answered? :: log[i].call.id != call.id
    case _ => true
  }

  predicate Returns(e: Event) {
    e.ReturnedFresh? || e.ReturnedHit? || e.ReturnedError?
  }

  /** No invocation returns twice, and none is answered twice; so no answer serves two returns. */
  ghost predicate OnceEach(log: seq<Event>) {
    && (forall k, l | 0 <= k < l < |log| && Returns(log[k]) && Returns(log[l]) :: log[k].call.id != log[l].call.id)
    && (forall k, l | 0 <= k < l < |log| && log[k].Answered? && log[l].Answered? :: log[k].call.id != log[l].call.id)
  }

  /** The event changes the entry of the key. */
  predicate Touches(e: Event, key: string) {
    match e
    case Stored(k, _, _) => k == key
    case Removed(k) => k == key
    case Cleared => true
    case _ => false
  }

  /** What the event makes of the entry of the key. */
  function Changed(ttl: nat, before: Option<Entry<Value>>, e: Event, key: string): Option<Entry<Value>> {
    if !Touches(e, key) then before
    else if e.Stored? then Some(Entry(e.value, e.at + ttl))
    else None
  }

  /** The entry that the changes so far leave under the key. */
  function EntryOf(ttl: nat, log: seq<Event>, key: string): Option<Entry<Value>> {
    if log == [] then None
    else Changed(ttl, EntryOf(ttl, log[..|log| - 1], key), log[|log| - 1], key)
  }

  lemma EntryOfSnoc(ttl: nat, log: seq<Event>, e: Event, key: string)
    ensures EntryOf(ttl, log + [e], key) == Changed(ttl, EntryOf(ttl, log, key), e, key)
  {
    assert (log + [e])[..|log|] == log;
  }

  /** Position `j` is the last change of the key, and stores this entry. */
  ghost predicate LastStore(ttl: nat, log: seq<Event>, j: nat, key: string, e: Entry<Value>) {
    j < |log| && log[j] == Stored(key, e.value, e.expiresAt - ttl) && forall k | j < k < |log| :: !Touches(log[k], key)
  }

  /** There is an entry exactly when the last change of the key is a store, and it is what was stored. */
  lemma {:induction false} EntryOfIs(ttl: nat, log: seq<Event>, key: string, e: Entry<Value>)
    ensures EntryOf(ttl, log, key) == Some(e) <==>
      exists j: nat :: LastStore(ttl, log, j, key, e)
  {
    if log != [] {
      var n := |log| - 1;
      var before := log[..n];
      EntryOfIs(ttl, before, key, e);
      if !Touches(log[n], key) {
        assert forall k | 0 <= k < n :: log[k] == before[k];
        if j: nat :| LastStore(ttl, before, j, key, e) {
          assert LastStore(ttl, log, j, key, e);
        }
        if j: nat :| LastStore(ttl, log, j, key, e) {
          assert LastStore(ttl, before, j, key, e);
        }
      } else if log[n] == Stored(key, e.value, e.expiresAt - ttl) {
        assert LastStore(ttl, log, n, key, e);
      }
    }
  }

  // ---- The invariant ----

  /** No result of the invocation is in the log. */
  ghost predicate NotReturned(log: seq<Event>, id: nat) {
    forall k | 0 <= k < |log| && Returns(log[k]) :: log[k].call.id != id
  }

  ghost predicate NotAnswered(log: seq<Event>, id: nat) {
    forall k | 0 <= k < |log| && log[k].Answered? :: log[k].call.id != id
  }

  /** The thread's invocation is under way. */
  ghost predicate UnderWay(log: seq<Event>, now: int, t: nat, call: Call) {
    BeganBy(log, call, |log|) && log[call.id].thread == t && log[call.id].at <= now && NotReturned(log, call.id)
  }

  ghost predicate EntrySound(ttl: nat, log: seq<Event>, now: int, key: string, e: Entry<Value>) {
    e.expiresAt - ttl <= now && WasStored(log, |log|, key, e.value, e.expiresAt - ttl)
  }

  /** What the thread read was the entry at the time, and it has expired. */
  ghost predicate SawExpired(ttl: nat, log: seq<Event>, now: int, key: string, looked: nat) {
    && looked <= |log| && EntryOf(ttl, log[..looked], key).Some?
    && now > EntryOf(ttl, log[..looked], key).value.expiresAt
  }

  ghost predicate ThreadSound(ttl: nat, log: seq<Event>, now: int, t: nat, pc: Pc) {
    match pc
    case Idle => true
    case Looking(call) => UnderWay(log, now, t, call) && NotAnswered(log, call.id)
    case Checking(call, found, looked) =>
      && UnderWay(log, now, t, call) && NotAnswered(log, call.id)
      && looked <= |log| && found == EntryOf(ttl, log[..looked], call.key)
      && (found.Some? ==> EntrySound(ttl, log, now, call.key, found.value))
    case Evicting(call, looked) =>
      UnderWay(log, now, t, call) && NotAnswered(log, call.id) && SawExpired(ttl, log, now, call.key, looked)
    case Asking(call) => UnderWay(log, now, t, call) && NotAnswered(log, call.id)
    case Storing(call, value) =>
      && UnderWay(log, now, t, call) && TypeOf(value) == call.req.kind
      && exists i | 0 <= i < |log| :: AnswersCall(log, i, call, value, now)
    case Panicked => false
  }

  ghost predicate EntriesFollow(ttl: nat, s: State) {
    forall key :: Find(s.entries, key) == EntryOf(ttl, s.log, key)
  }

  ghost predicate LogSound(ttl: nat, log: seq<Event>, now: int) {
    && (forall k | 0 <= k < |log| :: Sound(ttl, log, k))
    && (forall k | 0 <= k < |log| && log[k].Stored? :: log[k].at <= now)
    && OnceEach(log)
  }

  ghost predicate ThreadsSound(ttl: nat, s: State) {
    forall t | 0 <= t < |s.threads| :: ThreadSound(ttl, s.log, s.now, t, s.threads[t])
  }

  ghost predicate Inv(ttl: nat, s: State) {
    EntriesFollow(ttl, s) && LogSound(ttl, s.log, s.now) && ThreadsSound(ttl, s)
  }

  // ---- One more event ----

  lemma StoredGrows(log: seq<Event>, e: Event, before: nat, key: string, value: Value, at: int)
    requires before <= |log| && WasStored(log, before, key, value, at)
    ensures forall k | before <= k :: WasStored(log + [e], k, key, value, at)
  {
    var j :| 0 <= j < before && StoredAt(log, j, key, value, at);
    var i :| 0 <= i < j && AnsweredAt(log, i, key, value, at);
    assert AnsweredAt(log + [e], i, key, value, at);
    assert StoredAt(log + [e], j, key, value, at);
  }

  lemma SoundGrows(ttl: nat, log: seq<Event>, e: Event, k: nat)
    requires k < |log| && Sound(ttl, log, k)
    ensures Sound(ttl, log + [e], k)
  {
    var all := log + [e];
    match log[k]
    case Stored(key, value, at) =>
      var i :| 0 <= i < k && AnsweredAt(log, i, key, value, at);
      assert AnsweredAt(all, i, key, value, at);
    case ReturnedFresh(call, value, at) =>
      var i :| 0 <= i < k && AnswersCall(log, i, call, value, at);
      assert AnswersCall(all, i, call, value, at);
    case ReturnedHit(call, value, at) =>
      var stored: int :| at - ttl <= stored <= at && WasStored(log, k, call.key, value, stored);
      StoredGrows(log, e, k, call.key, value, stored);
      assert WasStored(all, k, call.key, value, stored);
    case _ =>
  }

  /** The event is a result of, or an answer to, the invocation. */
  predicate Settles(e: Event, id: nat) {
    (Returns(e) || e.Answered?) && e.call.id == id
  }

  lemma LogGrows(ttl: nat, log: seq<Event>, now: int, e: Event)
    requires LogSound(ttl, log, now) && Sound(ttl, log + [e], |log|)
    requires e.Stored? ==> e.at <= now
    requires Returns(e) ==> NotReturned(log, e.call.id)
    requires e.Answered? ==> NotAnswered(log, e.call.id)
    ensures LogSound(ttl, log + [e], now)
  {
    forall k | 0 <= k < |log| ensures Sound(ttl, log + [e], k) { SoundGrows(ttl, log, e, k); }
    OnceGrows(log, e);
  }

  lemma OnceGrows(log: seq<Event>, e: Event)
    requires OnceEach(log)
    requires Returns(e) ==> NotReturned(log, e.call.id)
    requires e.Answered? ==> NotAnswered(log, e.call.id)
    ensures OnceEach(log + [e])
  {
    var all := log + [e];
    assert forall k | 0 <= k < |log| :: all[k] == log[k];
  }

  lemma UnderWayGrows(log: seq<Event>, e: Event, now: int, t: nat, call: Call)
    requires UnderWay(log, now, t, call) && !Settles(e, call.id)
    ensures UnderWay(log + [e], now, t, call)
    ensures NotAnswered(log, call.id) ==> NotAnswered(log + [e], call.id)
  {
    var all := log + [e];
    assert forall k | 0 <= k < |log| :: all[k] == log[k];
  }

  /** A thread is not affected by an event that is no result of or answer to its own invocation. */
  lemma ThreadGrows(ttl: nat, log: seq<Event>, e: Event, now: int, t: nat, pc: Pc)
    requires ThreadSound(ttl, log, now, t, pc) && (!pc.Idle? && !pc.Panicked? ==> !Settles(e, pc.call.id))
    ensures ThreadSound(ttl, log + [e], now, t, pc)
  {
    if !pc.Idle? && !pc.Panicked? { UnderWayGrows(log, e, now, t, pc.call); }
    match pc
    case Checking(call, found, looked) =>
      assert (log + [e])[..looked] == log[..looked];
      if found.Some? {
        StoredGrows(log, e, |log|, call.key, found.value.value, found.value.expiresAt - ttl);
      }
    case Evicting(call, looked) =>
      assert (log + [e])[..looked] == log[..looked];
    case Storing(call, value) =>
      var i :| 0 <= i < |log| && AnswersCall(log, i, call, value, now);
      assert AnswersCall(log + [e], i, call, value, now);
    case _ =>
  }

  /** Invocations of different threads are different. */
  lemma OthersApart(ttl: nat, s: State, t: nat, u: nat, e: Event)
    requires ThreadsSound(ttl, s) && At(s, t) && At(s, u) && t != u
    requires !s.threads[t].Idle? && Settles(e, s.threads[t].call.id)
    ensures !s.threads[u].Idle? && !s.threads[u].Panicked? ==> !Settles(e, s.threads[u].call.id)
  {
    assert ThreadSound(ttl, s.log, s.now, t, s.threads[t]);
    assert ThreadSound(ttl, s.log, s.now, u, s.threads[u]);
  }

  /** The threads but `t` after an event of thread `t`, or of no thread. */
  lemma OthersGrow(ttl: nat, s: State, t: nat, e: Event, u: nat)
    requires ThreadsSound(ttl, s) && At(s, u) && t != u
    requires Returns(e) || e.Answered? ==> At(s, t) && !s.threads[t].Idle? && e.call.id == s.threads[t].call.id
    ensures ThreadSound(ttl, s.log + [e], s.now, u, s.threads[u])
  {
    if Returns(e) || e.Answered? { OthersApart(ttl, s, t, u, e); }
    assert ThreadSound(ttl, s.log, s.now, u, s.threads[u]);
    ThreadGrows(ttl, s.log, e, s.now, u, s.threads[u]);
  }

  // ---- Each step ----

  /** An entry comes from a store at most one TTL before its expiry. */
  lemma FoundSound(ttl: nat, log: seq<Event>, now: int, key: string)
    requires LogSound(ttl, log, now) && EntryOf(ttl, log, key).Some?
    ensures EntrySound(ttl, log, now, key, EntryOf(ttl, log, key).value)
  {
    var e := EntryOf(ttl, log, key).value;
    EntryOfIs(ttl, log, key, e);
    var j: nat :| LastStore(ttl, log, j, key, e);
    assert Sound(ttl, log, j);
    assert StoredAt(log, j, key, e.value, e.expiresAt - ttl);
  }

  /** A hit never fails its type assertion, because keys are typed. */
  lemma FoundTypeFits(ttl: nat, log: seq<Event>, now: int, call: Call, e: Entry<Value>)
    requires WellFormed(call.req) && call.key == KeyOf(call.req) && EntrySound(ttl, log, now, call.key, e)
    ensures TypeOf(e.value) == call.req.kind
  {
    var at := e.expiresAt - ttl;
    var j :| 0 <= j < |log| && StoredAt(log, j, call.key, e.value, at);
    var i :| 0 <= i < j && AnsweredAt(log, i, call.key, e.value, at);
    KeysAreTyped(log[i].call.req, call.req);
  }

  /** An event that changes no entry and belongs to thread `t`, or to none. */
  lemma EventStep(ttl: nat, s: State, t: nat, pc: Pc, e: Event)
    requires Inv(ttl, s) && At(s, t) && Sound(ttl, s.log + [e], |s.log|)
    requires !e.Stored? && !e.Removed? && !e.Cleared?
    requires Returns(e) ==> NotReturned(s.log, e.call.id)
    requires e.Answered? ==> NotAnswered(s.log, e.call.id)
    requires Returns(e) || e.Answered? ==> !s.threads[t].Idle? && e.call.id == s.threads[t].call.id
    requires ThreadSound(ttl, s.log + [e], s.now, t, pc)
    ensures Inv(ttl, s.(threads := s.threads[t := pc], log := s.log + [e]))
  {
    var after := s.(threads := s.threads[t := pc], log := s.log + [e]);
    LogGrows(ttl, s.log, s.now, e);
    forall u | 0 <= u < |after.threads| ensures ThreadSound(ttl, after.log, after.now, u, after.threads[u]) {
      if u != t { OthersGrow(ttl, s, t, e, u); }
    }
    forall key ensures Find(after.entries, key) == EntryOf(ttl, after.log, key) { EntryOfSnoc(ttl, s.log, e, key); }
  }

  /** A change of the cache by no thread's result: an eviction, a delete or a clear from elsewhere, or a store. */
  lemma CacheStep(ttl: nat, s: State, entries: map<string, Entry<Value>>, e: Event)
    requires Inv(ttl, s) && Sound(ttl, s.log + [e], |s.log|) && !Returns(e) && !e.Answered?
    requires e.Stored? ==> e.at <= s.now
    requires forall key :: Find(entries, key) == Changed(ttl, Find(s.entries, key), e, key)
    ensures Inv(ttl, s.(entries := entries, log := s.log + [e]))
  {
    var after := s.(entries := entries, log := s.log + [e]);
    LogGrows(ttl, s.log, s.now, e);
    forall u | 0 <= u < |after.threads| ensures ThreadSound(ttl, after.log, after.now, u, after.threads[u]) {
      assert ThreadSound(ttl, s.log, s.now, u, s.threads[u]);
      ThreadGrows(ttl, s.log, e, s.now, u, s.threads[u]);
    }
    forall key ensures Find(after.entries, key) == EntryOf(ttl, after.log, key) { EntryOfSnoc(ttl, s.log, e, key); }
  }

  /** A thread moves and nothing else changes. */
  lemma MoveStep(ttl: nat, s: State, t: nat, pc: Pc)
    requires Inv(ttl, s) && At(s, t) && ThreadSound(ttl, s.log, s.now, t, pc)
    ensures Inv(ttl, s.(threads := s.threads[t := pc]))
  {
    var after := s.(threads := s.threads[t := pc]);
    forall u | 0 <= u < |after.threads| ensures ThreadSound(ttl, after.log, after.now, u, after.threads[u]) {
      if u != t { assert ThreadSound(ttl, s.log, s.now, u, s.threads[u]); }
    }
  }

  lemma TickStep(ttl: nat, s: State, now: int)
    requires Inv(ttl, s) && s.now <= now
    ensures Inv(ttl, s.(now := now))
  {
    forall t | 0 <= t < |s.threads| ensures ThreadSound(ttl, s.log, now, t, s.threads[t]) {
      var pc := s.threads[t];
      assert ThreadSound(ttl, s.log, s.now, t, pc);
      if pc.Storing? {
        var i :| 0 <= i < |s.log| && AnswersCall(s.log, i, pc.call, pc.value, s.now);
        assert AnswersCall(s.log, i, pc.call, pc.value, now);
      }
    }
  }

  /** Nothing in a sound log refers to a position past its end. */
  lemma NewIdUnused(ttl: nat, log: seq<Event>, now: int)
    requires LogSound(ttl, log, now)
    ensures NotReturned(log, |log|) && NotAnswered(log, |log|)
  {
    forall k | 0 <= k < |log| && (Returns(log[k]) || log[k].Answered?) ensures log[k].call.id != |log| {
      assert Sound(ttl, log, k);
    }
  }

  lemma BeginStep(ttl: nat, s: State, t: nat, req: Request)
    requires Inv(ttl, s) && Enabled(s, Begin(t, req))
    ensures Inv(ttl, Next(ttl, s, Begin(t, req)))
  {
    var e, call := Begun(t, req, s.now), Call(req, KeyOf(req), |s.log|);
    NewIdUnused(ttl, s.log, s.now);
    assert (s.log + [e])[|s.log|] == e;
    assert forall k | 0 <= k < |s.log| :: (s.log + [e])[k] == s.log[k];
    EventStep(ttl, s, t, Looking(call), e);
  }

  lemma CheckStep(ttl: nat, s: State, t: nat)
    requires Inv(ttl, s) && Enabled(s, Check(t))
    ensures Inv(ttl, Next(ttl, s, Check(t)))
  {
    var pc := s.threads[t];
    assert ThreadSound(ttl, s.log, s.now, t, pc);
    if pc.found.None? {
      MoveStep(ttl, s, t, Asking(pc.call));
    } else {
      FoundTypeFits(ttl, s.log, s.now, pc.call, pc.found.value);
      if Expired(pc.found.value, s.now) {
        MoveStep(ttl, s, t, Evicting(pc.call, pc.looked));
      } else {
        HitStep(ttl, s, t);
      }
    }
  }

  lemma HitStep(ttl: nat, s: State, t: nat)
    requires Inv(ttl, s) && At(s, t) && s.threads[t].Checking? && s.threads[t].found.Some?
    requires !Expired(s.threads[t].found.value, s.now)
    ensures
      var e := ReturnedHit(s.threads[t].call, s.threads[t].found.value.value, s.now);
      Inv(ttl, s.(threads := s.threads[t := Idle], log := s.log + [e]))
  {
    var call, found := s.threads[t].call, s.threads[t].found.value;
    var e, stored := ReturnedHit(call, found.value, s.now), found.expiresAt - ttl;
    assert ThreadSound(ttl, s.log, s.now, t, s.threads[t]);
    StoredGrows(s.log, e, |s.log|, call.key, found.value, stored);
    assert s.now - ttl <= stored <= s.now && WasStored(s.log + [e], |s.log|, call.key, found.value, stored);
    assert (s.log + [e])[|s.log|] == e && (s.log + [e])[call.id] == s.log[call.id];
    EventStep(ttl, s, t, Idle, e);
  }

  lemma EvictStep(ttl: nat, s: State, t: nat)
    requires Inv(ttl, s) && Enabled(s, Evict(t))
    ensures Inv(ttl, Next(ttl, s, Evict(t)))
  {
    var call := s.threads[t].call;
    assert ThreadSound(ttl, s.log, s.now, t, s.threads[t]);
    MoveStep(ttl, s, t, Asking(call));
    var s1 := s.(threads := s.threads[t := Asking(call)]);
    assert (s.log + [Removed(call.key)])[|s.log|] == Removed(call.key);
    CacheStep(ttl, s1, s.entries - {call.key}, Removed(call.key));
  }

  lemma AnswerStep(ttl: nat, s: State, t: nat, answer: Option<Value>)
    requires Inv(ttl, s) && Enabled(s, Answer(t, answer))
    ensures Inv(ttl, Next(ttl, s, Answer(t, answer)))
  {
    var call := s.threads[t].call;
    assert ThreadSound(ttl, s.log, s.now, t, s.threads[t]);
    if answer.None? {
      var e := ReturnedError(call, s.now);
      assert (s.log + [e])[|s.log|] == e && forall k | 0 <= k < |s.log| :: (s.log + [e])[k] == s.log[k];
      EventStep(ttl, s, t, Idle, e);
    } else {
      var e := Answered(call, answer.value, s.now);
      var all := s.log + [e];
      assert all[|s.log|] == e && forall k | 0 <= k < |s.log| :: all[k] == s.log[k];
      assert AnswersCall(all, |s.log|, call, answer.value, s.now);
      EventStep(ttl, s, t, Storing(call, answer.value), e);
    }
  }

  /** After Set and before the return. */
  function AfterSet(ttl: nat, s: State, t: nat): State
    requires Enabled(s, Put(t))
  {
    var call, value := s.threads[t].call, s.threads[t].value;
    s.(entries := s.entries[call.key := Entry(value, s.now + ttl)], log := s.log + [Stored(call.key, value, s.now)])
  }

  lemma StoredSound(ttl: nat, log: seq<Event>, now: int, call: Call, value: Value, i: nat)
    requires BeganBy(log, call, |log|) && TypeOf(value) == call.req.kind
    requires AnswersCall(log, i, call, value, now) && Sound(ttl, log, i)
    ensures Sound(ttl, log + [Stored(call.key, value, now)], |log|)
  {
    var e := Stored(call.key, value, now);
    var all := log + [e];
    assert all[|log|] == e && all[i] == log[i] && all[call.id] == log[call.id];
    assert AnsweredAt(all, i, call.key, value, now);
  }

  lemma StoreStep(ttl: nat, s: State, t: nat)
    requires Inv(ttl, s) && Enabled(s, Put(t))
    ensures Inv(ttl, AfterSet(ttl, s, t))
  {
    var call, value := s.threads[t].call, s.threads[t].value;
    assert ThreadSound(ttl, s.log, s.now, t, s.threads[t]);
    var i :| 0 <= i < |s.log| && AnswersCall(s.log, i, call, value, s.now);
    assert Sound(ttl, s.log, i);
    StoredSound(ttl, s.log, s.now, call, value, i);
    CacheStep(ttl, s, s.entries[call.key := Entry(value, s.now + ttl)], Stored(call.key, value, s.now));
  }

  /** The return after Set. */
  lemma ReturnStep(ttl: nat, s: State, t: nat)
    requires Inv(ttl, s) && At(s, t) && s.threads[t].Storing?
    ensures
      var e := ReturnedFresh(s.threads[t].call, s.threads[t].value, s.now);
      Inv(ttl, s.(threads := s.threads[t := Idle], log := s.log + [e]))
  {
    var call, value := s.threads[t].call, s.threads[t].value;
    assert ThreadSound(ttl, s.log, s.now, t, s.threads[t]);
    var i :| 0 <= i < |s.log| && AnswersCall(s.log, i, call, value, s.now);
    var e := ReturnedFresh(call, value, s.now);
    var all := s.log + [e];
    assert all[|s.log|] == e && all[i] == s.log[i] && all[call.id] == s.log[call.id];
    assert AnswersCall(all, i, call, value, s.now);
    EventStep(ttl, s, t, Idle, e);
  }

  lemma PutStep(ttl: nat, s: State, t: nat)
    requires Inv(ttl, s) && Enabled(s, Put(t))
    ensures Inv(ttl, Next(ttl, s, Put(t)))
  {
    StoreStep(ttl, s, t);
    ReturnStep(ttl, AfterSet(ttl, s, t), t);
  }

  lemma LookStep(ttl: nat, s: State, t: nat)
    requires Inv(ttl, s) && Enabled(s, Look(t))
    ensures Inv(ttl, Next(ttl, s, Look(t)))
  {
    var call := s.threads[t].call;
    var found := Find(s.entries, call.key);
    assert ThreadSound(ttl, s.log, s.now, t, s.threads[t]);
    assert s.log[..|s.log|] == s.log;
    if found.Some? { FoundSound(ttl, s.log, s.now, call.key); }
    MoveStep(ttl, s, t, Checking(call, found, |s.log|));
  }

  lemma Step(ttl: nat, s: State, a: Action)
    requires Inv(ttl, s) && Enabled(s, a)
    ensures Inv(ttl, Next(ttl, s, a))
  {
    match a
    case Tick(now) => TickStep(ttl, s, now);
    case Begin(t, req) => BeginStep(ttl, s, t, req);
    case Look(t) => LookStep(ttl, s, t);
    case Check(t) => CheckStep(ttl, s, t);
    case Evict(t) => EvictStep(ttl, s, t);
    case Answer(t, answer) => AnswerStep(ttl, s, t, answer);
    case Put(t) => PutStep(ttl, s, t);
    case Drop(key) => DropStep(ttl, s, key);
    case Clear => ClearStep(ttl, s);
  }

  lemma DropStep(ttl: nat, s: State, key: string)
    requires Inv(ttl, s)
    ensures Inv(ttl, Next(ttl, s, Drop(key)))
  {
    assert (s.log + [Removed(key)])[|s.log|] == Removed(key);
    CacheStep(ttl, s, s.entries - {key}, Removed(key));
  }

  lemma ClearStep(ttl: nat, s: State)
    requires Inv(ttl, s)
    ensures Inv(ttl, Next(ttl, s, Clear))
  {
    assert (s.log + [Cleared])[|s.log|] == Cleared;
    CacheStep(ttl, s, map[], Cleared);
  }

  lemma {:induction false} InvRun(ttl: nat, s: State, acts: seq<Action>, u: State)
    requires Inv(ttl, s) && Leads(ttl, s, acts, u)
    ensures Inv(ttl, u)
    decreases acts
  {
    if acts != [] {
      Step(ttl, s, acts[0]);
      InvRun(ttl, Next(ttl, s, acts[0]), acts[1..], u);
    }
  }

  // ---- Bounded staleness ----

  /**
   Bounded staleness: over every interleaving of cached calls by any number of threads, with deletes and
   clears thrown in and a clock that never goes back, every value returned was either answered to that very
   invocation, between its begin and its return, or stored at most one TTL before the invocation checked it; and
   an error goes to an invocation without an answer. No invocation returns twice or is answered twice, and no type
   assertion fails.
   */
  lemma BoundedStaleness(ttl: nat, now: int, threads: nat, acts: seq<Action>, u: State)
    requires Leads(ttl, Init(now, threads), acts, u)
    ensures forall k | 0 <= k < |u.log| :: Sound(ttl, u.log, k)
    ensures OnceEach(u.log)
    ensures forall t | 0 <= t < |u.threads| :: u.threads[t] != Panicked
  {
    InvRun(ttl, Init(now, threads), acts, u);
    assert forall t | 0 <= t < |u.threads| :: ThreadSound(ttl, u.log, u.now, t, u.threads[t]);
  }

  /** So every result, fresh or from the cache, is of the kind of value that its call asks for. */
  lemma ResultFits(ttl: nat, now: int, threads: nat, acts: seq<Action>, u: State, k: nat)
    requires Leads(ttl, Init(now, threads), acts, u)
    requires k < |u.log| && (u.log[k].ReturnedFresh? || u.log[k].ReturnedHit?)
    ensures
      var kind, value := u.log[k].call.req.kind, u.log[k].value;
      && (kind == Releases ==> value.ReleaseList?) && (kind == Latest ==> value.OneRelease?)
      && (kind == Tags ==> value.TagList?) && (kind == File ==> value.FileContent?)
  {
    BoundedStaleness(ttl, now, threads, acts, u);
    assert Sound(ttl, u.log, k);
    var call, value, at := u.log[k].call, u.log[k].value, u.log[k].at;
    if u.log[k].ReturnedFresh? {
      var i :| 0 <= i < k && AnswersCall(u.log, i, call, value, at);
      assert Sound(ttl, u.log, i);
    } else {
      var stored: int :| at - ttl <= stored <= at && WasStored(u.log, k, call.key, value, stored);
      var j :| 0 <= j < k && StoredAt(u.log, j, call.key, value, stored);
      var i :| 0 <= i < j && AnsweredAt(u.log, i, call.key, value, stored);
      KeysAreTyped(u.log[i].call.req, call.req);
    }
  }

  /** So every fresh result has an answer of its own, which no other result shares. */
  lemma FreshAnswers(ttl: nat, now: int, threads: nat, acts: seq<Action>, u: State, k: nat) returns (i: nat)
    requires Leads(ttl, Init(now, threads), acts, u) && k < |u.log| && u.log[k].ReturnedFresh?
    ensures i < k && AnswersCall(u.log, i, u.log[k].call, u.log[k].value, u.log[k].at)
    ensures forall l | 0 <= l < |u.log| && l != k && Returns(u.log[l]) :: u.log[l].call != u.log[i].call
    ensures forall l | 0 <= l < |u.log| && l != i && u.log[l].Answered? :: u.log[l].call != u.log[k].call
  {
    BoundedStaleness(ttl, now, threads, acts, u);
    assert Sound(ttl, u.log, k);
    i :| 0 <= i < k && AnswersCall(u.log, i, u.log[k].call, u.log[k].value, u.log[k].at);
  }

  /**
   Over every such run, when the parts of all requests but the last are colon-free, a hit is an old answer to
   the very same request.
   */
  lemma HitAnswersSameRequest(ttl: nat, now: int, threads: nat, acts: seq<Action>, u: State, k: nat) returns (i: nat)
    requires Leads(ttl, Init(now, threads), acts, u)
    requires k < |u.log| && u.log[k].ReturnedHit? && Plain(u.log[k].call.req)
    requires forall j | 0 <= j < |u.log| && u.log[j].Answered? :: Plain(u.log[j].call.req)
    ensures i < k && u.log[i].Answered? && u.log[i].call.req == u.log[k].call.req
    ensures u.log[i].value == u.log[k].value && u.log[i].at <= u.log[k].at
  {
    BoundedStaleness(ttl, now, threads, acts, u);
    assert Sound(ttl, u.log, k);
    i := HitSource(ttl, u.log, k);
  }

  lemma HitSource(ttl: nat, log: seq<Event>, k: nat) returns (i: nat)
    requires k < |log| && Sound(ttl, log, k) && log[k].ReturnedHit? && Plain(log[k].call.req)
    requires forall j | 0 <= j < |log| && log[j].Answered? :: Plain(log[j].call.req)
    ensures i < k && log[i].Answered? && log[i].call.req == log[k].call.req && log[i].value == log[k].value
    ensures log[i].at <= log[k].at
  {
    var call, value, at := log[k].call, log[k].value, log[k].at;
    var stored: int :| at - ttl <= stored <= at && WasStored(log, k, call.key, value, stored);
    var j :| 0 <= j < k && StoredAt(log, j, call.key, value, stored);
    i :| 0 <= i < j && AnsweredAt(log, i, call.key, value, stored);
    PlainKeysInjective(log[i].call.req, call.req);
  }

  // ---- What the expiry check decides ----

  /** Before position `looked` the key was last changed at `j`, by a store of this value at this time. */
  ghost predicate StoredLast(log: seq<Event>, looked: nat, j: nat, key: string, value: Value, at: int) {
    j < looked <= |log| && log[j] == Stored(key, value, at) && forall k | j < k < looked :: !Touches(log[k], key)
  }

  lemma ReadIs(ttl: nat, u: State, t: nat)
    requires Inv(ttl, u) && Enabled(u, Check(t))
    ensures
      var key, looked := u.threads[t].call.key, u.threads[t].looked;
      && looked <= |u.log| && u.threads[t].found == EntryOf(ttl, u.log[..looked], key)
      && (u.threads[t].found.Some? ==> TypeOf(u.threads[t].found.value.value) == u.threads[t].call.req.kind)
  {
    assert ThreadSound(ttl, u.log, u.now, t, u.threads[t]);
    if u.threads[t].found.Some? { FoundTypeFits(ttl, u.log, u.now, u.threads[t].call, u.threads[t].found.value); }
  }

  /**
   A value that was under the key when a call read it, stored at time `at`, is returned as a hit if the check comes
   at most one TTL after that, and otherwise the call goes on to delete it: in every reachable state.
   */
  lemma CheckDecides(
    ttl: nat, now: int, threads: nat, acts: seq<Action>, u: State, t: nat, j: nat, value: Value, at: int)
    requires Leads(ttl, Init(now, threads), acts, u) && Enabled(u, Check(t))
    requires StoredLast(u.log, u.threads[t].looked, j, u.threads[t].call.key, value, at)
    ensures
      var call, looked := u.threads[t].call, u.threads[t].looked;
      Next(ttl, u, Check(t)) ==
        if u.now <= at + ttl
        then u.(threads := u.threads[t := Idle], log := u.log + [ReturnedHit(call, value, u.now)])
        else u.(threads := u.threads[t := Evicting(call, looked)])
  {
    InvRun(ttl, Init(now, threads), acts, u);
    ReadIs(ttl, u, t);
    var key, seen := u.threads[t].call.key, u.log[..u.threads[t].looked];
    var e := Entry(value, at + ttl);
    assert LastStore(ttl, seen, j, key, e);
    EntryOfIs(ttl, seen, key, e);
  }

  /** A call that found nothing under its key asks the inner provider. */
  lemma NothingToCheck(ttl: nat, now: int, threads: nat, acts: seq<Action>, u: State, t: nat)
    requires Leads(ttl, Init(now, threads), acts, u) && Enabled(u, Check(t))
    requires
      forall j: nat, value, at :: !StoredLast(u.log, u.threads[t].looked, j, u.threads[t].call.key, value, at)
    ensures Next(ttl, u, Check(t)) == u.(threads := u.threads[t := Asking(u.threads[t].call)])
  {
    InvRun(ttl, Init(now, threads), acts, u);
    ReadIs(ttl, u, t);
    var key, seen := u.threads[t].call.key, u.log[..u.threads[t].looked];
    if u.threads[t].found.Some? {
      var e := u.threads[t].found.value;
      EntryOfIs(ttl, seen, key, e);
      var j: nat :| LastStore(ttl, seen, j, key, e);
      assert StoredLast(u.log, u.threads[t].looked, j, key, e.value, e.expiresAt - ttl);
    }
  }

  // ---- The racy delete ----

  /** Since position `looked` the key was stored, nothing has changed it after that, and the TTL has not passed. */
  ghost predicate LiveStoreSince(ttl: nat, log: seq<Event>, now: int, looked: nat, key: string) {
    exists j: nat, e :: looked <= j && LastStore(ttl, log, j, key, e) && now <= e.expiresAt
  }

  /** Of an entry read as expired, only a later store can have made a live one. */
  lemma LiveIff(ttl: nat, log: seq<Event>, now: int, looked: nat, key: string)
    requires SawExpired(ttl, log, now, key, looked)
    ensures EntryOf(ttl, log, key).Some? && now <= EntryOf(ttl, log, key).value.expiresAt <==>
      LiveStoreSince(ttl, log, now, looked, key)
  {
    if j: nat, e :| looked <= j && LastStore(ttl, log, j, key, e) && now <= e.expiresAt {
      EntryOfIs(ttl, log, key, e);
    }
    if EntryOf(ttl, log, key).Some? && now <= EntryOf(ttl, log, key).value.expiresAt {
      var e := EntryOf(ttl, log, key).value;
      EntryOfIs(ttl, log, key, e);
      var j: nat :| LastStore(ttl, log, j, key, e);
      EntryOfIs(ttl, log[..looked], key, e);
      assert !LastStore(ttl, log[..looked], j, key, e);
      assert forall k | 0 <= k < looked :: log[..looked][k] == log[k];
    }
  }

  lemma EvictFacts(ttl: nat, u: State, t: nat)
    requires Inv(ttl, u) && Enabled(u, Evict(t))
    ensures
      var key, looked := u.threads[t].call.key, u.threads[t].looked;
      && SawExpired(ttl, u.log, u.now, key, looked) && Find(u.entries, key) == EntryOf(ttl, u.log, key)
      && Find(Next(ttl, u, Evict(t)).entries, key) == None
  {
    assert ThreadSound(ttl, u.log, u.now, t, u.threads[t]);
  }

  /**
   Exactly when the delete after an expired read removes a live entry, in every reachable state: when the last
   change of the key is a store that came after that read, and its TTL has not passed.
   */
  lemma EvictDropsLiveIff(ttl: nat, now: int, threads: nat, acts: seq<Action>, u: State, t: nat)
    requires Leads(ttl, Init(now, threads), acts, u) && Enabled(u, Evict(t))
    ensures
      var key, looked := u.threads[t].call.key, u.threads[t].looked;
      && Find(Next(ttl, u, Evict(t)).entries, key) == None
      && (Hit(u.entries, key, u.now).Some? <==> LiveStoreSince(ttl, u.log, u.now, looked, key))
  {
    InvRun(ttl, Init(now, threads), acts, u);
    EvictFacts(ttl, u, t);
    LiveIff(ttl, u.log, u.now, u.threads[t].looked, u.threads[t].call.key);
  }

  lemma Prepend(ttl: nat, s: State, a: Action, acts: seq<Action>, u: State) returns (all: seq<Action>)
    requires Enabled(s, a) && Leads(ttl, Next(ttl, s, a), acts, u)
    ensures all == [a] + acts && Leads(ttl, s, all, u)
  {
    all := [a] + acts;
    assert all[0] == a && all[1..] == acts;
  }

  /** Two idle threads and an expired entry for a request. */
  predicate Stale(s: State, req: Request) {
    && s.threads == [Idle, Idle] && WellFormed(req)
    && KeyOf(req) in s.entries && Expired(s.entries[KeyOf(req)], s.now)
  }

  /** A first call finds nothing and is about to ask. */
  lemma FirstAsks(ttl: nat, now: int, req: Request) returns (acts: seq<Action>, u: State)
    requires WellFormed(req)
    ensures Leads(ttl, Init(now, 2), acts, u)
    ensures u.threads == [Asking(Call(req, KeyOf(req), 0)), Idle] && u.now == now
  {
    var s := Init(now, 2);
    var s1 := Next(ttl, s, Begin(0, req));
    var s2 := Next(ttl, s1, Look(0));
    assert s1.threads == [Looking(Call(req, KeyOf(req), 0)), Idle];
    assert s2.threads == [Checking(Call(req, KeyOf(req), 0), None, 1), Idle];
    u := Next(ttl, s2, Check(0));
    acts := Prepend(ttl, s2, Check(0), [], u);
    acts := Prepend(ttl, s1, Look(0), acts, u);
    acts := Prepend(ttl, s, Begin(0, req), acts, u);
  }

  /** It stores the answer, and the TTL passes. */
  lemma StoreAndWait(ttl: nat, s: State, c: Call, value: Value) returns (acts: seq<Action>, u: State)
    requires s.threads == [Asking(c), Idle] && c.key == KeyOf(c.req)
    requires WellFormed(c.req) && TypeOf(value) == c.req.kind
    ensures Leads(ttl, s, acts, u) && Stale(u, c.req)
  {
    var later := s.now + ttl + 1;
    var s1 := Next(ttl, s, Answer(0, Some(value)));
    var s2 := Next(ttl, s1, Put(0));
    u := Next(ttl, s2, Tick(later));
    acts := Prepend(ttl, s2, Tick(later), [], u);
    acts := Prepend(ttl, s1, Put(0), acts, u);
    acts := Prepend(ttl, s, Answer(0, Some(value)), acts, u);
  }

  /** Such a state comes up: a first call stores a value, and its TTL passes. */
  lemma StaleIsReachable(ttl: nat, now: int, req: Request, value: Value) returns (acts: seq<Action>, u: State)
    requires WellFormed(req) && TypeOf(value) == req.kind
    ensures Leads(ttl, Init(now, 2), acts, u) && Stale(u, req)
  {
    var ask, s := FirstAsks(ttl, now, req);
    var store;
    store, u := StoreAndWait(ttl, s, Call(req, KeyOf(req), 0), value);
    acts := ask + store;
    LeadsAppend(ttl, Init(now, 2), ask, s, store, u);
  }

  /** Both threads begin the same call. */
  lemma BothBegin(ttl: nat, s: State, req: Request) returns (acts: seq<Action>, u: State)
    requires Stale(s, req)
    ensures Leads(ttl, s, acts, u)
    ensures
      var key, n := KeyOf(req), |s.log|;
      u == s.(threads := [Looking(Call(req, key, n)), Looking(Call(req, key, n + 1))],
              log := s.log + [Begun(0, req, s.now)] + [Begun(1, req, s.now)])
  {
    var s1 := Next(ttl, s, Begin(0, req));
    u := Next(ttl, s1, Begin(1, req));
    acts := Prepend(ttl, s1, Begin(1, req), [], u);
    acts := Prepend(ttl, s, Begin(0, req), acts, u);
  }

  /** Both read the expired entry and decide to delete it. */
  lemma BothDecideToEvict(ttl: nat, s: State, c: Call, d: Call) returns (acts: seq<Action>, u: State)
    requires s.threads == [Looking(c), Looking(d)] && c.key == d.key
    requires c.key in s.entries && Expired(s.entries[c.key], s.now)
    ensures Leads(ttl, s, acts, u)
    ensures u == s.(threads := [Evicting(c, |s.log|), Evicting(d, |s.log|)])
  {
    var s1 := Next(ttl, s, Look(0));
    var s2 := Next(ttl, s1, Look(1));
    var s3 := Next(ttl, s2, Check(0));
    u := Next(ttl, s3, Check(1));
    acts := Prepend(ttl, s3, Check(1), [], u);
    acts := Prepend(ttl, s2, Check(0), acts, u);
    acts := Prepend(ttl, s1, Look(1), acts, u);
    acts := Prepend(ttl, s, Look(0), acts, u);
  }

  /** One deletes, asks and stores; then the other deletes what was stored. */
  lemma LateDelete(ttl: nat, s: State, c: Call, d: Call, looked: nat, value: Value)
    returns (acts: seq<Action>, u: State)
    requires s.threads == [Evicting(c, looked), Evicting(d, looked)] && c.key == d.key && TypeOf(value) == d.req.kind
    ensures Leads(ttl, s, acts, u)
    ensures u.now == s.now && Find(u.entries, c.key) == None && u.threads == [Asking(c), Idle]
    ensures u.log == s.log + [Removed(c.key)] + [Answered(d, value, s.now)] + [Stored(c.key, value, s.now)]
      + [ReturnedFresh(d, value, s.now)] + [Removed(c.key)]
  {
    var s1 := Next(ttl, s, Evict(1));
    var s2 := Next(ttl, s1, Answer(1, Some(value)));
    var s3 := Next(ttl, s2, Put(1));
    u := Next(ttl, s3, Evict(0));
    acts := Prepend(ttl, s3, Evict(0), [], u);
    acts := Prepend(ttl, s2, Put(1), acts, u);
    acts := Prepend(ttl, s1, Answer(1, Some(value)), acts, u);
    acts := Prepend(ttl, s, Evict(1), acts, u);
  }

  /**
   The late delete of a slow reader can remove an entry that was stored this very moment. The value is
   returned all the same; the next caller finds nothing and asks the provider again.
   */
  lemma FreshEntryCanBeDeleted(ttl: nat, s: State, req: Request, value: Value) returns (acts: seq<Action>, u: State)
    requires Stale(s, req) && TypeOf(value) == req.kind
    ensures Leads(ttl, s, acts, u)
    ensures
      var key, n := KeyOf(req), |s.log|;
      var c, d := Call(req, key, n), Call(req, key, n + 1);
      && u.now == s.now && Find(u.entries, key) == None && u.threads == [Asking(c), Idle]
      && u.log == s.log + [Begun(0, req, s.now)] + [Begun(1, req, s.now)]
           + [Removed(key)] + [Answered(d, value, s.now)] + [Stored(key, value, s.now)]
           + [ReturnedFresh(d, value, s.now)] + [Removed(key)]
  {
    var key, n := KeyOf(req), |s.log|;
    var c, d := Call(req, key, n), Call(req, key, n + 1);
    var begin, s1 := BothBegin(ttl, s, req);
    var decide, s2 := BothDecideToEvict(ttl, s1, c, d);
    acts, u := LateDelete(ttl, s2, c, d, |s1.log|, value);
    LeadsAppend(ttl, s1, decide, s2, acts, u);
    LeadsAppend(ttl, s, begin, s1, decide + acts, u);
    acts := begin + (decide + acts);
  }

  lemma {:induction false} LeadsAppend(ttl: nat, s: State, a: seq<Action>, t: State, b: seq<Action>, u: State)
    requires Leads(ttl, s, a, t) && Leads(ttl, t, b, u)
    ensures Leads(ttl, s, a + b, u)
    decreases a
  {
    if a == [] {
      assert a + b == b;
    } else {
      assert (a + b)[0] == a[0] && (a + b)[1..] == a[1..] + b;
      LeadsAppend(ttl, Next(ttl, s, a[0]), a[1..], t, b, u);
    }
  }

  // ---- One call on its own ----

  /** A caching provider over the cache object, one call at a time. */
  class Provider {
    const cache: Cache<Value>

    constructor (cache: Cache<Value>)
      ensures this.cache == cache
    {
      this.cache := cache;
    }

    /**
     A call that looks up at time `asked` and, on a miss, gets `answer` from the inner provider and stores it at
     time `answered`. Errors are passed on and nothing is stored.
     */
    method Fetch(req: Request, asked: int, answer: Option<Value>, answered: int) returns (value: Option<Value>)
      modifies cache
      ensures
        var before, key := old(cache.entries), KeyOf(req);
        if key in before && asked <= before[key].expiresAt then
          value == Some(before[key].value) && cache.entries == before
        else
          && value == answer
          && cache.entries ==
               if answer.Some? then (before - {key})[key := Entry(answer.value, answered + cache.ttl)]
               else before - {key}
    {
      var key := Key(Parts(req));
      value := cache.Get(key, asked);
      if value.None? && answer.Some? {
        cache.Set(key, answer.value, answered);
        value := answer;
      }
    }
  }
}
