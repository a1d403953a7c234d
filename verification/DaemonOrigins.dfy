/** Where the daemon's rows and effects come from: every field of them is that of a service and of an answer to it. */
module DaemonOrigins {
  import opened Wrappers
  import opened Tables
  import opened DaemonModel
  import opened DaemonRuns

  /** In a run, service `i`, which can be polled, was answered with this release. */
  ghost predicate Answered(cfg: Config, acts: seq<Action>, i: nat, rel: Latest) {
    i < |cfg.services| && cfg.services[i].target.Some? && Fetch(i, Some(rel)) in acts
  }

  /** The row is, field by field, a service's name and platform and the tag and URL it was answered with. */
  ghost predicate IsRowOf(cfg: Config, acts: seq<Action>, r: Row, i: nat, rel: Latest) {
    && Answered(cfg, acts, i, rel)
    && r.service == cfg.services[i].name && r.platform == cfg.services[i].target.value.platform
    && r.tag == rel.tag && r.url == rel.url
  }

  ghost predicate RowFrom(cfg: Config, acts: seq<Action>, r: Row) {
    exists i, rel :: IsRowOf(cfg, acts, r, i, rel)
  }

  /** A service of this name was answered with this tag. */
  ghost predicate TagFrom(cfg: Config, acts: seq<Action>, name: string, tag: string) {
    exists i: nat, rel :: Answered(cfg, acts, i, rel) && cfg.services[i].name == name && rel.tag == tag
  }

  /** The tag was stored from the beginning, or a service of this name was answered with it. */
  ghost predicate Explained(cfg: Config, kv0: map<string, string>, acts: seq<Action>, name: string, tag: string) {
    (name in kv0 && kv0[name] == tag) || TagFrom(cfg, acts, name, tag)
  }

  /** Observed, persisted and announced tags were answers; so were loaded and old ones, or stored from the beginning. */
  ghost predicate EffectFrom(cfg: Config, kv0: map<string, string>, acts: seq<Action>, e: Effect) {
    match e
    case Loaded(name, tag) => Explained(cfg, kv0, acts, name, tag)
    case Seen(name, tag) => TagFrom(cfg, acts, name, tag)
    case Persisted(name, tag) => TagFrom(cfg, acts, name, tag)
    case Notified(name, prev, tag) => Explained(cfg, kv0, acts, name, prev) && TagFrom(cfg, acts, name, tag)
  }

  // ---- The invariant ----

  /** The release a goroutine holds, and the old value it has read, are answers or were stored. */
  ghost predicate PcFrom(cfg: Config, kv0: map<string, string>, acts: seq<Action>, i: nat, pc: Pc) {
    && (Midway(pc) || pc.Fetched? ==> Answered(cfg, acts, i, pc.rel))
    && (Midway(pc) && pc.prev.Some? ==> Explained(cfg, kv0, acts, cfg.services[i].name, pc.prev.value))
  }

  ghost predicate PcsFrom(cfg: Config, kv0: map<string, string>, acts: seq<Action>, pcs: seq<Pc>) {
    forall i | 0 <= i < |pcs| :: PcFrom(cfg, kv0, acts, i, pcs[i])
  }

  ghost predicate ValuesFrom(cfg: Config, kv0: map<string, string>, acts: seq<Action>, values: map<string, string>) {
    forall n | n in values :: Explained(cfg, kv0, acts, n, values[n])
  }

  ghost predicate TraceFrom(cfg: Config, kv0: map<string, string>, acts: seq<Action>, trace: seq<Effect>) {
    forall e | e in trace :: EffectFrom(cfg, kv0, acts, e)
  }

  ghost predicate RowsFrom(cfg: Config, acts: seq<Action>, rows0: seq<Row>, rows: seq<Row>) {
    forall r | r in rows && r !in rows0 :: RowFrom(cfg, acts, r)
  }

  ghost predicate AllFrom(cfg: Config, s0: State, acts: seq<Action>, s: State) {
    && Sized(cfg, s)
    && PcsFrom(cfg, s0.kv, acts, s.pcs)
    && ValuesFrom(cfg, s0.kv, acts, s.known) && ValuesFrom(cfg, s0.kv, acts, s.kv)
    && TraceFrom(cfg, s0.kv, acts, s.trace) && RowsFrom(cfg, acts, s0.rows, s.rows)
  }

  // ---- More actions ----

  lemma AnsweredMore(cfg: Config, acts: seq<Action>, a: Action, i: nat, rel: Latest)
    requires Answered(cfg, acts, i, rel)
    ensures Answered(cfg, acts + [a], i, rel)
  {
  }

  lemma ExplainedMore(cfg: Config, kv0: map<string, string>, acts: seq<Action>, a: Action, name: string, tag: string)
    ensures TagFrom(cfg, acts, name, tag) ==> TagFrom(cfg, acts + [a], name, tag)
    ensures Explained(cfg, kv0, acts, name, tag) ==> Explained(cfg, kv0, acts + [a], name, tag)
  {
    if i: nat, rel :| Answered(cfg, acts, i, rel) && cfg.services[i].name == name && rel.tag == tag {
      AnsweredMore(cfg, acts, a, i, rel);
    }
  }

  lemma PcsMore(cfg: Config, kv0: map<string, string>, acts: seq<Action>, a: Action, pcs: seq<Pc>)
    requires PcsFrom(cfg, kv0, acts, pcs) && |pcs| <= |cfg.services|
    ensures PcsFrom(cfg, kv0, acts + [a], pcs)
  {
    forall i | 0 <= i < |pcs| ensures PcFrom(cfg, kv0, acts + [a], i, pcs[i]) {
      assert PcFrom(cfg, kv0, acts, i, pcs[i]);
      if Midway(pcs[i]) && pcs[i].prev.Some? {
        ExplainedMore(cfg, kv0, acts, a, cfg.services[i].name, pcs[i].prev.value);
      }
    }
  }

  lemma ValuesMore(cfg: Config, kv0: map<string, string>, acts: seq<Action>, a: Action, values: map<string, string>)
    requires ValuesFrom(cfg, kv0, acts, values)
    ensures ValuesFrom(cfg, kv0, acts + [a], values)
  {
    forall n | n in values ensures Explained(cfg, kv0, acts + [a], n, values[n]) {
      ExplainedMore(cfg, kv0, acts, a, n, values[n]);
    }
  }

  lemma TraceMore(cfg: Config, kv0: map<string, string>, acts: seq<Action>, a: Action, trace: seq<Effect>)
    requires TraceFrom(cfg, kv0, acts, trace)
    ensures TraceFrom(cfg, kv0, acts + [a], trace)
  {
    forall e | e in trace ensures EffectFrom(cfg, kv0, acts + [a], e) {
      assert EffectFrom(cfg, kv0, acts, e);
      ExplainedMore(cfg, kv0, acts, a, e.name, e.tag);
      if e.Notified? { ExplainedMore(cfg, kv0, acts, a, e.name, e.prev); }
    }
  }

  lemma RowsMore(cfg: Config, acts: seq<Action>, a: Action, rows0: seq<Row>, rows: seq<Row>)
    requires RowsFrom(cfg, acts, rows0, rows)
    ensures RowsFrom(cfg, acts + [a], rows0, rows)
  {
    forall r | r in rows && r !in rows0 ensures RowFrom(cfg, acts + [a], r) {
      assert RowFrom(cfg, acts, r);
      var i, rel :| IsRowOf(cfg, acts, r, i, rel);
      AnsweredMore(cfg, acts, a, i, rel);
      assert IsRowOf(cfg, acts + [a], r, i, rel);
    }
  }

  lemma AllMore(cfg: Config, s0: State, acts: seq<Action>, a: Action, s: State)
    requires AllFrom(cfg, s0, acts, s)
    ensures AllFrom(cfg, s0, acts + [a], s)
  {
    PcsMore(cfg, s0.kv, acts, a, s.pcs);
    ValuesMore(cfg, s0.kv, acts, a, s.known);
    ValuesMore(cfg, s0.kv, acts, a, s.kv);
    TraceMore(cfg, s0.kv, acts, a, s.trace);
    RowsMore(cfg, acts, a, s0.rows, s.rows);
  }

  // ---- Steps, with their own action among those done ----

  lemma PcsUpdated(cfg: Config, kv0: map<string, string>, acts: seq<Action>, pcs: seq<Pc>, i: nat, pc: Pc)
    requires PcsFrom(cfg, kv0, acts, pcs) && i < |pcs| <= |cfg.services| && PcFrom(cfg, kv0, acts, i, pc)
    ensures PcsFrom(cfg, kv0, acts, pcs[i := pc])
  {
  }

  lemma TraceUpdated(cfg: Config, kv0: map<string, string>, acts: seq<Action>, trace: seq<Effect>, e: Effect)
    requires TraceFrom(cfg, kv0, acts, trace) && EffectFrom(cfg, kv0, acts, e)
    ensures TraceFrom(cfg, kv0, acts, trace + [e])
  {
  }

  lemma ValuesUpdated(
    cfg: Config, kv0: map<string, string>, acts: seq<Action>, values: map<string, string>, name: string, tag: string)
    requires ValuesFrom(cfg, kv0, acts, values) && Explained(cfg, kv0, acts, name, tag)
    ensures ValuesFrom(cfg, kv0, acts, values[name := tag])
  {
  }

  lemma HeldTag(cfg: Config, acts: seq<Action>, i: nat, rel: Latest)
    requires Answered(cfg, acts, i, rel)
    ensures TagFrom(cfg, acts, cfg.services[i].name, rel.tag)
  {
  }

  lemma FromFetch(cfg: Config, s0: State, acts: seq<Action>, s: State, i: nat, answer: Option<Latest>)
    requires AllFrom(cfg, s0, acts, s) && Enabled(cfg, s, Fetch(i, answer)) && Fetch(i, answer) in acts
    ensures AllFrom(cfg, s0, acts, Next(cfg, s, Fetch(i, answer)))
  {
    var t := Next(cfg, s, Fetch(i, answer));
    assert t.pcs == s.pcs[i := t.pcs[i]];
    PcsUpdated(cfg, s0.kv, acts, s.pcs, i, t.pcs[i]);
  }

  lemma FromSwap(cfg: Config, s0: State, acts: seq<Action>, s: State, i: nat)
    requires AllFrom(cfg, s0, acts, s) && Enabled(cfg, s, Swap(i))
    ensures AllFrom(cfg, s0, acts, Next(cfg, s, Swap(i)))
  {
    var name, rel := cfg.services[i].name, s.pcs[i].rel;
    var pc := Swapped(Known(s, name), rel);
    assert PcFrom(cfg, s0.kv, acts, i, s.pcs[i]);
    HeldTag(cfg, acts, i, rel);
    PcsUpdated(cfg, s0.kv, acts, s.pcs, i, pc);
    ValuesUpdated(cfg, s0.kv, acts, s.known, name, rel.tag);
    TraceUpdated(cfg, s0.kv, acts, s.trace, Seen(name, rel.tag));
  }

  lemma FromSave(cfg: Config, s0: State, acts: seq<Action>, s: State, i: nat, ok: bool)
    requires AllFrom(cfg, s0, acts, s) && Enabled(cfg, s, Save(i, ok))
    ensures AllFrom(cfg, s0, acts, Next(cfg, s, Save(i, ok)))
  {
    var name, pc := cfg.services[i].name, s.pcs[i];
    assert PcFrom(cfg, s0.kv, acts, i, pc);
    HeldTag(cfg, acts, i, pc.rel);
    PcsUpdated(cfg, s0.kv, acts, s.pcs, i, Saved(pc.prev, pc.rel));
    ValuesUpdated(cfg, s0.kv, acts, s.kv, name, pc.rel.tag);
    TraceUpdated(cfg, s0.kv, acts, s.trace, Persisted(name, pc.rel.tag));
  }

  lemma FromRecord(cfg: Config, s0: State, acts: seq<Action>, s: State, i: nat, ok: bool)
    requires AllFrom(cfg, s0, acts, s) && Enabled(cfg, s, Record(i, ok))
    ensures AllFrom(cfg, s0, acts, Next(cfg, s, Record(i, ok)))
  {
    var pc, row := s.pcs[i], NewRow(cfg.services[i], s.pcs[i].rel);
    assert PcFrom(cfg, s0.kv, acts, i, pc);
    PcsUpdated(cfg, s0.kv, acts, s.pcs, i, Recorded(pc.prev, pc.rel));
    assert IsRowOf(cfg, acts, row, i, pc.rel);
    assert RowsFrom(cfg, acts, s0.rows, InsertOrIgnore(s.rows, row));
  }

  lemma FromAnnounce(cfg: Config, s0: State, acts: seq<Action>, s: State, i: nat)
    requires AllFrom(cfg, s0, acts, s) && Enabled(cfg, s, Announce(i))
    ensures AllFrom(cfg, s0, acts, Next(cfg, s, Announce(i)))
  {
    var name, pc := cfg.services[i].name, s.pcs[i];
    assert PcFrom(cfg, s0.kv, acts, i, pc);
    HeldTag(cfg, acts, i, pc.rel);
    PcsUpdated(cfg, s0.kv, acts, s.pcs, i, Finished(Some(pc.rel)));
    if IsNew(pc.prev, pc.rel.tag) {
      TraceUpdated(cfg, s0.kv, acts, s.trace, Notified(name, pc.prev.value, pc.rel.tag));
    }
  }

  lemma FromLoad(cfg: Config, s0: State, acts: seq<Action>, s: State, ok: bool)
    requires AllFrom(cfg, s0, acts, s) && Enabled(cfg, s, LoadOne(ok))
    ensures AllFrom(cfg, s0, acts, Next(cfg, s, LoadOne(ok)))
  {
    var name := cfg.services[s.phase.next].name;
    if name in s.kv {
      ValuesUpdated(cfg, s0.kv, acts, s.known, name, s.kv[name]);
      TraceUpdated(cfg, s0.kv, acts, s.trace, Loaded(name, s.kv[name]));
    }
  }

  lemma FromRest(cfg: Config, s0: State, acts: seq<Action>, s: State, a: Action)
    requires AllFrom(cfg, s0, acts, s) && Enabled(cfg, s, a) && !Goroutine(a) && !a.LoadOne?
    ensures AllFrom(cfg, s0, acts, Next(cfg, s, a))
  {
  }

  lemma FromStep(cfg: Config, s0: State, acts: seq<Action>, s: State, a: Action)
    requires AllFrom(cfg, s0, acts, s) && Enabled(cfg, s, a)
    ensures AllFrom(cfg, s0, acts + [a], Next(cfg, s, a))
  {
    AllMore(cfg, s0, acts, a, s);
    var done := acts + [a];
    match a
    case Fetch(i, answer) => FromFetch(cfg, s0, done, s, i, answer);
    case Swap(i) => FromSwap(cfg, s0, done, s, i);
    case Save(i, ok) => FromSave(cfg, s0, done, s, i, ok);
    case Record(i, ok) => FromRecord(cfg, s0, done, s, i, ok);
    case Announce(i) => FromAnnounce(cfg, s0, done, s, i);
    case LoadOne(ok) => FromLoad(cfg, s0, done, s, ok);
    case _ => FromRest(cfg, s0, done, s, a);
  }

  lemma {:induction false} FromRun(cfg: Config, s0: State, done: seq<Action>, s: State, acts: seq<Action>)
    requires AllFrom(cfg, s0, done, s) && Runs(cfg, s, acts)
    ensures AllFrom(cfg, s0, done + acts, Exec(cfg, s, acts))
    decreases acts
  {
    if acts == [] {
      assert done + acts == done;
    } else {
      FromStep(cfg, s0, done, s, acts[0]);
      FromRun(cfg, s0, done + [acts[0]], Next(cfg, s, acts[0]), acts[1..]);
      assert done + [acts[0]] + acts[1..] == done + acts;
    }
  }

  lemma AllFromStart(cfg: Config, s: State, acts: seq<Action>)
    requires Initial(s) && Runs(cfg, s, acts)
    ensures AllFrom(cfg, s, acts, Exec(cfg, s, acts))
  {
    assert [] + acts == acts;
    FromRun(cfg, s, [], s, acts);
  }

  // ---- Over whole runs ----

  /**
   In every run, crashes and failing calls included, a row that was not there before has the name and the platform
   of a service that can be polled, and the tag and the URL of one and the same answer to it.
   */
  lemma RowsAreAnswers(cfg: Config, s: State, acts: seq<Action>, r: Row) returns (i: nat, rel: Latest)
    requires Initial(s) && Runs(cfg, s, acts) && r in Exec(cfg, s, acts).rows && r !in s.rows
    ensures i < |cfg.services| && cfg.services[i].target.Some? && Fetch(i, Some(rel)) in acts
    ensures r.service == cfg.services[i].name && r.platform == cfg.services[i].target.value.platform
    ensures r.tag == rel.tag && r.url == rel.url
  {
    AllFromStart(cfg, s, acts);
    assert RowFrom(cfg, acts, r);
    i, rel :| IsRowOf(cfg, acts, r, i, rel);
  }

  /**
   In every run, an announcement is of a service's name and of the tag of an answer to it, and its old version is
   another tag: one that a service of that name was answered with, or the one stored from the beginning.
   */
  lemma AnnouncementsAreAnswers(cfg: Config, s: State, acts: seq<Action>, name: string, prev: string, tag: string)
    returns (i: nat, rel: Latest)
    requires Initial(s) && Runs(cfg, s, acts) && Notified(name, prev, tag) in Exec(cfg, s, acts).trace
    ensures i < |cfg.services| && cfg.services[i].target.Some? && Fetch(i, Some(rel)) in acts
    ensures cfg.services[i].name == name && rel.tag == tag && prev != tag
    ensures (name in s.kv && s.kv[name] == prev) || TagFrom(cfg, acts, name, prev)
  {
    AllFromStart(cfg, s, acts);
    assert EffectFrom(cfg, s.kv, acts, Notified(name, prev, tag));
    AnnouncedDiffer(cfg, s, acts, name, prev, tag);
    i, rel :| Answered(cfg, acts, i, rel) && cfg.services[i].name == name && rel.tag == tag;
  }

  /** What the table holds for a name was there from the beginning, or was answered to a service of that name. */
  lemma StoredAreAnswers(cfg: Config, s: State, acts: seq<Action>, name: string)
    requires Initial(s) && Runs(cfg, s, acts) && name in Exec(cfg, s, acts).kv
    ensures
      var tag := Exec(cfg, s, acts).kv[name];
      (name in s.kv && s.kv[name] == tag) || TagFrom(cfg, acts, name, tag)
  {
    AllFromStart(cfg, s, acts);
    assert Explained(cfg, s.kv, acts, name, Exec(cfg, s, acts).kv[name]);
  }

  lemma {:induction false} AnnouncedDiffer(
    cfg: Config, s: State, acts: seq<Action>, name: string, prev: string, tag: string)
    requires Runs(cfg, s, acts) && Notified(name, prev, tag) in Exec(cfg, s, acts).trace
    ensures prev != tag || Notified(name, prev, tag) in s.trace
    decreases acts
  {
    if acts != [] { AnnouncedDiffer(cfg, Next(cfg, s, acts[0]), acts[1..], name, prev, tag); }
  }
}
