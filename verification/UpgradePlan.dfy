/**
 The upgrade plan (internal/mcpserver/tools_extended.go): one entry per service, filled in concurrently, then
 sorted by priority and release date.
 */
module UpgradePlan {
  import opened GoStrings
  import opened Sorting

  /** An entry's priority; an entry that only reports an error never gets one. */
  datatype Priority = Unset | Critical | High | Medium | Low

  /** What asking for a service's latest release comes to; `published` and ages are in hours. */
  datatype Lookup =
    | Failed(error: string)
    | Found(tag: string, name: string, body: string, published: real, date: string)

  /** The release says that it is about security; `lower` stands for strings.ToLower. */
  predicate Security(lower: string -> string, name: string, body: string) {
    Contains(lower(name), "security") || Contains(lower(body), "cve")
  }

  datatype PlanEntry = PlanEntry(
    service: string, latest: string, date: string, deployed: string, upToDate: bool, priority: Priority, error: string)

  predicate UpToDate(deployed: string, tag: string) {
    deployed != "" && (deployed == tag || "v" + deployed == tag || deployed == TrimPrefix(tag, "v"))
  }

  function PriorityOf(upToDate: bool, security: bool, age: real, deployed: string): Priority {
    if upToDate then Low
    else if security then Critical
    else if age < 24.0 then Medium
    else if age < 7.0 * 24.0 then Medium
    else if deployed == "" then High
    else High
  }

  function EntryFor(
    lower: string -> string, service: string, lookup: Lookup, deployed: string, now: real): PlanEntry
  {
    match lookup
    case Failed(error) => PlanEntry(service, "", "", "", false, Unset, error)
    case Found(tag, name, body, published, date) =>
      var current, security := UpToDate(deployed, tag), Security(lower, name, body);
      PlanEntry(service, tag, date, deployed, current, PriorityOf(current, security, now - published, deployed), "")
  }

  /** A service's name, its lookup and what runs in the cluster under its name ("" when nothing does). */
  datatype Input = Input(service: string, lookup: Lookup, deployed: string)

  function EntriesFor(lower: string -> string, inputs: seq<Input>, now: real): (entries: seq<PlanEntry>)
    ensures |entries| == |inputs|
    ensures forall i | 0 <= i < |inputs| ::
              entries[i] == EntryFor(lower, inputs[i].service, inputs[i].lookup, inputs[i].deployed, now)
  {
    seq(|inputs|, i requires 0 <= i < |inputs| =>
      EntryFor(lower, inputs[i].service, inputs[i].lookup, inputs[i].deployed, now))
  }

  /** The order in which a Go map literal ranks the priorities; a key it lacks ranks 0. */
  function Rank(p: Priority): nat {
    match p
    case Unset => 0
    case Critical => 0
    case High => 1
    case Medium => 2
    case Low => 3
  }

  /** The comparator. */
  predicate Precedes(e: PlanEntry, f: PlanEntry) {
    if Rank(e.priority) != Rank(f.priority) then Rank(e.priority) < Rank(f.priority) else Less(e.date, f.date)
  }

  lemma PrecedesIsOrder()
    ensures StrictWeakOrder(Precedes)
  {
    StringOrder();
  }

  function Slots(n: nat): (slots: set<nat>)
    ensures forall i: nat :: i in slots <==> i < n
  {
    if n == 0 then {} else Slots(n - 1) + {n - 1}
  }

  /** The handler: the goroutines fill the slots in any order, each its own. */
  method Plan(lower: string -> string, inputs: seq<Input>, now: real) returns (plan: seq<PlanEntry>)
    ensures SortOf(Precedes, EntriesFor(lower, inputs, now), plan)
  {
    var entries := new PlanEntry[|inputs|](_ => PlanEntry("", "", "", "", false, Unset, ""));
    var running := Slots(|inputs|);
    while running != {}
      invariant forall i | 0 <= i < |inputs| && i !in running :: entries[i] == EntriesFor(lower, inputs, now)[i]
      invariant forall i | i in running :: i < |inputs|
      decreases running
    {
      var idx :| idx in running;
      entries[idx] := EntryFor(lower, inputs[idx].service, inputs[idx].lookup, inputs[idx].deployed, now);
      running := running - {idx};
    }
    assert entries[..] == EntriesFor(lower, inputs, now);
    PrecedesIsOrder();
    SortSorts(Precedes, entries[..]);
    plan := Sort(Precedes, entries[..]);
  }

  /** What an entry's priority means: nothing else is critical, medium, high, low or left unset. */
  lemma EntryFacts(lower: string -> string, service: string, lookup: Lookup, deployed: string, now: real)
    ensures var e := EntryFor(lower, service, lookup, deployed, now);
      var security := lookup.Found? &&
        (Contains(lower(lookup.name), "security") || Contains(lower(lookup.body), "cve"));
      && (e.priority == Low <==> e.upToDate)
      && (e.priority == Critical <==> lookup.Found? && !e.upToDate && security)
      && (e.priority == Medium <==>
            lookup.Found? && !e.upToDate && !security && now - lookup.published < 168.0)
      && (e.priority == High <==>
            lookup.Found? && !e.upToDate && !security && now - lookup.published >= 168.0)
      && (e.priority == Unset <==> lookup.Failed?)
      && (e.upToDate <==> lookup.Found? && deployed != "" && (lookup.tag == deployed || lookup.tag == "v" + deployed))
      && e.service == service
      && (lookup.Failed? ==> e.date == e.latest == e.deployed == "" && !e.upToDate && e.error == lookup.error)
      && (lookup.Found? ==> e.date == lookup.date && e.latest == lookup.tag && e.deployed == deployed && e.error == "")
  {
    if lookup.Found? && HasPrefix(lookup.tag, "v") { assert lookup.tag == "v" + lookup.tag[1..]; }
  }

  /** Some input accounts for every entry of a plan. */
  lemma Origin(lower: string -> string, inputs: seq<Input>, now: real, plan: seq<PlanEntry>, k: nat) returns (i: nat)
    requires SortOf(Precedes, EntriesFor(lower, inputs, now), plan) && k < |plan|
    ensures i < |inputs| && plan[k] == EntriesFor(lower, inputs, now)[i]
  {
    var entries := EntriesFor(lower, inputs, now);
    PermutationFacts(entries, plan);
    assert plan[k] in entries;
    i :| 0 <= i < |entries| && plan[k] == entries[i];
  }

  /**
   Every plan, whatever the unstable sort did: it permutes the entries, failed services lead it, then come the
   critical, the high and the medium ones, every up-to-date service comes after every other, and within a priority
   older releases come first. The dates of found releases are formatted times, which are never empty.
   */
  lemma PlanOrder(lower: string -> string, inputs: seq<Input>, now: real, plan: seq<PlanEntry>, j: nat, k: nat)
    requires SortOf(Precedes, EntriesFor(lower, inputs, now), plan) && j < k < |plan|
    requires forall i | 0 <= i < |inputs| && inputs[i].lookup.Found? :: inputs[i].lookup.date != ""
    ensures |plan| == |inputs|
    ensures plan[j].upToDate ==> plan[k].upToDate
    ensures plan[k].priority == Unset ==> plan[j].priority == Unset
    ensures plan[k].priority == Critical ==> plan[j].priority in {Unset, Critical}
    ensures plan[k].priority == High ==> plan[j].priority in {Unset, Critical, High}
    ensures plan[k].priority == Medium ==> plan[j].priority in {Unset, Critical, High, Medium}
    ensures plan[j].priority == plan[k].priority ==> !Less(plan[k].date, plan[j].date)
  {
    PermutationFacts(EntriesFor(lower, inputs, now), plan);
    var x := Origin(lower, inputs, now, plan, j);
    var y := Origin(lower, inputs, now, plan, k);
    EntryFacts(lower, inputs[x].service, inputs[x].lookup, inputs[x].deployed, now);
    EntryFacts(lower, inputs[y].service, inputs[y].lookup, inputs[y].deployed, now);
    assert !Precedes(plan[k], plan[j]);
  }
}
