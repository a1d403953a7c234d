/** The TTL cache (internal/cache/cache.go), with times as integers read from a clock. */
module Cache {
  import opened Wrappers

  datatype Entry<V> = Entry(value: V, expiresAt: int)

  /** `now` is after the expiry time. */
  predicate Expired<V>(e: Entry<V>, now: int) {
    now > e.expiresAt
  }

  function Find<V>(entries: map<string, Entry<V>>, key: string): Option<Entry<V>> {
    if key in entries then Some(entries[key]) else None
  }

  /** What a Get that runs alone at time `now` answers. */
  function Hit<V>(entries: map<string, Entry<V>>, key: string, now: int): Option<V> {
    match Find(entries, key)
    case Some(e) => if Expired(e, now) then None else Some(e.value)
    case None => None
  }

  // ---- A cache used by one thread at a time ----

  datatype Op<V> =
    | SetOp(key: string, value: V, at: int)
    | GetOp(key: string, at: int)
    | DeleteOp(key: string)
    | ClearOp

  /** What an operation leaves in the map. */
  function After<V>(ttl: nat, entries: map<string, Entry<V>>, op: Op<V>): map<string, Entry<V>> {
    match op
    case SetOp(key, value, at) => entries[key := Entry(value, at + ttl)]
    case GetOp(key, at) => if Hit(entries, key, at).None? then entries - {key} else entries
    case DeleteOp(key) => entries - {key}
    case ClearOp => map[]
  }

  function AfterAll<V>(ttl: nat, ops: seq<Op<V>>): map<string, Entry<V>> {
    if ops == [] then map[] else After(ttl, AfterAll(ttl, ops[..|ops| - 1]), ops[|ops| - 1])
  }

  /** No operation of the run is later than `now`; that the clock does not go back is all that is asked of it. */
  ghost predicate NotAfter<V>(ops: seq<Op<V>>, now: int) {
    forall i | 0 <= i < |ops| && (ops[i].SetOp? || ops[i].GetOp?) :: ops[i].at <= now
  }

  /** The operation gives the key another entry, or none. */
  predicate Overrides<V>(op: Op<V>, key: string) {
    op.ClearOp? || ((op.SetOp? || op.DeleteOp?) && op.key == key)
  }

  /** Position `i` put the value under the key at most one TTL before `now`, and nothing has overridden it since. */
  ghost predicate Lives<V>(ttl: nat, ops: seq<Op<V>>, i: nat, key: string, value: V, now: int) {
    && i < |ops| && ops[i].SetOp? && ops[i].key == key && ops[i].value == value && now <= ops[i].at + ttl
    && forall j | i < j < |ops| :: !Overrides(ops[j], key)
  }

  ghost predicate SomeLives<V(!new)>(ttl: nat, ops: seq<Op<V>>, key: string, value: V, now: int) {
    exists i: nat :: Lives(ttl, ops, i, key, value, now)
  }

  lemma LivesSnoc<V(!new)>(ttl: nat, ops: seq<Op<V>>, op: Op<V>, key: string, value: V, now: int)
    ensures SomeLives(ttl, ops + [op], key, value, now) <==>
      if Overrides(op, key) then op.SetOp? && op.value == value && now <= op.at + ttl
      else SomeLives(ttl, ops, key, value, now)
  {
    var all := ops + [op];
    assert all[|ops|] == op && forall i | 0 <= i < |ops| :: all[i] == ops[i];
    if i: nat :| Lives(ttl, all, i, key, value, now) && i < |ops| {
      assert !Overrides(all[|ops|], key);
      assert Lives(ttl, ops, i, key, value, now);
    }
    if Overrides(op, key) {
      if op.SetOp? && op.value == value && now <= op.at + ttl { assert Lives(ttl, all, |ops|, key, value, now); }
    } else if i: nat :| Lives(ttl, ops, i, key, value, now) {
      assert Lives(ttl, all, i, key, value, now);
    }
  }

  /** What one operation does to the answer of a later Get. */
  lemma HitAfter<V>(ttl: nat, entries: map<string, Entry<V>>, op: Op<V>, key: string, now: int)
    requires op.GetOp? ==> op.at <= now
    ensures Hit(After(ttl, entries, op), key, now) ==
      if Overrides(op, key) then (if op.SetOp? && now <= op.at + ttl then Some(op.value) else None)
      else Hit(entries, key, now)
  {
  }

  /**
   A Get answers a value exactly when it was put under the key at most one TTL ago and nothing has overridden it
   since: over every run of puts, reads, deletes and clears. Dropping expired entries on the way changes nothing.
   */
  lemma {:induction false} GetIsHistory<V(!new)>(ttl: nat, ops: seq<Op<V>>, key: string, value: V, now: int)
    requires NotAfter(ops, now)
    ensures Hit(AfterAll(ttl, ops), key, now) == Some(value) <==> SomeLives(ttl, ops, key, value, now)
  {
    if ops != [] {
      var before, op := ops[..|ops| - 1], ops[|ops| - 1];
      assert ops == before + [op];
      GetIsHistory(ttl, before, key, value, now);
      HitAfter(ttl, AfterAll(ttl, before), op, key, now);
      LivesSnoc(ttl, before, op, key, value, now);
    }
  }

  class Cache<V> {
    var entries: map<string, Entry<V>>
    const ttl: nat

    constructor (ttl: nat)
      ensures entries == map[] && this.ttl == ttl
    {
      this.ttl := ttl;
      entries := map[];
    }

    method Get(key: string, now: int) returns (value: Option<V>)
      modifies this
      ensures value == Hit(old(entries), key, now)
      ensures value.Some? <==> key in old(entries) && now <= old(entries)[key].expiresAt
      ensures value.Some? ==> value.value == old(entries)[key].value
      ensures entries == After(ttl, old(entries), GetOp(key, now))
    {
      var found := Find(entries, key);
      if found.None? || Expired(found.value, now) {
        if found.Some? {
          Delete(key);
        }
        assert found.None? ==> entries - {key} == entries;
        return None;
      }
      value := Some(found.value.value);
    }

    method Set(key: string, value: V, now: int)
      modifies this
      ensures entries == After(ttl, old(entries), SetOp(key, value, now))
    {
      entries := entries[key := Entry(value, now + ttl)];
    }

    method Delete(key: string)
      modifies this
      ensures entries == After(ttl, old(entries), DeleteOp(key))
    {
      entries := entries - {key};
    }

    method Clear()
      modifies this
      ensures entries == After(ttl, old(entries), ClearOp)
    {
      entries := map[];
    }
  }
}
