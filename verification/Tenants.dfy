/**
 Tenants and API keys (internal/tenant): three tables with UNIQUE, AUTOINCREMENT and ON DELETE CASCADE rules,
 each statement one atomic step. The key hash is an arbitrary function.
 */
module Tenants {
  import opened Sorting
  import opened Wrappers

  // ---- Tables ----

  /** A row of api_keys, but for its hash, which is UNIQUE and serves as the key of the table below. */
  datatype KeyRow = KeyRow(id: int, tenant: int, prefix: string, created: int)

  /**
   The tables tenants (UNIQUE name, to id), tenant_services (UNIQUE tenant and name, to repo) and api_keys
   (UNIQUE hash), and the largest ids that AUTOINCREMENT has handed out.
   */
  datatype Db = Db(
    tenants: map<string, int>, lastTenant: int,
    services: map<(int, string), string>,
    keys: map<string, KeyRow>, lastKey: int)

  const EMPTY: Db := Db(map[], 0, map[], map[], 0)

  predicate Live(db: Db, tenant: int) {
    exists name | name in db.tenants :: db.tenants[name] == tenant
  }

  // ---- Operations ----

  datatype Op =
    | Create(name: string)
    | Delete(name: string)
    | AddService(tenant: int, service: string, repo: string)
    | Generate(tenant: int, raw: string, now: int)
    | Revoke(key: int)

  /** What an operation did to the tables; Rejected is an error, or a row that was already there. */
  datatype Event =
    | Created(tenant: int, name: string)
    | Deleted(tenant: int)
    | Added(tenant: int, service: string, repo: string)
    | Generated(key: int, tenant: int, raw: string)
    | Revoked(key: int)
    | Rejected

  /** The first 11 characters of a key. */
  function Prefix(raw: string): string {
    if |raw| < 11 then raw else raw[..11]
  }

  /** DELETE FROM tenants, with both cascades. */
  function WithoutTenant(db: Db, name: string): Db
    requires name in db.tenants
  {
    var id := db.tenants[name];
    db.(tenants := db.tenants - {name},
        services := map s | s in db.services && s.0 != id :: db.services[s],
        keys := map h | h in db.keys && db.keys[h].tenant != id :: db.keys[h])
  }

  function WithoutKey(db: Db, key: int): Db {
    db.(keys := map h | h in db.keys && db.keys[h].id != key :: db.keys[h])
  }

  predicate HasKey(db: Db, key: int) {
    exists h | h in db.keys :: db.keys[h].id == key
  }

  function Apply(hash: string -> string, db: Db, op: Op): (Db, Event) {
    match op
    case Create(name) =>
      if name in db.tenants then (db, Rejected)
      else
        var id := db.lastTenant + 1;
        (db.(tenants := db.tenants[name := id], lastTenant := id), Created(id, name))
    case Delete(name) =>
      if name !in db.tenants then (db, Rejected)
      else (WithoutTenant(db, name), Deleted(db.tenants[name]))
    case AddService(tenant, service, repo) =>
      if !Live(db, tenant) || (tenant, service) in db.services then (db, Rejected)
      else (db.(services := db.services[(tenant, service) := repo]), Added(tenant, service, repo))
    case Generate(tenant, raw, now) =>
      if !Live(db, tenant) || hash(raw) in db.keys then (db, Rejected)
      else
        var id := db.lastKey + 1;
        (db.(keys := db.keys[hash(raw) := KeyRow(id, tenant, Prefix(raw), now)], lastKey := id),
         Generated(id, tenant, raw))
    case Revoke(key) =>
      if !HasKey(db, key) then (db, Rejected) else (WithoutKey(db, key), Revoked(key))
  }

  /** The tenant a raw key validates for. */
  function Validated(hash: string -> string, db: Db, raw: string): Option<int> {
    if hash(raw) in db.keys then Some(db.keys[hash(raw)].tenant) else None
  }

  // ---- The stores ----

  type Byte = x: int | 0 <= x < 256

  function HexDigit(n: int): char
    requires 0 <= n < 16
  {
    "0123456789abcdef"[n]
  }

  /** hex.EncodeToString. */
  function Hex(b: seq<Byte>): (s: string)
    ensures |s| == 2 * |b|
  {
    if b == [] then "" else [HexDigit(b[0] / 16), HexDigit(b[0] % 16)] + Hex(b[1..])
  }

  /** What a hexadecimal digit counts. */
  function DigitValue(c: char): int {
    if '0' <= c <= '9' then c as int - '0' as int else c as int - 'a' as int + 10
  }

  predicate IsHexDigit(c: char) {
    '0' <= c <= '9' || 'a' <= c <= 'f'
  }

  lemma DigitReads(n: int)
    requires 0 <= n < 16
    ensures IsHexDigit(HexDigit(n)) && DigitValue(HexDigit(n)) == n
  {
  }

  lemma {:induction false} HexAt(b: seq<Byte>, k: nat)
    requires k < |b|
    ensures Hex(b)[2 * k] == HexDigit(b[k] / 16) && Hex(b)[2 * k + 1] == HexDigit(b[k] % 16)
  {
    var first, rest := [HexDigit(b[0] / 16), HexDigit(b[0] % 16)], Hex(b[1..]);
    assert Hex(b) == first + rest;
    if k > 0 {
      HexAt(b[1..], k - 1);
      assert (first + rest)[2 * k] == rest[2 * (k - 1)] && (first + rest)[2 * k + 1] == rest[2 * (k - 1) + 1];
    }
  }

  /** Every two digits of the text spell a byte, the high half first. */
  lemma HexReads(b: seq<Byte>, k: nat)
    requires k < |b|
    ensures
      var high, low := Hex(b)[2 * k], Hex(b)[2 * k + 1];
      IsHexDigit(high) && IsHexDigit(low) && 16 * DigitValue(high) + DigitValue(low) == b[k]
  {
    HexAt(b, k);
    DigitReads(b[k] / 16);
    DigitReads(b[k] % 16);
  }

  /** Different random bytes make different keys. */
  lemma RawKeyInjective(b: seq<Byte>, c: seq<Byte>)
    requires |b| == |c| && RawKey(b) == RawKey(c)
    ensures b == c
  {
    assert Hex(b) == RawKey(b)[3..] == Hex(c);
    forall k | 0 <= k < |b| ensures b[k] == c[k] {
      HexReads(b, k);
      HexReads(c, k);
    }
  }

  /** The text of a key made from random bytes. */
  function RawKey(b: seq<Byte>): string {
    "rw_" + Hex(b)
  }

  /** ORDER BY created_at DESC. */
  predicate NewerKey(a: KeyRow, b: KeyRow) {
    a.created > b.created
  }

  /** The row is what Generate stored for this key. */
  predicate IsRowOf(row: KeyRow, key: int, tenant: int, raw: string) {
    row.id == key && row.tenant == tenant && row.prefix == Prefix(raw)
  }

  /** The list has the rows of these hashes, one each. */
  ghost predicate ListsRows(list: seq<KeyRow>, keys: map<string, KeyRow>, hashes: set<string>) {
    && hashes <= keys.Keys && |list| == |hashes|
    && forall row :: row in list <==> exists h | h in hashes :: keys[h] == row
  }

  /** No key is listed before one that was created later. */
  ghost predicate NewestFirst(list: seq<KeyRow>) {
    forall i, j | 0 <= i < j < |list| :: list[j].created <= list[i].created
  }

  lemma OneMoreRow(list: seq<KeyRow>, keys: map<string, KeyRow>, hashes: set<string>, h: string)
    requires ListsRows(list, keys, hashes) && h in keys && h !in hashes
    ensures ListsRows(list + [keys[h]], keys, hashes + {h})
  {
    forall row
      ensures row in list + [keys[h]] <==> exists k | k in hashes + {h} :: keys[k] == row
    {
      if row == keys[h] { assert h in hashes + {h}; }
      if row in list {
        var k :| k in hashes && keys[k] == row;
        assert k in hashes + {h};
      }
    }
  }

  lemma SameRows(list: seq<KeyRow>, sorted: seq<KeyRow>, keys: map<string, KeyRow>, hashes: set<string>)
    requires ListsRows(list, keys, hashes) && |sorted| == |list| && forall row :: row in sorted <==> row in list
    ensures ListsRows(sorted, keys, hashes)
  {
  }

  class Store {
    const hash: string -> string
    var tenants: map<string, int>
    var lastTenant: int
    var services: map<(int, string), string>
    var keys: map<string, KeyRow>
    var lastKey: int

    constructor (hash: string -> string)
      ensures this.hash == hash && Tables() == EMPTY
    {
      this.hash := hash;
      tenants, lastTenant, services, keys, lastKey := map[], 0, map[], map[], 0;
    }

    function Tables(): Db
      reads this
    {
      Db(tenants, lastTenant, services, keys, lastKey)
    }

    method Create(name: string) returns (id: Option<int>)
      modifies this
      ensures Tables() == Apply(hash, old(Tables()), Op.Create(name)).0
      ensures id == if name in old(tenants) then None else Some(old(lastTenant) + 1)
    {
      if name in tenants { return None; }
      lastTenant := lastTenant + 1;
      tenants := tenants[name := lastTenant];
      id := Some(lastTenant);
    }

    method Get(name: string) returns (id: Option<int>)
      ensures id.Some? <==> name in tenants
      ensures id.Some? ==> id.value == tenants[name]
    {
      id := if name in tenants then Some(tenants[name]) else None;
    }

    method Delete(name: string) returns (ok: bool)
      modifies this
      ensures Tables() == Apply(hash, old(Tables()), Op.Delete(name)).0
      ensures ok <==> name in old(tenants)
    {
      if name !in tenants { return false; }
      var id := tenants[name];
      tenants := tenants - {name};
      services := map s | s in services && s.0 != id :: services[s];
      keys := map h | h in keys && keys[h].tenant != id :: keys[h];
      ok := true;
    }

    /** INSERT OR IGNORE: a repeated service is no error, a missing tenant is. */
    method AddService(tenant: int, service: string, repo: string) returns (ok: bool)
      modifies this
      ensures Tables() == Apply(hash, old(Tables()), Op.AddService(tenant, service, repo)).0
      ensures ok <==> old(Live(Tables(), tenant))
    {
      ok := exists name | name in tenants :: tenants[name] == tenant;
      if ok && (tenant, service) !in services {
        services := services[(tenant, service) := repo];
      }
    }

    /** One entry per service of the tenant; their order is left open. */
    method ListServices(tenant: int) returns (list: seq<(string, string)>)
      ensures forall name, repo :: (name, repo) in list <==>
        (tenant, name) in services && services[(tenant, name)] == repo
      ensures |list| == |set s | s in services && s.0 == tenant|
    {
      list := [];
      var todo := set s | s in services && s.0 == tenant;
      ghost var done: set<(int, string)> := {};
      while todo != {}
        invariant todo !! done && todo + done == set s | s in services && s.0 == tenant
        invariant forall name, repo :: (name, repo) in list <==>
          (tenant, name) in done && services[(tenant, name)] == repo
        invariant |list| == |done|
      {
        var s :| s in todo;
        assert s == (tenant, s.1);
        list := list + [(s.1, services[s])];
        todo, done := todo - {s}, done + {s};
      }
    }

    method Generate(tenant: int, b: seq<Byte>, now: int) returns (key: Option<(string, KeyRow)>)
      requires |b| == 32
      modifies this
      ensures Tables() == Apply(hash, old(Tables()), Op.Generate(tenant, RawKey(b), now)).0
      ensures key.Some? <==> old(Live(Tables(), tenant)) && hash(RawKey(b)) !in old(keys)
      ensures key.Some? ==> key.value.0 == RawKey(b) && keys[hash(RawKey(b))] == key.value.1
      ensures key.Some? ==> key.value.1 == KeyRow(old(lastKey) + 1, tenant, RawKey(b)[..11], now)
    {
      var raw := "rw_" + Hex(b);
      var prefix := raw[..11];
      var found := exists name | name in tenants :: tenants[name] == tenant;
      if !found || hash(raw) in keys { return None; }
      lastKey := lastKey + 1;
      keys := keys[hash(raw) := KeyRow(lastKey, tenant, prefix, now)];
      key := Some((raw, KeyRow(lastKey, tenant, prefix, now)));
    }

    method Validate(raw: string) returns (tenant: Option<int>)
      ensures tenant == Validated(hash, Tables(), raw)
    {
      var h := hash(raw);
      if h in keys { return Some(keys[h].tenant); }
      tenant := None;
    }

    /** One row per key of the tenant, newest first; the order of keys of one time is left open. */
    method ListForTenant(tenant: int) returns (list: seq<KeyRow>)
      ensures ListsRows(list, keys, set h | h in keys && keys[h].tenant == tenant)
      ensures NewestFirst(list)
    {
      list := [];
      var all := set h | h in keys && keys[h].tenant == tenant;
      var todo := all;
      while todo != {}
        invariant todo <= all && ListsRows(list, keys, all - todo)
      {
        var h :| h in todo;
        OneMoreRow(list, keys, all - todo, h);
        assert all - todo + {h} == all - (todo - {h});
        list := list + [keys[h]];
        todo := todo - {h};
      }
      assert all - todo == all;
      SortSorts(NewerKey, list);
      PermutationFacts(list, Sort(NewerKey, list));
      SameRows(list, Sort(NewerKey, list), keys, all);
      list := Sort(NewerKey, list);
    }

    method Revoke(key: int) returns (ok: bool)
      modifies this
      ensures Tables() == Apply(hash, old(Tables()), Op.Revoke(key)).0
      ensures ok <==> old(HasKey(Tables(), key))
    {
      var before := keys;
      keys := map h | h in keys && keys[h].id != key :: keys[h];
      ok := exists h | h in before :: before[h].id == key;
      if !ok { assert keys == before; }
    }
  }

  // ---- Runs ----

  /** The tables after a run, and what happened during it. */
  datatype World = World(db: Db, events: seq<Event>)

  function Step(hash: string -> string, w: World, op: Op): World {
    var (db, event) := Apply(hash, w.db, op);
    World(db, w.events + [event])
  }

  function Run(hash: string -> string, ops: seq<Op>): World {
    if ops == [] then World(EMPTY, []) else Step(hash, Run(hash, ops[..|ops| - 1]), ops[|ops| - 1])
  }

  /** The key was generated for the tenant from `raw`, and neither revoked nor lost to a deletion since. */
  ghost predicate InForce(events: seq<Event>, key: int, tenant: int, raw: string) {
    exists i | 0 <= i < |events| ::
      events[i] == Generated(key, tenant, raw)
      && forall j | i < j < |events| :: events[j] != Revoked(key) && events[j] != Deleted(tenant)
  }

  lemma InForceSnoc(events: seq<Event>, e: Event, key: int, tenant: int, raw: string)
    ensures InForce(events + [e], key, tenant, raw) <==>
      e == Generated(key, tenant, raw)
      || (InForce(events, key, tenant, raw) && e != Revoked(key) && e != Deleted(tenant))
  {
    var all := events + [e];
    assert all[|events|] == e && forall i | 0 <= i < |events| :: all[i] == events[i];
    if InForce(events, key, tenant, raw) && e != Revoked(key) && e != Deleted(tenant) {
      var i :| 0 <= i < |events| && events[i] == Generated(key, tenant, raw)
        && forall j | i < j < |events| :: events[j] != Revoked(key) && events[j] != Deleted(tenant);
      assert all[i] == Generated(key, tenant, raw);
    }
  }

  /** The table holds the row of a key under its hash. */
  predicate Held(hash: string -> string, db: Db, key: int, tenant: int, raw: string) {
    hash(raw) in db.keys && IsRowOf(db.keys[hash(raw)], key, tenant, raw)
  }

  /** Some raw key of this hash is in force. */
  ghost predicate Backed(hash: string -> string, events: seq<Event>, h: string, key: int, tenant: int) {
    exists raw :: hash(raw) == h && InForce(events, key, tenant, raw)
  }

  /** The keys in force are the rows of the table. */
  ghost predicate KeysInForce(hash: string -> string, w: World) {
    && (forall key, tenant, raw | InForce(w.events, key, tenant, raw) :: Held(hash, w.db, key, tenant, raw))
    && (forall h | h in w.db.keys :: Backed(hash, w.events, h, w.db.keys[h].id, w.db.keys[h].tenant))
  }

  /** A row that was held stays, unless its key is revoked or its tenant deleted. */
  lemma HeldKept(hash: string -> string, db: Db, op: Op, key: int, tenant: int, raw: string)
    requires Held(hash, db, key, tenant, raw)
    requires var e := Apply(hash, db, op).1; e != Revoked(key) && e != Deleted(tenant)
    ensures Held(hash, Apply(hash, db, op).0, key, tenant, raw)
  {
  }

  lemma HeldStep(hash: string -> string, w: World, op: Op, key: int, tenant: int, raw: string)
    requires InForce(w.events, key, tenant, raw) ==> Held(hash, w.db, key, tenant, raw)
    requires InForce(Step(hash, w, op).events, key, tenant, raw)
    ensures Held(hash, Step(hash, w, op).db, key, tenant, raw)
  {
    var e := Apply(hash, w.db, op).1;
    InForceSnoc(w.events, e, key, tenant, raw);
    if e != Generated(key, tenant, raw) { HeldKept(hash, w.db, op, key, tenant, raw); }
  }

  /** A row after an operation is the one just generated, or one from before that the operation spares. */
  lemma RowStep(hash: string -> string, db: Db, op: Op, h: string)
    requires h in Apply(hash, db, op).0.keys
    ensures
      var (after, e) := Apply(hash, db, op);
      var row := after.keys[h];
      || (e.Generated? && h == hash(e.raw) && e == Generated(row.id, row.tenant, e.raw))
      || (h in db.keys && row == db.keys[h] && e != Revoked(row.id) && e != Deleted(row.tenant))
  {
  }

  lemma BackedStep(hash: string -> string, w: World, op: Op, h: string)
    requires h in w.db.keys ==> Backed(hash, w.events, h, w.db.keys[h].id, w.db.keys[h].tenant)
    requires h in Step(hash, w, op).db.keys
    ensures
      var after := Step(hash, w, op);
      Backed(hash, after.events, h, after.db.keys[h].id, after.db.keys[h].tenant)
  {
    var (db, e) := Apply(hash, w.db, op);
    var row := db.keys[h];
    RowStep(hash, w.db, op, h);
    if e.Generated? && h == hash(e.raw) && e == Generated(row.id, row.tenant, e.raw) {
      InForceSnoc(w.events, e, row.id, row.tenant, e.raw);
    } else {
      var raw :| hash(raw) == h && InForce(w.events, row.id, row.tenant, raw);
      InForceSnoc(w.events, e, row.id, row.tenant, raw);
    }
  }

  lemma KeysStep(hash: string -> string, w: World, op: Op)
    requires KeysInForce(hash, w)
    ensures KeysInForce(hash, Step(hash, w, op))
  {
    var after := Step(hash, w, op);
    forall key, tenant, raw | InForce(after.events, key, tenant, raw) ensures Held(hash, after.db, key, tenant, raw) {
      HeldStep(hash, w, op, key, tenant, raw);
    }
    forall h | h in after.db.keys
      ensures Backed(hash, after.events, h, after.db.keys[h].id, after.db.keys[h].tenant)
    {
      BackedStep(hash, w, op, h);
    }
  }

  lemma {:induction false} KeysRun(hash: string -> string, ops: seq<Op>)
    ensures KeysInForce(hash, Run(hash, ops))
  {
    if ops != [] {
      KeysRun(hash, ops[..|ops| - 1]);
      KeysStep(hash, Run(hash, ops[..|ops| - 1]), ops[|ops| - 1]);
    }
  }

  /** Whatever the hash, a raw key validates for a tenant exactly when a key of one hash with it is in force. */
  lemma ValidateIff(hash: string -> string, ops: seq<Op>, raw: string, tenant: int)
    ensures var w := Run(hash, ops);
      Validated(hash, w.db, raw) == Some(tenant) <==>
        exists key, other :: hash(other) == hash(raw) && InForce(w.events, key, tenant, other)
  {
    KeysRun(hash, ops);
    var w := Run(hash, ops);
    if Validated(hash, w.db, raw) == Some(tenant) {
      var row := w.db.keys[hash(raw)];
      assert Backed(hash, w.events, hash(raw), row.id, row.tenant);
      var other :| hash(other) == hash(raw) && InForce(w.events, row.id, row.tenant, other);
    }
    if key, other :| hash(other) == hash(raw) && InForce(w.events, key, tenant, other) {
      assert Held(hash, w.db, key, tenant, other);
    }
  }

  /** The raw key collides with none that the run generated. */
  ghost predicate CollisionFree(hash: string -> string, events: seq<Event>, raw: string) {
    forall i | 0 <= i < |events| && events[i].Generated? && hash(events[i].raw) == hash(raw) :: events[i].raw == raw
  }

  /** Without collisions, a raw key validates for a tenant exactly when it is in force for it. */
  lemma ValidateIsHistory(hash: string -> string, ops: seq<Op>, raw: string, tenant: int)
    requires CollisionFree(hash, Run(hash, ops).events, raw)
    ensures Validated(hash, Run(hash, ops).db, raw) == Some(tenant) <==>
      exists key :: InForce(Run(hash, ops).events, key, tenant, raw)
  {
    ValidateIff(hash, ops, raw, tenant);
    var events := Run(hash, ops).events;
    if key, other :| hash(other) == hash(raw) && InForce(events, key, tenant, other) {
      assert other == raw;
    }
  }

  // ---- Integrity ----

  /** Ids in use are unique and not above the counter. */
  ghost predicate IdsUnique(ids: map<string, int>, last: int) {
    && 0 <= last
    && (forall x | x in ids :: 0 < ids[x] <= last)
    && (forall x, y | x in ids && y in ids && ids[x] == ids[y] :: x == y)
  }

  function KeyIds(keys: map<string, KeyRow>): map<string, int> {
    map h | h in keys :: keys[h].id
  }

  /** Every key and service row points at a live tenant. */
  ghost predicate RowsLive(db: Db) {
    && (forall s | s in db.services :: Live(db, s.0))
    && (forall h | h in db.keys :: Live(db, db.keys[h].tenant))
  }

  ghost predicate Sound(db: Db) {
    IdsUnique(db.tenants, db.lastTenant) && IdsUnique(KeyIds(db.keys), db.lastKey) && RowsLive(db)
  }

  lemma NewIdUnique(ids: map<string, int>, last: int, x: string)
    requires IdsUnique(ids, last)
    ensures IdsUnique(ids[x := last + 1], last + 1)
  {
  }

  lemma FewerIdsUnique(ids: map<string, int>, fewer: map<string, int>, last: int)
    requires IdsUnique(ids, last) && forall x | x in fewer :: x in ids && fewer[x] == ids[x]
    ensures IdsUnique(fewer, last)
  {
  }

  lemma TenantIdsKept(hash: string -> string, db: Db, op: Op)
    requires IdsUnique(db.tenants, db.lastTenant)
    ensures var after := Apply(hash, db, op).0; IdsUnique(after.tenants, after.lastTenant)
  {
    match op {
      case Create(name) => NewIdUnique(db.tenants, db.lastTenant, name);
      case _ => FewerIdsUnique(db.tenants, Apply(hash, db, op).0.tenants, db.lastTenant);
    }
  }

  lemma KeyIdsKept(hash: string -> string, db: Db, op: Op)
    requires IdsUnique(KeyIds(db.keys), db.lastKey)
    ensures var after := Apply(hash, db, op).0; IdsUnique(KeyIds(after.keys), after.lastKey)
  {
    var (after, e) := Apply(hash, db, op);
    match e {
      case Generated(key, tenant, raw) =>
        NewIdUnique(KeyIds(db.keys), db.lastKey, hash(raw));
        assert KeyIds(after.keys) == KeyIds(db.keys)[hash(raw) := db.lastKey + 1];
      case _ =>
        FewerIdsUnique(KeyIds(db.keys), KeyIds(after.keys), db.lastKey);
    }
  }

  /** Adding a tenant ends no tenant's life. */
  lemma LiveKept(db: Db, name: string, id: int, tenant: int)
    requires name !in db.tenants && Live(db, tenant)
    ensures Live(db.(tenants := db.tenants[name := id], lastTenant := id), tenant)
  {
    var n :| n in db.tenants && db.tenants[n] == tenant;
    assert db.tenants[name := id][n] == tenant;
  }

  /** Deleting a tenant ends only its own. */
  lemma LiveElsewhere(db: Db, name: string, tenant: int)
    requires name in db.tenants && Live(db, tenant) && tenant != db.tenants[name]
    ensures Live(WithoutTenant(db, name), tenant)
  {
    var n :| n in db.tenants && db.tenants[n] == tenant;
    assert n in db.tenants - {name};
  }

  lemma SameTenantsLive(db: Db, after: Db, tenant: int)
    requires db.tenants == after.tenants
    ensures Live(db, tenant) <==> Live(after, tenant)
  {
  }

  lemma RowsLiveCreate(hash: string -> string, db: Db, name: string)
    requires RowsLive(db)
    ensures RowsLive(Apply(hash, db, Create(name)).0)
  {
    if name !in db.tenants {
      var after := Apply(hash, db, Create(name)).0;
      forall s | s in db.services ensures Live(after, s.0) { LiveKept(db, name, db.lastTenant + 1, s.0); }
      forall h | h in db.keys ensures Live(after, db.keys[h].tenant) {
        LiveKept(db, name, db.lastTenant + 1, db.keys[h].tenant);
      }
    }
  }

  lemma RowsLiveDelete(hash: string -> string, db: Db, name: string)
    requires RowsLive(db)
    ensures RowsLive(Apply(hash, db, Delete(name)).0)
  {
    if name in db.tenants {
      var after := WithoutTenant(db, name);
      forall s | s in after.services ensures Live(after, s.0) { LiveElsewhere(db, name, s.0); }
      forall h | h in after.keys ensures Live(after, after.keys[h].tenant) {
        LiveElsewhere(db, name, after.keys[h].tenant);
      }
    }
  }

  lemma RowsLiveOther(hash: string -> string, db: Db, op: Op)
    requires RowsLive(db) && !op.Create? && !op.Delete?
    ensures RowsLive(Apply(hash, db, op).0)
  {
    var after := Apply(hash, db, op).0;
    forall s | s in after.services ensures Live(after, s.0) { SameTenantsLive(db, after, s.0); }
    forall h | h in after.keys ensures Live(after, after.keys[h].tenant) {
      SameTenantsLive(db, after, after.keys[h].tenant);
    }
  }

  lemma RowsLiveKept(hash: string -> string, db: Db, op: Op)
    requires RowsLive(db)
    ensures RowsLive(Apply(hash, db, op).0)
  {
    match op {
      case Create(name) => RowsLiveCreate(hash, db, name);
      case Delete(name) => RowsLiveDelete(hash, db, name);
      case _ => RowsLiveOther(hash, db, op);
    }
  }

  /** After every run, rows point at live tenants and ids are unique. */
  lemma {:induction false} RunSound(hash: string -> string, ops: seq<Op>)
    ensures Sound(Run(hash, ops).db)
  {
    if ops != [] {
      var db, op := Run(hash, ops[..|ops| - 1]).db, ops[|ops| - 1];
      RunSound(hash, ops[..|ops| - 1]);
      TenantIdsKept(hash, db, op);
      KeyIdsKept(hash, db, op);
      RowsLiveKept(hash, db, op);
    }
  }

  // ---- Ids are never reused ----

  /** The id that an event hands out, from the tenants' counter or the keys'. */
  function NewId(e: Event, ofKeys: bool): Option<int> {
    match e
    case Created(tenant, _) => if ofKeys then None else Some(tenant)
    case Generated(key, _, _) => if ofKeys then Some(key) else None
    case _ => None
  }

  function Counter(db: Db, ofKeys: bool): int {
    if ofKeys then db.lastKey else db.lastTenant
  }

  ghost predicate IdsAscend(events: seq<Event>, last: int, ofKeys: bool) {
    && (forall i | 0 <= i < |events| && NewId(events[i], ofKeys).Some? :: NewId(events[i], ofKeys).value <= last)
    && (forall i, j | 0 <= i < j < |events| && NewId(events[i], ofKeys).Some? && NewId(events[j], ofKeys).Some? ::
          NewId(events[i], ofKeys).value < NewId(events[j], ofKeys).value)
  }

  lemma IdsAscendSnoc(events: seq<Event>, e: Event, last: int, now: int, ofKeys: bool)
    requires IdsAscend(events, last, ofKeys)
    requires if NewId(e, ofKeys).Some? then last < NewId(e, ofKeys).value == now else now == last
    ensures IdsAscend(events + [e], now, ofKeys)
  {
    var all := events + [e];
    assert all[|events|] == e && forall i | 0 <= i < |events| :: all[i] == events[i];
  }

  /** Over every run, each tenant and each key gets a larger id than all before it, deleted ones included. */
  lemma {:induction false} RunIdsAscend(hash: string -> string, ops: seq<Op>, ofKeys: bool)
    ensures IdsAscend(Run(hash, ops).events, Counter(Run(hash, ops).db, ofKeys), ofKeys)
  {
    if ops != [] {
      var w, op := Run(hash, ops[..|ops| - 1]), ops[|ops| - 1];
      RunIdsAscend(hash, ops[..|ops| - 1], ofKeys);
      var (db, e) := Apply(hash, w.db, op);
      IdsAscendSnoc(w.events, e, Counter(w.db, ofKeys), Counter(db, ofKeys), ofKeys);
    }
  }

  /** The tenants alive are those created and not deleted since. */
  ghost predicate Alive(events: seq<Event>, tenant: int, name: string) {
    exists i | 0 <= i < |events| ::
      events[i] == Created(tenant, name) && forall j | i < j < |events| :: events[j] != Deleted(tenant)
  }

  lemma AliveSnoc(events: seq<Event>, e: Event, tenant: int, name: string)
    ensures Alive(events + [e], tenant, name) <==>
      e == Created(tenant, name) || (Alive(events, tenant, name) && e != Deleted(tenant))
  {
    var all := events + [e];
    assert all[|events|] == e && forall i | 0 <= i < |events| :: all[i] == events[i];
    if Alive(events, tenant, name) && e != Deleted(tenant) {
      var i :| 0 <= i < |events| && events[i] == Created(tenant, name)
        && forall j | i < j < |events| :: events[j] != Deleted(tenant);
      assert all[i] == Created(tenant, name);
    }
  }

  ghost predicate TenantsAlive(w: World) {
    forall name, tenant ::
      (name in w.db.tenants && w.db.tenants[name] == tenant) <==> Alive(w.events, tenant, name)
  }

  /** Looking a tenant up by name agrees with the history of operations. */
  lemma {:induction false} GetIsHistory(hash: string -> string, ops: seq<Op>)
    ensures TenantsAlive(Run(hash, ops))
  {
    if ops != [] {
      var w, op := Run(hash, ops[..|ops| - 1]), ops[|ops| - 1];
      GetIsHistory(hash, ops[..|ops| - 1]);
      RunSound(hash, ops[..|ops| - 1]);
      TenantsStep(hash, w, op);
    }
  }

  lemma TenantsStep(hash: string -> string, w: World, op: Op)
    requires TenantsAlive(w) && Sound(w.db)
    ensures TenantsAlive(Step(hash, w, op))
  {
    var after, e := Step(hash, w, op), Apply(hash, w.db, op).1;
    forall name, tenant
      ensures (name in after.db.tenants && after.db.tenants[name] == tenant) <==> Alive(after.events, tenant, name)
    {
      AliveSnoc(w.events, e, tenant, name);
      assert (name in w.db.tenants && w.db.tenants[name] == tenant) <==> Alive(w.events, tenant, name);
    }
  }

  // ---- What the keys come from ----

  /** The clock does not go back from one generated key to the next. */
  ghost predicate Clocked(ops: seq<Op>) {
    forall i, j | 0 <= i < j < |ops| && ops[i].Generate? && ops[j].Generate? :: ops[i].now <= ops[j].now
  }

  /** Some operation generated the row, for its tenant, at its time, from a raw key of this hash and prefix. */
  ghost predicate Made(hash: string -> string, ops: seq<Op>, h: string, row: KeyRow) {
    exists i | 0 <= i < |ops| && ops[i].Generate? ::
      ops[i].tenant == row.tenant && ops[i].now == row.created && hash(ops[i].raw) == h
      && row.prefix == Prefix(ops[i].raw)
  }

  lemma MadeMore(hash: string -> string, ops: seq<Op>, op: Op, h: string, row: KeyRow)
    requires Made(hash, ops, h, row)
    ensures Made(hash, ops + [op], h, row)
  {
    var i :| 0 <= i < |ops| && ops[i].Generate? && ops[i].tenant == row.tenant && ops[i].now == row.created
      && hash(ops[i].raw) == h && row.prefix == Prefix(ops[i].raw);
    assert (ops + [op])[i] == ops[i];
  }

  /** Over every run, each row was generated so. */
  lemma {:induction false} KeysAreMade(hash: string -> string, ops: seq<Op>, h: string)
    requires h in Run(hash, ops).db.keys
    ensures Made(hash, ops, h, Run(hash, ops).db.keys[h])
  {
    if ops != [] {
      var before, op := ops[..|ops| - 1], ops[|ops| - 1];
      var db := Run(hash, before).db;
      assert ops == before + [op];
      RowStep(hash, db, op, h);
      if Apply(hash, db, op).1.Generated? && h == hash(op.raw) {
        assert ops[|before|] == op;
      } else {
        KeysAreMade(hash, before, h);
        MadeMore(hash, before, op, h, db.keys[h]);
      }
    }
  }

  lemma IdInUse(db: Db, h: string)
    requires Sound(db) && h in db.keys
    ensures db.keys[h].id <= db.lastKey
  {
    assert KeyIds(db.keys)[h] == db.keys[h].id;
  }

  lemma SameIdSameRow(db: Db, h: string, g: string)
    requires Sound(db) && h in db.keys && g in db.keys && db.keys[h].id == db.keys[g].id
    ensures h == g
  {
    assert KeyIds(db.keys)[h] == KeyIds(db.keys)[g];
  }

  lemma {:induction false} LaterIdsAreNewer(hash: string -> string, ops: seq<Op>, h: string, g: string)
    requires Clocked(ops) && h in Run(hash, ops).db.keys && g in Run(hash, ops).db.keys
    requires Run(hash, ops).db.keys[h].id < Run(hash, ops).db.keys[g].id
    ensures Run(hash, ops).db.keys[h].created <= Run(hash, ops).db.keys[g].created
  {
    if ops != [] {
      var before, op := ops[..|ops| - 1], ops[|ops| - 1];
      var db, e := Run(hash, before).db, Apply(hash, Run(hash, before).db, op).1;
      RunSound(hash, before);
      RowStep(hash, db, op, h);
      RowStep(hash, db, op, g);
      if e.Generated? && g == hash(e.raw) {
        KeysAreMade(hash, ops, h);
      } else {
        IdInUse(db, g);
        LaterIdsAreNewer(hash, before, h, g);
      }
    }
  }

  /**
   Over every run in which the clock does not go back, a listing as ListForTenant gives it has the keys in the
   order in which they were generated, latest first, but for keys of one creation time.
   */
  lemma ListedByAge(hash: string -> string, ops: seq<Op>, tenant: int, list: seq<KeyRow>, i: nat, j: nat)
    requires Clocked(ops)
    requires
      var keys := Run(hash, ops).db.keys;
      ListsRows(list, keys, set h | h in keys && keys[h].tenant == tenant) && NewestFirst(list)
    requires i < j < |list|
    ensures list[i].id > list[j].id || list[i].created == list[j].created
  {
    var db := Run(hash, ops).db;
    assert list[i] in list && list[j] in list;
    var h :| h in db.keys && db.keys[h] == list[i];
    var g :| g in db.keys && db.keys[g] == list[j];
    RunSound(hash, ops);
    if list[i].id < list[j].id {
      LaterIdsAreNewer(hash, ops, h, g);
    } else if list[i].id == list[j].id {
      SameIdSameRow(db, h, g);
    }
  }

  // ---- Services ----

  /** The service was added to the tenant with this repository, and the tenant not deleted since. */
  ghost predicate Tracked(events: seq<Event>, tenant: int, service: string, repo: string) {
    exists i | 0 <= i < |events| ::
      events[i] == Added(tenant, service, repo) && forall j | i < j < |events| :: events[j] != Deleted(tenant)
  }

  lemma TrackedSnoc(events: seq<Event>, e: Event, tenant: int, service: string, repo: string)
    ensures Tracked(events + [e], tenant, service, repo) <==>
      e == Added(tenant, service, repo) || (Tracked(events, tenant, service, repo) && e != Deleted(tenant))
  {
    var all := events + [e];
    assert all[|events|] == e && forall i | 0 <= i < |events| :: all[i] == events[i];
    if Tracked(events, tenant, service, repo) && e != Deleted(tenant) {
      var i :| 0 <= i < |events| && events[i] == Added(tenant, service, repo)
        && forall j | i < j < |events| :: events[j] != Deleted(tenant);
      assert all[i] == Added(tenant, service, repo);
    }
  }

  ghost predicate HasService(db: Db, tenant: int, service: string, repo: string) {
    (tenant, service) in db.services && db.services[(tenant, service)] == repo
  }

  lemma ServiceStep(hash: string -> string, db: Db, op: Op, tenant: int, service: string, repo: string)
    ensures
      var (after, e) := Apply(hash, db, op);
      HasService(after, tenant, service, repo) <==>
        e == Added(tenant, service, repo) || (HasService(db, tenant, service, repo) && e != Deleted(tenant))
  {
  }

  /** A tenant's services are those added to it, the first repository of each name, until it is deleted. */
  lemma {:induction false} ServicesAreHistory(
    hash: string -> string, ops: seq<Op>, tenant: int, service: string, repo: string)
    ensures var w := Run(hash, ops);
      HasService(w.db, tenant, service, repo) <==> Tracked(w.events, tenant, service, repo)
  {
    if ops != [] {
      var w, op := Run(hash, ops[..|ops| - 1]), ops[|ops| - 1];
      ServicesAreHistory(hash, ops[..|ops| - 1], tenant, service, repo);
      ServiceStep(hash, w.db, op, tenant, service, repo);
      TrackedSnoc(w.events, Apply(hash, w.db, op).1, tenant, service, repo);
    }
  }

  /** A key that validates does so for a tenant that is alive. */
  lemma ValidatesForLive(hash: string -> string, ops: seq<Op>, raw: string)
    requires Validated(hash, Run(hash, ops).db, raw).Some?
    ensures exists name :: Alive(Run(hash, ops).events, Validated(hash, Run(hash, ops).db, raw).value, name)
  {
    var w := Run(hash, ops);
    RunSound(hash, ops);
    GetIsHistory(hash, ops);
    var name :| name in w.db.tenants && w.db.tenants[name] == w.db.keys[hash(raw)].tenant;
    assert Alive(w.events, w.db.tenants[name], name);
  }
}
