/**
 The SQLite tables behind the daemon (internal/store/store.go): `releases` with its
 UNIQUE(service, tag) rule and `kv_store`. Each statement is one atomic table operation.
 */
module Tables {
  import opened Wrappers

  datatype Row = Row(service: string, tag: string, platform: string, url: string)

  predicate HasRow(rows: seq<Row>, service: string, tag: string) {
    exists i | 0 <= i < |rows| :: rows[i].service == service && rows[i].tag == tag
  }

  /** INSERT OR IGNORE under UNIQUE(service, tag). */
  function InsertOrIgnore(rows: seq<Row>, r: Row): seq<Row> {
    if HasRow(rows, r.service, r.tag) then rows else rows + [r]
  }

  /** SELECT COUNT(*) for one service and tag. */
  function CountRows(rows: seq<Row>, service: string, tag: string): nat {
    if rows == [] then 0
    else
      var last := rows[|rows| - 1];
      CountRows(rows[..|rows| - 1], service, tag) + if last.service == service && last.tag == tag then 1 else 0
  }

  ghost predicate UniqueRows(rows: seq<Row>) {
    forall service, tag :: CountRows(rows, service, tag) <= 1
  }

  lemma {:induction false} CountPositive(rows: seq<Row>, service: string, tag: string)
    ensures CountRows(rows, service, tag) > 0 <==> HasRow(rows, service, tag)
  {
    if rows != [] {
      var init, last := rows[..|rows| - 1], rows[|rows| - 1];
      CountPositive(init, service, tag);
      if HasRow(init, service, tag) {
        var i :| 0 <= i < |init| && init[i].service == service && init[i].tag == tag;
        assert rows[i] == init[i];
      }
      if HasRow(rows, service, tag) && !(last.service == service && last.tag == tag) {
        var i :| 0 <= i < |rows| && rows[i].service == service && rows[i].tag == tag;
        assert init[i] == rows[i];
      }
    }
  }

  /** Recording a release leaves exactly one row for it, adds at most that row and changes no other. */
  lemma RecordedOnce(rows: seq<Row>, r: Row)
    requires UniqueRows(rows)
    ensures UniqueRows(InsertOrIgnore(rows, r))
    ensures CountRows(InsertOrIgnore(rows, r), r.service, r.tag) == 1
    ensures forall service, tag | service != r.service || tag != r.tag ::
      CountRows(InsertOrIgnore(rows, r), service, tag) == CountRows(rows, service, tag)
    ensures rows <= InsertOrIgnore(rows, r)
  {
    CountPositive(rows, r.service, r.tag);
    assert (rows + [r])[..|rows|] == rows;
  }

  class Store {
    var releases: seq<Row>
    var kv: map<string, string>

    constructor ()
      ensures releases == [] && kv == map[]
    {
      releases, kv := [], map[];
    }

    method RecordRelease(r: Row)
      modifies this
      ensures releases == InsertOrIgnore(old(releases), r) && kv == old(kv)
    {
      for i := 0 to |releases|
        invariant releases == old(releases) && kv == old(kv)
        invariant forall k | 0 <= k < i :: !(releases[k].service == r.service && releases[k].tag == r.tag)
      {
        if releases[i].service == r.service && releases[i].tag == r.tag {
          return;
        }
      }
      releases := releases + [r];
    }

    method SetKV(key: string, value: string)
      modifies this
      ensures kv == old(kv)[key := value] && releases == old(releases)
    {
      kv := kv[key := value];
    }

    method GetKV(key: string) returns (value: Option<string>)
      ensures value == if key in kv then Some(kv[key]) else None
    {
      value := if key in kv then Some(kv[key]) else None;
    }
  }
}
