/**
 The release timeline, twice: the MCP tool sorts formatted dates (internal/mcpserver/tools_extended.go), the
 command sorts times (cmd/releasewave/timeline.go). Both stop reading a release list at the first old release.
 */
module Timeline {
  import opened GoStrings
  import opened Multisets
  import opened Sorting

  // ---- Times ----

  /** A wall-clock reading. */
  datatype Civil = Civil(year: nat, month: nat, day: nat, hour: nat, minute: nat, second: nat, nano: nat)

  /** A time.Time: an instant, and how the clock of its location reads then. */
  datatype Time = Time(instant: int, local: Civil)

  /** Readings with a four-digit year; no calendar rule is needed. */
  predicate InRange(c: Civil) {
    c.year < 10000 && c.month < 100 && c.day < 100 && c.hour < 100 && c.minute < 100
  }

  /** Earlier in the order of year, month, day, hour, minute. */
  predicate EarlierMinute(c: Civil, d: Civil) {
    || c.year < d.year
    || (c.year == d.year && (c.month < d.month
    || (c.month == d.month && (c.day < d.day
    || (c.day == d.day && (c.hour < d.hour
    || (c.hour == d.hour && c.minute < d.minute)))))))
  }

  predicate SameMinute(c: Civil, d: Civil) {
    c.year == d.year && c.month == d.month && c.day == d.day && c.hour == d.hour && c.minute == d.minute
  }

  predicate Earlier(c: Civil, d: Civil) {
    EarlierMinute(c, d)
    || (SameMinute(c, d) && (c.second < d.second || (c.second == d.second && c.nano < d.nano)))
  }

  // ---- Formatting ----

  function Digit(n: nat): char
    requires n < 10
  {
    ('0' as int + n) as char
  }

  function Pad2(n: nat): (s: string)
    requires n < 100
    ensures |s| == 2
  {
    [Digit(n / 10), Digit(n % 10)]
  }

  function Pad4(n: nat): (s: string)
    requires n < 10000
    ensures |s| == 4
  {
    Pad2(n / 100) + Pad2(n % 100)
  }

  /** Format("15:04"). */
  function FormatClock(c: Civil): string
    requires InRange(c)
  {
    Pad2(c.hour) + ":" + Pad2(c.minute)
  }

  /** Format("02 15:04"). */
  function FormatDay(c: Civil): string
    requires InRange(c)
  {
    Pad2(c.day) + " " + FormatClock(c)
  }

  /** Format("01-02 15:04"). */
  function FormatMonth(c: Civil): string
    requires InRange(c)
  {
    Pad2(c.month) + "-" + FormatDay(c)
  }

  /** Format("2006-01-02 15:04"). */
  function Format(c: Civil): string
    requires InRange(c)
  {
    Pad4(c.year) + "-" + FormatMonth(c)
  }

  lemma Pad2Order(m: nat, n: nat)
    requires m < 100 && n < 100
    ensures Less(Pad2(m), Pad2(n)) <==> m < n
    ensures Pad2(m) == Pad2(n) <==> m == n
  {
    var x, y := Pad2(m), Pad2(n);
    assert x[1..] == [Digit(m % 10)] && y[1..] == [Digit(n % 10)];
    assert Less(x[1..], y[1..]) <==> m % 10 < n % 10;
    assert x[0] < y[0] <==> m / 10 < n / 10;
    assert x[0] == Digit(m / 10) && y[0] == Digit(n / 10) && x[1] == Digit(m % 10) && y[1] == Digit(n % 10);
  }

  /** Fields of one length before a common separator are compared first, and the rest only if they agree. */
  lemma FieldFirst(p: string, q: string, sep: string, a: string, b: string)
    requires |p| == |q|
    ensures Less(p + sep + a, q + sep + b) <==> Less(p, q) || (p == q && Less(a, b))
    ensures p + sep + a == q + sep + b <==> p == q && a == b
  {
    assert p + sep + a == p + (sep + a) && q + sep + b == q + (sep + b);
    LessIrreflexive(p);
    if p == q {
      LessCommonPrefix(p + sep, a, b);
    } else {
      LessByPrefix(p, q, sep + a, sep + b);
    }
    SameFields(p, q, sep, a, b);
  }

  lemma SameFields(p: string, q: string, sep: string, a: string, b: string)
    requires |p| == |q|
    ensures p + sep + a == q + sep + b <==> p == q && a == b
  {
    var x, y := p + sep + a, q + sep + b;
    assert x[..|p|] == p && y[..|p|] == q;
    assert x[|p| + |sep|..] == a && y[|p| + |sep|..] == b;
  }

  lemma Pad4Order(m: nat, n: nat)
    requires m < 10000 && n < 10000
    ensures Less(Pad4(m), Pad4(n)) <==> m < n
    ensures Pad4(m) == Pad4(n) <==> m == n
  {
    Pad2Order(m / 100, n / 100);
    Pad2Order(m % 100, n % 100);
    FieldFirst(Pad2(m / 100), Pad2(n / 100), "", Pad2(m % 100), Pad2(n % 100));
    assert Pad2(m / 100) + "" == Pad2(m / 100) && Pad2(n / 100) + "" == Pad2(n / 100);
  }

  lemma ClockOrder(c: Civil, d: Civil)
    requires InRange(c) && InRange(d)
    ensures Less(FormatClock(c), FormatClock(d)) <==> c.hour < d.hour || (c.hour == d.hour && c.minute < d.minute)
    ensures FormatClock(c) == FormatClock(d) <==> c.hour == d.hour && c.minute == d.minute
  {
    Pad2Order(c.hour, d.hour);
    Pad2Order(c.minute, d.minute);
    FieldFirst(Pad2(c.hour), Pad2(d.hour), ":", Pad2(c.minute), Pad2(d.minute));
  }

  lemma MonthOrder(c: Civil, d: Civil)
    requires InRange(c) && InRange(d) && c.year == d.year
    ensures Less(FormatMonth(c), FormatMonth(d)) <==> EarlierMinute(c, d)
    ensures FormatMonth(c) == FormatMonth(d) <==> SameMinute(c, d)
  {
    ClockOrder(c, d);
    Pad2Order(c.day, d.day);
    Pad2Order(c.month, d.month);
    FieldFirst(Pad2(c.day), Pad2(d.day), " ", FormatClock(c), FormatClock(d));
    FieldFirst(Pad2(c.month), Pad2(d.month), "-", FormatDay(c), FormatDay(d));
  }

  /** Comparing formatted dates as strings is comparing the readings, truncated to the minute. */
  lemma FormatOrder(c: Civil, d: Civil)
    requires InRange(c) && InRange(d)
    ensures Less(Format(c), Format(d)) <==> EarlierMinute(c, d)
    ensures Format(c) == Format(d) <==> SameMinute(c, d)
  {
    Pad4Order(c.year, d.year);
    FieldFirst(Pad4(c.year), Pad4(d.year), "-", FormatMonth(c), FormatMonth(d));
    if c.year == d.year { MonthOrder(c, d); }
  }

  lemma Pad2Reads(n: nat)
    requires n < 100
    ensures AllDigits(Pad2(n)) && Decimal(Pad2(n)) == n
  {
    var s := Pad2(n);
    assert s[..1] == [s[0]] && s[..1][..0] == "";
    assert Decimal(s[..1]) == n / 10;
  }

  lemma Pad4Reads(n: nat)
    requires n < 10000
    ensures AllDigits(Pad4(n)) && Decimal(Pad4(n)) == n
  {
    var s, high, low := Pad4(n), Pad2(n / 100), Pad2(n % 100);
    Pad2Reads(n / 100);
    Pad2Reads(n % 100);
    assert low[..1] == [low[0]] && low[..1][..0] == "" && Decimal(low[..1]) == low[0] as int - '0' as int;
    assert s[..3] == high + [low[0]] && s[..3][..2] == high && s[3] == low[1];
    assert Decimal(s[..3]) == Decimal(high) * 10 + (low[0] as int - '0' as int);
  }

  /** A formatted date reads back as its year, month, day, hour and minute, with the separators of the layout. */
  lemma FormatReads(c: Civil)
    requires InRange(c)
    ensures
      var s := Format(c);
      && |s| == 16 && s[4] == '-' && s[7] == '-' && s[10] == ' ' && s[13] == ':'
      && AllDigits(s[..4] + s[5..7] + s[8..10] + s[11..13] + s[14..])
      && Decimal(s[..4]) == c.year && Decimal(s[5..7]) == c.month && Decimal(s[8..10]) == c.day
      && Decimal(s[11..13]) == c.hour && Decimal(s[14..]) == c.minute
  {
    var s := Format(c);
    Pad4Reads(c.year);
    Pad2Reads(c.month);
    Pad2Reads(c.day);
    Pad2Reads(c.hour);
    Pad2Reads(c.minute);
    assert s == Pad4(c.year) + "-" + Pad2(c.month) + "-" + Pad2(c.day) + " " + Pad2(c.hour) + ":" + Pad2(c.minute);
    assert s[..4] == Pad4(c.year) && s[5..7] == Pad2(c.month) && s[8..10] == Pad2(c.day);
    assert s[11..13] == Pad2(c.hour) && s[14..] == Pad2(c.minute);
  }

  // ---- Reading a release list up to the cutoff ----

  datatype Release = Release(tag: string, name: string, url: string, published: Time)

  datatype Entry = Entry(date: Time, service: string, tag: string, name: string, url: string)

  function EntryOf(service: string, r: Release): Entry {
    Entry(r.published, service, r.tag, r.name, r.url)
  }

  predicate Before(r: Release, cutoff: int) {
    r.published.instant < cutoff
  }

  /** The entries of the releases not before the cutoff: what the timeline is meant to show. */
  function Recent(service: string, rs: seq<Release>, cutoff: int): seq<Entry> {
    if rs == [] then []
    else if Before(rs[0], cutoff) then Recent(service, rs[1..], cutoff)
    else [EntryOf(service, rs[0])] + Recent(service, rs[1..], cutoff)
  }

  /** The entries of the releases up to the first one before the cutoff. */
  function Leading(service: string, rs: seq<Release>, cutoff: int): seq<Entry> {
    if rs == [] || Before(rs[0], cutoff) then []
    else [EntryOf(service, rs[0])] + Leading(service, rs[1..], cutoff)
  }

  ghost predicate NewestFirst(rs: seq<Release>) {
    forall i, j | 0 <= i < j < |rs| :: rs[j].published.instant <= rs[i].published.instant
  }

  /** The entry shows the `k`-th release, before which no release is older than the cutoff, nor is it itself. */
  predicate Shows(e: Entry, service: string, rs: seq<Release>, k: nat, cutoff: int) {
    && k < |rs| && (forall l | 0 <= l <= k :: rs[l].published.instant >= cutoff)
    && e.service == service && e.tag == rs[k].tag && e.name == rs[k].name && e.url == rs[k].url
    && e.date == rs[k].published
  }

  /** What a list contributes are its releases down to the first one older than the cutoff, in order. */
  lemma {:induction false} LeadingShows(service: string, rs: seq<Release>, cutoff: int)
    ensures
      var n := |Leading(service, rs, cutoff)|;
      && n <= |rs| && (n < |rs| ==> rs[n].published.instant < cutoff)
      && forall k | 0 <= k < n :: Shows(Leading(service, rs, cutoff)[k], service, rs, k, cutoff)
  {
    if rs != [] && !Before(rs[0], cutoff) {
      LeadingShows(service, rs[1..], cutoff);
      var later := Leading(service, rs[1..], cutoff);
      forall k | 0 <= k < |later| + 1 ensures Shows(Leading(service, rs, cutoff)[k], service, rs, k, cutoff) {
        if k > 0 {
          assert Shows(later[k - 1], service, rs[1..], k - 1, cutoff);
          forall l | 0 <= l <= k ensures rs[l].published.instant >= cutoff {
            if l > 0 { assert rs[1..][l - 1] == rs[l]; }
          }
        }
      }
    }
  }

  /** The loop with its break, appending to the shared list. */
  method Collect(service: string, releases: seq<Release>, cutoff: int, start: seq<Entry>) returns (entries: seq<Entry>)
    ensures entries == start + Leading(service, releases, cutoff)
    ensures NewestFirst(releases) ==> entries == start + Recent(service, releases, cutoff)
  {
    entries := start;
    ghost var ordered := NewestFirst(releases);
    if ordered { BreakIsFilter(service, releases, cutoff); }
    for i := 0 to |releases|
      invariant entries + Leading(service, releases[i..], cutoff) == start + Leading(service, releases, cutoff)
    {
      assert releases[i..][0] == releases[i] && releases[i..][1..] == releases[i + 1..];
      if Before(releases[i], cutoff) { break; }
      entries := entries + [EntryOf(service, releases[i])];
    }
  }

  lemma {:induction false} BreakIsFilter(service: string, rs: seq<Release>, cutoff: int)
    requires NewestFirst(rs)
    ensures Leading(service, rs, cutoff) == Recent(service, rs, cutoff)
  {
    if rs != [] {
      assert forall i | 0 <= i < |rs[1..]| :: rs[1..][i] == rs[i + 1];
      BreakIsFilter(service, rs[1..], cutoff);
      if Before(rs[0], cutoff) { NoneRecent(service, rs[1..], cutoff); }
    }
  }

  lemma {:induction false} NoneRecent(service: string, rs: seq<Release>, cutoff: int)
    requires forall i | 0 <= i < |rs| :: Before(rs[i], cutoff)
    ensures Recent(service, rs, cutoff) == []
  {
    if rs != [] { NoneRecent(service, rs[1..], cutoff); }
  }

  lemma {:induction false} SomeRecent(service: string, rs: seq<Release>, cutoff: int, j: nat)
    requires j < |rs| && !Before(rs[j], cutoff)
    ensures Recent(service, rs, cutoff) != []
  {
    if j > 0 { SomeRecent(service, rs[1..], cutoff, j - 1); }
  }

  /** Breaking at the cutoff is filtering by it, for every cutoff, exactly when the list is newest first. */
  lemma BreakIsFilterIff(service: string, rs: seq<Release>)
    ensures (forall cutoff :: Leading(service, rs, cutoff) == Recent(service, rs, cutoff)) <==> NewestFirst(rs)
  {
    if NewestFirst(rs) {
      forall cutoff ensures Leading(service, rs, cutoff) == Recent(service, rs, cutoff) {
        BreakIsFilter(service, rs, cutoff);
      }
    } else {
      var cutoff := OutOfOrder(service, rs);
    }
  }

  lemma {:induction false} OutOfOrder(service: string, rs: seq<Release>) returns (cutoff: int)
    requires !NewestFirst(rs)
    ensures Leading(service, rs, cutoff) != Recent(service, rs, cutoff)
  {
    var i, j :| 0 <= i < j < |rs| && rs[i].published.instant < rs[j].published.instant;
    cutoff := rs[j].published.instant;
    MissesLater(service, rs, cutoff, i, j);
  }

  lemma {:induction false} MissesLater(service: string, rs: seq<Release>, cutoff: int, i: nat, j: nat)
    requires i < j < |rs| && Before(rs[i], cutoff) && !Before(rs[j], cutoff)
    ensures |Leading(service, rs, cutoff)| < |Recent(service, rs, cutoff)|
  {
    if Before(rs[0], cutoff) {
      SomeRecent(service, rs, cutoff, j);
    } else {
      MissesLater(service, rs[1..], cutoff, i - 1, j - 1);
    }
  }

  // ---- The shared list of entries ----

  /** A service with the releases its provider lists, none when the lookup fails. */
  datatype Source = Source(service: string, releases: seq<Release>)

  /** What all services contribute, one after the other. */
  function AllLeading(sources: seq<Source>, cutoff: int): seq<Entry> {
    if sources == [] then []
    else
      var last := sources[|sources| - 1];
      AllLeading(sources[..|sources| - 1], cutoff) + Leading(last.service, last.releases, cutoff)
  }

  function Unread(sources: seq<Source>): nat {
    if sources == [] then 0 else Unread(sources[..|sources| - 1]) + |sources[|sources| - 1].releases|
  }

  /** What one list, read up to some point, still contributes. */
  function Own(src: Source, cutoff: int): multiset<Entry> {
    multiset(Leading(src.service, src.releases, cutoff))
  }

  function Owns(sources: seq<Source>, cutoff: int): seq<multiset<Entry>> {
    seq(|sources|, i requires 0 <= i < |sources| => Own(sources[i], cutoff))
  }

  /** The entries still to come from lists that have been read up to some point. */
  function Coming(sources: seq<Source>, cutoff: int): multiset<Entry> {
    Sum(Owns(sources, cutoff))
  }

  lemma {:induction false} ComingIs(sources: seq<Source>, cutoff: int)
    ensures Coming(sources, cutoff) == multiset(AllLeading(sources, cutoff))
  {
    if sources != [] {
      var n := |sources| - 1;
      assert Owns(sources, cutoff)[..n] == Owns(sources[..n], cutoff);
      ComingIs(sources[..n], cutoff);
    }
  }

  lemma ReadOn(sources: seq<Source>, i: nat, next: Source, cutoff: int)
    requires i < |sources|
    ensures Coming(sources[i := next], cutoff) + Own(sources[i], cutoff) == Coming(sources, cutoff) + Own(next, cutoff)
  {
    assert Owns(sources[i := next], cutoff) == Owns(sources, cutoff)[i := Own(next, cutoff)];
    SumUpdate(Owns(sources, cutoff), i, Own(next, cutoff));
  }

  lemma {:induction false} LessUnread(sources: seq<Source>, i: nat, next: Source)
    requires i < |sources| && |next.releases| < |sources[i].releases|
    ensures Unread(sources[i := next]) < Unread(sources)
  {
    var after, n := sources[i := next], |sources| - 1;
    if i < n {
      LessUnread(sources[..n], i, next);
      assert after[..n] == sources[..n][i := next];
    } else {
      assert after[..n] == sources[..n];
    }
  }

  lemma NothingComing(sources: seq<Source>, cutoff: int)
    requires forall i | 0 <= i < |sources| :: sources[i].releases == []
    ensures Coming(sources, cutoff) == multiset{}
  {
    SumNone(Owns(sources, cutoff));
  }

  /** The goroutine after its next release: done at the first old one, else one further. */
  function Advance(src: Source, cutoff: int): Source
    requires src.releases != []
  {
    src.(releases := if Before(src.releases[0], cutoff) then [] else src.releases[1..])
  }

  lemma AdvanceOwn(src: Source, cutoff: int)
    requires src.releases != []
    ensures Before(src.releases[0], cutoff) ==> Own(src, cutoff) == Own(Advance(src, cutoff), cutoff)
    ensures !Before(src.releases[0], cutoff) ==>
              Own(src, cutoff) == multiset{EntryOf(src.service, src.releases[0])} + Own(Advance(src, cutoff), cutoff)
  {
    var e := EntryOf(src.service, src.releases[0]);
    var later := Leading(src.service, src.releases[1..], cutoff);
    assert multiset([e] + later) == multiset{e} + multiset(later);
  }

  lemma AdvanceGives(sources: seq<Source>, i: nat, cutoff: int)
    requires i < |sources| && sources[i].releases != []
    ensures var src, after := sources[i], Coming(sources[i := Advance(sources[i], cutoff)], cutoff);
      Coming(sources, cutoff) ==
        if Before(src.releases[0], cutoff) then after else after + multiset{EntryOf(src.service, src.releases[0])}
  {
    var src := sources[i];
    var next, e := Advance(src, cutoff), EntryOf(src.service, src.releases[0]);
    var before, after := Coming(sources, cutoff), Coming(sources[i := next], cutoff);
    ReadOn(sources, i, next, cutoff);
    AdvanceOwn(src, cutoff);
    if Before(src.releases[0], cutoff) {
      Cancel(before, after, Own(next, cutoff));
    } else {
      var own := Own(next, cutoff);
      assert after + (multiset{e} + own) == after + multiset{e} + own;
      Cancel(before, after + multiset{e}, own);
    }
  }

  /**
   One goroutine per service: each reads on in its own list and appends to the shared one under the mutex, in any
   interleaving. What comes together is a permutation of what all services contribute.
   */
  method Gather(sources: seq<Source>, cutoff: int) returns (entries: seq<Entry>)
    ensures multiset(entries) == multiset(AllLeading(sources, cutoff))
  {
    entries := [];
    var rest := sources;
    ComingIs(sources, cutoff);
    while exists i :: 0 <= i < |rest| && rest[i].releases != []
      invariant multiset(entries) + Coming(rest, cutoff) == Coming(sources, cutoff)
      decreases Unread(rest)
    {
      var i :| 0 <= i < |rest| && rest[i].releases != [];
      var r, next := rest[i].releases[0], Advance(rest[i], cutoff);
      ghost var coming := Coming(rest[i := next], cutoff);
      AdvanceGives(rest, i, cutoff);
      LessUnread(rest, i, next);
      if !Before(r, cutoff) {
        Append(entries, EntryOf(rest[i].service, r), coming);
        entries := entries + [EntryOf(rest[i].service, r)];
      }
      assert multiset(entries) + coming == Coming(sources, cutoff);
      rest := rest[i := next];
    }
    NothingComing(rest, cutoff);
  }

  // ---- Sorting ----

  ghost predicate AllInRange(s: seq<Entry>) {
    forall e | e in s :: InRange(e.date.local)
  }

  /** The date string of an entry; years of more than four digits are outside of this model. */
  function DateText(e: Entry): string {
    if InRange(e.date.local) then Format(e.date.local) else ""
  }

  /** The MCP tool: entries[i].Date > entries[j].Date, on strings. */
  predicate LaterDate(e: Entry, f: Entry) {
    Less(DateText(f), DateText(e))
  }

  /** The command: entries[i].Date.After(entries[j].Date). */
  predicate LaterTime(e: Entry, f: Entry) {
    f.date.instant < e.date.instant
  }

  /** All clocks are in one zone, without a change of offset: readings order as instants do. */
  ghost predicate OneZone(s: seq<Entry>) {
    forall e, f | e in s && f in s ::
      (e.date.instant < f.date.instant <==> Earlier(e.date.local, f.date.local))
  }

  /** No later entry reads an earlier minute, and simultaneous entries read the same one. */
  ghost predicate ClocksAgree(s: seq<Entry>) {
    forall e, f | e in s && f in s && e.date.instant <= f.date.instant ::
      !EarlierMinute(f.date.local, e.date.local)
  }

  lemma OneZoneClocksAgree(s: seq<Entry>)
    requires OneZone(s)
    ensures ClocksAgree(s)
  {
  }

  /** The date column of an output, as both programs print it. */
  function Column(s: seq<Entry>): (dates: seq<string>)
    requires forall i | 0 <= i < |s| :: InRange(s[i].date.local)
    ensures |dates| == |s|
    ensures forall i | 0 <= i < |s| :: dates[i] == Format(s[i].date.local)
  {
    seq(|s|, i requires 0 <= i < |s| => Format(s[i].date.local))
  }

  predicate Greater(a: string, b: string) {
    Less(b, a)
  }

  lemma ColumnAppend(a: seq<Entry>, b: seq<Entry>)
    requires AllInRange(a) && AllInRange(b)
    ensures AllInRange(a + b) && Column(a + b) == Column(a) + Column(b)
  {
  }

  lemma ColumnOne(e: Entry)
    requires InRange(e.date.local)
    ensures AllInRange([e]) && Column([e]) == [Format(e.date.local)]
  {
  }

  lemma ColumnMiddle(a: seq<Entry>, e: Entry, b: seq<Entry>)
    requires AllInRange(a) && InRange(e.date.local) && AllInRange(b)
    ensures AllInRange(a + [e] + b) && AllInRange(a + b)
    ensures multiset(Column(a + [e] + b)) == multiset(Column(a + b)) + multiset{Format(e.date.local)}
  {
    ColumnOne(e);
    ColumnAppend(a, [e]);
    ColumnAppend(a + [e], b);
    ColumnAppend(a, b);
  }

  lemma RemovePermuted(out: seq<Entry>, i: nat, s: seq<Entry>, last: Entry)
    requires i < |out| && out[i] == last && multiset(out) == multiset(s + [last])
    ensures multiset(out[..i] + out[i + 1..]) == multiset(s)
    ensures out == out[..i] + [last] + out[i + 1..]
  {
    assert out == out[..i] + [last] + out[i + 1..];
    assert multiset(out[..i] + out[i + 1..]) == multiset(out) - multiset{last};
    assert multiset(s) == multiset(s + [last]) - multiset{last};
  }

  lemma {:induction false} ColumnPermuted(s: seq<Entry>, out: seq<Entry>)
    requires AllInRange(s) && multiset(out) == multiset(s)
    ensures AllInRange(out) && multiset(Column(out)) == multiset(Column(s))
  {
    PermutationFacts(s, out);
    if s == [] {
      assert Column(out) == Column(s);
    } else {
      var before, last := s[..|s| - 1], s[|s| - 1];
      assert s == before + [last] == before + [last] + [] && before + [] == before;
      assert last in out;
      var i :| 0 <= i < |out| && out[i] == last;
      RemovePermuted(out, i, before, last);
      ColumnPermuted(before, out[..i] + out[i + 1..]);
      ColumnMiddle(before, last, []);
      ColumnMiddle(out[..i], last, out[i + 1..]);
    }
  }

  /** Sorted by time, the dates are in order too, where the clocks agree. */
  lemma TimeSortedColumn(s: seq<Entry>, out: seq<Entry>)
    requires AllInRange(s) && ClocksAgree(s) && SortOf(LaterTime, s, out)
    ensures AllInRange(out) && Sorted(Greater, Column(out))
  {
    PermutationFacts(s, out);
    forall i, j | 0 <= i < j < |out| ensures !Greater(Column(out)[j], Column(out)[i]) {
      FormatOrder(out[i].date.local, out[j].date.local);
      assert out[i] in s && out[j] in s;
    }
  }

  lemma DateSortedColumn(s: seq<Entry>, out: seq<Entry>)
    requires AllInRange(s) && SortOf(LaterDate, s, out)
    ensures AllInRange(out) && Sorted(Greater, Column(out))
  {
    PermutationFacts(s, out);
    forall i, j | 0 <= i < j < |out| ensures !Greater(Column(out)[j], Column(out)[i]) {
      assert out[i] in s && out[j] in s;
    }
  }

  /** The command lists the newest release first. */
  lemma CommandNewestFirst(s: seq<Entry>, out: seq<Entry>, i: nat, j: nat)
    requires SortOf(LaterTime, s, out) && i < j < |out|
    ensures out[j].date.instant <= out[i].date.instant
  {
    assert !LaterTime(out[j], out[i]);
  }

  /** The tool lists no earlier minute before a later one. */
  lemma ToolNewestFirst(s: seq<Entry>, out: seq<Entry>, i: nat, j: nat)
    requires AllInRange(s) && SortOf(LaterDate, s, out) && i < j < |out|
    ensures !EarlierMinute(out[i].date.local, out[j].date.local)
  {
    PermutationFacts(s, out);
    assert out[i] in s && out[j] in s && !LaterDate(out[j], out[i]);
    FormatOrder(out[i].date.local, out[j].date.local);
  }

  lemma GreaterTotal()
    ensures Total(Greater)
  {
    forall x, y ensures Greater(x, y) || x == y || Greater(y, x) { LessTotal(x, y); }
  }

  /**
   Whatever order the goroutines appended in and whatever either unstable sort did, the tool and the command
   show the same date column, provided the clocks agree.
   */
  lemma SameColumn(s: seq<Entry>, t: seq<Entry>, mcp: seq<Entry>, cli: seq<Entry>)
    requires AllInRange(s) && multiset(s) == multiset(t) && ClocksAgree(s)
    requires SortOf(LaterDate, s, mcp) && SortOf(LaterTime, t, cli)
    ensures AllInRange(mcp) && AllInRange(cli) && Column(mcp) == Column(cli)
  {
    DateSortedColumn(s, mcp);
    TimeSortedColumn(s, cli);
    ColumnPermuted(s, mcp);
    ColumnPermuted(s, cli);
    GreaterTotal();
    SortUnique(Greater, Column(mcp), Column(cli));
  }

  /** From the services' release lists to the output: the tool and the command show the same date column. */
  lemma SameTimeline(sources: seq<Source>, cutoff: int, s: seq<Entry>, t: seq<Entry>, mcp: seq<Entry>, cli: seq<Entry>)
    requires AllInRange(AllLeading(sources, cutoff)) && ClocksAgree(AllLeading(sources, cutoff))
    requires multiset(s) == multiset(t) == multiset(AllLeading(sources, cutoff))
    requires SortOf(LaterDate, s, mcp) && SortOf(LaterTime, t, cli)
    ensures AllInRange(mcp) && AllInRange(cli) && Column(mcp) == Column(cli)
  {
    SameColumn(AllLeading(sources, cutoff), t, mcp, cli);
  }

  /** Conversely, one same column shows that no later entry reads an earlier minute. */
  lemma SameColumnShows(s: seq<Entry>, mcp: seq<Entry>, cli: seq<Entry>, e: Entry, f: Entry)
    requires AllInRange(s) && SortOf(LaterDate, s, mcp) && SortOf(LaterTime, s, cli)
    requires AllInRange(mcp) && AllInRange(cli) && Column(mcp) == Column(cli)
    requires e in s && f in s && e.date.instant < f.date.instant
    ensures !EarlierMinute(f.date.local, e.date.local)
  {
    PermutationFacts(s, cli);
    DateSortedColumn(s, mcp);
    var i :| 0 <= i < |cli| && cli[i] == e;
    var j :| 0 <= j < |cli| && cli[j] == f;
    assert i != j && !(i < j && LaterTime(f, e));
    assert !Greater(Column(cli)[i], Column(cli)[j]);
    FormatOrder(f.date.local, e.date.local);
  }

  ghost predicate SameDates(mcp: seq<Entry>, cli: seq<Entry>) {
    AllInRange(mcp) && AllInRange(cli) && Column(mcp) == Column(cli)
  }

  /** The tool and the command show one date column, whatever their unstable sorts do. */
  ghost predicate AlwaysSameDates(s: seq<Entry>) {
    forall mcp, cli | SortOf(LaterDate, s, mcp) && SortOf(LaterTime, s, cli) :: SameDates(mcp, cli)
  }

  lemma SortsExist(s: seq<Entry>) returns (mcp: seq<Entry>, cli: seq<Entry>)
    ensures SortOf(LaterDate, s, mcp) && SortOf(LaterTime, s, cli)
  {
    StringOrder();
    assert StrictWeakOrder(LaterDate);
    SortSorts(LaterDate, s);
    SortSorts(LaterTime, s);
    mcp, cli := Sort(LaterDate, s), Sort(LaterTime, s);
  }

  /** Simultaneous entries may change places. */
  lemma SwapTies(s: seq<Entry>, cli: seq<Entry>, i: nat, j: nat)
    requires SortOf(LaterTime, s, cli) && i < j < |cli| && cli[i].date.instant == cli[j].date.instant
    ensures SortOf(LaterTime, s, cli[i := cli[j]][j := cli[i]])
  {
    var out := cli[i := cli[j]][j := cli[i]];
    assert forall k | 0 <= k < |cli| :: out[k].date.instant == cli[k].date.instant;
    assert multiset(out) == multiset(cli);
  }

  lemma UnsortedDiffers(mcp: seq<Entry>, out: seq<Entry>, x: nat, y: nat)
    requires AllInRange(mcp) && AllInRange(out) && Sorted(Greater, Column(mcp))
    requires x < y < |out| && EarlierMinute(out[x].date.local, out[y].date.local)
    ensures Column(mcp) != Column(out)
  {
    FormatOrder(out[x].date.local, out[y].date.local);
    assert Greater(Column(out)[y], Column(out)[x]);
  }

  /** Two simultaneous entries that read different minutes: some outcome of the command has them out of order. */
  lemma TiesShow(s: seq<Entry>, e: Entry, f: Entry)
    requires AllInRange(s) && e in s && f in s && e.date.instant == f.date.instant
    requires EarlierMinute(f.date.local, e.date.local)
    ensures !AlwaysSameDates(s)
  {
    var mcp, cli := SortsExist(s);
    PermutationFacts(s, cli);
    DateSortedColumn(s, mcp);
    var i :| 0 <= i < |cli| && cli[i] == e;
    var j :| 0 <= j < |cli| && cli[j] == f;
    var out, x, y := cli, j, i;
    if i < j {
      SwapTies(s, cli, i, j);
      out, x, y := cli[i := cli[j]][j := cli[i]], i, j;
    }
    assert x < y && out[x] == f && out[y] == e && SortOf(LaterTime, s, out);
    PermutationFacts(s, out);
    UnsortedDiffers(mcp, out, x, y);
    assert !SameDates(mcp, out);
  }

  /** The columns are the same for all outcomes of both sorts if and only if the clocks agree. */
  lemma SameColumnIff(s: seq<Entry>)
    requires AllInRange(s)
    ensures AlwaysSameDates(s) <==> ClocksAgree(s)
  {
    if ClocksAgree(s) {
      forall mcp, cli | SortOf(LaterDate, s, mcp) && SortOf(LaterTime, s, cli) ensures SameDates(mcp, cli) {
        SameColumn(s, s, mcp, cli);
      }
    } else {
      var e, f :| e in s && f in s && e.date.instant <= f.date.instant && EarlierMinute(f.date.local, e.date.local);
      if e.date.instant == f.date.instant {
        TiesShow(s, e, f);
      } else if AlwaysSameDates(s) {
        var mcp, cli := SortsExist(s);
        assert SameDates(mcp, cli);
        SameColumnShows(s, mcp, cli, e, f);
      }
    }
  }

  /** The string sort refines the time sort up to ties within a minute. */
  lemma DateSortRefines(s: seq<Entry>, mcp: seq<Entry>, i: nat, j: nat)
    requires AllInRange(s) && OneZone(s) && SortOf(LaterDate, s, mcp) && i < j < |mcp|
    ensures mcp[j].date.instant <= mcp[i].date.instant || SameMinute(mcp[i].date.local, mcp[j].date.local)
  {
    PermutationFacts(s, mcp);
    assert mcp[i] in s && mcp[j] in s;
    FormatOrder(mcp[i].date.local, mcp[j].date.local);
  }
}
