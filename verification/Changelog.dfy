/**
 The changelog windows (internal/mcpserver/tools_extended.go, cmd/releasewave/diff.go): one loop over the
 releases, newest first, with a flag that is set at the upper end and a break after the lower end.
 */
module Changelog {
  import opened GoStrings
  import opened Wrappers

  datatype Release = Release(tag: string, name: string, body: string, date: string)

  /** The position of the first release whose tag satisfies `p`; the length when there is none. */
  function First(rs: seq<Release>, p: string -> bool): (i: nat)
    ensures i <= |rs|
    ensures i < |rs| ==> p(rs[i].tag)
    ensures forall k | 0 <= k < i :: !p(rs[k].tag)
  {
    if rs == [] || p(rs[0].tag) then 0 else 1 + First(rs[1..], p)
  }

  function Is(tag: string): string -> bool {
    t => t == tag
  }

  /** The part of the list from position `t` through position `s`, as far as there is one. */
  function Part<T>(rs: seq<T>, t: nat, s: nat): seq<T> {
    if t > s || t >= |rs| then [] else if s >= |rs| then rs[t..] else rs[t..s + 1]
  }

  /** The releases from the first `to` through the first lower end; none if that comes before the upper end. */
  function Window(rs: seq<Release>, to: string, stop: string -> bool): seq<Release> {
    Part(rs, First(rs, Is(to)), First(rs, stop))
  }

  /** One more position of a part that has not ended yet. */
  lemma PartSnoc<T>(rs: seq<T>, t: nat, i: nat)
    requires i < |rs|
    ensures Part(rs[..i + 1], t, i) == Part(rs, t, i)
    ensures t <= i ==> Part(rs, t, i) == Part(rs[..i], t, i) + [rs[i]]
    ensures t > i ==> Part(rs, t, i) == []
  {
  }

  /** The position a scan has reached is the first hit when it is one. */
  lemma Reached(rs: seq<Release>, p: string -> bool, i: nat)
    requires i < |rs| && i <= First(rs, p)
    ensures p(rs[i].tag) <==> First(rs, p) == i
  {
  }

  // ---- The three loops ----

  /** changelog_between_versions. */
  method ChangelogBetween(releases: seq<Release>, from: string, to: string) returns (changelog: seq<Release>)
    ensures changelog == Window(releases, to, Is(from))
  {
    ghost var t, s := First(releases, Is(to)), First(releases, Is(from));
    changelog := [];
    var inRange := false;
    for i := 0 to |releases|
      invariant i <= s && (inRange <==> t < i)
      invariant changelog == Part(releases[..i], t, i)
    {
      Reached(releases, Is(from), i);
      if !inRange { Reached(releases, Is(to), i); }
      PartSnoc(releases, t, i);
      var r := releases[i];
      if r.tag == to { inRange := true; }
      if inRange { changelog := changelog + [r]; }
      if r.tag == from { return; }
    }
    assert releases[..|releases|] == releases;
  }

  /** The lower end of a diff: the deployed version, up to a leading `v`. */
  predicate StopsAt(deployed: string, tag: string) {
    tag == deployed || tag == "v" + deployed || TrimPrefix(tag, "v") == deployed
  }

  function Deployed(deployed: string): string -> bool {
    tag => StopsAt(deployed, tag)
  }

  /** The loop of release_diff. */
  method DiffChangelog(releases: seq<Release>, latest: string, deployed: string) returns (changelog: seq<Release>)
    ensures changelog == Window(releases, latest, Deployed(deployed))
  {
    ghost var t, s := First(releases, Is(latest)), First(releases, Deployed(deployed));
    changelog := [];
    var inRange := false;
    for i := 0 to |releases|
      invariant i <= s && (inRange <==> t < i)
      invariant changelog == Part(releases[..i], t, i)
    {
      Reached(releases, Deployed(deployed), i);
      if !inRange { Reached(releases, Is(latest), i); }
      PartSnoc(releases, t, i);
      var r := releases[i];
      if r.tag == latest { inRange := true; }
      if inRange { changelog := changelog + [r]; }
      var tag := r.tag;
      if tag == deployed || tag == "v" + deployed || TrimPrefix(tag, "v") == deployed {
        return;
      }
    }
    assert releases[..|releases|] == releases;
  }

  /** What release_diff reports beside the two versions; `NoList` when listing the releases failed. */
  datatype Diff = Behind(changelog: seq<Release>, versions: nat) | NoList | UpToDate | Unknown

  /** release_diff, for the outcome of ListReleases. */
  method ReleaseDiff(listing: Option<seq<Release>>, latest: string, deployed: string) returns (diff: Diff)
    ensures diff.Behind? <==> deployed != "" && deployed != latest && listing.Some?
    ensures diff.Behind? ==>
      diff.changelog == Window(listing.value, latest, Deployed(deployed)) && diff.versions == |diff.changelog|
    ensures diff.UpToDate? <==> deployed == latest
    ensures diff.Unknown? <==> deployed == "" && latest != ""
  {
    if deployed != "" && deployed != latest {
      if listing.None? { return NoList; }
      var changelog := DiffChangelog(listing.value, latest, deployed);
      return Behind(changelog, |changelog|);
    } else if deployed == latest {
      return UpToDate;
    }
    diff := Unknown;
  }

  /** What the command line prints of a release. */
  function Printed(r: Release): (string, string, string) {
    (r.tag, r.date, if r.name != "" && r.name != r.tag then r.name else "")
  }

  function PrintedAll(rs: seq<Release>): seq<(string, string, string)> {
    seq(|rs|, i requires 0 <= i < |rs| => Printed(rs[i]))
  }

  lemma PrintedSnoc(rs: seq<Release>, r: Release)
    ensures PrintedAll(rs + [r]) == PrintedAll(rs) + [Printed(r)]
  {
  }

  /** A line has its release's tag and date, and the name unless that is empty or the tag over again. */
  lemma PrintedShows(rs: seq<Release>, k: nat)
    requires k < |rs|
    ensures |PrintedAll(rs)| == |rs|
    ensures
      var (tag, date, name) := PrintedAll(rs)[k];
      && tag == rs[k].tag && date == rs[k].date
      && (name == "" <==> rs[k].name == "" || rs[k].name == rs[k].tag) && (name != "" ==> name == rs[k].name)
  {
  }

  /** The loop of the diff command, which prints as it goes. */
  method PrintDiff(releases: seq<Release>, latest: string, deployed: string)
    returns (lines: seq<(string, string, string)>)
    ensures lines == PrintedAll(Window(releases, latest, Deployed(deployed)))
  {
    ghost var t, s := First(releases, Is(latest)), First(releases, Deployed(deployed));
    lines := [];
    var inRange := false;
    for i := 0 to |releases|
      invariant i <= s && (inRange <==> t < i)
      invariant lines == PrintedAll(Part(releases[..i], t, i))
    {
      Reached(releases, Deployed(deployed), i);
      if !inRange { Reached(releases, Is(latest), i); }
      PartSnoc(releases, t, i);
      var r := releases[i];
      if r.tag == latest { inRange := true; }
      if inRange {
        PrintedSnoc(Part(releases[..i], t, i), r);
        if r.name != "" && r.name != r.tag {
          lines := lines + [(r.tag, r.date, r.name)];
        } else {
          lines := lines + [(r.tag, r.date, "")];
        }
      }
      var tag := r.tag;
      if tag == deployed || tag == "v" + deployed || TrimPrefix(tag, "v") == deployed { return; }
    }
    assert releases[..|releases|] == releases;
  }

  // ---- What a window holds ----

  lemma PartIs<T>(rs: seq<T>, t: nat, s: nat)
    requires s <= |rs|
    ensures var w := Part(rs, t, s);
      && (w != [] <==> t < |rs| && t <= s)
      && (w != [] ==> t + |w| <= |rs| && w == rs[t..t + |w|] && w[0] == rs[t])
      && (w != [] && s < |rs| ==> t + |w| == s + 1 && w[|w| - 1] == rs[s])
      && (w != [] && s == |rs| ==> t + |w| == |rs|)
  {
  }

  /** A window is a contiguous part of the list, from the first upper end to the first lower end. */
  lemma WindowIs(rs: seq<Release>, to: string, stop: string -> bool)
    ensures var w := Window(rs, to, stop);
      var t, s := First(rs, Is(to)), First(rs, stop);
      && (w != [] <==> t < |rs| && t <= s)
      && (w != [] ==> w[0].tag == to && t + |w| <= |rs| && w == rs[t..t + |w|])
      && (w != [] && s < |rs| ==> stop(w[|w| - 1].tag))
      && (w != [] && s == |rs| ==> t + |w| == |rs|)
      && (forall k | 0 <= k < |w| - 1 :: !stop(w[k].tag))
      && (forall k | 0 <= k < t :: rs[k].tag != to)
  {
    var t, s := First(rs, Is(to)), First(rs, stop);
    var w := Part(rs, t, s);
    PartIs(rs, t, s);
    forall k | 0 <= k < |w| - 1 ensures !stop(w[k].tag) { assert w[k] == rs[t + k]; }
  }

  lemma PartsCompose<T>(rs: seq<T>, i: nat, j: nat, k: nat)
    requires i <= j <= k <= |rs| && j < |rs|
    ensures Part(rs, j, k) != []
    ensures Part(rs, i, k) == Part(rs, i, j) + Part(rs, j, k)[1..]
  {
  }

  lemma PartSize<T>(rs: seq<T>, t: nat, s: nat)
    ensures |Part(rs, t, s)| == if t > s || t >= |rs| then 0 else if s >= |rs| then |rs| - t else s + 1 - t
  {
  }

  /** Windows compose: from `a` to `c` is from `b` to `c` and then from `a` to `b`, without naming `b` twice. */
  lemma WindowsCompose(rs: seq<Release>, a: string, b: string, c: string)
    requires First(rs, Is(c)) <= First(rs, Is(b)) <= First(rs, Is(a)) && First(rs, Is(b)) < |rs|
    ensures Window(rs, b, Is(a)) != []
    ensures Window(rs, c, Is(a)) == Window(rs, c, Is(b)) + Window(rs, b, Is(a))[1..]
  {
    PartsCompose(rs, First(rs, Is(c)), First(rs, Is(b)), First(rs, Is(a)));
  }

  /** With `b` in the list, windows compose exactly when `b` lies between the two ends. */
  lemma ComposesIff(rs: seq<Release>, a: string, b: string, c: string)
    requires First(rs, Is(b)) < |rs| && Window(rs, c, Is(b)) != []
    ensures Window(rs, b, Is(a)) != [] &&
        Window(rs, c, Is(a)) == Window(rs, c, Is(b)) + Window(rs, b, Is(a))[1..]
      <==> First(rs, Is(c)) <= First(rs, Is(b)) <= First(rs, Is(a))
  {
    var i, j, k := First(rs, Is(c)), First(rs, Is(b)), First(rs, Is(a));
    PartSize(rs, i, j);
    PartSize(rs, j, k);
    if j <= k { PartsCompose(rs, i, j, k); }
  }

  // ---- The lower end of a diff ----

  /** The three tests of the loop come down to two tags. */
  lemma StopsIff(deployed: string, tag: string)
    ensures StopsAt(deployed, tag) <==> tag == deployed || tag == "v" + deployed
  {
    if HasPrefix(tag, "v") { assert tag == "v" + tag[1..]; }
  }

  lemma {:induction false} FirstSame(rs: seq<Release>, p: string -> bool, q: string -> bool)
    requires forall r | r in rs :: p(r.tag) == q(r.tag)
    ensures First(rs, p) == First(rs, q)
  {
    if rs != [] && !p(rs[0].tag) { FirstSame(rs[1..], p, q); }
  }

  /**
   A diff is the changelog window that ends at the deployed version, written as the releases are tagged: with
   a leading `v` if no release has the bare tag, and without it if no release has that.
   */
  lemma DiffIsChangelog(rs: seq<Release>, latest: string, deployed: string)
    ensures (forall r | r in rs :: r.tag != deployed) ==>
      Window(rs, latest, Deployed(deployed)) == Window(rs, latest, Is("v" + deployed))
    ensures (forall r | r in rs :: r.tag != "v" + deployed) ==>
      Window(rs, latest, Deployed(deployed)) == Window(rs, latest, Is(deployed))
  {
    forall r | r in rs ensures StopsAt(deployed, r.tag) <==> r.tag == deployed || r.tag == "v" + deployed {
      StopsIff(deployed, r.tag);
    }
    if forall r | r in rs :: r.tag != deployed { FirstSame(rs, Deployed(deployed), Is("v" + deployed)); }
    if forall r | r in rs :: r.tag != "v" + deployed { FirstSame(rs, Deployed(deployed), Is(deployed)); }
  }

  /** The leading `v` counts one way only: deployed as "v" + x, a release tagged x does not end the window. */
  lemma LeadingVOneWay(rs: seq<Release>, latest: string, x: string)
    requires forall r | r in rs :: r.tag != "v" + x && r.tag != "v" + ("v" + x)
    ensures Window(rs, latest, Deployed("v" + x)) == rs[First(rs, Is(latest))..]
  {
    forall r | r in rs ensures !StopsAt("v" + x, r.tag) { StopsIff("v" + x, r.tag); }
    var s := First(rs, Deployed("v" + x));
    PartSize(rs, First(rs, Is(latest)), s);
  }

  /** The deployed release counts itself among the versions it is behind. */
  lemma BehindCountsDeployed(rs: seq<Release>, latest: string, deployed: string)
    requires First(rs, Is(latest)) <= First(rs, Deployed(deployed)) < |rs|
    ensures |Window(rs, latest, Deployed(deployed))| == First(rs, Deployed(deployed)) - First(rs, Is(latest)) + 1
  {
  }
}
