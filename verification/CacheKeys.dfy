/** The keys under which provider answers are cached (internal/cache/cache.go, internal/provider/cached.go). */
module CacheKeys {
  import opened GoStrings

  /** cache.Key: the parts joined with ':'. */
  method Key(parts: seq<string>) returns (k: string)
    ensures k == Join(parts, ":")
  {
    k := "";
    for i := 0 to |parts|
      invariant k == Join(parts[..i], ":")
    {
      JoinSnoc(parts[..i], parts[i], ":");
      assert parts[..i + 1] == parts[..i] + [parts[i]];
      if i > 0 {
        k := k + ":";
      }
      k := k + parts[i];
    }
    assert parts[..|parts|] == parts;
  }

  lemma {:induction false} JoinSnoc(parts: seq<string>, last: string, sep: string)
    ensures Join(parts + [last], sep) == if parts == [] then last else Join(parts, sep) + sep + last
  {
    if |parts| > 1 {
      JoinSnoc(parts[1..], last, sep);
      assert (parts + [last])[1..] == parts[1..] + [last];
    }
  }

  // ---- Requests ----

  datatype Kind = Releases | Latest | Tags | File

  function KindName(kind: Kind): string {
    match kind
    case Releases => "releases"
    case Latest => "latest"
    case Tags => "tags"
    case File => "file"
  }

  /** One cached call; `path` is used by File only. */
  datatype Request = Request(provider: string, kind: Kind, owner: string, repo: string, path: string)

  /** Provider names hold no colon ("github" and "gitlab" in the program). */
  predicate WellFormed(r: Request) {
    ':' !in r.provider && (r.kind != File ==> r.path == "")
  }

  function Parts(r: Request): seq<string> {
    [r.provider, KindName(r.kind), r.owner, r.repo] + if r.kind == File then [r.path] else []
  }

  function KeyOf(r: Request): string {
    Join(Parts(r), ":")
  }

  /** What follows provider and kind in the key. */
  function Tail(r: Request): string {
    r.owner + ":" + if r.kind == File then r.repo + ":" + r.path else r.repo
  }

  lemma KeyShape(r: Request)
    ensures KeyOf(r) == r.provider + ":" + (KindName(r.kind) + ":" + Tail(r))
  {
    var p := Parts(r);
    assert p[1..][0] == KindName(r.kind) && p[1..][1..][0] == r.owner && p[1..][1..][1..][0] == r.repo;
    if r.kind == File {
      assert p[1..][1..][1..][1..] == [r.path];
      assert Join(p[1..][1..][1..], ":") == r.repo + ":" + r.path;
    } else {
      assert p[1..][1..][1..] == [r.repo];
    }
    assert Join(p[1..][1..], ":") == Tail(r);
    assert Join(p[1..], ":") == KindName(r.kind) + ":" + Tail(r);
  }

  /** The text of every key. */
  lemma KeyText(provider: string, owner: string, repo: string, path: string)
    ensures KeyOf(Request(provider, Releases, owner, repo, "")) == provider + ":" + ("releases:" + (owner + ":" + repo))
    ensures KeyOf(Request(provider, Latest, owner, repo, "")) == provider + ":" + ("latest:" + (owner + ":" + repo))
    ensures KeyOf(Request(provider, Tags, owner, repo, "")) == provider + ":" + ("tags:" + (owner + ":" + repo))
    ensures
      KeyOf(Request(provider, File, owner, repo, path)) ==
        provider + ":" + ("file:" + (owner + ":" + (repo + ":" + path)))
  {
    KeyWith(Request(provider, Releases, owner, repo, ""), "releases");
    KeyWith(Request(provider, Latest, owner, repo, ""), "latest");
    KeyWith(Request(provider, Tags, owner, repo, ""), "tags");
    KeyWith(Request(provider, File, owner, repo, path), "file");
  }

  lemma KeyWith(r: Request, name: string)
    requires name == KindName(r.kind)
    ensures KeyOf(r) == r.provider + ":" + ((name + ":") + Tail(r))
    ensures r.kind == File ==> Tail(r) == r.owner + ":" + (r.repo + ":" + r.path)
  {
    KeyShape(r);
    assert name + ":" + Tail(r) == (name + ":") + Tail(r);
  }

  /** Two strings cut at their first colon. */
  lemma CutAtColon(a: string, x: string, b: string, y: string)
    requires ':' !in a && ':' !in b && a + ":" + x == b + ":" + y
    ensures a == b && x == y
  {
    SplitCons(a, ':', x);
    SplitCons(b, ':', y);
    assert a == Split(a + ":" + x, ':')[0] == b;
    assert x == (a + ":" + x)[|a| + 1..];
    assert y == (b + ":" + y)[|b| + 1..];
  }

  lemma KindNamesDiffer(k: Kind, l: Kind)
    requires KindName(k) == KindName(l)
    ensures k == l
  {
    assert KindName(k)[0] == KindName(l)[0];
  }

  /**
   Keys are typed: whatever owner, repo and path are, two requests with one key have the same provider
   and the same kind. So a cached value always has the type the caller asserts.
   */
  lemma KeysAreTyped(r: Request, q: Request)
    requires WellFormed(r) && WellFormed(q) && KeyOf(r) == KeyOf(q)
    ensures r.provider == q.provider && r.kind == q.kind && Tail(r) == Tail(q)
  {
    KeyShape(r);
    KeyShape(q);
    CutAtColon(r.provider, KindName(r.kind) + ":" + Tail(r), q.provider, KindName(q.kind) + ":" + Tail(q));
    CutAtColon(KindName(r.kind), Tail(r), KindName(q.kind), Tail(q));
    KindNamesDiffer(r.kind, q.kind);
  }

  /** All parts but the last are free of colons. */
  predicate Plain(r: Request) {
    ':' !in r.owner && (r.kind == File ==> ':' !in r.repo)
  }

  /** Among requests whose parts but the last are colon-free, the key determines the request. */
  lemma PlainKeysInjective(r: Request, q: Request)
    requires WellFormed(r) && WellFormed(q) && Plain(r) && Plain(q) && KeyOf(r) == KeyOf(q)
    ensures r == q
  {
    KeysAreTyped(r, q);
    if r.kind == File {
      CutAtColon(r.owner, r.repo + ":" + r.path, q.owner, q.repo + ":" + q.path);
      CutAtColon(r.repo, r.path, q.repo, q.path);
    } else {
      CutAtColon(r.owner, r.repo, q.owner, q.repo);
    }
  }

  // ---- Exactly which keys are unambiguous ----

  function Colons(s: string): nat {
    if s == "" then 0 else (if s[0] == ':' then 1 else 0) + Colons(s[1..])
  }

  lemma {:induction false} ColonsAppend(a: string, b: string)
    ensures Colons(a + b) == Colons(a) + Colons(b)
  {
    if a == "" {
      assert a + b == b;
    } else {
      assert (a + b)[1..] == a[1..] + b;
      ColonsAppend(a[1..], b);
    }
  }

  lemma {:induction false} NoColons(s: string)
    ensures Colons(s) == 0 <==> ':' !in s
  {
    if s != "" {
      NoColons(s[1..]);
      assert s == [s[0]] + s[1..];
    }
  }

  lemma TailColons(r: Request)
    ensures Colons(Tail(r)) ==
      Colons(r.owner) + Colons(r.repo) + if r.kind == File then 2 + Colons(r.path) else 1
  {
    ColonsAppend(r.owner + ":", if r.kind == File then r.repo + ":" + r.path else r.repo);
    ColonsAppend(r.owner, ":");
    ColonsAppend(r.repo + ":", r.path);
    ColonsAppend(r.repo, ":");
  }

  /** No other request shares the key. */
  ghost predicate Unambiguous(r: Request) {
    forall q | WellFormed(q) && KeyOf(q) == KeyOf(r) :: q == r
  }

  predicate ColonFree(r: Request) {
    ':' !in r.owner && ':' !in r.repo && ':' !in r.path
  }

  /** Splits a string at some colon. */
  lemma AtColon(s: string) returns (a: string, b: string)
    requires ':' in s
    ensures s == a + ":" + b
  {
    var k :| 0 <= k < |s| && s[k] == ':';
    a, b := s[..k], s[k + 1..];
  }

  /** Four parts joined in two ways. */
  lemma Regroup(a: string, b: string, c: string, d: string)
    ensures a + ":" + (b + ":" + c + d) == a + ":" + b + ":" + (c + d)
    ensures a + ":" + (b + ":" + c) == a + ":" + b + ":" + c
  {
  }

  lemma SameTailSameKey(r: Request, q: Request)
    requires q.provider == r.provider && q.kind == r.kind && Tail(q) == Tail(r)
    ensures KeyOf(q) == KeyOf(r)
  {
    KeyShape(r);
    KeyShape(q);
  }

  /** The colon is in the owner: what follows it can be part of the repository. */
  lemma OwnerRecut(r: Request, a: string, b: string) returns (q: Request)
    requires WellFormed(r) && r.owner == a + ":" + b
    ensures WellFormed(q) && KeyOf(q) == KeyOf(r) && q != r
  {
    q := r.(owner := a, repo := b + ":" + r.repo);
    assert |q.owner| < |r.owner|;
    Regroup(a, b, r.repo, if r.kind == File then ":" + r.path else "");
    if r.kind == File { assert b + ":" + r.repo + ":" + r.path == b + ":" + r.repo + (":" + r.path); }
    if r.kind == File { assert r.repo + ":" + r.path == r.repo + (":" + r.path); }
    SameTailSameKey(r, q);
  }

  /** The colon is in the repository: what precedes it can be part of the owner. */
  lemma RepoRecut(r: Request, a: string, b: string) returns (q: Request)
    requires WellFormed(r) && r.repo == a + ":" + b
    ensures WellFormed(q) && KeyOf(q) == KeyOf(r) && q != r
  {
    q := r.(owner := r.owner + ":" + a, repo := b);
    assert |q.repo| < |r.repo|;
    Regroup(r.owner, a, b, if r.kind == File then ":" + r.path else "");
    if r.kind == File { assert a + ":" + b + ":" + r.path == a + ":" + b + (":" + r.path); }
    if r.kind == File { assert b + ":" + r.path == b + (":" + r.path); }
    SameTailSameKey(r, q);
  }

  /** The colon is in the path: what precedes it can be part of the repository. */
  lemma PathRecut(r: Request, a: string, b: string) returns (q: Request)
    requires WellFormed(r) && r.kind == File && r.path == a + ":" + b
    ensures WellFormed(q) && KeyOf(q) == KeyOf(r) && q != r
  {
    q := r.(repo := r.repo + ":" + a, path := b);
    assert |q.path| < |r.path|;
    Regroup(r.repo, a, b, "");
    SameTailSameKey(r, q);
  }

  /** A request with a colon shares its key with another one, cut at a different colon. */
  lemma Collision(r: Request) returns (q: Request)
    requires WellFormed(r) && !ColonFree(r)
    ensures WellFormed(q) && KeyOf(q) == KeyOf(r) && q != r
  {
    if ':' in r.owner {
      var a, b := AtColon(r.owner);
      q := OwnerRecut(r, a, b);
    } else if ':' in r.repo {
      var a, b := AtColon(r.repo);
      q := RepoRecut(r, a, b);
    } else {
      var a, b := AtColon(r.path);
      q := PathRecut(r, a, b);
    }
  }

  /** A key belongs to one request only exactly when owner, repo and path are free of colons. */
  lemma UnambiguousIff(r: Request)
    requires WellFormed(r)
    ensures Unambiguous(r) <==> ColonFree(r)
  {
    if ColonFree(r) {
      forall q | WellFormed(q) && KeyOf(q) == KeyOf(r) ensures q == r {
        KeysAreTyped(r, q);
        TailColons(r);
        TailColons(q);
        NoColons(r.owner); NoColons(r.repo); NoColons(r.path);
        NoColons(q.owner); NoColons(q.repo);
        PlainKeysInjective(r, q);
      }
    } else {
      var _ := Collision(r);
    }
  }
}
