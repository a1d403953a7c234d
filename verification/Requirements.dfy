/**
 The requirements.txt part of parseDeps (internal/mcpserver/tools_extended.go), for any content, and for lines
 of the clause forms of PEP 440, section 'Version specifiers'.
 */
module Requirements {
  import opened GoStrings

  // ---- The parser ----

  const SEPARATORS: seq<string> := ["==", ">=", "<=", "~=", "!="]

  const OPERATOR_CHARS: string := "=<>~!"

  predicate Skipped(line: string) {
    line == "" || HasPrefix(line, "#")
  }

  predicate IsPlain(line: string) {
    !ContainsAny(line, OPERATOR_CHARS)
  }

  /** Where the clause starts: the first hit past position 0 of the first separator that has one, or -1. */
  function ClauseAt(line: string, seps: seq<string>): (at: int)
    ensures -1 <= at <= |line| && at != 0
  {
    if seps == [] then -1
    else if Index(line, seps[0]) > 0 then Index(line, seps[0])
    else ClauseAt(line, seps[1..])
  }

  /** The clause of a line, under its name. */
  function AddClause(deps: map<string, string>, line: string): map<string, string> {
    var at := ClauseAt(line, SEPARATORS);
    if at > 0 then deps[line[..at] := line[at..]] else deps
  }

  function AddPlain(deps: map<string, string>, line: string): map<string, string> {
    if line !in deps && IsPlain(line) then deps[line := "*"] else deps
  }

  function Step(deps: map<string, string>, raw: string): map<string, string> {
    var line := TrimSpace(raw);
    if Skipped(line) then deps else AddPlain(AddClause(deps, line), line)
  }

  function Run(lines: seq<string>): map<string, string> {
    if lines == [] then map[] else Step(Run(lines[..|lines| - 1]), lines[|lines| - 1])
  }

  /** A clause starts at the first hit of the first separator, in the order of the loop, that has one past the start. */
  lemma ClauseAtIs(line: string, i: nat)
    requires i < 5 && Index(line, ["==", ">=", "<=", "~=", "!="][i]) > 0
    requires forall j | 0 <= j < i :: Index(line, ["==", ">=", "<=", "~=", "!="][j]) <= 0
    ensures ClauseAt(line, SEPARATORS) == Index(line, ["==", ">=", "<=", "~=", "!="][i])
  {
    ClauseAtFrom(line, SEPARATORS, i);
  }

  lemma {:induction false} ClauseAtFrom(line: string, seps: seq<string>, i: nat)
    requires i < |seps| && Index(line, seps[i]) > 0 && forall j | 0 <= j < i :: Index(line, seps[j]) <= 0
    ensures ClauseAt(line, seps) == Index(line, seps[i])
  {
    if i > 0 { ClauseAtFrom(line, seps[1..], i - 1); }
  }

  /** The inner loop over the separators, with its break. */
  method FindClause(start: map<string, string>, line: string) returns (deps: map<string, string>)
    ensures deps == AddClause(start, line)
  {
    deps := start;
    for i := 0 to |SEPARATORS|
      invariant deps == start
      invariant ClauseAt(line, SEPARATORS[i..]) == ClauseAt(line, SEPARATORS)
    {
      assert SEPARATORS[i..][1..] == SEPARATORS[i + 1..];
      var idx := Index(line, SEPARATORS[i]);
      if idx > 0 {
        deps := deps[line[..idx] := line[idx..]];
        break;
      }
    }
  }

  method ParseRequirements(content: string) returns (deps: map<string, string>)
    ensures deps == Run(Split(content, '\n'))
  {
    deps := map[];
    var lines := Split(content, '\n');
    for i := 0 to |lines|
      invariant deps == Run(lines[..i])
    {
      assert lines[..i + 1][..i] == lines[..i];
      var line := TrimSpace(lines[i]);
      if line == "" || HasPrefix(line, "#") { continue; }
      deps := FindClause(deps, line);
      if line !in deps && !ContainsAny(line, OPERATOR_CHARS) {
        deps := deps[line := "*"];
      }
    }
    assert lines[..|lines|] == lines;
  }

  // ---- Any content ----

  /** What a line amounts to: nothing, a name with a clause, or just a name. */
  datatype Reading = Nothing | Pin(name: string, clause: string) | Mention(name: string)

  function Read(raw: string): Reading {
    var line := TrimSpace(raw);
    var at := ClauseAt(line, SEPARATORS);
    if Skipped(line) then Nothing
    else if at > 0 then Pin(line[..at], line[at..])
    else if IsPlain(line) then Mention(line)
    else Nothing
  }

  function Readings(lines: seq<string>): (rs: seq<Reading>)
    ensures |rs| == |lines|
    ensures forall i | 0 <= i < |rs| :: rs[i] == Read(lines[i])
  {
    seq(|lines|, i requires 0 <= i < |lines| => Read(lines[i]))
  }

  predicate IsPin(r: Reading, name: string) {
    r.Pin? && r.name == name
  }

  ghost predicate Pinned(rs: seq<Reading>, name: string) {
    exists i | 0 <= i < |rs| :: IsPin(rs[i], name)
  }

  ghost predicate Mentioned(rs: seq<Reading>, name: string) {
    exists i | 0 <= i < |rs| :: rs[i] == Mention(name)
  }

  /** `clause` is the clause of the last line that pins `name`. */
  ghost predicate LastPin(rs: seq<Reading>, name: string, clause: string) {
    exists i | 0 <= i < |rs| :: rs[i] == Pin(name, clause) && forall j | i < j < |rs| :: !IsPin(rs[j], name)
  }

  /** The map that readings ask for: pins beat mentions in any order, and the last pin of a name wins. */
  ghost predicate Answers(deps: map<string, string>, rs: seq<Reading>, name: string) {
    && (name in deps <==> Pinned(rs, name) || Mentioned(rs, name))
    && (name in deps ==> (deps[name] == "*" <==> !Pinned(rs, name)))
    && (Pinned(rs, name) ==> name in deps && LastPin(rs, name, deps[name]))
  }

  lemma SeparatorFacts(s: string)
    requires s in SEPARATORS
    ensures |s| == 2 && s[1] == '=' && s[0] in OPERATOR_CHARS && s[1] in OPERATOR_CHARS
  {
  }

  lemma {:induction false} ClauseHit(line: string, seps: seq<string>)
    requires forall s | s in seps :: s in SEPARATORS
    requires ClauseAt(line, seps) > 0
    ensures exists s | s in seps :: OccursAt(line, s, ClauseAt(line, seps))
  {
    if Index(line, seps[0]) <= 0 { ClauseHit(line, seps[1..]); }
  }

  /** A line with a clause is not plain, and its clause is not "*". */
  lemma ClauseNotPlain(line: string)
    requires ClauseAt(line, SEPARATORS) > 0
    ensures !IsPlain(line) && |line[ClauseAt(line, SEPARATORS)..]| >= 2
  {
    ClauseHit(line, SEPARATORS);
    var at := ClauseAt(line, SEPARATORS);
    var s :| s in SEPARATORS && OccursAt(line, s, at);
    SeparatorFacts(s);
    assert line[at..at + |s|][0] == line[at];
  }

  /** What a step does is up to the reading of its line. */
  lemma StepIs(deps: map<string, string>, raw: string)
    ensures Step(deps, raw) ==
      match Read(raw)
      case Nothing => deps
      case Pin(name, clause) => deps[name := clause]
      case Mention(name) => if name in deps then deps else deps[name := "*"]
    ensures Read(raw).Pin? ==> |Read(raw).clause| >= 2
  {
    var line := TrimSpace(raw);
    if ClauseAt(line, SEPARATORS) > 0 { ClauseNotPlain(line); }
  }

  lemma AnswersSnoc(deps: map<string, string>, rs: seq<Reading>, r: Reading, after: map<string, string>, name: string)
    requires Answers(deps, rs, name) && (r.Pin? ==> |r.clause| >= 2)
    requires after ==
      match r
      case Nothing => deps
      case Pin(name, clause) => deps[name := clause]
      case Mention(name) => if name in deps then deps else deps[name := "*"]
    ensures Answers(after, rs + [r], name)
  {
    var all := rs + [r];
    assert all[|rs|] == r && forall i | 0 <= i < |rs| :: all[i] == rs[i];
    if IsPin(r, name) {
      assert LastPin(all, name, r.clause);
    } else if Pinned(rs, name) {
      var i :| 0 <= i < |rs| && rs[i] == Pin(name, deps[name]) && forall j | i < j < |rs| :: !IsPin(rs[j], name);
      assert all[i] == Pin(name, deps[name]) && IsPin(all[i], name);
    }
    if Mentioned(rs, name) {
      var i :| 0 <= i < |rs| && rs[i] == Mention(name);
      assert all[i] == Mention(name);
    }
  }

  lemma AnswersStep(deps: map<string, string>, rs: seq<Reading>, raw: string, name: string)
    requires Answers(deps, rs, name)
    ensures Answers(Step(deps, raw), rs + [Read(raw)], name)
  {
    StepIs(deps, raw);
    AnswersSnoc(deps, rs, Read(raw), Step(deps, raw), name);
  }

  /** For every file and every name, the parser's map answers what the lines ask. */
  lemma {:induction false} FinalValue(lines: seq<string>, name: string)
    ensures Answers(Run(lines), Readings(lines), name)
  {
    if lines != [] {
      var before, raw := lines[..|lines| - 1], lines[|lines| - 1];
      FinalValue(before, name);
      AnswersStep(Run(before), Readings(before), raw, name);
      assert Readings(lines) == Readings(before) + [Read(raw)];
    }
  }

  /** Blank lines and comments, wherever they stand and whatever they say, change nothing. */
  lemma {:induction false} IgnoredLine(before: seq<string>, raw: string, after: seq<string>)
    requires AllSpace(raw) || exists indent, rest :: AllSpace(indent) && raw == indent + "#" + rest
    ensures Run(before + [raw] + after) == Run(before + after)
  {
    if after == [] {
      IgnoredRead(raw);
      assert before + [raw] + after == before + [raw] && before + after == before;
      assert (before + [raw])[..|before|] == before;
      StepIs(Run(before), raw);
    } else {
      var most, last := after[..|after| - 1], after[|after| - 1];
      IgnoredLine(before, raw, most);
      assert (before + [raw] + after)[..|before + [raw] + after| - 1] == before + [raw] + most;
      assert (before + after)[..|before + after| - 1] == before + most;
    }
  }

  lemma IgnoredRead(raw: string)
    requires AllSpace(raw) || exists indent, rest :: AllSpace(indent) && raw == indent + "#" + rest
    ensures Read(raw) == Nothing
  {
    if AllSpace(raw) {
      TrimLeftPad(raw, "");
      assert raw + "" == raw;
    } else {
      var indent, rest :| AllSpace(indent) && raw == indent + "#" + rest;
      TrimComment(indent, rest);
    }
  }

  lemma TrimComment(indent: string, rest: string)
    requires AllSpace(indent)
    ensures HasPrefix(TrimSpace(indent + "#" + rest), "#")
  {
    TrimBody(indent, "#", rest);
  }

  lemma ReadRebuilds(raw: string)
    ensures match Read(raw)
      case Nothing => true
      case Pin(name, clause) => name + clause == TrimSpace(raw)
      case Mention(name) => name == TrimSpace(raw)
  {
  }

  /** A line is a mention exactly when it has no operator character at all and is neither blank nor a comment. */
  lemma MentionIff(raw: string)
    ensures
      var line := TrimSpace(raw);
      Read(raw).Mention? <==> line != "" && line[0] != '#' && forall c | c in "=<>~!" :: c !in line
  {
    var line := TrimSpace(raw);
    if line != "" {
      assert HasPrefix(line, "#") <==> line[0] == '#';
      if forall c | c in "=<>~!" :: c !in line {
        if ClauseAt(line, SEPARATORS) > 0 { ClauseNotPlain(line); }
      } else {
        var c :| c in "=<>~!" && c in line;
        var i :| 0 <= i < |line| && line[i] == c;
        assert line[i] in OPERATOR_CHARS;
      }
    }
  }

  /** Every entry rebuilds a line of the file: name and clause together are the line, trimmed. */
  lemma EntriesRebuildLines(lines: seq<string>, name: string) returns (i: nat)
    requires name in Run(lines)
    ensures i < |lines|
    ensures TrimSpace(lines[i]) == if Run(lines)[name] == "*" then name else name + Run(lines)[name]
  {
    FinalValue(lines, name);
    var rs := Readings(lines);
    if Pinned(rs, name) {
      i :| 0 <= i < |rs| && rs[i] == Pin(name, Run(lines)[name]);
    } else {
      i :| 0 <= i < |rs| && rs[i] == Mention(name);
    }
    ReadRebuilds(lines[i]);
  }

  // ---- Lines of one clause ----

  /** The comparison operators of PEP 440. */
  const OPERATORS: seq<string> := ["~=", "==", "!=", "<=", ">=", "<", ">", "==="]

  predicate NoOperator(s: string) {
    forall i | 0 <= i < |s| :: s[i] !in OPERATOR_CHARS
  }

  /**
   A line with at most one clause and no white space inside: `op` and `version` are empty for a plain name. The
   version holds no '=', but may hold '!' for an epoch, '*' for a prefix match, and the like.
   */
  datatype Clause = Clause(indent: string, name: string, op: string, version: string, tail: string)

  predicate Good(c: Clause) {
    && AllSpace(c.indent) && AllSpace(c.tail)
    && c.name != "" && NoSpace(c.name) && NoOperator(c.name) && c.name[0] != '#'
    && NoSpace(c.version) && '=' !in c.version
    && (if c.op == "" then c.version == "" else c.op in OPERATORS && c.version != "")
  }

  function Text(c: Clause): string {
    c.name + c.op + c.version
  }

  function Raw(c: Clause): string {
    c.indent + Text(c) + c.tail
  }

  lemma OperatorFacts(op: string)
    requires op in OPERATORS
    ensures op in SEPARATORS || op == "<" || op == ">" || op == "==="
    ensures forall i | 0 <= i < |op| :: op[i] in OPERATOR_CHARS && !IsSpace(op[i])
  {
  }

  lemma TextSolid(c: Clause)
    requires Good(c)
    ensures Solid(Text(c)) && !Skipped(Text(c))
  {
    assert Text(c)[0] == c.name[0];
    if c.op != "" { assert Text(c)[|Text(c)| - 1] == c.version[|c.version| - 1]; }
    assert "#"[0] == '#';
  }

  lemma RawTrimmed(c: Clause)
    requires Good(c)
    ensures TrimSpace(Raw(c)) == Text(c)
  {
    TextSolid(c);
    TrimBody(c.indent, Text(c), c.tail);
    TrimRightAllSpace(c.tail);
    assert Text(c) + "" == Text(c);
  }

  /** Operator characters do not stand in the name, and '=' only in the operator. */
  lemma OperatorSpan(c: Clause, k: nat)
    requires Good(c) && k < |Text(c)| && Text(c)[k] in OPERATOR_CHARS
    ensures |c.name| <= k && (Text(c)[k] == '=' || c.op == "" ==> k < |c.name| + |c.op|)
  {
    var n, m := |c.name|, |c.name| + |c.op|;
    assert forall j | 0 <= j < n :: Text(c)[j] == c.name[j];
    assert forall j | m <= j < |Text(c)| :: Text(c)[j] == c.version[j - m];
  }

  /** A separator occurs only inside the operator. */
  lemma SeparatorSpan(c: Clause, s: string, k: nat)
    requires Good(c) && s in SEPARATORS && OccursAt(Text(c), s, k)
    ensures |c.name| <= k && k + 2 <= |c.name| + |c.op|
  {
    SeparatorFacts(s);
    assert Text(c)[k..k + |s|][0] == Text(c)[k] && Text(c)[k..k + |s|][1] == Text(c)[k + 1];
    OperatorSpan(c, k);
    OperatorSpan(c, k + 1);
  }

  /** If all separators that occur do so first at `at`, that is where the clause starts. */
  lemma {:induction false} ClauseIs(line: string, seps: seq<string>, at: nat)
    requires at > 0 && forall s | s in seps :: Index(line, s) == -1 || Index(line, s) == at
    ensures ClauseAt(line, seps) == if exists s | s in seps :: Index(line, s) == at then at else -1
  {
    if seps != [] && Index(line, seps[0]) == -1 {
      ClauseIs(line, seps[1..], at);
      if s :| s in seps && Index(line, s) == at {
        assert s in seps[1..];
      }
    }
  }

  /** "==" in "===" counts at its start. */
  lemma FirstHit(c: Clause, s: string)
    requires Good(c) && s in SEPARATORS
    ensures Index(Text(c), s) == -1 || Index(Text(c), s) == |c.name|
  {
    var at := Index(Text(c), s);
    if at >= 0 {
      SeparatorSpan(c, s, at);
      OperatorFacts(c.op);
      SeparatorFacts(s);
      if at == |c.name| + 1 {
        assert c.op == "===";
        assert Text(c)[at..at + 2] == "==";
        assert Text(c)[|c.name|..|c.name| + 2] == "==";
        assert OccursAt(Text(c), s, |c.name|);
      }
    }
  }

  lemma OperatorHit(c: Clause) returns (s: string)
    requires Good(c) && |c.op| >= 2
    ensures s in SEPARATORS && Index(Text(c), s) == |c.name|
  {
    OperatorFacts(c.op);
    s := c.op[..2];
    assert c.op == "===" ==> s == SEPARATORS[0];
    assert s == c.op || s == "==";
    assert Text(c)[|c.name|..|c.name| + 2] == s;
    assert OccursAt(Text(c), s, |c.name|);
    FirstHit(c, s);
  }

  /** A one-clause line is split right after its name, unless its operator is `<` or `>`. */
  lemma ClauseOf(c: Clause)
    requires Good(c)
    ensures ClauseAt(Text(c), SEPARATORS) == if |c.op| >= 2 then |c.name| else -1
  {
    forall s | s in SEPARATORS ensures Index(Text(c), s) == -1 || Index(Text(c), s) == |c.name| {
      FirstHit(c, s);
    }
    ClauseIs(Text(c), SEPARATORS, |c.name|);
    if |c.op| >= 2 {
      var s := OperatorHit(c);
    } else {
      forall s | s in SEPARATORS ensures Index(Text(c), s) != |c.name| {
        if Index(Text(c), s) == |c.name| { SeparatorSpan(c, s, |c.name|); }
      }
    }
  }

  lemma PlainIff(c: Clause)
    requires Good(c)
    ensures IsPlain(Text(c)) <==> c.op == ""
  {
    if c.op != "" {
      OperatorFacts(c.op);
      assert Text(c)[|c.name|] == c.op[0];
    }
    if !IsPlain(Text(c)) {
      var i :| 0 <= i < |Text(c)| && Text(c)[i] in OPERATOR_CHARS;
      OperatorSpan(c, i);
    }
  }

  function Meaning(c: Clause): Reading {
    if c.op == "" then Mention(c.name)
    else if |c.op| >= 2 then Pin(c.name, c.op + c.version)
    else Nothing
  }

  /** How a one-clause line is read: `<` and `>` bounds are dropped, all other clauses are kept whole. */
  lemma ReadIs(c: Clause)
    requires Good(c)
    ensures Read(Raw(c)) == Meaning(c)
  {
    RawTrimmed(c);
    TextSolid(c);
    ClauseOf(c);
    PlainIff(c);
    TextSplit(c);
  }

  lemma TextSplit(c: Clause)
    ensures Text(c)[..|c.name|] == c.name && Text(c)[|c.name|..] == c.op + c.version
    ensures c.op == "" && c.version == "" ==> Text(c) == c.name
  {
  }

  function Raws(clauses: seq<Clause>): (raws: seq<string>)
    ensures |raws| == |clauses|
    ensures forall i | 0 <= i < |raws| :: raws[i] == Raw(clauses[i])
  {
    seq(|clauses|, i requires 0 <= i < |clauses| => Raw(clauses[i]))
  }

  function Meanings(clauses: seq<Clause>): (rs: seq<Reading>)
    ensures |rs| == |clauses|
    ensures forall i | 0 <= i < |rs| :: rs[i] == Meaning(clauses[i])
  {
    seq(|clauses|, i requires 0 <= i < |clauses| => Meaning(clauses[i]))
  }

  /** A file of one-clause lines, printed and parsed, gives every name what its clauses mean. */
  lemma RoundTrip(clauses: seq<Clause>, name: string)
    requires clauses != [] && forall i | 0 <= i < |clauses| :: Good(clauses[i]) && '\n' !in Raw(clauses[i])
    ensures Answers(Run(Split(Join(Raws(clauses), "\n"), '\n')), Meanings(clauses), name)
  {
    var raws := Raws(clauses);
    SplitJoin(raws, '\n');
    assert "\n" == ['\n'];
    FinalValue(raws, name);
    forall i | 0 <= i < |clauses| ensures Read(raws[i]) == Meaning(clauses[i]) {
      ReadIs(clauses[i]);
    }
    assert Readings(raws) == Meanings(clauses);
  }
}
