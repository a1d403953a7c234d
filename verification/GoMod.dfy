/**
 The go.mod part of parseDeps (internal/mcpserver/tools_extended.go): a line-oriented parser with one flag,
 against the documents of the Go Modules Reference, section 'go.mod files'.
 */
module GoMod {
  import opened GoStrings

  // ---- The parser ----

  datatype State = State(inRequire: bool, deps: map<string, string>)

  /** A line of a require block: its first two fields, unless it is a comment. */
  function InBlock(deps: map<string, string>, line: string): map<string, string> {
    var parts := Fields(line);
    if |parts| >= 2 && !HasPrefix(parts[0], "//") then deps[parts[0] := parts[1]] else deps
  }

  /** A line that may be a single requirement. */
  function OnLine(deps: map<string, string>, line: string): map<string, string> {
    var parts := Fields(line);
    if HasPrefix(line, "require ") && !Contains(line, "(") && |parts| >= 3 then deps[parts[1] := parts[2]] else deps
  }

  function Step(st: State, raw: string): State {
    var line := TrimSpace(raw);
    if line == "require (" then st.(inRequire := true)
    else if st.inRequire && line == ")" then st.(inRequire := false)
    else st.(deps := OnLine(if st.inRequire then InBlock(st.deps, line) else st.deps, line))
  }

  function Run(st: State, lines: seq<string>): State
    decreases lines
  {
    if lines == [] then st else Run(Step(st, lines[0]), lines[1..])
  }

  function Parse(content: string): map<string, string> {
    Run(State(false, map[]), Split(content, '\n')).deps
  }

  method ParseGoMod(content: string) returns (deps: map<string, string>)
    ensures deps == Parse(content)
  {
    deps := map[];
    var inRequire := false;
    var lines := Split(content, '\n');
    for i := 0 to |lines|
      invariant Run(State(inRequire, deps), lines[i..]) == Run(State(false, map[]), lines)
    {
      ghost var before := State(inRequire, deps);
      assert lines[i..][0] == lines[i] && lines[i..][1..] == lines[i + 1..];
      var line := TrimSpace(lines[i]);
      if line == "require (" {
        inRequire := true;
        assert State(inRequire, deps) == Step(before, lines[i]);
        continue;
      }
      if inRequire && line == ")" {
        inRequire := false;
        assert State(inRequire, deps) == Step(before, lines[i]);
        continue;
      }
      if inRequire {
        var parts := Fields(line);
        if |parts| >= 2 && !HasPrefix(parts[0], "//") {
          deps := deps[parts[0] := parts[1]];
        }
      }
      if HasPrefix(line, "require ") && !Contains(line, "(") {
        var parts := Fields(line);
        if |parts| >= 3 {
          deps := deps[parts[1] := parts[2]];
        }
      }
      assert State(inRequire, deps) == Step(before, lines[i]);
    }
  }

  lemma {:induction false} RunAppend(st: State, a: seq<string>, b: seq<string>)
    ensures Run(st, a + b) == Run(Run(st, a), b)
    decreases a
  {
    if a == [] {
      assert a + b == b;
    } else {
      assert (a + b)[1..] == a[1..] + b;
      RunAppend(Step(st, a[0]), a[1..], b);
    }
  }

  // ---- Documents ----

  /**
   A requirement as laid out on a line: white space, the module path, white space, the version, and whatever
   follows it (white space, a comment).
   */
  datatype Requirement = Requirement(indent: string, name: string, gap: string, version: string, tail: string)

  /** A line of a block: a requirement, or a line that is blank or only a comment. */
  datatype Entry = Dep(req: Requirement) | Note(text: string)

  /** A part of a document: a require directive, a require block, or a line of anything else. */
  datatype Item =
    | Single(indent: string, gap: string, req: Requirement)
    | Block(indent: string, gap: string, head: string, entries: seq<Entry>, close: string, end: string)
    | Other(text: string)

  function ReqText(r: Requirement): string {
    r.name + r.gap + r.version
  }

  function EntryLine(e: Entry): string {
    match e
    case Dep(r) => r.indent + ReqText(r) + r.tail
    case Note(text) => text
  }

  function EntryLines(entries: seq<Entry>): seq<string> {
    if entries == [] then [] else [EntryLine(entries[0])] + EntryLines(entries[1..])
  }

  function ItemLines(item: Item): seq<string> {
    match item
    case Single(indent, gap, r) => [indent + ("require" + gap + ReqText(r)) + r.tail]
    case Block(indent, gap, head, entries, close, end) =>
      [indent + ("require" + gap + "(") + head] + EntryLines(entries) + [close + ")" + end]
    case Other(text) => [text]
  }

  function DocLines(doc: seq<Item>): seq<string> {
    if doc == [] then [] else ItemLines(doc[0]) + DocLines(doc[1..])
  }

  /** The document as text, every line ended by a newline. */
  function Print(doc: seq<Item>): string {
    Join(DocLines(doc) + [""], "\n")
  }

  // ---- Well-formedness ----

  predicate Word(s: string) {
    s != "" && NoSpace(s) && '(' !in s && ')' !in s
  }

  predicate NoComment(s: string) {
    |s| < 2 || (!(s[0] == '/' && s[1] == '/') && NoComment(s[1..]))
  }

  /** A module path or a version: it holds no comment, and does not end in a character that could begin one. */
  predicate Identifier(s: string) {
    Word(s) && NoComment(s) && s[|s| - 1] != '/'
  }

  predicate Name(s: string) {
    Identifier(s) && s != "require"
  }

  /** The rest of a line: nothing, something set off by white space, or a comment right away. */
  predicate Rest(s: string) {
    '\n' !in s && (s == "" || IsSpace(s[0]) || HasPrefix(s, "//"))
  }

  /** White space within a line. */
  predicate Pad(s: string) {
    '\n' !in s && AllSpace(s)
  }

  predicate GoodReq(r: Requirement) {
    Pad(r.indent) && Name(r.name) && Pad(r.gap) && r.gap != "" && Identifier(r.version) && Rest(r.tail)
  }

  predicate GoodEntry(e: Entry) {
    match e
    case Dep(r) => GoodReq(r)
    case Note(text) => '\n' !in text && (TrimSpace(text) == "" || HasPrefix(TrimSpace(text), "//"))
  }

  /** The text up to its first white space. */
  function FirstWord(s: string): string {
    s[..TokenLen(s)]
  }

  /** A directive or a block with any white space and comments, or a line that is no require directive. */
  predicate GoodItem(item: Item) {
    match item
    case Single(indent, gap, r) => Pad(indent) && Pad(gap) && gap != "" && GoodReq(r)
    case Block(indent, gap, head, entries, close, end) =>
      && Pad(indent) && Pad(gap) && Rest(head) && Pad(close) && Rest(end)
      && forall i | 0 <= i < |entries| :: GoodEntry(entries[i])
    case Other(text) =>
      var word := FirstWord(TrimSpace(text));
      '\n' !in text && word != "require" && !HasPrefix(word, "require(")
  }

  predicate GoodDoc(doc: seq<Item>) {
    forall i | 0 <= i < |doc| :: GoodItem(doc[i])
  }

  // ---- Meaning ----

  type Pairs = seq<(string, string)>

  function EntryPairs(entries: seq<Entry>): Pairs {
    if entries == [] then []
    else
      var rest := EntryPairs(entries[1..]);
      match entries[0]
      case Dep(r) => [(r.name, r.version)] + rest
      case Note(_) => rest
  }

  function ItemPairs(item: Item): Pairs {
    match item
    case Single(_, _, r) => [(r.name, r.version)]
    case Block(_, _, _, entries, _, _) => EntryPairs(entries)
    case Other(_) => []
  }

  function DocPairs(doc: seq<Item>): Pairs {
    if doc == [] then [] else ItemPairs(doc[0]) + DocPairs(doc[1..])
  }

  // ---- What the parser sees ----

  /** What sticks to the version: a comment that is not set off, up to its first white space. */
  function Stuck(tail: string): string {
    FirstWord(tail)
  }

  function SeenEntries(entries: seq<Entry>): Pairs {
    if entries == [] then []
    else
      var rest := SeenEntries(entries[1..]);
      match entries[0]
      case Dep(r) => [(r.name, r.version + Stuck(r.tail))] + rest
      case Note(_) => rest
  }

  /** The head opens the block only as the text `require (`. */
  predicate Opens(gap: string, head: string) {
    gap == " " && AllSpace(head)
  }

  /** A block that opens also closes: nothing but white space follows the closing parenthesis. */
  predicate Closes(item: Item) {
    item.Block? && Opens(item.gap, item.head) ==> AllSpace(item.end)
  }

  function SeenPairs(item: Item): Pairs
    requires GoodItem(item)
  {
    match item
    case Single(_, gap, r) => if gap[0] == ' ' && '(' !in r.tail then [(r.name, r.version + Stuck(r.tail))] else []
    case Block(_, gap, head, entries, _, _) => if Opens(gap, head) then SeenEntries(entries) else []
    case Other(_) => []
  }

  function DocSeen(doc: seq<Item>): Pairs
    requires GoodDoc(doc)
  {
    if doc == [] then [] else SeenPairs(doc[0]) + DocSeen(doc[1..])
  }

  /** The name is required by one of the entries. */
  predicate Requires(entries: seq<Entry>, name: string) {
    entries != [] && ((entries[0].Dep? && entries[0].req.name == name) || Requires(entries[1..], name))
  }

  /** A comment sticks to a version only where the same name is required again later. */
  predicate LastsSetOff(entries: seq<Entry>) {
    entries == [] || (
      && (entries[0].Dep? && Stuck(entries[0].req.tail) != "" ==> Requires(entries[1..], entries[0].req.name))
      && LastsSetOff(entries[1..]))
  }

  /**
   The item is read as it is meant. A directive: a space after the keyword, no '(' in the comment, and the
   comment set off. A block: its head is exactly `require (` and nothing follows its ')' but white space, and
   comments are set off from the last version of each name; or it holds no requirements and does not open.
   */
  predicate Visible(item: Item)
    requires GoodItem(item)
  {
    match item
    case Single(_, gap, r) => gap[0] == ' ' && '(' !in r.tail && Stuck(r.tail) == ""
    case Block(_, gap, head, entries, _, end) =>
      if Opens(gap, head) then AllSpace(end) && LastsSetOff(entries)
      else EntryPairs(entries) == []
    case Other(_) => true
  }

  // ---- Entering pairs ----

  /** The pairs entered into a map one after the other. */
  function Enter(m: map<string, string>, pairs: Pairs): map<string, string>
    decreases pairs
  {
    if pairs == [] then m else Enter(m[pairs[0].0 := pairs[0].1], pairs[1..])
  }

  lemma {:induction false} EnterAppend(m: map<string, string>, a: Pairs, b: Pairs)
    ensures Enter(m, a + b) == Enter(Enter(m, a), b)
    decreases a
  {
    if a == [] {
      assert a + b == b;
    } else {
      assert (a + b)[1..] == a[1..] + b;
      EnterAppend(m[a[0].0 := a[0].1], a[1..], b);
    }
  }

  /** `version` is the last one listed for `name`. */
  ghost predicate LastListed(pairs: Pairs, name: string, version: string) {
    exists i | 0 <= i < |pairs| :: pairs[i] == (name, version) && forall j | i < j < |pairs| :: pairs[j].0 != name
  }

  /** Entering pairs: the last one of a name wins, and there are no other names. */
  lemma {:induction false} EnterIsLast(pairs: Pairs, name: string)
    ensures name in Enter(map[], pairs) <==> exists i :: 0 <= i < |pairs| && pairs[i].0 == name
    ensures name in Enter(map[], pairs) ==> LastListed(pairs, name, Enter(map[], pairs)[name])
  {
    if pairs != [] {
      var k := |pairs| - 1;
      var before, last := pairs[..k], pairs[k];
      assert pairs == before + [last];
      EnterIsLast(before, name);
      EnterAppend(map[], before, [last]);
      assert Enter(map[], pairs) == Enter(map[], before)[last.0 := last.1];
      if last.0 == name {
        assert LastListed(pairs, name, last.1);
      } else if name in Enter(map[], before) {
        var v := Enter(map[], before)[name];
        var i :| 0 <= i < |before| && before[i] == (name, v) && forall j | i < j < |before| :: before[j].0 != name;
        assert pairs[i] == (name, v);
      }
    }
  }

  // ---- Trimming and fields of a laid-out line ----

  /** Trimming on the right neither adds nor removes a non-space character. */
  lemma TrimRightKeeps(s: string, c: char)
    requires !IsSpace(c)
    ensures c in TrimRight(s) <==> c in s
  {
    var t := TrimRight(s);
    assert s == t + s[|t|..];
  }

  lemma TrimStuck(stuck: string, after: string) returns (rest: string)
    requires NoSpace(stuck) && (after == "" || IsSpace(after[0]))
    ensures TrimRight(stuck + after) == stuck + rest && (rest == "" || IsSpace(rest[0]))
  {
    if AllSpace(after) {
      TrimRightPad(stuck, after);
      if stuck != "" { assert !IsSpace(stuck[|stuck| - 1]); }
      rest := "";
      assert stuck + "" == stuck;
    } else {
      TrimRightAfter(stuck, after);
      TrimRightAllSpace(after);
      rest := TrimRight(after);
    }
  }

  /** Trimming leaves what is stuck alone, and after it white space or nothing. */
  lemma TrimmedRest(tail: string) returns (after: string)
    requires Rest(tail)
    ensures TrimRight(tail) == Stuck(tail) + after && NoSpace(Stuck(tail)) && (after == "" || IsSpace(after[0]))
  {
    assert tail == Stuck(tail) + tail[|Stuck(tail)|..];
    after := TrimStuck(Stuck(tail), tail[|Stuck(tail)|..]);
  }

  lemma FieldsOf(token: string, gap: string, rest: string)
    requires Word(token) && Pad(gap) && gap != ""
    ensures Fields(token + (gap + rest)) == [token] + Fields(rest)
  {
    assert (gap + rest)[0] == gap[0];
    FieldsToken(token, gap + rest);
    FieldsPad(gap, rest);
  }

  lemma ReqSplit(r: Requirement, stuck: string, after: string)
    ensures ReqText(r) + (stuck + after) == r.name + (r.gap + (r.version + stuck + after))
  {
  }

  /** A laid-out requirement has its name and version as its first two fields, with what is stuck to it. */
  lemma ReqFields(r: Requirement, stuck: string, after: string)
    requires GoodReq(r) && NoSpace(stuck) && (after == "" || IsSpace(after[0]))
    ensures Fields(ReqText(r) + (stuck + after)) == [r.name] + ([r.version + stuck] + Fields(after))
  {
    FieldsToken(r.version + stuck, after);
    FieldsOf(r.name, r.gap, r.version + stuck + after);
    ReqSplit(r, stuck, after);
  }

  lemma FirstLetter(line: string)
    requires line != "" && line[0] != 'r'
    ensures !HasPrefix(line, "require ")
  {
    assert "require "[0] == 'r';
  }

  lemma DirectiveWord(text: string)
    requires HasPrefix(text, "require ")
    ensures TokenLen(text) == 7 && text[..7] == "require"
  {
    var rest := [' '] + text[8..];
    assert text == "require" + rest;
    TokenLenIs("require", rest);
  }

  /** A text whose first word is not `require` does not start a directive. */
  lemma NotRequire(word: string, rest: string)
    requires NoSpace(word) && word != "require" && (rest == "" || IsSpace(rest[0]))
    ensures !HasPrefix(word + rest, "require ")
  {
    TokenLenIs(word, rest);
    assert (word + rest)[..|word|] == word;
    if HasPrefix(word + rest, "require ") { DirectiveWord(word + rest); }
  }

  lemma ReqSolid(r: Requirement)
    requires GoodReq(r)
    ensures Solid(ReqText(r))
  {
    assert ReqText(r)[0] == r.name[0];
    assert ReqText(r)[|ReqText(r)| - 1] == r.version[|r.version| - 1];
  }

  // ---- Lines of a block ----

  /** What a line does is up to its trimmed text alone. */
  lemma EntryTrimmed(r: Requirement)
    requires GoodReq(r)
    ensures TrimSpace(EntryLine(Dep(r))) == ReqText(r) + TrimRight(r.tail)
  {
    ReqSolid(r);
    TrimBody(r.indent, ReqText(r), r.tail);
  }

  lemma ReqNoDirective(r: Requirement, tail: string)
    requires GoodReq(r)
    ensures !HasPrefix(ReqText(r) + tail, "require ")
    ensures ReqText(r) + tail != ")"
  {
    var rest := r.gap + r.version + tail;
    assert rest[0] == r.gap[0];
    assert ReqText(r) + tail == r.name + rest;
    NotRequire(r.name, rest);
    assert |r.name + rest| >= 2;
  }

  lemma OpensIsDirective(line: string)
    requires !HasPrefix(line, "require ")
    ensures line != "require ("
  {
    assert "require (" == "require " + "(";
  }

  /** A line with two fields or more that is no directive. */
  lemma FieldStep(st: State, raw: string, name: string, version: string, more: seq<string>)
    requires var line := TrimSpace(raw);
      !HasPrefix(line, "require ") && line != ")" && Fields(line) == [name] + ([version] + more)
    requires !HasPrefix(name, "//")
    ensures Step(st, raw) == if st.inRequire then State(true, st.deps[name := version]) else st
  {
    OpensIsDirective(TrimSpace(raw));
  }

  lemma DepStep(st: State, r: Requirement)
    requires GoodReq(r)
    ensures Step(st, EntryLine(Dep(r))) ==
      if st.inRequire then State(true, st.deps[r.name := r.version + Stuck(r.tail)]) else st
  {
    EntryTrimmed(r);
    var after := TrimmedRest(r.tail);
    ReqNoDirective(r, TrimRight(r.tail));
    ReqFields(r, Stuck(r.tail), after);
    FieldStep(st, EntryLine(Dep(r)), r.name, r.version + Stuck(r.tail), Fields(after));
  }

  lemma CommentFields(line: string)
    requires HasPrefix(line, "//")
    ensures Fields(line) != [] && HasPrefix(Fields(line)[0], "//")
    ensures !HasPrefix(line, "require ") && line != ")"
  {
    assert line[0] == "//"[0] == '/' && line[1] == "//"[1] == '/';
    assert TokenLen(line) == 2 + TokenLen(line[1..][1..]);
    if HasPrefix(line, "require ") { assert line[0] == "require "[0]; }
  }

  lemma NoteStep(st: State, text: string)
    requires GoodEntry(Note(text))
    ensures Step(st, text) == st
  {
    var line := TrimSpace(text);
    if line != "" { CommentFields(line); }
    OpensIsDirective(line);
  }

  lemma {:induction false} EntriesRun(st: State, entries: seq<Entry>)
    requires forall i | 0 <= i < |entries| :: GoodEntry(entries[i])
    ensures Run(st, EntryLines(entries)) ==
      if st.inRequire then State(true, Enter(st.deps, SeenEntries(entries))) else st
    decreases entries
  {
    if entries != [] {
      match entries[0] {
        case Dep(r) =>
          DepStep(st, r);
        case Note(text) =>
          NoteStep(st, text);
      }
      EntriesRun(Step(st, EntryLine(entries[0])), entries[1..]);
      assert EntryLines(entries)[1..] == EntryLines(entries[1..]);
      EnterHead(st.deps, entries);
    }
  }

  lemma EnterHead(m: map<string, string>, entries: seq<Entry>)
    requires entries != []
    ensures Enter(m, SeenEntries(entries)) ==
      match entries[0]
      case Dep(r) => Enter(m[r.name := r.version + Stuck(r.tail)], SeenEntries(entries[1..]))
      case Note(_) => Enter(m, SeenEntries(entries[1..]))
  {
    match entries[0] {
      case Dep(r) => assert SeenEntries(entries)[1..] == SeenEntries(entries[1..]);
      case Note(_) =>
    }
  }

  // ---- Items ----

  /** Only the text `require (` opens a block. */
  lemma OpenText(gap: string, tail: string)
    ensures "require" + gap + "(" + tail == "require (" <==> gap == " " && tail == ""
  {
    var line := "require" + gap + "(" + tail;
    assert |gap| == 0 ==> line[7] == '(';
    assert |gap| > 0 ==> line[7] == gap[0];
    assert "require ("[7] == ' ';
    assert gap == " " && tail == "" ==> line == "require (";
  }

  lemma HeadStep(st: State, indent: string, gap: string, head: string)
    requires Pad(indent) && Pad(gap) && Rest(head) && !st.inRequire
    ensures Step(st, indent + ("require" + gap + "(") + head) == st.(inRequire := Opens(gap, head))
  {
    var open, tail := "require" + gap + "(", TrimRight(head);
    TrimBody(indent, open, head);
    TrimRightAllSpace(head);
    OpenText(gap, tail);
    assert (open + tail)[7 + |gap|] == '(';
    ContainsChar(open + tail, '(');
  }

  /** What the last line of a block does: only a bare ')' ends it. */
  function AfterClose(st: State, end: string): State {
    if !st.inRequire then st
    else if AllSpace(end) then st.(inRequire := false)
    else st.(deps := InBlock(st.deps, ")" + TrimRight(end)))
  }

  lemma CloseStep(st: State, close: string, end: string)
    requires Pad(close) && Rest(end)
    ensures Step(st, close + ")" + end) == AfterClose(st, end)
  {
    TrimBody(close, ")", end);
    TrimRightAllSpace(end);
    var line := ")" + TrimRight(end);
    assert line[0] == ')';
    assert TrimRight(end) == "" <==> line == ")";
    FirstLetter(line);
    OpensIsDirective(line);
  }

  /** What a block does to a parser that is outside of blocks. */
  function AfterBlock(st: State, item: Item): State
    requires item.Block?
  {
    if Opens(item.gap, item.head)
    then AfterClose(State(true, Enter(st.deps, SeenEntries(item.entries))), item.end)
    else st
  }

  lemma BlockRun(st: State, item: Item)
    requires item.Block? && GoodItem(item) && !st.inRequire
    ensures Run(st, ItemLines(item)) == AfterBlock(st, item)
  {
    var first := item.indent + ("require" + item.gap + "(") + item.head;
    var last := item.close + ")" + item.end;
    var mid := EntryLines(item.entries);
    HeadStep(st, item.indent, item.gap, item.head);
    var inside := st.(inRequire := Opens(item.gap, item.head));
    EntriesRun(inside, item.entries);
    var full := Run(inside, mid);
    CloseStep(full, item.close, item.end);
    RunAppend(inside, mid, [last]);
    assert [last][1..] == [];
    assert ItemLines(item) == [first] + (mid + [last]);
    assert ([first] + (mid + [last]))[1..] == mid + [last];
  }

  lemma SingleFields(gap: string, r: Requirement, stuck: string, after: string)
    requires Pad(gap) && gap != "" && GoodReq(r) && NoSpace(stuck) && (after == "" || IsSpace(after[0]))
    ensures Fields("require" + gap + ReqText(r) + (stuck + after)) ==
      ["require"] + ([r.name] + ([r.version + stuck] + Fields(after)))
  {
    ReqFields(r, stuck, after);
    FieldsOf("require", gap, ReqText(r) + (stuck + after));
    SingleSplit(gap, ReqText(r), stuck + after);
  }

  lemma SingleSplit(gap: string, text: string, tail: string)
    ensures "require" + gap + text + tail == "require" + (gap + (text + tail))
  {
  }

  lemma SingleShape(gap: string, r: Requirement, tail: string)
    requires Pad(gap) && gap != "" && GoodReq(r)
    ensures var line := "require" + gap + ReqText(r) + tail;
      && (HasPrefix(line, "require ") <==> gap[0] == ' ') && line != "require ("
      && (Contains(line, "(") <==> '(' in tail)
  {
    var line := "require" + gap + ReqText(r) + tail;
    assert line[7] == gap[0] && "require "[7] == ' ';
    assert gap[0] == ' ' ==> line[..8] == "require ";
    ContainsChar(line, '(');
    assert forall c | c in gap :: IsSpace(c);
    assert '(' !in "require" + gap + ReqText(r);
    assert line[8] == if |gap| == 1 then r.name[0] else gap[1];
    assert "require ("[8] == '(';
  }

  /** The trimmed line of a single requirement. */
  lemma SingleLine(item: Item)
    requires item.Single? && GoodItem(item)
    ensures TrimSpace(ItemLines(item)[0]) == "require" + item.gap + ReqText(item.req) + TrimRight(item.req.tail)
  {
    var r := item.req;
    var body := "require" + item.gap + ReqText(r);
    ReqSolid(r);
    assert body[0] == 'r' && body[|body| - 1] == ReqText(r)[|ReqText(r)| - 1];
    TrimBody(item.indent, body, r.tail);
    assert ItemLines(item)[0] == item.indent + body + r.tail;
  }

  /** What the last branch of a step does with a line that has three fields or more. */
  lemma DirectiveStep(st: State, raw: string, word: string, name: string, version: string, more: seq<string>)
    requires var line := TrimSpace(raw);
      line != "require (" && Fields(line) == [word] + ([name] + ([version] + more))
    requires !st.inRequire
    ensures Step(st, raw) ==
      if HasPrefix(TrimSpace(raw), "require ") && !Contains(TrimSpace(raw), "(")
      then State(false, st.deps[name := version]) else st
  {
  }

  lemma SingleStep(st: State, item: Item)
    requires item.Single? && GoodItem(item) && !st.inRequire
    ensures Step(st, ItemLines(item)[0]) ==
      if item.gap[0] == ' ' && '(' !in item.req.tail
      then State(false, st.deps[item.req.name := item.req.version + Stuck(item.req.tail)]) else st
  {
    var r := item.req;
    SingleLine(item);
    var after := TrimmedRest(r.tail);
    TrimRightKeeps(r.tail, '(');
    SingleShape(item.gap, r, TrimRight(r.tail));
    SingleFields(item.gap, r, Stuck(r.tail), after);
    DirectiveStep(st, ItemLines(item)[0], "require", r.name, r.version + Stuck(r.tail), Fields(after));
  }

  /** A line that is no require directive does nothing outside of blocks. */
  lemma OtherStep(st: State, text: string)
    requires GoodItem(Other(text)) && !st.inRequire
    ensures Step(st, text) == st
  {
    var line := TrimSpace(text);
    if HasPrefix(line, "require ") { DirectiveWord(line); }
    OpensIsDirective(line);
  }

  /** What an item does to a parser that is outside of blocks. */
  lemma ItemRun(st: State, item: Item)
    requires GoodItem(item) && !st.inRequire
    ensures Run(st, ItemLines(item)) ==
      if item.Block? then AfterBlock(st, item) else State(false, Enter(st.deps, SeenPairs(item)))
  {
    match item {
      case Single(_, _, r) =>
        SingleStep(st, item);
        assert ItemLines(item)[1..] == [];
        assert SeenPairs(item) != [] ==> SeenPairs(item)[1..] == [];
      case Block(_, _, _, _, _, _) =>
        BlockRun(st, item);
      case Other(text) =>
        OtherStep(st, text);
        assert ItemLines(item)[1..] == [];
    }
  }

  // ---- Which items are read ----

  lemma LastUnique(pairs: Pairs, name: string, v: string, w: string)
    requires LastListed(pairs, name, v) && LastListed(pairs, name, w)
    ensures v == w
  {
    var i :| 0 <= i < |pairs| && pairs[i] == (name, v) && forall j | i < j < |pairs| :: pairs[j].0 != name;
    var k :| 0 <= k < |pairs| && pairs[k] == (name, w) && forall j | k < j < |pairs| :: pairs[j].0 != name;
    assert i == k;
  }

  lemma {:induction false} EnterFrom(m: map<string, string>, pairs: Pairs)
    ensures Enter(m, pairs) == m + Enter(map[], pairs)
  {
    if pairs != [] {
      var before, last := pairs[..|pairs| - 1], pairs[|pairs| - 1];
      assert pairs == before + [last] && [last][1..] == [];
      EnterFrom(m, before);
      EnterAppend(m, before, [last]);
      EnterAppend(map[], before, [last]);
    }
  }

  lemma EnterOne(name: string, version: string, rest: Pairs)
    ensures Enter(map[], [(name, version)] + rest) == map[name := version] + Enter(map[], rest)
  {
    assert ([(name, version)] + rest)[1..] == rest;
    EnterFrom(map[name := version], rest);
  }

  /** The names entered are those required, whatever sticks to the versions. */
  lemma {:induction false} EnterNames(entries: seq<Entry>, name: string)
    ensures name in Enter(map[], SeenEntries(entries)) <==> Requires(entries, name)
    ensures name in Enter(map[], EntryPairs(entries)) <==> Requires(entries, name)
  {
    if entries != [] {
      EnterNames(entries[1..], name);
      if entries[0].Dep? {
        var r := entries[0].req;
        EnterOne(r.name, r.version + Stuck(r.tail), SeenEntries(entries[1..]));
        EnterOne(r.name, r.version, EntryPairs(entries[1..]));
      }
    }
  }

  /** An entry put before others matters only if they do not have its key. */
  lemma MapsWithFirst(name: string, v: string, w: string, x: map<string, string>, y: map<string, string>)
    requires forall n :: n in x <==> n in y
    ensures map[name := v] + x == map[name := w] + y <==> x == y && (name in x || v == w)
  {
    var p, q := map[name := v] + x, map[name := w] + y;
    if name in x {
      assert p == x && q == y;
    } else {
      assert p - {name} == x && q - {name} == y;
      assert p[name] == v && q[name] == w;
    }
  }

  /** What the layout says about comments is what the map needs. */
  lemma {:induction false} SetOffIff(entries: seq<Entry>)
    ensures Enter(map[], SeenEntries(entries)) == Enter(map[], EntryPairs(entries)) <==> LastsSetOff(entries)
  {
    if entries != [] {
      var rest := entries[1..];
      SetOffIff(rest);
      if entries[0].Dep? {
        var req := entries[0].req;
        var seen, meant := Enter(map[], SeenEntries(rest)), Enter(map[], EntryPairs(rest));
        EnterOne(req.name, req.version + Stuck(req.tail), SeenEntries(rest));
        EnterOne(req.name, req.version, EntryPairs(rest));
        forall n ensures n in seen <==> n in meant { EnterNames(rest, n); }
        EnterNames(rest, req.name);
        MapsWithFirst(req.name, req.version + Stuck(req.tail), req.version, seen, meant);
        StuckShows(req.version, req.tail);
      }
    }
  }

  lemma EnterSome(pairs: Pairs)
    ensures Enter(map[], pairs) == map[] <==> pairs == []
  {
    if pairs != [] { EnterIsLast(pairs, pairs[0].0); }
  }

  lemma BlockReadIff(item: Item)
    requires item.Block? && GoodItem(item)
    ensures AfterBlock(State(false, map[]), item) == State(false, Enter(map[], ItemPairs(item))) <==> Visible(item)
  {
    SetOffIff(item.entries);
    EnterSome(EntryPairs(item.entries));
  }

  lemma StuckShows(version: string, tail: string)
    ensures version + Stuck(tail) == version <==> Stuck(tail) == ""
  {
    assert |version + Stuck(tail)| == |version| + |Stuck(tail)|;
    assert Stuck(tail) == "" ==> version + Stuck(tail) == version;
  }

  /**
   Exactly which items are read as they are meant: for every directive, block or other line, with any white
   space and comments, from outside of blocks the parser enters its requirements and is outside again if and
   only if the item is visible.
   */
  lemma ReadIff(item: Item)
    requires GoodItem(item)
    ensures Run(State(false, map[]), ItemLines(item)) == State(false, Enter(map[], ItemPairs(item)))
      <==> Visible(item)
  {
    var start := State(false, map[]);
    ItemRun(start, item);
    match item {
      case Single(_, _, r) =>
        StuckShows(r.version, r.tail);
        var seen, meant := SeenPairs(item), ItemPairs(item);
        assert meant[1..] == [] && (seen != [] ==> seen[1..] == []);
        assert Enter(map[], meant) == map[r.name := r.version];
        assert Enter(map[], meant)[r.name] == r.version;
      case Block(_, _, _, _, _, _) =>
        BlockReadIff(item);
      case Other(_) =>
    }
  }

  // ---- Documents ----

  lemma {:induction false} DocRun(st: State, doc: seq<Item>)
    requires GoodDoc(doc) && !st.inRequire && forall i | 0 <= i < |doc| :: Closes(doc[i])
    ensures Run(st, DocLines(doc)) == State(false, Enter(st.deps, DocSeen(doc)))
    decreases doc
  {
    if doc != [] {
      ItemRun(st, doc[0]);
      RunAppend(st, ItemLines(doc[0]), DocLines(doc[1..]));
      var next := Run(st, ItemLines(doc[0]));
      assert next == State(false, Enter(st.deps, SeenPairs(doc[0])));
      DocRun(next, doc[1..]);
      EnterAppend(st.deps, SeenPairs(doc[0]), DocSeen(doc[1..]));
    }
  }

  lemma {:induction false} EntryLinesWhole(entries: seq<Entry>)
    requires forall i | 0 <= i < |entries| :: GoodEntry(entries[i])
    ensures forall line | line in EntryLines(entries) :: '\n' !in line
  {
    if entries != [] {
      EntryLinesWhole(entries[1..]);
      assert '\n' !in EntryLine(entries[0]) by {
        match entries[0] {
          case Dep(r) => assert IsSpace('\n');
          case Note(_) =>
        }
      }
    }
  }

  lemma ItemLinesWhole(item: Item)
    requires GoodItem(item)
    ensures forall line | line in ItemLines(item) :: '\n' !in line
  {
    match item {
      case Single(indent, gap, r) =>
        assert IsSpace('\n');
      case Block(indent, gap, head, entries, close, end) =>
        EntryLinesWhole(entries);
      case Other(_) =>
    }
  }

  lemma {:induction false} DocLinesWhole(doc: seq<Item>)
    requires GoodDoc(doc)
    ensures forall line | line in DocLines(doc) :: '\n' !in line
  {
    if doc != [] {
      ItemLinesWhole(doc[0]);
      DocLinesWhole(doc[1..]);
    }
  }

  /** Printing and splitting gives the lines back; the last, empty one does nothing. */
  lemma ParseLines(doc: seq<Item>)
    requires GoodDoc(doc)
    ensures Parse(Print(doc)) == Run(State(false, map[]), DocLines(doc)).deps
  {
    var lines, start := DocLines(doc), State(false, map[]);
    DocLinesWhole(doc);
    forall i | 0 <= i < |lines + [""]| ensures '\n' !in (lines + [""])[i] {
      assert i < |lines| ==> (lines + [""])[i] in lines;
    }
    SplitJoin(lines + [""], '\n');
    assert "\n" == ['\n'];
    RunAppend(start, lines, [""]);
    NoteStep(Run(start, lines), "");
    assert [""][1..] == [];
  }

  /**
   Printing a document and parsing it gives the pairs that the parser sees in its items, the last of each name
   winning, as long as every block that opens also closes.
   */
  lemma ParsePrint(doc: seq<Item>)
    requires GoodDoc(doc) && forall i | 0 <= i < |doc| :: Closes(doc[i])
    ensures Parse(Print(doc)) == Enter(map[], DocSeen(doc))
  {
    ParseLines(doc);
    DocRun(State(false, map[]), doc);
  }

  lemma VisibleSeen(item: Item)
    requires GoodItem(item) && Visible(item)
    ensures Closes(item) && Enter(map[], SeenPairs(item)) == Enter(map[], ItemPairs(item))
  {
    match item {
      case Single(_, _, r) => StuckShows(r.version, r.tail);
      case Block(_, gap, head, entries, _, _) =>
        if Opens(gap, head) { SetOffIff(entries); }
      case Other(_) =>
    }
  }

  lemma {:induction false} AllVisible(m: map<string, string>, doc: seq<Item>)
    requires GoodDoc(doc) && forall i | 0 <= i < |doc| :: Visible(doc[i])
    ensures Enter(m, DocSeen(doc)) == Enter(m, DocPairs(doc))
    decreases doc
  {
    if doc != [] {
      var seen, meant := SeenPairs(doc[0]), ItemPairs(doc[0]);
      VisibleSeen(doc[0]);
      EnterFrom(m, seen);
      EnterFrom(m, meant);
      EnterAppend(m, seen, DocSeen(doc[1..]));
      EnterAppend(m, meant, DocPairs(doc[1..]));
      AllVisible(Enter(m, seen), doc[1..]);
    }
  }

  /** The round trip: every map, laid out in any of these ways, comes back. */
  lemma RoundTrip(m: map<string, string>, doc: seq<Item>)
    requires GoodDoc(doc) && forall i | 0 <= i < |doc| :: Visible(doc[i])
    requires forall name :: name in m <==> exists i :: 0 <= i < |DocPairs(doc)| && DocPairs(doc)[i].0 == name
    requires forall name | name in m :: LastListed(DocPairs(doc), name, m[name])
    ensures Parse(Print(doc)) == m
  {
    forall i | 0 <= i < |doc| ensures Closes(doc[i]) { VisibleSeen(doc[i]); }
    ParsePrint(doc);
    AllVisible(map[], doc);
    var pairs := DocPairs(doc);
    forall name ensures name in Enter(map[], pairs) <==> name in m { EnterIsLast(pairs, name); }
    forall name | name in m ensures Enter(map[], pairs)[name] == m[name] {
      EnterIsLast(pairs, name);
      LastUnique(pairs, name, m[name], Enter(map[], pairs)[name]);
    }
  }

  // ---- Reading on after a commented ')' ----

  lemma {:induction false} DocLinesAppend(a: seq<Item>, b: seq<Item>)
    ensures DocLines(a + b) == DocLines(a) + DocLines(b)
  {
    if a == [] {
      assert a + b == b;
    } else {
      assert (a + b)[1..] == a[1..] + b;
      DocLinesAppend(a[1..], b);
    }
  }

  /** Inside a block, only a bare ')' leaves it. */
  lemma {:induction false} StaysInside(st: State, lines: seq<string>)
    requires st.inRequire && forall i | 0 <= i < |lines| :: TrimSpace(lines[i]) != ")"
    ensures Run(st, lines).inRequire
    decreases lines
  {
    if lines != [] { StaysInside(Step(st, lines[0]), lines[1..]); }
  }

  /** A line of anything else, read inside a block, is entered as if it were a requirement. */
  lemma OtherEntered(st: State, text: string)
    requires GoodItem(Other(text)) && st.inRequire
    requires |Fields(TrimSpace(text))| >= 2 && !HasPrefix(Fields(TrimSpace(text))[0], "//")
    requires TrimSpace(text) != ")"
    ensures Step(st, text) == State(true, st.deps[Fields(TrimSpace(text))[0] := Fields(TrimSpace(text))[1]])
  {
    var line := TrimSpace(text);
    if HasPrefix(line, "require ") { DirectiveWord(line); }
    OpensIsDirective(line);
  }

  /**
   A comment after the closing ')' of a block that opened: the comment's own line is read as a requirement, and
   everything after it is read as if inside the block.
   */
  lemma ReadsOn(a: seq<Item>, block: Item, b: seq<Item>)
    requires GoodDoc(a) && GoodItem(block) && GoodDoc(b) && forall i | 0 <= i < |a| :: Closes(a[i])
    requires block.Block? && Opens(block.gap, block.head) && !AllSpace(block.end)
    ensures
      var read := Enter(Enter(map[], DocSeen(a)), SeenEntries(block.entries));
      var inside := State(true, InBlock(read, ")" + TrimRight(block.end)));
      Parse(Print(a + [block] + b)) == Run(inside, DocLines(b)).deps
  {
    var start, doc := State(false, map[]), a + [block] + b;
    ParseLines(doc);
    DocLinesAppend(a + [block], b);
    DocLinesAppend(a, [block]);
    assert [block][1..] == [];
    assert DocLines([block]) == ItemLines(block) + [] == ItemLines(block);
    DocRun(start, a);
    var before := State(false, Enter(map[], DocSeen(a)));
    BlockRun(before, block);
    RunAppend(start, DocLines(a), ItemLines(block));
    RunAppend(start, DocLines(a) + ItemLines(block), DocLines(b));
  }

  /** So a directive after such a block comes out as a dependency named like its keyword. */
  lemma DirectiveMisread(block: Item, text: string)
    requires GoodItem(block) && GoodItem(Other(text))
    requires block.Block? && Opens(block.gap, block.head) && !AllSpace(block.end)
    requires |Fields(TrimSpace(text))| >= 2 && !HasPrefix(Fields(TrimSpace(text))[0], "//")
    requires TrimSpace(text) != ")"
    ensures
      var deps, parts := Parse(Print([block, Other(text)])), Fields(TrimSpace(text));
      parts[0] in deps && deps[parts[0]] == parts[1]
  {
    assert [] + [block] + [Other(text)] == [block, Other(text)];
    ReadsOn([], block, [Other(text)]);
    var read := Enter(Enter(map[], []), SeenEntries(block.entries));
    OtherEntered(State(true, InBlock(read, ")" + TrimRight(block.end))), text);
    assert [Other(text)][1..] == [] && ItemLines(Other(text)) == [text];
    assert DocLines([Other(text)]) == [text] + [] == [text];
    assert [text][1..] == [];
  }
}
