/** The unified-diff parser of mono/engine/src/engine.cpp. */
module DiffParser {
  import opened DiffLines
  import opened Text
  import opened Wrappers

  datatype ChangeType = Added | Modified | Deleted | Renamed

  datatype FileInfo = FileInfo(path: string, changeType: ChangeType)

  datatype Hunk = Hunk(filePath: string, oldStart: nat, oldLines: nat, newStart: nat, newLines: nat,
    content: string, added: seq<string>, removed: seq<string>)

  datatype ParsedDiff = ParsedDiff(hunks: seq<Hunk>, files: seq<FileInfo>, additions: nat, deletions: nat)

  // std::stoul on a 64-bit unsigned long raises std::out_of_range above this.
  const ULONG_MAX: nat := 0xFFFF_FFFF_FFFF_FFFF

  datatype Failure = OutOfRange

  // ---------- What a line is ----------

  datatype Kind =
    | Header(path: string)
    | Mode(change: ChangeType)
    | HunkHeader(spans: Spans)
    | Body

  function Classify(line: string): (k: Kind)
    ensures k.Header? ==> k.path != ""
  {
    if HeaderPath(line).Some? then Header(HeaderPath(line).value)
    else if StartsWith(line, "new file mode") then Mode(Added)
    else if StartsWith(line, "deleted file mode") then Mode(Deleted)
    else if StartsWith(line, "rename from ") && |line| > 12 && NoBreak(line) then Mode(Renamed)
    else if HunkSpans(line).Some? then HunkHeader(HunkSpans(line).value)
    else Body
  }

  function StoUl(digits: Digits): Option<nat> {
    if Value(digits) <= ULONG_MAX then Some(Value(digits)) else None
  }

  function Count(digits: Option<Digits>): Option<nat> {
    match digits case None => Some(1) case Some(d) => StoUl(d)
  }

  /** An empty hunk with the numbers of its header, or nothing when one is out of range. */
  function OpenHunk(path: string, line: string, spans: Spans): (r: Option<Hunk>)
    ensures r.Some? ==> r.value.filePath == path && r.value.content == line + "\n"
    ensures r.Some? ==> r.value.added == [] && r.value.removed == []
  {
    var a, b := StoUl(spans.before.start), Count(spans.before.count);
    var c, d := StoUl(spans.after.start), Count(spans.after.count);
    if a.Some? && b.Some? && c.Some? && d.Some?
    then Some(Hunk(path, a.value, b.value, c.value, d.value, line + "\n", [], []))
    else None
  }

  // ---------- Meaning: a fold over the lines ----------

  /** The file and the hunk that are still open. */
  datatype State = State(parsed: ParsedDiff, file: Option<FileInfo>, hunk: Option<Hunk>) {
    function Path(): string {
      match file case None => "" case Some(f) => f.path
    }

    function CloseHunk(): State {
      match hunk
      case None => this
      case Some(h) => State(parsed.(hunks := parsed.hunks + [h]), file, None)
    }

    function Close(): ParsedDiff {
      var p := CloseHunk().parsed;
      match file case None => p case Some(f) => p.(files := p.files + [f])
    }
  }

  function Start(): State {
    State(ParsedDiff([], [], 0, 0), None, None)
  }

  function Marked(line: string, mark: char): seq<string> {
    if line != "" && line[0] == mark then [line[1..]] else []
  }

  function AddLine(h: Hunk, line: string): Hunk {
    h.(content := h.content + line + "\n",
       added := h.added + Marked(line, '+'), removed := h.removed + Marked(line, '-'))
  }

  function Step(st: State, line: string): Result<State, Failure> {
    match Classify(line)
    case Header(path) => Ok(State(st.Close(), Some(FileInfo(path, Modified)), None))
    case Mode(change) => Ok(match st.file case None => st case Some(f) => st.(file := Some(f.(changeType := change))))
    case HunkHeader(spans) =>
      (match OpenHunk(st.Path(), line, spans)
       case None => Err(OutOfRange)
       case Some(h) => Ok(st.CloseHunk().(hunk := Some(h))))
    case Body =>
      match st.hunk
      case None => Ok(st)
      case Some(h) =>
        Ok(State(st.parsed.(additions := st.parsed.additions + |Marked(line, '+')|,
                            deletions := st.parsed.deletions + |Marked(line, '-')|),
                 st.file, Some(AddLine(h, line))))
  }

  function Fold(st: State, lines: seq<string>): Result<State, Failure>
    decreases |lines|
  {
    if lines == [] then Ok(st)
    else match Step(st, lines[0])
      case Err(e) => Err(e)
      case Ok(next) => Fold(next, lines[1..])
  }

  lemma FoldCons(st: State, line: string, rest: seq<string>)
    ensures Step(st, line).Err? ==> Fold(st, [line] + rest) == Err(OutOfRange)
    ensures Step(st, line).Ok? ==> Fold(st, [line] + rest) == Fold(Step(st, line).value, rest)
  {
    assert ([line] + rest)[1..] == rest;
  }

  lemma FoldLine(st: State, text: string)
    requires text != ""
    ensures Step(st, FirstLine(text)).Err? ==> Fold(st, Lines(text)) == Err(OutOfRange)
    ensures Step(st, FirstLine(text)).Ok? ==>
      Fold(st, Lines(text)) == Fold(Step(st, FirstLine(text)).value, Lines(OtherLines(text)))
  {
    FoldCons(st, FirstLine(text), Lines(OtherLines(text)));
  }

  function Parse(text: string): Result<ParsedDiff, Failure> {
    match Fold(Start(), Lines(text))
    case Err(e) => Err(e)
    case Ok(st) => Ok(st.Close())
  }

  // ---------- The parser ----------

  method GetLine(text: string) returns (line: string, rest: string)
    requires text != ""
    ensures line == FirstLine(text) && rest == OtherLines(text) && |rest| < |text|
  {
    var end := FirstIndex(text, "\n");
    if end.Some? {
      return text[..end.value], text[end.value + 1..];
    }
    return text, "";
  }

  method TakeBodyLine(hunk: Hunk, line: string, additions: nat, deletions: nat)
    returns (h: Hunk, a: nat, d: nat)
    ensures h == AddLine(hunk, line) && h.content != ""
    ensures a == additions + |Marked(line, '+')| && d == deletions + |Marked(line, '-')|
  {
    h, a, d := hunk.(content := hunk.content + line + "\n"), additions, deletions;
    if line != "" {
      if line[0] == '+' {
        h := h.(added := h.added + [line[1..]]);
        a := a + 1;
      } else if line[0] == '-' {
        h := h.(removed := h.removed + [line[1..]]);
        d := d + 1;
      }
    }
  }

  /** The variables of parseDiff: a flag says whether the hunk is open, and an empty path
      that there is no file yet. */
  datatype Variables = Variables(hunks: seq<Hunk>, files: seq<FileInfo>, additions: nat, deletions: nat,
    hunk: Hunk, file: FileInfo, inHunk: bool, path: string)
  {
    predicate Valid() {
      inHunk ==> hunk.content != ""
    }

    function Meaning(): State {
      State(ParsedDiff(hunks, files, additions, deletions),
        if path == "" then None else Some(file.(path := path)),
        if inHunk then Some(hunk) else None)
    }
  }

  const NO_HUNK := Hunk("", 0, 0, 0, 0, "", [], [])

  /** Pushes the open hunk and the current file, where there are any. */
  method Flush(v: Variables, fileToo: bool) returns (hunks: seq<Hunk>, files: seq<FileInfo>)
    requires v.Valid()
    ensures hunks == v.Meaning().CloseHunk().parsed.hunks
    ensures files == if fileToo then v.Meaning().Close().files else v.files
  {
    hunks, files := v.hunks, v.files;
    if v.inHunk && v.hunk.content != "" {
      hunks := hunks + [v.hunk];
    }
    if fileToo && v.path != "" {
      files := files + [v.file.(path := v.path)];
    }
  }

  /** The body of the loop of parseDiff. */
  method TakeLine(v: Variables, line: string) returns (r: Result<Variables, Failure>)
    requires v.Valid()
    ensures r.Ok? ==> r.value.Valid() && Step(v.Meaning(), line) == Ok(r.value.Meaning())
    ensures r.Err? ==> Step(v.Meaning(), line) == Err(r.error)
  {
    hide Classify, OpenHunk, AddLine, Marked;
    match Classify(line)
    case Header(path) =>
      var hunks, files := Flush(v, true);
      return Ok(Variables(hunks, files, v.additions, v.deletions, NO_HUNK, FileInfo(path, Modified), false, path));
    case Mode(change) =>
      return Ok(v.(file := v.file.(changeType := change)));
    case HunkHeader(spans) =>
      var hunks, files := Flush(v, false);
      var hunk := OpenHunk(v.path, line, spans);
      return if hunk.None? then Err(OutOfRange) else Ok(v.(hunks := hunks, hunk := hunk.value, inHunk := true));
    case Body =>
      if v.inHunk {
        var hunk, additions, deletions := TakeBodyLine(v.hunk, line, v.additions, v.deletions);
        return Ok(v.(hunk := hunk, additions := additions, deletions := deletions));
      }
      return Ok(v);
  }

  /** parseDiff. */
  method ParseDiff(text: string) returns (r: Result<ParsedDiff, Failure>)
    ensures r == Parse(text)
  {
    var v := Variables([], [], 0, 0, NO_HUNK, FileInfo("", Modified), false, "");
    var rest := text;
    while rest != ""
      invariant v.Valid()
      invariant Fold(Start(), Lines(text)) == Fold(v.Meaning(), Lines(rest))
      decreases |rest|
    {
      hide Fold, Lines, Step, FirstLine, OtherLines;
      FoldLine(v.Meaning(), rest);
      var line;
      line, rest := GetLine(rest);
      var next := TakeLine(v, line);
      if next.Err? {
        return Err(next.error);
      }
      v := next.value;
    }
    var hunks, files := Flush(v, true);
    return Ok(ParsedDiff(hunks, files, v.additions, v.deletions));
  }

  // ---------- What holds of every input ----------

  lemma {:induction false} FoldAppend(st: State, a: seq<string>, mid: State, b: seq<string>)
    requires Fold(st, a) == Ok(mid)
    ensures Fold(st, a + b) == Fold(mid, b)
    decreases |a|
  {
    hide Step;
    if a == [] {
      assert a + b == b;
    } else {
      assert a + b == [a[0]] + (a[1..] + b);
      FoldCons(st, a[0], a[1..] + b);
      FoldAppend(Step(st, a[0]).value, a[1..], mid, b);
    }
  }

  predicate Overflows(line: string) {
    match Classify(line)
    case HunkHeader(spans) => OpenHunk("", line, spans).None?
    case _ => false
  }

  lemma StepFailsIff(st: State, line: string)
    ensures Step(st, line).Err? <==> Overflows(line)
  {
    hide Classify;
  }

  /** The parser raises exactly when some hunk header has a number beyond 64 bits; nothing
      else in a text can make it fail. */
  lemma {:induction false} FoldFailsIff(st: State, lines: seq<string>)
    ensures Fold(st, lines).Err? <==> exists i | 0 <= i < |lines| :: Overflows(lines[i])
    decreases |lines|
  {
    hide Step, Overflows;
    if lines != [] {
      StepFailsIff(st, lines[0]);
      if Step(st, lines[0]).Ok? {
        FoldFailsIff(Step(st, lines[0]).value, lines[1..]);
        assert forall i | 1 <= i < |lines| :: lines[i] == lines[1..][i - 1];
      }
    }
  }

  function AddedIn(hunks: seq<Hunk>): nat {
    if hunks == [] then 0 else AddedIn(hunks[..|hunks| - 1]) + |hunks[|hunks| - 1].added|
  }

  function RemovedIn(hunks: seq<Hunk>): nat {
    if hunks == [] then 0 else RemovedIn(hunks[..|hunks| - 1]) + |hunks[|hunks| - 1].removed|
  }

  lemma SumsOfOneMore(hunks: seq<Hunk>, h: Hunk)
    ensures AddedIn(hunks + [h]) == AddedIn(hunks) + |h.added|
    ensures RemovedIn(hunks + [h]) == RemovedIn(hunks) + |h.removed|
  {
    assert (hunks + [h])[..|hunks|] == hunks;
  }

  /** A hunk read from its own content: the same numbers and lines, under no file. */
  function Alone(h: Hunk): State {
    State(ParsedDiff([], [], |h.added|, |h.removed|), None, Some(h.(filePath := "")))
  }

  ghost predicate From(h: Hunk, lines: seq<string>) {
    SingleLines(lines) && Unlines(lines) == h.content && Fold(Start(), lines) == Ok(Alone(h))
  }

  ghost predicate Faithful(h: Hunk) {
    exists lines :: From(h, lines)
  }

  predicate Lists(files: seq<FileInfo>, path: string) {
    exists i | 0 <= i < |files| :: files[i].path == path
  }

  predicate Placed(st: State, path: string) {
    path == "" || path == st.Path() || Lists(st.parsed.files, path)
  }

  lemma PlacedAtClose(st: State, path: string)
    requires Placed(st, path)
    ensures path == "" || Lists(st.Close().files, path)
  {
    var files := st.Close().files;
    assert st.file.Some? ==> files[|files| - 1].path == st.Path();
    assert forall i | 0 <= i < |st.parsed.files| :: files[i] == st.parsed.files[i];
  }

  /** What every state of the parser keeps. */
  ghost predicate Inv(st: State) {
    var d := st.CloseHunk().parsed;
    && d.additions == AddedIn(d.hunks) && d.deletions == RemovedIn(d.hunks)
    && (forall i | 0 <= i < |d.hunks| :: Faithful(d.hunks[i]))
    && (forall i | 0 <= i < |d.hunks| :: Placed(st, d.hunks[i].filePath))
    && (st.hunk.Some? ==> st.hunk.value.filePath == st.Path())
  }

  lemma OpenIsFaithful(path: string, line: string, spans: Spans, h: Hunk)
    requires '\n' !in line
    ensures Classify(line) == HunkHeader(spans) && OpenHunk(path, line, spans) == Some(h) ==> Faithful(h)
  {
    hide Classify;
    if Classify(line) == HunkHeader(spans) && OpenHunk(path, line, spans) == Some(h) {
      assert OpenHunk("", line, spans) == Some(h.(filePath := ""));
      assert Step(Start(), line) == Ok(Alone(h));
      assert [line][1..] == [] && Unlines([line]) == line + "\n";
      assert Fold(Start(), [line]) == Ok(Alone(h));
      assert From(h, [line]);
    }
  }

  lemma LongerIsFaithful(h: Hunk, line: string)
    requires '\n' !in line && Classify(line).Body? && Faithful(h)
    ensures Faithful(AddLine(h, line))
  {
    hide Classify, Marked;
    var lines :| From(h, lines);
    var longer := AddLine(h, line);
    FoldAppend(Start(), lines, Alone(h), [line]);
    assert Step(Alone(h), line) == Ok(Alone(longer));
    FoldCons(Alone(h), line, []);
    assert [line] + [] == [line];
    UnlinesAppend(lines, [line]);
    assert [line][1..] == [] && Unlines([line]) == line + "\n";
    assert h.content + (line + "\n") == h.content + line + "\n";
    assert From(longer, lines + [line]);
  }

  lemma StepKeeps(st: State, line: string)
    requires Inv(st) && '\n' !in line && Step(st, line).Ok?
    ensures Inv(Step(st, line).value)
  {
    hide Classify, OpenHunk, Faithful, AddedIn, RemovedIn, Marked, AddLine, Lists;
    var next := Step(st, line).value;
    var hunks := st.CloseHunk().parsed.hunks;
    assert st.hunk.Some? ==> hunks[|st.parsed.hunks|] == st.hunk.value;
    match Classify(line)
    case Header(_) =>
      assert next.CloseHunk().parsed.hunks == hunks;
      forall i | 0 <= i < |hunks| ensures Placed(next, hunks[i].filePath) {
        PlacedAtClose(st, hunks[i].filePath);
      }
    case Mode(_) =>
      assert next.CloseHunk().parsed.hunks == hunks;
    case HunkHeader(spans) =>
      OpenIsFaithful(st.Path(), line, spans, next.hunk.value);
      assert next.CloseHunk().parsed.hunks == hunks + [next.hunk.value];
      SumsOfOneMore(hunks, next.hunk.value);
    case Body =>
      if st.hunk.Some? {
        assert next.CloseHunk().parsed.hunks == st.parsed.hunks + [next.hunk.value];
        assert forall i | 0 <= i < |st.parsed.hunks| :: hunks[i] == st.parsed.hunks[i];
        LongerIsFaithful(st.hunk.value, line);
        LengthsAdd(st.hunk.value, line);
        SumsOfOneMore(st.parsed.hunks, st.hunk.value);
        SumsOfOneMore(st.parsed.hunks, next.hunk.value);
      }
  }

  lemma LengthsAdd(h: Hunk, line: string)
    ensures |AddLine(h, line).added| == |h.added| + |Marked(line, '+')|
    ensures |AddLine(h, line).removed| == |h.removed| + |Marked(line, '-')|
    ensures AddLine(h, line).filePath == h.filePath
  {
  }

  lemma {:induction false} FoldKeeps(st: State, lines: seq<string>)
    requires Inv(st) && SingleLines(lines) && Fold(st, lines).Ok?
    ensures Inv(Fold(st, lines).value)
    decreases |lines|
  {
    hide Step, Inv;
    if lines != [] {
      StepKeeps(st, lines[0]);
      FoldKeeps(Step(st, lines[0]).value, lines[1..]);
    }
  }

  predicate Rereads(h: Hunk) {
    Parse(h.content) == Ok(ParsedDiff([h.(filePath := "")], [], |h.added|, |h.removed|))
  }

  lemma FaithfulRereads(h: Hunk)
    requires Faithful(h)
    ensures Rereads(h)
  {
    hide Fold, Lines;
    var lines :| From(h, lines);
    LinesOfUnlines(lines);
    assert [] + [h.(filePath := "")] == [h.(filePath := "")];
  }

  lemma Nothing()
    ensures AddedIn([]) == 0 && RemovedIn([]) == 0
  {
  }

  /** For every text that is parsed at all: the totals are those of the hunks returned, every
      hunk is of a listed file or of none, and every hunk can be read again from its content. */
  lemma EveryParse(text: string)
    requires Parse(text).Ok?
    ensures var d := Parse(text).value;
      && d.additions == AddedIn(d.hunks) && d.deletions == RemovedIn(d.hunks)
      && (forall i | 0 <= i < |d.hunks| :: d.hunks[i].filePath == "" || Lists(d.files, d.hunks[i].filePath))
      && (forall i | 0 <= i < |d.hunks| :: Rereads(d.hunks[i]))
  {
    hide Faithful, AddedIn, RemovedIn, Lists, Lines, Fold;
    LinesAreSingle(text);
    Nothing();
    FoldKeeps(Start(), Lines(text));
    var st := Fold(Start(), Lines(text)).value;
    var d := Parse(text).value;
    assert d.hunks == st.CloseHunk().parsed.hunks;
    forall i | 0 <= i < |d.hunks|
      ensures d.hunks[i].filePath == "" || Lists(d.files, d.hunks[i].filePath)
      ensures Rereads(d.hunks[i])
    {
      FaithfulRereads(d.hunks[i]);
      PlacedAtClose(st, d.hunks[i].filePath);
    }
  }
}
