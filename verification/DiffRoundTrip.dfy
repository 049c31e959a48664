/** Printing a diff the way git does and parsing it again. */
module DiffRoundTrip {
  import opened DiffLines
  import opened DiffParser
  import opened Text
  import opened Wrappers

  /** A line of a hunk before its mark is put in front; a remark has none. */
  datatype BodyLine = Insertion(text: string) | Deletion(text: string) | Context(text: string) | Remark(text: string) {
    function Shown(): string {
      match this
      case Insertion(x) => "+" + x
      case Deletion(y) => "-" + y
      case Context(z) => " " + z
      case Remark(line) => line
    }

    predicate Good() {
      '\n' !in text && (Remark? ==> Classify(text).Body? && (text == "" || text[0] !in "+-"))
    }
  }

  /** A hunk as written: counts may be left out, and text may follow the second "@@". */
  datatype Edit = Edit(oldStart: nat, oldLines: Option<nat>, newStart: nat, newLines: Option<nat>,
    suffix: string, body: seq<BodyLine>)

  /** A changed file as written. The notes are the lines that git adds for other readers:
      index, ---, +++ and the like. */
  datatype Change = Change(oldPath: string, newPath: string, kind: ChangeType, mode: string,
    notes: seq<string>, edits: seq<Edit>)

  // ---------- Printing ----------

  function ShownLines(body: seq<BodyLine>): (lines: seq<string>)
    ensures |lines| == |body|
  {
    if body == [] then [] else [body[0].Shown()] + ShownLines(body[1..])
  }

  function EditLines(e: Edit): seq<string> {
    [HunkLine(e.oldStart, e.oldLines, e.newStart, e.newLines, e.suffix)] + ShownLines(e.body)
  }

  function EditsLines(es: seq<Edit>): seq<string> {
    if es == [] then [] else EditLines(es[0]) + EditsLines(es[1..])
  }

  function ModeLines(c: Change): seq<string> {
    match c.kind
    case Added => ["new file mode " + c.mode]
    case Deleted => ["deleted file mode " + c.mode]
    case Renamed => ["rename from " + c.oldPath]
    case Modified => []
  }

  function ChangeLines(c: Change): seq<string> {
    [HeaderLine(c.oldPath, c.newPath)] + (ModeLines(c) + (c.notes + EditsLines(c.edits)))
  }

  function DiffLinesOf(cs: seq<Change>): seq<string> {
    if cs == [] then [] else ChangeLines(cs[0]) + DiffLinesOf(cs[1..])
  }

  function Print(cs: seq<Change>): string {
    Unlines(DiffLinesOf(cs))
  }

  // ---------- What a diff must not hold ----------

  predicate BodyLines(lines: seq<string>) {
    forall i | 0 <= i < |lines| :: '\n' !in lines[i] && Classify(lines[i]).Body?
  }

  predicate GoodBody(body: seq<BodyLine>) {
    forall i | 0 <= i < |body| :: body[i].Good()
  }

  predicate GoodEdit(e: Edit) {
    && e.oldStart <= ULONG_MAX && e.newStart <= ULONG_MAX
    && (e.oldLines.Some? ==> e.oldLines.value <= ULONG_MAX)
    && (e.newLines.Some? ==> e.newLines.value <= ULONG_MAX)
    && NoBreak(e.suffix) && GoodBody(e.body)
  }

  predicate GoodEdits(es: seq<Edit>) {
    forall i | 0 <= i < |es| :: GoodEdit(es[i])
  }

  predicate GoodChange(c: Change) {
    && c.oldPath != "" && NoBreak(c.oldPath)
    && c.newPath != "" && NoBreak(c.newPath) && !HoldsSeparator(c.newPath)
    && '\n' !in c.mode && BodyLines(c.notes) && GoodEdits(c.edits)
  }

  predicate GoodDiff(cs: seq<Change>) {
    forall i | 0 <= i < |cs| :: GoodChange(cs[i])
  }

  /** Every line of a hunk as git writes it is a body line, whatever follows its mark; so is
      every note that does not begin like one of the headers. */
  lemma MarkedLinesAreBody(line: string)
    requires line == "" || line[0] !in "dnr@"
    ensures Classify(line).Body?
  {
    hide StartsWith;
    Differs(line, GIT, 0);
    Differs(line, "new file mode", 0);
    Differs(line, "deleted file mode", 0);
    Differs(line, "rename from ", 0);
    Differs(line, "@@ -", 0);
  }

  lemma Differs(line: string, p: string, i: nat)
    requires i < |p| && (i < |line| ==> line[i] != p[i])
    ensures !StartsWith(line, p)
  {
    assert |p| <= |line| ==> line[..|p|][i] == line[i];
  }

  // ---------- What the parser must return ----------

  function Insertions(body: seq<BodyLine>): seq<string> {
    if body == [] then [] else (if body[0].Insertion? then [body[0].text] else []) + Insertions(body[1..])
  }

  function Deletions(body: seq<BodyLine>): seq<string> {
    if body == [] then [] else (if body[0].Deletion? then [body[0].text] else []) + Deletions(body[1..])
  }

  function OrOne(n: Option<nat>): nat {
    match n case None => 1 case Some(k) => k
  }

  function HunkOf(path: string, e: Edit): Hunk {
    Hunk(path, e.oldStart, OrOne(e.oldLines), e.newStart, OrOne(e.newLines),
      Unlines(EditLines(e)), Insertions(e.body), Deletions(e.body))
  }

  const EMPTY := ParsedDiff([], [], 0, 0)

  function Plus(a: ParsedDiff, b: ParsedDiff): ParsedDiff {
    ParsedDiff(a.hunks + b.hunks, a.files + b.files, a.additions + b.additions, a.deletions + b.deletions)
  }

  function OfEdits(path: string, es: seq<Edit>): ParsedDiff {
    if es == [] then EMPTY
    else
      var h := HunkOf(path, es[0]);
      Plus(ParsedDiff([h], [], |h.added|, |h.removed|), OfEdits(path, es[1..]))
  }

  function OfChange(c: Change): ParsedDiff {
    Plus(OfEdits(c.newPath, c.edits), ParsedDiff([], [FileInfo(c.newPath, c.kind)], 0, 0))
  }

  function OfDiff(cs: seq<Change>): ParsedDiff {
    if cs == [] then EMPTY else Plus(OfChange(cs[0]), OfDiff(cs[1..]))
  }

  lemma PlusAssociative(a: ParsedDiff, b: ParsedDiff, c: ParsedDiff)
    ensures Plus(Plus(a, b), c) == Plus(a, Plus(b, c))
  {
    assert a.hunks + b.hunks + c.hunks == a.hunks + (b.hunks + c.hunks);
    assert a.files + b.files + c.files == a.files + (b.files + c.files);
  }

  lemma PlusEmpty(a: ParsedDiff)
    ensures Plus(a, EMPTY) == a && Plus(EMPTY, a) == a
  {
    assert a.hunks + [] == a.hunks && [] + a.hunks == a.hunks;
    assert a.files + [] == a.files && [] + a.files == a.files;
  }

  // ---------- One hunk ----------

  function Extended(h: Hunk, body: seq<BodyLine>): Hunk {
    h.(content := h.content + Unlines(ShownLines(body)), added := h.added + Insertions(body),
       removed := h.removed + Deletions(body))
  }

  /** What the parser makes of the mark: a body line in any case, and its text without it. */
  lemma MarkIsRead(b: BodyLine)
    requires b.Good()
    ensures Classify(b.Shown()).Body?
    ensures Marked(b.Shown(), '+') == if b.Insertion? then [b.text] else []
    ensures Marked(b.Shown(), '-') == if b.Deletion? then [b.text] else []
  {
    hide Classify;
    if !b.Remark? {
      MarkedLinesAreBody(b.Shown());
    }
  }

  lemma Joined<T>(a: seq<T>, b: seq<T>, c: seq<T>)
    ensures a + b + c == a + (b + c)
  {
  }

  lemma FirstShown(body: seq<BodyLine>)
    requires body != []
    ensures Unlines(ShownLines(body)) == body[0].Shown() + "\n" + Unlines(ShownLines(body[1..]))
  {
    hide BodyLine.Shown;
    assert ShownLines(body)[1..] == ShownLines(body[1..]);
  }

  lemma ExtendedOneMore(h: Hunk, body: seq<BodyLine>)
    requires body != [] && body[0].Good()
    ensures Extended(AddLine(h, body[0].Shown()), body[1..]) == Extended(h, body)
  {
    hide BodyLine.Good, BodyLine.Shown, Marked, Unlines, ShownLines;
    MarkIsRead(body[0]);
    FirstShown(body);
    var line, more := body[0].Shown(), body[1..];
    Joined(h.content, line, "\n");
    Joined(h.content, line + "\n", Unlines(ShownLines(more)));
    Joined(h.added, Marked(line, '+'), Insertions(more));
    Joined(h.removed, Marked(line, '-'), Deletions(more));
  }

  lemma {:induction false} BodyFolds(st: State, body: seq<BodyLine>)
    requires st.hunk.Some? && GoodBody(body)
    ensures Fold(st, ShownLines(body)) == Ok(State(
      st.parsed.(additions := st.parsed.additions + |Insertions(body)|,
                 deletions := st.parsed.deletions + |Deletions(body)|),
      st.file, Some(Extended(st.hunk.value, body))))
    decreases |body|
  {
    hide Classify, Marked, AddLine, BodyLine.Shown, BodyLine.Good;
    var h := st.hunk.value;
    if body == [] {
      assert h.content + "" == h.content && h.added + [] == h.added && h.removed + [] == h.removed;
    } else {
      MarkIsRead(body[0]);
      var line := body[0].Shown();
      var next := Step(st, line).value;
      FoldCons(st, line, ShownLines(body[1..]));
      BodyFolds(next, body[1..]);
      ExtendedOneMore(h, body);
    }
  }

  lemma HunkOpens(path: string, e: Edit)
    requires GoodEdit(e)
    ensures var line := EditLines(e)[0];
      && Classify(line) == HunkHeader(Spans(SpanOf(e.oldStart, e.oldLines), SpanOf(e.newStart, e.newLines)))
      && OpenHunk(path, line, Classify(line).spans)
        == Some(Hunk(path, e.oldStart, OrOne(e.oldLines), e.newStart, OrOne(e.newLines), line + "\n", [], []))
  {
    hide HunkSpans, Decimal, Value;
    var line := HunkLine(e.oldStart, e.oldLines, e.newStart, e.newLines, e.suffix);
    HunkLineReadsBack(e.oldStart, e.oldLines, e.newStart, e.newLines, e.suffix);
    HunkLineIsNoHeader(e.oldStart, e.oldLines, e.newStart, e.newLines, e.suffix);
    ValueOfDecimal(e.oldStart);
    ValueOfDecimal(e.newStart);
    ValueOfDecimal(OrOne(e.oldLines));
    ValueOfDecimal(OrOne(e.newLines));
  }

  lemma HunkLineIsNoHeader(a: nat, b: Option<nat>, c: nat, d: Option<nat>, suffix: string)
    ensures var line := HunkLine(a, b, c, d, suffix);
      && HeaderPath(line).None? && !StartsWith(line, "new file mode")
      && !StartsWith(line, "deleted file mode") && !StartsWith(line, "rename from ")
  {
    var line := HunkLine(a, b, c, d, suffix);
    StartsWithAt(a, b, c, d, suffix);
    hide HunkLine, StartsWith;
    Differs(line, GIT, 0);
    Differs(line, "new file mode", 0);
    Differs(line, "deleted file mode", 0);
    Differs(line, "rename from ", 0);
  }

  lemma StartsWithAt(a: nat, b: Option<nat>, c: nat, d: Option<nat>, suffix: string)
    ensures var line := HunkLine(a, b, c, d, suffix); line != "" && line[0] == '@'
  {
    hide SpanText;
  }

  lemma EditFolds(st: State, e: Edit)
    requires GoodEdit(e)
    ensures var h := HunkOf(st.Path(), e);
      Fold(st, EditLines(e)) == Ok(State(
        st.CloseHunk().parsed.(additions := st.parsed.additions + |h.added|,
                               deletions := st.parsed.deletions + |h.removed|),
        st.file, Some(h)))
  {
    hide Classify, OpenHunk, Insertions, Deletions, HunkLine, Unlines, Fold;
    HunkOpens(st.Path(), e);
    var line := EditLines(e)[0];
    var next := Step(st, line).value;
    FoldCons(st, line, ShownLines(e.body));
    BodyFolds(next, e.body);
    HunkIsExtended(next.hunk.value, e);
  }

  lemma HunkIsExtended(h: Hunk, e: Edit)
    requires h == Hunk(h.filePath, e.oldStart, OrOne(e.oldLines), e.newStart, OrOne(e.newLines),
                       EditLines(e)[0] + "\n", [], [])
    ensures Extended(h, e.body) == HunkOf(h.filePath, e)
  {
    hide HunkLine, Insertions, Deletions;
    assert EditLines(e)[1..] == ShownLines(e.body);
    assert [] + Insertions(e.body) == Insertions(e.body) && [] + Deletions(e.body) == Deletions(e.body);
  }

  lemma {:induction false} EditsFold(st: State, es: seq<Edit>)
    requires GoodEdits(es)
    ensures Fold(st, EditsLines(es)).Ok?
    ensures var end := Fold(st, EditsLines(es)).value;
      end.file == st.file && end.CloseHunk().parsed == Plus(st.CloseHunk().parsed, OfEdits(st.Path(), es))
    decreases |es|
  {
    hide EditLines, GoodEdit, HunkOf;
    if es == [] {
      PlusEmpty(st.CloseHunk().parsed);
    } else {
      EditFolds(st, es[0]);
      var mid := Fold(st, EditLines(es[0])).value;
      FoldAppend(st, EditLines(es[0]), mid, EditsLines(es[1..]));
      EditsFold(mid, es[1..]);
      var h := HunkOf(st.Path(), es[0]);
      var one := ParsedDiff([h], [], |h.added|, |h.removed|);
      assert mid.CloseHunk().parsed == Plus(st.CloseHunk().parsed, one) by {
        assert st.CloseHunk().parsed.files + [] == st.CloseHunk().parsed.files;
      }
      PlusAssociative(st.CloseHunk().parsed, one, OfEdits(st.Path(), es[1..]));
    }
  }

  // ---------- One file ----------

  lemma ModeReads(c: Change)
    requires GoodChange(c) && c.kind != Modified
    ensures Classify(ModeLines(c)[0]) == Mode(c.kind)
  {
    hide StartsWith, HunkSpans, HeaderPath;
    match c.kind
    case Added =>
      var line := "new file mode " + c.mode;
      Begins(line, "new file mode", " " + c.mode);
      assert line[0] == 'n';
      Differs(line, GIT, 0);
      NoGit(line);
    case Deleted =>
      var line := "deleted file mode " + c.mode;
      Begins(line, "deleted file mode", " " + c.mode);
      assert line[0] == 'd' && line[1] == 'e';
      Differs(line, GIT, 1);
      NoGit(line);
      Differs(line, "new file mode", 0);
    case Renamed =>
      var line := "rename from " + c.oldPath;
      Begins(line, "rename from ", c.oldPath);
      assert line[0] == 'r';
      Differs(line, GIT, 0);
      NoGit(line);
      Differs(line, "new file mode", 0);
      Differs(line, "deleted file mode", 0);
  }

  lemma NoGit(line: string)
    requires !StartsWith(line, GIT)
    ensures HeaderPath(line).None?
  {
  }

  lemma Begins(line: string, p: string, rest: string)
    requires line == p + rest
    ensures StartsWith(line, p)
  {
  }

  lemma {:induction false} NotesFold(st: State, notes: seq<string>)
    requires st.hunk.None? && BodyLines(notes)
    ensures Fold(st, notes) == Ok(st)
    decreases |notes|
  {
    hide Classify;
    if notes != [] {
      NotesFold(st, notes[1..]);
    }
  }

  lemma ModeFolds(d: ParsedDiff, c: Change)
    requires GoodChange(c)
    ensures Fold(State(d, Some(FileInfo(c.newPath, Modified)), None), ModeLines(c))
      == Ok(State(d, Some(FileInfo(c.newPath, c.kind)), None))
  {
    hide Classify, GoodChange;
    var st := State(d, Some(FileInfo(c.newPath, Modified)), None);
    if c.kind != Modified {
      ModeReads(c);
      FoldCons(st, ModeLines(c)[0], []);
      assert ModeLines(c) == [ModeLines(c)[0]] + [];
    }
  }

  lemma ChangeFolds(st: State, c: Change)
    requires GoodChange(c)
    ensures Fold(st, ChangeLines(c)).Ok?
    ensures Fold(st, ChangeLines(c)).value.Close() == Plus(st.Close(), OfChange(c))
  {
    hide Classify, HeaderLine, ModeLines, EditsLines, OfEdits, Fold, GoodEdits, BodyLines, NoBreak, HoldsSeparator;
    HeaderReadsBackIff(c.oldPath, c.newPath);
    var first := HeaderLine(c.oldPath, c.newPath);
    assert Classify(first) == Header(c.newPath) by {
      ClassifyHeader(first);
    }
    var d := st.Close();
    var opening := State(d, Some(FileInfo(c.newPath, Modified)), None);
    var marked := State(d, Some(FileInfo(c.newPath, c.kind)), None);
    FoldCons(st, first, ModeLines(c) + (c.notes + EditsLines(c.edits)));
    ModeFolds(d, c);
    FoldAppend(opening, ModeLines(c), marked, c.notes + EditsLines(c.edits));
    NotesFold(marked, c.notes);
    FoldAppend(marked, c.notes, marked, EditsLines(c.edits));
    EditsFold(marked, c.edits);
    PlusAssociative(d, OfEdits(c.newPath, c.edits), ParsedDiff([], [FileInfo(c.newPath, c.kind)], 0, 0));
    CloseIsPlus(Fold(marked, EditsLines(c.edits)).value);
  }

  lemma ClassifyHeader(line: string)
    requires HeaderPath(line).Some?
    ensures Classify(line) == Header(HeaderPath(line).value)
  {
  }

  lemma CloseIsPlus(st: State)
    requires st.file.Some?
    ensures st.Close() == Plus(st.CloseHunk().parsed, ParsedDiff([], [st.file.value], 0, 0))
  {
    assert st.CloseHunk().parsed.hunks + [] == st.CloseHunk().parsed.hunks;
  }

  // ---------- The whole diff ----------

  lemma {:induction false} DiffFolds(st: State, cs: seq<Change>)
    requires GoodDiff(cs)
    ensures Fold(st, DiffLinesOf(cs)).Ok?
    ensures Fold(st, DiffLinesOf(cs)).value.Close() == Plus(st.Close(), OfDiff(cs))
    decreases |cs|
  {
    hide ChangeLines, OfChange, GoodChange, State.Close;
    if cs == [] {
      PlusEmpty(st.Close());
    } else {
      ChangeFolds(st, cs[0]);
      var mid := Fold(st, ChangeLines(cs[0])).value;
      FoldAppend(st, ChangeLines(cs[0]), mid, DiffLinesOf(cs[1..]));
      DiffFolds(mid, cs[1..]);
      PlusAssociative(st.Close(), OfChange(cs[0]), OfDiff(cs[1..]));
    }
  }

  lemma SpanTextSingle(n: nat, k: Option<nat>)
    ensures '\n' !in SpanText(n, k)
  {
    assert IsDigits(Decimal(n)) && (k.Some? ==> IsDigits(Decimal(k.value)));
  }

  lemma {:induction false} ShownSingle(body: seq<BodyLine>)
    requires GoodBody(body)
    ensures SingleLines(ShownLines(body))
  {
    hide Classify;
    if body != [] {
      ShownSingle(body[1..]);
    }
  }

  lemma EditSingle(e: Edit)
    requires GoodEdit(e)
    ensures SingleLines(EditLines(e))
  {
    hide SpanText, Classify;
    SpanTextSingle(e.oldStart, e.oldLines);
    SpanTextSingle(e.newStart, e.newLines);
    ShownSingle(e.body);
    assert '\n' !in EditLines(e)[0];
  }

  lemma {:induction false} EditsSingle(es: seq<Edit>)
    requires GoodEdits(es)
    ensures SingleLines(EditsLines(es))
    decreases |es|
  {
    hide GoodEdit, EditLines;
    if es != [] {
      EditSingle(es[0]);
      EditsSingle(es[1..]);
      SingleAppend(EditLines(es[0]), EditsLines(es[1..]));
    }
  }

  lemma ChangeSingle(c: Change)
    requires GoodChange(c)
    ensures SingleLines(ChangeLines(c))
  {
    hide GoodEdits, EditsLines, Classify, HoldsSeparator;
    EditsSingle(c.edits);
    assert '\n' !in HeaderLine(c.oldPath, c.newPath);
    assert SingleLines(ModeLines(c));
    SingleAppend(c.notes, EditsLines(c.edits));
    SingleAppend(ModeLines(c), c.notes + EditsLines(c.edits));
  }

  lemma {:induction false} DiffSingle(cs: seq<Change>)
    requires GoodDiff(cs)
    ensures SingleLines(DiffLinesOf(cs))
    decreases |cs|
  {
    hide GoodChange, ChangeLines;
    if cs != [] {
      ChangeSingle(cs[0]);
      DiffSingle(cs[1..]);
      SingleAppend(ChangeLines(cs[0]), DiffLinesOf(cs[1..]));
    }
  }

  /** Parsing a printed diff gives back its files, its change types and its hunks, with an
      omitted count read as one, and the totals of its added and removed lines. */
  lemma RoundTrip(cs: seq<Change>)
    requires GoodDiff(cs)
    ensures Parse(Print(cs)) == Ok(OfDiff(cs))
  {
    hide Fold, DiffLinesOf, OfDiff, Lines, Unlines;
    DiffSingle(cs);
    LinesOfUnlines(DiffLinesOf(cs));
    DiffFolds(Start(), cs);
    assert Start().Close() == EMPTY;
    PlusEmpty(OfDiff(cs));
  }
}
