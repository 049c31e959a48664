/** The line forms that parseDiff of mono/engine/src/engine.cpp looks for, as functions in
    place of its regular expressions, and the texts they read back. */
module DiffLines {
  import opened Text
  import opened Wrappers

  // ---------- Lines ----------

  /** std::getline until the stream ends: a text that ends in a line break has no line after it. */
  function Lines(text: string): seq<string>
    decreases |text|
  {
    if text == "" then [] else [FirstLine(text)] + Lines(OtherLines(text))
  }

  function FirstLine(text: string): string {
    match FirstIndex(text, "\n") case None => text case Some(i) => text[..i]
  }

  function OtherLines(text: string): string {
    match FirstIndex(text, "\n") case None => "" case Some(i) => text[i + 1..]
  }

  function Unlines(lines: seq<string>): string {
    if lines == [] then "" else lines[0] + "\n" + Unlines(lines[1..])
  }

  lemma LinesFirst(line: string, rest: string)
    requires '\n' !in line
    ensures Lines(line + "\n" + rest) == [line] + Lines(rest)
  {
    FirstBreak(line, rest);
    var text := line + "\n" + rest;
    assert text[..|line|] == line && text[|line| + 1..] == rest;
  }

  lemma {:induction false} LinesOfUnlines(lines: seq<string>)
    requires SingleLines(lines)
    ensures Lines(Unlines(lines)) == lines
  {
    if lines != [] {
      LinesOfUnlines(lines[1..]);
      LinesFirst(lines[0], Unlines(lines[1..]));
    }
  }

  lemma {:induction false} LinesAreSingle(text: string)
    ensures SingleLines(Lines(text))
    decreases |text|
  {
    if text != "" {
      match FirstIndex(text, "\n")
      case None =>
        forall i | 0 <= i < |text| ensures text[i] != '\n' {
          assert !OccursAt(text, "\n", i);
        }
      case Some(n) =>
        forall i | 0 <= i < n ensures text[i] != '\n' {
          assert !OccursAt(text, "\n", i);
        }
        LinesAreSingle(text[n + 1..]);
    }
  }

  lemma {:induction false} UnlinesAppend(a: seq<string>, b: seq<string>)
    ensures Unlines(a + b) == Unlines(a) + Unlines(b)
    decreases |a|
  {
    if a == [] {
      assert a + b == b;
    } else {
      assert (a + b)[1..] == a[1..] + b;
      UnlinesAppend(a[1..], b);
    }
  }

  /** What the dot of the regular expressions does not match. */
  predicate NoBreak(s: string) {
    forall i | 0 <= i < |s| :: s[i] != '\n' && s[i] != '\r'
  }

  // ---------- File headers ----------

  const GIT := "diff --git a/"
  const SEPARATOR := " b/"

  /** A place where the second path may begin: something on both sides of " b/". */
  predicate Splits(line: string, i: nat) {
    |GIT| < i && i + |SEPARATOR| < |line| && OccursAt(line, SEPARATOR, i)
  }

  /** The last such place before `before`: the first group of the expression is greedy. */
  function LastSplit(line: string, before: nat): (r: Option<nat>)
    ensures r.Some? ==> r.value < before && Splits(line, r.value)
    ensures r.Some? ==> forall k: nat | r.value < k < before :: !Splits(line, k)
    ensures r.None? ==> forall k: nat | k < before :: !Splits(line, k)
  {
    if before == 0 then None
    else if Splits(line, before - 1) then Some(before - 1)
    else LastSplit(line, before - 1)
  }

  /** The second path of a file header. */
  function HeaderPath(line: string): (r: Option<string>)
    ensures r.Some? ==> r.value != "" && NoBreak(r.value)
  {
    if !StartsWith(line, GIT) || !NoBreak(line) then None
    else match LastSplit(line, |line|)
      case None => None
      case Some(i) => Some(line[i + |SEPARATOR|..])
  }

  function HeaderLine(oldPath: string, newPath: string): string {
    GIT + oldPath + SEPARATOR + newPath
  }

  /** A path that would be cut short: " b/" with something after it. */
  predicate HoldsSeparator(path: string) {
    exists i | 0 <= i < |path| - |SEPARATOR| :: OccursAt(path, SEPARATOR, i)
  }

  lemma HeaderSplits(oldPath: string, newPath: string, k: nat)
    requires newPath != ""
    requires |GIT + oldPath| <= k
    ensures Splits(HeaderLine(oldPath, newPath), k) <==>
      (k == |GIT + oldPath| && oldPath != "")
      || (k >= |GIT + oldPath| + |SEPARATOR| && k + |SEPARATOR| < |HeaderLine(oldPath, newPath)|
          && OccursAt(newPath, SEPARATOR, k - |GIT + oldPath| - |SEPARATOR|))
  {
    var line := HeaderLine(oldPath, newPath);
    var start := |GIT + oldPath|;
    var shift := start + |SEPARATOR|;
    assert line[start..shift] == SEPARATOR;
    if k > start && k + 3 <= |line| && k < shift {
      assert line[k..k + 3][0] == SEPARATOR[k - start];
    } else if k >= shift && k + 3 <= |line| {
      assert line[k..k + 3] == newPath[k - shift..k - shift + 3];
    }
  }

  /** The header names the second path, unless that path itself holds the separator.
      Nothing is asked of the first path but that it is there. */
  lemma HeaderReadsBackIff(oldPath: string, newPath: string)
    requires oldPath != "" && newPath != "" && NoBreak(oldPath) && NoBreak(newPath)
    ensures HeaderPath(HeaderLine(oldPath, newPath)) == Some(newPath) <==> !HoldsSeparator(newPath)
  {
    var line := HeaderLine(oldPath, newPath);
    var start := |GIT + oldPath|;
    var shift := start + |SEPARATOR|;
    assert line[..|GIT|] == GIT;
    assert NoBreak(line);
    HeaderSplits(oldPath, newPath, start);
    assert Splits(line, start);
    var i := LastSplit(line, |line|).value;
    assert start <= i;
    HeaderSplits(oldPath, newPath, i);
    if HoldsSeparator(newPath) {
      var j :| 0 <= j < |newPath| - |SEPARATOR| && OccursAt(newPath, SEPARATOR, j);
      HeaderSplits(oldPath, newPath, shift + j);
      assert Splits(line, shift + j);
      assert i > start;
    } else {
      assert i == start;
    }
    assert line[shift..] == newPath;
  }

  // ---------- Hunk headers ----------

  type Digits = s: string | IsDigits(s) witness ""

  /** One side of a hunk header: a start and, after a comma, a count. */
  datatype Span = Span(start: Digits, count: Option<Digits>)

  datatype SpanAnd = SpanAnd(span: Span, rest: string)

  /** (\d+)(?:,(\d+))? and what follows. */
  function ReadSpan(s: string): Option<SpanAnd> {
    var n := DigitCount(s);
    var rest := s[n..];
    if n == 0 then None
    else if rest != "" && rest[0] == ',' && DigitCount(rest[1..]) > 0 then
      var m := DigitCount(rest[1..]);
      Some(SpanAnd(Span(s[..n], Some(rest[1..][..m])), rest[1..][m..]))
    else Some(SpanAnd(Span(s[..n], None), rest))
  }

  datatype Spans = Spans(before: Span, after: Span)

  /** What follows a literal. */
  function After(s: string, literal: string): Option<string> {
    if StartsWith(s, literal) then Some(s[|literal|..]) else None
  }

  function HunkSpans(line: string): Option<Spans> {
    match After(line, "@@ -")
    case None => None
    case Some(s) =>
      match ReadSpan(s)
      case None => None
      case Some(first) =>
        match NewSpan(first.rest)
        case None => None
        case Some(second) => Some(Spans(first.span, second))
  }

  function NewSpan(s: string): Option<Span> {
    match After(s, " +")
    case None => None
    case Some(t) =>
      match ReadSpan(t)
      case None => None
      case Some(second) =>
        match After(second.rest, " @@")
        case None => None
        case Some(suffix) => if NoBreak(suffix) then Some(second.span) else None
  }

  function SpanText(start: nat, count: Option<nat>): string {
    Decimal(start) + match count case None => "" case Some(c) => "," + Decimal(c)
  }

  function SpanOf(start: nat, count: Option<nat>): Span {
    Span(Decimal(start), match count case None => None case Some(c) => Some(Decimal(c)))
  }

  lemma SpanReadsBack(start: nat, count: Option<nat>, rest: string)
    requires rest != "" && rest[0] == ' '
    ensures ReadSpan(SpanText(start, count) + rest) == Some(SpanAnd(SpanOf(start, count), rest))
  {
    hide ReadSpan, Decimal;
    match count
    case None =>
      PlainSpan(Decimal(start), rest);
      assert SpanText(start, count) == Decimal(start) + "" == Decimal(start);
    case Some(c) =>
      CountedSpan(Decimal(start), Decimal(c), rest);
      assert SpanText(start, count) + rest == Decimal(start) + ("," + (Decimal(c) + rest));
  }

  lemma PlainSpan(start: Digits, rest: string)
    requires start != "" && rest != "" && rest[0] == ' '
    ensures ReadSpan(start + rest) == Some(SpanAnd(Span(start, None), rest))
  {
    hide DigitCount;
    DigitsRead(start, rest);
  }

  lemma CountedSpan(start: Digits, count: Digits, rest: string)
    requires start != "" && count != "" && rest != "" && rest[0] == ' '
    ensures ReadSpan(start + ("," + (count + rest))) == Some(SpanAnd(Span(start, Some(count)), rest))
  {
    hide DigitCount;
    var after := count + rest;
    var s := start + ("," + after);
    DigitsRead(start, "," + after);
    assert s[..|start|] == start && s[|start|..] == "," + after;
    assert ("," + after)[1..] == after;
    DigitsRead(count, rest);
    assert after[|count|..] == rest && after[..|count|] == count;
  }

  function HunkLine(oldStart: nat, oldLines: Option<nat>, newStart: nat, newLines: Option<nat>,
      suffix: string): string
  {
    "@@ -" + SpanText(oldStart, oldLines) + " +" + SpanText(newStart, newLines) + " @@" + suffix
  }

  lemma HunkLineReadsBack(oldStart: nat, oldLines: Option<nat>, newStart: nat, newLines: Option<nat>,
      suffix: string)
    requires NoBreak(suffix)
    ensures HunkSpans(HunkLine(oldStart, oldLines, newStart, newLines, suffix))
      == Some(Spans(SpanOf(oldStart, oldLines), SpanOf(newStart, newLines)))
  {
    hide After, ReadSpan, SpanText;
    var last := " @@" + suffix;
    var middle := " +" + (SpanText(newStart, newLines) + last);
    assert HunkLine(oldStart, oldLines, newStart, newLines, suffix) == "@@ -" + (SpanText(oldStart, oldLines) + middle);
    Follows("@@ -", SpanText(oldStart, oldLines) + middle);
    SpanReadsBack(oldStart, oldLines, middle);
    Follows(" +", SpanText(newStart, newLines) + last);
    SpanReadsBack(newStart, newLines, last);
    Follows(" @@", suffix);
  }

  lemma Follows(literal: string, rest: string)
    ensures After(literal + rest, literal) == Some(rest)
  {
  }
}
