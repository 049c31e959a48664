/** The line splitter at the end of _parse_steps_text in mono/swarm/agents/orchestrator.py:
    a numbered or bulleted list becomes one step description per item. */
module Steps {
  import opened Text
  import opened Wrappers

  const LIMIT := 1000

  // ---------- Lines ----------

  function SplitLines(text: string): (lines: seq<string>)
    ensures lines != []
    decreases |text|
  {
    match FirstIndex(text, "\n")
    case None => [text]
    case Some(i) => [text[..i]] + SplitLines(text[i + 1..])
  }

  function JoinWith(separator: string, lines: seq<string>): string {
    if lines == [] then ""
    else if |lines| == 1 then lines[0]
    else lines[0] + separator + JoinWith(separator, lines[1..])
  }

  lemma {:induction false} SplitOfJoin(lines: seq<string>)
    requires lines != [] && SingleLines(lines)
    ensures SplitLines(JoinWith("\n", lines)) == lines
  {
    var text := JoinWith("\n", lines);
    if |lines| == 1 {
      NoBreakNoIndex(text);
    } else {
      var rest := JoinWith("\n", lines[1..]);
      FirstBreak(lines[0], rest);
      assert text[..|lines[0]|] == lines[0] && text[|lines[0]| + 1..] == rest;
      SplitOfJoin(lines[1..]);
    }
  }

  lemma NoBreakNoIndex(line: string)
    requires '\n' !in line
    ensures FirstIndex(line, "\n") == None
  {
    forall k: nat ensures !OccursAt(line, "\n", k) {
      assert k < |line| ==> line[k..k + 1][0] == line[k];
    }
  }

  // ---------- Items ----------

  function SpaceCount(s: string): (n: nat)
    ensures n <= |s| && (n < |s| ==> !IsSpace(s[n]))
    ensures forall i | 0 <= i < n :: IsSpace(s[i])
  {
    if s == "" || !IsSpace(s[0]) then 0 else 1 + SpaceCount(s[1..])
  }

  /** The number with its dot or bracket, or the bullet sign. */
  function MarkLength(s: string): (n: nat)
    ensures n <= |s|
  {
    var d := DigitCount(s);
    if 0 < d < |s| && s[d] in ".)" then d + 1
    else if s != "" && s[0] in "-*" then 1
    else 0
  }

  /** The length of the bullet prefix with the blanks after it; zero if the line has none. */
  function PrefixLength(s: string): (n: nat)
    ensures n <= |s|
  {
    var m := MarkLength(s);
    if m == 0 || SpaceCount(s[m..]) == 0 then 0 else m + SpaceCount(s[m..])
  }

  predicate IsItem(line: string) {
    PrefixLength(Strip(line)) > 0
  }

  function ItemText(line: string): string {
    Strip(line)[PrefixLength(Strip(line))..]
  }

  function Cut(s: string): string {
    if |s| <= LIMIT then s else s[..LIMIT]
  }

  /** The step of an item that spans these lines. */
  function StepOf(current: seq<string>): seq<string> {
    if current == [] || Strip(JoinWith(" ", current)) == "" then [] else [Cut(Strip(JoinWith(" ", current)))]
  }

  /** The steps of the lines, with the lines of the open item before them. */
  function StepsFrom(current: seq<string>, lines: seq<string>): seq<string>
    decreases |lines|
  {
    if lines == [] then StepOf(current)
    else if IsItem(lines[0]) then StepOf(current) + StepsFrom([ItemText(lines[0])], lines[1..])
    else if Strip(lines[0]) == "" then StepOf(current) + StepsFrom([], lines[1..])
    else if current == [] then StepsFrom([], lines[1..])
    else StepsFrom(current + [Strip(lines[0])], lines[1..])
  }

  method ParseStepsText(text: string) returns (steps: seq<string>)
    ensures steps == StepsFrom([], SplitLines(text))
    ensures |steps| == ItemCount(SplitLines(text))
    ensures forall i | 0 <= i < |steps| :: 1 <= |steps[i]| <= LIMIT
  {
    hide *;
    var lines := SplitLines(text);
    var current: seq<string> := [];
    steps := [];
    for k := 0 to |lines|
      invariant StepsFrom([], lines) == steps + StepsFrom(current, lines[k..])
    {
      var line := lines[k];
      var stripped := Strip(line);
      var item := IsItem(line);
      assert lines[k..] == [line] + lines[k + 1..];
      NextLine(steps, current, line, lines[k + 1..]);
      if item {
        if current != [] {
          steps := steps + StepOf(current);
        }
        current := [ItemText(line)];
      } else if stripped != "" && current != [] {
        current := current + [stripped];
      } else if stripped == "" && current != [] {
        steps := steps + StepOf(current);
        current := [];
      }
    }
    LastLine(steps, current);
    assert lines[|lines|..] == [];
    if current != [] {
      steps := steps + StepOf(current);
    }
    OneStepEach(lines);
  }

  lemma LastLine(steps: seq<string>, current: seq<string>)
    ensures steps + StepsFrom(current, []) == if current == [] then steps else steps + StepOf(current)
  {
  }

  /** One turn of the loop: `steps` are out already. */
  lemma NextLine(steps: seq<string>, current: seq<string>, line: string, rest: seq<string>)
    ensures steps + StepsFrom(current, [line] + rest) ==
      if IsItem(line) then
        (if current == [] then steps else steps + StepOf(current)) + StepsFrom([ItemText(line)], rest)
      else if Strip(line) == "" then
        (if current == [] then steps else steps + StepOf(current)) + StepsFrom([], rest)
      else if current == [] then steps + StepsFrom([], rest)
      else steps + StepsFrom(current + [Strip(line)], rest)
  {
    hide Strip, IsItem, ItemText, StepOf;
    assert ([line] + rest)[1..] == rest;
    NoStep();
    if IsItem(line) {
      assert steps + (StepOf(current) + StepsFrom([ItemText(line)], rest))
        == steps + StepOf(current) + StepsFrom([ItemText(line)], rest);
      assert steps + [] == steps;
    } else if Strip(line) == "" {
      assert steps + (StepOf(current) + StepsFrom([], rest)) == steps + StepOf(current) + StepsFrom([], rest);
      assert steps + [] == steps;
    }
  }

  lemma NoStep()
    ensures StepOf([]) == []
  {
  }

  // ---------- One step per item ----------

  function ItemCount(lines: seq<string>): nat {
    if lines == [] then 0 else (if IsItem(lines[0]) then 1 else 0) + ItemCount(lines[1..])
  }

  lemma {:induction false} StripRightKeepsText(s: string)
    requires s != "" && !IsSpace(s[0])
    ensures StripRight(s) != ""
  {
    if IsSpace(s[|s| - 1]) {
      StripRightKeepsText(s[..|s| - 1]);
    }
  }

  predicate Begun(current: seq<string>) {
    current != [] ==> current[0] != "" && !IsSpace(current[0][0])
  }

  /** An item never comes out empty: its line was stripped, so text follows the prefix. */
  lemma ItemHasText(line: string)
    requires IsItem(line)
    ensures Begun([ItemText(line)])
  {
    var s := Strip(line);
    var m := MarkLength(s);
    var n := PrefixLength(s);
    assert IsSpace(s[m..][n - m - 1]) && s[m..][n - m - 1] == s[n - 1];
    assert n < |s|;
    assert s[m..][n - m] == s[n];
  }

  lemma BegunGivesStep(current: seq<string>)
    requires current != [] && Begun(current)
    ensures |StepOf(current)| == 1 && 1 <= |StepOf(current)[0]| <= LIMIT
  {
    var joined := JoinWith(" ", current);
    assert joined != "" && joined[0] == current[0][0];
    assert StripLeft(joined) == joined;
    StripRightKeepsText(joined);
  }

  /** Exactly one step for every bullet line, each of 1 to 1000 characters. */
  lemma {:induction false} OneStepPerItem(current: seq<string>, lines: seq<string>)
    requires Begun(current)
    ensures |StepsFrom(current, lines)| == (if current == [] then 0 else 1) + ItemCount(lines)
    ensures var steps := StepsFrom(current, lines);
      forall i | 0 <= i < |steps| :: 1 <= |steps[i]| <= LIMIT
    decreases |lines|
  {
    hide IsItem, ItemText, StepOf;
    NoStep();
    if current != [] {
      BegunGivesStep(current);
    }
    if lines != [] {
      if IsItem(lines[0]) {
        ItemHasText(lines[0]);
        OneStepPerItem([ItemText(lines[0])], lines[1..]);
      } else if Strip(lines[0]) == "" || current == [] {
        OneStepPerItem([], lines[1..]);
      } else {
        OneStepPerItem(current + [Strip(lines[0])], lines[1..]);
      }
    }
  }

  lemma OneStepEach(lines: seq<string>)
    ensures |StepsFrom([], lines)| == ItemCount(lines)
    ensures var steps := StepsFrom([], lines);
      forall i | 0 <= i < |steps| :: 1 <= |steps[i]| <= LIMIT
  {
    OneStepPerItem([], lines);
  }

  // ---------- Which lines are items ----------

  /** A number with a dot or a bracket, or a bullet sign. */
  predicate IsMark(m: string) {
    m == "-" || m == "*" || (|m| >= 2 && IsDigits(m[..|m| - 1]) && m[|m| - 1] in ".)")
  }

  predicate Reads(s: string, m: string, spaces: string, rest: string) {
    s == m + spaces + rest && IsMark(m) && spaces != "" && AllSpace(spaces)
  }

  /** The items are the lines that begin, but for spaces, with a mark and a space. */
  lemma ItemIff(line: string)
    ensures IsItem(line) <==> exists m, spaces, rest :: Reads(Strip(line), m, spaces, rest)
  {
    hide Strip, MarkLength, SpaceCount, IsMark, AllSpace;
    var s := Strip(line);
    if IsItem(line) {
      var n := MarkLength(s);
      var k := SpaceCount(s[n..]);
      MarkIsMark(s);
      SpacesAreSpace(s[n..]);
      assert s == s[..n] + s[n..][..k] + s[n + k..];
      assert Reads(s, s[..n], s[n..][..k], s[n + k..]);
    }
    if m, spaces, rest :| Reads(s, m, spaces, rest) {
      MarkIsFound(m, spaces, rest);
    }
  }

  lemma SpacesAreSpace(s: string)
    ensures AllSpace(s[..SpaceCount(s)])
  {
    hide IsSpace;
  }

  lemma MarkIsMark(s: string)
    ensures MarkLength(s) > 0 ==> IsMark(s[..MarkLength(s)])
  {
    var n := MarkLength(s);
    if DigitCount(s) > 0 && n > 0 {
      assert s[..n][..n - 1] == s[..DigitCount(s)];
    }
  }

  lemma SpaceIsCounted(spaces: string, rest: string)
    requires spaces != "" && AllSpace(spaces)
    ensures SpaceCount(spaces + rest) > 0 && !IsDigit(spaces[0])
  {
  }

  lemma MarkIsFound(m: string, spaces: string, rest: string)
    requires Reads(m + spaces + rest, m, spaces, rest)
    ensures m != "" && MarkLength(m + spaces + rest) == |m| && SpaceCount((m + spaces + rest)[|m|..]) > 0
  {
    hide IsSpace, DigitCount, AllSpace, SpaceCount, MarkLength;
    SpaceIsCounted(spaces, rest);
    var s := m + spaces + rest;
    assert s == m + (spaces + rest) && s[|m|..] == spaces + rest;
    if m == "-" || m == "*" {
      BulletIsFound(s);
    } else {
      var d, n := m[..|m| - 1], |m| - 1;
      assert s == d + ([m[n]] + (spaces + rest));
      NumberIsFound(d, m[n], spaces + rest);
    }
  }

  lemma BulletIsFound(s: string)
    requires s != "" && s[0] in "-*"
    ensures MarkLength(s) == 1
  {
  }

  lemma NumberIsFound(d: string, sign: char, rest: string)
    requires d != "" && IsDigits(d) && sign in ".)"
    ensures MarkLength(d + ([sign] + rest)) == |d| + 1
  {
    hide DigitCount;
    DigitsRead(d, [sign] + rest);
  }

  // ---------- A written list reads back ----------

  datatype Mark = Dot(n: nat) | Bracket(n: nat) | Dash | Star {
    function Shown(): string {
      match this
      case Dot(n) => Decimal(n) + "."
      case Bracket(n) => Decimal(n) + ")"
      case Dash => "-"
      case Star => "*"
    }
  }

  /** An item as written: a marked line, lines that continue it, and blank lines after it. */
  datatype Item = Item(mark: Mark, first: string, more: seq<string>, gap: seq<string>) {
    predicate Good() {
      && first != "" && Trimmed(first) && '\n' !in first && Blank(gap)
      && forall i | 0 <= i < |more| :: Continues(more[i])
    }

    function Lines(): seq<string> {
      [Marked(mark, first)] + (more + gap)
    }

    /** The step it stands for: its lines without the spaces around them, joined by single
        spaces, at most a thousand characters. */
    function Step(): string {
      var text := Described(first, more);
      if |text| <= 1000 then text else text[..1000]
    }
  }

  predicate Continues(line: string) {
    !IsItem(line) && Strip(line) != "" && '\n' !in line
  }

  predicate Blank(lines: seq<string>) {
    forall i | 0 <= i < |lines| :: Strip(lines[i]) == "" && '\n' !in lines[i]
  }

  function Marked(mark: Mark, first: string): string {
    mark.Shown() + " " + first
  }

  function Described(first: string, more: seq<string>): string {
    if more == [] then first else Described(first, more[..|more| - 1]) + " " + Strip(more[|more| - 1])
  }

  function ListLines(items: seq<Item>): seq<string> {
    if items == [] then [] else items[0].Lines() + ListLines(items[1..])
  }

  function StepsOf(items: seq<Item>): seq<string> {
    if items == [] then [] else [items[0].Step()] + StepsOf(items[1..])
  }

  predicate GoodList(items: seq<Item>) {
    forall i | 0 <= i < |items| :: items[i].Good()
  }

  lemma NumberIsRead(d: string, sign: string, rest: string)
    requires d != "" && IsDigits(d) && (sign == "." || sign == ")")
    ensures var line := d + sign + " " + rest;
      MarkLength(line) == |d| + 1 && line[|d| + 1..] == " " + rest && line[0] == d[0] && IsDigit(d[0])
  {
    hide DigitCount;
    var line := d + sign + " " + rest;
    assert line == d + (sign + " " + rest);
    DigitsRead(d, sign + " " + rest);
    assert line[|d|] == sign[0];
  }

  lemma MarkIsRead(mark: Mark, rest: string)
    ensures var line := mark.Shown() + " " + rest;
      MarkLength(line) == |mark.Shown()| && line[|mark.Shown()|..] == " " + rest
      && line != "" && !IsSpace(line[0]) && '\n' !in mark.Shown()
  {
    hide Decimal, DigitCount, MarkLength;
    if mark.Dot? || mark.Bracket? {
      var d := Decimal(mark.n);
      NumberIsRead(d, if mark.Dot? then "." else ")", rest);
      assert forall i | 0 <= i < |d| :: IsDigit(d[i]);
    } else {
      BulletIsRead(mark, rest);
    }
  }

  lemma BulletIsRead(mark: Mark, rest: string)
    requires mark.Dash? || mark.Star?
    ensures var line := mark.Shown() + " " + rest;
      MarkLength(line) == 1 && line[1..] == " " + rest && line[0] in "-*"
  {
    var line := mark.Shown() + " " + rest;
    assert !IsDigit(line[0]);
  }

  lemma MarkedIsItem(mark: Mark, first: string)
    requires first != "" && Trimmed(first) && '\n' !in first
    ensures IsItem(Marked(mark, first)) && ItemText(Marked(mark, first)) == first && '\n' !in Marked(mark, first)
  {
    hide IsSpace, Mark.Shown, MarkLength, IsItem, ItemText, SpaceCount, Strip;
    var line := Marked(mark, first);
    MarkIsRead(mark, first);
    SpacesRead(first);
    assert PrefixLength(line) == |mark.Shown()| + 1;
    assert line[|mark.Shown()| + 1..] == first;
    assert line[|line| - 1] == first[|first| - 1];
    StripFixed(line);
    ItemByPrefix(line);
  }

  lemma ItemByPrefix(line: string)
    requires Strip(line) == line && PrefixLength(line) > 0
    ensures IsItem(line) && ItemText(line) == line[PrefixLength(line)..]
  {
    hide PrefixLength, Strip;
  }

  lemma SpacesRead(step: string)
    requires step != "" && !IsSpace(step[0])
    ensures SpaceCount(" " + step) == 1
  {
    assert (" " + step)[1..] == step;
  }

  /** The lines of an open item. */
  function Opened(first: string, more: seq<string>): seq<string> {
    if more == [] then [first] else Opened(first, more[..|more| - 1]) + [Strip(more[|more| - 1])]
  }

  lemma {:induction false} JoinOneMore(lines: seq<string>, last: string)
    requires lines != []
    ensures JoinWith(" ", lines + [last]) == JoinWith(" ", lines) + " " + last
  {
    var all := lines + [last];
    if |lines| == 1 {
      assert all[1..] == [last];
    } else {
      JoinOneMore(lines[1..], last);
      assert all[1..] == lines[1..] + [last];
    }
  }

  lemma {:induction false} OpenedJoins(first: string, more: seq<string>)
    ensures Opened(first, more) != [] && JoinWith(" ", Opened(first, more)) == Described(first, more)
  {
    hide Strip;
    if more != [] {
      OpenedJoins(first, more[..|more| - 1]);
      JoinOneMore(Opened(first, more[..|more| - 1]), Strip(more[|more| - 1]));
    }
  }

  lemma {:induction false} DescribedIsTrimmed(first: string, more: seq<string>)
    requires first != "" && Trimmed(first) && forall i | 0 <= i < |more| :: Continues(more[i])
    ensures var text := Described(first, more); text != "" && text[0] == first[0] && Trimmed(text)
  {
    hide IsItem, IsSpace;
    if more != [] {
      var last := |more| - 1;
      assert Continues(more[last]);
      DescribedIsTrimmed(first, more[..last]);
    }
  }

  lemma OpenedIsStep(item: Item)
    requires item.Good()
    ensures StepOf(Opened(item.first, item.more)) == [item.Step()]
  {
    hide Continues, Strip, JoinWith, Opened, Described;
    OpenedJoins(item.first, item.more);
    DescribedIsTrimmed(item.first, item.more);
    StripFixed(Described(item.first, item.more));
  }

  lemma {:induction false} BlanksClose(current: seq<string>, gap: seq<string>, lines: seq<string>)
    requires Blank(gap) && gap != []
    ensures StepsFrom(current, gap + lines) == StepOf(current) + StepsFrom([], lines)
    decreases |gap|
  {
    hide StepOf;
    var all := gap + lines;
    assert all[0] == gap[0] && all[1..] == gap[1..] + lines;
    assert !IsItem(gap[0]) by {
      assert Strip(gap[0]) == "";
    }
    if |gap| == 1 {
      assert gap[1..] + lines == lines;
    } else {
      BlanksClose([], gap[1..], lines);
      NoStep();
      assert [] + StepsFrom([], lines) == StepsFrom([], lines);
    }
  }

  lemma {:induction false} MoreIsTaken(first: string, before: seq<string>, more: seq<string>, lines: seq<string>)
    requires forall i | 0 <= i < |more| :: Continues(more[i])
    ensures StepsFrom(Opened(first, before), more + lines) == StepsFrom(Opened(first, before + more), lines)
    decreases |more|
  {
    hide IsItem, StepOf, Strip;
    if more == [] {
      assert more + lines == lines && before + more == before;
    } else {
      var all := more + lines;
      assert all[0] == more[0] && all[1..] == more[1..] + lines;
      assert (before + [more[0]])[..|before|] == before;
      OpenedIsNot(first, before);
      MoreIsTaken(first, before + [more[0]], more[1..], lines);
      assert before + [more[0]] + more[1..] == before + more;
    }
  }

  lemma OpenedIsNot(first: string, more: seq<string>)
    ensures Opened(first, more) != []
  {
  }

  lemma ItemReadsBack(current: seq<string>, item: Item, rest: seq<string>)
    requires item.Good()
    ensures StepsFrom(current, item.Lines() + rest) == StepOf(current) +
      if item.gap == [] then StepsFrom(Opened(item.first, item.more), rest) else [item.Step()] + StepsFrom([], rest)
  {
    hide StepOf, IsItem, ItemText, Marked, Item.Step, Continues, Blank;
    var line, others := Marked(item.mark, item.first), item.more + item.gap;
    MarkedIsItem(item.mark, item.first);
    assert (item.Lines() + rest)[0] == line && (item.Lines() + rest)[1..] == others + rest;
    assert others + rest == item.more + (item.gap + rest);
    assert Opened(item.first, []) == [item.first] && [] + item.more == item.more;
    MoreIsTaken(item.first, [], item.more, item.gap + rest);
    if item.gap == [] {
      assert item.gap + rest == rest;
    } else {
      BlanksClose(Opened(item.first, item.more), item.gap, rest);
      OpenedIsStep(item);
    }
  }

  lemma {:induction false} ListReadsBack(current: seq<string>, items: seq<Item>)
    requires GoodList(items)
    ensures StepsFrom(current, ListLines(items)) == StepOf(current) + StepsOf(items)
    decreases |items|
  {
    hide StepOf, Item.Lines, Item.Step, Item.Good;
    if items == [] {
      assert StepOf(current) + [] == StepOf(current);
    } else {
      var item := items[0];
      ItemReadsBack(current, item, ListLines(items[1..]));
      if item.gap == [] {
        ListReadsBack(Opened(item.first, item.more), items[1..]);
        OpenedIsStep(item);
      } else {
        ListReadsBack([], items[1..]);
        NoStep();
        assert [] + StepsOf(items[1..]) == StepsOf(items[1..]);
      }
    }
  }

  /** Lines before the first item are dropped. */
  lemma {:induction false} PreambleIsDropped(before: seq<string>, lines: seq<string>)
    requires ItemCount(before) == 0
    ensures StepsFrom([], before + lines) == StepsFrom([], lines)
    decreases |before|
  {
    hide IsItem;
    if before == [] {
      assert before + lines == lines;
    } else {
      assert (before + lines)[1..] == before[1..] + lines;
      PreambleIsDropped(before[1..], lines);
      NoStep();
      assert [] + StepsFrom([], lines) == StepsFrom([], lines);
    }
  }

  lemma {:induction false} ListIsLines(items: seq<Item>)
    requires GoodList(items)
    ensures SingleLines(ListLines(items))
    decreases |items|
  {
    hide Marked, IsItem, Strip;
    if items != [] {
      var item := items[0];
      MarkedIsItem(item.mark, item.first);
      SingleAppend(item.more, item.gap);
      SingleAppend([Marked(item.mark, item.first)], item.more + item.gap);
      ListIsLines(items[1..]);
      SingleAppend(item.Lines(), ListLines(items[1..]));
    }
  }

  lemma EmptyText()
    ensures StepsFrom([], SplitLines(JoinWith("\n", []))) == StepsFrom([], [])
  {
    hide StepOf;
    NoBreakNoIndex("");
    NoStep();
    assert [""][1..] == [] && Strip("") == "" && !IsItem("");
  }

  /** Written as a list, numbered or bulleted, with continuation lines, after any text without
      items and with blank lines anywhere, the steps come back exactly. */
  lemma RoundTrip(before: seq<string>, items: seq<Item>)
    requires GoodList(items) && ItemCount(before) == 0 && SingleLines(before)
    ensures StepsFrom([], SplitLines(JoinWith("\n", before + ListLines(items)))) == StepsOf(items)
  {
    hide GoodList, IsItem, SplitLines, JoinWith, StepsFrom, StepOf, SingleLines;
    var list := ListLines(items);
    var lines := before + list;
    ListIsLines(items);
    SingleAppend(before, list);
    NoStep();
    if lines == [] {
      EmptyText();
    } else {
      SplitOfJoin(lines);
    }
    PreambleIsDropped(before, list);
    ListReadsBack([], items);
    assert [] + StepsOf(items) == StepsOf(items);
  }
}
