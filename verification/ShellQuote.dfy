/** The shell quoting of mono/engine/src/engine.cpp and the git commands built with it.

    The partner of the quoter is a reader of commands: token recognition, backslash and
    single quotes of the Shell Command Language (IEEE Std 1003.1-2017, sections 2.2.1,
    2.2.2 and 2.3). It gives up on anything that would be expanded, so a command it reads
    means the same words to every shell. */
module ShellQuote {
  import opened Text
  import opened Wrappers

  // ---------- Reading a command ----------

  datatype Token = Word(text: string) | IoNumber(digits: string) | Operator(symbol: string)

  /** Where the reader is: outside any word, inside one, or inside single quotes. */
  datatype Mode = Between | Inside(text: string, quoted: bool) | Quote(text: string)

  function Pending(m: Mode): string {
    if m.Between? then "" else m.text
  }

  function Finished(m: Mode): seq<Token> {
    if m.Between? then [] else [Word(m.text)]
  }

  predicate StartsOperator(c: char) {
    c in "\n&|;<>()"
  }

  /** The longest operator that s begins with. */
  function OperatorLength(s: string): (n: nat)
    requires s != "" && StartsOperator(s[0])
    ensures 1 <= n <= |s|
  {
    if |s| >= 3 && s[..3] == "<<-" then 3
    else if |s| >= 2 && s[..2] in {"&&", "||", ";;", "<<", ">>", "<&", ">&", "<>", ">|"} then 2
    else 1
  }

  /** Characters that an unquoted word would have expanded, and the start of a comment. */
  predicate Expands(c: char, m: Mode) {
    c in "\"$`*?[~" || (c == '#' && m.Between?)
  }

  /** The tokens of s, or nothing when a quote is open or an expansion is met. */
  function Lex(s: string, m: Mode, done: seq<Token>): Option<seq<Token>>
    decreases |s|
  {
    if s == "" then (if m.Quote? then None else Some(done + Finished(m)))
    else if m.Quote? then
      Lex(s[1..], if s[0] == '\'' then Inside(m.text, true) else Quote(m.text + [s[0]]), done)
    else if s[0] == '\'' then Lex(s[1..], Quote(Pending(m)), done)
    else if s[0] == '\\' then
      if |s| == 1 then None
      else if s[1] == '\n' then Lex(s[2..], m, done)
      else Lex(s[2..], Inside(Pending(m) + [s[1]], true), done)
    else if s[0] == ' ' || s[0] == '\t' then Lex(s[1..], Between, done + Finished(m))
    else if StartsOperator(s[0]) then
      var n := OperatorLength(s);
      var number := m.Inside? && !m.quoted && m.text != "" && IsDigits(m.text) && s[0] in "<>";
      Lex(s[n..], Between, done + (if number then [IoNumber(m.text)] else Finished(m)) + [Operator(s[..n])])
    else if Expands(s[0], m) then None
    else Lex(s[1..], Inside(Pending(m) + [s[0]], m.Inside? && m.quoted), done)
  }

  function Read(command: string): Option<seq<Token>> {
    Lex(command, Between, [])
  }

  // One step of the reader each.

  lemma OpenStep(rest: string, m: Mode, done: seq<Token>)
    requires !m.Quote?
    ensures Lex("'" + rest, m, done) == Lex(rest, Quote(Pending(m)), done)
  {
    assert ("'" + rest)[1..] == rest;
  }

  lemma CloseStep(rest: string, text: string, done: seq<Token>)
    ensures Lex("'" + rest, Quote(text), done) == Lex(rest, Inside(text, true), done)
  {
    assert ("'" + rest)[1..] == rest;
  }

  lemma QuotedStep(c: char, rest: string, text: string, done: seq<Token>)
    requires c != '\''
    ensures Lex([c] + rest, Quote(text), done) == Lex(rest, Quote(text + [c]), done)
  {
    assert ([c] + rest)[1..] == rest;
  }

  lemma EscapeStep(c: char, rest: string, m: Mode, done: seq<Token>)
    requires c != '\n' && !m.Quote?
    ensures Lex(['\\', c] + rest, m, done) == Lex(rest, Inside(Pending(m) + [c], true), done)
  {
    assert (['\\', c] + rest)[2..] == rest;
  }

  lemma BlankStep(rest: string, m: Mode, done: seq<Token>)
    requires !m.Quote?
    ensures Lex(" " + rest, m, done) == Lex(rest, Between, done + Finished(m))
  {
    assert (" " + rest)[1..] == rest;
  }

  lemma EndStep(text: string, quoted: bool, done: seq<Token>)
    ensures Lex("", Inside(text, quoted), done) == Some(done + [Word(text)])
  {
  }

  lemma PlainStep(c: char, rest: string, m: Mode, done: seq<Token>)
    requires PlainChar(c) && !m.Quote?
    ensures Lex([c] + rest, m, done) == Lex(rest, Inside(Pending(m) + [c], m.Inside? && m.quoted), done)
  {
    assert ([c] + rest)[1..] == rest;
  }

  // ---------- The quoter ----------

  function Quoted(s: string): string {
    "'" + Body(s) + "'"
  }

  function Body(s: string): string {
    if s == "" then "" else (if s[0] == '\'' then "'\\''" else [s[0]]) + Body(s[1..])
  }

  lemma {:induction false} BodySnoc(s: string, c: char)
    ensures Body(s + [c]) == Body(s) + if c == '\'' then "'\\''" else [c]
  {
    if s == "" {
      assert (s + [c])[1..] == "";
    } else {
      assert (s + [c])[1..] == s[1..] + [c];
      BodySnoc(s[1..], c);
    }
  }

  /** shellEscape: whatever s is, and wherever the result stands, it adds exactly s to the
      word being read. */
  method ShellEscape(s: string) returns (escaped: string)
    ensures escaped == Quoted(s)
    ensures forall rest, m: Mode, done | !m.Quote? ::
      Lex(escaped + rest, m, done) == Lex(rest, Inside(Pending(m) + s, true), done)
  {
    escaped := "'";
    for i := 0 to |s|
      invariant escaped == "'" + Body(s[..i])
    {
      BodySnoc(s[..i], s[i]);
      assert s[..i + 1] == s[..i] + [s[i]];
      if s[i] == '\'' {
        escaped := escaped + "'\\''";
      } else {
        escaped := escaped + [s[i]];
      }
    }
    assert s[..|s|] == s;
    escaped := escaped + "'";
    forall rest, m: Mode, done | !m.Quote?
      ensures Lex(escaped + rest, m, done) == Lex(rest, Inside(Pending(m) + s, true), done)
    {
      QuotedReadsBack(s, rest, m, done);
    }
  }

  /** Inside quotes the body of s adds s. */
  lemma {:induction false} BodyReads(s: string, rest: string, text: string, done: seq<Token>)
    ensures Lex(Body(s) + rest, Quote(text), done) == Lex(rest, Quote(text + s), done)
  {
    hide Lex;
    if s == "" {
      assert Body(s) + rest == rest && text + s == text;
    } else {
      var after := Body(s[1..]) + rest;
      BodyReads(s[1..], rest, text + [s[0]], done);
      assert text + [s[0]] + s[1..] == text + s;
      if s[0] == '\'' {
        assert Body(s) + rest == "'\\''" + after;
        QuoteInside(after, text, done);
      } else {
        assert Body(s) + rest == [s[0]] + after;
        QuotedStep(s[0], after, text, done);
      }
    }
  }

  /** Close the quotes, an escaped quote, open them again. */
  lemma QuoteInside(after: string, text: string, done: seq<Token>)
    ensures Lex("'\\''" + after, Quote(text), done) == Lex(after, Quote(text + "'"), done)
  {
    hide Lex;
    var open := "'" + after;
    assert "'\\''" + after == "'" + (['\\', '\''] + open);
    CloseStep(['\\', '\''] + open, text, done);
    EscapeStep('\'', open, Inside(text, true), done);
    OpenStep(after, Inside(text + ['\''], true), done);
  }

  lemma QuotedReadsBack(s: string, rest: string, m: Mode, done: seq<Token>)
    requires !m.Quote?
    ensures Lex(Quoted(s) + rest, m, done) == Lex(rest, Inside(Pending(m) + s, true), done)
  {
    hide Lex;
    assert Quoted(s) + rest == "'" + (Body(s) + ("'" + rest));
    OpenStep(Body(s) + ("'" + rest), m, done);
    BodyReads(s, "'" + rest, Pending(m), done);
    CloseStep(rest, Pending(m) + s, done);
  }

  /** Alone, the quoted text is read as one word equal to s, also when s is empty. */
  lemma OneWord(s: string)
    ensures Read(Quoted(s)) == Some([Word(s)])
  {
    QuotedReadsBack(s, "", Between, []);
    assert Quoted(s) + "" == Quoted(s) && "" + s == s;
    EndStep(s, true, []);
    assert [] + [Word(s)] == [Word(s)];
  }

  // ---------- std::system takes a C string ----------

  const NUL: char := 0 as char

  /** What is left of a command once it has gone through c_str(). */
  function AsCString(s: string): string {
    if s == "" || s[0] == NUL then "" else [s[0]] + AsCString(s[1..])
  }

  /** It ends just before the first NUL. */
  lemma {:induction false} CStringIsPrefix(s: string)
    ensures AsCString(s) <= s && NUL !in AsCString(s)
    ensures |AsCString(s)| < |s| ==> s[|AsCString(s)|] == NUL
  {
    if s != "" && s[0] != NUL {
      CStringIsPrefix(s[1..]);
    }
  }

  lemma NulStops(rest: string)
    ensures AsCString("") == "" && AsCString([NUL] + rest) == ""
  {
  }

  lemma {:induction false} SeenUpTo(a: string, b: string)
    ensures NUL !in a ==> AsCString(a + b) == a + AsCString(b)
    ensures NUL in a ==> AsCString(a + b) == AsCString(a)
  {
    if a == "" {
      assert a + b == b;
    } else if a[0] != NUL {
      assert (a + b)[1..] == a[1..] + b;
      SeenUpTo(a[1..], b);
      assert NUL in a <==> NUL in a[1..];
      assert [a[0]] + (a[1..] + AsCString(b)) == a + AsCString(b);
    }
  }

  lemma {:induction false} BodySeen(s: string)
    ensures NUL in Body(s) <==> NUL in s
    ensures AsCString(Body(s)) == Body(AsCString(s))
  {
    hide AsCString;
    if s == "" {
      NulStops("");
    } else {
      var head := if s[0] == '\'' then "'\\''" else [s[0]];
      assert Body(s) == head + Body(s[1..]);
      assert s == [s[0]] + s[1..];
      BodySeen(s[1..]);
      SeenUpTo(head, Body(s[1..]));
      SeenUpTo([s[0]], s[1..]);
      if s[0] == NUL {
        NulStops("");
        assert [NUL] + "" == [NUL];
      } else {
        assert ([s[0]] + AsCString(s[1..]))[1..] == AsCString(s[1..]);
      }
    }
  }

  /** A text with a NUL leaves its quote open. */
  lemma NulLeavesQuoteOpen(s: string, rest: string, m: Mode, done: seq<Token>)
    requires NUL in s && !m.Quote?
    ensures Lex(AsCString(Quoted(s) + rest), m, done) == None
  {
    var seen := "'" + Body(AsCString(s));
    assert AsCString(Quoted(s) + rest) == seen by {
      assert Quoted(s) + rest == "'" + (Body(s) + ("'" + rest));
      BodySeen(s);
      SeenUpTo("'", Body(s) + ("'" + rest));
      SeenUpTo(Body(s), "'" + rest);
    }
    hide AsCString, Body;
    var body := Body(AsCString(s));
    BodyReads(AsCString(s), "", Pending(m), done);
    assert body + "" == body;
    OpenStep(body, m, done);
  }

  // ---------- Commands ----------

  /** One argument: a fixed text, a quoted value, or a fixed text with a quoted value after it. */
  datatype Arg = Arg(fixed: string, value: Option<string>) {
    function Render(): string {
      fixed + match value case None => "" case Some(s) => Quoted(s)
    }

    function Meaning(): string {
      fixed + match value case None => "" case Some(s) => s
    }

    /** Fixed texts are the program's own: letters, digits and a few marks. */
    predicate Plain() {
      && (forall i | 0 <= i < |fixed| :: PlainChar(fixed[i]))
      && (fixed != "" || value.Some?)
    }

    predicate NulFree() {
      value.Some? ==> NUL !in value.value
    }
  }

  predicate PlainChar(c: char) {
    'a' <= c <= 'z' || 'A' <= c <= 'Z' || '0' <= c <= '9' || c in "-.="
  }

  function Fixed(s: string): Arg {
    Arg(s, None)
  }

  function Value(s: string): Arg {
    Arg("", Some(s))
  }

  function Render(args: seq<Arg>): string {
    if args == [] then "" else args[0].Render() + " " + Render(args[1..])
  }

  function Words(args: seq<Arg>): seq<Token> {
    if args == [] then [] else [Word(args[0].Meaning())] + Words(args[1..])
  }

  predicate AllPlain(args: seq<Arg>) {
    forall i | 0 <= i < |args| :: args[i].Plain()
  }

  predicate AllNulFree(args: seq<Arg>) {
    forall i | 0 <= i < |args| :: args[i].NulFree()
  }

  /** Both output streams to the caller's standard output. */
  const REDIRECT: string := "2>&1"

  function Redirection(): seq<Token> {
    [IoNumber("2"), Operator(">&"), Word("1")]
  }

  lemma RedirectReads(done: seq<Token>)
    ensures Lex(REDIRECT, Between, done) == Some(done + Redirection())
  {
    hide Lex, OperatorLength;
    var one, after := Inside("2", false), done + [IoNumber("2"), Operator(">&")];
    assert REDIRECT == ['2'] + ">&1" && "" + ['2'] == "2";
    PlainStep('2', ">&1", Between, done);
    assert ">&1" == ">&" + "1";
    DuplicateStep("1", one, done);
    assert "1" == ['1'] + "" && "" + ['1'] == "1";
    PlainStep('1', "", Between, after);
    EndStep("1", false, after);
    assert after + [Word("1")] == done + Redirection();
  }

  lemma DuplicateStep(rest: string, m: Mode, done: seq<Token>)
    requires m.Inside? && !m.quoted && m.text != "" && IsDigits(m.text)
    ensures Lex(">&" + rest, m, done) == Lex(rest, Between, done + [IoNumber(m.text), Operator(">&")])
  {
    var s := ">&" + rest;
    assert s[0] == '>' && s[..2] == ">&" && s[2..] == rest;
    assert |s| >= 3 ==> s[..3][0] == '>';
    assert OperatorLength(s) == 2;
    assert done + [IoNumber(m.text)] + [Operator(">&")] == done + [IoNumber(m.text), Operator(">&")];
  }

  lemma {:induction false} PlainReads(w: string, rest: string, m: Mode, done: seq<Token>)
    requires !m.Quote? && forall i | 0 <= i < |w| :: PlainChar(w[i])
    ensures w != "" ==> Lex(w + rest, m, done) == Lex(rest, Inside(Pending(m) + w, m.Inside? && m.quoted), done)
  {
    hide Lex, PlainChar;
    if w != "" {
      var next := Inside(Pending(m) + [w[0]], m.Inside? && m.quoted);
      assert w + rest == [w[0]] + (w[1..] + rest);
      PlainStep(w[0], w[1..] + rest, m, done);
      PlainReads(w[1..], rest, next, done);
      assert Pending(m) + [w[0]] + w[1..] == Pending(m) + w;
      if w[1..] == "" {
        assert w[1..] + rest == rest && Pending(m) + [w[0]] == Pending(m) + w;
      }
    }
  }

  lemma ArgReads(a: Arg, rest: string, done: seq<Token>)
    requires a.Plain()
    ensures Lex(a.Render() + (" " + rest), Between, done) == Lex(rest, Between, done + [Word(a.Meaning())])
  {
    hide Lex, PlainChar, Quoted;
    var tail := " " + rest;
    BlankStep(rest, Inside(a.Meaning(), a.value.Some?), done);
    match a.value
    case None =>
      PlainReads(a.fixed, tail, Between, done);
      assert a.Render() == a.fixed && "" + a.fixed == a.Meaning();
    case Some(s) =>
      assert a.Render() + tail == a.fixed + (Quoted(s) + tail);
      PlainReads(a.fixed, Quoted(s) + tail, Between, done);
      var m := if a.fixed == "" then Between else Inside("" + a.fixed, false);
      assert a.fixed == "" ==> a.fixed + (Quoted(s) + tail) == Quoted(s) + tail;
      QuotedReadsBack(s, tail, m, done);
      assert Pending(m) + s == a.Meaning();
  }

  lemma {:induction false} ArgsRead(args: seq<Arg>, rest: string, done: seq<Token>)
    requires AllPlain(args)
    ensures Lex(Render(args) + rest, Between, done) == Lex(rest, Between, done + Words(args))
    decreases |args|
  {
    hide Lex, Arg.Render, Arg.Meaning, Arg.Plain;
    if args == [] {
      assert Render(args) + rest == rest && done + Words(args) == done;
    } else {
      var after := Render(args[1..]) + rest;
      assert Render(args) + rest == args[0].Render() + (" " + after);
      ArgReads(args[0], after, done);
      ArgsRead(args[1..], rest, done + [Word(args[0].Meaning())]);
      assert done + [Word(args[0].Meaning())] + Words(args[1..]) == done + Words(args);
    }
  }

  /** What the shell gets of one argument: all of it, or an open quote. */
  lemma ArgSeen(a: Arg, rest: string)
    requires a.Plain() && a.NulFree()
    ensures AsCString(a.Render() + rest) == a.Render() + AsCString(rest)
  {
    hide AsCString, Body;
    if a.value.Some? {
      BodySeen(a.value.value);
    }
    assert NUL !in a.Render();
    SeenUpTo(a.Render(), rest);
  }

  lemma ArgCut(a: Arg, rest: string, done: seq<Token>)
    requires a.Plain() && !a.NulFree()
    ensures Lex(AsCString(a.Render() + rest), Between, done) == None
  {
    assert NUL !in a.fixed;
    hide Lex, PlainChar, AsCString, Quoted;
    var s := a.value.value;
    var seen := AsCString(Quoted(s) + rest);
    assert a.Render() + rest == a.fixed + (Quoted(s) + rest);
    SeenUpTo(a.fixed, Quoted(s) + rest);
    PlainReads(a.fixed, seen, Between, done);
    assert a.fixed == "" ==> a.fixed + seen == seen;
    NulLeavesQuoteOpen(s, rest, if a.fixed == "" then Between else Inside("" + a.fixed, false), done);
  }

  lemma {:induction false} ArgsSeen(args: seq<Arg>, rest: string, done: seq<Token>)
    requires AllPlain(args)
    ensures AllNulFree(args) ==> AsCString(Render(args) + rest) == Render(args) + AsCString(rest)
    ensures !AllNulFree(args) ==> Lex(AsCString(Render(args) + rest), Between, done) == None
    decreases |args|
  {
    hide Lex, AsCString, Arg.Plain, Arg.NulFree, Arg.Render;
    if args == [] {
      assert Render(args) + rest == rest && Render(args) + AsCString(rest) == AsCString(rest);
    } else {
      var after := Render(args[1..]) + rest;
      var first := args[0];
      assert Render(args) + rest == first.Render() + (" " + after);
      if !first.NulFree() {
        ArgCut(first, " " + after, done);
      } else {
        ArgSeen(first, " " + after);
        BlankSeen(after);
        ArgReads(first, AsCString(after), done);
        ArgsSeen(args[1..], rest, done + [Word(first.Meaning())]);
        assert AllNulFree(args) <==> AllNulFree(args[1..]) by {
          assert forall i | 1 <= i < |args| :: args[i] == args[1..][i - 1];
        }
        if AllNulFree(args) {
          assert first.Render() + (" " + (Render(args[1..]) + AsCString(rest))) == Render(args) + AsCString(rest);
        }
      }
    }
  }

  lemma BlankSeen(rest: string)
    ensures AsCString(" " + rest) == " " + AsCString(rest)
  {
    assert (" " + rest)[1..] == rest;
  }

  lemma RedirectSeen()
    ensures AsCString(REDIRECT) == REDIRECT
  {
    hide AsCString;
    SeenUpTo(REDIRECT, "");
    NulStops("");
    assert REDIRECT + "" == REDIRECT && NUL !in REDIRECT;
  }

  /** A command of fixed texts and quoted values: the shell reads exactly its arguments and
      the redirection, if and only if no value holds a NUL. */
  lemma CommandIsExact(args: seq<Arg>)
    requires AllPlain(args)
    ensures Read(AsCString(Render(args) + REDIRECT)) == Some(Words(args) + Redirection()) <==> AllNulFree(args)
  {
    hide Lex, AsCString, Render, Words, AllPlain, AllNulFree;
    ArgsSeen(args, REDIRECT, []);
    if AllNulFree(args) {
      RedirectSeen();
      ArgsRead(args, REDIRECT, []);
      assert [] + Words(args) == Words(args);
      RedirectReads(Words(args));
    }
  }

  // ---------- The git commands of the indexer ----------

  const BEARER: string := "Authorization: Bearer "

  function AuthFlag(token: Option<string>): string {
    match token
    case None => ""
    case Some(t) => " -c http.extraHeader=" + Quoted(BEARER + t)
  }

  function CloneCommand(token: Option<string>, url: string, path: string): string {
    "git" + AuthFlag(token) + " clone --depth 1 " + Quoted(url) + " " + Quoted(path) + " 2>&1"
  }

  function Git(token: Option<string>): seq<Arg> {
    match token
    case None => [Fixed("git")]
    case Some(t) => [Fixed("git"), Fixed("-c"), Header(t)]
  }

  lemma {:induction false} RenderAppend(a: seq<Arg>, b: seq<Arg>)
    ensures Render(a + b) == Render(a) + Render(b)
    decreases |a|
  {
    if a == [] {
      assert a + b == b;
    } else {
      assert (a + b)[1..] == a[1..] + b;
      RenderAppend(a[1..], b);
    }
  }

  lemma RenderTwo(a: Arg, b: Arg)
    ensures Render([a, b]) == a.Render() + " " + b.Render() + " "
  {
    hide Arg.Render;
    assert [b][1..] == [] && Render([b]) == b.Render() + " " + "";
    assert [a, b][1..] == [b] && Render([a, b]) == a.Render() + " " + Render([b]);
  }

  lemma RenderThree(a: Arg, b: Arg, c: Arg)
    ensures Render([a, b, c]) == a.Render() + " " + b.Render() + " " + c.Render() + " "
  {
    hide Arg.Render;
    RenderTwo(b, c);
    assert [a, b, c][1..] == [b, c] && Render([a, b, c]) == a.Render() + " " + Render([b, c]);
  }

  function Header(token: string): Arg {
    Arg("http.extraHeader=", Some(BEARER + token))
  }

  lemma GitIs(token: Option<string>)
    ensures Render(Git(token)) == "git" + AuthFlag(token) + " "
  {
    hide Arg.Render;
    if token.Some? {
      var header := Header(token.value);
      RenderThree(Fixed("git"), Fixed("-c"), header);
      FixedRender("git");
      FixedRender("-c");
      AuthFlagIs(token.value);
    } else {
      assert [Fixed("git")][1..] == [];
      FixedRender("git");
    }
  }

  lemma AuthFlagIs(token: string)
    ensures " " + "-c" + " " + Header(token).Render() == AuthFlag(Some(token))
  {
    hide Quoted;
    assert " -c http.extraHeader=" == " " + "-c" + " " + "http.extraHeader=";
  }

  lemma FixedRender(s: string)
    ensures Fixed(s).Render() == s
  {
  }

  lemma GitPlain(token: Option<string>)
    ensures AllPlain(Git(token))
    ensures AllNulFree(Git(token)) <==> (token.Some? ==> NUL !in token.value)
  {
    if token.Some? {
      assert Git(token)[2] == Header(token.value);
      assert NUL !in BEARER;
      assert forall i | 0 <= i < |token.value| :: (BEARER + token.value)[|BEARER| + i] == token.value[i];
    }
  }

  lemma ValueRender(s: string)
    ensures Value(s).Render() == Quoted(s)
  {
    hide Quoted;
    assert "" + Quoted(s) == Quoted(s);
  }

  lemma BothParts(a: seq<Arg>, b: seq<Arg>)
    ensures AllPlain(a + b) <==> AllPlain(a) && AllPlain(b)
    ensures AllNulFree(a + b) <==> AllNulFree(a) && AllNulFree(b)
  {
    hide Arg.Plain, Arg.NulFree;
    var c := a + b;
    assert forall i | 0 <= i < |a| :: c[i] == a[i];
    assert forall i | 0 <= i < |b| :: c[|a| + i] == b[i];
  }

  /** What every command shares: the program, its credentials, the redirection. */
  lemma GitCommand(token: Option<string>, args: seq<Arg>)
    requires AllPlain(args)
    ensures Read(AsCString("git" + AuthFlag(token) + " " + Render(args) + REDIRECT))
      == Some(Words(Git(token) + args) + Redirection())
      <==> (token.Some? ==> NUL !in token.value) && AllNulFree(args)
  {
    hide AuthFlag, Render, Words, AsCString, Read, AllPlain, AllNulFree;
    GitIs(token);
    GitPlain(token);
    BothParts(Git(token), args);
    RenderAppend(Git(token), args);
    CommandIsExact(Git(token) + args);
  }

  function CloneArgs(url: string, path: string): seq<Arg> {
    [Fixed("clone"), Fixed("--depth"), Fixed("1")] + [Value(url), Value(path)]
  }

  lemma CloneArgsAre(url: string, path: string)
    ensures Render(CloneArgs(url, path)) == "clone --depth 1 " + Quoted(url) + " " + Quoted(path) + " "
    ensures AllPlain(CloneArgs(url, path))
    ensures AllNulFree(CloneArgs(url, path)) <==> NUL !in url && NUL !in path
  {
    hide Arg.Render, Quoted, AllNulFree, AllPlain, Render;
    var fixed, values := [Fixed("clone"), Fixed("--depth"), Fixed("1")], [Value(url), Value(path)];
    BothParts(fixed, values);
    ValuePair(url, path);
    CloneFixed();
    RenderAppend(fixed, values);
    var u, p := Quoted(url), Quoted(path);
    assert "clone --depth 1 " + (u + " " + p + " ") == "clone --depth 1 " + u + " " + p + " ";
  }

  lemma ValuePair(a: string, b: string)
    ensures AllPlain([Value(a), Value(b)]) && Render([Value(a), Value(b)]) == Quoted(a) + " " + Quoted(b) + " "
    ensures AllNulFree([Value(a), Value(b)]) <==> NUL !in a && NUL !in b
  {
    hide Quoted, Render;
    var values := [Value(a), Value(b)];
    assert values[0] == Value(a) && values[1] == Value(b);
    ValueRender(a);
    ValueRender(b);
    RenderTwo(values[0], values[1]);
  }

  lemma CloneFixed()
    ensures AllPlain([Fixed("clone"), Fixed("--depth"), Fixed("1")])
    ensures AllNulFree([Fixed("clone"), Fixed("--depth"), Fixed("1")])
    ensures Render([Fixed("clone"), Fixed("--depth"), Fixed("1")]) == "clone --depth 1 "
  {
    hide Render;
    FixedRender("clone");
    FixedRender("--depth");
    FixedRender("1");
    RenderThree(Fixed("clone"), Fixed("--depth"), Fixed("1"));
    assert "clone --depth 1 " == "clone" + " " + "--depth" + " " + "1" + " ";
  }

  lemma Regroup(git: string, blank: string, words: string, a: string, b: string, redirect: string)
    ensures git + (blank + words) + a + blank + b + (blank + redirect)
      == git + blank + (words + a + blank + b + blank) + redirect
  {
  }

  lemma Literals()
    ensures " clone --depth 1 " == " " + "clone --depth 1 "
    ensures " 2>&1" == " " + REDIRECT
  {
  }

  /** git clone gets exactly its arguments, or one of the texts holds a NUL. */
  lemma CloneIsExact(token: Option<string>, url: string, path: string)
    ensures Read(AsCString(CloneCommand(token, url, path)))
      == Some(Words(Git(token) + CloneArgs(url, path)) + Redirection())
      <==> (token.Some? ==> NUL !in token.value) && NUL !in url && NUL !in path
  {
    hide AuthFlag, Render, Words, AsCString, Read, AllPlain, AllNulFree, Quoted, CloneArgs;
    CloneArgsAre(url, path);
    GitCommand(token, CloneArgs(url, path));
    Literals();
    Regroup("git" + AuthFlag(token), " ", "clone --depth 1 ", Quoted(url), Quoted(path), REDIRECT);
    assert CloneCommand(token, url, path) == "git" + AuthFlag(token) + " " + Render(CloneArgs(url, path)) + REDIRECT;
  }
}
