/** _resolve_xml_var of mono/swarm/agents_config.py: ${NAME:default} is replaced until none is left. */
module Placeholder {
  import opened Sets
  import opened Text
  import opened Wrappers

  type Environment = map<string, string>

  /** str.replace */
  function ReplaceAll(s: string, target: string, replacement: string): string
    requires target != ""
    decreases |s|
  {
    match FirstIndex(s, target)
    case None => s
    case Some(i) => s[..i] + replacement + ReplaceAll(s[i + |target|..], target, replacement)
  }

  /** The parts with the text between any two of them. */
  function JoinedBy(text: string, parts: seq<string>): string {
    if parts == [] then "" else if |parts| == 1 then parts[0] else parts[0] + text + JoinedBy(text, parts[1..])
  }

  /** Every occurrence is replaced and nothing else: the parts between the occurrences stay. */
  lemma {:induction false} ReplaceAllMeans(s: string, target: string, replacement: string) returns (parts: seq<string>)
    requires target != ""
    ensures parts != [] && s == JoinedBy(target, parts)
    ensures ReplaceAll(s, target, replacement) == JoinedBy(replacement, parts)
    ensures forall i | 0 <= i < |parts| :: !Contains(parts[i], target)
    decreases |s|
  {
    match FirstIndex(s, target)
    case None => parts := [s];
    case Some(i) =>
      var rest := ReplaceAllMeans(s[i + |target|..], target, replacement);
      parts := [s[..i]] + rest;
      assert parts[1..] == rest && s == s[..i] + target + s[i + |target|..];
      NothingBefore(s, target, i);
  }

  lemma NothingBefore(s: string, target: string, i: nat)
    requires target != "" && FirstIndex(s, target) == Some(i)
    ensures !Contains(s[..i], target)
  {
    forall k: nat ensures !OccursAt(s[..i], target, k) {
      if k + |target| <= i {
        assert s[..i][k..k + |target|] == s[k..k + |target|];
        assert !OccursAt(s, target, k);
      }
    }
  }

  /** The text a token stands for: its variable, or the default after the first colon. */
  function Meaning(token: string, env: Environment): string {
    var colon := FirstIndex(token, ":");
    var name := if colon.Some? then token[..colon.value] else token;
    var fallback := if colon.Some? then token[colon.value + 1..] else "";
    if name in env then env[name] else fallback
  }

  // ---------- One turn of the loop ----------

  /** The first placeholder with what stands around it; Unclosed is the ValueError of str.index. */
  datatype Found = Nothing | Unclosed | Hole(before: string, token: string, rest: string)

  function Find(s: string): (r: Found)
    ensures r.Nothing? <==> !Contains(s, "${")
    ensures r.Hole? ==> s == r.before + ("${" + r.token + "}") + r.rest
  {
    match FirstIndex(s, "${")
    case None => Nothing
    case Some(start) =>
      var t := s[start..];
      match FirstIndex(t, "}")
      case None => Unclosed
      case Some(end) =>
        BraceIsLater(s, start, end);
        Hole(s[..start], t[2..end], t[end + 1..])
  }

  lemma BraceIsLater(s: string, start: nat, end: nat)
    requires OccursAt(s, "${", start) && OccursAt(s[start..], "}", end)
    ensures end >= 2
    ensures var t := s[start..];
      s == s[..start] + ("${" + t[2..end] + "}") + t[end + 1..]
  {
    var t := s[start..];
    assert t[..2] == s[start..start + 2];
    assert t[0] == '$' && t[1] == '{' && t[end..end + 1][0] == '}';
    assert s == s[..start] + t;
    assert t == t[..2] + t[2..end] + t[end..end + 1] + t[end + 1..];
  }

  function Filled(h: Found, env: Environment): string
    requires h.Hole?
  {
    h.before + Meaning(h.token, env) + h.rest
  }

  // ---------- Whether the loop ends ----------

  /** The loop is over after at most n turns. */
  ghost predicate EndsIn(s: string, env: Environment, n: nat)
    decreases n
  {
    !Find(s).Hole? || (n > 0 && EndsIn(Filled(Find(s), env), env, n - 1))
  }

  ghost predicate Ends(s: string, env: Environment) {
    exists n: nat :: EndsIn(s, env, n)
  }

  lemma {:induction false} EndsLater(s: string, env: Environment, n: nat)
    requires EndsIn(s, env, n)
    ensures EndsIn(s, env, n + 1)
    decreases n
  {
    if Find(s).Hole? {
      EndsLater(Filled(Find(s), env), env, n - 1);
    }
  }

  lemma {:induction false} LeastTurns(s: string, env: Environment, n: nat) returns (m: nat)
    requires EndsIn(s, env, n)
    ensures IsLeast(s, env, m)
    decreases n
  {
    m := n;
    if n > 0 && EndsIn(s, env, n - 1) {
      m := LeastTurns(s, env, n - 1);
    }
  }

  ghost predicate IsLeast(s: string, env: Environment, n: nat) {
    EndsIn(s, env, n) && (n > 0 ==> !EndsIn(s, env, n - 1))
  }

  /** The turns the loop still takes. */
  ghost function TurnsLeft(s: string, env: Environment): (n: nat)
    requires Ends(s, env)
    ensures IsLeast(s, env, n)
  {
    var some: nat :| EndsIn(s, env, some);
    assert exists n: nat :: IsLeast(s, env, n) by {
      var m := LeastTurns(s, env, some);
    }
    var n: nat :| IsLeast(s, env, n);
    n
  }

  lemma {:induction false} NotSooner(s: string, env: Environment, m: nat, n: nat)
    requires m <= n && EndsIn(s, env, m)
    ensures EndsIn(s, env, n)
    decreases n - m
  {
    if m < n {
      EndsLater(s, env, m);
      NotSooner(s, env, m + 1, n);
    }
  }

  /** A turn leaves the outcome open exactly as it was, and brings it nearer. */
  lemma TurnCounts(s: string, env: Environment)
    requires Find(s).Hole?
    ensures Ends(s, env) <==> Ends(Filled(Find(s), env), env)
    ensures Ends(s, env) ==> TurnsLeft(Filled(Find(s), env), env) < TurnsLeft(s, env)
  {
    hide Find, Filled;
    var t := Filled(Find(s), env);
    if Ends(t, env) {
      var n: nat :| EndsIn(t, env, n);
      assert EndsIn(s, env, n + 1);
    }
    if Ends(s, env) {
      var m := TurnsLeft(s, env);
      assert EndsIn(t, env, m - 1);
      if TurnsLeft(t, env) >= m {
        NotSooner(t, env, m - 1, TurnsLeft(t, env) - 1);
      }
    }
  }

  /** Where the loop ends up. */
  ghost function Expand(s: string, env: Environment): (r: Result<string, ()>)
    requires Ends(s, env)
    ensures r.Ok? ==> !Contains(r.value, "${")
    decreases TurnsLeft(s, env)
  {
    match Find(s)
    case Nothing => Ok(s)
    case Unclosed => Err(())
    case Hole(_, _, _) =>
      TurnCounts(s, env);
      Expand(Filled(Find(s), env), env)
  }

  const HOME := "${rtvortex.home}"

  /** Whenever the loop ends at all, it ends here, and a normal return has no placeholder left. */
  method ResolveXmlVar(raw: string, env: Environment, home: string) returns (r: Result<string, ()>)
    requires Ends(ReplaceAll(raw, HOME, home), env)
    ensures r == Expand(ReplaceAll(raw, "${rtvortex.home}", home), env)
    ensures r.Ok? ==> !Contains(r.value, "${")
  {
    if !Contains(raw, "${") {
      HomeHoldsOpening(raw);
      return Ok(raw);
    }
    hide Find, Meaning, Ends, ReplaceAll;
    var result := ReplaceAll(raw, HOME, home);
    while Contains(result, "${")
      invariant Ends(result, env)
      invariant Expand(ReplaceAll(raw, HOME, home), env) == Expand(result, env)
      decreases TurnsLeft(result, env)
    {
      var hole := Find(result);
      if hole.Unclosed? {
        return Err(());
      }
      TurnCounts(result, env);
      result := hole.before + Meaning(hole.token, env) + hole.rest;
    }
    return Ok(result);
  }

  lemma HomeHoldsOpening(s: string)
    requires !Contains(s, "${")
    ensures !Contains(s, HOME)
  {
    var at := FirstIndex(s, HOME);
    if at.Some? {
      var i := at.value;
      assert s[i..i + 2] == s[i..i + |HOME|][..2];
      assert HOME[..2] == "${";
      assert OccursAt(s, "${", i);
    }
  }

  // ---------- What the expansion means ----------

  lemma NotFound(s: string, c: char)
    requires c !in s
    ensures FirstIndex(s, [c]) == None
  {
    forall k: nat ensures !OccursAt(s, [c], k) {
      assert k < |s| ==> s[k..k + 1][0] == s[k];
    }
  }

  lemma FoundAfter(before: string, target: string, rest: string)
    requires target != "" && target[0] !in before
    ensures FirstIndex(before + target + rest, target) == Some(|before|)
  {
    var s := before + target + rest;
    assert OccursAt(s, target, |before|);
    forall k: nat | k < |before| ensures !OccursAt(s, target, k) {
      assert k + |target| <= |s| ==> s[k..k + |target|][0] == before[k];
    }
  }

  /** One of the two characters without which no placeholder can arise. */
  predicate Opening(c: char) {
    c == '$' || c == '{'
  }

  lemma OpensAfter(before: string, rest: string, c: char)
    requires Opening(c) && c !in before
    ensures FirstIndex(before + "${" + rest, "${") == Some(|before|)
  {
    var s := before + "${" + rest;
    assert OccursAt(s, "${", |before|);
    forall k: nat | k < |before| ensures !OccursAt(s, "${", k) {
      assert s[k] == before[k] && (k + 1 < |before| ==> s[k + 1] == before[k + 1]);
      assert k + 1 == |before| ==> s[k + 1] == '$';
      assert s[k..k + 2][0] == s[k] && s[k..k + 2][1] == s[k + 1];
    }
  }

  /** A text whose first placeholder is this one. */
  lemma FindsIt(before: string, token: string, rest: string, c: char)
    requires Opening(c) && c !in before && '}' !in token
    ensures Find(before + ("${" + token + "}") + rest) == Hole(before, token, rest)
  {
    var t := "${" + token + "}" + rest;
    var s := before + "${" + (token + "}" + rest);
    assert before + ("${" + token + "}") + rest == s;
    OpensAfter(before, token + "}" + rest, c);
    assert s[..|before|] == before && s[|before|..] == t;
    FoundAfter("${" + token, "}", rest);
    Parts(token, rest);
  }

  lemma Parts(token: string, rest: string)
    ensures var t := "${" + token + "}" + rest;
      t[2..2 + |token|] == token && t[3 + |token|..] == rest
  {
  }

  lemma NoOpening(s: string, c: char)
    requires Opening(c) && c !in s
    ensures Find(s) == Nothing
  {
    forall k: nat ensures !OccursAt(s, "${", k) {
      assert k + 2 <= |s| ==> s[k..k + 2][0] == s[k] && s[k..k + 2][1] == s[k + 1];
    }
  }

  // ---------- Values without one of the two characters ----------

  /** No value holds c. */
  predicate Tame(env: Environment, c: char) {
    forall name | name in env :: c !in env[name]
  }

  function Count(s: string, c: char): nat {
    if s == "" then 0 else (if s[0] == c then 1 else 0) + Count(s[1..], c)
  }

  lemma {:induction false} CountAdd(a: string, b: string, c: char)
    ensures Count(a + b, c) == Count(a, c) + Count(b, c)
  {
    if a == "" {
      assert a + b == b;
    } else {
      assert (a + b)[1..] == a[1..] + b;
      CountAdd(a[1..], b, c);
    }
  }

  lemma {:induction false} CountZero(s: string, c: char)
    requires c !in s
    ensures Count(s, c) == 0
  {
    if s != "" {
      CountZero(s[1..], c);
    }
  }

  lemma MeaningIsSmall(token: string, env: Environment, c: char)
    requires Tame(env, c)
    ensures Count(Meaning(token, env), c) <= Count(token, c)
  {
    var colon := FirstIndex(token, ":");
    var name := if colon.Some? then token[..colon.value] else token;
    if name in env {
      CountZero(env[name], c);
    } else if colon.Some? {
      assert token == token[..colon.value + 1] + token[colon.value + 1..];
      CountAdd(token[..colon.value + 1], token[colon.value + 1..], c);
    }
  }

  /** Each turn removes at least the opening it found; defaults may keep theirs. */
  lemma FillingShrinks(s: string, env: Environment, c: char)
    requires Opening(c) && Tame(env, c) && Find(s).Hole?
    ensures Count(Filled(Find(s), env), c) < Count(s, c)
  {
    hide Meaning, Find, Tame;
    var h := Find(s);
    MeaningIsSmall(h.token, env, c);
    var hole := "${" + h.token + "}";
    CountAdd(h.before + hole, h.rest, c);
    CountAdd(h.before, hole, c);
    CountAdd("${" + h.token, "}", c);
    CountAdd("${", h.token, c);
    CountAdd(h.before + Meaning(h.token, env), h.rest, c);
    CountAdd(h.before, Meaning(h.token, env), c);
    OpeningCounts(c);
  }

  lemma OpeningCounts(c: char)
    requires Opening(c)
    ensures Count("${", c) == 1
  {
    assert "${"[1..] == "{" && "{"[1..] == "";
    assert Count("{", c) == if c == '{' then 1 else 0;
  }

  /** If no value holds a dollar sign, or none holds an opening brace, the loop ends on every
      text, with the number of these characters as measure. */
  lemma {:induction false} TameEnds(s: string, env: Environment, c: char)
    requires Opening(c) && Tame(env, c)
    ensures EndsIn(s, env, Count(s, c)) && Ends(s, env)
    decreases Count(s, c)
  {
    hide Find, Filled, Tame;
    if Find(s).Hole? {
      var t := Filled(Find(s), env);
      FillingShrinks(s, env, c);
      TameEnds(t, env, c);
      NotSooner(t, env, Count(t, c), Count(s, c) - 1);
    }
  }

  // ---------- Loops that never end ----------

  /** One turn leads from s to t, and one from t back to s. */
  predicate Returns(s: string, t: string, env: Environment) {
    && Find(s).Hole? && Filled(Find(s), env) == t
    && Find(t).Hole? && Filled(Find(t), env) == s
  }

  lemma {:induction false} CycleNeverEnds(s: string, t: string, env: Environment, n: nat)
    ensures Returns(s, t, env) ==> !EndsIn(s, env, n)
    decreases n
  {
    hide Find, Filled;
    if n > 0 {
      CycleNeverEnds(t, s, env, n - 1);
    }
  }

  lemma ReturningNeverEnds(s: string, t: string, env: Environment)
    ensures Returns(s, t, env) ==> !Ends(s, env)
  {
    hide Returns;
    if Returns(s, t, env) {
      forall n: nat ensures !EndsIn(s, env, n) {
        CycleNeverEnds(s, t, env, n);
      }
    }
  }

  /** A value that names its own variable. */
  lemma SelfReferenceDiverges(name: string)
    requires '}' !in name && ':' !in name
    ensures var s := "${" + name + "}"; !Ends(s, map[name := s])
  {
    var s := "${" + name + "}";
    FindsIt("", name, "", '$');
    assert "" + s + "" == s;
    NotFound(name, ':');
    ReturningNeverEnds(s, s, map[name := s]);
  }

  // ---------- Texts made of pieces ----------

  datatype Piece = Literal(text: string) | Variable(name: string, fallback: Option<string>) {
    /** The texts that stay hold no c, and a token is closed by its own brace. */
    predicate Good(c: char) {
      match this
      case Literal(t) => c !in t
      case Variable(n, d) => ':' !in n && '}' !in n && (d.Some? ==> c !in d.value && '}' !in d.value)
    }

    function Token(): string
      requires Variable?
    {
      name + match fallback case None => "" case Some(d) => ":" + d
    }

    function Written(): string {
      match this case Literal(t) => t case Variable(_, _) => "${" + Token() + "}"
    }

    function Default(): string
      requires Variable?
    {
      match fallback case None => "" case Some(d) => d
    }

    function Value(env: Environment): string {
      match this
      case Literal(t) => t
      case Variable(n, _) => if n in env then env[n] else Default()
    }
  }

  predicate AllGood(ps: seq<Piece>, c: char) {
    forall i | 0 <= i < |ps| :: ps[i].Good(c)
  }

  function Written(ps: seq<Piece>): string {
    if ps == [] then "" else ps[0].Written() + Written(ps[1..])
  }

  function ValueOf(ps: seq<Piece>, env: Environment): string {
    if ps == [] then "" else ps[0].Value(env) + ValueOf(ps[1..], env)
  }

  lemma TokenMeans(p: Piece, env: Environment, c: char)
    requires p.Variable? && p.Good(c) && c != ':'
    ensures '}' !in p.Token() && Meaning(p.Token(), env) == p.Value(env)
  {
    match p.fallback
    case None =>
      NotFound(p.name, ':');
      assert p.Token() == p.name;
    case Some(d) =>
      assert p.Token() == p.name + ":" + d;
      FoundAfter(p.name, ":", d);
      assert p.Token()[..|p.name|] == p.name && p.Token()[|p.name| + 1..] == d;
  }

  /** The turn that replaces a variable. */
  lemma VariableTurn(before: string, p: Piece, rest: string, env: Environment, c: char)
    requires Opening(c) && c !in before && p.Variable? && p.Good(c)
    ensures var s := before + p.Written() + rest;
      Find(s).Hole? && Filled(Find(s), env) == before + p.Value(env) + rest
  {
    hide Find, Meaning, Piece.Token, Piece.Value;
    TokenMeans(p, env, c);
    FindsIt(before, p.Token(), rest, c);
  }

  /** No value needs to hold an opening for the loop to run forever: one may end in the dollar
      sign and another begin with the brace. */
  lemma SplitOpeningDiverges()
    ensures var env := map["A" := "$$", "B" := "{A}{B}"];
      (forall name | name in env :: !Contains(env[name], "${")) && !Ends("$$${B}", env)
  {
    hide Find, Filled, Ends, Contains;
    var env := map["A" := "$$", "B" := "{A}{B}"];
    var s, t := "$$${B}", "$${A}{B}";
    NoOpening("$$", '{');
    NoOpening("{A}{B}", '$');
    VariableTurn("$$", Variable("B", None), "", env, '{');
    VariableTurn("$", Variable("A", None), "{B}", env, '{');
    SplitTexts();
    ReturningNeverEnds(s, t, env);
  }

  lemma SplitTexts()
    ensures "$$" + Variable("B", None).Written() + "" == "$$${B}" && "$$" + "{A}{B}" + "" == "$${A}{B}"
    ensures "$" + Variable("A", None).Written() + "{B}" == "$${A}{B}" && "$" + "$$" + "{B}" == "$$${B}"
  {
    assert Variable("B", None).Written() == "${" + ("B" + "") + "}" == "${B}";
    assert Variable("A", None).Written() == "${" + ("A" + "") + "}" == "${A}";
  }

  lemma NothingToExpand(s: string, env: Environment, c: char)
    requires Opening(c) && c !in s
    ensures Ends(s, env) && Expand(s, env) == Ok(s)
  {
    hide Find;
    NoOpening(s, c);
    assert EndsIn(s, env, 0);
  }

  // ---------- Values made of pieces: exactly when the loop ends ----------

  type PieceEnvironment = map<string, seq<Piece>>

  function EnvOf(penv: PieceEnvironment): Environment {
    map name | name in penv :: Written(penv[name])
  }

  predicate GoodValues(penv: PieceEnvironment, c: char) {
    forall name | name in penv :: AllGood(penv[name], c)
  }

  predicate Mentions(ps: seq<Piece>, name: string) {
    exists i | 0 <= i < |ps| :: ps[i].Variable? && ps[i].name == name
  }

  /** From a to b in k steps, each from a set variable to one that its value mentions. */
  ghost predicate Reaches(penv: PieceEnvironment, a: string, b: string, k: nat)
    decreases k
  {
    if k == 0 then a == b
    else a in penv && exists u :: Mentions(penv[a], u) && Reaches(penv, u, b, k - 1)
  }

  ghost predicate ReachesItself(penv: PieceEnvironment, name: string) {
    name in penv && exists k: nat :: k > 0 && Reaches(penv, name, name, k)
  }

  ghost predicate Endless(penv: PieceEnvironment, name: string) {
    exists b, k: nat :: Reaches(penv, name, b, k) && ReachesItself(penv, b)
  }

  /** A set variable that reaches itself can be reached from the text. */
  ghost predicate MentionsEndless(penv: PieceEnvironment, ps: seq<Piece>) {
    exists name :: Mentions(ps, name) && Endless(penv, name)
  }

  /** An endless variable is set, and its value mentions an endless one. */
  lemma EndlessGoesOn(penv: PieceEnvironment, name: string)
    requires Endless(penv, name)
    ensures name in penv && MentionsEndless(penv, penv[name])
  {
    var b, k: nat :| Reaches(penv, name, b, k) && ReachesItself(penv, b);
    if k == 0 {
      var j: nat :| j > 0 && Reaches(penv, b, b, j);
      var u :| Mentions(penv[b], u) && Reaches(penv, u, b, j - 1);
      assert Endless(penv, u);
    } else {
      var u :| Mentions(penv[name], u) && Reaches(penv, u, b, k - 1);
      assert Endless(penv, u);
    }
  }

  lemma MentionsParts(ps: seq<Piece>, qs: seq<Piece>, name: string)
    ensures Mentions(ps + qs, name) <==> Mentions(ps, name) || Mentions(qs, name)
  {
    var all := ps + qs;
    assert forall i | 0 <= i < |ps| :: all[i] == ps[i];
    assert forall i | 0 <= i < |qs| :: all[|ps| + i] == qs[i];
  }

  lemma MentionsFirst(ps: seq<Piece>, name: string)
    requires ps != []
    ensures Mentions(ps, name) <==> (ps[0].Variable? && ps[0].name == name) || Mentions(ps[1..], name)
  {
    assert ps == [ps[0]] + ps[1..];
    MentionsParts([ps[0]], ps[1..], name);
    assert Mentions([ps[0]], name) <==> ps[0].Variable? && ps[0].name == name by {
      assert [ps[0]][0] == ps[0];
    }
  }

  lemma {:induction false} WrittenAppend(ps: seq<Piece>, qs: seq<Piece>)
    ensures Written(ps + qs) == Written(ps) + Written(qs)
    decreases |ps|
  {
    hide Piece.Written;
    if ps == [] {
      assert ps + qs == qs;
    } else {
      assert (ps + qs)[1..] == ps[1..] + qs;
      WrittenAppend(ps[1..], qs);
    }
  }

  /** The pieces after one turn on the first variable p of p + rest. */
  function Unfolded(p: Piece, penv: PieceEnvironment): seq<Piece>
    requires p.Variable?
  {
    if p.name in penv then penv[p.name] else [Literal(p.Default())]
  }

  lemma UnfoldedIs(p: Piece, penv: PieceEnvironment, c: char)
    requires p.Variable? && p.Good(c) && GoodValues(penv, c)
    ensures Written(Unfolded(p, penv)) == p.Value(EnvOf(penv)) && AllGood(Unfolded(p, penv), c)
  {
    if p.name !in penv {
      var d := Literal(p.Default());
      assert [d][1..] == [];
      assert Written([d]) == p.Default() + "" == p.Default();
    }
  }

  lemma EndlessStays(penv: PieceEnvironment, ps: seq<Piece>)
    requires ps != [] && MentionsEndless(penv, ps)
    ensures ps[0].Literal? ==> MentionsEndless(penv, ps[1..])
    ensures ps[0].Variable? ==> MentionsEndless(penv, Unfolded(ps[0], penv) + ps[1..])
  {
    hide Endless, Mentions;
    var name :| Mentions(ps, name) && Endless(penv, name);
    MentionsFirst(ps, name);
    if ps[0].Variable? {
      var unfolded := Unfolded(ps[0], penv);
      if Mentions(ps[1..], name) {
        MentionsParts(unfolded, ps[1..], name);
      } else {
        EndlessGoesOn(penv, name);
        var u :| Mentions(penv[name], u) && Endless(penv, u);
        MentionsParts(unfolded, ps[1..], u);
      }
    }
  }

  /** One turn on pieces that begin with a variable gives pieces again. */
  lemma PiecesTurn(before: string, ps: seq<Piece>, penv: PieceEnvironment, c: char)
    requires Opening(c) && c !in before && AllGood(ps, c) && GoodValues(penv, c)
    requires ps != [] && ps[0].Variable?
    ensures var s, next := before + Written(ps), Unfolded(ps[0], penv) + ps[1..];
      && Find(s).Hole? && Filled(Find(s), EnvOf(penv)) == before + Written(next)
      && AllGood(next, c)
  {
    hide Find, Filled, GoodValues, Unfolded, Piece.Value, EnvOf, Piece.Written, Written, AllGood;
    var p, rest := ps[0], Written(ps[1..]);
    var unfolded := Unfolded(p, penv);
    GoodParts(ps, unfolded, c);
    WrittenFirst(before, ps);
    VariableTurn(before, p, rest, EnvOf(penv), c);
    UnfoldedIs(p, penv, c);
    WrittenAppend(unfolded, ps[1..]);
    assert before + Written(unfolded) + rest == before + (Written(unfolded) + rest);
  }

  lemma WrittenFirst(before: string, ps: seq<Piece>)
    requires ps != []
    ensures before + Written(ps) == before + ps[0].Written() + Written(ps[1..])
  {
    hide Piece.Written;
  }

  lemma GoodParts(ps: seq<Piece>, qs: seq<Piece>, c: char)
    requires AllGood(ps, c) && ps != []
    ensures ps[0].Good(c) && AllGood(ps[1..], c) && (AllGood(qs, c) ==> AllGood(qs + ps[1..], c))
  {
    hide Piece.Good;
  }

  lemma {:induction false} NeverEnds(before: string, ps: seq<Piece>, penv: PieceEnvironment, c: char, n: nat)
    requires Opening(c) && c !in before && AllGood(ps, c) && GoodValues(penv, c)
    requires MentionsEndless(penv, ps)
    ensures !EndsIn(before + Written(ps), EnvOf(penv), n)
    decreases n, |ps|
  {
    hide Find, Filled, GoodValues, MentionsEndless, Unfolded, EnvOf, Piece.Value, Piece.Token;
    if ps == [] {
      NothingIsEndless(penv);
    } else {
      EndlessStays(penv, ps);
      if ps[0].Literal? {
        assert before + Written(ps) == before + ps[0].text + Written(ps[1..]);
        NeverEnds(before + ps[0].text, ps[1..], penv, c, n);
      } else {
        PiecesTurn(before, ps, penv, c);
        hide Written, AllGood;
        if n > 0 {
          NeverEnds(before, Unfolded(ps[0], penv) + ps[1..], penv, c, n - 1);
        }
      }
    }
  }

  lemma NothingIsEndless(penv: PieceEnvironment)
    ensures !MentionsEndless(penv, [])
  {
  }

  /** n turns lead from s to t. */
  ghost predicate Leads(s: string, t: string, env: Environment, n: nat)
    decreases n
  {
    if n == 0 then s == t else Find(s).Hole? && Leads(Filled(Find(s), env), t, env, n - 1)
  }

  lemma {:induction false} LeadsOn(s: string, t: string, u: string, env: Environment, m: nat, n: nat)
    ensures Leads(s, t, env, m) && Leads(t, u, env, n) ==> Leads(s, u, env, m + n)
    decreases m
  {
    hide Find, Filled, Leads;
    LeadsFirst(s, t, env, m);
    if m > 0 && Leads(s, t, env, m) && Leads(t, u, env, n) {
      var next := Filled(Find(s), env);
      LeadsOn(next, t, u, env, m - 1, n);
      OneTurnLeads(s, next, u, env, m - 1 + n);
    }
  }

  lemma LeadsFirst(s: string, t: string, env: Environment, m: nat)
    ensures Leads(s, t, env, m) && m == 0 ==> s == t
    ensures Leads(s, t, env, m) && m > 0 ==> Find(s).Hole? && Leads(Filled(Find(s), env), t, env, m - 1)
  {
    hide Find, Filled;
  }

  // ---------- Where it ends ----------

  ghost predicate LeadsTo(penv: PieceEnvironment, ps: seq<Piece>, name: string) {
    exists a, k: nat :: Mentions(ps, a) && Reaches(penv, a, name, k)
  }

  /** The set variables that ps leads to. */
  ghost function Ahead(penv: PieceEnvironment, ps: seq<Piece>): set<string> {
    set name | name in penv && LeadsTo(penv, ps, name)
  }

  lemma EndlessBefore(penv: PieceEnvironment, name: string, a: string)
    requires name in penv && Mentions(penv[name], a) && Endless(penv, a)
    ensures Endless(penv, name)
  {
    hide Mentions;
    var b, k: nat :| Reaches(penv, a, b, k) && ReachesItself(penv, b);
    assert Reaches(penv, name, b, k + 1);
  }

  lemma LessAheadOfRest(penv: PieceEnvironment, ps: seq<Piece>)
    requires ps != [] && !MentionsEndless(penv, ps)
    ensures !MentionsEndless(penv, ps[1..]) && |Ahead(penv, ps[1..])| <= |Ahead(penv, ps)|
  {
    hide Endless, Reaches;
    forall a | Mentions(ps[1..], a) ensures Mentions(ps, a) {
      MentionsFirst(ps, a);
    }
    SubsetSize(Ahead(penv, ps[1..]), Ahead(penv, ps));
  }

  /** A variable that does not reach itself is no longer ahead of its own value. */
  lemma LessAheadInside(penv: PieceEnvironment, ps: seq<Piece>)
    requires ps != [] && ps[0].Variable? && ps[0].name in penv && !MentionsEndless(penv, ps)
    ensures !MentionsEndless(penv, penv[ps[0].name]) && |Ahead(penv, penv[ps[0].name])| < |Ahead(penv, ps)|
  {
    var name := ps[0].name;
    var inside := Ahead(penv, penv[name]);
    MentionsFirst(ps, name);
    assert Reaches(penv, name, name, 0);
    assert !Endless(penv, name) && !ReachesItself(penv, name);
    forall n | n in inside ensures n in Ahead(penv, ps) && n != name {
      var a, k: nat :| Mentions(penv[name], a) && Reaches(penv, a, n, k);
      assert Reaches(penv, name, n, k + 1);
    }
    forall a | Mentions(penv[name], a) ensures !Endless(penv, a) {
      if Endless(penv, a) {
        EndlessBefore(penv, name, a);
      }
    }
    SubsetSize(inside + {name}, Ahead(penv, ps));
  }

  /** The recursive unfolding of pieces: every set variable is its value's unfolding, every
      other its default. */
  ghost function Unfolding(penv: PieceEnvironment, ps: seq<Piece>): string
    requires !MentionsEndless(penv, ps)
    decreases |Ahead(penv, ps)|, |ps|
  {
    if ps == [] then "" else
    (LessAheadOfRest(penv, ps); FirstPart(penv, ps) + Unfolding(penv, ps[1..]))
  }

  ghost function FirstPart(penv: PieceEnvironment, ps: seq<Piece>): string
    requires ps != [] && !MentionsEndless(penv, ps)
    decreases |Ahead(penv, ps)|, |ps|, 0
  {
    if ps[0].Literal? then ps[0].text
    else if ps[0].name !in penv then ps[0].Default()
    else (LessAheadInside(penv, ps); Unfolding(penv, penv[ps[0].name]))
  }

  lemma PartsOfUnfolding(penv: PieceEnvironment, ps: seq<Piece>)
    requires ps != [] && !MentionsEndless(penv, ps)
    ensures !MentionsEndless(penv, ps[1..])
    ensures Unfolding(penv, ps) == FirstPart(penv, ps) + Unfolding(penv, ps[1..])
  {
    hide MentionsEndless, Ahead;
    LessAheadOfRest(penv, ps);
  }

  /** Pieces from which no set variable reaches itself are unfolded by turns of the loop,
      whatever stands before and behind them. */
  lemma {:induction false} UnfoldsAll(before: string, ps: seq<Piece>, rest: string, penv: PieceEnvironment, c: char)
    returns (n: nat)
    requires Opening(c) && c !in before && AllGood(ps, c) && GoodValues(penv, c) && !MentionsEndless(penv, ps)
    ensures c !in Unfolding(penv, ps)
    ensures Leads(before + Written(ps) + rest, before + Unfolding(penv, ps) + rest, EnvOf(penv), n)
    decreases |Ahead(penv, ps)|, |ps|
  {
    var env := EnvOf(penv);
    if ps == [] {
      hide Leads;
      n := 0;
      LeadsNowhere(before + "" + rest, env);
    } else {
      hide *;
      LessAheadOfRest(penv, ps);
      var first, last, more := FirstPart(penv, ps), Unfolding(penv, ps[1..]), Written(ps[1..]);
      PartsOfUnfolding(penv, ps);
      GoodParts(ps, [], c);
      var k := FirstUnfolds(before, ps, more + rest, penv, c);
      var m := UnfoldsAll(before + first, ps[1..], rest, penv, c);
      WrittenFirst(before, ps);
      Rejoined(before, ps[0].Written(), more, rest);
      Rejoined(before, first, more, rest);
      Rejoined(before, first, last, rest);
      LeadsOn(before + Written(ps) + rest, before + first + more + rest, before + first + last + rest, env, k, m);
      n := k + m;
    }
  }

  lemma Rejoined(a: string, b: string, c: string, d: string)
    ensures a + b + (c + d) == a + b + c + d == a + (b + c) + d
  {
  }

  lemma FirstUnfolds(before: string, ps: seq<Piece>, rest: string, penv: PieceEnvironment, c: char)
    returns (n: nat)
    requires Opening(c) && c !in before && AllGood(ps, c) && GoodValues(penv, c)
    requires ps != [] && !MentionsEndless(penv, ps)
    ensures c !in FirstPart(penv, ps)
    ensures Leads(before + ps[0].Written() + rest, before + FirstPart(penv, ps) + rest, EnvOf(penv), n)
    decreases |Ahead(penv, ps)|, |ps|, 0
  {
    hide Find, Filled, MentionsEndless, Ahead, Piece.Token, Leads, Unfolding, Written;
    var p := ps[0];
    var env := EnvOf(penv);
    var s, u := before + p.Written() + rest, before + FirstPart(penv, ps) + rest;
    if p.Literal? {
      n := 0;
      LeadsNowhere(u, env);
    } else {
      var t := before + p.Value(env) + rest;
      VariableTurn(before, p, rest, env, c);
      var m := 0;
      if p.name in penv {
        LessAheadInside(penv, ps);
        m := UnfoldsAll(before, penv[p.name], rest, penv, c);
      } else {
        DefaultIsClean(p, env, c);
        LeadsNowhere(t, env);
      }
      OneTurnLeads(s, t, u, env, m);
      n := m + 1;
    }
  }

  lemma DefaultIsClean(p: Piece, env: Environment, c: char)
    requires p.Variable? && p.Good(c) && p.name !in env
    ensures c !in p.Value(env)
  {
  }

  lemma LeadsNowhere(s: string, env: Environment)
    ensures Leads(s, s, env, 0)
  {
  }

  lemma OneTurnLeads(s: string, t: string, u: string, env: Environment, m: nat)
    ensures Find(s).Hole? && Filled(Find(s), env) == t && Leads(t, u, env, m) ==> Leads(s, u, env, m + 1)
  {
    hide Find, Filled;
  }

  lemma {:induction false} LeadsExpand(s: string, t: string, env: Environment, n: nat)
    requires Leads(s, t, env, n) && Ends(t, env)
    ensures Ends(s, env) && Expand(s, env) == Expand(t, env)
    decreases n
  {
    hide Find, Filled, Ends;
    if n > 0 {
      TurnCounts(s, env);
      LeadsExpand(Filled(Find(s), env), t, env, n - 1);
    }
  }

  /** Where no set variable reaches itself the loop ends, and with the recursive unfolding of
      the pieces. */
  lemma UnfoldingMeans(ps: seq<Piece>, penv: PieceEnvironment, c: char)
    requires Opening(c) && AllGood(ps, c) && GoodValues(penv, c) && !MentionsEndless(penv, ps)
    ensures Ends(Written(ps), EnvOf(penv)) && Expand(Written(ps), EnvOf(penv)) == Ok(Unfolding(penv, ps))
  {
    hide MentionsEndless, EnvOf, Leads, AllGood, GoodValues, Unfolding, Ends, Expand;
    var text := Unfolding(penv, ps);
    var n := UnfoldsAll("", ps, "", penv, c);
    assert "" + Written(ps) + "" == Written(ps) && "" + text + "" == text;
    NothingToExpand(text, EnvOf(penv), c);
    LeadsExpand(Written(ps), text, EnvOf(penv), n);
  }

  /** For values and texts made of pieces: the loop ends exactly when no set variable that can
      be reached from the text reaches itself. */
  lemma EndsIff(ps: seq<Piece>, penv: PieceEnvironment, c: char)
    requires Opening(c) && AllGood(ps, c) && GoodValues(penv, c)
    ensures Ends(Written(ps), EnvOf(penv)) <==> !MentionsEndless(penv, ps)
  {
    hide Find, Filled, MentionsEndless, EnvOf, Leads, EndsIn, AllGood, GoodValues;
    assert "" + Written(ps) == Written(ps) && "" + Written(ps) + "" == Written(ps);
    if MentionsEndless(penv, ps) {
      forall n: nat ensures !EndsIn(Written(ps), EnvOf(penv), n) {
        NeverEnds("", ps, penv, c, n);
      }
    } else {
      UnfoldingMeans(ps, penv, c);
    }
  }

  lemma {:induction false} UnfoldsToValues(ps: seq<Piece>, penv: PieceEnvironment)
    requires !MentionsEndless(penv, ps)
    requires forall name | name in penv :: exists t :: penv[name] == [Literal(t)]
    ensures Unfolding(penv, ps) == ValueOf(ps, EnvOf(penv))
    decreases |ps|
  {
    hide MentionsEndless, Ahead;
    if ps != [] {
      LessAheadOfRest(penv, ps);
      UnfoldsToValues(ps[1..], penv);
      var p := ps[0];
      if p.Variable? && p.name in penv {
        LessAheadInside(penv, ps);
        var t :| penv[p.name] == [Literal(t)];
        PlainUnfolding(penv, t);
      }
    }
  }

  lemma PlainUnfolding(penv: PieceEnvironment, t: string)
    ensures !MentionsEndless(penv, [Literal(t)]) && Unfolding(penv, [Literal(t)]) == t == Written([Literal(t)])
  {
    assert [Literal(t)][1..] == [] && t + "" == t;
  }

  /** In particular, for values without the character: a text of plain pieces and placeholders
      becomes the pieces with every variable replaced by its value or default. */
  lemma ExpansionMeans(ps: seq<Piece>, env: Environment, c: char)
    requires Opening(c) && Tame(env, c) && AllGood(ps, c)
    ensures Ends(Written(ps), env) && Expand(Written(ps), env) == Ok(ValueOf(ps, env))
  {
    hide AllGood, Ends, Expand, Unfolding, Written, Endless;
    var penv: PieceEnvironment := map name | name in env :: [Literal(env[name])];
    forall name | name in env ensures Written(penv[name]) == env[name] && AllGood(penv[name], c) {
      PlainUnfolding(penv, env[name]);
      PlainIsGood(env[name], c);
    }
    forall name | Endless(penv, name) ensures false {
      EndlessGoesOn(penv, name);
      PlainUnfolding(penv, env[name]);
    }
    assert EnvOf(penv) == env;
    UnfoldingMeans(ps, penv, c);
    UnfoldsToValues(ps, penv);
  }

  lemma PlainIsGood(t: string, c: char)
    ensures AllGood([Literal(t)], c) <==> c !in t
  {
    assert [Literal(t)][0] == Literal(t);
  }

  // ---------- Defaults within defaults ----------

  /** A default may itself be a placeholder, but the loop closes the outer one at the first
      brace: when the outer variable is set, a brace is left behind. */
  lemma NestedDefault(outer: string, inner: Piece, env: Environment, c: char)
    requires Opening(c) && Tame(env, c) && inner.Variable? && inner.Good(c)
    requires ':' !in outer && '}' !in outer
    ensures var s := "${" + outer + ":" + inner.Written() + "}";
      Ends(s, env) && Expand(s, env) == Ok(if outer in env then env[outer] + "}" else inner.Value(env))
  {
    hide Find, Meaning, Tame, Ends, Piece.Token, Piece.Value, Piece.Good;
    TokenMeans(inner, env, c);
    var open := "${" + inner.Token();
    var token := outer + ":" + open;
    NestedToken(outer, open, env);
    var s := "${" + outer + ":" + inner.Written() + "}";
    Regroup("${", outer, ":", open, "}");
    TameEnds(s, env, c);
    FindsIt("", token, "}", c);
    TurnCounts(s, env);
    assert Expand(s, env) == Expand("" + Meaning(token, env) + "}", env);
    hide Expand;
    if outer in env {
      assert "" + env[outer] + "}" == env[outer] + "}";
      assert c !in env[outer] by {
        TameAt(env, outer, c);
      }
      NothingToExpand(env[outer] + "}", env, c);
    } else {
      assert "" + open + "}" == inner.Written();
      ExpansionMeans([inner], env, c);
      OnePiece(inner, env);
    }
  }

  lemma Regroup(open: string, outer: string, colon: string, inner: string, close: string)
    ensures open + outer + colon + (inner + close) + close == "" + (open + (outer + colon + inner) + close) + close
  {
  }

  lemma TameAt(env: Environment, name: string, c: char)
    requires Tame(env, c) && name in env
    ensures c !in env[name]
  {
  }

  lemma NestedToken(outer: string, open: string, env: Environment)
    requires ':' !in outer
    ensures Meaning(outer + ":" + open, env) == if outer in env then env[outer] else open
  {
    var token := outer + ":" + open;
    FoundAfter(outer, ":", open);
    assert token[..|outer|] == outer && token[|outer| + 1..] == open;
  }

  lemma OnePiece(p: Piece, env: Environment)
    ensures Written([p]) == p.Written() && ValueOf([p], env) == p.Value(env)
  {
    assert [p][1..] == [];
    assert p.Written() + "" == p.Written() && p.Value(env) + "" == p.Value(env);
  }
}
