/** The complexity score of mono/swarm/complexity.py, over real numbers. */
module Complexity {
  import opened RealArithmetic
  import opened Sets
  import opened Text
  import opened Wrappers

  // ---------- One file name ----------

  const LANGUAGES: map<string, string> := map[
    ".go" := "go", ".py" := "python", ".ts" := "typescript", ".tsx" := "typescript",
    ".js" := "javascript", ".jsx" := "javascript", ".java" := "java", ".rs" := "rust",
    ".c" := "c", ".h" := "c", ".cpp" := "cpp", ".cc" := "cpp", ".hpp" := "cpp",
    ".rb" := "ruby", ".sql" := "sql", ".proto" := "protobuf",
    ".yaml" := "yaml", ".yml" := "yaml", ".json" := "json",
    ".md" := "markdown", ".mdx" := "markdown", ".css" := "css", ".scss" := "css",
    ".html" := "html", ".sh" := "shell", ".bash" := "shell"
  ]

  const LANGUAGE_NAMES: set<string> := {
    "go", "python", "typescript", "javascript", "java", "rust", "c", "cpp", "ruby",
    "sql", "protobuf", "yaml", "json", "markdown", "css", "html", "shell"
  }

  function LastIndex(s: string, c: char): (r: Option<nat>)
    ensures r.Some? ==> r.value < |s| && s[r.value] == c && c !in s[r.value + 1..]
    ensures r.None? ==> c !in s
  {
    if s == "" then None
    else if s[|s| - 1] == c then Some(|s| - 1)
    else LastIndex(s[..|s| - 1], c)
  }

  function FileExt(path: string): string {
    match LastIndex(path, '.')
    case None => ""
    case Some(i) => if Contains(path[i..], "/") then "" else path[i..]
  }

  function Language(path: string): Option<string> {
    var ext := Lower(FileExt(path));
    if ext in LANGUAGES then Some(LANGUAGES[ext]) else None
  }

  /** The first two components of a path, where it has them. */
  function TopDir(path: string): Option<string> {
    match FirstIndex(path, "/")
    case None => None
    case Some(i) =>
      match FirstIndex(path[i + 1..], "/")
      case None => Some(path)
      case Some(j) => Some(path[..i + 1 + j])
  }

  lemma OneCharacter(s: string, c: char)
    ensures c !in s <==> FirstIndex(s, [c]).None?
    ensures forall i: nat :: OccursAt(s, [c], i) <==> i < |s| && s[i] == c
  {
    forall i: nat ensures OccursAt(s, [c], i) <==> i < |s| && s[i] == c {
      assert i < |s| ==> s[i..i + 1] == [s[i]];
    }
  }

  lemma LastIndexIs(s: string, c: char, i: nat)
    requires i < |s| && s[i] == c && c !in s[i + 1..]
    ensures LastIndex(s, c) == Some(i)
  {
  }

  /** The extension is what stands behind the last dot, with the dot; a dot in a directory is none. */
  lemma FileExtIs(stem: string, ext: string)
    requires '.' !in ext
    ensures FileExt(stem + "." + ext) == if '/' in ext then "" else "." + ext
    ensures FileExt(ext) == ""
  {
    var path := stem + "." + ext;
    assert path[|stem|] == '.' && path[|stem| + 1..] == ext && path[|stem|..] == "." + ext;
    LastIndexIs(path, '.', |stem|);
    OneCharacter("." + ext, '/');
  }

  /** The directory that counts is made of the first two components. */
  lemma TopDirIs(a: string, b: string, rest: string)
    requires '/' !in a && '/' !in b
    ensures TopDir(a) == None && TopDir(a + "/" + b) == Some(a + "/" + b)
    ensures TopDir(a + "/" + b + "/" + rest) == Some(a + "/" + b)
  {
    OneCharacter(a, '/');
    OneCharacter(b, '/');
    FirstSlash(a, b);
    FirstSlash(a, b + "/" + rest);
    FirstSlash(b, rest);
    assert a + "/" + b + "/" + rest == a + "/" + (b + "/" + rest);
    assert (a + "/" + b)[|a| + 1..] == b && (a + "/" + (b + "/" + rest))[|a| + 1..] == b + "/" + rest;
    assert (a + "/" + (b + "/" + rest))[..|a| + 1 + |b|] == a + "/" + b;
  }

  lemma FirstSlash(a: string, rest: string)
    requires '/' !in a
    ensures FirstIndex(a + "/" + rest, "/") == Some(|a|)
  {
    var s := a + "/" + rest;
    OneCharacter(s, '/');
    assert s[|a|] == '/' && forall i | 0 <= i < |a| :: s[i] == a[i];
  }

  predicate ContainsAny(s: string, words: seq<string>) {
    exists i | 0 <= i < |words| :: Contains(s, words[i])
  }

  predicate IsTest(path: string) {
    ContainsAny(Lower(path), ["_test.", ".test.", ".spec.", "/test/", "/tests/", "__tests__/"])
  }

  predicate IsMigration(path: string) {
    ContainsAny(Lower(path), ["migration", "migrate"])
  }

  predicate IsApi(path: string) {
    ContainsAny(Lower(path), ["handler", "route", "endpoint", "api", "proto", "schema"])
  }

  predicate IsUi(path: string) {
    ContainsAny(Lower(path), ["component", "page.tsx", ".css", ".scss", "/web/", "/ui/"])
  }

  predicate IsSecurity(summary: string) {
    ContainsAny(Lower(summary), ["auth", "security", "permission", "rbac", "jwt", "token",
      "encrypt", "credential", "secret", "vulnerability", "cve"])
  }

  // ---------- Signals ----------

  datatype Plan = Plan(files: seq<string>, stepCount: nat, summary: string)

  datatype Signals = Signals(fileCount: nat, stepCount: nat, descriptionLength: nat, languages: set<string>,
    testFiles: nat, hasMigrations: bool, crossPackage: bool, hasApiChanges: bool, hasSecurityImpact: bool,
    hasUiChanges: bool)

  function LanguagesOf(files: seq<string>): set<string> {
    set f | f in files && Language(f).Some? :: Language(f).value
  }

  function TopDirsOf(files: seq<string>): set<string> {
    set f | f in files && TopDir(f).Some? :: TopDir(f).value
  }

  function TestCount(files: seq<string>): nat {
    if files == [] then 0
    else TestCount(files[..|files| - 1]) + if IsTest(files[|files| - 1]) then 1 else 0
  }

  predicate Any(files: seq<string>, property: string -> bool) {
    exists f | f in files :: property(f)
  }

  function SignalsOf(p: Plan): Signals {
    Signals(|p.files|, p.stepCount, |p.summary|, LanguagesOf(p.files), TestCount(p.files),
      Any(p.files, IsMigration),
      |TopDirsOf(p.files)| >= 3,
      Any(p.files, IsApi),
      IsSecurity(p.summary),
      Any(p.files, IsUi))
  }

  lemma NoFiles()
    ensures LanguagesOf([]) == {} && TopDirsOf([]) == {} && TestCount([]) == 0
    ensures !Any([], IsMigration) && !Any([], IsApi) && !Any([], IsUi)
  {
  }

  lemma AnyOfOneMore(files: seq<string>, f: string, property: string -> bool)
    ensures Any(files + [f], property) <==> Any(files, property) || property(f)
  {
    if Any(files, property) {
      var g :| g in files && property(g);
      assert g in files + [f];
    }
    assert f in files + [f];
  }

  lemma OneMoreFile(files: seq<string>, f: string)
    ensures LanguagesOf(files + [f]) == LanguagesOf(files) + if Language(f).Some? then {Language(f).value} else {}
    ensures TopDirsOf(files + [f]) == TopDirsOf(files) + if TopDir(f).Some? then {TopDir(f).value} else {}
    ensures TestCount(files + [f]) == TestCount(files) + if IsTest(f) then 1 else 0
    ensures Any(files + [f], IsMigration) <==> Any(files, IsMigration) || IsMigration(f)
    ensures Any(files + [f], IsApi) <==> Any(files, IsApi) || IsApi(f)
    ensures Any(files + [f], IsUi) <==> Any(files, IsUi) || IsUi(f)
  {
    hide IsTest, IsMigration, IsApi, IsUi, Language, TopDir, Any;
    assert (files + [f])[..|files|] == files;
    AnyOfOneMore(files, f, IsMigration);
    AnyOfOneMore(files, f, IsApi);
    AnyOfOneMore(files, f, IsUi);
  }

  /** What each signal says about the plan. */
  ghost predicate AreSignals(s: Signals, p: Plan) {
    && s.fileCount == |p.files| && s.stepCount == p.stepCount && s.descriptionLength == |p.summary|
    && (forall l :: l in s.languages <==> exists f :: f in p.files && Language(f) == Some(l))
    && s.testFiles == |set k: nat | k < |p.files| && IsTest(p.files[k])|
    && (s.hasMigrations <==> exists f :: f in p.files && IsMigration(f))
    && (s.hasApiChanges <==> exists f :: f in p.files && IsApi(f))
    && (s.hasUiChanges <==> exists f :: f in p.files && IsUi(f))
    && (s.hasSecurityImpact <==> IsSecurity(p.summary))
    && (s.crossPackage <==> |set f | f in p.files && TopDir(f).Some? :: TopDir(f).value| >= 3)
  }

  lemma {:induction false} TestCountIsSize(files: seq<string>)
    ensures TestCount(files) == |set k: nat | k < |files| && IsTest(files[k])|
  {
    hide IsTest;
    var all := set k: nat | k < |files| && IsTest(files[k]);
    if files == [] {
      assert all == {};
    } else {
      var n := |files| - 1;
      TestCountIsSize(files[..n]);
      var most := set k: nat | k < |files[..n]| && IsTest(files[..n][k]);
      assert all == if IsTest(files[n]) then most + {n} else most;
    }
  }

  lemma SignalsMean(p: Plan)
    ensures AreSignals(SignalsOf(p), p)
  {
    hide IsTest, IsMigration, IsApi, IsUi, IsSecurity, Language, TopDir;
    TestCountIsSize(p.files);
  }

  lemma SignalsAre(p: Plan)
    ensures SignalsOf(p) == Signals(|p.files|, p.stepCount, |p.summary|, LanguagesOf(p.files), TestCount(p.files),
      Any(p.files, IsMigration), |TopDirsOf(p.files)| >= 3, Any(p.files, IsApi), IsSecurity(p.summary),
      Any(p.files, IsUi))
  {
  }

  method ExtractSignals(p: Plan) returns (s: Signals)
    ensures s == SignalsOf(p) && AreSignals(s, p)
  {
    hide *;
    SignalsMean(p);
    NoFiles();
    var languages: set<string>, topDirs: set<string>, testFiles: nat := {}, {}, 0;
    var migrations, api, ui := false, false, false;
    for i := 0 to |p.files|
      invariant languages == LanguagesOf(p.files[..i]) && topDirs == TopDirsOf(p.files[..i])
      invariant testFiles == TestCount(p.files[..i])
      invariant migrations == Any(p.files[..i], IsMigration)
      invariant api == Any(p.files[..i], IsApi)
      invariant ui == Any(p.files[..i], IsUi)
    {
      var f := p.files[i];
      assert p.files[..i + 1] == p.files[..i] + [f];
      OneMoreFile(p.files[..i], f);
      if Language(f).Some? {
        languages := languages + {Language(f).value};
      }
      if IsTest(f) {
        testFiles := testFiles + 1;
      }
      if IsMigration(f) {
        migrations := true;
      }
      if IsApi(f) {
        api := true;
      }
      if IsUi(f) {
        ui := true;
      }
      if TopDir(f).Some? {
        topDirs := topDirs + {TopDir(f).value};
      }
    }
    assert p.files[..|p.files|] == p.files;
    s := Signals(|p.files|, p.stepCount, |p.summary|, languages, testFiles, migrations, |topDirs| >= 3, api,
      IsSecurity(p.summary), ui);
    SignalsAre(p);
  }

  // ---------- Score ----------

  function Sigmoid(value: real, midpoint: real): real
    requires midpoint > 0.0
  {
    if value <= 0.0 then 0.0 else value / (value + midpoint)
  }

  function Weight(flag: bool, weight: real): real {
    if flag then weight else 0.0
  }

  function FlagScore(s: Signals): real {
    Weight(s.hasMigrations, 0.15) + Weight(s.crossPackage, 0.12) + Weight(s.hasApiChanges, 0.10)
    + Weight(s.hasSecurityImpact, 0.10) + Weight(s.hasUiChanges, 0.05)
    + 0.03 * (if s.testFiles < 3 then s.testFiles else 3) as real
  }

  function Min(a: real, b: real): real {
    if a <= b then a else b
  }

  function Raw(s: Signals): real {
    0.30 * Sigmoid(s.fileCount as real, 8.0)
    + 0.25 * Sigmoid(s.stepCount as real, 6.0)
    + 0.10 * Sigmoid(s.descriptionLength as real, 300.0)
    + 0.10 * Sigmoid(|s.languages| as real, 2.0)
    + 0.25 * Min(FlagScore(s), 0.50)
  }

  function Score(s: Signals): real {
    if Min(1.0, Raw(s)) < 0.0 then 0.0 else Min(1.0, Raw(s))
  }

  /** x is the share of v in v + midpoint: 0 for nothing, one half at the midpoint. */
  ghost predicate IsShare(x: real, v: nat, midpoint: real) {
    x * (v as real + midpoint) == v as real
  }

  /** The score in terms of the signals, without any clamp. */
  ghost predicate IsScore(score: real, s: Signals) {
    exists files, steps, text, languages ::
      && IsShare(files, s.fileCount, 8.0) && IsShare(steps, s.stepCount, 6.0)
      && IsShare(text, s.descriptionLength, 300.0) && IsShare(languages, |s.languages|, 2.0)
      && var flags :=
           (if s.hasMigrations then 0.15 else 0.0) + (if s.crossPackage then 0.12 else 0.0)
           + (if s.hasApiChanges then 0.10 else 0.0) + (if s.hasSecurityImpact then 0.10 else 0.0)
           + (if s.hasUiChanges then 0.05 else 0.0) + 0.03 * (if s.testFiles < 3 then s.testFiles else 3) as real;
         score == 0.30 * files + 0.25 * steps + 0.10 * text + 0.10 * languages
           + 0.25 * (if flags <= 0.50 then flags else 0.50)
  }

  lemma SigmoidIsShare(v: nat, midpoint: real)
    requires midpoint > 0.0
    ensures IsShare(Sigmoid(v as real, midpoint), v, midpoint)
  {
  }

  lemma ScoreMeans(s: Signals)
    ensures IsScore(Score(s), s)
  {
    hide Sigmoid, IsShare;
    SigmoidIsShare(s.fileCount, 8.0);
    SigmoidIsShare(s.stepCount, 6.0);
    SigmoidIsShare(s.descriptionLength, 300.0);
    SigmoidIsShare(|s.languages|, 2.0);
    SigmoidBelowOne(s.fileCount as real, 8.0);
    SigmoidBelowOne(s.stepCount as real, 6.0);
    SigmoidBelowOne(s.descriptionLength as real, 300.0);
    SigmoidBelowOne(|s.languages| as real, 2.0);
    assert Score(s) == Raw(s);
  }

  method ComputeComplexityScore(s: Signals) returns (score: real)
    ensures score == Score(s) && IsScore(score, s)
  {
    ScoreMeans(s);
    hide Sigmoid, IsScore;
    var flagScore := 0.0;
    if s.hasMigrations {
      flagScore := flagScore + 0.15;
    }
    if s.crossPackage {
      flagScore := flagScore + 0.12;
    }
    if s.hasApiChanges {
      flagScore := flagScore + 0.10;
    }
    if s.hasSecurityImpact {
      flagScore := flagScore + 0.10;
    }
    if s.hasUiChanges {
      flagScore := flagScore + 0.05;
    }
    if s.testFiles > 0 {
      flagScore := flagScore + 0.03 * (if s.testFiles < 3 then s.testFiles else 3) as real;
    }
    var raw := 0.30 * Sigmoid(s.fileCount as real, 8.0) + 0.25 * Sigmoid(s.stepCount as real, 6.0)
      + 0.10 * Sigmoid(s.descriptionLength as real, 300.0) + 0.10 * Sigmoid(|s.languages| as real, 2.0)
      + 0.25 * Min(flagScore, 0.50);
    score := if Min(1.0, raw) < 0.0 then 0.0 else Min(1.0, raw);
  }

  datatype Label = Trivial | Small | Medium | Large | Critical

  function ComplexityLabel(score: real): (l: Label)
    ensures l.Trivial? <==> score < 0.15
    ensures l.Trivial? || l.Small? <==> score < 0.35
    ensures l.Trivial? || l.Small? || l.Medium? <==> score < 0.60
    ensures !l.Critical? <==> score < 0.80
  {
    if score < 0.15 then Trivial
    else if score < 0.35 then Small
    else if score < 0.60 then Medium
    else if score < 0.80 then Large
    else Critical
  }

  function Rank(l: Label): nat {
    match l case Trivial => 0 case Small => 1 case Medium => 2 case Large => 3 case Critical => 4
  }

  // ---------- Growing plans never score lower ----------

  predicate Below(s: Signals, t: Signals) {
    && s.fileCount <= t.fileCount && s.stepCount <= t.stepCount && s.descriptionLength <= t.descriptionLength
    && |s.languages| <= |t.languages| && s.testFiles <= t.testFiles
    && (s.hasMigrations ==> t.hasMigrations) && (s.crossPackage ==> t.crossPackage)
    && (s.hasApiChanges ==> t.hasApiChanges) && (s.hasSecurityImpact ==> t.hasSecurityImpact)
    && (s.hasUiChanges ==> t.hasUiChanges)
  }

  lemma SigmoidBelowOne(v: real, m: real)
    requires m > 0.0
    ensures 0.0 <= Sigmoid(v, m) < 1.0
  {
    if v > 0.0 {
      var q := v / (v + m);
      assert q * (v + m) == v;
      assert (1.0 - q) * (v + m) == m;
    }
  }

  lemma SigmoidGrows(a: real, b: real, m: real)
    requires m > 0.0 && a <= b
    ensures Sigmoid(a, m) <= Sigmoid(b, m)
  {
    SigmoidBelowOne(b, m);
    if a > 0.0 {
      OneMinus(a, a + m);
      OneMinus(b, b + m);
      Shrink(m, a + m, b + m);
    }
  }

  lemma ScoreGrows(s: Signals, t: Signals)
    requires Below(s, t)
    ensures Score(s) <= Score(t)
    ensures Rank(ComplexityLabel(Score(s))) <= Rank(ComplexityLabel(Score(t)))
  {
    hide Sigmoid;
    SigmoidGrows(s.fileCount as real, t.fileCount as real, 8.0);
    SigmoidGrows(s.stepCount as real, t.stepCount as real, 6.0);
    SigmoidGrows(s.descriptionLength as real, t.descriptionLength as real, 300.0);
    SigmoidGrows(|s.languages| as real, |t.languages| as real, 2.0);
    assert FlagScore(s) <= FlagScore(t);
  }

  lemma {:induction false} TestCountWithout(files: seq<string>, j: nat)
    requires j < |files|
    ensures TestCount(files) == TestCount(files[..j] + files[j + 1..]) + if IsTest(files[j]) then 1 else 0
  {
    hide IsTest;
    var last := |files| - 1;
    var without := files[..j] + files[j + 1..];
    if j == last {
      assert without == files[..last];
    } else {
      TestCountWithout(files[..last], j);
      assert without[..|without| - 1] == files[..last][..j] + files[..last][j + 1..];
    }
  }

  lemma TestCountSnoc(files: seq<string>)
    requires files != []
    ensures TestCount(files) == TestCount(files[..|files| - 1]) + if IsTest(files[|files| - 1]) then 1 else 0
  {
    hide IsTest;
  }

  lemma CancelOne(m: multiset<string>, n: multiset<string>, x: string)
    requires m + multiset{x} <= n + multiset{x}
    ensures m <= n
  {
    forall y ensures m[y] <= n[y] {
      assert (m + multiset{x})[y] <= (n + multiset{x})[y];
    }
  }

  lemma RemoveMatching(a: seq<string>, b: seq<string>) returns (j: nat)
    requires a != [] && multiset(a) <= multiset(b)
    ensures j < |b| && b[j] == a[|a| - 1]
    ensures multiset(a[..|a| - 1]) <= multiset(b[..j] + b[j + 1..])
  {
    var x, init := a[|a| - 1], a[..|a| - 1];
    assert a == init + [x];
    assert multiset(a) == multiset(init) + multiset{x};
    assert x in multiset(b);
    j :| 0 <= j < |b| && b[j] == x;
    assert b == b[..j] + [x] + b[j + 1..];
    assert multiset(b) == multiset(b[..j] + b[j + 1..]) + multiset{x};
    CancelOne(multiset(init), multiset(b[..j] + b[j + 1..]), x);
  }

  lemma {:induction false} TestCountGrows(a: seq<string>, b: seq<string>)
    requires multiset(a) <= multiset(b)
    ensures TestCount(a) <= TestCount(b) && |a| <= |b|
    decreases |a|
  {
    hide IsTest, TestCount;
    if a == [] {
      TestCountEmpty();
    } else {
      TestCountSnoc(a);
      var j := RemoveMatching(a, b);
      TestCountWithout(b, j);
      TestCountGrows(a[..|a| - 1], b[..j] + b[j + 1..]);
    }
  }

  lemma TestCountEmpty()
    ensures TestCount([]) == 0
  {
  }

  lemma SecurityGrows(summary: string, longer: string)
    requires summary <= longer
    ensures IsSecurity(summary) ==> IsSecurity(longer)
  {
    if !IsSecurity(summary) {
      return;
    }
    var words := ["auth", "security", "permission", "rbac", "jwt", "token",
      "encrypt", "credential", "secret", "vulnerability", "cve"];
    var a, b := Lower(summary), Lower(longer);
    var i :| 0 <= i < |words| && Contains(a, words[i]);
    var at := FirstIndex(a, words[i]).value;
    assert b[at..at + |words[i]|] == a[at..at + |words[i]|];
    assert OccursAt(b, words[i], at);
  }

  lemma MembersStay(a: seq<string>, b: seq<string>)
    requires multiset(a) <= multiset(b)
    ensures forall f | f in a :: f in b
  {
    forall f | f in a ensures f in b {
      assert multiset(a)[f] > 0 && multiset(a)[f] <= multiset(b)[f];
    }
  }

  /** More files in any order, more steps and a longer summary: nothing a plan gains lowers
      its score or its label. */
  lemma GrowingPlan(p: Plan, q: Plan)
    requires multiset(p.files) <= multiset(q.files) && p.stepCount <= q.stepCount && p.summary <= q.summary
    ensures Score(SignalsOf(p)) <= Score(SignalsOf(q))
    ensures Rank(ComplexityLabel(Score(SignalsOf(p)))) <= Rank(ComplexityLabel(Score(SignalsOf(q))))
  {
    hide IsTest, IsMigration, IsApi, IsUi, IsSecurity, Language, TopDir, Score, ComplexityLabel;
    TestCountGrows(p.files, q.files);
    MembersStay(p.files, q.files);
    SubsetSize(LanguagesOf(p.files), LanguagesOf(q.files));
    SubsetSize(TopDirsOf(p.files), TopDirsOf(q.files));
    SecurityGrows(p.summary, q.summary);
    ScoreGrows(SignalsOf(p), SignalsOf(q));
  }

  /** The order of the files does not matter at all. */
  lemma OrderIrrelevant(p: Plan, files: seq<string>)
    requires multiset(p.files) == multiset(files)
    ensures SignalsOf(p.(files := files)) == SignalsOf(p)
  {
    hide IsTest, IsMigration, IsApi, IsUi, IsSecurity, Language, TopDir;
    var q := p.(files := files);
    TestCountGrows(p.files, files);
    TestCountGrows(files, p.files);
    MembersStay(p.files, files);
    MembersStay(files, p.files);
    assert LanguagesOf(files) == LanguagesOf(p.files);
    assert TopDirsOf(files) == TopDirsOf(p.files);
  }

  // ---------- The clamp never binds ----------

  lemma NamesAreSeventeen()
    ensures |LANGUAGE_NAMES| <= 17
  {
  }

  lemma LanguageIsNamed(path: string)
    requires Language(path).Some?
    ensures Language(path).value in LANGUAGE_NAMES
  {
  }

  /** Every score of a plan lies below 0.775 + 0.1 * 17/19, so the score is the weighted sum. */
  lemma ClampNeverBinds(p: Plan)
    ensures Score(SignalsOf(p)) == Raw(SignalsOf(p))
    ensures 0.0 <= Score(SignalsOf(p)) < 0.775 + 0.1 * (17.0 / 19.0)
  {
    hide Sigmoid, Language, TopDir;
    var s := SignalsOf(p);
    SigmoidBelowOne(s.fileCount as real, 8.0);
    SigmoidBelowOne(s.stepCount as real, 6.0);
    SigmoidBelowOne(s.descriptionLength as real, 300.0);
    SigmoidBelowOne(|s.languages| as real, 2.0);
    forall f | f in p.files && Language(f).Some? ensures Language(f).value in LANGUAGE_NAMES {
      LanguageIsNamed(f);
    }
    SubsetSize(s.languages, LANGUAGE_NAMES);
    NamesAreSeventeen();
    SigmoidGrows(|s.languages| as real, 17.0, 2.0);
    assert Sigmoid(17.0, 2.0) == 17.0 / 19.0 by {
      SeventeenLanguages();
    }
  }

  lemma SeventeenLanguages()
    ensures Sigmoid(17.0, 2.0) == 17.0 / 19.0
  {
  }
}
