/** The evaluation matcher of mono/evals/scripts/metrics.py.

    Expected review comments are matched to actual ones greedily, in order. The methods
    below follow the source's loops. The functions say what those loops compute, and the
    lemmas say how good the greedy matching is: it is never worse than half of the best
    matching, and the same factor carries over to precision, recall and F1. */
module Matching {
  import opened Sets
  import opened Text
  import opened Wrappers

  // A key missing from the source's dictionaries is the default value of its field.
  datatype Comment = Comment(file: string, line: int, severity: string, category: string)

  datatype EvalResult = EvalResult(
    success: bool, expected: seq<Comment>, actual: seq<Comment>, tokensUsed: int)

  /** The counters of one result, or of all results so far. */
  datatype Tally = Tally(
    tp: int, fp: int, fn: int,
    locationCorrect: int, severityCorrect: int, categoryCorrect: int,
    criticalFound: int, criticalTotal: int,
    tokens: int, comments: int, successful: int)
  {
    function Plus(t: Tally): Tally {
      Tally(tp + t.tp, fp + t.fp, fn + t.fn,
            locationCorrect + t.locationCorrect, severityCorrect + t.severityCorrect,
            categoryCorrect + t.categoryCorrect,
            criticalFound + t.criticalFound, criticalTotal + t.criticalTotal,
            tokens + t.tokens, comments + t.comments, successful + t.successful)
    }
  }

  const ZERO := Tally(0, 0, 0, 0, 0, 0, 0, 0, 0, 0, 0)

  datatype Metrics = Metrics(
    precision: real, recall: real, f1: real,
    locationAccuracy: real, severityAccuracy: real, categoryAccuracy: real,
    criticalRecall: real, tokensPerComment: real,
    totalTests: int, counts: Tally)

  // ---------- One expected comment against the actual ones ----------

  function Gap(e: Comment, a: Comment): nat {
    if e.line >= a.line then e.line - a.line else a.line - e.line
  }

  predicate Near(e: Comment, a: Comment, tol: int) {
    e.file == a.file && Gap(e, a) <= tol
  }

  function Score(gap: nat, tol: int): real
    requires gap <= tol
  {
    1.0 - gap as real / (tol + 1) as real
  }

  predicate Compatible(e: Comment, a: Comment, tol: int, thr: real) {
    Near(e, a, tol) && Score(Gap(e, a), tol) >= thr
  }

  lemma ScoreOrder(g: nat, h: nat, tol: int)
    requires g <= tol && h <= tol
    ensures Score(g, tol) > 0.0
    ensures Score(g, tol) > Score(h, tol) <==> g < h
  {
    var d := (tol + 1) as real;
    assert (g as real) / d < 1.0;
    if g < h {
      assert (h as real) / d - (g as real) / d == (h - g) as real / d > 0.0;
    } else {
      assert (g as real) / d - (h as real) / d == (g - h) as real / d >= 0.0;
    }
  }

  /** The nearest unused actual comment among the first n, the earliest one on a tie. */
  ghost function Best(e: Comment, actual: seq<Comment>, used: set<nat>, tol: int, n: nat): (b: Option<nat>)
    requires n <= |actual|
    ensures b.None? ==> forall k: nat | k < n :: k in used || !Near(e, actual[k], tol)
    ensures b.Some? ==> b.value < n && b.value !in used && Near(e, actual[b.value], tol)
    ensures b.Some? ==> forall k: nat | k < n && k !in used && Near(e, actual[k], tol) ::
      Gap(e, actual[b.value]) <= Gap(e, actual[k])
      && (k < b.value ==> Gap(e, actual[b.value]) < Gap(e, actual[k]))
  {
    if n == 0 then None else
    var b := Best(e, actual, used, tol, n - 1);
    if n - 1 in used || !Near(e, actual[n - 1], tol) then b
    else if b.None? || Gap(e, actual[n - 1]) < Gap(e, actual[b.value]) then Some(n - 1)
    else b
  }

  method FindBest(e: Comment, actual: seq<Comment>, used: set<nat>, tol: int)
    returns (bestMatch: Option<nat>, bestScore: real)
    ensures bestMatch == Best(e, actual, used, tol, |actual|)
    ensures bestMatch.Some? ==> bestScore == Score(Gap(e, actual[bestMatch.value]), tol)
  {
    bestMatch, bestScore := None, 0.0;
    for j := 0 to |actual|
      invariant bestMatch == Best(e, actual, used, tol, j)
      invariant bestMatch.None? ==> bestScore == 0.0
      invariant bestMatch.Some? ==> bestScore == Score(Gap(e, actual[bestMatch.value]), tol)
    {
      if j in used {
        continue;
      }
      if e.file != actual[j].file {
        continue;
      }
      var lineDiff := Gap(e, actual[j]);
      if lineDiff > tol {
        continue;
      }
      var score := 1.0 - lineDiff as real / (tol + 1) as real;
      ScoreOrder(lineDiff, if bestMatch.Some? then Gap(e, actual[bestMatch.value]) else 0, tol);
      if score > bestScore {
        bestScore := score;
        bestMatch := Some(j);
      }
    }
  }

  // ---------- All comments of one result ----------

  /** What one more expected comment adds to the matching m. */
  ghost function GreedyStep(m: map<nat, nat>, i: nat, e: Comment, actual: seq<Comment>, tol: int, thr: real)
    : map<nat, nat>
  {
    var b := Best(e, actual, m.Values, tol, |actual|);
    if b.Some? && Score(Gap(e, actual[b.value]), tol) >= thr then m[i := b.value] else m
  }

  /** What the greedy loop has matched after the first n expected comments. */
  ghost function Greedy(expected: seq<Comment>, actual: seq<Comment>, tol: int, thr: real, n: nat): (m: map<nat, nat>)
    requires n <= |expected|
    ensures forall i | i in m :: i < n
  {
    if n == 0 then map[] else
    GreedyStep(Greedy(expected, actual, tol, thr, n - 1), n - 1, expected[n - 1], actual, tol, thr)
  }

  ghost predicate Injective(m: map<nat, nat>) {
    forall i, k | i in m && k in m && m[i] == m[k] :: i == k
  }

  /** Any one-to-one pairing of compatible comments, however it was found. */
  ghost predicate IsMatching(m: map<nat, nat>, expected: seq<Comment>, actual: seq<Comment>, tol: int, thr: real) {
    && Injective(m)
    && forall i | i in m :: i < |expected| && m[i] < |actual| && Compatible(expected[i], actual[m[i]], tol, thr)
  }

  ghost function Where(m: map<nat, nat>, p: (nat, nat) -> bool): set<nat> {
    set i | i in m && p(i, m[i])
  }

  lemma ExtendValues(m: map<nat, nat>, i: nat, j: nat)
    requires i !in m
    ensures m[i := j].Values == m.Values + {j}
  {
    var m' := m[i := j];
    forall v | v in m.Values + {j} ensures v in m'.Values {
      if v == j {
        assert m'[i] == j;
      } else {
        var k :| k in m && m[k] == v;
        assert m'[k] == v;
      }
    }
    forall v | v in m'.Values ensures v in m.Values + {j} {
      var k :| k in m' && m'[k] == v;
      assert k == i || m[k] == v;
    }
  }

  lemma ExtendCounts(m: map<nat, nat>, i: nat, j: nat)
    requires i !in m && j !in m.Values
    ensures m[i := j].Values == m.Values + {j}
    ensures |m[i := j]| == |m| + 1
    ensures |m[i := j].Values| == |m.Values| + 1
  {
    ExtendValues(m, i, j);
    assert m[i := j].Keys == m.Keys + {i};
  }

  lemma ExtendWhere(m: map<nat, nat>, i: nat, j: nat, p: (nat, nat) -> bool)
    requires i !in m
    ensures |Where(m[i := j], p)| == |Where(m, p)| + (if p(i, j) then 1 else 0)
  {
    var m' := m[i := j];
    assert forall k | k in m :: m'[k] == m[k];
    if p(i, j) {
      assert Where(m', p) == Where(m, p) + {i};
    } else {
      assert Where(m', p) == Where(m, p);
    }
  }

  /** The invariant of the greedy loop. */
  ghost predicate Sound(m: map<nat, nat>, expected: seq<Comment>, actual: seq<Comment>, tol: int, thr: real) {
    && IsMatching(m, expected, actual, tol, thr)
    && |m.Values| == |m|
    && forall j | j in m.Values :: j < |actual|
  }

  lemma StepSound(m: map<nat, nat>, i: nat, expected: seq<Comment>, actual: seq<Comment>, tol: int, thr: real)
    requires Sound(m, expected, actual, tol, thr)
    requires i < |expected| && i !in m
    ensures Sound(GreedyStep(m, i, expected[i], actual, tol, thr), expected, actual, tol, thr)
  {
    var b := Best(expected[i], actual, m.Values, tol, |actual|);
    if b.Some? && Score(Gap(expected[i], actual[b.value]), tol) >= thr {
      ExtendCounts(m, i, b.value);
      ExtendMatching(m, i, b.value, expected, actual, tol, thr);
    }
  }

  lemma {:induction false} GreedyIsSound(expected: seq<Comment>, actual: seq<Comment>, tol: int, thr: real, n: nat)
    requires n <= |expected|
    ensures Sound(Greedy(expected, actual, tol, thr, n), expected, actual, tol, thr)
  {
    hide Score;
    if n > 0 {
      GreedyIsSound(expected, actual, tol, thr, n - 1);
      StepSound(Greedy(expected, actual, tol, thr, n - 1), n - 1, expected, actual, tol, thr);
    }
  }

  lemma ExtendMatching(m: map<nat, nat>, i: nat, j: nat, expected: seq<Comment>, actual: seq<Comment>,
      tol: int, thr: real)
    requires IsMatching(m, expected, actual, tol, thr)
    requires i !in m && j !in m.Values
    requires i < |expected| && j < |actual| && Compatible(expected[i], actual[j], tol, thr)
    ensures IsMatching(m[i := j], expected, actual, tol, thr)
  {
    var m' := m[i := j];
    forall k, l | k in m' && l in m' && m'[k] == m'[l] ensures k == l {
      assert k != i ==> m'[k] in m.Values;
      assert l != i ==> m'[l] in m.Values;
    }
  }

  /** The greedy matching is maximal: no compatible pair is left with both ends free. */
  lemma {:induction false} GreedyIsMaximal(
    expected: seq<Comment>, actual: seq<Comment>, tol: int, thr: real, n: nat, i: nat, j: nat)
    requires i < n <= |expected| && j < |actual|
    requires Compatible(expected[i], actual[j], tol, thr)
    ensures i in Greedy(expected, actual, tol, thr, n) || j in Greedy(expected, actual, tol, thr, n).Values
  {
    var m := Greedy(expected, actual, tol, thr, n - 1);
    var b := Best(expected[n - 1], actual, m.Values, tol, |actual|);
    if i == n - 1 {
      if j !in m.Values {
        ScoreOrder(Gap(expected[i], actual[j]), Gap(expected[i], actual[b.value]), tol);
      } else {
        ExtendValues(m, n - 1, if b.Some? then b.value else 0);
      }
    } else {
      GreedyIsMaximal(expected, actual, tol, thr, n - 1, i, j);
      ExtendValues(m, n - 1, if b.Some? then b.value else 0);
    }
  }

  /** Actual comment j is compatible with expected comment i and not matched to an earlier one. */
  ghost predicate Open(m: map<nat, nat>, expected: seq<Comment>, actual: seq<Comment>, tol: int, thr: real,
      i: nat, j: nat)
  {
    && i < |expected| && j < |actual| && Compatible(expected[i], actual[j], tol, thr)
    && forall k: nat | k < i && k in m :: m[k] != j
  }

  /** Each expected comment in turn gets the nearest open one, the first of several, if there is any. */
  ghost predicate IsGreedy(m: map<nat, nat>, expected: seq<Comment>, actual: seq<Comment>, tol: int, thr: real, n: nat)
  {
    && (forall i | i in m :: i < n && Open(m, expected, actual, tol, thr, i, m[i]))
    && forall i: nat, j: nat | i < n && Open(m, expected, actual, tol, thr, i, j) ::
      && i in m && m[i] < |actual| && Gap(expected[i], actual[m[i]]) <= Gap(expected[i], actual[j])
      && (j < m[i] ==> Gap(expected[i], actual[m[i]]) < Gap(expected[i], actual[j]))
  }

  lemma {:induction false} GreedyIsGreedy(expected: seq<Comment>, actual: seq<Comment>, tol: int, thr: real, n: nat)
    requires n <= |expected|
    ensures IsGreedy(Greedy(expected, actual, tol, thr, n), expected, actual, tol, thr, n)
  {
    if n > 0 {
      var m, i := Greedy(expected, actual, tol, thr, n - 1), n - 1;
      GreedyIsGreedy(expected, actual, tol, thr, n - 1);
      StepIsGreedy(m, expected, actual, tol, thr, i);
    }
  }

  lemma OpenStays(m: map<nat, nat>, m': map<nat, nat>, expected: seq<Comment>, actual: seq<Comment>,
      tol: int, thr: real, i: nat, k: nat, j: nat)
    requires k <= i && forall l | l in m :: l < i
    requires m' == m || (i in m' && m' == m[i := m'[i]])
    ensures Open(m', expected, actual, tol, thr, k, j) <==> Open(m, expected, actual, tol, thr, k, j)
  {
    hide Compatible;
    assert forall l: nat | l < k :: (l in m' <==> l in m) && (l in m ==> m'[l] == m[l]);
  }

  lemma BestIsOpen(m: map<nat, nat>, expected: seq<Comment>, actual: seq<Comment>, tol: int, thr: real, i: nat)
    requires i < |expected| && forall k | k in m :: k < i
    ensures var b := Best(expected[i], actual, m.Values, tol, |actual|);
      var hit := b.Some? && Score(Gap(expected[i], actual[b.value]), tol) >= thr;
      && (hit ==> Open(m, expected, actual, tol, thr, i, b.value))
      && forall j: nat | Open(m, expected, actual, tol, thr, i, j) ::
        && hit && Gap(expected[i], actual[b.value]) <= Gap(expected[i], actual[j])
        && (j < b.value ==> Gap(expected[i], actual[b.value]) < Gap(expected[i], actual[j]))
  {
    hide Score;
    var b := Best(expected[i], actual, m.Values, tol, |actual|);
    forall j: nat | Open(m, expected, actual, tol, thr, i, j) ensures j !in m.Values && b.Some?
      && Score(Gap(expected[i], actual[b.value]), tol) >= thr
    {
      assert b.Some?;
      ScoreOrder(Gap(expected[i], actual[j]), Gap(expected[i], actual[b.value]), tol);
    }
  }

  lemma StepIsGreedy(m: map<nat, nat>, expected: seq<Comment>, actual: seq<Comment>, tol: int, thr: real, i: nat)
    requires i < |expected| && IsGreedy(m, expected, actual, tol, thr, i)
    ensures IsGreedy(GreedyStep(m, i, expected[i], actual, tol, thr), expected, actual, tol, thr, i + 1)
  {
    hide Score, Best, Gap;
    var m' := GreedyStep(m, i, expected[i], actual, tol, thr);
    BestIsOpen(m, expected, actual, tol, thr, i);
    forall k: nat, j: nat | k <= i ensures Open(m', expected, actual, tol, thr, k, j) <==>
      Open(m, expected, actual, tol, thr, k, j)
    {
      OpenStays(m, m', expected, actual, tol, thr, i, k, j);
    }
    hide Open;
  }

  /** And only one matching is greedy in this sense. */
  lemma {:induction false} GreedyIsOne(a: map<nat, nat>, b: map<nat, nat>, expected: seq<Comment>, actual: seq<Comment>,
      tol: int, thr: real, n: nat, i: nat)
    requires IsGreedy(a, expected, actual, tol, thr, n) && IsGreedy(b, expected, actual, tol, thr, n)
    ensures (i in a <==> i in b) && (i in a ==> a[i] == b[i])
  {
    forall k: nat | k < i ensures (k in a <==> k in b) && (k in a ==> a[k] == b[k]) {
      GreedyIsOne(a, b, expected, actual, tol, thr, n, k);
    }
    hide Compatible;
    if i in a {
      assert Open(b, expected, actual, tol, thr, i, a[i]);
    }
    if i in b {
      assert Open(a, expected, actual, tol, thr, i, b[i]);
    }
  }

  lemma {:induction false} ImageSize(keys: set<nat>, m: map<nat, nat>, target: set<nat>)
    requires Injective(m) && keys <= m.Keys
    requires forall i | i in keys :: m[i] in target
    ensures |keys| <= |target|
  {
    if keys != {} {
      var i :| i in keys;
      ImageSize(keys - {i}, m, target - {m[i]});
    }
  }

  /** The greedy matching has at least half as many pairs as any other matching. */
  lemma HalfOptimal(expected: seq<Comment>, actual: seq<Comment>, tol: int, thr: real, rival: map<nat, nat>)
    requires IsMatching(rival, expected, actual, tol, thr)
    ensures |rival| <= 2 * |Greedy(expected, actual, tol, thr, |expected|)|
  {
    var m := Greedy(expected, actual, tol, thr, |expected|);
    GreedyIsSound(expected, actual, tol, thr, |expected|);
    var shared := rival.Keys * m.Keys;
    var blocked := rival.Keys - m.Keys;
    forall i | i in blocked ensures rival[i] in m.Values {
      GreedyIsMaximal(expected, actual, tol, thr, |expected|, i, rival[i]);
    }
    ImageSize(blocked, rival, m.Values);
    SubsetSize(shared, m.Keys);
    assert rival.Keys == shared + blocked;
    assert |m.Keys| == |m| && |rival.Keys| == |rival|;
  }

  // ---------- The counters ----------

  predicate Critical(c: Comment) {
    Lower(c.severity) == "critical"
  }

  ghost function SameLine(expected: seq<Comment>, actual: seq<Comment>): (nat, nat) -> bool {
    (i: nat, j: nat) => i < |expected| && j < |actual| && expected[i].line == actual[j].line
  }

  ghost function SameSeverity(expected: seq<Comment>, actual: seq<Comment>): (nat, nat) -> bool {
    (i: nat, j: nat) => i < |expected| && j < |actual| && Lower(expected[i].severity) == Lower(actual[j].severity)
  }

  ghost function SameCategory(expected: seq<Comment>, actual: seq<Comment>): (nat, nat) -> bool {
    (i: nat, j: nat) => i < |expected| && j < |actual| && Lower(expected[i].category) == Lower(actual[j].category)
  }

  ghost function IsCritical(expected: seq<Comment>): (nat, nat) -> bool {
    (i: nat, j: nat) => i < |expected| && Critical(expected[i])
  }

  ghost function CriticalIn(expected: seq<Comment>, n: nat): set<nat>
    requires n <= |expected|
  {
    set i: nat | i < n && Critical(expected[i])
  }

  /** What a matching of the first n expected comments contributes to the counters. */
  ghost function TallyOfMatching(expected: seq<Comment>, actual: seq<Comment>, m: map<nat, nat>, n: nat): Tally
    requires n <= |expected|
  {
    Tally(|m|, |actual| - |m|, n - |m|,
          |Where(m, SameLine(expected, actual))|,
          |Where(m, SameSeverity(expected, actual))|,
          |Where(m, SameCategory(expected, actual))|,
          |Where(m, IsCritical(expected))|, |CriticalIn(expected, n)|,
          0, |actual|, 1)
  }

  ghost function TallyOf(r: EvalResult, tol: int, thr: real): Tally {
    if !r.success then ZERO.(fn := |r.expected|)
    else TallyOfMatching(r.expected, r.actual, Greedy(r.expected, r.actual, tol, thr, |r.expected|), |r.expected|)
         .(tokens := r.tokensUsed)
  }

  ghost function Total(results: seq<EvalResult>, tol: int, thr: real): Tally {
    if results == [] then ZERO
    else Total(results[..|results| - 1], tol, thr).Plus(TallyOf(results[|results| - 1], tol, thr))
  }

  lemma CriticalStep(expected: seq<Comment>, n: nat)
    requires n < |expected|
    ensures |CriticalIn(expected, n + 1)| == |CriticalIn(expected, n)| + (if Critical(expected[n]) then 1 else 0)
  {
    if Critical(expected[n]) {
      assert CriticalIn(expected, n + 1) == CriticalIn(expected, n) + {n};
    } else {
      assert CriticalIn(expected, n + 1) == CriticalIn(expected, n);
    }
  }

  function Bit(b: bool): int {
    if b then 1 else 0
  }

  /** How matching expected comment i with actual comment j changes the counters. */
  lemma MatchStep(expected: seq<Comment>, actual: seq<Comment>, m: map<nat, nat>, i: nat, j: nat)
    requires i < |expected| && j < |actual| && i !in m && j !in m.Values
    ensures var t := TallyOfMatching(expected, actual, m, i);
      var e, a := expected[i], actual[j];
      TallyOfMatching(expected, actual, m[i := j], i + 1) ==
      Tally(t.tp + 1, t.fp - 1, t.fn,
            t.locationCorrect + Bit(e.line == a.line),
            t.severityCorrect + Bit(Lower(e.severity) == Lower(a.severity)),
            t.categoryCorrect + Bit(Lower(e.category) == Lower(a.category)),
            t.criticalFound + Bit(Critical(e)), t.criticalTotal + Bit(Critical(e)),
            0, |actual|, 1)
  {
    CriticalStep(expected, i);
    ExtendCounts(m, i, j);
    ExtendWhere(m, i, j, SameLine(expected, actual));
    ExtendWhere(m, i, j, SameSeverity(expected, actual));
    ExtendWhere(m, i, j, SameCategory(expected, actual));
    ExtendWhere(m, i, j, IsCritical(expected));
  }

  lemma SkipStep(expected: seq<Comment>, actual: seq<Comment>, m: map<nat, nat>, i: nat)
    requires i < |expected|
    ensures var t := TallyOfMatching(expected, actual, m, i);
      TallyOfMatching(expected, actual, m, i + 1) ==
      t.(fn := t.fn + 1, criticalTotal := t.criticalTotal + Bit(Critical(expected[i])))
  {
    CriticalStep(expected, i);
  }

  lemma TallyStart(expected: seq<Comment>, actual: seq<Comment>, tol: int, thr: real)
    ensures Greedy(expected, actual, tol, thr, 0) == map[]
    ensures TallyOfMatching(expected, actual, map[], 0) == ZERO.(fp := |actual|, comments := |actual|, successful := 1)
  {
  }

  lemma TallyEnd(expected: seq<Comment>, actual: seq<Comment>, tol: int, thr: real)
    ensures var m := Greedy(expected, actual, tol, thr, |expected|);
      var t := TallyOfMatching(expected, actual, m, |expected|);
      t.fp == |actual| - |m.Values| && t.tokens == 0 && t.comments == |actual| && t.successful == 1
  {
    GreedyIsSound(expected, actual, tol, thr, |expected|);
  }

  /** One iteration of the greedy loop, seen from the counters. */
  lemma Advance(expected: seq<Comment>, actual: seq<Comment>, tol: int, thr: real, i: nat, b: Option<nat>, hit: bool)
    requires i < |expected|
    requires b == Best(expected[i], actual, Greedy(expected, actual, tol, thr, i).Values, tol, |actual|)
    requires hit <==> b.Some? && Score(Gap(expected[i], actual[b.value]), tol) >= thr
    ensures var m, m' := Greedy(expected, actual, tol, thr, i), Greedy(expected, actual, tol, thr, i + 1);
      var t, t' := TallyOfMatching(expected, actual, m, i), TallyOfMatching(expected, actual, m', i + 1);
      var e := expected[i];
      && m'.Keys == (if hit then m.Keys + {i} else m.Keys)
      && m'.Values == (if hit then m.Values + {b.value} else m.Values)
      && t'.tp == t.tp + Bit(hit) && t'.fn == t.fn + Bit(!hit) && (t.tokens == 0 ==> t'.tokens == 0)
      && t'.locationCorrect == t.locationCorrect + Bit(hit && e.line == actual[b.value].line)
      && t'.severityCorrect == t.severityCorrect + Bit(hit && Lower(e.severity) == Lower(actual[b.value].severity))
      && t'.categoryCorrect == t.categoryCorrect + Bit(hit && Lower(e.category) == Lower(actual[b.value].category))
      && t'.criticalFound == t.criticalFound + Bit(hit && Critical(e))
      && t'.criticalTotal == t.criticalTotal + Bit(Critical(e))
  {
    hide Score, TallyOfMatching, Lower;
    var m := Greedy(expected, actual, tol, thr, i);
    if hit {
      MatchStep(expected, actual, m, i, b.value);
      ExtendValues(m, i, b.value);
      assert m[i := b.value].Keys == m.Keys + {i};
    } else {
      SkipStep(expected, actual, m, i);
    }
  }

  /** The body of the source's outer loop for a successful result. */
  method MatchResult(expected: seq<Comment>, actual: seq<Comment>, tol: int, thr: real) returns (t: Tally)
    ensures t == TallyOfMatching(expected, actual, Greedy(expected, actual, tol, thr, |expected|), |expected|)
  {
    hide Score, TallyOfMatching, Lower, Best, Greedy, Near;
    var matchedExpected: set<nat>, matchedActual: set<nat> := {}, {};
    var tp, fn, location, severity, category, found, critical := 0, 0, 0, 0, 0, 0, 0;
    ghost var m := Greedy(expected, actual, tol, thr, 0);
    ghost var g := TallyOfMatching(expected, actual, m, 0);
    TallyStart(expected, actual, tol, thr);
    for i := 0 to |expected|
      invariant m == Greedy(expected, actual, tol, thr, i)
      invariant matchedExpected == m.Keys && matchedActual == m.Values
      invariant g == TallyOfMatching(expected, actual, m, i)
      invariant tp == g.tp && fn == g.fn && found == g.criticalFound && critical == g.criticalTotal
      invariant location == g.locationCorrect && severity == g.severityCorrect && category == g.categoryCorrect
      invariant g.tokens == 0
    {
      var e := expected[i];
      if Lower(e.severity) == "critical" {
        critical := critical + 1;
      }
      var bestMatch, bestScore := FindBest(e, actual, matchedActual, tol);
      if bestMatch.Some? && bestScore >= thr {
        var j := bestMatch.value;
        tp := tp + 1;
        matchedExpected := matchedExpected + {i};
        matchedActual := matchedActual + {j};
        if e.line == actual[j].line {
          location := location + 1;
        }
        if Lower(e.severity) == Lower(actual[j].severity) {
          severity := severity + 1;
        }
        if Lower(e.category) == Lower(actual[j].category) {
          category := category + 1;
        }
        if Lower(e.severity) == "critical" {
          found := found + 1;
        }
      } else {
        fn := fn + 1;
      }
      Advance(expected, actual, tol, thr, i, bestMatch, bestMatch.Some? && bestScore >= thr);
      m := Greedy(expected, actual, tol, thr, i + 1);
      g := TallyOfMatching(expected, actual, m, i + 1);
    }
    TallyEnd(expected, actual, tol, thr);
    t := Tally(tp, |actual| - |matchedActual|, fn, location, severity, category, found, critical, 0, |actual|, 1);
  }

  function Ratio(a: int, b: int): (r: real)
    ensures if b > 0 then r * b as real == a as real else r == 0.0
  {
    if b > 0 then a as real / b as real else 0.0
  }

  predicate RatesOf(m: Metrics, t: Tally) {
    && m.precision == Ratio(t.tp, t.tp + t.fp)
    && m.recall == Ratio(t.tp, t.tp + t.fn)
    && m.f1 == Ratio(2 * t.tp, 2 * t.tp + t.fp + t.fn)
    && m.locationAccuracy == Ratio(t.locationCorrect, t.tp)
    && m.severityAccuracy == Ratio(t.severityCorrect, t.tp)
    && m.categoryAccuracy == Ratio(t.categoryCorrect, t.tp)
    && m.criticalRecall == Ratio(t.criticalFound, t.criticalTotal)
    && m.tokensPerComment == Ratio(t.tokens, t.comments)
  }

  // ---------- What the counters count ----------

  ghost function MatchingOf(r: EvalResult, tol: int, thr: real): map<nat, nat> {
    Greedy(r.expected, r.actual, tol, thr, |r.expected|)
  }

  /** What is asked of a matched pair. */
  datatype Aspect = Anything | Place | Severity | Category | Urgency {
    predicate Holds(e: Comment, a: Comment) {
      match this
      case Anything => true
      case Place => e.line == a.line
      case Severity => Lower(e.severity) == Lower(a.severity)
      case Category => Lower(e.category) == Lower(a.category)
      case Urgency => Lower(e.severity) == "critical"
    }
  }

  /** The matched expected comments of a successful result for which the aspect holds. */
  ghost function MatchedWhere(tol: int, thr: real, aspect: Aspect): EvalResult -> set<nat> {
    (r: EvalResult) => set i | r.success && i in MatchingOf(r, tol, thr).Keys && i < |r.expected|
      && MatchingOf(r, tol, thr)[i] < |r.actual| && aspect.Holds(r.expected[i], r.actual[MatchingOf(r, tol, thr)[i]])
  }

  ghost function Missed(tol: int, thr: real): EvalResult -> set<nat> {
    (r: EvalResult) => set i: nat | i < |r.expected| && !(r.success && i in MatchingOf(r, tol, thr))
  }

  ghost function Spurious(tol: int, thr: real): EvalResult -> set<nat> {
    (r: EvalResult) => set j: nat | j < |r.actual| && r.success && j !in MatchingOf(r, tol, thr).Values
  }

  ghost function CriticalOnes(): EvalResult -> set<nat> {
    (r: EvalResult) => set i: nat | i < |r.expected| && r.success && Lower(r.expected[i].severity) == "critical"
  }

  /** All pairs of a result and one of its comments that f selects. */
  ghost function Pairs(results: seq<EvalResult>, f: EvalResult -> set<nat>): set<(nat, nat)> {
    set k: nat, i: nat | k < |results| && i in f(results[k]) :: (k, i)
  }

  ghost function Successful(results: seq<EvalResult>): set<nat> {
    set k: nat | k < |results| && results[k].success
  }

  ghost function TokensOf(results: seq<EvalResult>): int {
    if results == [] then 0 else
    var last := results[|results| - 1];
    TokensOf(results[..|results| - 1]) + if last.success then last.tokensUsed else 0
  }

  /** Every counter of a run, said without the way it is computed. */
  ghost predicate AreCounts(t: Tally, results: seq<EvalResult>, tol: int, thr: real) {
    && t.tp == |Pairs(results, MatchedWhere(tol, thr, Anything))|
    && t.fn == |Pairs(results, Missed(tol, thr))|
    && t.fp == |Pairs(results, Spurious(tol, thr))|
    && t.locationCorrect == |Pairs(results, MatchedWhere(tol, thr, Place))|
    && t.severityCorrect == |Pairs(results, MatchedWhere(tol, thr, Severity))|
    && t.categoryCorrect == |Pairs(results, MatchedWhere(tol, thr, Category))|
    && t.criticalFound == |Pairs(results, MatchedWhere(tol, thr, Urgency))|
    && t.criticalTotal == |Pairs(results, CriticalOnes())|
    && t.tokens == TokensOf(results) && t.comments == ActualCount(results)
    && t.successful == |Successful(results)|
  }

  ghost function Tagged(k: nat, s: set<nat>): set<(nat, nat)> {
    set i | i in s :: (k, i)
  }

  lemma {:induction false} TaggedSize(k: nat, s: set<nat>)
    ensures |Tagged(k, s)| == |s|
  {
    if s != {} {
      var x :| x in s;
      TaggedSize(k, s - {x});
      assert Tagged(k, s) == Tagged(k, s - {x}) + {(k, x)};
    }
  }

  lemma NoPairs(f: EvalResult -> set<nat>)
    ensures Pairs([], f) == {}
  {
  }

  lemma MorePairs(results: seq<EvalResult>, f: EvalResult -> set<nat>)
    requires results != []
    ensures var n := |results| - 1; |Pairs(results, f)| == |Pairs(results[..n], f)| + |f(results[n])|
  {
    var n := |results| - 1;
    var most, last := Pairs(results[..n], f), Tagged(n, f(results[n]));
    assert forall k | 0 <= k < n :: results[..n][k] == results[k];
    assert Pairs(results, f) == most + last by {
      forall x | x in Pairs(results, f) ensures x in most + last {
        assert x.0 == n || x.0 < n;
      }
    }
    TaggedSize(n, f(results[n]));
  }

  lemma {:induction false} RestSize(s: set<nat>, n: nat)
    requires forall i | i in s :: i < n
    ensures |set i: nat | i < n && i !in s| == n - |s|
  {
    var rest := set i: nat | i < n && i !in s;
    if n == 0 {
      assert s == {} == rest;
    } else {
      var t := s - {n - 1};
      RestSize(t, n - 1);
      var most := set i: nat | i < n - 1 && i !in t;
      if n - 1 in s {
        assert rest == most && s == t + {n - 1};
      } else {
        assert rest == most + {n - 1} && s == t;
      }
    }
  }

  lemma MatchedSizes(r: EvalResult, tol: int, thr: real)
    ensures var t := TallyOf(r, tol, thr);
      && t.tp == |MatchedWhere(tol, thr, Anything)(r)|
      && t.locationCorrect == |MatchedWhere(tol, thr, Place)(r)|
      && t.severityCorrect == |MatchedWhere(tol, thr, Severity)(r)|
      && t.categoryCorrect == |MatchedWhere(tol, thr, Category)(r)|
      && t.criticalFound == |MatchedWhere(tol, thr, Urgency)(r)|
  {
    hide Greedy, Lower;
    if r.success {
      var m := MatchingOf(r, tol, thr);
      GreedyIsSound(r.expected, r.actual, tol, thr, |r.expected|);
      assert MatchedWhere(tol, thr, Anything)(r) == m.Keys && |m.Keys| == |m|;
      assert MatchedWhere(tol, thr, Place)(r) == Where(m, SameLine(r.expected, r.actual));
      assert MatchedWhere(tol, thr, Severity)(r) == Where(m, SameSeverity(r.expected, r.actual));
      assert MatchedWhere(tol, thr, Category)(r) == Where(m, SameCategory(r.expected, r.actual));
      assert MatchedWhere(tol, thr, Urgency)(r) == Where(m, IsCritical(r.expected));
    } else {
      forall aspect ensures MatchedWhere(tol, thr, aspect)(r) == {} {
      }
    }
  }

  lemma OtherSizes(r: EvalResult, tol: int, thr: real)
    ensures var t := TallyOf(r, tol, thr);
      t.fn == |Missed(tol, thr)(r)| && t.fp == |Spurious(tol, thr)(r)| && t.criticalTotal == |CriticalOnes()(r)|
  {
    hide Greedy, Lower, Where, Injective, Compatible;
    var m := if r.success then MatchingOf(r, tol, thr) else map[];
    GreedyIsSound(r.expected, r.actual, tol, thr, |r.expected|);
    assert Missed(tol, thr)(r) == set i: nat | i < |r.expected| && i !in m.Keys;
    assert |m.Keys| == |m|;
    RestSize(m.Keys, |r.expected|);
    if r.success {
      assert Spurious(tol, thr)(r) == set j: nat | j < |r.actual| && j !in m.Values;
      RestSize(m.Values, |r.actual|);
      assert CriticalOnes()(r) == CriticalIn(r.expected, |r.expected|);
    } else {
      assert Spurious(tol, thr)(r) == {} && CriticalOnes()(r) == {};
    }
  }

  lemma PlainSizes(r: EvalResult, tol: int, thr: real)
    ensures var t := TallyOf(r, tol, thr);
      && t.tokens == (if r.success then r.tokensUsed else 0) && t.successful == (if r.success then 1 else 0)
      && t.comments == if r.success then |r.actual| else 0
  {
  }

  lemma MoreSuccessful(results: seq<EvalResult>)
    requires results != []
    ensures var n := |results| - 1;
      |Successful(results)| == |Successful(results[..n])| + if results[n].success then 1 else 0
  {
    var n := |results| - 1;
    var most := Successful(results[..n]);
    assert Successful(results) == if results[n].success then most + {n} else most;
  }

  /** The counters of a run are the sizes of these sets. */
  lemma {:induction false} TotalCounts(results: seq<EvalResult>, tol: int, thr: real)
    ensures AreCounts(Total(results, tol, thr), results, tol, thr)
  {
    hide TallyOf, MatchedWhere, Missed, Spurious, CriticalOnes, Pairs;
    if results == [] {
      forall aspect ensures Pairs([], MatchedWhere(tol, thr, aspect)) == {} {
        NoPairs(MatchedWhere(tol, thr, aspect));
      }
      NoPairs(Missed(tol, thr));
      NoPairs(Spurious(tol, thr));
      NoPairs(CriticalOnes());
    } else {
      hide Successful;
      var r := results[|results| - 1];
      TotalCounts(results[..|results| - 1], tol, thr);
      MatchedSizes(r, tol, thr);
      OtherSizes(r, tol, thr);
      PlainSizes(r, tol, thr);
      MorePairs(results, MatchedWhere(tol, thr, Anything));
      MorePairs(results, MatchedWhere(tol, thr, Place));
      MorePairs(results, MatchedWhere(tol, thr, Severity));
      MorePairs(results, MatchedWhere(tol, thr, Category));
      MorePairs(results, MatchedWhere(tol, thr, Urgency));
      MorePairs(results, Missed(tol, thr));
      MorePairs(results, Spurious(tol, thr));
      MorePairs(results, CriticalOnes());
      MoreSuccessful(results);
    }
  }

  method ComputeMetrics(results: seq<EvalResult>, tol: int := 3, thr: real := 0.7) returns (m: Metrics)
    ensures m.counts == Total(results, tol, thr)
    ensures AreCounts(m.counts, results, tol, thr)
    ensures m.totalTests == |results|
    ensures RatesOf(m, m.counts)
  {
    hide Score, RatesOf;
    var t := ZERO;
    for k := 0 to |results|
      invariant t == Total(results[..k], tol, thr)
    {
      assert results[..k + 1][..k] == results[..k];
      var r := results[k];
      if !r.success {
        t := t.(fn := t.fn + |r.expected|);
        continue;
      }
      var one := MatchResult(r.expected, r.actual, tol, thr);
      t := t.Plus(one.(tokens := r.tokensUsed));
    }
    assert results[..|results|] == results;
    Conservation(results, tol, thr);
    TotalCounts(results, tol, thr);
    hide AreCounts;
    m := Derive(t, |results|);
  }

  /** The derived rates; F1 is the harmonic mean of precision and recall. */
  method Derive(t: Tally, tests: int) returns (m: Metrics)
    requires t.tp >= 0 && t.fp >= 0 && t.fn >= 0
    ensures m.counts == t && m.totalTests == tests
    ensures RatesOf(m, t)
  {
    var precision := if t.tp + t.fp > 0 then t.tp as real / (t.tp + t.fp) as real else 0.0;
    var recall := if t.tp + t.fn > 0 then t.tp as real / (t.tp + t.fn) as real else 0.0;
    var f1 := if precision + recall > 0.0 then 2.0 * precision * recall / (precision + recall) else 0.0;
    HarmonicMean(t.tp, t.fp, t.fn, precision, recall, f1);
    m := Metrics(precision, recall, f1,
      if t.tp > 0 then t.locationCorrect as real / t.tp as real else 0.0,
      if t.tp > 0 then t.severityCorrect as real / t.tp as real else 0.0,
      if t.tp > 0 then t.categoryCorrect as real / t.tp as real else 0.0,
      if t.criticalTotal > 0 then t.criticalFound as real / t.criticalTotal as real else 0.0,
      if t.comments > 0 then t.tokens as real / t.comments as real else 0.0,
      tests, t);
  }

  /** The harmonic mean of precision and recall, as the source computes it, is 2TP/(2TP+FP+FN). */
  lemma HarmonicMean(tp: int, fp: int, fn: int, p: real, r: real, f1: real)
    requires tp >= 0 && fp >= 0 && fn >= 0
    requires p == Ratio(tp, tp + fp) && r == Ratio(tp, tp + fn)
    requires f1 == if p + r > 0.0 then 2.0 * p * r / (p + r) else 0.0
    ensures f1 == Ratio(2 * tp, 2 * tp + fp + fn)
  {
    if tp > 0 {
      Mean(tp as real, (tp + fp) as real, (tp + fn) as real, p, r);
      assert (2 * tp) as real == 2.0 * tp as real;
      assert (2 * tp + fp + fn) as real == (tp + fp) as real + (tp + fn) as real;
    }
  }

  lemma Mean(t: real, a: real, b: real, p: real, r: real)
    requires t > 0.0 && a > 0.0 && b > 0.0
    requires p == t / a && r == t / b
    ensures p > 0.0 && r > 0.0
    ensures 2.0 * p * r / (p + r) == 2.0 * t / (a + b)
  {
    var u := p / b;
    assert p * a == t && r * b == t;
    assert u * b == p && u * a == r by {
      assert (u * a) * b == (u * b) * a == p * a == r * b;
      assert (u * a - r) * b == 0.0;
    }
    // p + r = u(a + b) and pr = ut
    assert p + r == u * (a + b);
    assert p * r == u * t by {
      assert p * r == (u * b) * r == u * (r * b);
    }
    Cancel(u, 2.0 * t, a + b);
    assert 2.0 * p * r == u * (2.0 * t);
  }

  lemma Cancel(u: real, x: real, y: real)
    requires u > 0.0 && y > 0.0
    ensures u * y > 0.0 && (u * x) / (u * y) == x / y
  {
    var q := x / y;
    assert q * y == x;
    assert q * (u * y) == u * x by {
      assert q * (u * y) == u * (q * y);
    }
  }

  // ---------- Conservation and quality over a whole evaluation ----------

  ghost function ExpectedCount(results: seq<EvalResult>): nat {
    if results == [] then 0
    else ExpectedCount(results[..|results| - 1]) + |results[|results| - 1].expected|
  }

  ghost function ActualCount(results: seq<EvalResult>): nat {
    if results == [] then 0
    else ActualCount(results[..|results| - 1])
         + (if results[|results| - 1].success then |results[|results| - 1].actual| else 0)
  }

  /** TP + FN is the number of expected comments of all results, TP + FP the number of
      actual comments of the successful ones, and no counter of a part exceeds its whole. */
  lemma {:induction false} Conservation(results: seq<EvalResult>, tol: int, thr: real)
    ensures var t := Total(results, tol, thr);
      && t.tp >= 0 && t.fp >= 0 && t.fn >= 0
      && t.tp + t.fn == ExpectedCount(results)
      && t.tp + t.fp == ActualCount(results) == t.comments
      && 0 <= t.locationCorrect <= t.tp
      && 0 <= t.severityCorrect <= t.tp
      && 0 <= t.categoryCorrect <= t.tp
      && 0 <= t.criticalFound <= t.criticalTotal <= ExpectedCount(results)
      && t.criticalFound <= t.tp
  {
    if results != [] {
      Conservation(results[..|results| - 1], tol, thr);
      OneResult(results[|results| - 1], tol, thr);
    }
  }

  lemma OneResult(r: EvalResult, tol: int, thr: real)
    ensures var t := TallyOf(r, tol, thr);
      && t.tp >= 0 && t.fp >= 0 && t.fn >= 0
      && t.tp + t.fn == |r.expected|
      && t.tp + t.fp == (if r.success then |r.actual| else 0) == t.comments
      && 0 <= t.locationCorrect <= t.tp
      && 0 <= t.severityCorrect <= t.tp
      && 0 <= t.categoryCorrect <= t.tp
      && 0 <= t.criticalFound <= t.criticalTotal <= |r.expected|
      && t.criticalFound <= t.tp
  {
    var n := |r.expected|;
    var m := Greedy(r.expected, r.actual, tol, thr, n);
    GreedyIsSound(r.expected, r.actual, tol, thr, n);
    assert |m.Keys| == |m|;
    SubsetSize(Where(m, SameLine(r.expected, r.actual)), m.Keys);
    SubsetSize(Where(m, SameSeverity(r.expected, r.actual)), m.Keys);
    SubsetSize(Where(m, SameCategory(r.expected, r.actual)), m.Keys);
    SubsetSize(Where(m, IsCritical(r.expected)), m.Keys);
    SubsetSize(Where(m, IsCritical(r.expected)), CriticalIn(r.expected, n));
    BoundedSize(CriticalIn(r.expected, n), n);
    BoundedSize(m.Keys, n);
    BoundedSize(m.Values, |r.actual|);
  }

  lemma {:induction false} BoundedSize(s: set<nat>, n: nat)
    requires forall i | i in s :: i < n
    ensures |s| <= n
  {
    if n > 0 {
      BoundedSize(s - {n - 1}, n - 1);
      if n - 1 in s {
        assert s == (s - {n - 1}) + {n - 1};
      } else {
        assert s == s - {n - 1};
      }
    } else {
      assert s == {};
    }
  }

  /** One matching per result, none for a failed result: any other way to score the run. */
  ghost predicate IsRival(rival: seq<map<nat, nat>>, results: seq<EvalResult>, tol: int, thr: real) {
    && |rival| == |results|
    && forall k | 0 <= k < |results| ::
         && (results[k].success ==> IsMatching(rival[k], results[k].expected, results[k].actual, tol, thr))
         && (!results[k].success ==> rival[k] == map[])
  }

  ghost function RivalPairs(rival: seq<map<nat, nat>>): nat {
    if rival == [] then 0 else RivalPairs(rival[..|rival| - 1]) + |rival[|rival| - 1]|
  }

  /** Over a whole evaluation no rival finds more than twice the true positives. */
  lemma {:induction false} RunHalfOptimal(rival: seq<map<nat, nat>>, results: seq<EvalResult>, tol: int, thr: real)
    requires IsRival(rival, results, tol, thr)
    ensures RivalPairs(rival) <= 2 * Total(results, tol, thr).tp
  {
    if results != [] {
      var n := |results| - 1;
      var r := results[n];
      RunHalfOptimal(rival[..n], results[..n], tol, thr);
      if r.success {
        HalfOptimal(r.expected, r.actual, tol, thr, rival[n]);
      }
    }
  }

  /** Precision, recall and F1 of the rival: the same totals, with its own pairs matched. */
  ghost function RivalRates(pairs: int, results: seq<EvalResult>): (real, real, real) {
    var e, a := ExpectedCount(results), ActualCount(results);
    (Ratio(pairs, a), Ratio(pairs, e), Ratio(2 * pairs, a + e))
  }

  /** So the reported precision, recall and F1 are at least half of any rival's. */
  lemma RatesHalfOptimal(rival: seq<map<nat, nat>>, results: seq<EvalResult>, tol: int, thr: real, m: Metrics)
    requires IsRival(rival, results, tol, thr)
    requires RatesOf(m, Total(results, tol, thr))
    ensures var (p, r, f) := RivalRates(RivalPairs(rival), results);
      p <= 2.0 * m.precision && r <= 2.0 * m.recall && f <= 2.0 * m.f1
  {
    hide Score, Ratio, IsRival, TallyOf;
    RunHalfOptimal(rival, results, tol, thr);
    Conservation(results, tol, thr);
    var t, best := Total(results, tol, thr), RivalPairs(rival);
    RatioBound(best, t.tp, t.tp + t.fp);
    RatioBound(best, t.tp, t.tp + t.fn);
    RatioBound(2 * best, 2 * t.tp, 2 * t.tp + t.fp + t.fn);
  }

  lemma RatioBound(best: int, tp: int, d: int)
    requires best <= 2 * tp
    ensures Ratio(best, d) <= 2.0 * Ratio(tp, d)
  {
    if d > 0 {
      var r := d as real;
      assert 2.0 * (tp as real / r) - best as real / r == (2 * tp - best) as real / r >= 0.0;
    }
  }

  /** Compatible are two comments of one file whose lines are as near as both the tolerance and
      the threshold admit. */
  lemma CompatibleIff(e: Comment, a: Comment, tol: int, thr: real)
    ensures Compatible(e, a, tol, thr) <==>
      && e.file == a.file && -tol <= e.line - a.line <= tol
      && (e.line - a.line) as real <= (1.0 - thr) * (tol + 1) as real
      && (a.line - e.line) as real <= (1.0 - thr) * (tol + 1) as real
  {
    var g := Gap(e, a);
    if g <= tol {
      ReachArithmetic(g, tol, thr);
    }
  }

  lemma ReachArithmetic(g: nat, tol: int, thr: real)
    requires g <= tol
    ensures Score(g, tol) >= thr <==> g as real <= (1.0 - thr) * (tol + 1) as real
    ensures g > 0 && g as real <= (1.0 - thr) * (tol + 1) as real ==> -(g as real) <= (1.0 - thr) * (tol + 1) as real
  {
    var d := (tol + 1) as real;
    var q := g as real / d;
    assert q * d == g as real && Score(g, tol) == 1.0 - q;
    ScaleOrder(q, 1.0 - thr, d);
  }

  lemma ScaleOrder(x: real, y: real, d: real)
    requires d > 0.0
    ensures x <= y <==> x * d <= y * d
  {
    assert (y - x) * d == y * d - x * d;
    if x <= y {
      assert (y - x) * d >= 0.0;
    } else {
      assert (y - x) * d < 0.0;
    }
  }

  /** With the default tolerance and threshold a pair is compatible exactly when the lines
      are at most one apart, although the tolerance alone admits three. */
  lemma DefaultReach(e: Comment, a: Comment)
    ensures Compatible(e, a, 3, 0.7) <==> e.file == a.file && -1 <= e.line - a.line <= 1
  {
    CompatibleIff(e, a, 3, 0.7);
  }

  /** The factor two is reached: expected lines 5, 4 against actual lines 4, 6. */
  lemma FactorTwoIsTight()
    ensures exists expected: seq<Comment>, actual: seq<Comment>, rival: map<nat, nat> ::
      && IsMatching(rival, expected, actual, 3, 0.7)
      && |Greedy(expected, actual, 3, 0.7, |expected|)| == 1
      && |rival| == 2
  {
    var e0, e1 := Comment("f", 5, "", ""), Comment("f", 4, "", "");
    var a0, a1 := Comment("f", 4, "", ""), Comment("f", 6, "", "");
    var expected, actual := [e0, e1], [a0, a1];
    DefaultReach(e0, a0);
    DefaultReach(e0, a1);
    DefaultReach(e1, a0);
    DefaultReach(e1, a1);
    var rival: map<nat, nat> := map[0 := 1, 1 := 0];
    assert rival.Keys == {0, 1};
    assert |rival| == 2;
    var m1 := Greedy(expected, actual, 3, 0.7, 1);
    assert Greedy(expected, actual, 3, 0.7, 0) == map[];
    var b0 := Best(e0, actual, {}, 3, 2);
    assert b0 == Some(0);
    assert m1 == map[0 := 0];
    assert m1.Values == {0} by {
      assert m1[0] == 0;
    }
    assert Best(e1, actual, {0}, 3, 2).value == 1;
    assert Greedy(expected, actual, 3, 0.7, 2) == m1;
    assert |m1| == 1;
    assert IsMatching(rival, expected, actual, 3, 0.7);
  }
}
