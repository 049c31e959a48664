/** Token-overlap similarity and majority voting, mono/swarm/consensus.py.

    The tokeniser is a regular expression and stays outside: texts arrive as token lists.
    The main results are that 1 - Jaccard is a metric, empty lists included, and what
    follows for the vote: the mean of the scores is the pairwise agreement, and the
    winner's score brackets it on both sides. */
module Similarity {
  import opened RealArithmetic
  import opened Sets

  // ---------- Jaccard similarity ----------

  function Tokens(a: seq<string>): set<string> {
    set x | x in a
  }

  function Jaccard(a: seq<string>, b: seq<string>): real {
    SetSimilarity(Tokens(a), Tokens(b))
  }

  function SetSimilarity(sa: set<string>, sb: set<string>): real {
    if sa == {} && sb == {} then 1.0
    else if sa == {} || sb == {} then 0.0
    else
      assert sa <= sa + sb;
      |sa * sb| as real / |sa + sb| as real
  }

  /** The share of the common tokens among all tokens. */
  lemma SimilarityIsShare(a: set<string>, b: set<string>)
    ensures if a + b == {} then SetSimilarity(a, b) == 1.0
      else SetSimilarity(a, b) * |a + b| as real == |a * b| as real
  {
    if a == {} || b == {} {
      assert a * b == {};
    } else {
      assert a <= a + b && |a + b| > 0;
    }
  }

  ghost function Apart<T>(a: set<T>, b: set<T>): set<T> {
    (a + b) - (a * b)
  }

  lemma ApartSize<T>(a: set<T>, b: set<T>)
    ensures |Apart(a, b)| == |a + b| - |a * b|
  {
    assert a + b == Apart(a, b) + a * b;
  }

  /** What lies outside a * c, in the union of all three, differs between a and b or b and c. */
  lemma ApartTriangle<T>(a: set<T>, b: set<T>, c: set<T>)
    ensures |a + b + c| - |a * c| <= |Apart(a, b)| + |Apart(b, c)|
  {
    var u := a + b + c;
    var rest := u - a * c;
    assert u == rest + a * c;
    SubsetSize(rest, Apart(a, b) + Apart(b, c));
    var p, q := Apart(a, b), Apart(b, c);
    assert p + q == p + (q - p);
    SubsetSize(q - p, q);
  }

  lemma DistanceAsRatio(a: set<string>, b: set<string>)
    requires a + b != {}
    ensures 1.0 - SetSimilarity(a, b) == |Apart(a, b)| as real / |a + b| as real
  {
    ApartSize(a, b);
    var n, k := |a + b| as real, |a * b| as real;
    OneMinus(k, n);
    if a == {} || b == {} {
      assert a * b == {};
    }
  }

  lemma FractionChain(k: real, z: real, u: real, p: real, x: real, q: real, y: real)
    requires 0.0 <= k <= z <= u && 0.0 < z && 0.0 < x <= u && 0.0 < y <= u
    requires p >= 0.0 && q >= 0.0 && u - k <= p + q
    ensures 1.0 - k / z <= p / x + q / y
  {
    Shrink(k, z, u);
    Shrink(p, x, u);
    Shrink(q, y, u);
    FractionSum(p, q, u);
    OneMinus(k, u);
    FractionOrder(u - k, p + q, u);
  }

  lemma FractionBounds(k: nat, n: nat)
    requires k <= n && n > 0
    ensures 0.0 <= k as real / n as real <= 1.0
  {
    OneMinus(k as real, n as real);
  }

  lemma SimilarityBounds(a: set<string>, b: set<string>)
    ensures 0.0 <= SetSimilarity(a, b) <= 1.0
    ensures SetSimilarity(a, b) == SetSimilarity(b, a)
    ensures SetSimilarity(a, a) == 1.0
  {
    assert a + b == b + a && a * b == b * a;
    assert a * a == a && a + a == a;
    if a != {} {
      FractionBounds(|a|, |a|);
      OneMinus(|a| as real, |a| as real);
      if b != {} {
        SubsetSize(a * b, a + b);
        assert a <= a + b;
        FractionBounds(|a * b|, |a + b|);
      }
    }
  }

  /** The triangle inequality of 1 - Jaccard, with the source's conventions for empty lists. */
  lemma SimilarityTriangle(a: set<string>, b: set<string>, c: set<string>)
    ensures SetSimilarity(a, b) + SetSimilarity(b, c) <= 1.0 + SetSimilarity(a, c)
  {
    hide SetSimilarity;
    SimilarityBounds(a, b);
    SimilarityBounds(b, c);
    if a + b == {} {
      assert a == {} == b;
    } else if b + c == {} {
      assert b == {} == c;
    } else if a + c == {} {
      assert a == {} == c;
      SimilarityBounds(a, a);
    } else {
      DistanceAsRatio(a, b);
      DistanceAsRatio(b, c);
      DistanceAsRatio(a, c);
      ApartTriangle(a, b, c);
      ApartSize(a, c);
      var u := a + b + c;
      SubsetSize(a + b, u);
      SubsetSize(b + c, u);
      SubsetSize(a + c, u);
      SubsetSize(a * c, a + c);
      var z, k := |a + c| as real, |a * c| as real;
      OneMinus(k, z);
      FractionChain(k, z, |u| as real, |Apart(a, b)| as real, |a + b| as real, |Apart(b, c)| as real, |b + c| as real);
    }
  }

  // ---------- Sums over a square of pairwise values ----------

  ghost function Row(g: (nat, nat) -> real, i: nat, n: nat): real {
    if n == 0 then 0.0 else Row(g, i, n - 1) + g(i, n - 1)
  }

  ghost function Col(g: (nat, nat) -> real, m: nat, j: nat): real {
    if m == 0 then 0.0 else Col(g, m - 1, j) + g(m - 1, j)
  }

  ghost function Square(g: (nat, nat) -> real, m: nat, n: nat): real {
    if m == 0 then 0.0 else Square(g, m - 1, n) + Row(g, m - 1, n)
  }

  /** Row i right of the diagonal, up to column n. */
  ghost function UpRow(g: (nat, nat) -> real, i: nat, n: nat): real {
    if n <= i + 1 then 0.0 else UpRow(g, i, n - 1) + g(i, n - 1)
  }

  ghost function Up(g: (nat, nat) -> real, m: nat, n: nat): real {
    if m == 0 then 0.0 else Up(g, m - 1, n) + UpRow(g, m - 1, n)
  }

  ghost predicate Symmetric(g: (nat, nat) -> real, n: nat) {
    forall i: nat, j: nat | i < n && j < n :: g(i, j) == g(j, i)
  }

  ghost predicate ZeroDiagonal(g: (nat, nat) -> real, n: nat) {
    forall i: nat | i < n :: g(i, i) == 0.0
  }

  lemma {:induction false} NextColumn(g: (nat, nat) -> real, m: nat, n: nat)
    ensures Square(g, m, n + 1) == Square(g, m, n) + Col(g, m, n)
    ensures m <= n ==> Up(g, m, n + 1) == Up(g, m, n) + Col(g, m, n)
  {
    if m > 0 {
      NextColumn(g, m - 1, n);
    }
  }

  lemma {:induction false} RowIsCol(g: (nat, nat) -> real, j: nat, m: nat, n: nat)
    requires Symmetric(g, n) && j < n && m <= n
    ensures Row(g, j, m) == Col(g, m, j)
  {
    if m > 0 {
      RowIsCol(g, j, m - 1, n);
    }
  }

  /** Summing whole rows counts every unordered pair twice. */
  lemma {:induction false} SquareIsTwiceUp(g: (nat, nat) -> real, n: nat, bound: nat)
    requires n <= bound && Symmetric(g, bound) && ZeroDiagonal(g, bound)
    ensures Square(g, n, n) == 2.0 * Up(g, n, n)
  {
    if n > 0 {
      SquareIsTwiceUp(g, n - 1, bound);
      NextColumn(g, n - 1, n - 1);
      RowIsCol(g, n - 1, n - 1, bound);
      assert UpRow(g, n - 1, n) == 0.0;
    }
  }

  ghost predicate IsMetric(d: (nat, nat) -> real, n: nat) {
    && Symmetric(d, n)
    && ZeroDiagonal(d, n)
    && forall i: nat, j: nat, k: nat | i < n && j < n && k < n :: d(i, k) <= d(i, j) + d(j, k)
  }

  lemma DetourStep(d: (nat, nat) -> real, n: nat, i: nat, w: nat, j: nat)
    requires IsMetric(d, n) && i < n && w < n && j < n
    ensures d(i, j) <= d(i, w) + d(w, j) - (if i == j then 2.0 * d(i, w) else 0.0)
  {
  }

  /** Row i of a metric against row w: the detour through w. */
  lemma {:induction false} DetourRow(d: (nat, nat) -> real, n: nat, i: nat, w: nat, m: nat)
    requires IsMetric(d, n) && i < n && w < n && m <= n
    ensures Row(d, i, m) <= Times(m, d(i, w)) + Row(d, w, m) - (if i < m then 2.0 * d(i, w) else 0.0)
  {
    hide IsMetric;
    if m > 0 {
      DetourRow(d, n, i, w, m - 1);
      DetourStep(d, n, i, w, m - 1);
    }
  }

  lemma {:induction false} DetourSquare(d: (nat, nat) -> real, n: nat, w: nat, m: nat)
    requires IsMetric(d, n) && w < n && m <= n && n >= 2
    ensures Square(d, m, n) <= Times(n - 2, Col(d, m, w)) + Times(m, Row(d, w, n))
  {
    hide IsMetric;
    if m > 0 {
      DetourSquare(d, n, w, m - 1);
      DetourRow(d, n, m - 1, w, n);
      TimesSum(n - 2, Col(d, m - 1, w), d(m - 1, w));
    } else {
      TimesIsProduct(n - 2, 0.0);
    }
  }

  /** The sum of all distances is at most 2(n - 1) times the sum of the distances to any one point. */
  lemma AllPairsFromOne(d: (nat, nat) -> real, n: nat, w: nat)
    requires IsMetric(d, n) && w < n && n >= 2
    ensures Square(d, n, n) <= 2.0 * Times(n - 1, Row(d, w, n))
  {
    DetourSquare(d, n, w, n);
    RowIsCol(d, w, n, n);
  }

  // ---------- Agreement and votes ----------

  /** Similarity of two different texts; zero on the diagonal, which the loops skip. */
  ghost function Sim(tok: seq<seq<string>>): (nat, nat) -> real {
    (i: nat, j: nat) => if i < |tok| && j < |tok| && i != j then Jaccard(tok[i], tok[j]) else 0.0
  }

  ghost function Dist(tok: seq<seq<string>>): (nat, nat) -> real {
    (i: nat, j: nat) => if i < |tok| && j < |tok| && i != j then 1.0 - Jaccard(tok[i], tok[j]) else 0.0
  }

  lemma DistIsMetric(tok: seq<seq<string>>)
    ensures IsMetric(Dist(tok), |tok|)
    ensures Symmetric(Sim(tok), |tok|) && ZeroDiagonal(Sim(tok), |tok|)
  {
    hide SetSimilarity;
    var d, n := Dist(tok), |tok|;
    forall i: nat, j: nat | i < n && j < n ensures d(i, j) == d(j, i) && Sim(tok)(i, j) == Sim(tok)(j, i) {
      SimilarityBounds(Tokens(tok[i]), Tokens(tok[j]));
    }
    forall i: nat, j: nat, k: nat | i < n && j < n && k < n ensures d(i, k) <= d(i, j) + d(j, k) {
      SimilarityTriangle(Tokens(tok[i]), Tokens(tok[j]), Tokens(tok[k]));
      SimilarityBounds(Tokens(tok[i]), Tokens(tok[j]));
      SimilarityBounds(Tokens(tok[j]), Tokens(tok[k]));
      SimilarityBounds(Tokens(tok[i]), Tokens(tok[k]));
    }
  }

  ghost function Agreement(tok: seq<seq<string>>): real {
    var n := |tok|;
    if n < 2 then 0.0 else PairCountClosed(n); Up(Sim(tok), n, n) / PairCount(n) as real
  }

  ghost function VoteScore(tok: seq<seq<string>>, i: nat): real {
    var n := |tok|;
    if n < 2 then 0.0 else Row(Sim(tok), i, n) / (n - 1) as real
  }

  method PairwiseAgreement(tok: seq<seq<string>>) returns (agreement: real)
    ensures agreement == Agreement(tok)
  {
    hide Jaccard;
    var n := |tok|;
    if n < 2 {
      return 0.0;
    }
    var total, pairs := 0.0, 0;
    ghost var g := Sim(tok);
    for i := 0 to n
      invariant total == Up(g, i, n)
      invariant pairs + PairCount(n - i) == PairCount(n)
    {
      ghost var before := total;
      ghost var count := pairs;
      for j := i + 1 to n
        invariant total == before + UpRow(g, i, j)
        invariant pairs == count + (j - i - 1)
      {
        total := total + Jaccard(tok[i], tok[j]);
        pairs := pairs + 1;
      }
    }
    PairCountClosed(n);
    agreement := if pairs != 0 then total / pairs as real else 0.0;
  }

  method VoteScores(tok: seq<seq<string>>) returns (scores: seq<real>)
    ensures |scores| == |tok|
    ensures forall i | 0 <= i < |tok| :: scores[i] == VoteScore(tok, i)
  {
    scores := [];
    ghost var g := Sim(tok);
    for i := 0 to |tok|
      invariant |scores| == i
      invariant forall k | 0 <= k < i :: scores[k] == VoteScore(tok, k)
    {
      var simSum, count := 0.0, 0;
      for j := 0 to |tok|
        invariant simSum == Row(g, i, j)
        invariant count == if i < j then j - 1 else j
      {
        if i != j {
          simSum := simSum + Jaccard(tok[i], tok[j]);
          count := count + 1;
        }
      }
      scores := scores + [if count > 0 then simSum / count as real else 0.0];
    }
  }

  /** The first index with the highest score, as max() over a range returns it. */
  method FirstMax(scores: seq<real>) returns (best: nat)
    requires scores != []
    ensures best < |scores|
    ensures forall i | 0 <= i < |scores| :: scores[i] <= scores[best]
    ensures forall i | 0 <= i < best :: scores[i] < scores[best]
  {
    best := 0;
    for k := 1 to |scores|
      invariant best < k
      invariant forall i | 0 <= i < k :: scores[i] <= scores[best]
      invariant forall i | 0 <= i < best :: scores[i] < scores[best]
    {
      if scores[k] > scores[best] {
        best := k;
      }
    }
  }

  // ---------- What the vote says about the agreement ----------

  ghost function ScoreSum(tok: seq<seq<string>>, m: nat): real {
    if m == 0 then 0.0 else ScoreSum(tok, m - 1) + VoteScore(tok, m - 1)
  }

  lemma {:induction false} ScoreSumIsSquare(tok: seq<seq<string>>, m: nat)
    requires |tok| >= 2 && m <= |tok|
    ensures ScoreSum(tok, m) == Square(Sim(tok), m, |tok|) / (|tok| - 1) as real
  {
    if m > 0 {
      ScoreSumIsSquare(tok, m - 1);
      FractionSum(Square(Sim(tok), m - 1, |tok|), Row(Sim(tok), m - 1, |tok|), (|tok| - 1) as real);
    }
  }

  /** The mean of the vote scores is the pairwise agreement. */
  lemma MeanScoreIsAgreement(tok: seq<seq<string>>)
    requires |tok| >= 2
    ensures ScoreSum(tok, |tok|) == |tok| as real * Agreement(tok)
  {
    hide Sim, Square, Up, ScoreSum, PairCount;
    var n := |tok|;
    DistIsMetric(tok);
    SquareIsTwiceUp(Sim(tok), n, n);
    ScoreSumIsSquare(tok, n);
    PairCountClosed(n);
    MeanArithmetic(n, PairCount(n), Up(Sim(tok), n, n));
  }

  lemma MeanArithmetic(n: nat, pairs: nat, up: real)
    requires n >= 2 && 2 * pairs == n * (n - 1)
    ensures pairs > 0
    ensures 2.0 * up / (n - 1) as real == n as real * (up / pairs as real)
  {
    var a, c, p := n as real, (n - 1) as real, pairs as real;
    assert 2.0 * p == a * c by {
      assert (2 * pairs) as real == 2.0 * p;
      assert (n * (n - 1)) as real == a * c;
    }
    assert pairs > 0 by {
      assert a * c >= c;
    }
    var q := up / p;
    assert (a * q) * c == 2.0 * up by {
      assert (a * q) * c == q * (a * c);
    }
    Unique(a * q, 2.0 * up, c);
  }

  lemma {:induction false} RowOfDist(tok: seq<seq<string>>, i: nat, m: nat)
    requires i < |tok| && m <= |tok|
    ensures Row(Dist(tok), i, m) == (if i < m then m - 1 else m) as real - Row(Sim(tok), i, m)
  {
    if m > 0 {
      RowOfDist(tok, i, m - 1);
    }
  }

  lemma {:induction false} SquareOfDist(tok: seq<seq<string>>, m: nat)
    requires m <= |tok| && |tok| >= 1
    ensures Square(Dist(tok), m, |tok|) == Times(m, (|tok| - 1) as real) - Square(Sim(tok), m, |tok|)
  {
    if m > 0 {
      SquareOfDist(tok, m - 1);
      RowOfDist(tok, m - 1, |tok|);
    }
  }

  /** A high score of any response forces agreement: the mean distance is at most
      2(n - 1)/n times that response's distance to the others. */
  lemma ScoreForcesAgreement(tok: seq<seq<string>>, w: nat)
    requires |tok| >= 2 && w < |tok|
    ensures |tok| as real * (1.0 - Agreement(tok)) <= 2.0 * (|tok| - 1) as real * (1.0 - VoteScore(tok, w))
  {
    hide IsMetric, Symmetric, ZeroDiagonal, Jaccard, Dist, Sim;
    var n := |tok|;
    var d, g := Dist(tok), Sim(tok);
    DistIsMetric(tok);
    AllPairsFromOne(d, n, w);
    RowOfDist(tok, w, n);
    SquareOfDist(tok, n);
    SquareIsTwiceUp(g, n, n);
    PairCountClosed(n);
    TimesIsProduct(n, (n - 1) as real);
    TimesIsProduct(n - 1, (n - 1) as real - Row(g, w, n));
    BracketArithmetic(n, PairCount(n), Up(g, n, n), Row(g, w, n));
  }

  lemma BracketArithmetic(n: nat, pairs: nat, up: real, row: real)
    requires n >= 2 && 2 * pairs == n * (n - 1)
    requires n as real * (n - 1) as real - 2.0 * up <= 2.0 * ((n - 1) as real * ((n - 1) as real - row))
    ensures pairs > 0
    ensures n as real * (1.0 - up / pairs as real) <= 2.0 * (n - 1) as real * (1.0 - row / (n - 1) as real)
  {
    MeanArithmetic(n, pairs, up);
    var a, c := n as real, (n - 1) as real;
    var q, s := up / pairs as real, row / c;
    assert s * c == row;
    assert (a * q) * c == 2.0 * up;
    assert (a * (1.0 - q)) * c == a * c - 2.0 * up by {
      assert a * (1.0 - q) == a - a * q;
    }
    assert (2.0 * c * (1.0 - s)) * c == 2.0 * (c * (c - row)) by {
      assert (1.0 - s) * c == c - row;
    }
    CancelLe(c, a * (1.0 - q), 2.0 * c * (1.0 - s));
  }

  /** The winner's score is at least the agreement. */
  lemma AgreementBelowWinner(tok: seq<seq<string>>, w: nat)
    requires |tok| >= 2 && w < |tok|
    requires forall i: nat | i < |tok| :: VoteScore(tok, i) <= VoteScore(tok, w)
    ensures Agreement(tok) <= VoteScore(tok, w)
  {
    MeanScoreIsAgreement(tok);
    ScoreSumBound(tok, |tok|, VoteScore(tok, w));
    TimesIsProduct(|tok|, VoteScore(tok, w));
    CancelLe(|tok| as real, Agreement(tok), VoteScore(tok, w));
  }

  lemma {:induction false} ScoreSumBound(tok: seq<seq<string>>, m: nat, top: real)
    requires m <= |tok| && forall i: nat | i < |tok| :: VoteScore(tok, i) <= top
    ensures ScoreSum(tok, m) <= Times(m, top)
  {
    if m > 0 {
      ScoreSumBound(tok, m - 1, top);
    }
  }

  lemma {:induction false} ConstantRow(g: (nat, nat) -> real, i: nat, n: nat, x: real)
    requires forall j: nat | j < n :: g(i, j) == if i == j then 0.0 else x
    ensures Row(g, i, n) == Times(if i < n then n - 1 else n, x)
  {
    if n > 0 {
      ConstantRow(g, i, n - 1, x);
    }
  }

  lemma {:induction false} ConstantScores(tok: seq<seq<string>>, m: nat, x: real)
    requires m <= |tok| && forall i: nat | i < |tok| :: VoteScore(tok, i) == x
    ensures ScoreSum(tok, m) == Times(m, x)
  {
    if m > 0 {
      ConstantScores(tok, m - 1, x);
    }
  }

  lemma UniformScore(tok: seq<seq<string>>, i: nat, x: real)
    requires |tok| >= 2 && i < |tok|
    requires forall j: nat | j < |tok| :: Sim(tok)(i, j) == if i == j then 0.0 else x
    ensures VoteScore(tok, i) == x
  {
    hide Sim;
    var n := |tok|;
    ConstantRow(Sim(tok), i, n, x);
    TimesIsProduct(n - 1, x);
    Unique(x, Row(Sim(tok), i, n), (n - 1) as real);
  }

  /** If any two of the texts are equally similar, that is the agreement and every score. */
  lemma UniformAgreement(tok: seq<seq<string>>, x: real)
    requires |tok| >= 2
    requires forall i, j | 0 <= i < |tok| && 0 <= j < |tok| && i != j :: Jaccard(tok[i], tok[j]) == x
    ensures Agreement(tok) == x && forall i: nat | i < |tok| :: VoteScore(tok, i) == x
  {
    hide Agreement, VoteScore, Jaccard;
    forall i: nat | i < |tok| ensures VoteScore(tok, i) == x {
      UniformScore(tok, i, x);
    }
    ConstantScores(tok, |tok|, x);
    TimesIsProduct(|tok|, x);
    MeanScoreIsAgreement(tok);
    SameFactor(|tok| as real, x, Agreement(tok));
  }

  lemma SameFactor(n: real, x: real, y: real)
    requires n > 0.0 && n * x == n * y
    ensures x == y
  {
    assert n * (x - y) == 0.0;
  }

  /** Texts of the same words agree fully, whatever their order and repetition; texts without
      a common word, not at all. */
  lemma AgreementExtremes(tok: seq<seq<string>>)
    requires |tok| >= 2
    ensures (forall i, j | 0 <= i < j < |tok| :: Tokens(tok[i]) == Tokens(tok[j])) ==> Agreement(tok) == 1.0
    ensures (forall i, j | 0 <= i < j < |tok| :: Tokens(tok[i]) * Tokens(tok[j]) == {} && tok[i] != [] && tok[j] != [])
      ==> Agreement(tok) == 0.0
  {
    hide Agreement, SetSimilarity;
    if forall i, j | 0 <= i < j < |tok| :: Tokens(tok[i]) == Tokens(tok[j]) {
      forall i, j | 0 <= i < |tok| && 0 <= j < |tok| && i != j ensures Jaccard(tok[i], tok[j]) == 1.0 {
        assert Tokens(tok[if i < j then i else j]) == Tokens(tok[if i < j then j else i]);
        SimilarityBounds(Tokens(tok[i]), Tokens(tok[j]));
      }
      UniformAgreement(tok, 1.0);
    }
    if forall i, j | 0 <= i < j < |tok| :: Tokens(tok[i]) * Tokens(tok[j]) == {} && tok[i] != [] && tok[j] != [] {
      forall i, j | 0 <= i < |tok| && 0 <= j < |tok| && i != j ensures Jaccard(tok[i], tok[j]) == 0.0 {
        ApartIsZero(tok[if i < j then i else j], tok[if i < j then j else i]);
        SimilarityBounds(Tokens(tok[i]), Tokens(tok[j]));
      }
      UniformAgreement(tok, 0.0);
    }
  }

  lemma ApartIsZero(a: seq<string>, b: seq<string>)
    requires Tokens(a) * Tokens(b) == {} && a != []
    ensures Jaccard(a, b) == 0.0
  {
    assert a[0] in Tokens(a);
    SimilarityIsShare(Tokens(a), Tokens(b));
  }
}
