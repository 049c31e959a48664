/** Aggregating the verdicts of the judge panel, mono/swarm/consensus.py:947-1100.

    AggregateVerdicts follows the source's loops. Aggregate says what they compute, and the
    lemmas say what that means: at most one name can reach the quorum, and the order of
    the verdicts matters in exactly one situation. */
module Verdicts {
  import opened Wrappers
  import opened RealArithmetic

  datatype Strategy = PickBest | MajorityVote | GptAsJudge | MultiJudgePanel | Auto

  datatype Response = Response(provider: string, model: string, content: string, error: string)

  datatype Verdict = Verdict(
    judge: string, winner: string, confidence: real,
    scores: map<string, real>, synthesised: string, error: string)
  {
    predicate Succeeded() {
      error == "" && winner != ""
    }

    predicate Votes() {
      winner != "" && winner != "synthesis"
    }

    predicate Synthesises() {
      winner == "synthesis" && synthesised != ""
    }

    function ScoreOf(p: string): real {
      if p in scores then scores[p] else 0.0
    }
  }

  datatype ConsensusResult = ConsensusResult(
    content: string, strategy: Strategy, provider: string, model: string,
    confidence: real, scores: map<string, real>, judgeCount: nat, judgeAgreement: real)

  // ---------- Counting and summing, in any order ----------

  ghost function Count<T(!new)>(s: seq<T>, p: T -> bool): nat {
    if s == [] then 0 else Count(s[..|s| - 1], p) + (if p(s[|s| - 1]) then 1 else 0)
  }

  ghost function Sum<T(!new)>(s: seq<T>, f: T -> real): real {
    if s == [] then 0.0 else Sum(s[..|s| - 1], f) + f(s[|s| - 1])
  }

  lemma {:induction false} PullOut<T(!new)>(s: seq<T>, i: nat, p: T -> bool, f: T -> real)
    requires i < |s|
    ensures Count(s, p) == Count(s[..i] + s[i + 1..], p) + (if p(s[i]) then 1 else 0)
    ensures Sum(s, f) == Sum(s[..i] + s[i + 1..], f) + f(s[i])
  {
    var n := |s| - 1;
    if i == n {
      assert s[..i] + s[i + 1..] == s[..n];
    } else {
      PullOut(s[..n], i, p, f);
      var t := s[..i] + s[i + 1..];
      assert t[..|t| - 1] == s[..n][..i] + s[..n][i + 1..];
      assert t[|t| - 1] == s[n];
    }
  }

  lemma WithoutOne<T>(s: seq<T>, i: nat)
    requires i < |s|
    ensures multiset(s[..i] + s[i + 1..]) == multiset(s) - multiset{s[i]}
  {
    assert s == s[..i] + [s[i]] + s[i + 1..];
  }

  /** Counts and sums depend only on the multiset of the elements. */
  lemma {:induction false} Permuted<T(!new)>(s: seq<T>, t: seq<T>, p: T -> bool, f: T -> real)
    requires multiset(s) == multiset(t)
    ensures Count(s, p) == Count(t, p)
    ensures Sum(s, f) == Sum(t, f)
  {
    if s == [] {
      assert |t| == |multiset(t)| == 0;
    } else {
      var n := |s| - 1;
      assert s[n] in multiset(t);
      var i :| 0 <= i < |t| && t[i] == s[n];
      var t' := t[..i] + t[i + 1..];
      WithoutOne(t, i);
      WithoutOne(s, n);
      assert s[..n] + s[n + 1..] == s[..n];
      Permuted(s[..n], t', p, f);
      PullOut(t, i, p, f);
    }
  }

  lemma {:induction false} CountBound<T(!new)>(s: seq<T>, p: T -> bool)
    ensures Count(s, p) <= |s|
    ensures Count(s, p) > 0 <==> exists x :: x in s && p(x)
  {
    if s != [] {
      var n := |s| - 1;
      CountBound(s[..n], p);
      assert s == s[..n] + [s[n]];
      if Count(s[..n], p) > 0 {
        var x :| x in s[..n] && p(x);
        assert x in s;
      }
    }
  }

  lemma {:induction false} DisjointCounts<T(!new)>(s: seq<T>, p: T -> bool, q: T -> bool)
    requires forall x :: !(p(x) && q(x))
    ensures Count(s, p) + Count(s, q) <= |s|
  {
    if s != [] {
      DisjointCounts(s[..|s| - 1], p, q);
    }
  }

  // ---------- Votes and quorum ----------

  ghost function ForName(name: string): Verdict -> bool {
    (v: Verdict) => v.Votes() && v.winner == name
  }

  ghost function VoteCount(vs: seq<Verdict>, name: string): nat {
    Count(vs, ForName(name))
  }

  function Quorum(judges: nat): nat {
    var q := (judges * 2 + 2) / 3;
    if q > 2 then q else 2
  }

  /** The quorum is two thirds of the judges, rounded up, from two judges on. */
  lemma QuorumIsTwoThirds(n: nat)
    requires n >= 2
    ensures 3 * Quorum(n) >= 2 * n
    ensures 3 * (Quorum(n) - 1) < 2 * n
    ensures 2 * Quorum(n) > n
  {
  }

  /** At most one name can reach the quorum, so the Counter's tie-breaking cannot matter. */
  lemma OneMajority(vs: seq<Verdict>, a: string, b: string)
    requires |vs| >= 1
    requires VoteCount(vs, a) >= Quorum(|vs|) && VoteCount(vs, b) >= Quorum(|vs|)
    ensures a == b
  {
    if a != b {
      DisjointCounts(vs, ForName(a), ForName(b));
    }
  }

  ghost predicate HasMajority(vs: seq<Verdict>) {
    exists name :: VoteCount(vs, name) >= Quorum(|vs|)
  }

  ghost function MajorityName(vs: seq<Verdict>): string
    requires HasMajority(vs)
  {
    var name :| VoteCount(vs, name) >= Quorum(|vs|); name
  }

  ghost predicate IsTop(vs: seq<Verdict>, top: nat) {
    && (forall name :: VoteCount(vs, name) <= top)
    && (top > 0 ==> exists name :: VoteCount(vs, name) == top)
  }

  /** The highest number of votes for one name. */
  ghost function TopVotes(vs: seq<Verdict>): (top: nat)
    ensures IsTop(vs, top)
  {
    TopExists(vs, |vs|);
    var top: nat :| IsTop(vs, top); top
  }

  lemma {:induction false} TopExists(vs: seq<Verdict>, bound: nat)
    requires forall name :: VoteCount(vs, name) <= bound || bound == |vs|
    ensures exists top: nat :: IsTop(vs, top)
    decreases bound
  {
    forall name ensures VoteCount(vs, name) <= bound {
      CountBound(vs, ForName(name));
    }
    if bound == 0 || exists name :: VoteCount(vs, name) == bound {
      assert IsTop(vs, bound);
    } else {
      assert forall name :: VoteCount(vs, name) <= bound - 1;
      TopExists(vs, bound - 1);
    }
  }

  lemma TopUnique(vs: seq<Verdict>, a: nat, b: nat)
    requires IsTop(vs, a) && IsTop(vs, b)
    ensures a == b
  {
  }

  /** The names with a vote, each where it was first given one. */
  function FirstSeen(vs: seq<Verdict>): seq<string> {
    if vs == [] then [] else
    var before, v := FirstSeen(vs[..|vs| - 1]), vs[|vs| - 1];
    if v.Votes() && v.winner !in before then before + [v.winner] else before
  }

  /** The votes as the source's Counter holds them: counts, and names in first-seen order. */
  method CountVotes(vs: seq<Verdict>) returns (votes: map<string, nat>, order: seq<string>)
    ensures forall name :: name in votes <==> VoteCount(vs, name) > 0
    ensures forall name | name in votes :: votes[name] == VoteCount(vs, name)
    ensures forall name :: name in order <==> name in votes
    ensures order == FirstSeen(vs)
  {
    votes, order := map[], [];
    for k := 0 to |vs|
      invariant forall name :: name in votes <==> VoteCount(vs[..k], name) > 0
      invariant forall name | name in votes :: votes[name] == VoteCount(vs[..k], name)
      invariant forall name :: name in order <==> name in votes
      invariant order == FirstSeen(vs[..k])
    {
      assert vs[..k + 1][..k] == vs[..k];
      var v := vs[k];
      if v.winner != "" && v.winner != "synthesis" {
        if v.winner in votes {
          votes := votes[v.winner := votes[v.winner] + 1];
        } else {
          votes := votes[v.winner := 1];
          order := order + [v.winner];
        }
      }
    }
    assert vs[..|vs|] == vs;
  }

  /** Counter.most_common(1): the first name in the order with the highest count. */
  method MostCommon(votes: map<string, nat>, order: seq<string>) returns (name: string, count: nat)
    requires order != [] && forall s | s in order :: s in votes
    ensures name in order && count == votes[name]
    ensures forall s | s in order :: votes[s] <= count
    ensures exists i | 0 <= i < |order| :: order[i] == name && forall j | 0 <= j < i :: votes[order[j]] < count
  {
    name, count := order[0], votes[order[0]];
    ghost var i := 0;
    for k := 1 to |order|
      invariant 0 <= i < k && order[i] == name && count == votes[name]
      invariant forall j | 0 <= j < i :: votes[order[j]] < count
      invariant forall j | 0 <= j < k :: votes[order[j]] <= count
    {
      if votes[order[k]] > count {
        name, count, i := order[k], votes[order[k]], k;
      }
    }
  }

  // ---------- Syntheses ----------

  /** The first of the most confident syntheses; one without positive confidence is passed over. */
  ghost function BestSynthesis(vs: seq<Verdict>): (best: Option<Verdict>)
    ensures best.Some? ==> best.value in vs && best.value.Synthesises() && best.value.confidence > 0.0
    ensures best.Some? ==> forall v | v in vs && v.Synthesises() :: v.confidence <= best.value.confidence
    ensures best.None? ==> forall v | v in vs && v.Synthesises() :: v.confidence <= 0.0
  {
    if vs == [] then None else
    var n := |vs| - 1;
    var best, v := BestSynthesis(vs[..n]), vs[n];
    assert vs == vs[..n] + [v];
    if v.Synthesises() && v.confidence > (if best.Some? then best.value.confidence else 0.0)
    then Some(v) else best
  }

  method FindSynthesis(vs: seq<Verdict>) returns (text: string, confidence: real)
    ensures BestSynthesis(vs).None? ==> text == "" && confidence == 0.0
    ensures BestSynthesis(vs).Some? ==>
      text == BestSynthesis(vs).value.synthesised && confidence == BestSynthesis(vs).value.confidence
  {
    text, confidence := "", 0.0;
    for k := 0 to |vs|
      invariant BestSynthesis(vs[..k]).None? ==> text == "" && confidence == 0.0
      invariant BestSynthesis(vs[..k]).Some? ==>
        text == BestSynthesis(vs[..k]).value.synthesised && confidence == BestSynthesis(vs[..k]).value.confidence
    {
      assert vs[..k + 1][..k] == vs[..k];
      var v := vs[k];
      if v.winner == "synthesis" && v.synthesised != "" {
        if v.confidence > confidence {
          text, confidence := v.synthesised, v.confidence;
        }
      }
    }
    assert vs[..|vs|] == vs;
  }

  // ---------- Composite scores ----------

  ghost function Occurrences(rs: seq<Response>, p: string): nat {
    Count(rs, (r: Response) => r.provider == p)
  }

  ghost predicate Distinct(rs: seq<Response>) {
    forall i, j | 0 <= i < j < |rs| :: rs[i].provider != rs[j].provider
  }

  /** x divided by n, k times over. */
  ghost function DivideBy(x: real, n: nat, k: nat): real
    requires n > 0
  {
    if k == 0 then x else DivideBy(x, n, k - 1) / n as real
  }

  ghost function ScoreTimes(k: nat, p: string): Verdict -> real {
    (v: Verdict) => Times(k, v.ScoreOf(p))
  }

  /** The composite score of a provider that occurs k times: the loops add every score
      k times and divide the total k times. */
  ghost function Composite(vs: seq<Verdict>, rs: seq<Response>, p: string): real
    requires vs != []
  {
    var k := Occurrences(rs, p);
    DivideBy(Sum(vs, ScoreTimes(k, p)), |vs|, k)
  }

  lemma {:induction false} OccursOnce(rs: seq<Response>, p: string)
    requires Distinct(rs)
    ensures Occurrences(rs, p) == if exists r :: r in rs && r.provider == p then 1 else 0
  {
    if rs != [] {
      var n := |rs| - 1;
      OccursOnce(rs[..n], p);
      assert rs == rs[..n] + [rs[n]];
      if rs[n].provider == p {
        assert rs[n] in rs;
        assert forall r | r in rs[..n] :: r.provider != p;
      }
    }
  }

  lemma {:induction false} OneTime(vs: seq<Verdict>, p: string)
    ensures Sum(vs, ScoreTimes(1, p)) == Sum(vs, (v: Verdict) => v.ScoreOf(p))
  {
    if vs != [] {
      OneTime(vs[..|vs| - 1], p);
      assert Times(1, vs[|vs| - 1].ScoreOf(p)) == Times(0, vs[|vs| - 1].ScoreOf(p)) + vs[|vs| - 1].ScoreOf(p);
    }
  }

  /** With distinct provider names the composite is the plain average over the judges. */
  lemma CompositeIsAverage(vs: seq<Verdict>, rs: seq<Response>, i: nat)
    requires vs != [] && Distinct(rs) && i < |rs|
    ensures Composite(vs, rs, rs[i].provider) == Sum(vs, (v: Verdict) => v.ScoreOf(rs[i].provider)) / |vs| as real
  {
    var p := rs[i].provider;
    OccursOnce(rs, p);
    assert rs[i] in rs;
    OneTime(vs, p);
    var x := Sum(vs, ScoreTimes(1, p));
    assert DivideBy(x, |vs|, 1) == DivideBy(x, |vs|, 0) / |vs| as real;
  }

  ghost function Power(n: nat, k: nat): real {
    if k == 0 then 1.0 else n as real * Power(n, k - 1)
  }

  lemma {:induction false} DividedOften(x: real, n: nat, k: nat)
    requires n > 0
    ensures DivideBy(x, n, k) * Power(n, k) == x
  {
    if k > 0 {
      DividedOften(x, n, k - 1);
      var y, p, d := DivideBy(x, n, k - 1), Power(n, k - 1), n as real;
      Undivided(y, p, d);
    }
  }

  lemma Undivided(y: real, p: real, d: real)
    requires d != 0.0
    ensures y / d * (d * p) == y * p
  {
    var q := y / d;
    assert q * d == y;
    assert q * (d * p) == q * d * p;
  }

  lemma {:induction false} SumOfTimes(vs: seq<Verdict>, k: nat, p: string)
    ensures Sum(vs, ScoreTimes(k, p)) == Times(k, Sum(vs, ScoreFor(p)))
  {
    if vs == [] {
      TimesIsProduct(k, 0.0);
    } else {
      var n := |vs| - 1;
      SumOfTimes(vs[..n], k, p);
      TimesSum(k, Sum(vs[..n], ScoreFor(p)), vs[n].ScoreOf(p));
    }
  }

  ghost function ScoreFor(p: string): Verdict -> real {
    (v: Verdict) => v.ScoreOf(p)
  }

  /** In general, for a name that k responses share: the scores are added k times, and the
      total is divided by the number of judges k times. */
  lemma CompositeOfShared(vs: seq<Verdict>, rs: seq<Response>, p: string)
    requires vs != []
    ensures var k := Occurrences(rs, p);
      Composite(vs, rs, p) * Power(|vs|, k) == k as real * Sum(vs, ScoreFor(p))
  {
    hide Sum, Occurrences, Times, DivideBy, Power, ScoreTimes, ScoreFor;
    var k := Occurrences(rs, p);
    SumOfTimes(vs, k, p);
    assert Composite(vs, rs, p) == DivideBy(Times(k, Sum(vs, ScoreFor(p))), |vs|, k);
    DividedTimes(k, Sum(vs, ScoreFor(p)), |vs|);
  }

  lemma DividedTimes(k: nat, x: real, n: nat)
    requires n > 0
    ensures DivideBy(Times(k, x), n, k) * Power(n, k) == k as real * x
  {
    hide Times, DivideBy, Power;
    TimesIsProduct(k, x);
    DividedOften(Times(k, x), n, k);
  }

  lemma {:induction false} EqualSum<T(!new)>(s: seq<T>, f: T -> real, x: real)
    requires forall i | 0 <= i < |s| :: f(s[i]) == x
    ensures Sum(s, f) == |s| as real * x
  {
    if s != [] {
      EqualSum(s[..|s| - 1], f, x);
      assert |s| as real * x == (|s| - 1) as real * x + x;
    }
  }

  ghost predicate ByProvider(m: map<string, real>, rs: seq<Response>) {
    forall p :: p in m <==> exists r :: r in rs && r.provider == p
  }

  method CompositeScores(vs: seq<Verdict>, rs: seq<Response>) returns (composite: map<string, real>)
    requires vs != []
    ensures ByProvider(composite, rs)
    ensures forall p | p in composite :: composite[p] == Composite(vs, rs, p)
  {
    hide DivideBy;
    composite := ZeroScores(rs);
    for a := 0 to |vs|
      invariant ByProvider(composite, rs)
      invariant forall p | p in composite :: composite[p] == Sum(vs[..a], ScoreTimes(Occurrences(rs, p), p))
    {
      composite := AddScores(vs[a], rs, composite);
      assert vs[..a + 1][..a] == vs[..a];
    }
    assert vs[..|vs|] == vs;
    composite := DivideScores(|vs|, rs, composite);
  }

  method ZeroScores(rs: seq<Response>) returns (composite: map<string, real>)
    ensures ByProvider(composite, rs)
    ensures forall p | p in composite :: composite[p] == 0.0
  {
    composite := map[];
    for i := 0 to |rs|
      invariant forall p :: p in composite <==> exists r :: r in rs[..i] && r.provider == p
      invariant forall p | p in composite :: composite[p] == 0.0
    {
      assert rs[..i + 1] == rs[..i] + [rs[i]];
      composite := composite[rs[i].provider := 0.0];
    }
    assert rs[..|rs|] == rs;
  }

  /** The last loop of the averaging: every name's total divided, once per occurrence. */
  method DivideScores(n: nat, rs: seq<Response>, total: map<string, real>) returns (composite: map<string, real>)
    requires n > 0 && ByProvider(total, rs)
    ensures ByProvider(composite, rs)
    ensures forall p | p in composite :: p in total && composite[p] == DivideBy(total[p], n, Occurrences(rs, p))
  {
    composite := total;
    for b := 0 to |rs|
      invariant composite.Keys == total.Keys
      invariant forall p | p in composite :: composite[p] == DivideBy(total[p], n, Occurrences(rs[..b], p))
    {
      assert rs[..b + 1][..b] == rs[..b];
      assert rs[b] in rs;
      var p := rs[b].provider;
      composite := composite[p := composite[p] / n as real];
    }
    assert rs[..|rs|] == rs;
  }

  /** The inner loop of the averaging: one judge's score for every provider name in turn. */
  method AddScores(v: Verdict, rs: seq<Response>, before: map<string, real>) returns (after: map<string, real>)
    requires ByProvider(before, rs)
    ensures after.Keys == before.Keys
    ensures forall p | p in after :: after[p] == before[p] + Times(Occurrences(rs, p), v.ScoreOf(p))
  {
    after := before;
    for b := 0 to |rs|
      invariant after.Keys == before.Keys
      invariant forall p | p in after :: after[p] == before[p] + Times(Occurrences(rs[..b], p), v.ScoreOf(p))
    {
      assert rs[..b + 1][..b] == rs[..b];
      var p := rs[b].provider;
      assert rs[b] in rs;
      after := after[p := after[p] + v.ScoreOf(p)];
    }
    assert rs[..|rs|] == rs;
  }

  // ---------- The aggregate ----------

  ghost predicate IsFirstOf(rs: seq<Response>, name: string, i: nat) {
    i < |rs| && rs[i].provider == name && forall k | 0 <= k < i :: rs[k].provider != name
  }

  /** The first response of that provider, else the first response of all. */
  ghost predicate IsNamed(rs: seq<Response>, name: string, r: Response)
    requires rs != []
  {
    if exists i: nat :: IsFirstOf(rs, name, i) then exists i: nat :: IsFirstOf(rs, name, i) && r == rs[i]
    else r == rs[0]
  }

  function Named(rs: seq<Response>, name: string): (r: Response)
    requires rs != []
    ensures r in rs && IsNamed(rs, name, r)
    ensures (exists x :: x in rs && x.provider == name) ==> r.provider == name
    ensures (forall x | x in rs :: x.provider != name) ==> r == rs[0]
  {
    NamedFrom(rs, name, 0)
  }

  function NamedFrom(rs: seq<Response>, name: string, i: nat): (r: Response)
    requires rs != [] && i <= |rs| && forall k | 0 <= k < i :: rs[k].provider != name
    ensures r in rs && IsNamed(rs, name, r)
    ensures (exists x :: x in rs && x.provider == name) ==> r.provider == name
    ensures (forall x | x in rs :: x.provider != name) ==> r == rs[0]
    decreases |rs| - i
  {
    if i == |rs| then rs[0]
    else if rs[i].provider == name then (assert IsFirstOf(rs, name, i); rs[i])
    else NamedFrom(rs, name, i + 1)
  }

  method FindNamed(rs: seq<Response>, name: string) returns (found: Option<Response>)
    requires rs != []
    ensures found.Some? ==> found.value == Named(rs, name) && found.value.provider == name && found.value in rs
    ensures found.None? ==> forall r | r in rs :: r.provider != name
  {
    hide IsNamed;
    for k := 0 to |rs|
      invariant forall j | 0 <= j < k :: rs[j].provider != name
      invariant NamedFrom(rs, name, k) == Named(rs, name)
    {
      if rs[k].provider == name {
        return Some(rs[k]);
      }
    }
    return None;
  }

  /** The first provider, in the order of the responses, with the highest composite score. */
  ghost predicate IsBestProvider(vs: seq<Verdict>, rs: seq<Response>, i: nat)
    requires vs != []
  {
    && i < |rs|
    && (forall k | 0 <= k < |rs| :: Composite(vs, rs, rs[k].provider) <= Composite(vs, rs, rs[i].provider))
    && (forall k | 0 <= k < i :: Composite(vs, rs, rs[k].provider) < Composite(vs, rs, rs[i].provider))
  }

  method BestByScore(vs: seq<Verdict>, rs: seq<Response>, composite: map<string, real>) returns (i: nat)
    requires vs != [] && rs != [] && ByProvider(composite, rs)
    requires forall p | p in composite :: composite[p] == Composite(vs, rs, p)
    ensures i < |rs| && IsBestProvider(vs, rs, i)
  {
    hide Composite;
    i := 0;
    assert forall k | 0 <= k < |rs| :: rs[k] in rs && rs[k].provider in composite;
    for k := 1 to |rs|
      invariant i < k
      invariant forall j | 0 <= j < k :: composite[rs[j].provider] <= composite[rs[i].provider]
      invariant forall j | 0 <= j < i :: composite[rs[j].provider] < composite[rs[i].provider]
    {
      if composite[rs[k].provider] > composite[rs[i].provider] {
        i := k;
      }
    }
  }

  lemma {:induction false} BestProviderExists(vs: seq<Verdict>, rs: seq<Response>, n: nat) returns (i: nat)
    requires vs != [] && 1 <= n <= |rs|
    ensures i < n
    ensures forall k | 0 <= k < n :: Composite(vs, rs, rs[k].provider) <= Composite(vs, rs, rs[i].provider)
    ensures forall k | 0 <= k < i :: Composite(vs, rs, rs[k].provider) < Composite(vs, rs, rs[i].provider)
  {
    if n == 1 {
      i := 0;
    } else {
      i := BestProviderExists(vs, rs, n - 1);
      if Composite(vs, rs, rs[n - 1].provider) > Composite(vs, rs, rs[i].provider) {
        i := n - 1;
      }
    }
  }

  ghost function BestProvider(vs: seq<Verdict>, rs: seq<Response>): (i: nat)
    requires vs != [] && rs != []
    ensures IsBestProvider(vs, rs, i)
  {
    assert exists i :: IsBestProvider(vs, rs, i) by {
      var i := BestProviderExists(vs, rs, |rs|);
      assert IsBestProvider(vs, rs, i);
    }
    var i :| IsBestProvider(vs, rs, i); i
  }

  ghost function Confidence(): Verdict -> real {
    (v: Verdict) => v.confidence
  }

  ghost function MeanConfidence(vs: seq<Verdict>): real
    requires vs != []
  {
    Sum(vs, Confidence()) / |vs| as real
  }

  /** Judges who are equally sure are that sure on average. */
  lemma EqualConfidence(vs: seq<Verdict>, x: real)
    requires vs != [] && forall v | v in vs :: v.confidence == x
    ensures MeanConfidence(vs) == x
  {
    EqualSum(vs, Confidence(), x);
    Unique(x, Sum(vs, Confidence()), |vs| as real);
  }

  ghost function JudgeAgreement(vs: seq<Verdict>): real
    requires vs != []
  {
    TopVotes(vs) as real / |vs| as real
  }

  function Providers(rs: seq<Response>): set<string> {
    set r | r in rs :: r.provider
  }

  ghost function Scores(vs: seq<Verdict>, rs: seq<Response>): map<string, real>
    requires vs != []
  {
    map p | p in Providers(rs) :: Composite(vs, rs, p)
  }

  /** The confidence of a majority, and of a panel without one. */
  function Boosted(mean: real, agreement: real): real {
    var boosted := mean + 0.1 * agreement;
    if boosted < 1.0 then boosted else 1.0
  }

  function Lowered(mean: real, agreement: real): real {
    var lowered := mean * agreement;
    if agreement > 0.0 then (if lowered > 0.1 then lowered else 0.1) else 0.3
  }

  /** The panel's answer: the majority's choice, else the most confident synthesis, else the
      response with the highest composite score. */
  ghost function Aggregate(vs: seq<Verdict>, rs: seq<Response>): ConsensusResult
    requires vs != [] && rs != []
  {
    var agreement, mean := JudgeAgreement(vs), MeanConfidence(vs);
    if HasMajority(vs) then
      Panel(Named(rs, MajorityName(vs)), Boosted(mean, agreement), vs, rs)
    else if BestSynthesis(vs).Some? then
      var s := BestSynthesis(vs).value;
      ConsensusResult(s.synthesised, MultiJudgePanel, "consensus", "multi-judge-synthesis",
        s.confidence * 0.9, Scores(vs, rs), |vs|, agreement)
    else
      Panel(rs[BestProvider(vs, rs)], Lowered(mean, agreement), vs, rs)
  }

  ghost function Panel(r: Response, confidence: real, vs: seq<Verdict>, rs: seq<Response>): ConsensusResult
    requires vs != []
  {
    ConsensusResult(r.content, MultiJudgePanel, r.provider, r.model, confidence,
      Scores(vs, rs), |vs|, JudgeAgreement(vs))
  }

  /** The voting part: the majority's name, or "", and the share of the most chosen name. */
  method TallyVotes(vs: seq<Verdict>) returns (winner: string, agreement: real)
    requires vs != []
    ensures winner != "" <==> HasMajority(vs)
    ensures HasMajority(vs) ==> winner == MajorityName(vs)
    ensures agreement == JudgeAgreement(vs)
  {
    var votes, order := CountVotes(vs);
    winner, agreement := "", 0.0;
    if order != [] {
      var topWinner, topCount := MostCommon(votes, order);
      TopIsMostCommon(vs, topWinner, topCount);
      if topCount >= Quorum(|vs|) {
        winner := topWinner;
        OneMajority(vs, topWinner, MajorityName(vs));
      }
      agreement := topCount as real / |vs| as real;
    } else {
      assert IsTop(vs, 0);
      TopUnique(vs, 0, TopVotes(vs));
    }
  }

  method AverageConfidence(vs: seq<Verdict>) returns (mean: real)
    requires vs != []
    ensures mean == MeanConfidence(vs)
  {
    var total := 0.0;
    for k := 0 to |vs|
      invariant total == Sum(vs[..k], Confidence())
    {
      assert vs[..k + 1][..k] == vs[..k];
      total := total + vs[k].confidence;
    }
    assert vs[..|vs|] == vs;
    mean := total / |vs| as real;
  }

  // ---------- What the panel decides ----------

  /** The judges that name p. */
  ghost function Naming(vs: seq<Verdict>, p: string): set<nat> {
    set k: nat | k < |vs| && vs[k].winner == p
  }

  predicate IsChoice(p: string) {
    p != "" && p != "synthesis"
  }

  /** At least two judges and at least two thirds of them name p. */
  ghost predicate Carries(vs: seq<Verdict>, p: string) {
    IsChoice(p) && |Naming(vs, p)| >= 2 && 3 * |Naming(vs, p)| >= 2 * |vs|
  }

  ghost predicate TakenFrom(r: ConsensusResult, x: Response) {
    r.content == x.content && r.provider == x.provider && r.model == x.model
  }

  /** The first of the most confident syntheses. */
  ghost predicate IsTopSynthesis(vs: seq<Verdict>, k: nat) {
    && k < |vs| && vs[k].Synthesises() && vs[k].confidence > 0.0
    && (forall j | 0 <= j < |vs| && vs[j].Synthesises() :: vs[j].confidence <= vs[k].confidence)
    && (forall j | 0 <= j < k && vs[j].Synthesises() :: vs[j].confidence < vs[k].confidence)
  }

  /** The first of the responses with the highest score. */
  ghost predicate IsTopScored(scores: map<string, real>, rs: seq<Response>, i: nat) {
    && i < |rs| && (forall k | 0 <= k < |rs| :: rs[k].provider in scores)
    && (forall k | 0 <= k < |rs| :: scores[rs[k].provider] <= scores[rs[i].provider])
    && (forall k | 0 <= k < i :: scores[rs[k].provider] < scores[rs[i].provider])
  }

  /** The mean of the judges' scores, or what the code makes of it for a shared name. */
  ghost predicate AreMeans(scores: map<string, real>, vs: seq<Verdict>, rs: seq<Response>)
    requires vs != []
  {
    && ByProvider(scores, rs)
    && forall p | p in scores ::
         scores[p] * Power(|vs|, Occurrences(rs, p)) == Occurrences(rs, p) as real * Sum(vs, ScoreFor(p))
  }

  /** a is the share of the judges that name the most named one. */
  ghost predicate IsTopShare(vs: seq<Verdict>, a: real) {
    && (forall p | IsChoice(p) :: |Naming(vs, p)| as real <= a * |vs| as real)
    && exists p :: (IsChoice(p) || a == 0.0) && (IsChoice(p) ==> |Naming(vs, p)| as real == a * |vs| as real)
  }

  /** The judges' mean confidence, raised by a tenth of the agreement and capped at one. */
  ghost predicate IsBoosted(confidence: real, vs: seq<Verdict>, a: real)
    requires vs != []
  {
    var boosted := Sum(vs, Confidence()) / |vs| as real + 0.1 * a;
    confidence == if boosted < 1.0 then boosted else 1.0
  }

  /** The mean confidence times the agreement, at least a tenth; 0.3 without any vote. */
  ghost predicate IsLowered(confidence: real, vs: seq<Verdict>, a: real)
    requires vs != []
  {
    var lowered := Sum(vs, Confidence()) / |vs| as real * a;
    confidence == if a <= 0.0 then 0.3 else if lowered > 0.1 then lowered else 0.1
  }

  ghost predicate BySynthesis(r: ConsensusResult, vs: seq<Verdict>, k: nat) {
    && IsTopSynthesis(vs, k) && r.content == vs[k].synthesised && r.confidence == vs[k].confidence * 0.9
    && r.provider == "consensus" && r.model == "multi-judge-synthesis"
  }

  ghost predicate ByName(r: ConsensusResult, rs: seq<Response>, p: string)
    requires rs != []
  {
    exists x :: IsNamed(rs, p, x) && TakenFrom(r, x)
  }

  ghost predicate ByScore(r: ConsensusResult, rs: seq<Response>) {
    exists i: nat :: IsTopScored(r.scores, rs, i) && TakenFrom(r, rs[i])
  }

  /** The whole decision of a panel, in terms of the verdicts and responses alone. */
  ghost predicate IsDecision(r: ConsensusResult, vs: seq<Verdict>, rs: seq<Response>)
    requires vs != [] && rs != []
  {
    && r.strategy == MultiJudgePanel && r.judgeCount == |vs|
    && IsTopShare(vs, r.judgeAgreement) && AreMeans(r.scores, vs, rs)
    && (forall p | Carries(vs, p) :: ByName(r, rs, p) && IsBoosted(r.confidence, vs, r.judgeAgreement))
    && ((forall p :: !Carries(vs, p)) ==>
          if exists k: nat :: IsTopSynthesis(vs, k) then exists k: nat :: BySynthesis(r, vs, k)
          else ByScore(r, rs) && IsLowered(r.confidence, vs, r.judgeAgreement))
  }

  ghost function Places<T(!new)>(s: seq<T>, p: T -> bool): set<nat> {
    set k: nat | k < |s| && p(s[k])
  }

  lemma {:induction false} CountIsSize<T(!new)>(s: seq<T>, p: T -> bool)
    ensures Count(s, p) == |Places(s, p)|
  {
    if s != [] {
      var n := |s| - 1;
      CountIsSize(s[..n], p);
      assert Places(s, p) == if p(s[n]) then Places(s[..n], p) + {n} else Places(s[..n], p);
    }
  }

  lemma VotesAreNaming(vs: seq<Verdict>, p: string)
    ensures VoteCount(vs, p) == if IsChoice(p) then |Naming(vs, p)| else 0
  {
    CountIsSize(vs, ForName(p));
    assert Places(vs, ForName(p)) == if IsChoice(p) then Naming(vs, p) else {};
  }

  /** To carry the panel is to reach its quorum. */
  lemma CarriesIff(vs: seq<Verdict>, p: string)
    ensures Carries(vs, p) <==> VoteCount(vs, p) >= Quorum(|vs|)
  {
    VotesAreNaming(vs, p);
  }

  lemma {:induction false} BestIsFirst(vs: seq<Verdict>) returns (k: nat)
    ensures BestSynthesis(vs).Some? ==> IsTopSynthesis(vs, k) && vs[k] == BestSynthesis(vs).value
    ensures BestSynthesis(vs).None? ==> forall j: nat :: !IsTopSynthesis(vs, j)
  {
    k := 0;
    if vs != [] {
      var n := |vs| - 1;
      assert vs == vs[..n] + [vs[n]];
      k := BestIsFirst(vs[..n]);
      if BestSynthesis(vs).Some? && BestSynthesis(vs) != BestSynthesis(vs[..n]) {
        k := n;
        assert forall j | 0 <= j < n && vs[j].Synthesises() :: vs[j] in vs[..n];
      }
    }
  }

  lemma ShareOfTop(vs: seq<Verdict>)
    requires vs != []
    ensures IsTopShare(vs, JudgeAgreement(vs))
  {
    hide VoteCount, Naming;
    var n, top := |vs|, TopVotes(vs);
    forall p ensures IsChoice(p) ==> |Naming(vs, p)| == VoteCount(vs, p) {
      VotesAreNaming(vs, p);
    }
    forall p ensures !IsChoice(p) ==> VoteCount(vs, p) == 0 {
      VotesAreNaming(vs, p);
    }
    forall p ensures IsChoice(p) ==> |Naming(vs, p)| as real <= JudgeAgreement(vs) * n as real {
      Share(|Naming(vs, p)|, top, n);
    }
    Share(top, top, n);
    if top == 0 {
      assert !IsChoice("");
    }
  }

  lemma Share(k: nat, top: nat, n: nat)
    requires n > 0
    ensures var a := top as real / n as real;
      (k <= top <==> k as real <= a * n as real) && a * n as real == top as real && (top == 0 ==> a == 0.0)
  {
  }

  lemma ScoresAreMeans(vs: seq<Verdict>, rs: seq<Response>)
    requires vs != []
    ensures AreMeans(Scores(vs, rs), vs, rs)
  {
    forall p | p in Providers(rs)
      ensures Composite(vs, rs, p) * Power(|vs|, Occurrences(rs, p))
        == Occurrences(rs, p) as real * Sum(vs, ScoreFor(p))
    {
      CompositeOfShared(vs, rs, p);
    }
  }

  lemma AggregateDecides(vs: seq<Verdict>, rs: seq<Response>)
    requires vs != [] && rs != []
    ensures IsDecision(Aggregate(vs, rs), vs, rs)
  {
    hide AreMeans, IsTopShare, JudgeAgreement, Composite, Sum, VoteCount, Carries, ByName, BySynthesis, ByScore;
    hide IsBoosted, IsLowered, Boosted, Lowered, Scores, IsTopSynthesis, BestSynthesis, MeanConfidence;
    ShareOfTop(vs);
    ScoresAreMeans(vs, rs);
    ConfidenceOf(vs, JudgeAgreement(vs));
    forall p ensures Carries(vs, p) <==> VoteCount(vs, p) >= Quorum(|vs|) {
      CarriesIff(vs, p);
    }
    if HasMajority(vs) {
      var name := MajorityName(vs);
      forall p | Carries(vs, p) ensures p == name {
        OneMajority(vs, p, name);
      }
      MajorityAnswers(vs, rs);
    } else {
      OthersAnswer(vs, rs);
    }
  }

  lemma ConfidenceOf(vs: seq<Verdict>, a: real)
    requires vs != []
    ensures IsBoosted(Boosted(MeanConfidence(vs), a), vs, a) && IsLowered(Lowered(MeanConfidence(vs), a), vs, a)
  {
  }

  lemma MajorityAnswers(vs: seq<Verdict>, rs: seq<Response>)
    requires vs != [] && rs != [] && HasMajority(vs)
    ensures ByName(Aggregate(vs, rs), rs, MajorityName(vs))
  {
    hide IsNamed, Composite, Boosted;
    assert TakenFrom(Aggregate(vs, rs), Named(rs, MajorityName(vs)));
  }

  lemma OthersAnswer(vs: seq<Verdict>, rs: seq<Response>)
    requires vs != [] && rs != [] && !HasMajority(vs)
    ensures var r := Aggregate(vs, rs);
      if exists k: nat :: IsTopSynthesis(vs, k) then exists k: nat :: BySynthesis(r, vs, k)
      else ByScore(r, rs) && r.confidence == Lowered(MeanConfidence(vs), JudgeAgreement(vs))
  {
    hide IsTopSynthesis, Lowered, MeanConfidence, JudgeAgreement, HasMajority, Scores;
    var k := BestIsFirst(vs);
    if BestSynthesis(vs).Some? {
      assert BySynthesis(Aggregate(vs, rs), vs, k);
    } else {
      BestIsTopScored(vs, rs);
    }
  }

  lemma BestIsTopScored(vs: seq<Verdict>, rs: seq<Response>)
    requires vs != [] && rs != []
    ensures IsTopScored(Scores(vs, rs), rs, BestProvider(vs, rs))
  {
    hide Composite;
    assert forall j | 0 <= j < |rs| :: rs[j] in rs;
  }

  method AggregateVerdicts(vs: seq<Verdict>, rs: seq<Response>) returns (r: ConsensusResult)
    requires vs != [] && rs != []
    ensures r == Aggregate(vs, rs)
    ensures IsDecision(r, vs, rs)
  {
    AggregateDecides(vs, rs);
    hide IsDecision;
    hide JudgeAgreement, MeanConfidence, Composite, HasMajority, IsBestProvider, Boosted, Lowered;
    var majorityWinner, agreement := TallyVotes(vs);
    var composite := CompositeScores(vs, rs);
    assert composite == Scores(vs, rs);
    var mean := AverageConfidence(vs);
    var synthesis, synthesisConfidence := FindSynthesis(vs);
    if majorityWinner != "" {
      var found := FindNamed(rs, majorityWinner);
      var winner := if found.Some? then found.value else rs[0];
      return ConsensusResult(winner.content, MultiJudgePanel, winner.provider, winner.model,
        Boosted(mean, agreement), composite, |vs|, agreement);
    }
    if synthesis != "" {
      return ConsensusResult(synthesis, MultiJudgePanel, "consensus", "multi-judge-synthesis",
        synthesisConfidence * 0.9, composite, |vs|, agreement);
    }
    var i := BestByScore(vs, rs, composite);
    SameBest(vs, rs, i, BestProvider(vs, rs));
    assert !HasMajority(vs) && BestSynthesis(vs).None?;
    r := ConsensusResult(rs[i].content, MultiJudgePanel, rs[i].provider, rs[i].model,
      Lowered(mean, agreement), composite, |vs|, agreement);
  }

  lemma SameBest(vs: seq<Verdict>, rs: seq<Response>, i: nat, k: nat)
    requires vs != [] && IsBestProvider(vs, rs, i) && IsBestProvider(vs, rs, k)
    ensures i == k
  {
    var x, y := rs[i], rs[k];
  }

  lemma TopIsMostCommon(vs: seq<Verdict>, name: string, count: nat)
    requires count > 0 && count == VoteCount(vs, name)
    requires forall s | VoteCount(vs, s) > 0 :: VoteCount(vs, s) <= count
    ensures TopVotes(vs) == count
    ensures HasMajority(vs) <==> count >= Quorum(|vs|)
    ensures name != ""
  {
    assert IsTop(vs, count);
    TopUnique(vs, count, TopVotes(vs));
    CountBound(vs, ForName(name));
  }

  // ---------- The order of the verdicts ----------

  ghost predicate TopSynthesis(vs: seq<Verdict>, v: Verdict) {
    && v in vs && v.Synthesises() && v.confidence > 0.0
    && forall w | w in vs && w.Synthesises() :: w.confidence <= v.confidence
  }

  /** No majority, and two different texts share the highest confidence among the syntheses. */
  ghost predicate Ambiguous(vs: seq<Verdict>) {
    && !HasMajority(vs)
    && exists v, w :: TopSynthesis(vs, v) && TopSynthesis(vs, w) && v.synthesised != w.synthesised
  }

  lemma PermutedParts(vs: seq<Verdict>, ws: seq<Verdict>, rs: seq<Response>)
    requires vs != [] && ws != [] && multiset(vs) == multiset(ws)
    ensures |ws| == |vs|
    ensures forall v :: v in vs <==> v in ws
    ensures forall name :: VoteCount(vs, name) == VoteCount(ws, name)
    ensures TopVotes(vs) == TopVotes(ws)
    ensures MeanConfidence(vs) == MeanConfidence(ws)
    ensures forall p :: Composite(vs, rs, p) == Composite(ws, rs, p)
    ensures Scores(vs, rs) == Scores(ws, rs)
  {
    assert |vs| == |multiset(vs)| == |multiset(ws)| == |ws|;
    forall v ensures v in vs <==> v in ws {
      assert v in vs <==> v in multiset(vs);
    }
    forall name ensures VoteCount(vs, name) == VoteCount(ws, name) {
      Permuted(vs, ws, ForName(name), Confidence());
    }
    Permuted(vs, ws, ForName(""), Confidence());
    assert IsTop(ws, TopVotes(vs));
    TopUnique(ws, TopVotes(vs), TopVotes(ws));
    forall p ensures Composite(vs, rs, p) == Composite(ws, rs, p) {
      Permuted(vs, ws, ForName(""), ScoreTimes(Occurrences(rs, p), p));
    }
  }

  /** Unless the verdicts are ambiguous, every order of them gives the very same result. */
  lemma OrderIrrelevant(vs: seq<Verdict>, ws: seq<Verdict>, rs: seq<Response>)
    requires vs != [] && ws != [] && rs != [] && multiset(vs) == multiset(ws)
    requires !Ambiguous(vs)
    ensures Aggregate(vs, rs) == Aggregate(ws, rs)
  {
    hide Composite, MeanConfidence, TopVotes;
    PermutedParts(vs, ws, rs);
    if HasMajority(vs) {
      assert VoteCount(ws, MajorityName(vs)) >= Quorum(|ws|);
      OneMajority(ws, MajorityName(vs), MajorityName(ws));
    } else {
      assert !HasMajority(ws);
      var b, c := BestSynthesis(vs), BestSynthesis(ws);
      if b.Some? {
        assert c.Some?;
        assert TopSynthesis(vs, b.value) && TopSynthesis(vs, c.value);
      } else {
        assert c.None?;
        assert IsBestProvider(vs, rs, BestProvider(ws, rs));
        SameBest(vs, rs, BestProvider(vs, rs), BestProvider(ws, rs));
      }
    }
  }

  lemma {:induction false} LeadingSynthesis(v: Verdict, rest: seq<Verdict>)
    requires TopSynthesis([v] + rest, v)
    ensures BestSynthesis([v] + rest) == Some(v)
  {
    var vs := [v] + rest;
    if rest == [] {
      assert vs[..0] == [];
    } else {
      var n := |vs| - 1;
      assert vs[..n] == [v] + rest[..|rest| - 1];
      LeadingSynthesis(v, rest[..|rest| - 1]);
    }
  }

  /** Moving a top synthesis to the front makes it the chosen one. */
  lemma MoveToFront(vs: seq<Verdict>, rs: seq<Response>, u: Verdict) returns (ws: seq<Verdict>)
    requires vs != [] && rs != [] && !HasMajority(vs) && TopSynthesis(vs, u)
    ensures multiset(ws) == multiset(vs) && ws != []
    ensures Aggregate(ws, rs).content == u.synthesised
  {
    var i :| 0 <= i < |vs| && vs[i] == u;
    var rest := vs[..i] + vs[i + 1..];
    ws := [u] + rest;
    assert vs == vs[..i] + [u] + vs[i + 1..];
    assert multiset(ws) == multiset(vs);
    PermutedParts(vs, ws, rs);
    LeadingSynthesis(u, rest);
  }

  /** The order of the verdicts can change the chosen text exactly when they are ambiguous. */
  lemma OrderMattersIff(vs: seq<Verdict>, rs: seq<Response>)
    requires vs != [] && rs != []
    ensures Ambiguous(vs) <==> exists ws: seq<Verdict> ::
      ws != [] && multiset(ws) == multiset(vs) && Aggregate(ws, rs).content != Aggregate(vs, rs).content
  {
    hide Aggregate, HasMajority, TopSynthesis;
    if Ambiguous(vs) {
      var v, w :| TopSynthesis(vs, v) && TopSynthesis(vs, w) && v.synthesised != w.synthesised;
      var ws := MoveToFront(vs, rs, if v.synthesised != Aggregate(vs, rs).content then v else w);
    } else {
      forall ws: seq<Verdict> | ws != [] && multiset(ws) == multiset(vs)
        ensures Aggregate(ws, rs).content == Aggregate(vs, rs).content
      {
        OrderIrrelevant(vs, ws, rs);
      }
    }
  }
}
