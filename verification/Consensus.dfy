/** The consensus engine of mono/swarm/consensus.py: strategies and their fallback chain.

    The two LLM calls are the environment: a call may fail, and a reply is an arbitrary
    text together with what json.loads makes of it. `heard` records every reply that was
    parsed, so the contracts can say where a synthesised answer comes from. */
module Consensus {
  import opened Wrappers
  import opened Verdicts
  import Similarity

  /** A judge's JSON object; the scores keep the order of the object's members. */
  datatype JudgeData = JudgeData(
    winner: string, confidence: real, scores: seq<(string, real)>, synthesised: string)

  // BadShape is JSON the code cannot use: not an object, or a score that is no number.
  datatype Parsed = NotJson | BadShape | Json(data: JudgeData)

  datatype Completion = CallFailed | Completed(content: string, parsed: Parsed)

  datatype ProbeResult = ProbeResult(provider: string, content: string, error: string, parsed: Parsed)

  datatype Probe = ProbeFailed | Probed(results: seq<ProbeResult>)

  datatype Raised = MalformedReply

  /** The score of p in a judge's object: that of its last member p, or none. */
  ghost predicate IsScoreIn(scores: seq<(string, real)>, p: string, x: real) {
    || ((forall m | m in scores :: m.0 != p) && x == 0.0)
    || exists i :: 0 <= i < |scores| && scores[i] == (p, x) && forall j | i < j < |scores| :: scores[j].0 != p
  }

  function ScoreIn(scores: seq<(string, real)>, p: string): (x: real)
    ensures IsScoreIn(scores, p, x)
  {
    if scores == [] then 0.0
    else if scores[|scores| - 1].0 == p then scores[|scores| - 1].1
    else ScoreIn(scores[..|scores| - 1], p)
  }

  ghost predicate AreScoresIn(scores: seq<(string, real)>, rs: seq<Response>, m: map<string, real>) {
    ByProvider(m, rs) && forall p | p in m :: IsScoreIn(scores, p, m[p])
  }

  function ScoreMap(scores: seq<(string, real)>, rs: seq<Response>): (m: map<string, real>)
    ensures AreScoresIn(scores, rs, m)
  {
    hide IsScoreIn;
    map p | p in Providers(rs) :: ScoreIn(scores, p)
  }

  function Successful(thread: seq<Response>): seq<Response> {
    if thread == [] then []
    else Successful(thread[..|thread| - 1])
         + (if thread[|thread| - 1].error == "" then [thread[|thread| - 1]] else [])
  }

  lemma {:induction false} SuccessfulOnes(thread: seq<Response>)
    ensures forall x :: x in Successful(thread) <==> x in thread && x.error == ""
  {
    if thread != [] {
      var n := |thread| - 1;
      SuccessfulOnes(thread[..n]);
      assert thread == thread[..n] + [thread[n]];
    }
  }

  lemma {:induction false} SuccessfulPrefix(thread: seq<Response>, i: nat)
    requires i <= |thread|
    ensures Successful(thread[..i]) <= Successful(thread)
    decreases |thread|
  {
    if i == |thread| {
      assert thread[..i] == thread;
    } else {
      SuccessfulPrefix(thread[..|thread| - 1], i);
      assert thread[..|thread| - 1][..i] == thread[..i];
    }
  }

  /** The successful responses keep their order: each stands right behind those before it. */
  lemma SuccessfulInOrder(thread: seq<Response>, i: nat)
    requires i < |thread| && thread[i].error == ""
    ensures Successful(thread[..i]) + [thread[i]] <= Successful(thread)
  {
    var upto := thread[..i + 1];
    SuccessfulPrefix(thread, i + 1);
    assert upto[..i] == thread[..i] && upto[i] == thread[i];
    assert Successful(upto) == Successful(thread[..i]) + [thread[i]];
  }

  ghost predicate FromResponse(r: ConsensusResult, rs: seq<Response>) {
    exists x :: x in rs && TakenFrom(r, x)
  }

  ghost predicate FromSynthesis(r: ConsensusResult, replies: seq<Parsed>) {
    && r.content != "" && r.provider == "consensus"
    && exists p :: p in replies && p.Json? && p.data.winner == "synthesis" && p.data.synthesised == r.content
  }

  /** Where an answer may come from: one response as a whole, or one judge's synthesis. */
  ghost predicate Provenance(r: ConsensusResult, rs: seq<Response>, replies: seq<Parsed>) {
    FromResponse(r, rs) || FromSynthesis(r, replies)
  }

  /** The verdict says what the judge's object says. */
  ghost predicate Reports(v: Verdict, d: JudgeData, rs: seq<Response>) {
    && v.winner == d.winner && v.confidence == d.confidence && v.synthesised == d.synthesised && v.error == ""
    && AreScoresIn(d.scores, rs, v.scores)
  }

  ghost predicate AreReports(vs: seq<Verdict>, ds: seq<JudgeData>, rs: seq<Response>) {
    |vs| == |ds| && forall k | 0 <= k < |vs| :: Reports(vs[k], ds[k], rs)
  }

  /** The objects among the replies that name a winner, in their order. */
  function UsableData(replies: seq<Parsed>): seq<JudgeData> {
    if replies == [] then [] else
    UsableData(replies[..|replies| - 1]) + UsableIn(replies[|replies| - 1])
  }

  function UsableIn(reply: Parsed): seq<JudgeData> {
    if reply.Json? && reply.data.winner != "" then [reply.data] else []
  }

  lemma {:induction false} UsableOnes(replies: seq<Parsed>)
    ensures forall d :: d in UsableData(replies) <==> Json(d) in replies && d.winner != ""
  {
    if replies != [] {
      var n := |replies| - 1;
      UsableOnes(replies[..n]);
      assert replies == replies[..n] + [replies[n]];
    }
  }

  function Good(vs: seq<Verdict>): seq<Verdict> {
    if vs == [] then [] else
    Good(vs[..|vs| - 1]) + if vs[|vs| - 1].Succeeded() then [vs[|vs| - 1]] else []
  }

  lemma AggregateProvenance(vs: seq<Verdict>, rs: seq<Response>, replies: seq<Parsed>)
    requires vs != [] && rs != [] && AreReports(vs, UsableData(replies), rs)
    ensures Provenance(Aggregate(vs, rs), rs, replies)
    ensures Aggregate(vs, rs).strategy == MultiJudgePanel
  {
    hide Composite, AreScoresIn, UsableData;
    UsableOnes(replies);
    var r := Aggregate(vs, rs);
    if HasMajority(vs) {
      assert TakenFrom(r, Named(rs, MajorityName(vs)));
    } else if BestSynthesis(vs).Some? {
      var v := BestSynthesis(vs).value;
      var k :| 0 <= k < |vs| && vs[k] == v;
      assert Reports(vs[k], UsableData(replies)[k], rs);
      assert Json(UsableData(replies)[k]) in replies;
    } else {
      assert TakenFrom(r, rs[BestProvider(vs, rs)]);
    }
  }

  // ---------- Reading a probe result ----------

  function ReadVerdict(result: ProbeResult, rs: seq<Response>): Result<Verdict, Raised> {
    if result.error != "" then Ok(Verdict(result.provider, "", 0.0, map[], "", result.error))
    else if result.content == "" then Ok(Verdict(result.provider, "", 0.0, map[], "", "empty response"))
    else match result.parsed
      case NotJson => Ok(Verdict(result.provider, "", 0.0, map[], "", "non-JSON response"))
      case BadShape => Err(MalformedReply)
      case Json(d) => Ok(Verdict(result.provider, d.winner, d.confidence, ScoreMap(d.scores, rs), d.synthesised, ""))
  }

  /** The replies parsed while reading the result: none if it is an error or empty. */
  function Parses(result: ProbeResult): seq<Parsed> {
    if result.error == "" && result.content != "" then [result.parsed] else []
  }

  lemma VerdictMeans(result: ProbeResult, rs: seq<Response>)
    requires ReadVerdict(result, rs).Ok?
    ensures var v := ReadVerdict(result, rs).value;
      && |Parses(result)| <= 1
      && (v.Succeeded() <==> Parses(result) != [] && UsableIn(result.parsed) != [])
      && (v.Succeeded() ==> result.parsed.Json? && Reports(v, result.parsed.data, rs))
      && (Parses(result) != [] ==> Parses(result) == [result.parsed])
  {
    hide AreScoresIn;
  }

  lemma GoodSnoc(vs: seq<Verdict>, v: Verdict)
    ensures Good(vs + [v]) == if v.Succeeded() then Good(vs) + [v] else Good(vs)
  {
    assert (vs + [v])[..|vs|] == vs;
  }

  lemma UsableSnoc(replies: seq<Parsed>, reply: Parsed)
    ensures UsableData(replies + [reply]) == UsableData(replies) + UsableIn(reply)
  {
    assert (replies + [reply])[..|replies|] == replies;
  }

  lemma OneMoreVerdict(vs: seq<Verdict>, replies: seq<Parsed>, result: ProbeResult, rs: seq<Response>)
    requires ReadVerdict(result, rs).Ok?
    requires AreReports(Good(vs), UsableData(replies), rs)
    ensures AreReports(Good(vs + [ReadVerdict(result, rs).value]), UsableData(replies + Parses(result)), rs)
  {
    hide AreReports, Reports, Good, UsableData, Parses, ReadVerdict;
    var v := ReadVerdict(result, rs).value;
    VerdictMeans(result, rs);
    GoodSnoc(vs, v);
    UsableSnoc(replies, result.parsed);
    assert Parses(result) == [] ==> replies + Parses(result) == replies;
    if v.Succeeded() {
      OneMoreReport(Good(vs), UsableData(replies), v, result.parsed.data, rs);
    } else {
      assert UsableData(replies) + [] == UsableData(replies);
    }
  }

  lemma OneMoreReport(vs: seq<Verdict>, ds: seq<JudgeData>, v: Verdict, d: JudgeData, rs: seq<Response>)
    requires AreReports(vs, ds, rs) && Reports(v, d, rs)
    ensures AreReports(vs + [v], ds + [d], rs)
  {
    hide Reports;
  }

  // ---------- A single judge ----------

  /** The first name with the highest score in a non-empty list of scores. */
  method TopScored(scores: seq<(string, real)>) returns (i: nat)
    requires scores != []
    ensures IsTopScore(scores, i)
  {
    i := 0;
    for k := 1 to |scores|
      invariant i < k
      invariant forall j | 0 <= j < k :: scores[j].1 <= scores[i].1
      invariant forall j | 0 <= j < i :: scores[j].1 < scores[i].1
    {
      if scores[k].1 > scores[i].1 {
        i := k;
      }
    }
  }

  ghost predicate HasProvider(rs: seq<Response>, name: string) {
    exists x :: x in rs && x.provider == name
  }

  /** The response a single judge's verdict selects: the named one, else the one with the
      judge's highest score, else the first. */
  ghost predicate IsSelected(x: Response, d: JudgeData, rs: seq<Response>)
    requires rs != []
  {
    && x in rs
    && (HasProvider(rs, d.winner) ==> IsNamed(rs, d.winner, x))
    && (!HasProvider(rs, d.winner) && d.scores == [] ==> x == rs[0])
    && (!HasProvider(rs, d.winner) && d.scores != [] ==>
          exists i: nat :: IsTopScore(d.scores, i) && IsNamed(rs, d.scores[i].0, x))
  }

  ghost predicate IsTopScore(scores: seq<(string, real)>, i: nat) {
    && i < |scores|
    && (forall k | 0 <= k < |scores| :: scores[k].1 <= scores[i].1)
    && (forall k | 0 <= k < i :: scores[k].1 < scores[i].1)
  }

  /** What a single judge's verdict makes the answer. */
  ghost predicate IsJudged(r: ConsensusResult, d: JudgeData, rs: seq<Response>)
    requires rs != []
  {
    && r.strategy == GptAsJudge && r.confidence == d.confidence && AreScoresIn(d.scores, rs, r.scores)
    && if d.winner == "synthesis" && d.synthesised != ""
       then r.content == d.synthesised && r.provider == "consensus" && r.model == "gpt-judge"
       else exists x :: IsSelected(x, d, rs) && TakenFrom(r, x)
  }

  method JudgeChoice(d: JudgeData, rs: seq<Response>) returns (r: ConsensusResult)
    requires rs != []
    ensures IsJudged(r, d, rs)
  {
    var all := ScoreMap(d.scores, rs);
    if d.winner == "synthesis" && d.synthesised != "" {
      return ConsensusResult(d.synthesised, GptAsJudge, "consensus", "gpt-judge", d.confidence, all, 0, 0.0);
    }
    var found := FindNamed(rs, d.winner);
    if found.None? && d.scores != [] {
      var i := TopScored(d.scores);
      found := FindNamed(rs, d.scores[i].0);
    }
    var x := if found.Some? then found.value else rs[0];
    r := ConsensusResult(x.content, GptAsJudge, x.provider, x.model, d.confidence, all, 0, 0.0);
    assert IsSelected(x, d, rs) && TakenFrom(r, x);
  }

  lemma JudgedProvenance(r: ConsensusResult, d: JudgeData, rs: seq<Response>)
    requires rs != [] && IsJudged(r, d, rs)
    ensures Provenance(r, rs, [Json(d)])
  {
    hide IsNamed, AreScoresIn;
    assert Json(d) in [Json(d)];
  }

  // ---------- The scores of a vote ----------

  /** No later response has the same name. */
  ghost predicate IsLastOf(rs: seq<Response>, i: nat) {
    i < |rs| && forall k | i < k < |rs| :: rs[k].provider != rs[i].provider
  }

  /** The score of every name is that of its last response. */
  ghost predicate AreLastScores(m: map<string, real>, rs: seq<Response>, scores: seq<real>)
    requires |scores| >= |rs|
  {
    && m.Keys == Providers(rs)
    && forall i: nat | IsLastOf(rs, i) :: rs[i].provider in m && m[rs[i].provider] == scores[i]
  }

  lemma OneMoreScore(m: map<string, real>, rs: seq<Response>, x: Response, scores: seq<real>)
    requires |scores| > |rs| && AreLastScores(m, rs, scores)
    ensures AreLastScores(m[x.provider := scores[|rs|]], rs + [x], scores)
  {
    var all := rs + [x];
    var m' := m[x.provider := scores[|rs|]];
    assert m'.Keys == Providers(all) by {
      OneMoreProvider(rs, x);
    }
    hide Providers;
    forall i: nat | IsLastOf(all, i) ensures all[i].provider in m' && m'[all[i].provider] == scores[i] {
      if i < |rs| {
        assert all[|rs|] == x && x.provider != all[i].provider;
        StillLast(rs, x, i);
      }
    }
  }

  lemma NoScores(scores: seq<real>)
    ensures AreLastScores(map[], [], scores)
  {
  }

  lemma OneMoreProvider(rs: seq<Response>, x: Response)
    ensures Providers(rs + [x]) == Providers(rs) + {x.provider}
  {
    assert forall r :: r in rs + [x] <==> r in rs || r == x;
  }

  lemma StillLast(rs: seq<Response>, x: Response, i: nat)
    requires IsLastOf(rs + [x], i) && i < |rs|
    ensures IsLastOf(rs, i)
  {
    assert forall k | i < k < |rs| :: (rs + [x])[k] == rs[k];
  }

  method ScoresByName(rs: seq<Response>, scores: seq<real>) returns (m: map<string, real>)
    requires |scores| == |rs|
    ensures AreLastScores(m, rs, scores)
  {
    hide *;
    m := map[];
    NoScores(scores);
    assert rs[..0] == [];
    for i := 0 to |rs|
      invariant AreLastScores(m, rs[..i], scores)
    {
      OneMoreScore(m, rs[..i], rs[i], scores);
      assert rs[..i + 1] == rs[..i] + [rs[i]];
      m := m[rs[i].provider := scores[i]];
    }
    assert rs[..|rs|] == rs;
  }

  // ---------- The engine ----------

  /** What run returns when no provider succeeded. */
  function NoAnswer(strategy: Strategy): ConsensusResult {
    ConsensusResult("", if strategy.Auto? then Strategy.PickBest else strategy, "", "", 0.0, map[], 0, 0.0)
  }

  class ConsensusEngine {
    const hasComplete: bool
    const hasProbe: bool
    const agreementThreshold: real
    const minJudges: nat
    const tokenise: string -> seq<string>

    var completeCalls: nat
    var probeCalls: nat
    var heard: seq<Parsed>

    constructor (hasComplete: bool, hasProbe: bool, tokenise: string -> seq<string>,
                 agreementThreshold: real := 0.6, minJudges: int := 2)
      ensures Valid()
      ensures this.minJudges == if minJudges > 2 then minJudges else 2
      ensures this.hasComplete == hasComplete && this.hasProbe == hasProbe
      ensures this.tokenise == tokenise && this.agreementThreshold == agreementThreshold
      ensures completeCalls == 0 && probeCalls == 0 && heard == []
    {
      this.hasComplete, this.hasProbe := hasComplete, hasProbe;
      this.tokenise, this.agreementThreshold := tokenise, agreementThreshold;
      this.minJudges := if minJudges > 2 then minJudges else 2;
      completeCalls, probeCalls, heard := 0, 0, [];
    }

    predicate Valid() {
      minJudges >= 2
    }

    function Tokenised(rs: seq<Response>): (tok: seq<seq<string>>)
      ensures |tok| == |rs|
    {
      seq(|rs|, i requires 0 <= i < |rs| => tokenise(rs[i].content))
    }

    // ---- environment ----

    method LlmComplete() returns (c: Completion)
      modifies this`completeCalls
      ensures completeCalls == old(completeCalls) + 1
    {
      completeCalls := completeCalls + 1;
      c := *;
    }

    method LlmProbe() returns (p: Probe)
      modifies this`probeCalls
      ensures probeCalls == old(probeCalls) + 1
    {
      probeCalls := probeCalls + 1;
      p := *;
    }

    // ---- strategies ----

    /** The first response, and a full score for its name unless a later response has it too. */
    ghost predicate IsFirstPick(r: ConsensusResult, rs: seq<Response>)
      requires rs != []
    {
      && r.strategy == Strategy.PickBest && TakenFrom(r, rs[0])
      && r.confidence == (if |rs| == 1 then 1.0 else 0.7) && ByProvider(r.scores, rs)
      && forall p | p in r.scores ::
           r.scores[p] == if p == rs[0].provider && (forall k | 1 <= k < |rs| :: rs[k].provider != p)
                          then 1.0 else 0.0
    }

    function PickBest(rs: seq<Response>): (r: ConsensusResult)
      requires rs != []
      ensures IsFirstPick(r, rs)
    {
      assert forall k | 1 <= k < |rs| :: rs[k] == rs[1..][k - 1];
      ConsensusResult(rs[0].content, Strategy.PickBest, rs[0].provider, rs[0].model,
        if |rs| == 1 then 1.0 else 0.7,
        map p | p in Providers(rs) ::
          if p == rs[0].provider && (forall r | r in rs[1..] :: r.provider != p) then 1.0 else 0.0,
        0, 0.0)
    }

    ghost predicate WinsVote(rs: seq<Response>, w: nat) {
      && w < |rs|
      && (forall i: nat | i < |rs| :: Similarity.VoteScore(Tokenised(rs), i) <= Similarity.VoteScore(Tokenised(rs), w))
      && (forall i: nat | i < w :: Similarity.VoteScore(Tokenised(rs), i) < Similarity.VoteScore(Tokenised(rs), w))
    }

    ghost predicate IsVote(r: ConsensusResult, rs: seq<Response>) {
      && r.strategy == Strategy.MajorityVote
      && (exists w: nat :: WinsVote(rs, w) && TakenFrom(r, rs[w]))
      && (var raised := Similarity.Agreement(Tokenised(rs)) + 0.2;
          r.confidence == if raised < 1.0 then raised else 1.0)
      && (exists scores: seq<real> :: |scores| == |rs| && AreLastScores(r.scores, rs, scores)
            && forall i: nat | i < |rs| :: scores[i] == Similarity.VoteScore(Tokenised(rs), i))
    }

    static function Raised20(agreement: real): real {
      if agreement + 0.2 < 1.0 then agreement + 0.2 else 1.0
    }

    method MajorityVote(rs: seq<Response>) returns (r: ConsensusResult)
      requires rs != []
      ensures IsVote(r, rs)
      ensures FromResponse(r, rs)
    {
      var tok := Tokenised(rs);
      var scores := Similarity.VoteScores(tok);
      var w := Similarity.FirstMax(scores);
      var agreement := Similarity.PairwiseAgreement(tok);
      var scoreMap := ScoresByName(rs, scores);
      r := ConsensusResult(rs[w].content, Strategy.MajorityVote, rs[w].provider, rs[w].model,
        Raised20(agreement), scoreMap, 0, 0.0);
      assert WinsVote(rs, w);
      assert rs[w] in rs && TakenFrom(r, rs[w]);
    }

    /** The contents that count for the automatic choice; an empty one does not. */
    ghost function Texts(rs: seq<Response>): seq<seq<string>> {
      if rs == [] then []
      else Texts(rs[..|rs| - 1]) + (if rs[|rs| - 1].content != "" then [tokenise(rs[|rs| - 1].content)] else [])
    }

    /** One response, fewer than two texts, or texts that agree well enough need no arbiter;
        otherwise the arbiter is the best one at hand. */
    ghost predicate IsAutoChoice(s: Strategy, rs: seq<Response>) {
      && (s.PickBest? <==>
            |rs| <= 1 || |Texts(rs)| < 2 || Similarity.Agreement(Texts(rs)) >= agreementThreshold)
      && (s.PickBest? || s == if hasProbe then MultiJudgePanel
            else if hasComplete then Strategy.GptAsJudge else Strategy.MajorityVote)
    }

    method AutoStrategy(rs: seq<Response>) returns (s: Strategy)
      ensures IsAutoChoice(s, rs)
    {
      if |rs| <= 1 {
        return Strategy.PickBest;
      }
      var contents: seq<seq<string>> := [];
      for k := 0 to |rs|
        invariant contents == Texts(rs[..k])
      {
        assert rs[..k + 1][..k] == rs[..k];
        if rs[k].content != "" {
          contents := contents + [tokenise(rs[k].content)];
        }
      }
      assert rs[..|rs|] == rs;
      if |contents| < 2 {
        return Strategy.PickBest;
      }
      var agreement := Similarity.PairwiseAgreement(contents);
      if agreement >= agreementThreshold {
        return Strategy.PickBest;
      }
      if hasProbe {
        return MultiJudgePanel;
      }
      s := if hasComplete then Strategy.GptAsJudge else Strategy.MajorityVote;
    }

    ghost predicate Explained(r: Result<ConsensusResult, Raised>, rs: seq<Response>, replies: seq<Parsed>) {
      && (r.Err? <==> BadShape in replies)
      && (r.Ok? ==> Provenance(r.value, rs, replies))
    }

    /** The usable replies, at least minJudges, are the panel, and it decided the answer. */
    ghost predicate IsPanel(r: ConsensusResult, rs: seq<Response>, replies: seq<Parsed>)
      requires rs != []
    {
      exists vs: seq<Verdict> :: vs != [] && |vs| >= minJudges
        && AreReports(vs, UsableData(replies), rs) && IsDecision(r, vs, rs)
    }

    /** What an answer of each strategy is. */
    ghost predicate IsAnswer(r: ConsensusResult, rs: seq<Response>, replies: seq<Parsed>)
      requires rs != []
    {
      match r.strategy
      case PickBest => IsFirstPick(r, rs)
      case MajorityVote => IsVote(r, rs)
      case GptAsJudge => exists d :: Json(d) in replies && IsJudged(r, d, rs)
      case MultiJudgePanel => IsPanel(r, rs, replies)
      case Auto => false
    }

    method GptAsJudge(rs: seq<Response>) returns (r: Result<ConsensusResult, Raised>, ghost replies: seq<Parsed>)
      requires rs != []
      modifies this`completeCalls, this`heard
      ensures completeCalls == old(completeCalls) + (if hasComplete then 1 else 0)
      ensures heard == old(heard) + replies && |replies| <= 1
      ensures Explained(r, rs, replies)
      ensures r.Ok? ==> IsAnswer(r.value, rs, replies)
      ensures r.Ok? ==>
        r.value.strategy == if exists d :: Json(d) in replies then Strategy.GptAsJudge else Strategy.MajorityVote
      ensures forall d | Json(d) in replies :: r.Ok? && IsJudged(r.value, d, rs)
    {
      hide IsVote, IsJudged, IsPanel, IsFirstPick;
      replies := [];
      if !hasComplete {
        var vote := MajorityVote(rs);
        return Ok(vote), [];
      }
      var raw := LlmComplete();
      match raw
      case CallFailed =>
        var vote := MajorityVote(rs);
        return Ok(vote), [];
      case Completed(content, parsed) =>
        if content == "" {
          var vote := MajorityVote(rs);
          return Ok(vote), [];
        }
        heard, replies := heard + [parsed], [parsed];
        match parsed {
          case NotJson =>
            var vote := MajorityVote(rs);
            return Ok(vote), replies;
          case BadShape =>
            return Err(MalformedReply), replies;
          case Json(d) =>
            var judged := JudgeChoice(d, rs);
            JudgedProvenance(judged, d, rs);
            return Ok(judged), replies;
        }
    }

    /** One verdict per probe result, until a reply of a shape the code cannot use raises. */
    method ParseProbeVerdicts(results: seq<ProbeResult>, rs: seq<Response>)
      returns (vs: Result<seq<Verdict>, Raised>, ghost replies: seq<Parsed>)
      modifies this`heard
      ensures heard == old(heard) + replies
      ensures vs.Err? <==> BadShape in replies
      ensures vs.Ok? ==> |vs.value| == |results| && AreReports(Good(vs.value), UsableData(replies), rs)
    {
      assert AreReports([], [], rs);
      hide AreReports;
      var verdicts: seq<Verdict> := [];
      replies := [];
      for k := 0 to |results|
        invariant heard == old(heard) + replies
        invariant |verdicts| == k
        invariant BadShape !in replies
        invariant AreReports(Good(verdicts), UsableData(replies), rs)
      {
        if results[k].error == "" && results[k].content != "" {
          heard := heard + [results[k].parsed];
        }
        var v := ReadVerdict(results[k], rs);
        ghost var before := replies;
        replies := replies + Parses(results[k]);
        if v.Err? {
          return Err(v.error), replies;
        }
        OneMoreVerdict(verdicts, before, results[k], rs);
        verdicts := verdicts + [v.value];
      }
      vs := Ok(verdicts);
    }

    method Fallback(rs: seq<Response>) returns (r: Result<ConsensusResult, Raised>, ghost replies: seq<Parsed>)
      requires rs != []
      modifies this`completeCalls, this`heard
      ensures completeCalls == old(completeCalls) + (if hasComplete then 1 else 0)
      ensures heard == old(heard) + replies && |replies| <= 1
      ensures Explained(r, rs, replies)
      ensures r.Ok? ==> IsAnswer(r.value, rs, replies)
      ensures r.Ok? ==>
        r.value.strategy == if exists d :: Json(d) in replies then Strategy.GptAsJudge else Strategy.MajorityVote
    {
      if hasComplete {
        r, replies := GptAsJudge(rs);
      } else {
        var vote := MajorityVote(rs);
        r, replies := Ok(vote), [];
      }
    }

    method SucceededOnly(vs: seq<Verdict>) returns (good: seq<Verdict>)
      ensures good == Good(vs)
    {
      good := [];
      for k := 0 to |vs|
        invariant good == Good(vs[..k])
      {
        assert vs[..k + 1][..k] == vs[..k];
        if vs[k].Succeeded() {
          good := good + [vs[k]];
        }
      }
      assert vs[..|vs|] == vs;
    }

    /** More replies cannot unexplain an answer. */
    lemma ExplainedMonotone(r: Result<ConsensusResult, Raised>, rs: seq<Response>,
      before: seq<Parsed>, replies: seq<Parsed>)
      requires Explained(r, rs, replies) && BadShape !in before
      ensures Explained(r, rs, before + replies)
    {
      var more := before + replies;
      if r.Ok? && FromSynthesis(r.value, replies) {
        var p :| p in replies && p.Json? && p.data.winner == "synthesis" && p.data.synthesised == r.value.content;
        assert p in more;
      }
    }

    /** The panel itself: the replies to its one probe call come first, and it decides
        exactly when enough of them are usable. */
    method MultiJudgePanelStrategy(rs: seq<Response>)
      returns (r: Result<ConsensusResult, Raised>, ghost panel: seq<Parsed>, ghost replies: seq<Parsed>)
      requires Valid() && rs != []
      modifies this`completeCalls, this`probeCalls, this`heard
      ensures completeCalls <= old(completeCalls) + 1
      ensures probeCalls == old(probeCalls) + (if hasProbe then 1 else 0)
      ensures heard == old(heard) + replies && panel <= replies && |replies| <= |panel| + 1
      ensures Explained(r, rs, replies)
      ensures r.Ok? ==> (r.value.strategy.MultiJudgePanel? <==> |UsableData(panel)| >= minJudges)
      ensures r.Ok? ==> IsAnswer(r.value, rs, replies)
      ensures r.Ok? && r.value.strategy.MultiJudgePanel? ==> completeCalls == old(completeCalls) && replies == panel
      ensures r.Ok? && !r.value.strategy.MultiJudgePanel? ==>
        completeCalls == old(completeCalls) + (if hasComplete then 1 else 0)
    {
      hide Explained, IsPanel, IsVote, IsJudged;
      panel := [];
      if !hasProbe {
        r, replies := Fallback(rs);
        return;
      }
      var probe := LlmProbe();
      if probe.ProbeFailed? {
        r, replies := Fallback(rs);
        return;
      }
      var parsed;
      parsed, panel := ParseProbeVerdicts(probe.results, rs);
      if parsed.Err? {
        PanelRaises(rs, panel);
        return Err(MalformedReply), panel, panel;
      }
      var good := SucceededOnly(parsed.value);
      if |good| < minJudges {
        ghost var extra;
        r, extra := Fallback(rs);
        ExplainedMonotone(r, rs, panel, extra);
        replies := panel + extra;
        return;
      }
      var answer := AggregateVerdicts(good, rs);
      PanelDecides(good, rs, panel);
      return Ok(answer), panel, panel;
    }

    lemma PanelRaises(rs: seq<Response>, replies: seq<Parsed>)
      requires BadShape in replies
      ensures Explained(Err(MalformedReply), rs, replies)
    {
    }

    lemma PanelDecides(vs: seq<Verdict>, rs: seq<Response>, replies: seq<Parsed>)
      requires vs != [] && |vs| >= minJudges && rs != []
      requires AreReports(vs, UsableData(replies), rs) && BadShape !in replies
      ensures Explained(Ok(Aggregate(vs, rs)), rs, replies)
      ensures IsPanel(Aggregate(vs, rs), rs, replies)
      ensures Aggregate(vs, rs).strategy.MultiJudgePanel?
    {
      hide AreReports, IsDecision, Aggregate;
      AggregateProvenance(vs, rs, replies);
      AggregateDecides(vs, rs);
    }

    /** The strategy that is followed: the one asked for, or the automatic choice. */
    ghost predicate Follows(s: Strategy, strategy: Strategy, rs: seq<Response>) {
      if strategy.Auto? then IsAutoChoice(s, rs) else s == strategy
    }

    /** The whole engine. A run makes at most one call of each kind; it raises exactly when a
        reply it parsed had an unusable shape; and an answer is one successful response as
        a whole or the text of one judge's synthesis. */
    method Run(thread: seq<Response>, strategy: Strategy)
      returns (r: Result<ConsensusResult, Raised>, ghost replies: seq<Parsed>)
      requires Valid()
      modifies this`completeCalls, this`probeCalls, this`heard
      ensures completeCalls <= old(completeCalls) + 1 && probeCalls <= old(probeCalls) + 1
      ensures heard == old(heard) + replies
      ensures (forall x | x in thread :: x.error != "") ==>
        && r.Ok? && r.value.content == "" && r.value.provider == "" && r.value.model == ""
        && r.value.confidence == 0.0 && r.value.scores == map[]
        && r.value.strategy == (if strategy.Auto? then Strategy.PickBest else strategy)
        && completeCalls == old(completeCalls) && probeCalls == old(probeCalls)
      ensures Successful(thread) != [] ==>
        var rs := Successful(thread);
        && Explained(r, rs, replies)
        && (r.Ok? ==> IsAnswer(r.value, rs, replies))
        && forall s | Follows(s, strategy, rs) ::
          && (s.PickBest? || s.MajorityVote? ==> r.Ok? && r.value.strategy == s)
          && (s.PickBest? || s.MajorityVote? ==> completeCalls == old(completeCalls))
          && (s.GptAsJudge? ==> completeCalls == old(completeCalls) + if hasComplete then 1 else 0)
          && (!s.MultiJudgePanel? ==> probeCalls == old(probeCalls))
          && (s.MultiJudgePanel? ==> probeCalls == old(probeCalls) + if hasProbe then 1 else 0)
          && (s.GptAsJudge? ==> forall d | Json(d) in replies :: r.Ok? && IsJudged(r.value, d, rs))
          && (s.MultiJudgePanel? && r.Ok? ==> exists panel: seq<Parsed> ::
                panel <= replies && |replies| <= |panel| + 1
                && (r.value.strategy.MultiJudgePanel? <==> |UsableData(panel)| >= minJudges))
    {
      hide IsVote, IsJudged, IsPanel;
      replies := [];
      var rs := Successful(thread);
      if rs == [] {
        return Ok(NoAnswer(strategy)), [];
      }
      assert rs[0] in rs;
      SuccessfulOnes(thread);
      var s := strategy;
      if s.Auto? {
        s := AutoStrategy(rs);
      }
      if s == Strategy.PickBest {
        r := Ok(PickBest(rs));
        assert rs[0] in rs && TakenFrom(PickBest(rs), rs[0]);
      } else if s == Strategy.MajorityVote {
        var vote := MajorityVote(rs);
        VoteStrategy(vote, rs);
        r := Ok(vote);
      } else if s == Strategy.GptAsJudge {
        r, replies := GptAsJudge(rs);
      } else {
        ghost var panel;
        r, panel, replies := MultiJudgePanelStrategy(rs);
      }
    }

    lemma VoteStrategy(r: ConsensusResult, rs: seq<Response>)
      requires IsVote(r, rs)
      ensures r.strategy == Strategy.MajorityVote
    {
    }
  }
}
