/** The pipeline of one task, mono/swarm/redis_consumer.py:137-751.

    Every awaited call may return, raise or be cancelled, so a run is the sequence of what
    its calls did. Step is the control flow of the pipeline over these events; the class
    follows the source's code and is proved to produce only sequences that Step accepts,
    and the lemmas hold for every accepted sequence. */
module Pipeline {

  // The exceptions of a status call that the caller of the wait tells apart.
  datatype Fault = RuntimeFault | TimeoutFault | OtherFault

  datatype Event =
    | IndexStatus(ok: bool, indexed: bool)      // engine_client.get_index_status
    | Setup(ok: bool)                           // any other call whose exception reaches the handler
    | Planned(error: bool, plan: bool)          // orchestrator.run returned
    | StatusRead(status: string)                // go_client.get_task_status
    | StatusRaised(fault: Fault)
    | ReportPlan(ok: bool)
    | Slept
    | WaitTimedOut
    | AgentsRun(code: seq<bool>, review: seq<bool>)   // which agents came back without an exception
    | Changeset(files: nat)
    | ReportDiff(ok: bool)
    | FailTask(ok: bool)
    | ReportResult(ok: bool)
    | Cancel                                    // CancelledError at any await

  datatype Phase =
    | IndexCheck | NotIndexed
    | Planning | AfterPlan | Submit
    | Wait | Sleep
    | Team | AllFailed | Extract | Empty | Diffs(left: nat) | Build
    | Failing                                   // about to report a failure, inside the try block
    | Handler                                   // in the outer except clause
    | Over | Stopped
    | Impossible

  const IMPLEMENTING := "implementing"
  const TERMINAL := {"cancelled", "failed", "timed_out", "completed"}
  const NOT_SUBMITTED := {"submitted", "planning", "assigning"}

  /** There are agents, and every one of them failed. */
  predicate NoneWorked(results: seq<bool>) {
    results != [] && true !in results
  }

  function Step(p: Phase, e: Event): Phase {
    if p.Over? || p.Stopped? || p.Impossible? then Impossible
    else if e.Cancel? then Stopped
    else match (p, e)
    case (IndexCheck, IndexStatus(ok, indexed)) => if ok && !indexed then NotIndexed else Planning
    // a failing failure report is swallowed by the index check's own except clause
    case (NotIndexed, FailTask(ok)) => if ok then Over else Planning
    case (Planning, Setup(ok)) => if ok then Planning else Handler
    case (Planning, Planned(error, plan)) => if error || !plan then Failing else AfterPlan
    case (AfterPlan, StatusRead(s)) => if s in NOT_SUBMITTED then Submit else Wait
    case (AfterPlan, StatusRaised(_)) => Handler
    case (Submit, ReportPlan(ok)) => if ok then Wait else Failing
    case (Wait, StatusRead(s)) => if s == IMPLEMENTING then Team else if s in TERMINAL then Over else Sleep
    case (Wait, StatusRaised(fault)) =>
      (match fault case RuntimeFault => Over case TimeoutFault => Failing case OtherFault => Handler)
    case (Wait, WaitTimedOut) => Failing
    case (Sleep, Slept) => Wait
    case (Team, Setup(ok)) => if ok then Team else Handler
    case (Team, AgentsRun(code, review)) => if NoneWorked(code + review) then AllFailed else Extract
    case (AllFailed, StatusRead(s)) => if s == "completed" then Over else Failing
    case (AllFailed, StatusRaised(_)) => Failing
    case (Extract, Changeset(n)) => if n == 0 then Empty else Diffs(n)
    case (Empty, StatusRead(s)) => if s == "completed" then Over else Failing
    case (Empty, StatusRaised(_)) => Failing
    case (Diffs(n), ReportDiff(_)) => if n > 1 then Diffs(n - 1) else Build
    case (Build, Setup(ok)) => if ok then Build else Handler
    case (Build, ReportResult(ok)) => if ok then Over else Handler
    case (Failing, FailTask(ok)) => if ok then Over else Handler
    case (Handler, FailTask(_)) => Over
    case _ => Impossible
  }

  function PhaseAfter(start: Phase, trace: seq<Event>): Phase {
    if trace == [] then start else Step(PhaseAfter(start, trace[..|trace| - 1]), trace[|trace| - 1])
  }

  /** A complete run: it has left the try block and its handlers, or was cancelled. */
  ghost predicate CompleteRun(checkIndex: bool, trace: seq<Event>) {
    var p := PhaseAfter(if checkIndex then IndexCheck else Planning, trace);
    p.Over? || p.Stopped?
  }

  // ---------- What every run satisfies ----------

  predicate IsReport(e: Event) {
    e.FailTask? || e.ReportResult?
  }

  function Total(trace: seq<Event>, weight: Event -> nat): nat {
    if trace == [] then 0 else Total(trace[..|trace| - 1], weight) + weight(trace[|trace| - 1])
  }

  /** Terminal reports that Go acknowledged. */
  function Acknowledges(e: Event): nat {
    if e == FailTask(true) || e == ReportResult(true) then 1 else 0
  }

  /** The files of the change set, the diffs that were tried, and those that reached Go. */
  function Files(e: Event): nat {
    if e.Changeset? then e.files else 0
  }

  function Tries(e: Event): nat {
    if e.ReportDiff? then 1 else 0
  }

  function Delivers(e: Event): nat {
    if e == ReportDiff(true) then 1 else 0
  }

  function Naps(e: Event): nat {
    if e.Slept? then 1 else 0
  }

  ghost predicate Approved(trace: seq<Event>) {
    StatusRead("implementing") in trace
  }

  /** The agents ran, and it is not the case that there were some and all of them failed. */
  ghost predicate NotAllFailed(trace: seq<Event>) {
    exists code, review :: AgentsRun(code, review) in trace && !NoneWorked(code + review)
  }

  /** A change set was extracted, and as many diffs were tried as it has files. */
  ghost predicate Tried(trace: seq<Event>) {
    Total(trace, Files) > 0 && Total(trace, Tries) == Total(trace, Files)
  }

  ghost predicate Attempted(trace: seq<Event>) {
    exists e :: e in trace && IsReport(e)
  }

  /** The task is over for Go. */
  predicate IsTerminal(status: string) {
    status == "completed" || status == "failed" || status == "cancelled" || status == "timed_out"
  }

  ghost predicate ReadTerminal(trace: seq<Event>) {
    exists s :: StatusRead(s) in trace && IsTerminal(s)
  }

  /** The last thing that happened is a RuntimeError of the status call. */
  predicate BrokenWait(trace: seq<Event>) {
    trace != [] && trace[|trace| - 1] == StatusRaised(RuntimeFault)
  }

  ghost predicate AfterApproval(p: Phase) {
    p.Team? || p.AllFailed? || p.Extract? || p.Empty? || p.Diffs? || p.Build?
  }

  ghost predicate ReportAllowed(trace: seq<Event>) {
    Approved(trace) && NotAllFailed(trace) && Tried(trace)
  }

  /** The invariant of a run, phase by phase. */
  ghost predicate RunInv(p: Phase, trace: seq<Event>) {
    && (Total(trace, Acknowledges) == 0 || (Total(trace, Acknowledges) == 1 && p.Over?))
    && (AfterApproval(p) ==> Approved(trace))
    && (p.Extract? || p.Empty? || p.Diffs? || p.Build? ==> NotAllFailed(trace))
    && (p.Diffs? ==> p.left > 0 && Total(trace, Files) == Total(trace, Tries) + p.left)
    && (p.Build? ==> Tried(trace))
    && (!p.Diffs? && !p.Build? && !p.Handler? && !p.Over? && !p.Stopped? ==>
          Total(trace, Tries) == 0 && Total(trace, Files) == 0)
    && (p.Over? ==> Attempted(trace) || ReadTerminal(trace) || BrokenWait(trace))
    && (forall i | 0 <= i < |trace| && trace[i].ReportResult? :: ReportAllowed(trace[..i]))
  }

  lemma TotalOfOneMore(trace: seq<Event>, e: Event, weight: Event -> nat)
    ensures Total(trace + [e], weight) == Total(trace, weight) + weight(e)
  {
    assert (trace + [e])[..|trace|] == trace;
  }

  lemma Keeps(trace: seq<Event>, e: Event)
    ensures Approved(trace) ==> Approved(trace + [e])
    ensures NotAllFailed(trace) ==> NotAllFailed(trace + [e])
    ensures Total(trace + [e], Acknowledges) == Total(trace, Acknowledges) + Acknowledges(e)
    ensures Total(trace + [e], Files) == Total(trace, Files) + Files(e)
    ensures Total(trace + [e], Tries) == Total(trace, Tries) + Tries(e)
    ensures e in trace + [e]
  {
    TotalOfOneMore(trace, e, Acknowledges);
    TotalOfOneMore(trace, e, Files);
    TotalOfOneMore(trace, e, Tries);
    if NotAllFailed(trace) {
      var code, review :| AgentsRun(code, review) in trace && !NoneWorked(code + review);
      assert AgentsRun(code, review) in trace + [e];
    }
  }

  /** A call of report_result happens in the Build phase only, where its conditions hold. */
  lemma StepReports(p: Phase, trace: seq<Event>, e: Event)
    requires RunInv(p, trace) && !Step(p, e).Impossible?
    ensures forall i | 0 <= i <= |trace| && (trace + [e])[i].ReportResult? :: ReportAllowed((trace + [e])[..i])
  {
    hide Total, Approved, NotAllFailed;
    var t := trace + [e];
    assert e.ReportResult? ==> p.Build?;
    forall i | 0 <= i <= |trace| && t[i].ReportResult? ensures ReportAllowed(t[..i]) {
      if i < |trace| {
        assert t[i] == trace[i] && t[..i] == trace[..i];
      } else {
        assert t[..i] == trace;
      }
    }
  }

  lemma StepEnds(p: Phase, trace: seq<Event>, e: Event)
    requires Step(p, e).Over?
    ensures Attempted(trace + [e]) || ReadTerminal(trace + [e]) || BrokenWait(trace + [e])
  {
    var t := trace + [e];
    assert t[|t| - 1] == e && e in t;
    if e.StatusRead? {
      assert StatusRead(e.status) in t;
    }
  }

  lemma StepInv(p: Phase, trace: seq<Event>, e: Event)
    requires RunInv(p, trace) && !Step(p, e).Impossible?
    ensures RunInv(Step(p, e), trace + [e])
  {
    hide Total, ReportAllowed;
    Keeps(trace, e);
    StepReports(p, trace, e);
    if Step(p, e).Over? {
      StepEnds(p, trace, e);
    }
    if e.AgentsRun? {
      assert AgentsRun(e.code, e.review) in trace + [e];
    }
  }

  lemma {:induction false} RunKeepsInv(start: Phase, trace: seq<Event>)
    requires start.IndexCheck? || start.Planning?
    requires !PhaseAfter(start, trace).Impossible?
    ensures RunInv(PhaseAfter(start, trace), trace)
  {
    if trace != [] {
      hide Step, RunInv;
      var n := |trace| - 1;
      StepOfImpossible(trace[n]);
      RunKeepsInv(start, trace[..n]);
      StepInv(PhaseAfter(start, trace[..n]), trace[..n], trace[n]);
      assert trace[..n] + [trace[n]] == trace;
    }
  }

  lemma StepOfImpossible(e: Event)
    ensures Step(Over, e) == Step(Stopped, e) == Step(Impossible, e) == Impossible
  {
  }

  /** The main result. In every run report_result is called only after the plan was approved,
      after the agents ran and did not all fail (an empty team counts as not failed), and
      after as many diffs were tried as a non-empty change set has files; and Go acknowledges
      at most one terminal report. */
  lemma ReportOnlyApprovedWork(checkIndex: bool, trace: seq<Event>)
    requires CompleteRun(checkIndex, trace)
    ensures Total(trace, Acknowledges) <= 1
    ensures forall i | 0 <= i < |trace| && trace[i].ReportResult? ::
      Approved(trace[..i]) && NotAllFailed(trace[..i]) && Tried(trace[..i])
  {
    hide Total, Step;
    RunKeepsInv(if checkIndex then IndexCheck else Planning, trace);
    assert forall i | 0 <= i < |trace| && trace[i].ReportResult? :: ReportAllowed(trace[..i]);
  }

  // ---------- Diffs that do not reach Go ----------

  lemma {:induction false} DeliveredCount(trace: seq<Event>)
    ensures Total(trace, Delivers) <= Total(trace, Tries)
    ensures Total(trace, Delivers) == Total(trace, Tries) <==> ReportDiff(false) !in trace
  {
    if trace != [] {
      var n := |trace| - 1;
      DeliveredCount(trace[..n]);
      assert trace == trace[..n] + [trace[n]];
    }
  }

  /** A task is reported as completed with all its diffs at Go exactly when no call of
      report_diff failed: a failed one is only logged. */
  lemma AllDeliveredIff(checkIndex: bool, trace: seq<Event>, i: nat)
    requires CompleteRun(checkIndex, trace) && i < |trace| && trace[i].ReportResult?
    ensures Total(trace[..i], Delivers) == Total(trace[..i], Files) <==> ReportDiff(false) !in trace[..i]
  {
    ReportOnlyApprovedWork(checkIndex, trace);
    DeliveredCount(trace[..i]);
  }

  function DiffEvents(outcomes: seq<bool>): seq<Event> {
    seq(|outcomes|, i requires 0 <= i < |outcomes| => ReportDiff(outcomes[i]))
  }

  lemma {:induction false} PhaseAfterAppend(start: Phase, a: seq<Event>, b: seq<Event>)
    ensures PhaseAfter(start, a + b) == PhaseAfter(PhaseAfter(start, a), b)
  {
    hide Step;
    if b == [] {
      assert a + b == a;
    } else {
      assert (a + b)[..|a + b| - 1] == a + b[..|b| - 1];
      PhaseAfterAppend(start, a, b[..|b| - 1]);
    }
  }

  lemma {:induction false} DiffsLeft(n: nat, outcomes: seq<bool>)
    requires |outcomes| <= n && n > 0
    ensures PhaseAfter(Diffs(n), DiffEvents(outcomes)) == if |outcomes| < n then Diffs(n - |outcomes|) else Build
  {
    if outcomes != [] {
      var k := |outcomes| - 1;
      DiffsLeft(n, outcomes[..k]);
      assert DiffEvents(outcomes)[..k] == DiffEvents(outcomes[..k]);
    }
  }

  /** From the change set on the outcomes of the diffs have no influence: whichever of them
      reach Go, the pipeline goes on to report the result. */
  lemma OutcomesIgnored(outcomes: seq<bool>)
    requires outcomes != []
    ensures PhaseAfter(Extract, [Changeset(|outcomes|)] + DiffEvents(outcomes)) == Build
    ensures PhaseAfter(Extract, [Changeset(|outcomes|)] + DiffEvents(outcomes) + [ReportResult(true)]) == Over
  {
    hide Step, PhaseAfter, DiffEvents;
    var files := [Changeset(|outcomes|)];
    Edges(|outcomes|);
    FirstEvent(Extract, Changeset(|outcomes|), DiffEvents(outcomes));
    DiffsLeft(|outcomes|, outcomes);
    OneEvent(Build, ReportResult(true));
    PhaseAfterAppend(Extract, files + DiffEvents(outcomes), [ReportResult(true)]);
  }

  lemma FirstEvent(p: Phase, e: Event, rest: seq<Event>)
    ensures PhaseAfter(p, [e] + rest) == PhaseAfter(Step(p, e), rest)
  {
    hide Step;
    OneEvent(p, e);
    PhaseAfterAppend(p, [e], rest);
  }

  lemma Edges(n: nat)
    ensures Step(Planning, Planned(false, true)) == AfterPlan
    ensures Step(AfterPlan, StatusRead("plan_review")) == Wait
    ensures Step(Wait, StatusRead(IMPLEMENTING)) == Team
    ensures Step(Team, AgentsRun([true], [])) == Extract
    ensures n > 0 ==> Step(Extract, Changeset(n)) == Diffs(n)
    ensures Step(Build, ReportResult(true)) == Over
    ensures Step(Wait, StatusRaised(RuntimeFault)) == Over
    ensures Step(IndexCheck, IndexStatus(true, false)) == NotIndexed
  {
    assert [true] + [] == [true] && !NoneWorked([true]);
  }

  lemma OneEvent(p: Phase, e: Event)
    ensures PhaseAfter(p, [e]) == Step(p, e)
  {
    assert [e][..0] == [];
  }

  /** The shortest way to a completed task, with these outcomes of its diffs. */
  function ShortRun(outcomes: seq<bool>): seq<Event> {
    [Planned(false, true), StatusRead("plan_review"), StatusRead(IMPLEMENTING), AgentsRun([true], [])]
    + ([Changeset(|outcomes|)] + DiffEvents(outcomes) + [ReportResult(true)])
  }

  lemma ShortRunCompletes(outcomes: seq<bool>)
    requires outcomes != []
    ensures CompleteRun(false, ShortRun(outcomes))
    ensures ShortRun(outcomes)[|ShortRun(outcomes)| - 1] == ReportResult(true)
  {
    hide Step, PhaseAfter, DiffEvents;
    var a, b, c := Planned(false, true), StatusRead("plan_review"), StatusRead(IMPLEMENTING);
    var d := AgentsRun([true], []);
    var end := [Changeset(|outcomes|)] + DiffEvents(outcomes) + [ReportResult(true)];
    assert ShortRun(outcomes) == [a] + ([b] + ([c] + ([d] + end)));
    Edges(|outcomes|);
    OutcomesIgnored(outcomes);
    FirstEvent(Planning, a, [b] + ([c] + ([d] + end)));
    FirstEvent(AfterPlan, b, [c] + ([d] + end));
    FirstEvent(Wait, c, [d] + end);
    FirstEvent(Team, d, end);
  }

  /** For every number of files there is a completed task none of whose diffs reached Go. */
  lemma NothingDelivered(n: nat) returns (trace: seq<Event>)
    requires n > 0
    ensures CompleteRun(false, trace) && Changeset(n) in trace
    ensures trace[|trace| - 1] == ReportResult(true)
    ensures ReportDiff(true) !in trace
  {
    var outcomes := seq(n, _ => false);
    trace := ShortRun(outcomes);
    ShortRunCompletes(outcomes);
    assert trace[4] == Changeset(n);
  }

  // ---------- Runs that end without a word ----------

  /** Every run that is not cancelled reports an end to Go or has read from Go that there is
      one, except when the status call itself raises a RuntimeError while waiting. */
  lemma NoSilentEnd(checkIndex: bool, trace: seq<Event>)
    requires CompleteRun(checkIndex, trace) && Cancel !in trace
    ensures Attempted(trace) || ReadTerminal(trace) || BrokenWait(trace)
  {
    var start := if checkIndex then IndexCheck else Planning;
    RunKeepsInv(start, trace);
    StoppedByCancel(start, trace);
  }

  lemma {:induction false} StoppedByCancel(start: Phase, trace: seq<Event>)
    requires !start.Stopped?
    ensures PhaseAfter(start, trace).Stopped? ==> Cancel in trace
  {
    if trace != [] {
      StoppedByCancel(start, trace[..|trace| - 1]);
    }
  }

  /** The index check reported an unindexed repository, and Go rejected the report. */
  predicate RejectedIndex(trace: seq<Event>) {
    |trace| >= 2 && trace[0] == IndexStatus(true, false) && trace[1] == FailTask(false)
  }

  /** The status read right after planning was a terminal one. */
  predicate EndedWhilePlanning(trace: seq<Event>) {
    exists i | 0 < i < |trace| :: IsPlanStatus(trace, i)
  }

  predicate IsPlanStatus(trace: seq<Event>, i: nat)
    requires 0 < i < |trace|
  {
    trace[i - 1] == Planned(false, true) && trace[i].StatusRead? && IsTerminal(trace[i].status)
  }

  predicate BeforeApproval(p: Phase) {
    p.IndexCheck? || p.NotIndexed? || p.Planning? || p.AfterPlan? || p.Submit? || p.Wait? || p.Sleep?
  }

  /** Up to the approval the only report is the rejected one of the index check, and the only
      terminal status the one read right after planning. */
  ghost predicate EarlyInv(p: Phase, trace: seq<Event>) {
    && (p.IndexCheck? ==> trace == [])
    && (p.NotIndexed? ==> trace == [IndexStatus(true, false)])
    && (p.AfterPlan? ==> trace != [] && trace[|trace| - 1] == Planned(false, true))
    && (forall i | 0 <= i < |trace| && IsReport(trace[i]) :: RejectedIndex(trace))
    && (forall i | 0 <= i < |trace| && trace[i].StatusRead? && IsTerminal(trace[i].status) ::
          i > 0 && IsPlanStatus(trace, i))
  }

  lemma EarlyStep(p: Phase, trace: seq<Event>, e: Event)
    requires BeforeApproval(p) && EarlyInv(p, trace)
    requires BeforeApproval(Step(p, e)) || (p.Wait? && e == StatusRaised(RuntimeFault))
    ensures EarlyInv(Step(p, e), trace + [e])
  {
    var t := trace + [e];
    assert forall i | 0 <= i < |trace| :: t[i] == trace[i];
    assert RejectedIndex(trace) ==> RejectedIndex(t);
    forall i | 0 <= i < |t| && t[i].StatusRead? && IsTerminal(t[i].status) ensures i > 0 && IsPlanStatus(t, i) {
      if i < |trace| {
        assert IsPlanStatus(trace, i);
      } else {
        assert p.AfterPlan?;
      }
    }
  }

  lemma BeforeApprovalComesFrom(p: Phase, e: Event)
    ensures BeforeApproval(Step(p, e)) ==> BeforeApproval(p)
    ensures Step(p, e).Over? && e == StatusRaised(RuntimeFault) ==> p.Wait?
  {
  }

  lemma {:induction false} EarlyRun(start: Phase, trace: seq<Event>)
    requires start.IndexCheck? || start.Planning?
    requires BeforeApproval(PhaseAfter(start, trace)) || (PhaseAfter(start, trace).Over? && BrokenWait(trace))
    ensures EarlyInv(PhaseAfter(start, trace), trace)
  {
    if trace != [] {
      hide Step, EarlyInv;
      var n := |trace| - 1;
      var p := PhaseAfter(start, trace[..n]);
      BeforeApprovalComesFrom(p, trace[n]);
      EarlyRun(start, trace[..n]);
      EarlyStep(p, trace[..n], trace[n]);
      assert trace[..n] + [trace[n]] == trace;
    }
  }

  /** Exactly when a run that is not cancelled ends without a word to Go and without having
      heard of an end from Go. */
  lemma SilentEndIff(checkIndex: bool, trace: seq<Event>)
    requires CompleteRun(checkIndex, trace) && Cancel !in trace
    ensures !Attempted(trace) && !ReadTerminal(trace) <==>
      BrokenWait(trace) && !RejectedIndex(trace) && !EndedWhilePlanning(trace)
  {
    hide Step;
    var start := if checkIndex then IndexCheck else Planning;
    NoSilentEnd(checkIndex, trace);
    StoppedByCancel(start, trace);
    if RejectedIndex(trace) {
      assert trace[1] in trace;
    }
    if EndedWhilePlanning(trace) {
      var i :| 0 < i < |trace| && IsPlanStatus(trace, i);
      assert StatusRead(trace[i].status) in trace;
    }
    if BrokenWait(trace) {
      EarlyRun(start, trace);
      if Attempted(trace) {
        var i :| 0 <= i < |trace| && IsReport(trace[i]);
      }
      if ReadTerminal(trace) {
        var s :| StatusRead(s) in trace && IsTerminal(s);
        var i :| 0 <= i < |trace| && trace[i] == StatusRead(s);
        assert IsPlanStatus(trace, i);
      }
    }
  }

  /** Such runs exist. */
  lemma SilentRun()
    ensures exists trace :: CompleteRun(false, trace) && Cancel !in trace && !Attempted(trace) && !ReadTerminal(trace)
  {
    hide Step, PhaseAfter;
    var a, b, c := Planned(false, true), StatusRead("plan_review"), StatusRaised(RuntimeFault);
    var trace := [a, b, c];
    assert trace == [a] + ([b] + [c]);
    Edges(0);
    FirstEvent(Planning, a, [b] + [c]);
    FirstEvent(AfterPlan, b, [c]);
    OneEvent(Wait, c);
    assert CompleteRun(false, trace) && !Attempted(trace) && !ReadTerminal(trace);
  }

  // ---------- Repositories without an index ----------

  /** Nothing happens after the end of a run. */
  lemma {:induction false} PrefixGoesOn(start: Phase, trace: seq<Event>, k: nat)
    requires k < |trace| && !PhaseAfter(start, trace).Impossible?
    ensures var p := PhaseAfter(start, trace[..k]); !p.Over? && !p.Stopped? && !p.Impossible?
  {
    hide Step;
    var n := |trace| - 1;
    StepOfImpossible(trace[n]);
    if k < n {
      PrefixGoesOn(start, trace[..n], k);
      assert trace[..n][..k] == trace[..k];
    }
  }

  /** A run over a repository without an index goes on after the failure report exactly when
      Go rejected the report. */
  lemma RejectedIndexReport(trace: seq<Event>)
    requires CompleteRun(true, trace) && |trace| >= 2 && trace[0] == IndexStatus(true, false)
    ensures |trace| > 2 <==> trace[1] == FailTask(false)
  {
    var a, b := trace[0], trace[1];
    assert trace[..2] == [a] + [b];
    OneEvent(IndexCheck, a);
    OneEvent(NotIndexed, b);
    PhaseAfterAppend(IndexCheck, [a], [b]);
    if |trace| > 2 {
      PrefixGoesOn(IndexCheck, trace, 2);
    } else {
      assert trace == trace[..2];
    }
  }

  /** And from there on it has all the runs of an indexed repository, and no others. */
  lemma AfterRejection(trace: seq<Event>)
    ensures CompleteRun(true, [IndexStatus(true, false), FailTask(false)] + trace) <==> CompleteRun(false, trace)
  {
    var a, b := IndexStatus(true, false), FailTask(false);
    assert [a, b] == [a] + [b];
    OneEvent(IndexCheck, a);
    OneEvent(NotIndexed, b);
    PhaseAfterAppend(IndexCheck, [a], [b]);
    PhaseAfterAppend(IndexCheck, [a, b], trace);
  }

  /** So a task may be completed over a repository that has no index. */
  lemma UnindexedCompletes() returns (trace: seq<Event>)
    ensures CompleteRun(true, trace) && trace[0] == IndexStatus(true, false)
    ensures trace[|trace| - 1] == ReportResult(true)
  {
    ShortRunCompletes([true]);
    AfterRejection(ShortRun([true]));
    trace := [IndexStatus(true, false), FailTask(false)] + ShortRun([true]);
  }

  // ---------- Waiting ----------

  /** The seconds slept after k polls: 5 s steps for a minute, 10 s to five minutes, then 30 s. */
  function SecondsAfter(k: nat): nat {
    if k <= 12 then 5 * k
    else if k <= 36 then 60 + 10 * (k - 12)
    else 300 + 30 * (k - 36)
  }

  /** k is the number of polls after which the wait gives up. */
  predicate IsPollLimit(timeout: real, k: nat) {
    SecondsAfter(k) as real >= timeout && (k > 0 ==> SecondsAfter(k - 1) as real < timeout)
  }

  lemma {:induction false} SecondsGrow(j: nat, k: nat)
    requires j < k
    ensures SecondsAfter(j) + 5 * (k - j) <= SecondsAfter(k) <= SecondsAfter(j) + 30 * (k - j)
    decreases k - j
  {
    if j + 1 < k {
      SecondsGrow(j + 1, k);
    }
  }

  lemma PollLimitUnique(timeout: real, j: nat, k: nat)
    requires IsPollLimit(timeout, j) && IsPollLimit(timeout, k)
    ensures j == k
  {
    if j < k {
      NoEarlierLimit(timeout, j, k);
    } else if k < j {
      NoEarlierLimit(timeout, k, j);
    }
  }

  lemma NoEarlierLimit(timeout: real, j: nat, k: nat)
    requires j < k && SecondsAfter(j) as real >= timeout
    ensures SecondsAfter(k - 1) as real >= timeout
  {
    if j < k - 1 {
      SecondsGrow(j, k - 1);
    }
  }

  /** At the default of 24 hours the wait polls exactly 2906 times; for any timeout it gives
      up less than 30 seconds late, and from five minutes on after 36 polls plus one for every
      started half minute. */
  lemma PollLimits(timeout: real, k: nat)
    requires IsPollLimit(timeout, k)
    ensures timeout == 86_400.0 ==> k == 2906
    ensures timeout > 0.0 ==> timeout <= SecondsAfter(k) as real < timeout + 30.0
    ensures timeout > 300.0 ==> k > 36 && 30.0 * (k - 37) as real < timeout - 300.0 <= 30.0 * (k - 36) as real
  {
    if timeout == 86_400.0 {
      PollLimitUnique(timeout, k, 2906);
    }
    if timeout > 300.0 && k < 36 {
      SecondsGrow(k, 36);
    }
    if k > 0 {
      SecondsGrow(k - 1, k);
    }
  }

  datatype WaitReply =
    | Reached(status: string)
    | TerminalStatus                 // a RuntimeError, its own or that of the call
    | TimedOut
    | CallTimedOut                   // the call raised the same TimeoutError
    | CallRaised
    | WaitCancelled

  datatype StatusReply = Got(status: string) | Raises(fault: Fault) | Cancels

  datatype Reply = Fine | Failed | CancelledCall

  datatype Exit = Returned | Raised | WasCancelled

  // ---------- The code ----------

  function SetupEvent(r: Reply): Event {
    if r.CancelledCall? then Cancel else Setup(r.Fine?)
  }

  function FailEvent(r: Reply): Event {
    if r.CancelledCall? then Cancel else FailTask(r.Fine?)
  }

  function PlanEvent(r: Reply): Event {
    if r.CancelledCall? then Cancel else ReportPlan(r.Fine?)
  }

  function ResultEvent(r: Reply): Event {
    if r.CancelledCall? then Cancel else ReportResult(r.Fine?)
  }

  function StatusEvent(r: StatusReply): Event {
    match r
    case Got(s) => StatusRead(s)
    case Raises(fault) => StatusRaised(fault)
    case Cancels => Cancel
  }

  lemma FailingSteps(r: Reply)
    ensures Step(Failing, FailEvent(r)) == match r {
      case Fine => Over
      case Failed => Handler
      case CancelledCall => Stopped
    }
  {
  }

  lemma PlanningSteps(error: bool, plan: bool)
    ensures Step(Planning, Cancel) == Stopped && Step(Planning, Setup(false)) == Handler
    ensures Step(Planning, Planned(error, plan)) == if error || !plan then Failing else AfterPlan
  {
  }

  lemma SubmitSteps(status: StatusReply, r: Reply)
    ensures Step(AfterPlan, StatusEvent(status)) == match status {
      case Got(s) => if s in NOT_SUBMITTED then Submit else Wait
      case Raises(_) => Handler
      case Cancels => Stopped
    }
    ensures Step(Submit, PlanEvent(r)) == match r {
      case Fine => Wait
      case Failed => Failing
      case CancelledCall => Stopped
    }
  {
  }

  lemma NothingDoneSteps(p: Phase, r: StatusReply)
    requires p.AllFailed? || p.Empty?
    ensures Step(p, StatusEvent(r)) ==
      if r.Cancels? then Stopped else if r == Got("completed") then Over else Failing
  {
  }

  lemma WaitSteps(r: StatusReply)
    ensures Step(Wait, StatusEvent(r)) == match r {
      case Got(s) => if s == IMPLEMENTING then Team else if s in TERMINAL then Over else Sleep
      case Raises(fault) => if fault.RuntimeFault? then Over else if fault.TimeoutFault? then Failing else Handler
      case Cancels => Stopped
    }
    ensures Step(Wait, WaitTimedOut) == Failing
    ensures Step(Sleep, Slept) == Wait && Step(Sleep, Cancel) == Stopped
  {
  }

  /** One run of the pipeline. The calls are the environment; `trace` records what they did. */
  class PipelineRun {
    const checkIndex: bool
    var trace: seq<Event>

    constructor (checkIndex: bool)
      ensures this.checkIndex == checkIndex && trace == []
    {
      this.checkIndex := checkIndex;
      trace := [];
    }

    function Now(): Phase
      reads this
    {
      PhaseAfter(if checkIndex then IndexCheck else Planning, trace)
    }

    method Record(e: Event)
      modifies this`trace
      ensures trace == old(trace) + [e]
      ensures Now() == Step(old(Now()), e)
    {
      trace := trace + [e];
      assert trace[..|trace| - 1] == old(trace);
    }

    // ---- environment ----

    /** A call returns, raises an exception, or is cancelled. */
    method Anything() returns (r: Reply)
    {
      if {
        case true => r := Fine;
        case true => r := Failed;
        case true => r := CancelledCall;
      }
    }

    method Call() returns (r: Reply)
      modifies this`trace
      ensures Now() == Step(old(Now()), SetupEvent(r))
      ensures trace == old(trace) + [SetupEvent(r)]
    {
      r := Anything();
      Record(SetupEvent(r));
    }

    method GetTaskStatus() returns (r: StatusReply)
      modifies this`trace
      ensures Now() == Step(old(Now()), StatusEvent(r))
      ensures trace == old(trace) + [StatusEvent(r)]
    {
      r := *;
      Record(StatusEvent(r));
    }

    method ReportFailure() returns (r: Reply)
      modifies this`trace
      ensures Now() == Step(old(Now()), FailEvent(r))
      ensures trace == old(trace) + [FailEvent(r)]
    {
      r := Anything();
      Record(FailEvent(r));
    }

    // ---- waiting for approval ----

    /** A nap, or a status that does not end the wait. */
    static predicate GoesOn(e: Event, decisive: set<string>) {
      e.Slept? || (e.StatusRead? && e.status !in decisive)
    }

    static predicate EndsWait(e: Event, r: WaitReply, cancels: set<string>) {
      match r
      case Reached(s) => e == StatusRead(s)
      case TerminalStatus => e == StatusRaised(RuntimeFault) || (e.StatusRead? && e.status in cancels)
      case TimedOut => e == WaitTimedOut
      case CallTimedOut => e == StatusRaised(TimeoutFault)
      case CallRaised => e == StatusRaised(OtherFault)
      case WaitCancelled => e == Cancel
    }

    method WaitForStatus(targets: set<string>, cancels: set<string>, timeout: real) returns (r: WaitReply, polls: nat)
      modifies this`trace
      ensures r.Reached? ==> r.status in targets
      ensures r.TimedOut? ==> IsPollLimit(timeout, polls)
      ensures old(trace) < trace && EndsWait(trace[|trace| - 1], r, cancels)
      ensures Total(trace, Naps) == Total(old(trace), Naps) + polls
      ensures forall i | |old(trace)| <= i < |trace| - 1 :: GoesOn(trace[i], targets + cancels)
      ensures old(Now()).Wait? && targets == {IMPLEMENTING} && cancels == TERMINAL ==>
        Now() == match r {
          case Reached(_) => Team
          case TerminalStatus => Over
          case TimedOut => Failing
          case CallTimedOut => Failing
          case CallRaised => Handler
          case WaitCancelled => Stopped
        }
    {
      hide Now, Step, Total;
      var elapsed := 0.0;
      polls := 0;
      ghost var tracked := Now().Wait? && targets == {IMPLEMENTING} && cancels == TERMINAL;
      while elapsed < timeout
        invariant elapsed == SecondsAfter(polls) as real
        invariant polls > 0 ==> SecondsAfter(polls - 1) as real < timeout
        invariant tracked ==> Now().Wait?
        invariant old(trace) <= trace && Total(trace, Naps) == Total(old(trace), Naps) + polls
        invariant forall i | |old(trace)| <= i < |trace| :: GoesOn(trace[i], targets + cancels)
        decreases (timeout - elapsed).Floor
      {
        ghost var before := trace;
        var status := GetTaskStatus();
        WaitSteps(status);
        TotalOfOneMore(before, StatusEvent(status), Naps);
        match status {
          case Cancels =>
            return WaitCancelled, polls;
          case Raises(fault) =>
            // the caller cannot tell a RuntimeError of the call from a terminal status
            return match fault {
              case RuntimeFault => TerminalStatus
              case TimeoutFault => CallTimedOut
              case OtherFault => CallRaised
            }, polls;
          case Got(s) =>
            if s in targets {
              return Reached(s), polls;
            }
            if s in cancels {
              return TerminalStatus, polls;
            }
        }
        var interval := if elapsed < 60.0 then 5.0 else if elapsed < 300.0 then 10.0 else 30.0;
        var cancelled: bool := *;
        TotalOfOneMore(trace, if cancelled then Cancel else Slept, Naps);
        Record(if cancelled then Cancel else Slept);
        if cancelled {
          return WaitCancelled, polls;
        }
        elapsed := elapsed + interval;
        polls := polls + 1;
      }
      WaitSteps(Cancels);
      TotalOfOneMore(trace, WaitTimedOut, Naps);
      Record(WaitTimedOut);
      r := TimedOut;
    }

    // ---- the stages of the try block ----

    static function Ends(r: Reply): Exit {
      match r
      case Fine => Returned
      case Failed => Raised
      case CancelledCall => WasCancelled
    }

    ghost predicate Ended(exit: Exit)
      reads this
    {
      Now() == match exit { case Returned => Over case Raised => Handler case WasCancelled => Stopped }
    }

    /** Any number of calls whose exception goes to the handler. */
    method Calls() returns (r: Reply)
      requires Now().Planning? || Now().Team? || Now().Build?
      modifies this`trace
      ensures r.Fine? ==> Now() == old(Now())
      ensures r.Failed? ==> Now().Handler?
      ensures r.CancelledCall? ==> Now().Stopped?
      ensures old(trace) <= trace && Total(trace, Tries) == Total(old(trace), Tries)
      ensures !r.Fine? ==> old(trace) < trace && trace[|trace| - 1] == SetupEvent(r)
    {
      hide Now, Total;
      var count: nat :| count >= 0;
      for k := 0 to count
        invariant Now() == old(Now())
        invariant old(trace) <= trace && Total(trace, Tries) == Total(old(trace), Tries)
      {
        ghost var before := trace;
        r := Call();
        TotalOfOneMore(before, SetupEvent(r), Tries);
        if !r.Fine? {
          return;
        }
      }
      r := Fine;
    }

    /** Stops only after a failure report that Go took, or when cancelled; goes on when the
        repository is indexed, when its status cannot be read, or when the report failed. */
    method CheckIndex() returns (stop: bool, exit: Exit)
      requires Now().IndexCheck?
      modifies this`trace
      ensures !stop ==> Now().Planning?
      ensures stop ==> Ended(exit) && !exit.Raised?
      ensures stop && exit.Returned? ==> trace == old(trace) + [IndexStatus(true, false), FailTask(true)]
      ensures stop && exit.WasCancelled? ==> trace[|trace| - 1] == Cancel
      ensures !stop ==>
        || trace == old(trace) + [IndexStatus(true, false), FailTask(false)]
        || exists ok, indexed :: trace == old(trace) + [IndexStatus(ok, indexed)] && !(ok && !indexed)
    {
      hide Now;
      var ok: bool, indexed: bool, cancelled: bool := *, *, *;
      exit := Returned;
      if cancelled {
        Record(Cancel);
        return true, WasCancelled;
      }
      Record(IndexStatus(ok, indexed));
      if ok && !indexed {
        var reported := ReportFailure();
        if reported.Fine? {
          return true, Returned;
        }
        if reported.CancelledCall? {
          return true, WasCancelled;
        }
      }
      stop := false;
    }

    /** How planning ends a run: with a failure report that Go took, by the exception of a call,
        a status read or that report, or by cancellation. */
    static predicate EndsPlanning(e: Event, exit: Exit) {
      match exit
      case Returned => e == FailTask(true)
      case Raised => e == Setup(false) || e.StatusRaised? || e == FailTask(false)
      case WasCancelled => e == Cancel
    }

    /** How it goes on to the wait: Go has the plan already, or took it now. */
    static predicate PlanIsOut(e: Event) {
      || (e.StatusRead? && e.status != "submitted" && e.status != "planning" && e.status != "assigning")
      || e == ReportPlan(true)
    }

    /** Planning and the submission of the plan, up to the wait for approval. */
    method Plan() returns (stop: bool, exit: Exit)
      requires Now().Planning?
      modifies this`trace
      ensures !stop ==> Now().Wait?
      ensures stop ==> Ended(exit)
      ensures old(trace) < trace
      ensures if stop then EndsPlanning(trace[|trace| - 1], exit) else PlanIsOut(trace[|trace| - 1])
    {
      hide Now, Step;
      exit := Returned;
      var prepared := Calls();
      if !prepared.Fine? {
        return true, Ends(prepared);
      }
      var error: bool, plan: bool := *, *;
      PlanningSteps(error, plan);
      var run := Anything();
      if run.CancelledCall? {
        Record(Cancel);
        return true, WasCancelled;
      } else if run.Failed? {
        Record(Setup(false));
        return true, Raised;
      }
      Record(Planned(error, plan));
      if error || !plan {
        var reported := ReportFailure();
        FailingSteps(reported);
        return true, Ends(reported);
      }
      stop, exit := SubmitPlan();
    }

    /** The plan may already be with Go; only if the status says it is not, it is submitted. */
    method SubmitPlan() returns (stop: bool, exit: Exit)
      requires Now().AfterPlan?
      modifies this`trace
      ensures !stop ==> Now().Wait?
      ensures stop ==> Ended(exit)
      ensures old(trace) < trace
      ensures if stop then EndsPlanning(trace[|trace| - 1], exit) else PlanIsOut(trace[|trace| - 1])
      ensures trace[|old(trace)|].StatusRead? && PlanIsOut(trace[|old(trace)|]) ==>
        !stop && |trace| == |old(trace)| + 1
    {
      hide Now, Step;
      var status := GetTaskStatus();
      SubmitSteps(status, Fine);
      if !status.Got? {
        return true, if status.Cancels? then WasCancelled else Raised;
      }
      if status.status in NOT_SUBMITTED {
        var submitted := Anything();
        SubmitSteps(status, submitted);
        Record(PlanEvent(submitted));
        if submitted.CancelledCall? {
          return true, WasCancelled;
        }
        if !submitted.Fine? {
          var reported := ReportFailure();
          FailingSteps(reported);
          return true, Ends(reported);
        }
      }
      return false, Returned;
    }

    /** How the wait ends a run: Go has closed the task or took the failure report, or the status
        call raised what the code takes for that; by an exception; or by cancellation. */
    static predicate EndsApproval(e: Event, exit: Exit) {
      match exit
      case Returned => e == FailTask(true) || e == StatusRaised(RuntimeFault) || (e.StatusRead? && IsTerminal(e.status))
      case Raised => e == FailTask(false) || e == StatusRaised(OtherFault)
      case WasCancelled => e == Cancel
    }

    /** The first status that is the approval or terminal decides. */
    method AwaitApproval() returns (stop: bool, exit: Exit)
      requires Now().Wait?
      modifies this`trace
      ensures !stop ==> Now().Team?
      ensures stop ==> Ended(exit)
      ensures old(trace) < trace
      ensures if stop then EndsApproval(trace[|trace| - 1], exit) else trace[|trace| - 1] == StatusRead("implementing")
      ensures forall i | |old(trace)| <= i < |trace| - 1 && trace[i].StatusRead? ::
        trace[i].status != "implementing" && !IsTerminal(trace[i].status)
      ensures WaitTimedOut in trace[|old(trace)|..] ==> Total(trace, Naps) == Total(old(trace), Naps) + 2906
    {
      hide Now, Total, Step, IsPollLimit;
      exit := Returned;
      var reply, polls := WaitForStatus({IMPLEMENTING}, TERMINAL, 86_400.0);
      match reply
      case Reached(_) => stop := false;
      case TerminalStatus => return true, Returned;
      case CallRaised => return true, Raised;
      case WaitCancelled => return true, WasCancelled;
      case _ =>
        if reply.TimedOut? {
          PollLimits(86_400.0, polls);
        }
        ghost var before := trace;
        var reported := ReportFailure();
        FailingSteps(reported);
        TotalOfOneMore(before, FailEvent(reported), Naps);
        return true, Ends(reported);
    }

    /** Code agents side by side, then review agents one after the other; an exception of an
        agent is counted, not raised. */
    method RunAgents() returns (stop: bool, exit: Exit, allFailed: bool)
      requires Now().Team?
      modifies this`trace
      ensures stop ==> Ended(exit)
      ensures !stop ==> Now() == if allFailed then AllFailed else Extract
    {
      hide Now;
      exit, allFailed := Returned, false;
      var prepared := Calls();
      if !prepared.Fine? {
        return true, Ends(prepared), false;
      }
      var codeResults: seq<bool>, reviewResults: seq<bool>, cancelled: bool := *, *, *;
      if cancelled {
        Record(Cancel);
        return true, WasCancelled, false;
      }
      var failures := CountFailures(codeResults, reviewResults);
      Record(AgentsRun(codeResults, reviewResults));
      var total := |codeResults| + |reviewResults|;
      stop, allFailed := false, failures > 0 && failures == total;
    }

    /** The failures of the two groups; they are all exactly when none worked. */
    static method CountFailures(code: seq<bool>, review: seq<bool>) returns (failures: nat)
      ensures failures <= |code| + |review|
      ensures failures > 0 && failures == |code| + |review| <==> NoneWorked(code + review)
    {
      failures := 0;
      for k := 0 to |code|
        invariant failures <= k && (failures == k <==> true !in code[..k])
      {
        if !code[k] {
          failures := failures + 1;
        }
      }
      for k := 0 to |review|
        invariant failures <= |code| + k
        invariant failures == |code| + k <==> true !in code && true !in review[..k]
      {
        if !review[k] {
          failures := failures + 1;
        }
      }
    }

    /** All agents failed, or there is no change: the task fails unless Go says it is completed. */
    method FailUnlessCompleted() returns (exit: Exit, ghost read: StatusReply, ghost report: Reply)
      requires Now().AllFailed? || Now().Empty?
      modifies this`trace
      ensures Ended(exit)
      ensures trace == old(trace) + [StatusEvent(read)]
        + (if read.Cancels? || read == Got("completed") then [] else [FailEvent(report)])
      ensures exit ==
        if read.Cancels? then WasCancelled else if read == Got("completed") then Returned else Ends(report)
    {
      hide Now, Step, StatusEvent, FailEvent;
      ghost var before := Now();
      var status := GetTaskStatus();
      NothingDoneSteps(before, status);
      if status.Cancels? {
        return WasCancelled, status, Fine;
      }
      var current := if status.Got? then status.status else "";
      if current == "completed" {
        return Returned, status, Fine;
      }
      var reported := ReportFailure();
      FailingSteps(reported);
      exit, read, report := Ends(reported), status, reported;
    }

    /** Every diff is tried once; one that fails is only logged. */
    method SubmitDiffs(files: nat) returns (cancelled: bool)
      requires files > 0 && Now() == Diffs(files)
      modifies this`trace
      ensures Now() == if cancelled then Stopped else Build
      ensures old(trace) <= trace && (!cancelled ==> Total(trace, Tries) == Total(old(trace), Tries) + files)
    {
      hide Now, Total;
      for k := 0 to files
        invariant Now() == if k < files then Diffs(files - k) else Build
        invariant old(trace) <= trace && Total(trace, Tries) == Total(old(trace), Tries) + k
      {
        var r := Anything();
        TotalOfOneMore(trace, if r.CancelledCall? then Cancel else ReportDiff(r.Fine?), Tries);
        Record(if r.CancelledCall? then Cancel else ReportDiff(r.Fine?));
        if r.CancelledCall? {
          return true;
        }
      }
      cancelled := false;
    }

    /** Without changes the task fails or is left completed; otherwise every diff is tried, and
        a normal end is one of a result that Go took. */
    method SubmitWork() returns (exit: Exit, ghost files: nat)
      requires Now().Extract?
      modifies this`trace
      ensures Ended(exit)
      ensures old(trace) + [Changeset(files)] <= trace
      ensures files == 0 && exit.Returned? ==> trace[|trace| - 1] in {StatusRead("completed"), FailTask(true)}
      ensures files > 0 && exit.Returned? ==> trace[|trace| - 1] == ReportResult(true)
      ensures files > 0 && exit.Returned? ==> Total(trace, Tries) == Total(old(trace), Tries) + files
    {
      hide Now, Total;
      var count: nat :| count >= 0;
      files := count;
      TotalOfOneMore(trace, Changeset(count), Tries);
      Record(Changeset(count));
      if count == 0 {
        ghost var read, report;
        exit, read, report := FailUnlessCompleted();
        return;
      }
      var cancelled := SubmitDiffs(count);
      if cancelled {
        return WasCancelled, count;
      }
      var builder := Calls();
      if !builder.Fine? {
        return Ends(builder), count;
      }
      var done := Anything();
      TotalOfOneMore(trace, ResultEvent(done), Tries);
      Record(ResultEvent(done));
      exit := Ends(done);
    }

    method TryBlock() returns (exit: Exit)
      requires Now() == if checkIndex then IndexCheck else Planning
      modifies this`trace
      ensures Ended(exit)
    {
      hide Now;
      var stop := false;
      if checkIndex {
        stop, exit := CheckIndex();
        if stop {
          return;
        }
      }
      stop, exit := Plan();
      if stop {
        return;
      }
      stop, exit := AwaitApproval();
      if stop {
        return;
      }
      var allFailed;
      stop, exit, allFailed := RunAgents();
      if stop {
        return;
      }
      if allFailed {
        ghost var read, report;
        exit, read, report := FailUnlessCompleted();
      } else {
        ghost var files;
        exit, files := SubmitWork();
      }
    }

    /** The whole pipeline: the try block, then for an exception one attempt to fail the task. */
    method RunFullPipeline() returns (cancelled: bool)
      requires trace == []
      modifies this`trace
      ensures CompleteRun(checkIndex, trace)
      ensures cancelled <==> Now().Stopped?
    {
      var exit := TryBlock();
      if exit.Raised? {
        var reported := ReportFailure();
        return reported.CancelledCall?;
      }
      cancelled := exit.WasCancelled?;
    }
  }
}
