/** The pre-registered agents and their replenishers, mono/swarm/redis_consumer.py:875-950, 1169-1170.

    Every accepted event starts one more replenisher. A replenisher tests the size of the
    pool, waits for a registration and appends the new agent; others run while it waits. */
module WarmPool {
  import opened Wrappers

  const SIZE := 2

  // checking and registering count the replenishers at the loop test and in a registration
  datatype Pool = Pool(agents: seq<string>, handed: seq<string>, checking: nat, registering: nat)

  datatype Step =
    | Spawn
    | BeginRegistration
    | Registered(id: string)
    | RegistrationFailed
    | Quit                      // the pool is full, or the replenisher is cancelled
    | Take

  ghost predicate Enabled(p: Pool, e: Step, k: nat) {
    match e
    case Spawn => p.checking + p.registering < k
    case BeginRegistration => p.checking > 0 && |p.agents| < SIZE
    case Registered(id) => p.registering > 0 && id !in p.agents && id !in p.handed
    case RegistrationFailed => p.registering > 0
    case Quit => p.checking > 0
    case Take => p.agents != []
  }

  ghost function Next(p: Pool, e: Step, k: nat): Pool
    requires Enabled(p, e, k)
  {
    match e
    case Spawn => p.(checking := p.checking + 1)
    case BeginRegistration => p.(checking := p.checking - 1, registering := p.registering + 1)
    case Registered(id) => p.(agents := p.agents + [id], registering := p.registering - 1, checking := p.checking + 1)
    case RegistrationFailed => p.(registering := p.registering - 1)
    case Quit => p.(checking := p.checking - 1)
    case Take => p.(agents := p.agents[1..], handed := p.handed + [p.agents[0]])
  }

  ghost predicate Legal(p: Pool, es: seq<Step>, k: nat)
    decreases |es|
  {
    es == [] || (Enabled(p, es[0], k) && Legal(Next(p, es[0], k), es[1..], k))
  }

  ghost function Run(p: Pool, es: seq<Step>, k: nat): Pool
    requires Legal(p, es, k)
    decreases |es|
  {
    if es == [] then p else Run(Next(p, es[0], k), es[1..], k)
  }

  ghost predicate Distinct(s: seq<string>) {
    forall i, j | 0 <= i < j < |s| :: s[i] != s[j]
  }

  /** With at most k replenishers alive the pool and the registrations under way stay below
      SIZE + k, and no agent is in the pool twice, handed out twice, or both. */
  ghost predicate Bounded(p: Pool, k: nat) {
    && p.checking + p.registering <= k
    && |p.agents| + p.registering <= SIZE - 1 + k
    && Distinct(p.handed + p.agents)
  }

  lemma StepBounded(p: Pool, e: Step, k: nat)
    requires k >= 1 && Bounded(p, k) && Enabled(p, e, k)
    ensures Bounded(Next(p, e, k), k)
  {
    var q := Next(p, e, k);
    match e
    case Registered(id) =>
      var all := p.handed + p.agents;
      assert q.handed + q.agents == all + [id];
      assert forall i | 0 <= i < |all| :: all[i] in p.handed || all[i] in p.agents;
    case Take =>
      assert q.handed + q.agents == p.handed + p.agents;
    case _ =>
  }

  lemma {:induction false} RunBounded(p: Pool, es: seq<Step>, k: nat)
    requires k >= 1 && Bounded(p, k) && Legal(p, es, k)
    ensures Bounded(Run(p, es, k), k)
    decreases |es|
  {
    if es != [] {
      StepBounded(p, es[0], k);
      RunBounded(Next(p, es[0], k), es[1..], k);
    }
  }

  /** The main result, from the pool as start-up leaves it: any number of registrations may
      have failed, and no replenisher is alive. */
  lemma PoolStaysBounded(agents: seq<string>, es: seq<Step>, k: nat)
    requires k >= 1 && |agents| <= 2 && Distinct(agents)
    requires Legal(Pool(agents, [], 0, 0), es, k)
    ensures var p := Run(Pool(agents, [], 0, 0), es, k);
      |p.agents| + p.registering <= k + 1 && Distinct(p.handed + p.agents)
  {
    assert [] + agents == agents;
    RunBounded(Pool(agents, [], 0, 0), es, k);
  }

  // ---------- The bound is reached ----------

  ghost predicate Reaches(p: Pool, q: Pool, k: nat) {
    exists es :: Legal(p, es, k) && Run(p, es, k) == q
  }

  lemma Then(p: Pool, e: Step, q: Pool, k: nat)
    requires Enabled(p, e, k) && Reaches(Next(p, e, k), q, k)
    ensures Reaches(p, q, k)
  {
    var es :| Legal(Next(p, e, k), es, k) && Run(Next(p, e, k), es, k) == q;
    assert ([e] + es)[1..] == es;
    assert Legal(p, [e] + es, k) && Run(p, [e] + es, k) == q;
  }

  lemma Already(p: Pool, k: nat)
    ensures Reaches(p, p, k)
  {
    assert Legal(p, [], k) && Run(p, [], k) == p;
  }

  /** n more registrations come back, each with a new agent. */
  lemma {:induction false} AllRegister(p: Pool, n: nat, k: nat) returns (q: Pool)
    requires p.registering == n && Distinct(p.handed + p.agents)
    ensures Reaches(p, q, k) && |q.agents| == |p.agents| + n
    decreases n
  {
    if n == 0 {
      Already(p, k);
      q := p;
    } else {
      var id := NewId(p.handed + p.agents);
      var p' := Next(p, Registered(id), k);
      assert p'.handed + p'.agents == (p.handed + p.agents) + [id];
      q := AllRegister(p', n - 1, k);
      Then(p, Registered(id), q, k);
    }
  }

  function Longest(used: seq<string>): (n: nat)
    ensures forall s | s in used :: |s| <= n
  {
    if used == [] then 0 else
    var n := Longest(used[1..]);
    if |used[0]| > n then |used[0]| else n
  }

  lemma NewId(used: seq<string>) returns (id: string)
    ensures id !in used
  {
    id := seq(Longest(used) + 1, _ => 'x');
  }

  /** All waiting replenishers pass the test before any registration comes back. */
  lemma {:induction false} AllBegin(p: Pool, n: nat, k: nat)
    requires p.checking == n && |p.agents| < SIZE
    ensures Reaches(p, p.(checking := 0, registering := p.registering + n), k)
    decreases n
  {
    if n == 0 {
      Already(p, k);
    } else {
      AllBegin(Next(p, BeginRegistration, k), n - 1, k);
      Then(p, BeginRegistration, p.(checking := 0, registering := p.registering + n), k);
    }
  }

  lemma {:induction false} AllSpawn(p: Pool, n: nat, k: nat)
    requires p.checking + p.registering + n <= k
    ensures Reaches(p, p.(checking := p.checking + n), k)
    decreases n
  {
    if n == 0 {
      Already(p, k);
    } else {
      AllSpawn(Next(p, Spawn, k), n - 1, k);
      Then(p, Spawn, p.(checking := p.checking + n), k);
    }
  }

  lemma Chain(p: Pool, q: Pool, r: Pool, es: seq<Step>, k: nat)
    requires Legal(p, es, k) && Run(p, es, k) == q && Reaches(q, r, k)
    ensures Reaches(p, r, k)
    decreases |es|
  {
    if es != [] {
      Chain(Next(p, es[0], k), q, r, es[1..], k);
      Then(p, es[0], r, k);
    }
  }

  lemma Join(p: Pool, q: Pool, r: Pool, k: nat)
    requires Reaches(p, q, k) && Reaches(q, r, k)
    ensures Reaches(p, r, k)
  {
    var es :| Legal(p, es, k) && Run(p, es, k) == q;
    Chain(p, q, r, es, k);
  }

  /** For every k the bound is attained: after one agent is taken, k replenishers all see the
      free place and all fill it. */
  lemma BoundIsTight(k: nat, a: string, b: string) returns (q: Pool)
    requires k >= 1 && a != b
    ensures Reaches(Pool([a, b], [], 0, 0), q, k)
    ensures |q.agents| == k + 1
  {
    var p0 := Pool([a, b], [], 0, 0);
    var p1 := Next(p0, Take, k);
    assert p1.agents == [b] && p1.handed == [a];
    var p2 := p1.(checking := k);
    var p3 := p1.(checking := 0, registering := k);
    AllSpawn(p1, k, k);
    AllBegin(p2, k, k);
    assert p3.handed + p3.agents == [a, b];
    q := AllRegister(p3, k, k);
    Join(p2, p3, q, k);
    Join(p1, p2, q, k);
    Then(p0, Take, q, k);
  }

  // ---------- The code ----------

  lemma Snoc(p: Pool, q: Pool, e: Step, k: nat)
    requires Reaches(p, q, k) && Enabled(q, e, k)
    ensures Reaches(p, Next(q, e, k), k)
  {
    Already(Next(q, e, k), k);
    Then(q, e, Next(q, e, k), k);
    Join(p, q, Next(q, e, k), k);
  }

  lemma ReachedIsBounded(p: Pool, q: Pool, k: nat)
    requires k >= 1 && Bounded(p, k) && Reaches(p, q, k)
    ensures Bounded(q, k)
  {
    var es :| Legal(p, es, k) && Run(p, es, k) == q;
    RunBounded(p, es, k);
  }

  /** The ids among the answers of Go. */
  function Ids(answers: seq<Option<string>>): seq<string> {
    if answers == [] then [] else
    Ids(answers[..|answers| - 1]) + match answers[|answers| - 1] { case None => [] case Some(id) => [id] }
  }

  datatype Outcome = Full | Failed | StillRunning

  /** The pool as the consumer holds it, with a count of the replenishers that are alive. */
  class WarmAgents {
    const limit: nat
    var agents: seq<string>
    var handed: seq<string>
    var checking: nat
    var registering: nat
    // what Go has answered to the registrations
    var answers: seq<Option<string>>

    constructor (limit: nat)
      ensures this.limit == limit && Now() == Pool([], [], 0, 0) && answers == []
    {
      this.limit := limit;
      agents, handed, checking, registering, answers := [], [], 0, 0, [];
    }

    function Now(): Pool
      reads this
    {
      Pool(agents, handed, checking, registering)
    }

    method TakeWarmAgent() returns (agent: Option<string>)
      modifies this`agents, this`handed
      ensures old(agents) == [] ==> agent.None? && Now() == old(Now())
      ensures old(agents) != [] ==>
        && agent == Some(old(agents)[0]) && agents == old(agents)[1..] && handed == old(handed) + [old(agents)[0]]
        && Enabled(old(Now()), Take, limit) && Now() == Next(old(Now()), Take, limit)
    {
      if agents == [] {
        return None;
      }
      agent := Some(agents[0]);
      handed := handed + [agents[0]];
      agents := agents[1..];
    }

    /** register_agent: a new id, or an exception. */
    method Register() returns (id: Option<string>)
      modifies this`answers
      ensures id.Some? ==> id.value !in agents && id.value !in handed
      ensures answers == old(answers) + [id]
    {
      var ok: bool := *;
      id := if ok then Some(seq(Longest(agents + handed) + 1, _ => 'x')) else None;
      answers := answers + [id];
      assert forall s | s in agents || s in handed :: s in agents + handed;
    }

    /** What other tasks do meanwhile: anything but the steps of this replenisher itself. */
    method Others(atTest: nat, inCall: nat)
      requires atTest <= checking && inCall <= registering
      modifies this`agents, this`handed, this`checking, this`registering, this`answers
      ensures Reaches(old(Now()), Now(), limit)
      ensures atTest <= checking && inCall <= registering && old(answers) <= answers
    {
      Already(Now(), limit);
      var steps: nat :| steps >= 0;
      for i := 0 to steps
        invariant Reaches(old(Now()), Now(), limit)
        invariant atTest <= checking && inCall <= registering && old(answers) <= answers
      {
        hide Reaches;
        if {
          case agents != [] =>
            Snoc(old(Now()), Now(), Take, limit);
            var taken := TakeWarmAgent();
          case checking + registering < limit =>
            Snoc(old(Now()), Now(), Spawn, limit);
            checking := checking + 1;
          case checking > atTest && |agents| < SIZE =>
            Snoc(old(Now()), Now(), BeginRegistration, limit);
            checking, registering := checking - 1, registering + 1;
          case checking > atTest =>
            Snoc(old(Now()), Now(), Quit, limit);
            checking := checking - 1;
          case registering > inCall =>
            var id := Register();
            Finish(old(Now()), id);
          case true =>
        }
      }
    }

    /** A registration under way comes back. */
    method Finish(ghost start: Pool, id: Option<string>)
      requires registering > 0 && (id.Some? ==> id.value !in agents && id.value !in handed)
      requires Reaches(start, Now(), limit)
      modifies this`agents, this`checking, this`registering
      ensures Reaches(start, Now(), limit)
      ensures registering == old(registering) - 1
      ensures agents == old(agents) + match id { case None => [] case Some(a) => [a] }
      ensures checking == old(checking) + if id.Some? then 1 else 0
    {
      hide Reaches;
      registering := registering - 1;
      if id.Some? {
        Snoc(start, old(Now()), Registered(id.value), limit);
        agents := agents + [id.value];
        checking := checking + 1;
      } else {
        Snoc(start, old(Now()), RegistrationFailed, limit);
        assert agents == old(agents) + [];
      }
    }

    /** Start-up: up to SIZE registrations, any of which may fail. */
    method StartWarmPool()
      requires Now() == Pool([], [], 0, 0)
      modifies this`agents, this`answers
      ensures |answers| == |old(answers)| + 2 && agents == Ids(answers[|old(answers)|..])
      ensures |agents| <= 2 && Now() == Pool(agents, [], 0, 0)
      ensures limit >= 1 ==> Bounded(Now(), limit)
    {
      for i := 0 to SIZE
        invariant |agents| <= i && Distinct(agents) && Now() == Pool(agents, [], 0, 0)
        invariant old(answers) <= answers && |answers| == |old(answers)| + i
        invariant agents == Ids(answers[|old(answers)|..])
      {
        ghost var before := answers;
        var id := Register();
        assert answers[|old(answers)|..][..i] == before[|old(answers)|..];
        if id.Some? {
          agents := agents + [id.value];
        }
      }
      assert [] + agents == agents;
    }

    /** One replenisher, from its start. It need not come to an end while agents are taken as
        fast as they register, so it is followed for any number of turns. */
    method ReplenishWarmPool(turns: nat) returns (outcome: Outcome)
      requires checking >= 1
      modifies this`agents, this`handed, this`checking, this`registering, this`answers
      ensures Reaches(old(Now()), Now(), limit)
      ensures limit >= 1 && Bounded(old(Now()), limit) ==> Bounded(Now(), limit)
      ensures outcome.Full? ==> |agents| >= 2
      ensures outcome.Failed? ==> old(answers) < answers && answers[|answers| - 1].None?
      ensures outcome.StillRunning? ==> checking >= 1 && |agents| < 2 && |answers| >= |old(answers)| + turns
    {
      var start := Now();
      Already(start, limit);
      outcome := StillRunning;
      var turn := 0;
      while |agents| < SIZE && turn < turns
        invariant checking >= 1 && Reaches(start, Now(), limit) && outcome.StillRunning?
        invariant turn <= turns && old(answers) <= answers && |answers| >= |old(answers)| + turn
        decreases turns - turn
      {
        hide Reaches;
        Snoc(start, Now(), BeginRegistration, limit);
        checking, registering := checking - 1, registering + 1;
        ghost var asking := Now();
        Others(0, 1);
        Join(start, asking, Now(), limit);
        var id := Register();
        Finish(start, id);
        if id.None? {
          outcome := Failed;
          break;
        }
        // the heartbeat task is restarted before the next test
        ghost var added := Now();
        Others(1, 0);
        Join(start, added, Now(), limit);
        turn := turn + 1;
      }
      if !outcome.Failed? && |agents| >= SIZE {
        Snoc(start, Now(), Quit, limit);
        checking := checking - 1;
        outcome := Full;
      }
      if limit >= 1 && Bounded(start, limit) {
        ReachedIsBounded(start, Now(), limit);
      }
    }
  }
}
