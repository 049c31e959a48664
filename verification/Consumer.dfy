/** Teams per task in the Redis consumer, mono/swarm/redis_consumer.py:1087-1170.

    An event for a task starts a team unless one is running. A team that finishes and the
    callback that cleans up after it are two steps of the event loop, and events can be
    handled in between. */
module Consumer {
  import opened Wrappers

  type Team = string

  /** A team's asyncio task: running, finished with its callback still pending, or cleaned up. */
  datatype TeamState =
    | Running(task: string)
    | Finished(task: string)
    | Gone(task: string)

  // active and taskTeam are the consumer's _active_teams and _task_team_map
  datatype Swarm = Swarm(teams: map<Team, TeamState>, active: set<Team>, taskTeam: map<string, Team>)

  const IDLE := Swarm(map[], {}, map[])

  datatype Step =
    | Event(task: string, newTeam: Team)
    | Finish(team: Team)
    | Callback(team: Team)

  // ---------- The steps ----------

  /** The map names a running team of the task. */
  predicate HasTeam(s: Swarm, task: string) {
    && task in s.taskTeam && s.taskTeam[task] in s.active
    && s.taskTeam[task] in s.teams && s.teams[s.taskTeam[task]].Running?
  }

  /** An event for a task that still waits for a team, from the duplicate check on. */
  function Handle(s: Swarm, task: string, newTeam: Team): Swarm {
    if HasTeam(s, task) then s
    else Swarm(s.teams[newTeam := Running(task)], s.active + {newTeam}, s.taskTeam[task := newTeam])
  }

  ghost predicate Enabled(s: Swarm, e: Step) {
    match e
    case Event(_, newTeam) => newTeam !in s.teams
    case Finish(t) => t in s.teams && s.teams[t].Running?
    case Callback(t) => t in s.teams && s.teams[t].Finished?
  }

  ghost function Next(s: Swarm, e: Step): Swarm
    requires Enabled(s, e)
  {
    match e
    case Event(task, newTeam) => Handle(s, task, newTeam)
    case Finish(t) => s.(teams := s.teams[t := Finished(s.teams[t].task)])
    case Callback(t) =>
      var task := s.teams[t].task;
      Swarm(s.teams[t := Gone(task)], s.active - {t}, s.taskTeam - {task})
  }

  ghost predicate Legal(s: Swarm, es: seq<Step>)
    decreases |es|
  {
    es == [] || (Enabled(s, es[0]) && Legal(Next(s, es[0]), es[1..]))
  }

  ghost function Run(s: Swarm, es: seq<Step>): Swarm
    requires Legal(s, es)
    decreases |es|
  {
    if es == [] then s else Run(Next(s, es[0]), es[1..])
  }

  // ---------- What holds in every run ----------

  /** The active teams are those not yet cleaned up, and the map names such a team of that task. */
  ghost predicate Consistent(s: Swarm) {
    && (forall t :: t in s.active <==> t in s.teams && !s.teams[t].Gone?)
    && (forall k | k in s.taskTeam :: s.taskTeam[k] in s.active && s.teams[s.taskTeam[k]].task == k)
  }

  lemma StepConsistent(s: Swarm, e: Step)
    requires Consistent(s) && Enabled(s, e)
    ensures Consistent(Next(s, e))
  {
  }

  /** The map points at every running team. */
  ghost predicate Pointed(s: Swarm) {
    forall t | t in s.teams && s.teams[t].Running? ::
      s.teams[t].task in s.taskTeam && s.taskTeam[s.teams[t].task] == t
  }

  ghost predicate OneTeamPerTask(s: Swarm) {
    forall t, u | t in s.teams && u in s.teams && s.teams[t].Running? && s.teams[u].Running?
      && s.teams[t].task == s.teams[u].task :: t == u
  }

  /** The callback of t comes so late that a newer team already runs for its task. */
  ghost predicate Stale(s: Swarm, t: Team)
    requires t in s.teams
  {
    exists u :: u in s.teams && s.teams[u] == Running(s.teams[t].task)
  }

  /** A callback keeps the map pointing at every running team exactly when it is not stale;
      every other step keeps it always. */
  lemma PointedIff(s: Swarm, e: Step)
    requires Consistent(s) && Pointed(s) && Enabled(s, e)
    ensures Pointed(Next(s, e)) <==> !(e.Callback? && Stale(s, e.team))
  {
    var s' := Next(s, e);
    match e
    case Event(task, newTeam) =>
    case Finish(t) =>
    case Callback(t) =>
      if Stale(s, t) {
        var u :| u in s.teams && s.teams[u] == Running(s.teams[t].task);
        assert u in s'.teams && s'.teams[u].Running?;
      }
  }

  /** What a stale callback costs: the next event for the task starts a second team. */
  lemma StaleStartsSecond(s: Swarm, t: Team, newTeam: Team)
    requires Consistent(s) && Enabled(s, Callback(t)) && Stale(s, t) && newTeam !in s.teams
    ensures !OneTeamPerTask(Handle(Next(s, Callback(t)), s.teams[t].task, newTeam))
  {
    var u :| u in s.teams && s.teams[u] == Running(s.teams[t].task);
    var s' := Handle(Next(s, Callback(t)), s.teams[t].task, newTeam);
    assert s'.teams[u] == s'.teams[newTeam] == Running(s.teams[t].task);
  }

  ghost predicate NoStale(s: Swarm, es: seq<Step>)
    requires Legal(s, es)
    decreases |es|
  {
    es == [] || (!(es[0].Callback? && Stale(s, es[0].team)) && NoStale(Next(s, es[0]), es[1..]))
  }

  /** Without stale callbacks there is never more than one running team per task. */
  lemma {:induction false} OneTeam(s: Swarm, es: seq<Step>)
    requires Consistent(s) && Pointed(s) && Legal(s, es) && NoStale(s, es)
    ensures Consistent(Run(s, es)) && Pointed(Run(s, es)) && OneTeamPerTask(Run(s, es))
    decreases |es|
  {
    if es != [] {
      StepConsistent(s, es[0]);
      PointedIff(s, es[0]);
      OneTeam(Next(s, es[0]), es[1..]);
    }
  }

  ghost predicate AlwaysPointed(s: Swarm, es: seq<Step>)
    requires Legal(s, es)
    decreases |es|
  {
    Pointed(s) && (es == [] || AlwaysPointed(Next(s, es[0]), es[1..]))
  }

  /** Over whole runs: the map points at every running team at every moment exactly when there
      is no stale callback. */
  lemma {:induction false} AlwaysPointedIff(s: Swarm, es: seq<Step>)
    requires Consistent(s) && Pointed(s) && Legal(s, es)
    ensures AlwaysPointed(s, es) <==> NoStale(s, es)
    decreases |es|
  {
    if es != [] {
      hide Consistent, Pointed, Stale;
      StepConsistent(s, es[0]);
      PointedIff(s, es[0]);
      if !(es[0].Callback? && Stale(s, es[0].team)) {
        AlwaysPointedIff(Next(s, es[0]), es[1..]);
      }
    }
  }

  /** A team runs for the task, but the map does not know it. */
  ghost predicate Forgotten(s: Swarm, task: string) {
    exists u :: u in s.teams && s.teams[u] == Running(task) && !(task in s.taskTeam && s.taskTeam[task] == u)
  }

  /** A step keeps one team per task exactly when it is not an event for a task whose running
      team the map has forgotten. */
  lemma OneTeamIff(s: Swarm, e: Step)
    requires Consistent(s) && OneTeamPerTask(s) && Enabled(s, e)
    ensures OneTeamPerTask(Next(s, e)) <==> !(e.Event? && Forgotten(s, e.task))
  {
    if e.Event? && Forgotten(s, e.task) {
      var u :| u in s.teams && s.teams[u] == Running(e.task) && !(e.task in s.taskTeam && s.taskTeam[e.task] == u);
      var s' := Next(s, e);
      assert s'.teams[u] == s'.teams[e.newTeam] == Running(e.task);
    }
  }

  ghost predicate AlwaysOneTeam(s: Swarm, es: seq<Step>)
    requires Legal(s, es)
    decreases |es|
  {
    OneTeamPerTask(s) && (es == [] || AlwaysOneTeam(Next(s, es[0]), es[1..]))
  }

  ghost predicate NeverForgotten(s: Swarm, es: seq<Step>)
    requires Legal(s, es)
    decreases |es|
  {
    es == [] || (!(es[0].Event? && Forgotten(s, es[0].task)) && NeverForgotten(Next(s, es[0]), es[1..]))
  }

  /** Over whole runs: no task ever has two running teams exactly when no such event occurs. */
  lemma {:induction false} AlwaysOneTeamIff(s: Swarm, es: seq<Step>)
    requires Consistent(s) && OneTeamPerTask(s) && Legal(s, es)
    ensures AlwaysOneTeam(s, es) <==> NeverForgotten(s, es)
    decreases |es|
  {
    if es != [] {
      hide Consistent, OneTeamPerTask, Forgotten;
      StepConsistent(s, es[0]);
      OneTeamIff(s, es[0]);
      if !(es[0].Event? && Forgotten(s, es[0].task)) {
        AlwaysOneTeamIff(Next(s, es[0]), es[1..]);
      }
    }
  }

  /** Every event is handled after the callbacks of the task's finished teams have run. */
  ghost predicate Orderly(s: Swarm, es: seq<Step>)
    requires Legal(s, es)
    decreases |es|
  {
    es == [] || (
      && (es[0].Event? ==> forall t | t in s.teams :: s.teams[t] != Finished(es[0].task))
      && Orderly(Next(s, es[0]), es[1..]))
  }

  /** Every team not yet cleaned up is the one its task's map entry names. */
  ghost predicate AllPointed(s: Swarm) {
    forall t | t in s.teams && !s.teams[t].Gone? ::
      s.teams[t].task in s.taskTeam && s.taskTeam[s.teams[t].task] == t
  }

  lemma {:induction false} OrderlyIsNeverStale(s: Swarm, es: seq<Step>)
    requires Consistent(s) && AllPointed(s) && Legal(s, es) && Orderly(s, es)
    ensures NoStale(s, es)
    decreases |es|
  {
    if es != [] {
      StepConsistent(s, es[0]);
      OrderlyIsNeverStale(Next(s, es[0]), es[1..]);
    }
  }

  /** So callbacks in order guarantee one running team per task in every reachable state. */
  lemma OrderlyRuns(es: seq<Step>)
    requires Legal(IDLE, es) && Orderly(IDLE, es)
    ensures OneTeamPerTask(Run(IDLE, es)) && Pointed(Run(IDLE, es))
  {
    OrderlyIsNeverStale(IDLE, es);
    OneTeam(IDLE, es);
  }

  lemma Cons(s: Swarm, e: Step, es: seq<Step>)
    requires Enabled(s, e) && Legal(Next(s, e), es)
    ensures Legal(s, [e] + es) && Run(s, [e] + es) == Run(Next(s, e), es)
  {
    assert ([e] + es)[1..] == es;
  }

  /** The unrestricted event loop does reach two running teams for one task. */
  lemma TwoTeams(task: string, a: Team, b: Team, c: Team)
    requires a != b && b != c && a != c
    ensures var es := [Event(task, a)] + ([Finish(a)] + ([Event(task, b)] + ([Callback(a)] + ([Event(task, c)] + []))));
      Legal(IDLE, es) && !OneTeamPerTask(Run(IDLE, es))
  {
    hide Legal, Run;
    var s1 := Swarm(map[a := Running(task)], {a}, map[task := a]);
    var s2 := Swarm(map[a := Finished(task)], {a}, map[task := a]);
    var s3 := Swarm(map[a := Finished(task), b := Running(task)], {a, b}, map[task := b]);
    var s4 := Swarm(map[a := Gone(task), b := Running(task)], {b}, map[]);
    var s5 := Swarm(map[a := Gone(task), b := Running(task), c := Running(task)], {b, c}, map[task := c]);
    assert Next(IDLE, Event(task, a)) == s1;
    assert Next(s1, Finish(a)) == s2;
    assert Next(s2, Event(task, b)) == s3;
    assert Next(s3, Callback(a)) == s4;
    assert Next(s4, Event(task, c)) == s5;
    Nothing(s5);
    Cons(s4, Event(task, c), []);
    Cons(s3, Callback(a), [Event(task, c)] + []);
    Cons(s2, Event(task, b), [Callback(a)] + ([Event(task, c)] + []));
    Cons(s1, Finish(a), [Event(task, b)] + ([Callback(a)] + ([Event(task, c)] + [])));
    Cons(IDLE, Event(task, a), [Finish(a)] + ([Event(task, b)] + ([Callback(a)] + ([Event(task, c)] + []))));
    assert s5.teams[b] == s5.teams[c];
  }

  lemma Nothing(s: Swarm)
    ensures Legal(s, []) && Run(s, []) == s
  {
  }

  // ---------- The consumer's code ----------

  datatype TaskReply = Found(status: string) | NoTask | Unauthorized | OtherError

  const WAITING := {"submitted", "assigning", "planning"}

  /** The reply that decides the event: a 401 is retried once. */
  predicate Accepted(taskId: string, hasClient: bool, first: TaskReply, second: TaskReply) {
    var reply := if first.Unauthorized? then second else first;
    && taskId != "" && hasClient && reply.Found?
    && (reply.status == "submitted" || reply.status == "assigning" || reply.status == "planning")
  }

  predicate Fails(first: TaskReply, second: TaskReply) {
    first.OtherError? || (first.Unauthorized? && (second.Unauthorized? || second.OtherError?))
  }

  class RedisConsumer {
    const hasClient: bool
    var teams: map<Team, TeamState>
    var activeTeams: set<Team>
    var taskTeamMap: map<string, Team>

    constructor (hasClient: bool)
      ensures Now() == IDLE
      ensures this.hasClient == hasClient
    {
      this.hasClient := hasClient;
      teams, activeTeams, taskTeamMap := map[], {}, map[];
    }

    function Now(): Swarm
      reads this
    {
      Swarm(teams, activeTeams, taskTeamMap)
    }

    /** first and second are what the calls of get_task return; newTeam is the new uuid. The
        result says whether an exception leaves the method. */
    method HandleEvent(taskId: string, first: TaskReply, second: TaskReply, newTeam: Team) returns (raised: bool)
      requires Consistent(Now()) && newTeam !in teams
      modifies this`teams, this`activeTeams, this`taskTeamMap
      ensures Now() ==
        if Accepted(taskId, hasClient, first, second) then Handle(old(Now()), taskId, newTeam) else old(Now())
      ensures Accepted(taskId, hasClient, first, second) && !HasTeam(old(Now()), taskId) ==>
        && teams == old(teams)[newTeam := Running(taskId)] && activeTeams == old(activeTeams) + {newTeam}
        && taskTeamMap == old(taskTeamMap)[taskId := newTeam]
      ensures !Accepted(taskId, hasClient, first, second) || HasTeam(old(Now()), taskId) ==> Now() == old(Now())
      ensures raised <==> taskId != "" && hasClient && Fails(first, second)
      ensures Consistent(Now())
    {
      if taskId == "" || !hasClient {
        return false;
      }
      var reply := first;
      if reply.Unauthorized? {
        reply := second;
        if reply.Unauthorized? {
          return true;
        }
      }
      if reply.OtherError? {
        return true;
      }
      if reply.NoTask? || reply.status !in WAITING {
        return false;
      }
      if taskId in taskTeamMap {
        var existing := taskTeamMap[taskId];
        if existing in activeTeams && teams[existing].Running? {
          return false;
        }
        taskTeamMap := taskTeamMap - {taskId};
      }
      taskTeamMap := taskTeamMap[taskId := newTeam];
      teams := teams[newTeam := Running(taskId)];
      activeTeams := activeTeams + {newTeam};
      raised := false;
    }

    /** The done-callback of a team. */
    method Cleanup(team: Team)
      requires Consistent(Now()) && Enabled(Now(), Callback(team))
      modifies this`teams, this`activeTeams, this`taskTeamMap
      ensures Now() == Next(old(Now()), Callback(team))
      ensures var task := old(teams)[team].task;
        && teams == old(teams)[team := Gone(task)] && activeTeams == old(activeTeams) - {team}
        && taskTeamMap == old(taskTeamMap) - {task}
      ensures Consistent(Now())
    {
      var task := teams[team].task;
      teams := teams[team := Gone(task)];
      activeTeams := activeTeams - {team};
      taskTeamMap := taskTeamMap - {task};
    }
  }
}
