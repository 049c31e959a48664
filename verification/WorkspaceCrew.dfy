/** Agents that share a workspace but not their paths, mono/swarm/workspace.py:61-291.

    Each agent chooses its next call from the replies to its calls so far; a scheduler picks
    whose step comes next. Reads are torn into fetch and store and writes may wait for their
    fetch under the lock, as in WorkspaceRuns. Such agents cannot notice each other. */
module WorkspaceCrew {
  import opened Wrappers
  import opened Text
  import opened Workspace
  import opened WorkspaceRuns

  // ---------- What a call does to one path ----------

  /** One agent's step under the lock: a write, or a read that is not torn apart. */
  datatype Call =
    | Locked(w: Write, reachable: bool)
    | Read(path: string, reachable: bool)

  function CallTouches(c: Call): set<string> {
    match c
    case Locked(w, _) => Touches(w)
    case Read(p, _) => {p}
  }

  function ApplyCall(vcs: map<string, string>, ws: State, c: Call): State {
    match c
    case Locked(w, reachable) => Apply(vcs, ws, w, reachable).0
    case Read(p, reachable) => if p in ws.cache then ws else Stored(vcs, ws, p, reachable)
  }

  function ApplyCalls(vcs: map<string, string>, ws: State, cs: seq<Call>): State
    decreases |cs|
  {
    if cs == [] then ws else ApplyCalls(vcs, ApplyCall(vcs, ws, cs[0]), cs[1..])
  }

  /** What the workspace holds for one path. */
  datatype Slot = Slot(cached: Option<string>, change: Option<FileChange>)

  ghost function At(ws: State, p: string): Slot {
    Slot(if p in ws.cache then Some(ws.cache[p]) else None,
         if p in ws.changes then Some(ws.changes[p]) else None)
  }

  ghost function SlotReplace(slot: Slot, current: string, t: string, with: string): Slot {
    var i := FirstIndex(current, t);
    if i.None? then slot.(cached := Some(current)) else
    var text := Replace(current, t, with, i.value);
    Slot(Some(text),
      Some(if slot.change.Some? then slot.change.value.(proposed := text) else FileChange(Modified, current, text)))
  }

  ghost function SlotCreateAll(slot: Slot, files: seq<(string, string)>, p: string): Slot {
    if files == [] then slot else
    var f := files[|files| - 1];
    if f.0 == p then Slot(Some(f.1), Some(FileChange(Added, "", f.1)))
    else SlotCreateAll(slot, files[..|files| - 1], p)
  }

  /** The effect of a call on one path, computed from that path's slot alone. */
  ghost function SlotCall(vcs: map<string, string>, slot: Slot, c: Call, p: string): Slot {
    var base := if slot.cached.Some? then slot.cached else Fetched(vcs, p, c.reachable);
    if p !in CallTouches(c) then slot else
    match c
    case Read(_, _) => slot.(cached := base)
    case Locked(Edit(_, t, with), _) =>
      if base.None? then slot else SlotReplace(slot, base.value, t, with)
    case Locked(EditOrCreate(_, t, with), _) =>
      if base.None? then Slot(Some(with), Some(FileChange(Added, "", with)))
      else SlotReplace(slot, base.value, t, with)
    case Locked(Create(_, text), _) => Slot(Some(text), Some(FileChange(Added, "", text)))
    case Locked(CreateModule(files), _) => SlotCreateAll(slot, files, p)
    case Locked(Delete(_), _) =>
      var original :=
        if slot.cached.Some? && slot.cached.value != "" then slot.cached else Fetched(vcs, p, c.reachable);
      Slot(Some(""), Some(FileChange(Deleted, if original.Some? then original.value else "", "")))
  }

  ghost function SlotCalls(vcs: map<string, string>, slot: Slot, cs: seq<Call>, p: string): Slot
    decreases |cs|
  {
    if cs == [] then slot else SlotCalls(vcs, SlotCall(vcs, slot, cs[0], p), cs[1..], p)
  }

  lemma {:induction false} CreateAllAt(ws: State, files: seq<(string, string)>, p: string)
    ensures At(CreateAll(ws, files), p) == SlotCreateAll(At(ws, p), files, p)
  {
    if files != [] {
      CreateAllAt(ws, files[..|files| - 1], p);
    }
  }

  lemma {:induction false} SlotUntouched(slot: Slot, files: seq<(string, string)>, p: string)
    requires forall f | f in files :: f.0 != p
    ensures SlotCreateAll(slot, files, p) == slot
  {
    if files != [] {
      assert files[|files| - 1] in files;
      SlotUntouched(slot, files[..|files| - 1], p);
    }
  }

  lemma ReplaceAt(ws: State, q: string, current: string, t: string, with: string, p: string)
    requires q in ws.cache && ws.cache[q] == current
    ensures At(ReplaceIn(ws, q, current, t, with).0, p) ==
      if p == q then SlotReplace(At(ws, p), current, t, with) else At(ws, p)
  {
  }

  lemma SearchIsLocal(vcs: map<string, string>, ws: State, q: string, t: string, with: string,
      reachable: bool, p: string)
    ensures At(Apply(vcs, ws, Edit(q, t, with), reachable).0, p)
      == SlotCall(vcs, At(ws, p), Locked(Edit(q, t, with), reachable), p)
    ensures At(Apply(vcs, ws, EditOrCreate(q, t, with), reachable).0, p)
      == SlotCall(vcs, At(ws, p), Locked(EditOrCreate(q, t, with), reachable), p)
  {
    hide ReplaceIn, SlotReplace;
    if q in ws.cache {
      ReplaceAt(ws, q, ws.cache[q], t, with, p);
    } else if reachable && q in vcs {
      var fetched := ws.(cache := ws.cache[q := vcs[q]]);
      ReplaceAt(fetched, q, vcs[q], t, with, p);
      CachedFirst(At(ws, p), vcs[q], t, with);
    }
  }

  lemma CachedFirst(slot: Slot, current: string, t: string, with: string)
    ensures SlotReplace(slot.(cached := Some(current)), current, t, with) == SlotReplace(slot, current, t, with)
  {
  }

  /** A call acts on every path by itself. */
  lemma CallIsLocal(vcs: map<string, string>, ws: State, c: Call, p: string)
    ensures At(ApplyCall(vcs, ws, c), p) == SlotCall(vcs, At(ws, p), c, p)
  {
    match c
    case Read(_, _) =>
    case Locked(Edit(q, t, with), reachable) => SearchIsLocal(vcs, ws, q, t, with, reachable, p);
    case Locked(EditOrCreate(q, t, with), reachable) => SearchIsLocal(vcs, ws, q, t, with, reachable, p);
    case Locked(Create(_, _), _) =>
    case Locked(Delete(_), _) =>
    case Locked(CreateModule(files), _) =>
      CreateAllAt(ws, files, p);
      if p !in CallTouches(c) {
        SlotUntouched(At(ws, p), files, p);
      }
  }

  lemma {:induction false} CallsAreLocal(vcs: map<string, string>, ws: State, cs: seq<Call>, p: string)
    ensures At(ApplyCalls(vcs, ws, cs), p) == SlotCalls(vcs, At(ws, p), cs, p)
    decreases |cs|
  {
    if cs != [] {
      CallIsLocal(vcs, ws, cs[0], p);
      CallsAreLocal(vcs, ApplyCall(vcs, ws, cs[0]), cs[1..], p);
    }
  }

  // ---------- Agents ----------

  /** What the agent gets back: the text of a read, or the outcome of a write. */
  datatype Reply = Got(text: Option<string>) | Answered(outcome: Outcome)

  /** An agent chooses its next call from all replies so far; None ends it. */
  type Program = seq<Reply> -> Option<Call>

  function ReplyTo(vcs: map<string, string>, ws: State, c: Call): Reply {
    match c
    case Locked(w, reachable) => Answered(Apply(vcs, ws, w, reachable).1)
    case Read(p, reachable) => Got(if p in ws.cache then Some(ws.cache[p]) else Fetched(vcs, p, reachable))
  }

  /** A reply depends only on the paths that the call touches. */
  lemma ReplyIsLocal(vcs: map<string, string>, x: State, y: State, c: Call)
    requires forall p | p in CallTouches(c) :: At(x, p) == At(y, p)
    ensures ReplyTo(vcs, x, c) == ReplyTo(vcs, y, c)
  {
    match c
    case Locked(CreateModule(_), _) =>
    case Locked(w, _) => assert At(x, PathOf(w)) == At(y, PathOf(w));
    case Read(p, _) => assert At(x, p) == At(y, p);
  }

  // The files and the replies after an agent's first calls.
  datatype Stage = Stage(ws: State, heard: seq<Reply>)

  /** The agent alone, up to its first n calls. */
  ghost function Alone(vcs: map<string, string>, ws: State, prog: Program, n: nat): Stage {
    if n == 0 then Stage(ws, []) else
    var s := Alone(vcs, ws, prog, n - 1);
    match prog(s.heard)
    case None => s
    case Some(c) => Stage(ApplyCall(vcs, s.ws, c), s.heard + [ReplyTo(vcs, s.ws, c)])
  }

  ghost function CallsAlone(vcs: map<string, string>, ws: State, prog: Program, n: nat): seq<Call> {
    if n == 0 then [] else
    CallsAlone(vcs, ws, prog, n - 1) + match prog(Alone(vcs, ws, prog, n - 1).heard) {
      case None => []
      case Some(c) => [c]
    }
  }

  ghost predicate TouchesAt(vcs: map<string, string>, ws: State, prog: Program, n: nat, p: string) {
    var c := prog(Alone(vcs, ws, prog, n).heard);
    c.Some? && p in CallTouches(c.value)
  }

  /** The paths that the agent touches when it runs alone. */
  ghost predicate Owns(vcs: map<string, string>, ws: State, prog: Program, p: string) {
    exists n: nat :: TouchesAt(vcs, ws, prog, n, p)
  }

  ghost predicate Disjoint(vcs: map<string, string>, ws: State, progs: seq<Program>) {
    forall i, j, p | 0 <= i < |progs| && 0 <= j < |progs| && i != j ::
      !(Owns(vcs, ws, progs[i], p) && Owns(vcs, ws, progs[j], p))
  }

  // ---------- Schedules ----------

  /** Any number of agents with the replies they have heard. An agent's read miss is kept under
      its own number; holder is the agent whose write waits for its fetch. */
  datatype Crew = Crew(progs: seq<Program>, heard: seq<seq<Reply>>, shared: Shared, holder: Option<nat>)

  ghost function NextCall(c: Crew, i: nat): Option<Call> {
    if i < |c.progs| && i < |c.heard| then c.progs[i](c.heard[i]) else None
  }

  /** The agent has a call to make, and does not wait for the lock. */
  ghost predicate Ready(c: Crew, i: nat) {
    && i < |c.heard| && NextCall(c, i).Some?
    && (NextCall(c, i).value.Locked? ==> c.holder.None? || c.holder == Some(i))
  }

  /** The next event of agent i; a cached read is none. */
  ghost function EventOf(c: Crew, i: nat): Option<Event>
    requires Ready(c, i)
  {
    match NextCall(c, i).value
    case Read(p, reachable) =>
      if i in c.shared.misses then Some(ReadStore(i, reachable))
      else if p in c.shared.ws.cache then None
      else Some(ReadStart(i, p))
    case Locked(w, reachable) =>
      if c.holder == Some(i) then Some(WriteFinish(reachable))
      else if NeedsFetch(c.shared.ws, w) then Some(WriteStart(w))
      else Some(WriteDirect(w))
  }

  ghost predicate CanStep(c: Crew, i: nat) {
    Ready(c, i) && (EventOf(c, i).Some? ==> Enabled(c.shared, EventOf(c, i).value))
  }

  ghost function Hears(c: Crew, i: nat, reply: Reply): Crew
    requires i < |c.heard|
  {
    c.(heard := c.heard[i := c.heard[i] + [reply]])
  }

  /** Agent i takes its next step; the call is over unless the step was its first half. */
  ghost function CrewStep(vcs: map<string, string>, c: Crew, i: nat): Crew
    requires CanStep(c, i)
  {
    match EventOf(c, i)
    case None => Hears(c, i, Got(Some(c.shared.ws.cache[NextCall(c, i).value.path])))
    case Some(e) =>
      var d := c.(shared := Next(vcs, c.shared, e));
      match e
      case ReadStart(_, _) => d
      case ReadStore(_, reachable) => Hears(d, i, Got(Fetched(vcs, c.shared.misses[i], reachable)))
      case WriteStart(_) => d.(holder := Some(i))
      case _ =>
        var told := Told(vcs, c.shared, e);
        if told.None? then d else Hears(d.(holder := None), i, Answered(told.value))
  }

  ghost predicate Scheduled(vcs: map<string, string>, c: Crew, schedule: seq<nat>)
    decreases |schedule|
  {
    schedule == [] ||
    (CanStep(c, schedule[0]) && Scheduled(vcs, CrewStep(vcs, c, schedule[0]), schedule[1..]))
  }

  ghost function CrewRun(vcs: map<string, string>, c: Crew, schedule: seq<nat>): Crew
    requires Scheduled(vcs, c, schedule)
    decreases |schedule|
  {
    if schedule == [] then c else CrewRun(vcs, CrewStep(vcs, c, schedule[0]), schedule[1..])
  }

  ghost predicate Finished(c: Crew) {
    forall i | 0 <= i < |c.heard| :: NextCall(c, i).None?
  }

  ghost predicate Fresh(vcs: map<string, string>, c: Crew) {
    && |c.heard| == |c.progs| && (forall i | 0 <= i < |c.heard| :: c.heard[i] == [])
    && c.shared.misses == map[] && c.shared.writer.None? && c.holder.None?
    && Disjoint(vcs, c.shared.ws, c.progs)
  }

  // ---------- What every schedule keeps ----------

  /** What is under way belongs to the next call of its agent, and its path is still uncached. */
  ghost predicate UnderWay(c: Crew) {
    && (c.holder.None? <==> c.shared.writer.None?)
    && (c.holder.Some? ==>
          var call := NextCall(c, c.holder.value);
          && c.holder.value < |c.heard| && call.Some? && call.value.Locked? && call.value.w == c.shared.writer.value
          && NeedsFetch(c.shared.ws, c.shared.writer.value))
    && (forall i | i in c.shared.misses ::
          var call := NextCall(c, i);
          && i < |c.heard| && call.Some? && call.value.Read? && call.value.path == c.shared.misses[i]
          && c.shared.misses[i] !in c.shared.ws.cache)
  }

  /** Agent i has heard what it hears alone, and finds its paths as it leaves them alone. */
  ghost predicate AsIfAlone(vcs: map<string, string>, ws: State, c: Crew, i: nat)
    requires i < |c.heard| == |c.progs|
  {
    var s := Alone(vcs, ws, c.progs[i], |c.heard[i]|);
    && c.heard[i] == s.heard
    && forall p | Owns(vcs, ws, c.progs[i], p) :: At(c.shared.ws, p) == At(s.ws, p)
  }

  ghost predicate Unowned(vcs: map<string, string>, ws: State, progs: seq<Program>, p: string) {
    forall i | 0 <= i < |progs| :: !Owns(vcs, ws, progs[i], p)
  }

  /** ws are the files with which the crew started. */
  ghost predicate CrewInv(vcs: map<string, string>, ws: State, c: Crew) {
    && |c.heard| == |c.progs| && Disjoint(vcs, ws, c.progs) && UnderWay(c)
    && (forall i | 0 <= i < |c.heard| :: AsIfAlone(vcs, ws, c, i))
    && (forall p | Unowned(vcs, ws, c.progs, p) :: At(c.shared.ws, p) == At(ws, p))
  }

  /** No agent but those waiting for the lock is ever held up. */
  lemma StepIsEnabled(c: Crew, i: nat)
    requires UnderWay(c) && Ready(c, i)
    ensures CanStep(c, i)
  {
  }

  /** A step leaves files and replies alone, or completes the agent's call on them. */
  lemma StepEffect(vcs: map<string, string>, c: Crew, i: nat)
    requires UnderWay(c) && CanStep(c, i)
    ensures var d, call := CrewStep(vcs, c, i), NextCall(c, i).value;
      && d.progs == c.progs
      && (|| (d.shared.ws == c.shared.ws && d.heard == c.heard)
          || (&& d.shared.ws == ApplyCall(vcs, c.shared.ws, call)
              && d.heard == c.heard[i := c.heard[i] + [ReplyTo(vcs, c.shared.ws, call)]]))
  {
    hide ReplaceIn;
  }

  lemma NextIsOwned(vcs: map<string, string>, ws: State, c: Crew, i: nat, p: string)
    requires i < |c.heard| == |c.progs| && AsIfAlone(vcs, ws, c, i)
    requires NextCall(c, i).Some? && p in CallTouches(NextCall(c, i).value)
    ensures Owns(vcs, ws, c.progs[i], p)
  {
    assert TouchesAt(vcs, ws, c.progs[i], |c.heard[i]|, p);
  }

  lemma OthersPath(vcs: map<string, string>, c: Crew, i: nat, p: string)
    requires UnderWay(c) && CanStep(c, i) && p !in CallTouches(NextCall(c, i).value)
    ensures At(CrewStep(vcs, c, i).shared.ws, p) == At(c.shared.ws, p)
  {
    hide UnderWay, CrewStep, EventOf, Enabled, ApplyCall, CallTouches, At;
    StepEffect(vcs, c, i);
    CallIsLocal(vcs, c.shared.ws, NextCall(c, i).value, p);
  }

  lemma NotOfOthers(vcs: map<string, string>, ws: State, c: Crew, i: nat, j: nat, p: string)
    requires CrewInv(vcs, ws, c) && CanStep(c, i) && j < |c.heard| && i != j && Owns(vcs, ws, c.progs[j], p)
    ensures p !in CallTouches(NextCall(c, i).value)
  {
    if p in CallTouches(NextCall(c, i).value) {
      NextIsOwned(vcs, ws, c, i, p);
    }
  }

  lemma UnderWayStays(vcs: map<string, string>, ws: State, c: Crew, i: nat)
    requires CrewInv(vcs, ws, c) && CanStep(c, i)
    ensures UnderWay(CrewStep(vcs, c, i))
  {
    hide Disjoint, Finish, Direct, AsIfAlone;
    var d := CrewStep(vcs, c, i);
    forall j | j in c.shared.misses && j != i ensures c.shared.misses[j] !in d.shared.ws.cache {
      var p := c.shared.misses[j];
      NextIsOwned(vcs, ws, c, j, p);
      NotOfOthers(vcs, ws, c, i, j, p);
      OthersPath(vcs, c, i, p);
    }
    if c.holder.Some? && c.holder.value != i {
      var j, p := c.holder.value, PathOf(c.shared.writer.value);
      NextIsOwned(vcs, ws, c, j, p);
      NotOfOthers(vcs, ws, c, i, j, p);
      OthersPath(vcs, c, i, p);
    }
  }

  lemma OwnStep(vcs: map<string, string>, ws: State, c: Crew, i: nat)
    requires CrewInv(vcs, ws, c) && CanStep(c, i)
    ensures AsIfAlone(vcs, ws, CrewStep(vcs, c, i), i)
  {
    hide Disjoint, UnderWay, CrewStep, Owns, ApplyCall, ReplyTo, At, SlotCall;
    StepEffect(vcs, c, i);
    var call, n := NextCall(c, i).value, |c.heard[i]|;
    var s := Alone(vcs, ws, c.progs[i], n);
    forall p | p in CallTouches(call) ensures At(c.shared.ws, p) == At(s.ws, p) {
      NextIsOwned(vcs, ws, c, i, p);
    }
    ReplyIsLocal(vcs, c.shared.ws, s.ws, call);
    forall p | Owns(vcs, ws, c.progs[i], p)
      ensures At(ApplyCall(vcs, c.shared.ws, call), p) == At(ApplyCall(vcs, s.ws, call), p)
    {
      CallIsLocal(vcs, c.shared.ws, call, p);
      CallIsLocal(vcs, s.ws, call, p);
    }
  }

  lemma OtherStays(vcs: map<string, string>, ws: State, c: Crew, i: nat, j: nat)
    requires CrewInv(vcs, ws, c) && CanStep(c, i) && j < |c.heard| && i != j
    ensures AsIfAlone(vcs, ws, CrewStep(vcs, c, i), j)
  {
    hide Disjoint, UnderWay, CrewStep, Owns, ApplyCall, ReplyTo, At, EventOf, Enabled;
    StepEffect(vcs, c, i);
    assert AsIfAlone(vcs, ws, c, j);
    forall p | Owns(vcs, ws, c.progs[j], p) ensures At(CrewStep(vcs, c, i).shared.ws, p) == At(c.shared.ws, p) {
      NotOfOthers(vcs, ws, c, i, j, p);
      OthersPath(vcs, c, i, p);
    }
  }

  lemma CrewStepKeeps(vcs: map<string, string>, ws: State, c: Crew, i: nat)
    requires CrewInv(vcs, ws, c) && CanStep(c, i)
    ensures CrewInv(vcs, ws, CrewStep(vcs, c, i)) && CrewStep(vcs, c, i).progs == c.progs
  {
    var d := CrewStep(vcs, c, i);
    StepEffect(vcs, c, i);
    UnderWayStays(vcs, ws, c, i);
    hide Disjoint, UnderWay, CrewStep, Owns, ApplyCall, ReplyTo, At, CanStep, AsIfAlone;
    forall j | 0 <= j < |d.heard| ensures AsIfAlone(vcs, ws, d, j) {
      if j == i {
        OwnStep(vcs, ws, c, i);
      } else {
        OtherStays(vcs, ws, c, i, j);
      }
    }
    forall p | Unowned(vcs, ws, d.progs, p) ensures At(d.shared.ws, p) == At(ws, p) {
      if p in CallTouches(NextCall(c, i).value) {
        NextIsOwned(vcs, ws, c, i, p);
      }
      OthersPath(vcs, c, i, p);
    }
  }

  lemma FreshInv(vcs: map<string, string>, c: Crew)
    requires Fresh(vcs, c)
    ensures CrewInv(vcs, c.shared.ws, c)
  {
    hide Disjoint, Owns, At;
  }

  lemma {:induction false} RunKeeps(vcs: map<string, string>, ws: State, c: Crew, schedule: seq<nat>)
    requires CrewInv(vcs, ws, c) && Scheduled(vcs, c, schedule)
    ensures CrewInv(vcs, ws, CrewRun(vcs, c, schedule)) && CrewRun(vcs, c, schedule).progs == c.progs
    decreases |schedule|
  {
    if schedule != [] {
      hide CrewInv, CanStep, CrewStep;
      CrewStepKeeps(vcs, ws, c, schedule[0]);
      RunKeeps(vcs, ws, CrewStep(vcs, c, schedule[0]), schedule[1..]);
    }
  }

  /** No agent can notice the others: after any schedule each has heard, to every call, what it
      hears when it runs alone, and so makes the same calls. */
  lemma NobodyNotices(vcs: map<string, string>, c: Crew, schedule: seq<nat>, i: nat)
    requires Fresh(vcs, c) && Scheduled(vcs, c, schedule) && i < |c.progs|
    ensures var d := CrewRun(vcs, c, schedule);
      i < |d.heard| && d.heard[i] == Alone(vcs, c.shared.ws, c.progs[i], |d.heard[i]|).heard
  {
    FreshInv(vcs, c);
    RunKeeps(vcs, c.shared.ws, c, schedule);
    hide CrewRun, Fresh, Disjoint, UnderWay, Owns, At;
    assert AsIfAlone(vcs, c.shared.ws, CrewRun(vcs, c, schedule), i);
  }

  /** And no schedule gets stuck: as long as an agent has a call to make, some agent can step. */
  lemma NeverStuck(vcs: map<string, string>, c: Crew, schedule: seq<nat>)
    requires Fresh(vcs, c) && Scheduled(vcs, c, schedule)
    ensures var d := CrewRun(vcs, c, schedule); Finished(d) <==> !exists i :: CanStep(d, i)
  {
    var d := CrewRun(vcs, c, schedule);
    FreshInv(vcs, c);
    RunKeeps(vcs, c.shared.ws, c, schedule);
    hide CrewRun, Fresh, Disjoint, AsIfAlone, Enabled;
    if i: nat :| i < |d.heard| && NextCall(d, i).Some? {
      var j := if d.holder.Some? then d.holder.value else i;
      StepIsEnabled(d, j);
    }
  }

  lemma {:induction false} AloneStays(vcs: map<string, string>, ws: State, prog: Program, m: nat, n: nat)
    requires m <= n && prog(Alone(vcs, ws, prog, m).heard).None?
    ensures Alone(vcs, ws, prog, n) == Alone(vcs, ws, prog, m)
    decreases n
  {
    if m < n {
      AloneStays(vcs, ws, prog, m, n - 1);
    }
  }

  // ---------- Progress ----------

  /** Every agent, when it runs alone, stops after this number of calls. */
  ghost predicate StopAlone(vcs: map<string, string>, ws: State, progs: seq<Program>, counts: seq<nat>) {
    && |counts| == |progs|
    && forall i | 0 <= i < |progs| ::
      var heard := Alone(vcs, ws, progs[i], counts[i]).heard; |heard| == counts[i] && progs[i](heard).None?
  }

  /** Two steps for each call to come, less the one that is half done. */
  ghost function StepsLeft(c: Crew, counts: seq<nat>, i: nat): int
    requires i < |counts| && i < |c.heard|
  {
    2 * (counts[i] - |c.heard[i]|) - if i in c.shared.misses || c.holder == Some(i) then 1 else 0
  }

  ghost function AllStepsLeft(c: Crew, counts: seq<nat>, n: nat): int
    requires n <= |counts| && n <= |c.heard|
  {
    if n == 0 then 0 else AllStepsLeft(c, counts, n - 1) + StepsLeft(c, counts, n - 1)
  }

  function Sum(counts: seq<nat>): nat {
    if counts == [] then 0 else Sum(counts[..|counts| - 1]) + counts[|counts| - 1]
  }

  lemma CallsLeft(vcs: map<string, string>, ws: State, c: Crew, counts: seq<nat>, i: nat)
    requires CrewInv(vcs, ws, c) && StopAlone(vcs, ws, c.progs, counts) && i < |c.heard|
    ensures |c.heard[i]| <= counts[i] && (NextCall(c, i).Some? ==> |c.heard[i]| < counts[i])
    ensures StepsLeft(c, counts, i) >= 0
  {
    hide Disjoint, Owns, At, Alone;
    assert AsIfAlone(vcs, ws, c, i);
    if counts[i] <= |c.heard[i]| {
      AloneStays(vcs, ws, c.progs[i], counts[i], |c.heard[i]|);
    }
  }

  lemma StepCosts(vcs: map<string, string>, c: Crew, counts: seq<nat>, i: nat)
    requires UnderWay(c) && CanStep(c, i) && |counts| == |c.heard|
    ensures var d := CrewStep(vcs, c, i);
      && |d.heard| == |c.heard| && StepsLeft(d, counts, i) < StepsLeft(c, counts, i)
      && forall j: nat | j < |counts| && j != i :: StepsLeft(d, counts, j) == StepsLeft(c, counts, j)
  {
    hide Finish, Direct;
  }

  lemma {:induction false} StepCostsAll(vcs: map<string, string>, c: Crew, counts: seq<nat>, i: nat, n: nat)
    requires UnderWay(c) && CanStep(c, i) && n <= |counts| == |c.heard|
    ensures |CrewStep(vcs, c, i).heard| == |c.heard|
    ensures AllStepsLeft(CrewStep(vcs, c, i), counts, n) <= AllStepsLeft(c, counts, n) - if i < n then 1 else 0
  {
    hide UnderWay, CanStep, CrewStep, StepsLeft;
    StepCosts(vcs, c, counts, i);
    if n > 0 {
      StepCostsAll(vcs, c, counts, i, n - 1);
    }
  }

  lemma {:induction false} SomeLeft(vcs: map<string, string>, ws: State, c: Crew, counts: seq<nat>, n: nat)
    requires CrewInv(vcs, ws, c) && StopAlone(vcs, ws, c.progs, counts) && n <= |c.heard|
    ensures |counts| == |c.heard| && AllStepsLeft(c, counts, n) >= 0
  {
    if n > 0 {
      CallsLeft(vcs, ws, c, counts, n - 1);
      hide StepsLeft, Disjoint, UnderWay;
      SomeLeft(vcs, ws, c, counts, n - 1);
    }
  }

  lemma {:induction false} ScheduleIsShort(vcs: map<string, string>, ws: State, c: Crew, counts: seq<nat>,
      schedule: seq<nat>)
    requires CrewInv(vcs, ws, c) && StopAlone(vcs, ws, c.progs, counts) && Scheduled(vcs, c, schedule)
    ensures |counts| == |c.heard| && |schedule| <= AllStepsLeft(c, counts, |counts|)
    decreases |schedule|
  {
    SomeLeft(vcs, ws, c, counts, |c.heard|);
    if schedule != [] {
      var i := schedule[0];
      StepCostsAll(vcs, c, counts, i, |counts|);
      CrewStepKeeps(vcs, ws, c, i);
      hide CrewInv, EventOf, Enabled, CrewStep, StopAlone, AllStepsLeft;
      ScheduleIsShort(vcs, ws, CrewStep(vcs, c, i), counts, schedule[1..]);
    }
  }

  lemma {:induction false} AllAhead(c: Crew, counts: seq<nat>, n: nat)
    requires n <= |counts| == |c.heard| && c.shared.misses == map[] && c.holder.None?
    requires forall i | 0 <= i < |c.heard| :: c.heard[i] == []
    ensures AllStepsLeft(c, counts, n) == 2 * Sum(counts[..n])
  {
    if n > 0 {
      AllAhead(c, counts, n - 1);
      assert counts[..n][..n - 1] == counts[..n - 1];
    }
  }

  /** Agents that stop when they run alone stop together, too: whoever steps when, all is done
      after two steps for each of those calls at most. */
  lemma EveryScheduleEnds(vcs: map<string, string>, c: Crew, counts: seq<nat>, schedule: seq<nat>)
    requires Fresh(vcs, c) && StopAlone(vcs, c.shared.ws, c.progs, counts) && Scheduled(vcs, c, schedule)
    ensures |schedule| <= 2 * Sum(counts)
  {
    FreshInv(vcs, c);
    ScheduleIsShort(vcs, c.shared.ws, c, counts, schedule);
    AllAhead(c, counts, |counts|);
    assert counts[..|counts|] == counts;
  }

  // ---------- Serializability ----------

  ghost predicate Avoids(cs: seq<Call>, p: string) {
    forall c | c in cs :: p !in CallTouches(c)
  }

  function Flatten(todo: seq<seq<Call>>): seq<Call> {
    if todo == [] then [] else todo[0] + Flatten(todo[1..])
  }

  lemma {:induction false} SlotCallsAppend(vcs: map<string, string>, slot: Slot, a: seq<Call>, b: seq<Call>, p: string)
    ensures SlotCalls(vcs, slot, a + b, p) == SlotCalls(vcs, SlotCalls(vcs, slot, a, p), b, p)
    decreases |a|
  {
    hide SlotCall;
    if a == [] {
      assert a + b == b;
    } else {
      assert (a + b)[1..] == a[1..] + b;
      SlotCallsAppend(vcs, SlotCall(vcs, slot, a[0], p), a[1..], b, p);
    }
  }

  lemma {:induction false} AvoidedSlot(vcs: map<string, string>, slot: Slot, a: seq<Call>, p: string)
    requires Avoids(a, p)
    ensures SlotCalls(vcs, slot, a, p) == slot
    decreases |a|
  {
    if a != [] {
      assert a[0] in a;
      AvoidedSlot(vcs, slot, a[1..], p);
    }
  }

  /** One agent after the other: only the owner of a path counts for it. */
  lemma {:induction false} FlattenedSlot(vcs: map<string, string>, slot: Slot, todo: seq<seq<Call>>, i: nat, p: string)
    requires i < |todo| && forall j | 0 <= j < |todo| && j != i :: Avoids(todo[j], p)
    ensures SlotCalls(vcs, slot, Flatten(todo), p) == SlotCalls(vcs, slot, todo[i], p)
    decreases |todo|
  {
    hide SlotCall, Avoids;
    var rest := todo[1..];
    SlotCallsAppend(vcs, slot, todo[0], Flatten(rest), p);
    if i == 0 {
      AllAvoid(vcs, SlotCalls(vcs, slot, todo[0], p), rest, p);
    } else {
      AvoidedSlot(vcs, slot, todo[0], p);
      FlattenedSlot(vcs, slot, rest, i - 1, p);
    }
  }

  lemma {:induction false} AllAvoid(vcs: map<string, string>, slot: Slot, todo: seq<seq<Call>>, p: string)
    requires forall j | 0 <= j < |todo| :: Avoids(todo[j], p)
    ensures SlotCalls(vcs, slot, Flatten(todo), p) == slot
    decreases |todo|
  {
    hide SlotCall, Avoids;
    if todo != [] {
      SlotCallsAppend(vcs, slot, todo[0], Flatten(todo[1..]), p);
      AvoidedSlot(vcs, slot, todo[0], p);
      AllAvoid(vcs, slot, todo[1..], p);
    }
  }

  lemma {:induction false} CallsAreAlone(vcs: map<string, string>, ws: State, prog: Program, n: nat, p: string)
    ensures At(Alone(vcs, ws, prog, n).ws, p) == SlotCalls(vcs, At(ws, p), CallsAlone(vcs, ws, prog, n), p)
    ensures !Owns(vcs, ws, prog, p) ==> Avoids(CallsAlone(vcs, ws, prog, n), p)
  {
    if n > 0 {
      hide At, ApplyCall, SlotCall, ReplyTo;
      CallsAreAlone(vcs, ws, prog, n - 1, p);
      var s, cs := Alone(vcs, ws, prog, n - 1), CallsAlone(vcs, ws, prog, n - 1);
      match prog(s.heard)
      case None => assert cs + [] == cs;
      case Some(c) =>
        CallIsLocal(vcs, s.ws, c, p);
        SlotCallsAppend(vcs, At(ws, p), cs, [c], p);
        assert [c][1..] == [];
        assert TouchesAt(vcs, ws, prog, n - 1, p) <==> p in CallTouches(c);
    }
  }

  /** The calls the agents have made, each agent's in its order. */
  ghost function Made(vcs: map<string, string>, ws: State, c: Crew): seq<seq<Call>> {
    seq(|c.heard|, i requires 0 <= i < |c.heard| =>
      if i < |c.progs| then CallsAlone(vcs, ws, c.progs[i], |c.heard[i]|) else [])
  }

  lemma MadeSlot(vcs: map<string, string>, ws: State, c: Crew, p: string)
    requires CrewInv(vcs, ws, c)
    ensures At(c.shared.ws, p) == At(ApplyCalls(vcs, ws, Flatten(Made(vcs, ws, c))), p)
  {
    hide Owns, At, SlotCalls, Avoids, Flatten, UnderWay, ApplyCalls, CallsAlone, Alone;
    var made := Made(vcs, ws, c);
    CallsAreLocal(vcs, ws, Flatten(made), p);
    forall j: nat | j < |made|
      ensures At(Alone(vcs, ws, c.progs[j], |c.heard[j]|).ws, p) == SlotCalls(vcs, At(ws, p), made[j], p)
      ensures !Owns(vcs, ws, c.progs[j], p) ==> Avoids(made[j], p)
    {
      CallsAreAlone(vcs, ws, c.progs[j], |c.heard[j]|, p);
    }
    if i: nat :| i < |made| && Owns(vcs, ws, c.progs[i], p) {
      assert AsIfAlone(vcs, ws, c, i);
      FlattenedSlot(vcs, At(ws, p), made, i, p);
    } else {
      assert Unowned(vcs, ws, c.progs, p);
      AllAvoid(vcs, At(ws, p), made, p);
    }
  }

  /** Agents that touch disjoint sets of paths, reads torn into fetch and store: at every moment
      cache and changes are as if the agents had made their calls one agent after the other. */
  lemma Serializable(vcs: map<string, string>, c: Crew, schedule: seq<nat>)
    requires Fresh(vcs, c) && Scheduled(vcs, c, schedule)
    ensures var d := CrewRun(vcs, c, schedule);
      var y := ApplyCalls(vcs, c.shared.ws, Flatten(Made(vcs, c.shared.ws, d)));
      d.shared.ws.cache == y.cache && d.shared.ws.changes == y.changes
  {
    var d, ws := CrewRun(vcs, c, schedule), c.shared.ws;
    FreshInv(vcs, c);
    RunKeeps(vcs, ws, c, schedule);
    hide Fresh, CrewRun, CrewInv, At, Made, Flatten, ApplyCalls;
    var y := ApplyCalls(vcs, ws, Flatten(Made(vcs, ws, d)));
    forall p ensures At(d.shared.ws, p) == At(y, p) {
      MadeSlot(vcs, ws, d, p);
    }
    SameSlots(d.shared.ws, y);
  }

  /** So every two schedules to the end leave the same cache and the same changes, and every
      agent has heard the same. */
  lemma Confluence(vcs: map<string, string>, c: Crew, first: seq<nat>, second: seq<nat>)
    requires Fresh(vcs, c) && Scheduled(vcs, c, first) && Scheduled(vcs, c, second)
    requires Finished(CrewRun(vcs, c, first)) && Finished(CrewRun(vcs, c, second))
    ensures var d, e := CrewRun(vcs, c, first), CrewRun(vcs, c, second);
      && d.heard == e.heard
      && d.shared.ws.cache == e.shared.ws.cache && d.shared.ws.changes == e.shared.ws.changes
  {
    var d, e, ws := CrewRun(vcs, c, first), CrewRun(vcs, c, second), c.shared.ws;
    FreshInv(vcs, c);
    RunKeeps(vcs, ws, c, first);
    RunKeeps(vcs, ws, c, second);
    Serializable(vcs, c, first);
    Serializable(vcs, c, second);
    SameRepliesAtEnd(vcs, ws, d, e);
  }

  lemma SameRepliesAtEnd(vcs: map<string, string>, ws: State, d: Crew, e: Crew)
    requires CrewInv(vcs, ws, d) && CrewInv(vcs, ws, e) && d.progs == e.progs && Finished(d) && Finished(e)
    ensures d.heard == e.heard && Made(vcs, ws, d) == Made(vcs, ws, e)
  {
    hide Disjoint, UnderWay, Owns, At, Alone, CallsAlone;
    forall i: nat | i < |d.progs| ensures d.heard[i] == e.heard[i] {
      assert AsIfAlone(vcs, ws, d, i) && AsIfAlone(vcs, ws, e, i) && NextCall(d, i).None? && NextCall(e, i).None?;
      var m, n := |d.heard[i]|, |e.heard[i]|;
      AloneStays(vcs, ws, d.progs[i], if m <= n then m else n, if m <= n then n else m);
    }
    assert d.heard == e.heard;
  }

  lemma SameSlots(x: State, y: State)
    requires forall p :: At(x, p) == At(y, p)
    ensures x.cache == y.cache && x.changes == y.changes
  {
    forall p ensures p in x.cache <==> p in y.cache {
      assert At(x, p) == At(y, p);
    }
    forall p ensures p in x.changes <==> p in y.changes {
      assert At(x, p) == At(y, p);
    }
    forall p | p in x.cache ensures x.cache[p] == y.cache[p] {
      assert At(x, p) == At(y, p);
    }
    forall p | p in x.changes ensures x.changes[p] == y.changes[p] {
      assert At(x, p) == At(y, p);
    }
  }

  /** The agent that makes one call. */
  ghost function Once(call: Call): Program {
    heard => if heard == [] then Some(call) else None
  }

  /** Only the order in which the changes are listed can differ. */
  lemma OrderCanDiffer(p: string, q: string, text: string)
    requires p != q
    ensures var c := Crew([Once(Locked(Create(p, text), true)), Once(Locked(Create(q, text), true))],
          [[], []], START, None);
      && Fresh(map[], c) && Scheduled(map[], c, [0, 1]) && Scheduled(map[], c, [1, 0])
      && Finished(CrewRun(map[], c, [0, 1])) && Finished(CrewRun(map[], c, [1, 0]))
      && CrewRun(map[], c, [0, 1]).shared.ws.order == [p, q]
      && CrewRun(map[], c, [1, 0]).shared.ws.order == [q, p]
  {
    var a, b := Locked(Create(p, text), true), Locked(Create(q, text), true);
    var progs, done := [Once(a), Once(b)], [Answered(Done)];
    var c := Crew(progs, [[], []], START, None);
    OnceIsDisjoint(a, b, EMPTY);
    var s, t := Direct(EMPTY, a.w).0, Direct(EMPTY, b.w).0;
    var d, e := Crew(progs, [done, []], START.(ws := s), None), Crew(progs, [[], done], START.(ws := t), None);
    CreateStep(c, 0, a, d);
    CreateStep(c, 1, b, e);
    var d' := Crew(progs, [done, done], START.(ws := Direct(s, b.w).0), None);
    var e' := Crew(progs, [done, done], START.(ws := Direct(t, a.w).0), None);
    CreateStep(d, 1, b, d');
    CreateStep(e, 0, a, e');
    hide CrewStep, CanStep, Fresh, Scheduled, CrewRun, Direct;
    TwoSteps(c, 0, 1);
    TwoSteps(c, 1, 0);
  }

  lemma TwoSteps(c: Crew, i: nat, j: nat)
    requires CanStep(c, i) && CanStep(CrewStep(map[], c, i), j)
    ensures Scheduled(map[], c, [i, j]) && CrewRun(map[], c, [i, j]) == CrewStep(map[], CrewStep(map[], c, i), j)
  {
    hide CanStep, CrewStep;
    assert [i, j][1..] == [j] && [j][1..] == [];
    var d := CrewStep(map[], c, i);
    assert Scheduled(map[], d, [j]) && CrewRun(map[], d, [j]) == CrewStep(map[], d, j);
  }

  lemma OnceIsDisjoint(a: Call, b: Call, ws: State)
    requires CallTouches(a) !! CallTouches(b)
    ensures Disjoint(map[], ws, [Once(a), Once(b)])
  {
  }

  lemma CreateStep(c: Crew, i: nat, call: Call, d: Crew)
    requires i < |c.heard| == |c.progs| && c.progs[i] == Once(call) && c.heard[i] == []
    requires call.Locked? && call.w.Create? && c.shared.writer.None? && c.holder.None?
    requires d == Crew(c.progs, c.heard[i := [Answered(Done)]],
      c.shared.(ws := Direct(c.shared.ws, call.w).0), None)
    ensures CanStep(c, i) && CrewStep(map[], c, i) == d
  {
    assert [] + [Answered(Done)] == [Answered(Done)];
  }
}
