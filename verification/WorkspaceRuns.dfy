/** Several agents share one workspace, mono/swarm/workspace.py:61-291.

    Writers hold the lock, also while they wait for the VCS; reads do not take it. A read
    that misses the cache is two steps, the fetch and the store, and anything may happen in
    between. The lemmas say what every interleaving keeps, and exactly when the workspace
    behaves like a plain map of files. */
module WorkspaceRuns {
  import opened Wrappers
  import opened Text
  import opened Workspace

  // misses: the read misses between fetch and store; writer: the write waiting for its fetch
  datatype Shared = Shared(ws: State, misses: map<nat, string>, writer: Option<Write>)

  datatype Event =
    | ReadStart(id: nat, path: string)
    | ReadStore(id: nat, reachable: bool)
    | WriteDirect(w: Write)
    | WriteStart(w: Write)
    | WriteFinish(reachable: bool)
    | WriteAbort            // the writer is cancelled while it waits, and releases the lock

  const START := Shared(EMPTY, map[], None)

  ghost predicate Enabled(s: Shared, e: Event) {
    match e
    case ReadStart(id, p) => id !in s.misses && p !in s.ws.cache
    case ReadStore(id, _) => id in s.misses
    case WriteDirect(w) => s.writer.None? && !NeedsFetch(s.ws, w)
    case WriteStart(w) => s.writer.None? && NeedsFetch(s.ws, w)
    case WriteFinish(_) => s.writer.Some?
    case WriteAbort => s.writer.Some?
  }

  function Stored(vcs: map<string, string>, ws: State, p: string, reachable: bool): State {
    var text := Fetched(vcs, p, reachable);
    if text.Some? then ws.(cache := ws.cache[p := text.value]) else ws
  }

  ghost function Next(vcs: map<string, string>, s: Shared, e: Event): Shared
    requires Enabled(s, e)
  {
    match e
    case ReadStart(id, p) => s.(misses := s.misses[id := p])
    case ReadStore(id, reachable) => s.(ws := Stored(vcs, s.ws, s.misses[id], reachable), misses := s.misses - {id})
    case WriteDirect(w) => s.(ws := Direct(s.ws, w).0)
    case WriteStart(w) => s.(writer := Some(w))
    case WriteFinish(reachable) =>
      var w := s.writer.value;
      s.(ws := Finish(s.ws, w, Fetched(vcs, PathOf(w), reachable)).0, writer := None)
    case WriteAbort => s.(writer := None)
  }

  ghost predicate Legal(vcs: map<string, string>, s: Shared, es: seq<Event>)
    decreases |es|
  {
    es == [] || (Enabled(s, es[0]) && Legal(vcs, Next(vcs, s, es[0]), es[1..]))
  }

  ghost function Run(vcs: map<string, string>, s: Shared, es: seq<Event>): Shared
    requires Legal(vcs, s, es)
    decreases |es|
  {
    if es == [] then s else Run(vcs, Next(vcs, s, es[0]), es[1..])
  }

  // ---------- Every interleaving ----------

  ghost predicate SoundShared(vcs: map<string, string>, s: Shared) {
    Sound(vcs, s.ws) && (s.writer.Some? ==> FetchAllowed(s.ws, s.writer.value))
  }

  lemma StepSound(vcs: map<string, string>, s: Shared, e: Event)
    requires SoundShared(vcs, s) && Enabled(s, e)
    ensures SoundShared(vcs, Next(vcs, s, e))
  {
    match e
    case ReadStart(_, _) =>
    case ReadStore(id, reachable) =>
      if reachable && s.misses[id] in vcs {
        CachingSound(vcs, s.ws, s.misses[id]);
      }
    case WriteDirect(w) => DirectSound(vcs, s.ws, w);
    case WriteStart(w) =>
    case WriteFinish(reachable) => FinishSound(vcs, s.ws, s.writer.value, reachable);
    case WriteAbort =>
  }

  /** In every interleaving: an unchanged cached file has its VCS text, a modified file's
      recorded original is the VCS text, a changed file's cached text is the proposed text
      or the VCS text, and the change list names each changed path once. */
  lemma {:induction false} AlwaysSound(vcs: map<string, string>, s: Shared, es: seq<Event>)
    requires SoundShared(vcs, s) && Legal(vcs, s, es)
    ensures SoundShared(vcs, Run(vcs, s, es))
    decreases |es|
  {
    if es != [] {
      StepSound(vcs, s, es[0]);
      AlwaysSound(vcs, Next(vcs, s, es[0]), es[1..]);
    }
  }

  // ---------- When the workspace is a plain map of files ----------

  function Touches(w: Write): set<string> {
    match w
    case CreateModule(files) => set f | f in files :: f.0
    case _ => {PathOf(w)}
  }

  /** The texts an agent that reads now would see, were every file already fetched. */
  ghost function View(vcs: map<string, string>, ws: State): map<string, string> {
    vcs + ws.cache
  }

  /** Every changed path is cached with its proposed text. */
  ghost predicate Agrees(ws: State) {
    forall p | p in ws.changes :: p in ws.cache && ws.cache[p] == ws.changes[p].proposed
  }

  predicate NeedsFetchKind(w: Write) {
    w.Edit? || w.EditOrCreate? || w.Delete?
  }

  ghost predicate Valid(vcs: map<string, string>, s: Shared) {
    SoundShared(vcs, s) && (s.writer.Some? ==> NeedsFetchKind(s.writer.value))
  }

  /** The only step that can do harm is a store that returns the VCS text of a path for which
      another text is pending. */
  predicate Harmless(vcs: map<string, string>, s: Shared, e: Event) {
    match e
    case ReadStore(id, reachable) =>
      id in s.misses && reachable && s.misses[id] in vcs && s.misses[id] in s.ws.changes ==>
        s.ws.changes[s.misses[id]].proposed == vcs[s.misses[id]]
    case _ => true
  }

  ghost predicate AllHarmless(vcs: map<string, string>, s: Shared, es: seq<Event>)
    requires Legal(vcs, s, es)
    decreases |es|
  {
    es == [] || (Harmless(vcs, s, es[0]) && AllHarmless(vcs, Next(vcs, s, es[0]), es[1..]))
  }

  /** Cache and changes agree after every prefix of the run. */
  ghost predicate AlwaysAgrees(vcs: map<string, string>, s: Shared, es: seq<Event>)
    requires Legal(vcs, s, es)
    decreases |es|
  {
    Agrees(s.ws) && (es == [] || AlwaysAgrees(vcs, Next(vcs, s, es[0]), es[1..]))
  }

  /** The same write on a plain map of files; `down` says that its VCS read failed. */
  ghost function Plain(m: map<string, string>, w: Write, down: bool): (map<string, string>, Outcome) {
    match w
    case Edit(p, t, with) =>
      if down || p !in m then (m, Unreachable) else PlainReplace(m, p, t, with)
    case EditOrCreate(p, t, with) =>
      if down || p !in m then (m[p := with], Done) else PlainReplace(m, p, t, with)
    case Create(p, text) => (m[p := text], Done)
    case CreateModule(files) => (PlainCreateAll(m, files), Done)
    case Delete(p) => (m[p := ""], Done)
  }

  ghost function PlainReplace(m: map<string, string>, p: string, t: string, with: string)
    : (map<string, string>, Outcome)
    requires p in m
  {
    var i := FirstIndex(m[p], t);
    if i.None? then (m, NotFound) else (m[p := Replace(m[p], t, with, i.value)], Done)
  }

  ghost function PlainCreateAll(m: map<string, string>, files: seq<(string, string)>): map<string, string> {
    if files == [] then m
    else PlainCreateAll(m, files[..|files| - 1])[files[|files| - 1].0 := files[|files| - 1].1]
  }

  /** The writes of a run in the order in which they took effect. */
  ghost function Log(vcs: map<string, string>, s: Shared, es: seq<Event>): seq<(Write, bool)>
    requires Legal(vcs, s, es)
    decreases |es|
  {
    if es == [] then [] else
    var rest := Log(vcs, Next(vcs, s, es[0]), es[1..]);
    match es[0]
    case WriteDirect(w) => [(w, false)] + rest
    case WriteFinish(reachable) => [(s.writer.value, !reachable)] + rest
    case _ => rest
  }

  ghost function PlainAll(m: map<string, string>, log: seq<(Write, bool)>): map<string, string>
    decreases |log|
  {
    if log == [] then m else PlainAll(Plain(m, log[0].0, log[0].1).0, log[1..])
  }

  /** What a step does to a plain map: a write acts when it takes effect, nothing else does. */
  ghost function PlainStep(m: map<string, string>, s: Shared, e: Event): map<string, string>
    requires Enabled(s, e)
  {
    match e
    case WriteDirect(w) => Plain(m, w, false).0
    case WriteFinish(reachable) => Plain(m, s.writer.value, !reachable).0
    case _ => m
  }

  /** What the writer is told when a write takes effect, by the workspace and by a plain map. */
  ghost function Told(vcs: map<string, string>, s: Shared, e: Event): Option<Outcome>
    requires Enabled(s, e)
  {
    match e
    case WriteDirect(w) => Some(Direct(s.ws, w).1)
    case WriteFinish(reachable) =>
      Some(Finish(s.ws, s.writer.value, Fetched(vcs, PathOf(s.writer.value), reachable)).1)
    case _ => None
  }

  ghost function PlainTold(m: map<string, string>, s: Shared, e: Event): Option<Outcome>
    requires Enabled(s, e)
  {
    match e
    case WriteDirect(w) => Some(Plain(m, w, false).1)
    case WriteFinish(reachable) => Some(Plain(m, s.writer.value, !reachable).1)
    case _ => None
  }

  /** After every prefix of the run the view is the plain map with the writes so far, and every
      writer is told what the plain map would tell. */
  ghost predicate AlwaysRefines(vcs: map<string, string>, s: Shared, es: seq<Event>, m: map<string, string>)
    requires Legal(vcs, s, es)
    decreases |es|
  {
    && View(vcs, s.ws) == m
    && (es == [] ||
        (&& Told(vcs, s, es[0]) == PlainTold(m, s, es[0])
         && AlwaysRefines(vcs, Next(vcs, s, es[0]), es[1..], PlainStep(m, s, es[0]))))
  }

  lemma PutRefines(vcs: map<string, string>, ws: State, p: string, text: string, change: FileChange)
    requires Agrees(ws) && change.proposed == text
    ensures Agrees(Put(ws, p, text, change))
    ensures View(vcs, Put(ws, p, text, change)) == View(vcs, ws)[p := text]
    ensures Put(ws, p, text, change).changes.Keys == ws.changes.Keys + {p}
  {
  }

  lemma ReplaceRefines(vcs: map<string, string>, ws: State, p: string, t: string, with: string)
    requires Agrees(ws) && p in ws.cache
    ensures var (ws', out) := ReplaceIn(ws, p, ws.cache[p], t, with);
      && Agrees(ws')
      && (View(vcs, ws'), out) == PlainReplace(View(vcs, ws), p, t, with)
      && ws'.changes.Keys <= ws.changes.Keys + {p}
  {
    var i := FirstIndex(ws.cache[p], t);
    if i.Some? {
      var text := Replace(ws.cache[p], t, with, i.value);
      PutRefines(vcs, ws, p, text, Revised(ws, p, ws.cache[p], text));
    }
  }

  lemma {:induction false} CreateAllRefines(vcs: map<string, string>, ws: State, files: seq<(string, string)>)
    requires Agrees(ws)
    ensures var ws' := CreateAll(ws, files);
      && Agrees(ws')
      && View(vcs, ws') == PlainCreateAll(View(vcs, ws), files)
      && ws'.changes.Keys <= ws.changes.Keys + (set f | f in files :: f.0)
  {
    if files != [] {
      var n := |files| - 1;
      CreateAllRefines(vcs, ws, files[..n]);
      PutRefines(vcs, CreateAll(ws, files[..n]), files[n].0, files[n].1, FileChange(Added, "", files[n].1));
      assert files[n] in files;
      assert (set f | f in files[..n] :: f.0) <= (set f | f in files :: f.0) by {
        assert forall f | f in files[..n] :: f in files;
      }
    }
  }

  lemma DirectRefines(vcs: map<string, string>, ws: State, w: Write)
    requires Agrees(ws) && !NeedsFetch(ws, w)
    ensures var (ws', out) := Direct(ws, w);
      && Agrees(ws')
      && (View(vcs, ws'), out) == Plain(View(vcs, ws), w, false)
      && ws'.changes.Keys <= ws.changes.Keys + Touches(w)
  {
    match w
    case Edit(p, t, with) => ReplaceRefines(vcs, ws, p, t, with);
    case EditOrCreate(p, t, with) => ReplaceRefines(vcs, ws, p, t, with);
    case Create(p, text) => PutRefines(vcs, ws, p, text, FileChange(Added, "", text));
    case CreateModule(files) => CreateAllRefines(vcs, ws, files);
    case Delete(p) => PutRefines(vcs, ws, p, "", FileChange(Deleted, ws.cache[p], ""));
  }

  /** Storing the VCS text of a path without changes is invisible. */
  lemma UnchangedStore(vcs: map<string, string>, ws: State, p: string, reachable: bool)
    requires Sound(vcs, ws) && Agrees(ws) && p !in ws.changes
    ensures var ws' := Stored(vcs, ws, p, reachable);
      Agrees(ws') && View(vcs, ws') == View(vcs, ws) && ws'.changes == ws.changes
  {
  }

  lemma FinishRefines(vcs: map<string, string>, ws: State, w: Write, reachable: bool)
    requires Sound(vcs, ws) && Agrees(ws) && FetchAllowed(ws, w) && NeedsFetchKind(w)
    ensures var (ws', out) := Finish(ws, w, Fetched(vcs, PathOf(w), reachable));
      && Agrees(ws')
      && (View(vcs, ws'), out) == Plain(View(vcs, ws), w, !reachable)
      && ws'.changes.Keys <= ws.changes.Keys + Touches(w)
  {
    var f := Fetched(vcs, PathOf(w), reachable);
    match w
    case Edit(p, t, with) =>
      UnchangedStore(vcs, ws, p, reachable);
      if f.Some? {
        ReplaceRefines(vcs, Stored(vcs, ws, p, reachable), p, t, with);
      }
    case EditOrCreate(p, t, with) =>
      UnchangedStore(vcs, ws, p, reachable);
      if f.Some? {
        ReplaceRefines(vcs, Stored(vcs, ws, p, reachable), p, t, with);
      } else {
        PutRefines(vcs, ws, p, with, FileChange(Added, "", with));
      }
    case Delete(p) => PutRefines(vcs, ws, p, "", FileChange(Deleted, if f.Some? then f.value else "", ""));
  }

  /** The law of one store, with any number of other reads in flight. */
  lemma StoreIff(vcs: map<string, string>, s: Shared, id: nat, reachable: bool)
    requires Sound(vcs, s.ws) && Agrees(s.ws) && id in s.misses
    ensures var e := ReadStore(id, reachable);
      var ws' := Next(vcs, s, e).ws;
      && (Agrees(ws') <==> Harmless(vcs, s, e))
      && (View(vcs, ws') == View(vcs, s.ws) <==> Harmless(vcs, s, e))
      && ws'.changes == s.ws.changes
  {
    var p := s.misses[id];
    var ws' := Next(vcs, s, ReadStore(id, reachable)).ws;
    if reachable && p in vcs {
      assert ws'.cache[p] == vcs[p] && View(vcs, ws')[p] == vcs[p];
      if p !in s.ws.changes {
        UnchangedStore(vcs, s.ws, p, reachable);
      } else if s.ws.changes[p].proposed == vcs[p] {
        assert ws'.cache == s.ws.cache;
      } else {
        assert View(vcs, s.ws)[p] == s.ws.changes[p].proposed;
      }
    }
  }

  lemma WriteRefines(vcs: map<string, string>, s: Shared, e: Event)
    requires Valid(vcs, s) && Agrees(s.ws) && Enabled(s, e) && !e.ReadStore?
    ensures Agrees(Next(vcs, s, e).ws)
    ensures View(vcs, Next(vcs, s, e).ws) == PlainStep(View(vcs, s.ws), s, e)
    ensures Told(vcs, s, e) == PlainTold(View(vcs, s.ws), s, e)
    ensures Next(vcs, s, e).ws.changes.Keys <=
      s.ws.changes.Keys + match e {
        case WriteDirect(w) => Touches(w)
        case WriteFinish(_) => Touches(s.writer.value)
        case _ => {}
      }
  {
    hide Sound, Plain, Direct, Finish, Agrees;
    match e
    case ReadStart(_, p) =>
    case WriteDirect(w) => DirectRefines(vcs, s.ws, w);
    case WriteStart(w) =>
    case WriteFinish(reachable) => FinishRefines(vcs, s.ws, s.writer.value, reachable);
    case WriteAbort =>
  }

  lemma StepValid(vcs: map<string, string>, s: Shared, e: Event)
    requires Valid(vcs, s) && Enabled(s, e)
    ensures Valid(vcs, Next(vcs, s, e))
  {
    hide Sound, Direct, Finish;
    StepSound(vcs, s, e);
  }

  /** The exact law of one step: it leaves cache and changes in agreement, and does to the
      view what it does to a plain map, if and only if it is harmless. */
  lemma StaleStoreIff(vcs: map<string, string>, s: Shared, e: Event)
    requires Valid(vcs, s) && Agrees(s.ws) && Enabled(s, e)
    ensures Agrees(Next(vcs, s, e).ws) <==> Harmless(vcs, s, e)
    ensures View(vcs, Next(vcs, s, e).ws) == PlainStep(View(vcs, s.ws), s, e) <==> Harmless(vcs, s, e)
    ensures Told(vcs, s, e) == PlainTold(View(vcs, s.ws), s, e)
  {
    hide Sound, Agrees, View, Plain;
    match e
    case ReadStore(id, reachable) => StoreIff(vcs, s, id, reachable);
    case _ => WriteRefines(vcs, s, e);
  }

  /** Over whole runs: cache and changes agree at every moment exactly in harmless runs. */
  lemma {:induction false} AgreementIff(vcs: map<string, string>, s: Shared, es: seq<Event>)
    requires Valid(vcs, s) && Agrees(s.ws) && Legal(vcs, s, es)
    ensures AlwaysAgrees(vcs, s, es) <==> AllHarmless(vcs, s, es)
    decreases |es|
  {
    if es != [] {
      hide Valid, Agrees, Harmless, Enabled;
      StepValid(vcs, s, es[0]);
      StaleStoreIff(vcs, s, es[0]);
      if Harmless(vcs, s, es[0]) {
        AgreementIff(vcs, Next(vcs, s, es[0]), es[1..]);
      }
    }
  }

  /** And they are exactly the runs that refine a plain map: at every moment agents see the
      result of applying the writes, in the order in which they took effect, and are told
      their outcomes. */
  lemma {:induction false} RefinementIff(vcs: map<string, string>, s: Shared, es: seq<Event>)
    requires Valid(vcs, s) && Agrees(s.ws) && Legal(vcs, s, es)
    ensures AlwaysRefines(vcs, s, es, View(vcs, s.ws)) <==> AllHarmless(vcs, s, es)
    decreases |es|
  {
    if es != [] {
      hide Valid, Agrees, Harmless, Enabled, View, PlainStep, Told, PlainTold;
      StepValid(vcs, s, es[0]);
      StaleStoreIff(vcs, s, es[0]);
      if Harmless(vcs, s, es[0]) {
        RefinementIff(vcs, Next(vcs, s, es[0]), es[1..]);
      }
    }
  }

  lemma {:induction false} HarmlessRefines(vcs: map<string, string>, s: Shared, es: seq<Event>)
    requires Valid(vcs, s) && Agrees(s.ws) && Legal(vcs, s, es) && AllHarmless(vcs, s, es)
    ensures Valid(vcs, Run(vcs, s, es)) && Agrees(Run(vcs, s, es).ws)
    ensures View(vcs, Run(vcs, s, es).ws) == PlainAll(View(vcs, s.ws), Log(vcs, s, es))
    decreases |es|
  {
    if es != [] {
      hide Valid, Agrees, Harmless, View, Enabled, Plain;
      StepValid(vcs, s, es[0]);
      StaleStoreIff(vcs, s, es[0]);
      HarmlessRefines(vcs, Next(vcs, s, es[0]), es[1..]);
      var rest := Log(vcs, Next(vcs, s, es[0]), es[1..]);
      assert Log(vcs, s, es) == rest || Log(vcs, s, es)[1..] == rest;
    }
  }

  // ---------- When every edit reaches the change set ----------

  /** The files as the change set describes them: what will be handed to Go. */
  ghost function Pending(vcs: map<string, string>, ws: State): map<string, string> {
    vcs + map p | p in ws.changes :: ws.changes[p].proposed
  }

  /** The text of a path once t is replaced in `current`, when `otherwise` is kept on a miss. */
  function Edited(current: string, t: string, with: string, otherwise: string): string {
    match FirstIndex(current, t)
    case None => otherwise
    case Some(i) => Replace(current, t, with, i)
  }

  /** An edit of a changed path whose cached text is not the proposed one, and gives another
      result than the proposed one. */
  predicate EditLoses(ws: State, p: string, t: string, with: string) {
    && p in ws.changes && p in ws.cache && ws.cache[p] != ws.changes[p].proposed
    && Edited(ws.cache[p], t, with, ws.changes[p].proposed)
      != Edited(ws.changes[p].proposed, t, with, ws.changes[p].proposed)
  }

  predicate Loses(s: Shared, e: Event) {
    match e
    case WriteDirect(Edit(p, t, with)) => EditLoses(s.ws, p, t, with)
    case WriteDirect(EditOrCreate(p, t, with)) => EditLoses(s.ws, p, t, with)
    case _ => false
  }

  ghost predicate NeverLoses(vcs: map<string, string>, s: Shared, es: seq<Event>)
    requires Legal(vcs, s, es)
    decreases |es|
  {
    es == [] || (!Loses(s, es[0]) && NeverLoses(vcs, Next(vcs, s, es[0]), es[1..]))
  }

  /** After every prefix of the run the change set is the plain map with the writes so far. */
  ghost predicate AlwaysPending(vcs: map<string, string>, s: Shared, es: seq<Event>, m: map<string, string>)
    requires Legal(vcs, s, es)
    decreases |es|
  {
    && Pending(vcs, s.ws) == m
    && (es == [] || AlwaysPending(vcs, Next(vcs, s, es[0]), es[1..], PlainStep(m, s, es[0])))
  }

  lemma PutPending(vcs: map<string, string>, ws: State, p: string, text: string, change: FileChange)
    requires change.proposed == text
    ensures Pending(vcs, Put(ws, p, text, change)) == Pending(vcs, ws)[p := text]
  {
  }

  lemma PendingAt(vcs: map<string, string>, ws: State, p: string)
    requires Sound(vcs, ws) && p in ws.cache
    ensures p in Pending(vcs, ws)
    ensures Pending(vcs, ws)[p] == if p in ws.changes then ws.changes[p].proposed else ws.cache[p]
  {
  }

  lemma ReplacePending(vcs: map<string, string>, ws: State, p: string, t: string, with: string)
    requires p in ws.cache && p in Pending(vcs, ws)
    ensures var m := Pending(vcs, ws);
      Pending(vcs, ReplaceIn(ws, p, ws.cache[p], t, with).0) == m[p := Edited(ws.cache[p], t, with, m[p])]
  {
    hide Pending;
    var m := Pending(vcs, ws);
    match FirstIndex(ws.cache[p], t)
    case None => assert m[p := m[p]] == m;
    case Some(i) =>
      var text := Replace(ws.cache[p], t, with, i);
      PutPending(vcs, ws, p, text, Revised(ws, p, ws.cache[p], text));
  }

  lemma PlainEdited(m: map<string, string>, p: string, t: string, with: string)
    requires p in m
    ensures PlainReplace(m, p, t, with).0 == m[p := Edited(m[p], t, with, m[p])]
  {
    assert m[p := m[p]] == m;
  }

  lemma EditPendingIff(vcs: map<string, string>, ws: State, p: string, t: string, with: string)
    requires Sound(vcs, ws) && p in ws.cache
    ensures p in Pending(vcs, ws)
    ensures Pending(vcs, ReplaceIn(ws, p, ws.cache[p], t, with).0) == PlainReplace(Pending(vcs, ws), p, t, with).0
      <==> !EditLoses(ws, p, t, with)
  {
    hide Sound, Pending, ReplaceIn, PlainReplace, Edited;
    var m := Pending(vcs, ws);
    PendingAt(vcs, ws, p);
    ReplacePending(vcs, ws, p, t, with);
    PlainEdited(m, p, t, with);
    var a, b := Edited(ws.cache[p], t, with, m[p]), Edited(m[p], t, with, m[p]);
    assert m[p := a] == m[p := b] <==> a == b by {
      assert m[p := a][p] == a && m[p := b][p] == b;
    }
  }

  lemma {:induction false} CreateAllPending(vcs: map<string, string>, ws: State, files: seq<(string, string)>)
    ensures Pending(vcs, CreateAll(ws, files)) == PlainCreateAll(Pending(vcs, ws), files)
  {
    if files != [] {
      var n := |files| - 1;
      CreateAllPending(vcs, ws, files[..n]);
      PutPending(vcs, CreateAll(ws, files[..n]), files[n].0, files[n].1, FileChange(Added, "", files[n].1));
    }
  }

  lemma FinishPending(vcs: map<string, string>, ws: State, w: Write, reachable: bool)
    requires Sound(vcs, ws) && FetchAllowed(ws, w) && NeedsFetchKind(w)
    ensures Pending(vcs, Finish(ws, w, Fetched(vcs, PathOf(w), reachable)).0)
      == Plain(Pending(vcs, ws), w, !reachable).0
  {
    var f := Fetched(vcs, PathOf(w), reachable);
    var p := PathOf(w);
    if w.Delete? {
      PutPending(vcs, ws, p, "", FileChange(Deleted, if f.Some? then f.value else "", ""));
    } else if f.Some? {
      var fetched := Stored(vcs, ws, p, reachable);
      CachingSound(vcs, ws, p);
      EditPendingIff(vcs, fetched, p, w.oldText, w.newText);
      assert Pending(vcs, fetched) == Pending(vcs, ws);
    } else if w.EditOrCreate? {
      PutPending(vcs, ws, p, w.newText, FileChange(Added, "", w.newText));
    }
  }

  /** The exact law of one step for the change set, whatever the cache holds: it does to it
      what it does to a plain map if and only if it is not an edit that loses. */
  lemma LostEditIff(vcs: map<string, string>, s: Shared, e: Event)
    requires Valid(vcs, s) && Enabled(s, e)
    ensures Pending(vcs, Next(vcs, s, e).ws) == PlainStep(Pending(vcs, s.ws), s, e) <==> !Loses(s, e)
  {
    hide Pending, ReplaceIn, EditLoses, PlainReplace;
    match e
    case ReadStart(_, _) =>
    case ReadStore(id, reachable) => StorePending(vcs, s.ws, s.misses[id], reachable);
    case WriteStart(_) =>
    case WriteAbort =>
    case WriteFinish(reachable) => FinishPending(vcs, s.ws, s.writer.value, reachable);
    case WriteDirect(w) =>
      match w
      case Edit(p, t, with) => EditPendingIff(vcs, s.ws, p, t, with);
      case EditOrCreate(p, t, with) => EditPendingIff(vcs, s.ws, p, t, with);
      case Create(p, text) => PutPending(vcs, s.ws, p, text, FileChange(Added, "", text));
      case CreateModule(files) => CreateAllPending(vcs, s.ws, files);
      case Delete(p) => PutPending(vcs, s.ws, p, "", FileChange(Deleted, s.ws.cache[p], ""));
  }

  lemma StorePending(vcs: map<string, string>, ws: State, p: string, reachable: bool)
    ensures Pending(vcs, Stored(vcs, ws, p, reachable)) == Pending(vcs, ws)
  {
  }

  /** Over whole runs: no edit is lost at any moment exactly in the runs without such an edit.
      Nothing is asked of the stores. */
  lemma {:induction false} NoEditLostIff(vcs: map<string, string>, s: Shared, es: seq<Event>)
    requires Valid(vcs, s) && Legal(vcs, s, es)
    ensures AlwaysPending(vcs, s, es, Pending(vcs, s.ws)) <==> NeverLoses(vcs, s, es)
    decreases |es|
  {
    if es != [] {
      hide Valid, Loses, Enabled, Pending, PlainStep;
      StepValid(vcs, s, es[0]);
      LostEditIff(vcs, s, es[0]);
      if !Loses(s, es[0]) {
        NoEditLostIff(vcs, Next(vcs, s, es[0]), es[1..]);
      }
    }
  }

  /** The changes are exactly the difference between the VCS and m: the proposed text of a
      changed path is m's, every other path has the VCS's text in m. */
  ghost predicate IsDifference(vcs: map<string, string>, ws: State, m: map<string, string>) {
    && (forall p | p in ws.changes :: p in m && m[p] == ws.changes[p].proposed)
    && (forall p | p !in ws.changes :: (p in m <==> p in vcs) && (p in m ==> m[p] == vcs[p]))
  }

  lemma DifferenceIsPending(vcs: map<string, string>, ws: State, m: map<string, string>)
    ensures IsDifference(vcs, ws, m) <==> Pending(vcs, ws) == m
  {
    var pending := Pending(vcs, ws);
    if IsDifference(vcs, ws, m) {
      forall p ensures p in pending <==> p in m {
        assert p in ws.changes || p !in ws.changes;
      }
      assert forall p | p in m :: pending[p] == m[p];
    }
  }

  ghost predicate AlwaysDifference(vcs: map<string, string>, s: Shared, es: seq<Event>, m: map<string, string>)
    requires Legal(vcs, s, es)
    decreases |es|
  {
    && IsDifference(vcs, s.ws, m)
    && (es == [] || AlwaysDifference(vcs, Next(vcs, s, es[0]), es[1..], PlainStep(m, s, es[0])))
  }

  lemma {:induction false} DifferenceThroughout(vcs: map<string, string>, s: Shared, es: seq<Event>,
      m: map<string, string>)
    requires Legal(vcs, s, es)
    ensures AlwaysDifference(vcs, s, es, m) <==> AlwaysPending(vcs, s, es, m)
    decreases |es|
  {
    hide IsDifference, Pending, PlainStep, Enabled;
    DifferenceIsPending(vcs, s.ws, m);
    if es != [] {
      DifferenceThroughout(vcs, Next(vcs, s, es[0]), es[1..], PlainStep(m, s, es[0]));
    }
  }

  /** What Go is given is right: from the start on, the change set is at every moment the
      difference between the VCS and the plain map with all writes so far, if and only if no
      edit loses. */
  lemma ChangesetIsDifference(vcs: map<string, string>, es: seq<Event>)
    requires Legal(vcs, START, es)
    ensures AlwaysDifference(vcs, START, es, vcs) <==> NeverLoses(vcs, START, es)
  {
    hide IsDifference, AlwaysDifference, AlwaysPending, NeverLoses;
    assert Pending(vcs, EMPTY) == vcs;
    NoEditLostIff(vcs, START, es);
    DifferenceThroughout(vcs, START, es, vcs);
  }

  /** Harmless stores are enough for that. */
  lemma {:induction false} HarmlessKeepsEdits(vcs: map<string, string>, s: Shared, es: seq<Event>)
    requires Valid(vcs, s) && Agrees(s.ws) && Legal(vcs, s, es) && AllHarmless(vcs, s, es)
    ensures NeverLoses(vcs, s, es)
    decreases |es|
  {
    if es != [] {
      AgreeingEditKeeps(s, es[0]);
      hide Valid, Agrees, Harmless, Enabled, Loses;
      StepValid(vcs, s, es[0]);
      StaleStoreIff(vcs, s, es[0]);
      HarmlessKeepsEdits(vcs, Next(vcs, s, es[0]), es[1..]);
    }
  }

  lemma AgreeingEditKeeps(s: Shared, e: Event)
    requires Agrees(s.ws)
    ensures !Loses(s, e)
  {
  }

  /** A workspace in which no edit can lose is one whose cache and changes agree: where they
      differ, an edit that searches for the empty string does. */
  lemma NoEditCanLoseIff(ws: State)
    ensures (forall p, t, with :: !EditLoses(ws, p, t, with)) <==>
      forall p | p in ws.changes && p in ws.cache :: ws.cache[p] == ws.changes[p].proposed
  {
    forall p | p in ws.changes && p in ws.cache && ws.cache[p] != ws.changes[p].proposed
      ensures EditLoses(ws, p, "", "")
    {
      var current, proposed := ws.cache[p], ws.changes[p].proposed;
      EmptySearch(current);
      EmptySearch(proposed);
      assert Replace(current, "", "", 0) == current && Replace(proposed, "", "", 0) == proposed;
    }
  }

  /** A read miss hands out the pending text of the file exactly when its store is harmless. */
  lemma ReadIsCurrentIff(vcs: map<string, string>, s: Shared, id: nat, reachable: bool)
    requires id in s.misses && Fetched(vcs, s.misses[id], reachable).Some?
    ensures Pending(vcs, s.ws)[s.misses[id]] == Fetched(vcs, s.misses[id], reachable).value
      <==> Harmless(vcs, s, ReadStore(id, reachable))
  {
    var p := s.misses[id];
    assert p in s.ws.changes ==> Pending(vcs, s.ws)[p] == s.ws.changes[p].proposed;
    assert p !in s.ws.changes ==> Pending(vcs, s.ws)[p] == vcs[p];
  }

  // ---------- Runs in which no read is overtaken ----------

  /** A write takes effect while no read miss on one of its paths is under way. */
  ghost predicate QuietStep(s: Shared, e: Event)
    requires Enabled(s, e)
  {
    match e
    case WriteDirect(w) => forall id | id in s.misses :: s.misses[id] !in Touches(w)
    case WriteFinish(_) => forall id | id in s.misses :: s.misses[id] !in Touches(s.writer.value)
    case _ => true
  }

  ghost predicate Quiet(vcs: map<string, string>, s: Shared, es: seq<Event>)
    requires Legal(vcs, s, es)
    decreases |es|
  {
    es == [] || (QuietStep(s, es[0]) && Quiet(vcs, Next(vcs, s, es[0]), es[1..]))
  }

  ghost predicate NotOvertaken(s: Shared) {
    forall id | id in s.misses :: s.misses[id] !in s.ws.changes
  }

  lemma QuietStepKeeps(vcs: map<string, string>, s: Shared, e: Event)
    requires Valid(vcs, s) && Agrees(s.ws) && NotOvertaken(s) && Enabled(s, e) && QuietStep(s, e)
    ensures Harmless(vcs, s, e) && NotOvertaken(Next(vcs, s, e))
  {
    hide Direct, Finish, Plain, View;
    if !e.ReadStore? {
      WriteRefines(vcs, s, e);
    } else {
      StoreIff(vcs, s, e.id, e.reachable);
    }
  }

  /** Where no read is overtaken, every store is harmless. */
  lemma {:induction false} QuietIsHarmless(vcs: map<string, string>, s: Shared, es: seq<Event>)
    requires Valid(vcs, s) && Agrees(s.ws) && NotOvertaken(s) && Legal(vcs, s, es) && Quiet(vcs, s, es)
    ensures AllHarmless(vcs, s, es)
    decreases |es|
  {
    if es != [] {
      hide Valid, Agrees, NotOvertaken, Harmless, Enabled, QuietStep;
      QuietStepKeeps(vcs, s, es[0]);
      StepValid(vcs, s, es[0]);
      StaleStoreIff(vcs, s, es[0]);
      QuietIsHarmless(vcs, Next(vcs, s, es[0]), es[1..]);
    }
  }

  /** So a quiet run from the start refines the plain map, too. */
  lemma QuietRefines(vcs: map<string, string>, es: seq<Event>)
    requires Legal(vcs, START, es) && Quiet(vcs, START, es)
    ensures AlwaysAgrees(vcs, START, es)
    ensures AlwaysRefines(vcs, START, es, vcs)
    ensures View(vcs, Run(vcs, START, es).ws) == PlainAll(vcs, Log(vcs, START, es))
  {
    assert View(vcs, EMPTY) == vcs;
    QuietIsHarmless(vcs, START, es);
    AgreementIff(vcs, START, es);
    RefinementIff(vcs, START, es);
    HarmlessRefines(vcs, START, es);
  }

  // ---------- Deleted files ----------

  /** What the comment at the field promises: a deletion proposes the empty text. */
  ghost predicate DeletedIsEmpty(ws: State) {
    forall p | p in ws.changes && ws.changes[p].kind.Deleted? :: ws.changes[p].proposed == ""
  }

  /** An edit that finds its text in what is cached for a deleted path, and leaves some text. */
  predicate EditFills(ws: State, p: string, t: string, with: string) {
    && p in ws.changes && ws.changes[p].kind.Deleted? && p in ws.cache
    && FirstIndex(ws.cache[p], t).Some? && (with != "" || t != ws.cache[p])
  }

  predicate Fills(s: Shared, e: Event) {
    match e
    case WriteDirect(Edit(p, t, with)) => EditFills(s.ws, p, t, with)
    case WriteDirect(EditOrCreate(p, t, with)) => EditFills(s.ws, p, t, with)
    case _ => false
  }

  /** The promise fails: an edit with an empty search fills a deleted file, and the change is
      still a deletion. */
  lemma DeletedThenFilled(vcs: map<string, string>, ws: State, p: string, text: string, reachable: bool)
    requires text != ""
    ensures var deleted := Apply(vcs, ws, Delete(p), reachable).0;
      var (filled, out) := Apply(vcs, deleted, Edit(p, "", text), reachable);
      && out == Done
      && p in filled.changes && filled.changes[p].kind.Deleted? && filled.changes[p].proposed == text
  {
    EmptySearch("");
    assert Replace("", "", text, 0) == text;
  }

  lemma EmptySearch(s: string)
    ensures FirstIndex(s, "") == Some(0)
  {
    assert OccursAt(s, "", 0);
  }

  lemma ReplaceFillsIff(ws: State, p: string, t: string, with: string)
    requires DeletedIsEmpty(ws) && p in ws.cache
    ensures DeletedIsEmpty(ReplaceIn(ws, p, ws.cache[p], t, with).0) <==> !EditFills(ws, p, t, with)
  {
    var i := FirstIndex(ws.cache[p], t);
    var ws' := ReplaceIn(ws, p, ws.cache[p], t, with).0;
    if i.Some? {
      var text := Replace(ws.cache[p], t, with, i.value);
      ReplaceIsEmptyIff(ws.cache[p], t, with, i.value);
      assert ws'.changes == ws.changes[p := Revised(ws, p, ws.cache[p], text)];
      if EditFills(ws, p, t, with) {
        assert ws'.changes[p].kind.Deleted? && ws'.changes[p].proposed == text;
      }
    }
  }

  lemma ReplaceIsEmptyIff(s: string, t: string, with: string, i: nat)
    requires OccursAt(s, t, i)
    ensures Replace(s, t, with, i) == "" <==> with == "" && t == s
  {
    assert |Replace(s, t, with, i)| == |s| - |t| + |with|;
    if |t| == |s| {
      assert s[i..i + |t|] == s;
    }
  }

  lemma {:induction false} CreateAllEmpty(ws: State, files: seq<(string, string)>)
    requires DeletedIsEmpty(ws)
    ensures DeletedIsEmpty(CreateAll(ws, files))
  {
    if files != [] {
      CreateAllEmpty(ws, files[..|files| - 1]);
    }
  }

  lemma FinishKeepsEmpty(vcs: map<string, string>, ws: State, w: Write, reachable: bool)
    requires Sound(vcs, ws) && DeletedIsEmpty(ws) && FetchAllowed(ws, w) && NeedsFetchKind(w)
    ensures DeletedIsEmpty(Finish(ws, w, Fetched(vcs, PathOf(w), reachable)).0)
  {
    if !w.Delete? && Fetched(vcs, PathOf(w), reachable).Some? {
      ReplaceFillsIff(Stored(vcs, ws, PathOf(w), reachable), PathOf(w), w.oldText, w.newText);
    }
  }

  /** One step keeps the promise exactly when it is not such an edit, whatever the cache holds. */
  lemma DeletedIsEmptyIff(vcs: map<string, string>, s: Shared, e: Event)
    requires Valid(vcs, s) && DeletedIsEmpty(s.ws) && Enabled(s, e)
    ensures DeletedIsEmpty(Next(vcs, s, e).ws) <==> !Fills(s, e)
  {
    hide ReplaceIn, EditFills;
    match e
    case ReadStart(_, _) =>
    case ReadStore(_, _) =>
    case WriteStart(_) =>
    case WriteAbort =>
    case WriteFinish(reachable) => FinishKeepsEmpty(vcs, s.ws, s.writer.value, reachable);
    case WriteDirect(w) =>
      match w
      case Edit(p, t, with) => ReplaceFillsIff(s.ws, p, t, with);
      case EditOrCreate(p, t, with) => ReplaceFillsIff(s.ws, p, t, with);
      case Create(_, _) =>
      case CreateModule(files) => CreateAllEmpty(s.ws, files);
      case Delete(_) =>
  }

  /** While cache and changes agree only an empty search can do it. */
  lemma AgreeingFillsIff(ws: State, p: string, t: string, with: string)
    requires Agrees(ws) && DeletedIsEmpty(ws)
    ensures EditFills(ws, p, t, with) <==>
      t == "" && with != "" && p in ws.changes && ws.changes[p].kind.Deleted?
  {
    EmptySearch("");
    if p in ws.changes && ws.changes[p].kind.Deleted? {
      assert ws.cache[p] == "";
      assert FirstIndex("", t).Some? ==> t == "";
    }
  }

  ghost predicate AlwaysEmpty(vcs: map<string, string>, s: Shared, es: seq<Event>)
    requires Legal(vcs, s, es)
    decreases |es|
  {
    DeletedIsEmpty(s.ws) && (es == [] || AlwaysEmpty(vcs, Next(vcs, s, es[0]), es[1..]))
  }

  ghost predicate NeverFills(vcs: map<string, string>, s: Shared, es: seq<Event>)
    requires Legal(vcs, s, es)
    decreases |es|
  {
    es == [] || (!Fills(s, es[0]) && NeverFills(vcs, Next(vcs, s, es[0]), es[1..]))
  }

  /** Over every run: deletions propose the empty text at every moment exactly when no edit
      fills a deleted file. */
  lemma {:induction false} AlwaysEmptyIff(vcs: map<string, string>, s: Shared, es: seq<Event>)
    requires Valid(vcs, s) && DeletedIsEmpty(s.ws) && Legal(vcs, s, es)
    ensures AlwaysEmpty(vcs, s, es) <==> NeverFills(vcs, s, es)
    decreases |es|
  {
    if es != [] {
      hide Valid, DeletedIsEmpty, Enabled, Fills;
      StepValid(vcs, s, es[0]);
      DeletedIsEmptyIff(vcs, s, es[0]);
      if !Fills(s, es[0]) {
        AlwaysEmptyIff(vcs, Next(vcs, s, es[0]), es[1..]);
      }
    }
  }

  // ---------- The lost update ----------

  lemma Cons(vcs: map<string, string>, s: Shared, e: Event, es: seq<Event>)
    requires Enabled(s, e) && Legal(vcs, Next(vcs, s, e), es)
    ensures Legal(vcs, s, [e] + es)
    ensures Run(vcs, s, [e] + es) == Run(vcs, Next(vcs, s, e), es)
    ensures Log(vcs, s, [e] + es) ==
      (match e
       case WriteDirect(w) => [(w, false)]
       case WriteFinish(reachable) => [(s.writer.value, !reachable)]
       case _ => []) + Log(vcs, Next(vcs, s, e), es)
    ensures AllHarmless(vcs, s, [e] + es) <==> Harmless(vcs, s, e) && AllHarmless(vcs, Next(vcs, s, e), es)
    ensures NeverLoses(vcs, s, [e] + es) <==> !Loses(s, e) && NeverLoses(vcs, Next(vcs, s, e), es)
  {
    hide Harmless, Loses, Enabled;
    assert ([e] + es)[1..] == es;
    assert [] + Log(vcs, Next(vcs, s, e), es) == Log(vcs, Next(vcs, s, e), es);
  }

  /** By a harmful store an acknowledged edit can be lost: the second edit starts from the
      VCS's text again, which the plain map no longer contains. */
  lemma LostUpdate(p: string, a: string, b: string, c: string)
    requires a != "" && FirstIndex(b, a).None?
    ensures var vcs := map[p := a];
      var es := [ReadStart(0, p)] + ([WriteStart(Edit(p, a, b))] + ([WriteFinish(true)]
        + ([ReadStore(0, true)] + ([WriteDirect(Edit(p, a, c))] + []))));
      && Legal(vcs, START, es)
      && Run(vcs, START, es).ws.changes == map[p := FileChange(Modified, a, c)]
      && PlainAll(vcs, Log(vcs, START, es)) == map[p := b]
  {
    hide Legal, Run, Log, PlainAll, Finish, Direct;
    var vcs := map[p := a];
    var first, second := Edit(p, a, b), Edit(p, a, c);
    var s1 := Shared(EMPTY, map[0 := p], None);
    var s2 := s1.(writer := Some(first));
    var s3 := Shared(State(map[p := b], map[p := FileChange(Modified, a, b)], [p]), map[0 := p], None);
    var s4 := Shared(s3.ws.(cache := map[p := a]), map[], None);
    var s5 := Shared(State(map[p := c], map[p := FileChange(Modified, a, c)], [p]), map[], None);
    LostUpdateWrites(p, a, b, c);
    assert Next(vcs, START, ReadStart(0, p)) == s1;
    assert Next(vcs, s1, WriteStart(first)) == s2;
    assert Next(vcs, s2, WriteFinish(true)) == s3;
    assert Next(vcs, s3, ReadStore(0, true)) == s4;
    assert Next(vcs, s4, WriteDirect(second)) == s5;
    Nothing(vcs, s5);
    var e5: seq<Event> := [];
    Cons(vcs, s4, WriteDirect(second), e5);
    var e4 := [WriteDirect(second)] + e5;
    Cons(vcs, s3, ReadStore(0, true), e4);
    var e3 := [ReadStore(0, true)] + e4;
    Cons(vcs, s2, WriteFinish(true), e3);
    var e2 := [WriteFinish(true)] + e3;
    Cons(vcs, s1, WriteStart(first), e2);
    Cons(vcs, START, ReadStart(0, p), [WriteStart(first)] + e2);
    var log := [(first, false), (second, false)];
    assert Log(vcs, s4, e4) == [(second, false)];
    assert Log(vcs, s3, e3) == [(second, false)];
    assert Log(vcs, s2, e2) == log;
    assert Log(vcs, s1, [WriteStart(first)] + e2) == log;
    assert Log(vcs, START, [ReadStart(0, p)] + ([WriteStart(first)] + e2)) == log;
    LostUpdatePlain(p, a, b, c);
  }

  /** A harmful store alone loses nothing: the finished edit is still in the change set. */
  lemma HarmfulWithoutLoss(p: string, a: string, b: string)
    requires a != "" && a != b
    ensures var vcs := map[p := a];
      var es := [ReadStart(0, p)] + ([WriteStart(Edit(p, a, b))] + ([WriteFinish(true)] + ([ReadStore(0, true)] + [])));
      && Legal(vcs, START, es) && !AllHarmless(vcs, START, es) && NeverLoses(vcs, START, es)
      && Run(vcs, START, es).ws.changes == map[p := FileChange(Modified, a, b)]
  {
    hide Legal, Run, Log, AllHarmless, NeverLoses, Finish, Direct;
    var vcs := map[p := a];
    var first := Edit(p, a, b);
    var s1 := Shared(EMPTY, map[0 := p], None);
    var s2 := s1.(writer := Some(first));
    var s3 := Shared(State(map[p := b], map[p := FileChange(Modified, a, b)], [p]), map[0 := p], None);
    var s4 := Shared(s3.ws.(cache := map[p := a]), map[], None);
    LostUpdateWrites(p, a, b, b);
    assert Next(vcs, START, ReadStart(0, p)) == s1;
    assert Next(vcs, s1, WriteStart(first)) == s2;
    assert Next(vcs, s2, WriteFinish(true)) == s3;
    assert Next(vcs, s3, ReadStore(0, true)) == s4;
    assert !Harmless(vcs, s3, ReadStore(0, true));
    Nothing(vcs, s4);
    var e4: seq<Event> := [];
    Cons(vcs, s3, ReadStore(0, true), e4);
    var e3 := [ReadStore(0, true)] + e4;
    Cons(vcs, s2, WriteFinish(true), e3);
    var e2 := [WriteFinish(true)] + e3;
    Cons(vcs, s1, WriteStart(first), e2);
    Cons(vcs, START, ReadStart(0, p), [WriteStart(first)] + e2);
  }

  /** A deleted file that an overtaken read has put back into the cache is filled by an ordinary
      edit, and its change is still a deletion. */
  lemma RefilledThenEdited(p: string, a: string, b: string)
    requires a != "" && b != ""
    ensures var vcs := map[p := a];
      var es := [ReadStart(0, p)] + ([WriteStart(Delete(p))] + ([WriteFinish(true)]
        + ([ReadStore(0, true)] + ([WriteDirect(Edit(p, a, b))] + []))));
      Legal(vcs, START, es) && Run(vcs, START, es).ws.changes == map[p := FileChange(Deleted, a, b)]
  {
    hide Legal, Run, Log, AllHarmless, NeverLoses, Finish, Direct;
    var vcs := map[p := a];
    var w, second := Delete(p), Edit(p, a, b);
    var s1 := Shared(EMPTY, map[0 := p], None);
    var s2 := s1.(writer := Some(w));
    var s3 := Shared(State(map[p := ""], map[p := FileChange(Deleted, a, "")], [p]), map[0 := p], None);
    var s4 := Shared(s3.ws.(cache := map[p := a]), map[], None);
    var s5 := Shared(State(map[p := b], map[p := FileChange(Deleted, a, b)], [p]), map[], None);
    RefilledWrites(p, a, b);
    assert Next(vcs, START, ReadStart(0, p)) == s1;
    assert Next(vcs, s1, WriteStart(w)) == s2;
    assert Next(vcs, s2, WriteFinish(true)) == s3;
    assert Next(vcs, s3, ReadStore(0, true)) == s4;
    assert Next(vcs, s4, WriteDirect(second)) == s5;
    Nothing(vcs, s5);
    var e5: seq<Event> := [];
    Cons(vcs, s4, WriteDirect(second), e5);
    var e4 := [WriteDirect(second)] + e5;
    Cons(vcs, s3, ReadStore(0, true), e4);
    var e3 := [ReadStore(0, true)] + e4;
    Cons(vcs, s2, WriteFinish(true), e3);
    var e2 := [WriteFinish(true)] + e3;
    Cons(vcs, s1, WriteStart(w), e2);
    Cons(vcs, START, ReadStart(0, p), [WriteStart(w)] + e2);
  }

  lemma RefilledWrites(p: string, a: string, b: string)
    ensures Finish(EMPTY, Delete(p), Some(a)).0 == State(map[p := ""], map[p := FileChange(Deleted, a, "")], [p])
    ensures Direct(State(map[p := a], map[p := FileChange(Deleted, a, "")], [p]), Edit(p, a, b)).0
      == State(map[p := b], map[p := FileChange(Deleted, a, b)], [p])
  {
    WholeReplaced(a, b);
  }

  lemma Nothing(vcs: map<string, string>, s: Shared)
    ensures Legal(vcs, s, []) && Run(vcs, s, []) == s && Log(vcs, s, []) == []
    ensures AllHarmless(vcs, s, []) && NeverLoses(vcs, s, [])
  {
  }

  lemma LostUpdateWrites(p: string, a: string, b: string, c: string)
    ensures Finish(EMPTY, Edit(p, a, b), Some(a)).0 == State(map[p := b], map[p := FileChange(Modified, a, b)], [p])
    ensures Direct(State(map[p := a], map[p := FileChange(Modified, a, b)], [p]), Edit(p, a, c)).0
      == State(map[p := c], map[p := FileChange(Modified, a, c)], [p])
  {
    WholeReplaced(a, b);
    WholeReplaced(a, c);
  }

  lemma LostUpdatePlain(p: string, a: string, b: string, c: string)
    requires FirstIndex(b, a).None?
    ensures PlainAll(map[p := a], [(Edit(p, a, b), false), (Edit(p, a, c), false)]) == map[p := b]
  {
    WholeReplaced(a, b);
    var m := map[p := b];
    assert Plain(map[p := a], Edit(p, a, b), false).0 == m;
    assert Plain(m, Edit(p, a, c), false).0 == m;
    var rest := [(Edit(p, a, c), false)];
    assert PlainAll(m, rest) == PlainAll(m, []);
    assert [(Edit(p, a, b), false), (Edit(p, a, c), false)][1..] == rest;
  }

  lemma WholeReplaced(a: string, with: string)
    ensures FirstIndex(a, a) == Some(0) && Replace(a, a, with, 0) == with
  {
    assert OccursAt(a, a, 0);
  }
}
