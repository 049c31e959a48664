/** The virtual workspace of mono/swarm/workspace.py, used by one agent at a time.

    A cache of file texts and a set of pending changes lie over an immutable VCS. The class
    follows the source's methods; Apply says what a locked write does to the whole state,
    and the lemmas say what survives: unread and unchanged files are the VCS's, and the
    original text recorded for a modified file is the VCS's text. */
module Workspace {
  import opened Wrappers
  import opened Text

  datatype ChangeType = Modified | Added | Deleted

  datatype FileChange = FileChange(kind: ChangeType, original: string, proposed: string)

  // order: the keys of the changes as the source's dictionary iterates over them
  datatype State = State(cache: map<string, string>, changes: map<string, FileChange>, order: seq<string>)

  const EMPTY := State(map[], map[], [])

  /** A locked write; its paths are already normalised. */
  datatype Write =
    | Edit(path: string, oldText: string, newText: string)
    | EditOrCreate(path: string, oldText: string, newText: string)
    | Create(path: string, content: string)
    | CreateModule(files: seq<(string, string)>)
    | Delete(path: string)

  // NotFound is the source's ValueError, Unreachable an exception of the VCS read.
  datatype Outcome = Done | NotFound | Unreachable

  // ---------- Paths ----------

  function DropSlashes(p: string): (r: string)
    ensures |r| <= |p| && (|r| == |p| ==> r == p)
    ensures r != "" ==> r[|r| - 1] == p[|p| - 1] && r[0] != '/'
  {
    if |p| >= 1 && p[0] == '/' then DropSlashes(p[1..]) else p
  }

  predicate Dotted(p: string) {
    |p| >= 2 && p[0] == '.' && p[1] == '/'
  }

  function DropDots(p: string): (r: string)
    ensures |r| <= |p| && (|r| == |p| ==> r == p)
    ensures r != "" ==> r[|r| - 1] == p[|p| - 1] && !Dotted(r)
  {
    if Dotted(p) then DropDots(p[2..]) else p
  }

  function Normalize(p: string): string {
    DropDots(DropSlashes(Strip(p)))
  }

  method NormalizePath(path: string) returns (p: string)
    ensures p == Normalize(path)
  {
    p := Strip(path);
    while |p| >= 1 && p[0] == '/'
      invariant DropSlashes(p) == DropSlashes(Strip(path))
      decreases |p|
    {
      p := p[1..];
    }
    while Dotted(p)
      invariant DropDots(p) == Normalize(path)
      decreases |p|
    {
      p := p[2..];
    }
  }

  lemma NormalizedEnds(p: string)
    ensures var q := Normalize(p); q != "" ==> !Dotted(q) && !IsSpace(q[|q| - 1])
  {
    hide IsSpace, Strip;
  }

  lemma NormalizeFixed(q: string)
    requires Trimmed(q) && !Dotted(q)
    requires q != "" ==> q[0] != '/'
    ensures Normalize(q) == q
  {
    StripFixed(q);
  }

  lemma NormalizeShrinks(q: string)
    requires q != "" && (q[0] == '/' || IsSpace(q[0]))
    ensures |Normalize(q)| < |q|
  {
    hide IsSpace, Strip;
    StripFixed(q);
    StripShrinks(q);
  }

  lemma StripShrinks(s: string)
    ensures Strip(s) == s || |Strip(s)| < |s|
  {
  }

  /** Normalising twice is not always normalising once: stripping "./" can uncover a slash or
      a space. It is exactly when the result does not begin with one of those. */
  lemma NormalizeIdempotentIff(p: string)
    ensures var q := Normalize(p);
      Normalize(q) == q <==> q == "" || (q[0] != '/' && !IsSpace(q[0]))
  {
    hide IsSpace, Normalize, Strip;
    NormalizedEnds(p);
    var q := Normalize(p);
    if q != "" && (q[0] == '/' || IsSpace(q[0])) {
      NormalizeShrinks(q);
    } else {
      NormalizeFixed(q);
    }
  }

  // What may stand before a path without changing the file that a file system opens.
  datatype Piece = Slash | Dot

  function Spell(ps: seq<Piece>): string {
    if ps == [] then "" else (if ps[0].Slash? then "/" else "./") + Spell(ps[1..])
  }

  /** A path that is its own name: trimmed, and without such a prefix. */
  predicate Ordinary(x: string) {
    x != "" && Trimmed(x) && x[0] != '/' && !Dotted(x)
  }

  /** No slash comes after a dot. */
  predicate SlashesFirst(ps: seq<Piece>) {
    forall i, j | 0 <= i < j < |ps| :: ps[i].Dot? ==> ps[j].Dot?
  }

  function WithoutSlashes(ps: seq<Piece>): seq<Piece> {
    if ps != [] && ps[0].Slash? then WithoutSlashes(ps[1..]) else ps
  }

  function WithoutDots(ps: seq<Piece>): seq<Piece> {
    if ps != [] && ps[0].Dot? then WithoutDots(ps[1..]) else ps
  }

  /** The pieces that the two loops leave in front of the path. */
  function Left(ps: seq<Piece>): seq<Piece> {
    WithoutDots(WithoutSlashes(ps))
  }

  lemma SpellHead(ps: seq<Piece>, x: string)
    requires ps != []
    ensures var s, rest := Spell(ps) + x, Spell(ps[1..]) + x;
      && (ps[0].Slash? ==> s[0] == '/' && s[1..] == rest)
      && (ps[0].Dot? ==> Dotted(s) && s[0] == '.' && s[2..] == rest)
  {
    var rest := Spell(ps[1..]) + x;
    if ps[0].Slash? {
      Prefixed("/", Spell(ps[1..]), x);
      assert Spell(ps) + x == "/" + rest;
    } else {
      Prefixed("./", Spell(ps[1..]), x);
      assert Spell(ps) + x == "./" + rest;
    }
  }

  lemma Prefixed(a: string, b: string, c: string)
    ensures a + b + c == a + (b + c) && (a + (b + c))[|a|..] == b + c
  {
  }

  lemma {:induction false} SlashesDropped(ps: seq<Piece>, x: string)
    requires Ordinary(x)
    ensures DropSlashes(Spell(ps) + x) == Spell(WithoutSlashes(ps)) + x
  {
    if ps == [] {
      assert Spell(ps) + x == x;
    } else {
      SpellHead(ps, x);
      if ps[0].Slash? {
        SlashesDropped(ps[1..], x);
      }
    }
  }

  lemma {:induction false} DotsDropped(ps: seq<Piece>, x: string)
    requires Ordinary(x)
    ensures DropDots(Spell(ps) + x) == Spell(WithoutDots(ps)) + x
  {
    if ps == [] {
      assert Spell(ps) + x == x;
    } else {
      SpellHead(ps, x);
      if ps[0].Dot? {
        DotsDropped(ps[1..], x);
      }
    }
  }

  lemma SpellTrimmed(ps: seq<Piece>, x: string)
    requires Ordinary(x)
    ensures Strip(Spell(ps) + x) == Spell(ps) + x
  {
    var s := Spell(ps) + x;
    assert s[|s| - 1] == x[|x| - 1];
    if ps == [] {
      assert s == x;
    } else {
      SpellHead(ps, x);
    }
    StripFixed(s);
  }

  /** Every spelling of a path is normalised to the path with the pieces left over. */
  lemma NormalizeSpelling(ps: seq<Piece>, x: string)
    requires Ordinary(x)
    ensures Normalize(Spell(ps) + x) == Spell(Left(ps)) + x
  {
    hide Ordinary, Spell, DropSlashes, DropDots, Strip;
    SpellTrimmed(ps, x);
    SlashesDropped(ps, x);
    DotsDropped(WithoutSlashes(ps), x);
  }

  lemma {:induction false} OnlyDots(ps: seq<Piece>)
    ensures WithoutDots(ps) == [] <==> forall i | 0 <= i < |ps| :: ps[i].Dot?
  {
    if ps != [] {
      OnlyDots(ps[1..]);
      assert forall i | 1 <= i < |ps| :: ps[i] == ps[1..][i - 1];
    }
  }

  lemma {:induction false} NothingLeft(ps: seq<Piece>)
    ensures Left(ps) == [] <==> SlashesFirst(ps)
  {
    if ps != [] {
      assert forall i | 1 <= i < |ps| :: ps[i] == ps[1..][i - 1];
      if ps[0].Slash? {
        NothingLeft(ps[1..]);
      } else {
        OnlyDots(ps);
      }
    }
  }

  /** The name of a file survives a prefix exactly when its slashes come before its dots. */
  lemma OneNameIff(ps: seq<Piece>, x: string)
    requires Ordinary(x)
    ensures Normalize(Spell(ps) + x) == x <==> SlashesFirst(ps)
  {
    hide Ordinary, Normalize, Left;
    NormalizeSpelling(ps, x);
    NothingLeft(ps);
    assert Spell(Left(ps)) + x == x <==> Spell(Left(ps)) == "" by {
      assert |Spell(Left(ps)) + x| == |Spell(Left(ps))| + |x|;
      assert "" + x == x;
    }
  }

  lemma {:induction false} LeftBeginsWithSlash(ps: seq<Piece>)
    ensures WithoutDots(ps) != [] ==> WithoutDots(ps)[0].Slash?
  {
    if ps != [] {
      LeftBeginsWithSlash(ps[1..]);
    }
  }

  /** And normalising twice is normalising once under the same condition on the spelling. */
  lemma SpellingIdempotentIff(ps: seq<Piece>, x: string)
    requires Ordinary(x)
    ensures var s := Spell(ps) + x; Normalize(Normalize(s)) == Normalize(s) <==> SlashesFirst(ps)
  {
    var q := Spell(Left(ps)) + x;
    NormalizeSpelling(ps, x);
    NothingLeft(ps);
    NormalizeIdempotentIff(Spell(ps) + x);
    LeftBeginsWithSlash(WithoutSlashes(ps));
    hide Normalize, Left, IsSpace;
    if Left(ps) == [] {
      assert q == x;
    } else {
      SpellHead(Left(ps), x);
    }
  }

  /** The shortest prefix that fails: x and .//x are kept under the different keys x and /x. */
  lemma TwoSpellings(x: string)
    requires Ordinary(x)
    ensures Normalize(x) == x
    ensures Normalize(['.', '/', '/'] + x) == ['/'] + x
  {
    hide Ordinary, Normalize;
    NormalizeSpelling([], x);
    NormalizeSpelling([Dot, Slash], x);
    assert "" + x == x;
    assert [Dot, Slash][1..] == [Slash] && [Slash][1..] == [];
    assert Spell([Slash]) == "/" + Spell([]) == "/";
    assert Spell([Dot, Slash]) == "./" + Spell([Slash]) == ['.', '/', '/'];
    assert Left([Dot, Slash]) == [Slash];
  }

  // ---------- What a write does ----------

  function Replace(s: string, t: string, with: string, i: nat): string
    requires OccursAt(s, t, i)
  {
    s[..i] + with + s[i + |t|..]
  }

  function Put(s: State, p: string, text: string, change: FileChange): State {
    State(s.cache[p := text], s.changes[p := change], if p in s.changes then s.order else s.order + [p])
  }

  /** The change recorded when p goes from `current` to `text`. */
  function Revised(s: State, p: string, current: string, text: string): FileChange {
    if p in s.changes then s.changes[p].(proposed := text) else FileChange(Modified, current, text)
  }

  /** Search and replace in the text current of the cached file p. */
  function ReplaceIn(s: State, p: string, current: string, t: string, with: string): (State, Outcome) {
    var i := FirstIndex(current, t);
    if i.None? then (s, NotFound)
    else
      var text := Replace(current, t, with, i.value);
      (Put(s, p, text, Revised(s, p, current, text)), Done)
  }

  function CreateAll(s: State, files: seq<(string, string)>): State {
    if files == [] then s
    else
      var f := files[|files| - 1];
      Put(CreateAll(s, files[..|files| - 1]), f.0, f.1, FileChange(Added, "", f.1))
  }

  /** Whether the write has to read the VCS first. */
  predicate NeedsFetch(s: State, w: Write) {
    match w
    case Edit(p, _, _) => p !in s.cache
    case EditOrCreate(p, _, _) => p !in s.cache
    case Delete(p) => p !in s.cache || s.cache[p] == ""
    case _ => false
  }

  /** What the write does once its VCS read has returned or failed. */
  function Finish(s: State, w: Write, fetched: Option<string>): (State, Outcome) {
    match w
    case Edit(p, t, with) =>
      if fetched.None? then (s, Unreachable)
      else ReplaceIn(s.(cache := s.cache[p := fetched.value]), p, fetched.value, t, with)
    case EditOrCreate(p, t, with) =>
      if fetched.None? then (Put(s, p, with, FileChange(Added, "", with)), Done)
      else ReplaceIn(s.(cache := s.cache[p := fetched.value]), p, fetched.value, t, with)
    case Delete(p) =>
      (Put(s, p, "", FileChange(Deleted, if fetched.Some? then fetched.value else "", "")), Done)
    case _ => (s, Done)
  }

  /** What the write does when it needs no VCS read. */
  function Direct(s: State, w: Write): (State, Outcome)
    requires !NeedsFetch(s, w)
  {
    match w
    case Edit(p, t, with) => ReplaceIn(s, p, s.cache[p], t, with)
    case EditOrCreate(p, t, with) => ReplaceIn(s, p, s.cache[p], t, with)
    case Create(p, text) => (Put(s, p, text, FileChange(Added, "", text)), Done)
    case CreateModule(files) => (CreateAll(s, files), Done)
    case Delete(p) => (Put(s, p, "", FileChange(Deleted, s.cache[p], "")), Done)
  }

  function Fetched(vcs: map<string, string>, p: string, reachable: bool): Option<string> {
    if reachable && p in vcs then Some(vcs[p]) else None
  }

  function PathOf(w: Write): string {
    match w
    case Edit(p, _, _) => p
    case EditOrCreate(p, _, _) => p
    case Create(p, _) => p
    case Delete(p) => p
    case CreateModule(_) => ""
  }

  function Apply(vcs: map<string, string>, s: State, w: Write, reachable: bool): (State, Outcome) {
    if NeedsFetch(s, w) then Finish(s, w, Fetched(vcs, PathOf(w), reachable)) else Direct(s, w)
  }

  // ---------- What a caller of a write gets ----------

  ghost predicate Around(s: string, before: string, middle: string, after: string) {
    s == before + middle + after
  }

  /** now is was with the first occurrence of t, and nothing else, replaced. */
  ghost predicate FirstReplaced(was: string, t: string, with: string, now: string) {
    exists before, after ::
      && Around(was, before, t, after) && Around(now, before, with, after)
      && forall k: nat | k < |before| :: !OccursAt(was, t, k)
  }

  /** The path has the text and the change that it had, or neither. */
  ghost predicate Same(was: State, now: State, q: string) {
    && (q in now.cache <==> q in was.cache) && (q in was.cache ==> now.cache[q] == was.cache[q])
    && (q in now.changes <==> q in was.changes) && (q in was.changes ==> now.changes[q] == was.changes[q])
  }

  /** The path has this change, and its proposed text is cached. */
  ghost predicate Holds(now: State, p: string, change: FileChange) {
    p in now.cache && now.cache[p] == change.proposed && p in now.changes && now.changes[p] == change
  }

  /** p has the change, no other path is touched, and a first change is listed last. */
  ghost predicate IsWritten(was: State, now: State, p: string, change: FileChange) {
    && Holds(now, p, change) && (forall q | q != p :: Same(was, now, q))
    && now.order == if p in was.changes then was.order else was.order + [p]
  }

  /** The outcome of an edit of p, whose text is current. */
  ghost predicate IsEdit(was: State, now: State, p: string, current: string, t: string, with: string, out: Outcome) {
    match out
    case Unreachable => false
    case NotFound =>
      && (forall k: nat :: !OccursAt(current, t, k))
      && now == was.(cache := was.cache[p := current])
    case Done =>
      exists text ::
        && FirstReplaced(current, t, with, text)
        && IsWritten(was, now, p,
             if p in was.changes then FileChange(was.changes[p].kind, was.changes[p].original, text)
             else FileChange(Modified, current, text))
  }

  lemma ReplaceMeans(s: string, t: string, with: string)
    ensures var i := FirstIndex(s, t); i.Some? ==> FirstReplaced(s, t, with, Replace(s, t, with, i.value))
  {
    var i := FirstIndex(s, t);
    if i.Some? {
      var before, after := s[..i.value], s[i.value + |t|..];
      assert s == before + s[i.value..i.value + |t|] + after;
      assert Around(s, before, t, after) && Around(Replace(s, t, with, i.value), before, with, after);
    }
  }

  /** What the first replacement is does not depend on how it is found. */
  lemma FirstReplacedIsOne(was: string, t: string, with: string, a: string, b: string)
    requires FirstReplaced(was, t, with, a) && FirstReplaced(was, t, with, b)
    ensures a == b
  {
    var x, u :| Around(was, x, t, u) && Around(a, x, with, u) && forall k: nat | k < |x| :: !OccursAt(was, t, k);
    var y, v :| Around(was, y, t, v) && Around(b, y, with, v) && forall k: nat | k < |y| :: !OccursAt(was, t, k);
    assert was[|x|..|x| + |t|] == t && was[|y|..|y| + |t|] == t;
    assert OccursAt(was, t, |x|) && OccursAt(was, t, |y|);
    assert x == was[..|x|] && y == was[..|y|] && u == was[|x| + |t|..] && v == was[|y| + |t|..];
  }

  lemma ReplaceInMeans(was: State, p: string, current: string, t: string, with: string)
    ensures var (now, out) := ReplaceIn(was.(cache := was.cache[p := current]), p, current, t, with);
      IsEdit(was, now, p, current, t, with, out)
  {
    hide FirstReplaced;
    var i := FirstIndex(current, t);
    ReplaceMeans(current, t, with);
    if i.Some? {
      var text := Replace(current, t, with, i.value);
      var now := ReplaceIn(was.(cache := was.cache[p := current]), p, current, t, with).0;
      assert now.changes[p] ==
        if p in was.changes then FileChange(was.changes[p].kind, was.changes[p].original, text)
        else FileChange(Modified, current, text);
    }
  }

  /** Of the files of a module the last one for a path is the one that counts. */
  ghost predicate IsLast(files: seq<(string, string)>, k: nat) {
    k < |files| && forall j | k < j < |files| :: files[j].0 != files[k].0
  }

  ghost predicate IsNamed(files: seq<(string, string)>, q: string) {
    exists f :: f in files && f.0 == q
  }

  ghost predicate AreCreated(was: State, now: State, files: seq<(string, string)>) {
    && (forall k: nat | IsLast(files, k) :: Holds(now, files[k].0, FileChange(Added, "", files[k].1)))
    && (forall q :: IsNamed(files, q) || Same(was, now, q))
    && was.order <= now.order
  }

  lemma PutMeans(was: State, p: string, change: FileChange)
    ensures IsWritten(was, Put(was, p, change.proposed, change), p, change)
  {
  }

  lemma {:induction false} CreateAllMeans(was: State, files: seq<(string, string)>)
    ensures AreCreated(was, CreateAll(was, files), files)
  {
    if files != [] {
      var n := |files| - 1;
      var f := files[n];
      assert files == files[..n] + [f];
      CreateAllMeans(was, files[..n]);
      PutMeans(CreateAll(was, files[..n]), f.0, FileChange(Added, "", f.1));
      OneMoreCreated(was, CreateAll(was, files[..n]), CreateAll(was, files), files[..n], f);
    } else {
      assert forall q :: Same(was, was, q);
    }
  }

  lemma OneMoreCreated(was: State, mid: State, now: State, files: seq<(string, string)>, f: (string, string))
    requires AreCreated(was, mid, files) && IsWritten(mid, now, f.0, FileChange(Added, "", f.1))
    ensures AreCreated(was, now, files + [f])
  {
    var all := files + [f];
    assert all[|files|] == f;
    forall k: nat | IsLast(all, k) ensures Holds(now, all[k].0, FileChange(Added, "", all[k].1)) {
      if k < |files| {
        assert forall j | k < j < |files| :: all[j] == files[j];
        assert IsLast(files, k) && Same(mid, now, files[k].0);
      }
    }
    forall q ensures IsNamed(all, q) || Same(was, now, q) {
      if q == f.0 {
        assert f in all;
      } else if IsNamed(files, q) {
        var g :| g in files && g.0 == q;
        assert g in all;
      } else {
        assert Same(was, mid, q) && Same(mid, now, q);
      }
    }
  }

  // ---------- The class ----------

  class VirtualWorkspace {
    const vcs: map<string, string>
    var cache: map<string, string>
    var changes: map<string, FileChange>
    var order: seq<string>

    constructor (vcs: map<string, string>)
      ensures this.vcs == vcs && Now() == EMPTY
    {
      this.vcs := vcs;
      cache, changes, order := map[], map[], [];
    }

    function Now(): State
      reads this
    {
      State(cache, changes, order)
    }

    /** The Go proxy's read: the VCS text, or an exception (no such file, or no connection). */
    method VcsRead(path: string, reachable: bool) returns (text: Option<string>)
      ensures text == Fetched(vcs, path, reachable)
    {
      text := if reachable && path in vcs then Some(vcs[path]) else None;
    }

    method ReadFile(path: string, reachable: bool) returns (text: Option<string>)
      modifies this`cache
      ensures var p := Normalize(path);
        && text == (if p in old(cache) then Some(old(cache)[p])
                    else if reachable && p in vcs then Some(vcs[p]) else None)
        && cache == (if text.Some? then old(cache)[p := text.value] else old(cache))
    {
      hide Normalize;
      var p := NormalizePath(path);
      if p in cache {
        assert cache == cache[p := cache[p]];
        return Some(cache[p]);
      }
      text := VcsRead(p, reachable);
      if text.Some? {
        cache := cache[p := text.value];
      }
    }

    /** The common end of both edits: replace in the cached text and track the change. */
    method ReplaceCached(p: string, oldText: string, newText: string) returns (out: Outcome)
      requires p in cache
      modifies this
      ensures (Now(), out) == ReplaceIn(old(Now()), p, old(cache)[p], oldText, newText)
    {
      var current := cache[p];
      var i := FirstIndex(current, oldText);
      if i.None? {
        return NotFound;
      }
      var text := current[..i.value] + newText + current[i.value + |oldText|..];
      cache := cache[p := text];
      if p in changes {
        changes := changes[p := changes[p].(proposed := text)];
      } else {
        changes := changes[p := FileChange(Modified, current, text)];
        order := order + [p];
      }
      out := Done;
    }

    method EditFile(path: string, oldText: string, newText: string, reachable: bool) returns (out: Outcome)
      modifies this
      ensures (Now(), out) == Apply(vcs, old(Now()), Edit(Normalize(path), oldText, newText), reachable)
      ensures var p := Normalize(path);
        if p in old(cache) then IsEdit(old(Now()), Now(), p, old(cache)[p], oldText, newText, out)
        else if reachable && p in vcs then IsEdit(old(Now()), Now(), p, vcs[p], oldText, newText, out)
        else out == Unreachable && Now() == old(Now())
    {
      hide Normalize, IsEdit;
      var p := NormalizePath(path);
      if p !in cache {
        var text := VcsRead(p, reachable);
        if text.None? {
          return Unreachable;
        }
        cache := cache[p := text.value];
      }
      ReplaceInMeans(old(Now()), p, cache[p], oldText, newText);
      assert Now() == old(Now()).(cache := old(cache)[p := cache[p]]);
      out := ReplaceCached(p, oldText, newText);
    }

    method CreateFile(path: string, content: string)
      modifies this
      ensures Now() == Apply(vcs, old(Now()), Create(Normalize(path), content), true).0
      ensures IsWritten(old(Now()), Now(), Normalize(path), FileChange(Added, "", content))
    {
      hide Normalize;
      var p := NormalizePath(path);
      cache := cache[p := content];
      order := if p in changes then order else order + [p];
      changes := changes[p := FileChange(Added, "", content)];
    }

    method EditOrCreateFile(path: string, oldText: string, newText: string, reachable: bool) returns (out: Outcome)
      modifies this
      ensures (Now(), out) == Apply(vcs, old(Now()), EditOrCreate(Normalize(path), oldText, newText), reachable)
      ensures var p := Normalize(path);
        if p in old(cache) then IsEdit(old(Now()), Now(), p, old(cache)[p], oldText, newText, out)
        else if reachable && p in vcs then IsEdit(old(Now()), Now(), p, vcs[p], oldText, newText, out)
        else out == Done && IsWritten(old(Now()), Now(), p, FileChange(Added, "", newText))
    {
      hide Normalize, IsEdit;
      var p := NormalizePath(path);
      if p !in cache {
        var text := VcsRead(p, reachable);
        if text.None? {
          cache := cache[p := newText];
          order := if p in changes then order else order + [p];
          changes := changes[p := FileChange(Added, "", newText)];
          return Done;
        }
        cache := cache[p := text.value];
      }
      ReplaceInMeans(old(Now()), p, cache[p], oldText, newText);
      assert Now() == old(Now()).(cache := old(cache)[p := cache[p]]);
      out := ReplaceCached(p, oldText, newText);
    }

    static function NormalizeAll(files: seq<(string, string)>): (r: seq<(string, string)>)
      ensures |r| == |files|
      ensures forall k | 0 <= k < |r| :: r[k] == (Normalize(files[k].0), files[k].1)
    {
      seq(|files|, i requires 0 <= i < |files| => (Normalize(files[i].0), files[i].1))
    }

    method CreateModuleFiles(files: seq<(string, string)>)
      modifies this
      ensures Now() == Apply(vcs, old(Now()), CreateModule(NormalizeAll(files)), true).0
      ensures AreCreated(old(Now()), Now(), NormalizeAll(files))
    {
      hide Normalize;
      ghost var all := NormalizeAll(files);
      for k := 0 to |files|
        invariant Now() == CreateAll(old(Now()), all[..k])
      {
        var p := NormalizePath(files[k].0);
        var content := files[k].1;
        cache := cache[p := content];
        order := if p in changes then order else order + [p];
        changes := changes[p := FileChange(Added, "", content)];
        assert all[..k + 1][..k] == all[..k] && all[k] == (p, content);
      }
      assert all[..|files|] == all;
      CreateAllMeans(old(Now()), all);
    }

    method DeleteFile(path: string, reachable: bool)
      modifies this
      ensures Now() == Apply(vcs, old(Now()), Delete(Normalize(path)), reachable).0
      ensures var p := Normalize(path);
        IsWritten(old(Now()), Now(), p, FileChange(Deleted,
          if p in old(cache) && old(cache)[p] != "" then old(cache)[p]
          else if reachable && p in vcs then vcs[p] else "", ""))
    {
      hide Normalize, IsWritten;
      var p := NormalizePath(path);
      var original := if p in cache then cache[p] else "";
      if original == "" {
        var text := VcsRead(p, reachable);
        original := if text.Some? then text.value else "";
      }
      cache := cache[p := ""];
      order := if p in changes then order else order + [p];
      changes := changes[p := FileChange(Deleted, original, "")];
      PutMeans(old(Now()), p, FileChange(Deleted, original, ""));
    }

    /** The pending changes, each path once, in the order in which they were first made. */
    method GetChangeset() returns (diffs: seq<(string, FileChange)>)
      requires Indexed(Now())
      ensures |diffs| == |order|
      ensures forall k | 0 <= k < |order| :: diffs[k] == (order[k], changes[order[k]])
      ensures forall p | p in changes :: exists k :: 0 <= k < |diffs| && diffs[k] == (p, changes[p])
      ensures forall j, k | 0 <= j < k < |diffs| :: diffs[j].0 != diffs[k].0
    {
      diffs := [];
      for k := 0 to |order|
        invariant |diffs| == k
        invariant forall j | 0 <= j < k :: diffs[j] == (order[j], changes[order[j]])
      {
        diffs := diffs + [(order[k], changes[order[k]])];
      }
      forall p | p in changes ensures exists k :: 0 <= k < |diffs| && diffs[k] == (p, changes[p]) {
        var k :| 0 <= k < |order| && order[k] == p;
        assert diffs[k] == (p, changes[p]);
      }
    }
  }

  // ---------- What every write keeps ----------

  /** The order lists exactly the changed paths, each once. */
  ghost predicate Indexed(s: State) {
    && (forall p :: p in s.order <==> p in s.changes)
    && (forall j, k | 0 <= j < k < |s.order| :: s.order[j] != s.order[k])
  }

  /** What holds in every state, whatever reads and writes overlap. */
  ghost predicate Sound(vcs: map<string, string>, s: State) {
    && Indexed(s)
    && (forall p | p in s.cache && p !in s.changes :: p in vcs && s.cache[p] == vcs[p])
    && (forall p | p in s.changes && s.changes[p].kind.Modified? :: p in vcs && s.changes[p].original == vcs[p])
    && (forall p | p in s.changes :: p in s.cache
          && (s.cache[p] == s.changes[p].proposed || (p in vcs && s.cache[p] == vcs[p])))
  }

  lemma PutSound(vcs: map<string, string>, s: State, p: string, text: string, change: FileChange)
    requires Sound(vcs, s)
    requires change.proposed == text
    requires change.kind.Modified? ==> p in vcs && change.original == vcs[p]
    ensures Sound(vcs, Put(s, p, text, change))
  {
    var t := Put(s, p, text, change);
    assert forall q | q != p && q in t.cache :: t.cache[q] == s.cache[q];
    assert Indexed(t);
  }

  lemma ReplaceSound(vcs: map<string, string>, s: State, p: string, t: string, with: string)
    requires Sound(vcs, s) && p in s.cache
    ensures Sound(vcs, ReplaceIn(s, p, s.cache[p], t, with).0)
  {
    var i := FirstIndex(s.cache[p], t);
    if i.Some? {
      var text := Replace(s.cache[p], t, with, i.value);
      PutSound(vcs, s, p, text, Revised(s, p, s.cache[p], text));
    }
  }

  lemma {:induction false} CreateAllSound(vcs: map<string, string>, s: State, files: seq<(string, string)>)
    requires Sound(vcs, s)
    ensures Sound(vcs, CreateAll(s, files))
  {
    if files != [] {
      var f := files[|files| - 1];
      CreateAllSound(vcs, s, files[..|files| - 1]);
      PutSound(vcs, CreateAll(s, files[..|files| - 1]), f.0, f.1, FileChange(Added, "", f.1));
    }
  }

  lemma DirectSound(vcs: map<string, string>, s: State, w: Write)
    requires Sound(vcs, s) && !NeedsFetch(s, w)
    ensures Sound(vcs, Direct(s, w).0)
  {
    match w
    case Edit(p, t, with) => ReplaceSound(vcs, s, p, t, with);
    case EditOrCreate(p, t, with) => ReplaceSound(vcs, s, p, t, with);
    case Create(p, text) => PutSound(vcs, s, p, text, FileChange(Added, "", text));
    case CreateModule(files) => CreateAllSound(vcs, s, files);
    case Delete(p) => PutSound(vcs, s, p, "", FileChange(Deleted, s.cache[p], ""));
  }

  /** A fetch belongs to an edit only of a path without changes. */
  ghost predicate FetchAllowed(s: State, w: Write) {
    match w
    case Edit(p, _, _) => p !in s.changes
    case EditOrCreate(p, _, _) => p !in s.changes
    case _ => true
  }

  lemma CachingSound(vcs: map<string, string>, s: State, p: string)
    requires Sound(vcs, s) && p in vcs
    ensures Sound(vcs, s.(cache := s.cache[p := vcs[p]]))
  {
  }

  lemma FinishSound(vcs: map<string, string>, s: State, w: Write, reachable: bool)
    requires Sound(vcs, s) && FetchAllowed(s, w)
    ensures Sound(vcs, Finish(s, w, Fetched(vcs, PathOf(w), reachable)).0)
  {
    var f := Fetched(vcs, PathOf(w), reachable);
    match w
    case Edit(p, t, with) =>
      if f.Some? {
        CachingSound(vcs, s, p);
        ReplaceSound(vcs, s.(cache := s.cache[p := f.value]), p, t, with);
      }
    case EditOrCreate(p, t, with) =>
      if f.Some? {
        CachingSound(vcs, s, p);
        ReplaceSound(vcs, s.(cache := s.cache[p := f.value]), p, t, with);
      } else {
        PutSound(vcs, s, p, with, FileChange(Added, "", with));
      }
    case Delete(p) => PutSound(vcs, s, p, "", FileChange(Deleted, if f.Some? then f.value else "", ""));
    case _ =>
  }
}
