/** The ordered bookmarks of a vault and their write queue (src/application/note-bookmarks.ts). */
module NoteBookmarks {
  import opened Options
  import opened Sequences
  import opened JsText
  import opened VaultPath

  const MAXIMUM_NOTE_BOOKMARKS := 2048

  type Paths = seq<string>
  type OpId = nat

  // ---------- the list ----------

  predicate Hidden(path: string) {
    exists segment :: segment in Split(path) && StartsWith(segment, ".")
  }

  function NormalizeBookmarkPath(path: string): Option<string> {
    var normalized := NormalizeVaultPath(path);
    if normalized.None? || !EndsWith(Lower(normalized.value), ".md") || Hidden(normalized.value) then None else normalized
  }

  predicate NoRepeats(paths: Paths) {
    paths == [] || (paths[0] !in paths[1..] && NoRepeats(paths[1..]))
  }

  function NormalizeAll(paths: Paths): Option<Paths> {
    if paths == [] then Some([])
    else
      var first, rest := NormalizeBookmarkPath(paths[0]), NormalizeAll(paths[1..]);
      if first.None? || rest.None? then None else Some([first.value] + rest.value)
  }

  /** The check every stored list passes; None where the original throws. */
  function CreateNoteBookmarks(paths: Paths): Option<Paths> {
    if |paths| > MAXIMUM_NOTE_BOOKMARKS then None
    else
      var normalized := NormalizeAll(paths);
      if normalized.None? || !NoRepeats(normalized.value) then None else normalized
  }

  datatype Mutation = Set(path: string, bookmarked: bool) | Remap(source: string, target: string)

  function Without(paths: Paths, path: string): Paths {
    if paths == [] then [] else (if paths[0] == path then [] else [paths[0]]) + Without(paths[1..], path)
  }

  function Renamed(paths: Paths, source: string, target: string): Paths {
    if paths == [] then [] else [if paths[0] == source then target else paths[0]] + Renamed(paths[1..], source, target)
  }

  lemma {:induction false} WithoutMembers(paths: Paths, path: string)
    ensures |Without(paths, path)| <= |paths|
    ensures forall p :: p in Without(paths, path) <==> p in paths && p != path
    ensures NoRepeats(paths) ==> NoRepeats(Without(paths, path))
    decreases |paths|
  {
    if paths != [] {
      WithoutMembers(paths[1..], path);
      HeadTail(paths);
      var rest := Without(paths[1..], path);
      assert [] + rest == rest && ([paths[0]] + rest)[1..] == rest;
    }
  }

  /** Keeps the first of every repeated path. */
  function Firsts(paths: Paths): Paths
    decreases |paths|
  {
    if paths == [] then []
    else
      WithoutMembers(paths[1..], paths[0]);
      [paths[0]] + Firsts(Without(paths[1..], paths[0]))
  }

  datatype Change = Unchanged | Rejected | Save(list: Paths)

  function Saved(list: Option<Paths>): Change {
    if list.None? then Rejected else Save(list.value)
  }

  function ChangeOf(mutation: Mutation, list: Paths): Change {
    match mutation
    case Set(path, bookmarked) =>
      if (path in list) == bookmarked then Unchanged
      else Saved(CreateNoteBookmarks(if bookmarked then list + [path] else Without(list, path)))
    case Remap(source, target) =>
      if source == target || source !in list then Unchanged
      else Saved(CreateNoteBookmarks(Firsts(Renamed(list, source, target))))
  }

  ghost predicate WellFormed(list: Paths) {
    |list| <= MAXIMUM_NOTE_BOOKMARKS && NoRepeats(list) && forall p :: p in list ==> NormalizeBookmarkPath(p) == Some(p)
  }

  /** The paths of a mutation come out of the normalization of its arguments. */
  ghost predicate MutationOk(mutation: Mutation) {
    match mutation
    case Set(path, _) => exists raw :: NormalizeBookmarkPath(raw) == Some(path)
    case Remap(source, target) => exists raw :: NormalizeBookmarkPath(raw) == Some(target)
  }

  /** A path accepted once is accepted again, as itself, unless it starts with a drive. */
  lemma {:induction false} NormalizeBookmarkTwice(raw: string, path: string)
    requires NormalizeBookmarkPath(raw) == Some(path)
    ensures NormalizeBookmarkPath(path) == if DriveAbsolute(path) then None else Some(path)
  {
    NormalizedIsVaultPath(raw);
    NormalizeAgain(path);
    hide NormalizeVaultPath, Lower, Hidden, DriveAbsolute;
  }

  /** A segment starts with a dot: the dot stands first, or behind a slash. */
  lemma {:induction false} HiddenIff(path: string)
    ensures Hidden(path) <==> exists i :: 0 <= i < |path| && path[i] == '.' && (i == 0 || path[i - 1] == '/')
  {
    DotSegment(path);
    DotLedFirst(Split(path));
    hide Split, StartsWith;
    if i :| DotAt(path, i) { assert 0 <= i < |path| && path[i] == '.' && (i == 0 || path[i - 1] == '/'); }
    if i :| 0 <= i < |path| && path[i] == '.' && (i == 0 || path[i - 1] == '/') { assert i == 0 || DotAt(path, i); }
  }

  ghost predicate DotAt(path: string, i: int) {
    0 < i < |path| && path[i] == '.' && path[i - 1] == '/'
  }

  ghost predicate DotLed(segments: seq<string>) {
    exists segment :: segment in segments && StartsWith(segment, ".")
  }

  lemma DotLedFirst(segments: seq<string>)
    requires segments != []
    ensures DotLed(segments) <==> StartsWith(segments[0], ".") || DotLed(segments[1..])
  {
    HeadTail(segments);
    if DotLed(segments[1..]) {
      var segment :| segment in segments[1..] && StartsWith(segment, ".");
      assert segment in segments;
    }
  }

  lemma DotLater(path: string)
    requires path != ""
    ensures (exists i :: DotAt(path, i)) <==>
      (path[0] == '/' && path[1..] != "" && path[1..][0] == '.') || exists i :: DotAt(path[1..], i)
  {
    var rest := path[1..];
    if i :| DotAt(path, i) {
      assert i == 1 || DotAt(rest, i - 1);
    }
    if path[0] == '/' && rest != "" && rest[0] == '.' { assert DotAt(path, 1); }
    if i :| DotAt(rest, i) { assert DotAt(path, i + 1); }
  }

  lemma {:induction false} DotSegment(path: string)
    ensures StartsWith(Split(path)[0], ".") <==> path != "" && path[0] == '.'
    ensures DotLed(Split(path)[1..]) <==> exists i :: DotAt(path, i)
    decreases |path|
  {
    if path != "" {
      var rest := path[1..];
      DotSegment(rest);
      DotLater(path);
      DotLedFirst(Split(rest));
      if path[0] == '/' {
        assert Split(path)[1..] == Split(rest);
      } else {
        assert Split(path)[1..] == Split(rest)[1..];
        assert Split(path)[0][0] == path[0];
      }
    }
  }

  /** A bookmark is a path of the vault that ends in `.md` in any case and has no segment led by a dot. */
  lemma {:induction false} BookmarkPathExactly(raw: string)
    ensures NormalizeBookmarkPath(raw) ==
      match NormalizeVaultPath(raw)
      case None => None
      case Some(p) =>
        if EndsAs(p, ".md") && !(exists i :: 0 <= i < |p| && p[i] == '.' && (i == 0 || p[i - 1] == '/')) then Some(p) else None
  {
    if NormalizeVaultPath(raw).Some? {
      HiddenIff(NormalizeVaultPath(raw).value);
      EndsInAnyCase(NormalizeVaultPath(raw).value, ".md");
    }
    hide NormalizeVaultPath, Hidden, EndsWith, EndsAs, Lower;
  }

  lemma {:induction false} NormalizeAllFixed(list: Paths)
    requires forall p :: p in list ==> NormalizeBookmarkPath(p) == Some(p)
    ensures NormalizeAll(list) == Some(list)
    decreases |list|
  {
    hide NormalizeBookmarkPath;
    if list != [] {
      HeadTail(list);
      assert list[0] in list;
      NormalizeAllFixed(list[1..]);
    }
  }

  lemma {:induction false} NormalizeAllFails(list: Paths, path: string)
    requires path in list && NormalizeBookmarkPath(path) == None
    ensures NormalizeAll(list) == None
    decreases |list|
  {
    hide NormalizeBookmarkPath;
    if list[0] != path {
      NormalizeAllFails(list[1..], path);
    }
  }

  lemma {:induction false} PushNoRepeats(list: Paths, path: string)
    requires NoRepeats(list) && path !in list
    ensures NoRepeats(list + [path])
    decreases |list|
  {
    if list == [] {
      assert list + [path] == [path];
    } else {
      PushNoRepeats(list[1..], path);
      assert (list + [path])[1..] == list[1..] + [path];
    }
  }

  lemma {:induction false} RenamedMembers(list: Paths, source: string, target: string)
    ensures |Renamed(list, source, target)| == |list|
    ensures forall p :: p in Renamed(list, source, target) <==> (p in list && p != source) || (p == target && source in list)
    decreases |list|
  {
    if list != [] {
      RenamedMembers(list[1..], source, target);
      HeadTail(list);
    }
  }

  lemma {:induction false} FirstsMembers(list: Paths)
    ensures |Firsts(list)| <= |list| && NoRepeats(Firsts(list))
    ensures forall p :: p in Firsts(list) <==> p in list
    decreases |list|
  {
    if list != [] {
      WithoutMembers(list[1..], list[0]);
      FirstsMembers(Without(list[1..], list[0]));
      HeadTail(list);
      assert Firsts(list)[1..] == Firsts(Without(list[1..], list[0]));
    }
  }

  lemma {:induction false} WithoutTwice(list: Paths, a: string, b: string)
    ensures Without(Without(list, a), b) == Without(Without(list, b), a)
    ensures a !in list ==> Without(list, a) == list
    decreases |list|
  {
    if list != [] {
      WithoutTwice(list[1..], a, b);
      HeadTail(list);
      WithoutCons(list[0], Without(list[1..], a), b);
      WithoutCons(list[0], Without(list[1..], b), a);
    }
  }

  lemma WithoutCons(x: string, rest: Paths, path: string)
    ensures Without([x] + rest, path) == (if x == path then [] else [x]) + Without(rest, path)
    ensures Without([] + rest, path) == Without(rest, path)
  {
    assert ([x] + rest)[1..] == rest;
    assert [] + rest == rest;
  }

  lemma {:induction false} RenamedOthers(list: Paths, source: string, target: string)
    ensures Without(Renamed(list, source, target), target) == Without(Without(list, source), target)
    decreases |list|
  {
    if list != [] {
      RenamedOthers(list[1..], source, target);
      WithoutCons(if list[0] == source then target else list[0], Renamed(list[1..], source, target), target);
      WithoutCons(list[0], Without(list[1..], source), target);
    }
  }

  lemma {:induction false} WithoutAgain(list: Paths, path: string)
    ensures Without(Without(list, path), path) == Without(list, path)
  {
    WithoutMembers(list, path);
    WithoutTwice(Without(list, path), path, path);
  }

  lemma {:induction false} FirstsOnce(list: Paths, target: string)
    requires NoRepeats(Without(list, target))
    ensures Without(Firsts(list), target) == Without(list, target)
    decreases |list|
  {
    if list != [] {
      var x, rest := list[0], list[1..];
      WithoutCons(x, Without(rest, target), target);
      WithoutCons(x, Firsts(Without(rest, x)), target);
      if x == target {
        assert [] + Without(rest, target) == Without(rest, target);
        WithoutAgain(rest, target);
        WithoutMembers(rest, x);
        FirstsOnce(Without(rest, x), target);
      } else {
        HeadDistinct(x, rest, target);
        FirstsOnce(rest, target);
      }
    }
  }

  lemma {:induction false} HeadDistinct(x: string, rest: Paths, target: string)
    requires x != target && NoRepeats([x] + Without(rest, target))
    ensures Without(rest, x) == rest && NoRepeats(Without(rest, target))
  {
    assert ([x] + Without(rest, target))[1..] == Without(rest, target);
    WithoutMembers(rest, target);
    WithoutTwice(rest, x, target);
  }

  lemma CreateFixed(list: Paths)
    requires (forall p :: p in list ==> NormalizeBookmarkPath(p) == Some(p)) && NoRepeats(list)
    ensures CreateNoteBookmarks(list) == if |list| > MAXIMUM_NOTE_BOOKMARKS then None else Some(list)
  {
    NormalizeAllFixed(list);
  }

  lemma CreateFails(list: Paths, path: string)
    requires path in list && NormalizeBookmarkPath(path) == None
    ensures CreateNoteBookmarks(list) == None
  {
    NormalizeAllFails(list, path);
  }

  /** Adding and removing: the list grows at its end, or loses one path, and otherwise keeps its order. */
  lemma {:induction false} SetChanges(list: Paths, path: string, bookmarked: bool)
    requires WellFormed(list) && MutationOk(Set(path, bookmarked))
    ensures ChangeOf(Set(path, bookmarked), list) ==
      if (path in list) == bookmarked then Unchanged
      else if !bookmarked then Save(Without(list, path))
      else if |list| == MAXIMUM_NOTE_BOOKMARKS || DriveAbsolute(path) then Rejected
      else Save(list + [path])
  {
    var raw :| NormalizeBookmarkPath(raw) == Some(path);
    NormalizeBookmarkTwice(raw, path);
    hide NormalizeBookmarkPath, DriveAbsolute, Without, NoRepeats, CreateNoteBookmarks;
    WithoutMembers(list, path);
    CreateFixed(Without(list, path));
    if path !in list {
      PushNoRepeats(list, path);
      if DriveAbsolute(path) { CreateFails(list + [path], path); } else { CreateFixed(list + [path]); }
    }
  }

  /** Renaming: every other path keeps its place among the others, and the target is there once. */
  lemma {:induction false} RemapChanges(list: Paths, source: string, target: string)
    requires WellFormed(list) && MutationOk(Remap(source, target))
    ensures var change := ChangeOf(Remap(source, target), list);
            if source == target || source !in list then change == Unchanged
            else if DriveAbsolute(target) then change == Rejected
            else change.Save? && WellFormed(change.list) && target in change.list && source !in change.list
                 && Without(change.list, target) == Without(Without(list, source), target)
                 && (target !in list ==> change.list == Renamed(list, source, target))
                 && change.list == Merged(list, source, target)
  {
    hide NormalizeBookmarkPath, DriveAbsolute, Without, NoRepeats, CreateNoteBookmarks, Renamed, Firsts, Merged;
    if source != target && source in list {
      var raw :| NormalizeBookmarkPath(raw) == Some(target);
      NormalizeBookmarkTwice(raw, target);
      FirstsOfRenamed(list, source, target);
      FirstsIsMerged(list, source, target);
      var result := Firsts(Renamed(list, source, target));
      if DriveAbsolute(target) { CreateFails(result, target); } else { CreateFixed(result); }
    }
  }

  lemma {:induction false} FirstsOfRenamed(list: Paths, source: string, target: string)
    requires NoRepeats(list) && source != target && source in list
    ensures var result := Firsts(Renamed(list, source, target));
            && |result| <= |list| && NoRepeats(result)
            && (forall p :: p in result <==> (p in list && p != source) || p == target)
            && Without(result, target) == Without(Without(list, source), target)
            && (target !in list ==> result == Renamed(list, source, target))
  {
    hide Without, NoRepeats, Renamed, Firsts;
    var renamed := Renamed(list, source, target);
    RenamedMembers(list, source, target);
    FirstsMembers(renamed);
    RenamedOthers(list, source, target);
    WithoutMembers(list, source);
    WithoutMembers(Without(list, source), target);
    FirstsOnce(renamed, target);
    if target !in list {
      RenamedOnce(list, source, target);
      FirstsOfDistinct(renamed);
    }
  }

  lemma {:induction false} RenamedOnce(list: Paths, source: string, target: string)
    requires NoRepeats(list) && target !in list
    ensures NoRepeats(Renamed(list, source, target))
    decreases |list|
  {
    if list != [] {
      RenamedOnce(list[1..], source, target);
      RenamedMembers(list[1..], source, target);
      HeadTail(list);
      var x := if list[0] == source then target else list[0];
      assert ([x] + Renamed(list[1..], source, target))[1..] == Renamed(list[1..], source, target);
    }
  }

  lemma {:induction false} FirstsOfDistinct(list: Paths)
    requires NoRepeats(list)
    ensures Firsts(list) == list
    decreases |list|
  {
    if list != [] {
      WithoutTwice(list[1..], list[0], list[0]);
      HeadTail(list);
      FirstsOfDistinct(list[1..]);
    }
  }

  lemma {:induction false} ChangeIsWellFormed(list: Paths, mutation: Mutation)
    requires WellFormed(list) && MutationOk(mutation)
    ensures ChangeOf(mutation, list).Save? ==> WellFormed(ChangeOf(mutation, list).list)
  {
    match mutation {
      case Remap(source, target) => RemapChanges(list, source, target);
      case Set(path, bookmarked) =>
        SetChanges(list, path, bookmarked);
        var raw :| NormalizeBookmarkPath(raw) == Some(path);
        NormalizeBookmarkTwice(raw, path);
        hide NormalizeBookmarkPath, DriveAbsolute, Without, NoRepeats, NormalizeAll, ChangeOf;
        WithoutMembers(list, path);
        if path !in list { PushNoRepeats(list, path); }
    }
  }

  // ---------- the queue of writes ----------

  /** `Loading` holds what the store answered with, `Saving` what is being written. */
  datatype Phase = Waiting | Loading(snapshot: Paths) | Saving(list: Paths) | Done(ok: bool)

  /** `previous` is the tail of the vault's queue when the call was made, if there was one. */
  datatype Op = Op(vault: string, mutation: Mutation, previous: Option<OpId>, phase: Phase)

  /** A read; `callsBefore` counts the mutations called before it. */
  datatype Get = Get(vault: string, previous: Option<OpId>, callsBefore: nat, answer: Option<Paths>)

  datatype State = State(ops: seq<Op>, tails: map<string, OpId>, store: map<string, Paths>, gets: seq<Get>)

  datatype Event =
    | CallSet(vault: string, path: string, bookmarked: bool)
    | CallRemap(vault: string, source: string, target: string)
    | Start(id: OpId)
    | Loaded(id: OpId, ok: bool)
    | SaveEnded(id: OpId, ok: bool)
    | Cleanup(id: OpId)
    | CallGet(vault: string)
    | AnswerGet(get: nat)

  function Stored(store: map<string, Paths>, vault: string): Paths {
    if vault in store then store[vault] else []
  }

  predicate IsVaultId(vault: string) {
    |vault| == 64 && forall c :: c in vault ==> 'a' <= c <= 'f' || '0' <= c <= '9'
  }

  /** A vault id is a hexadecimal digest of 32 bytes in lower case. */
  lemma VaultIdExactly(vault: string)
    ensures IsVaultId(vault) <==> |vault| == 64 && forall i :: 0 <= i < 64 ==> vault[i] in "0123456789abcdef"
  {
    forall c: char ensures c in "0123456789abcdef" <==> 'a' <= c <= 'f' || '0' <= c <= '9' {
      HexDigit(c);
    }
    assert forall i :: 0 <= i < |vault| ==> vault[i] in vault;
  }

  lemma HexDigit(c: char)
    ensures c in "0123456789abcdef" <==> 'a' <= c <= 'f' || '0' <= c <= '9'
  {
    if '0' <= c <= '9' { assert "0123456789abcdef"[(c - '0') as int] == c; }
    if 'a' <= c <= 'f' { assert "0123456789abcdef"[(c - 'a') as int + 10] == c; }
  }

  function Tail(tails: map<string, OpId>, vault: string): Option<OpId> {
    if vault in tails then Some(tails[vault]) else None
  }

  /** The promise an operation waits for is settled. */
  predicate Ready(ops: seq<Op>, previous: Option<OpId>) {
    previous.Some? ==> previous.value < |ops| && ops[previous.value].phase.Done?
  }

  function Enqueue(s: State, vault: string, mutation: Mutation): State {
    s.(ops := s.ops + [Op(vault, mutation, Tail(s.tails, vault), Waiting)], tails := s.tails[vault := |s.ops|])
  }

  function Move(s: State, id: OpId, phase: Phase): State
    requires id < |s.ops|
  {
    s.(ops := s.ops[id := s.ops[id].(phase := phase)])
  }

  function AfterLoad(op: Op, snapshot: Paths, ok: bool): Phase {
    if !ok || !IsVaultId(op.vault) then Done(false)
    else
      match ChangeOf(op.mutation, snapshot)
      case Unchanged => Done(true)
      case Rejected => Done(false)
      case Save(list) => Saving(list)
  }

  /** One event; an event that cannot happen yet changes nothing. */
  function Step(s: State, event: Event): State {
    match event
    case CallSet(vault, path, bookmarked) =>
      var normalized := NormalizeBookmarkPath(path);
      if normalized.None? then s else Enqueue(s, vault, Set(normalized.value, bookmarked))
    case CallRemap(vault, source, target) =>
      var from, to := NormalizeBookmarkPath(source), NormalizeBookmarkPath(target);
      if from.None? || to.None? then s else Enqueue(s, vault, Remap(from.value, to.value))
    case Start(id) =>
      if id < |s.ops| && s.ops[id].phase.Waiting? && Ready(s.ops, s.ops[id].previous)
      then Move(s, id, Loading(Stored(s.store, s.ops[id].vault))) else s
    case Loaded(id, ok) =>
      if id < |s.ops| && s.ops[id].phase.Loading?
      then Move(s, id, AfterLoad(s.ops[id], s.ops[id].phase.snapshot, ok)) else s
    case SaveEnded(id, ok) =>
      if id < |s.ops| && s.ops[id].phase.Saving?
      then
        var saved := Move(s, id, Done(ok));
        if ok then saved.(store := s.store[s.ops[id].vault := s.ops[id].phase.list]) else saved
      else s
    case Cleanup(id) =>
      if id < |s.ops| && s.ops[id].phase.Done? && Tail(s.tails, s.ops[id].vault) == Some(id)
      then s.(tails := s.tails - {s.ops[id].vault}) else s
    case CallGet(vault) =>
      s.(gets := s.gets + [Get(vault, Tail(s.tails, vault), |s.ops|, None)])
    case AnswerGet(g) =>
      if g < |s.gets| && s.gets[g].answer.None? && Ready(s.ops, s.gets[g].previous) && IsVaultId(s.gets[g].vault)
      then s.(gets := s.gets[g := s.gets[g].(answer := Some(Stored(s.store, s.gets[g].vault)))]) else s
  }

  function After(s: State, events: seq<Event>): State
    decreases |events|
  {
    if events == [] then s else After(Step(s, events[0]), events[1..])
  }

  function Initial(store: map<string, Paths>): State {
    State([], map[], store, [])
  }

  // ---------- what every interleaving keeps ----------

  /** What the store of the operation's vault holds once the operation has succeeded. */
  function Committed(op: Op, stored: Paths): Paths {
    match ChangeOf(op.mutation, stored)
    case Save(list) => list
    case _ => stored
  }

  /** The mutations of `vault` that succeeded among the first `n` calls, applied one by one. */
  function Applied(ops: seq<Op>, start: Paths, vault: string, n: nat): Paths
    requires n <= |ops|
  {
    if n == 0 then start
    else
      var before, op := Applied(ops, start, vault, n - 1), ops[n - 1];
      if op.vault != vault || op.phase != Done(true) then before else Committed(op, before)
  }

  /** Among the first `n` calls, those of `vault` are all over. */
  ghost predicate OverBefore(ops: seq<Op>, vault: string, n: nat) {
    forall j :: 0 <= j < n && j < |ops| && ops[j].vault == vault ==> ops[j].phase.Done?
  }

  ghost predicate NoneBetween(ops: seq<Op>, vault: string, after: nat, n: nat) {
    forall j :: after < j < n && j < |ops| ==> ops[j].vault != vault
  }

  /** `previous` is the last of the first `n` calls of `vault`; None means that all of them are over. */
  ghost predicate Follows(ops: seq<Op>, vault: string, previous: Option<OpId>, n: nat) {
    match previous
    case Some(p) => p < n && p < |ops| && ops[p].vault == vault && NoneBetween(ops, vault, p, n)
    case None => OverBefore(ops, vault, n)
  }

  ghost predicate OpOk(s: State, id: OpId)
    requires id < |s.ops|
  {
    var op := s.ops[id];
    && MutationOk(op.mutation)
    && Follows(s.ops, op.vault, op.previous, id)
    && (!op.phase.Waiting? ==> OverBefore(s.ops, op.vault, id))
    && (op.phase.Loading? ==> op.phase.snapshot == Stored(s.store, op.vault))
    && (op.phase.Saving? ==> ChangeOf(op.mutation, Stored(s.store, op.vault)) == Save(op.phase.list))
  }

  ghost predicate OpsOk(s: State) {
    forall id: nat :: id < |s.ops| ==> OpOk(s, id)
  }

  ghost predicate TailsOk(s: State) {
    forall vault :: Follows(s.ops, vault, Tail(s.tails, vault), |s.ops|)
  }

  ghost predicate GetsOk(s: State) {
    forall g :: g in s.gets ==> g.callsBefore <= |s.ops| && Follows(s.ops, g.vault, g.previous, g.callsBefore)
  }

  ghost predicate StoreOk(s: State, initial: map<string, Paths>) {
    forall vault :: Stored(s.store, vault) == Applied(s.ops, Stored(initial, vault), vault, |s.ops|)
                    && WellFormed(Stored(s.store, vault))
  }

  ghost predicate Invariant(s: State, initial: map<string, Paths>) {
    OpsOk(s) && TailsOk(s) && GetsOk(s) && StoreOk(s, initial)
  }

  /** Two sections from load to save of one vault never overlap. */
  lemma {:induction false} SectionsNeverOverlap(s: State, i: OpId, j: OpId)
    requires OpsOk(s) && i < |s.ops| && j < |s.ops| && s.ops[i].vault == s.ops[j].vault
    requires (s.ops[i].phase.Loading? || s.ops[i].phase.Saving?) && (s.ops[j].phase.Loading? || s.ops[j].phase.Saving?)
    ensures i == j
  {
    assert OpOk(s, i) && OpOk(s, j);
  }

  /** An operation starts exactly when all earlier calls on its vault are over, whatever tails were deleted. */
  lemma {:induction false} StartsInOrder(s: State, id: OpId)
    requires OpsOk(s) && id < |s.ops| && s.ops[id].phase.Waiting?
    ensures Ready(s.ops, s.ops[id].previous) <==> OverBefore(s.ops, s.ops[id].vault, id)
  {
    assert OpOk(s, id);
    FollowsReady(s, s.ops[id].vault, s.ops[id].previous, id);
  }

  lemma {:induction false} FollowsReady(s: State, vault: string, previous: Option<OpId>, n: nat)
    requires OpsOk(s) && n <= |s.ops| && Follows(s.ops, vault, previous, n)
    ensures Ready(s.ops, previous) <==> OverBefore(s.ops, vault, n)
  {
    if previous.Some? {
      assert OpOk(s, previous.value);
    }
  }

  /**
   * A read can be answered exactly when every mutation called before it is over; the answer is the
   * list with all the mutations applied that have succeeded so far.
   */
  lemma {:induction false} GetSeesEarlierCalls(s: State, g: nat, initial: map<string, Paths>)
    requires Invariant(s, initial) && g < |s.gets| && s.gets[g].answer.None? && IsVaultId(s.gets[g].vault)
    ensures var s', get := Step(s, AnswerGet(g)), s.gets[g];
            && (s'.gets[g].answer.Some? <==> OverBefore(s.ops, get.vault, get.callsBefore))
            && (s'.gets[g].answer.Some? ==>
                  s'.gets[g].answer.value == Applied(s.ops, Stored(initial, get.vault), get.vault, |s.ops|))
  {
    assert s.gets[g] in s.gets;
    FollowsReady(s, s.gets[g].vault, s.gets[g].previous, s.gets[g].callsBefore);
    hide OpsOk, TailsOk, WellFormed;
  }

  lemma {:induction false} AppliedSame(a: seq<Op>, b: seq<Op>, start: Paths, vault: string, n: nat)
    requires n <= |a| && n <= |b|
    requires forall i :: 0 <= i < n ==> a[i].vault == b[i].vault && a[i].mutation == b[i].mutation
    requires forall i :: 0 <= i < n && a[i].vault == vault ==> (a[i].phase == Done(true) <==> b[i].phase == Done(true))
    ensures Applied(a, start, vault, n) == Applied(b, start, vault, n)
    decreases n
  {
    hide ChangeOf, OnlyPhase;
    if n > 0 {
      AppliedSame(a, b, start, vault, n - 1);
    }
  }

  lemma {:induction false} AppliedIdle(ops: seq<Op>, start: Paths, vault: string, from: nat, n: nat)
    requires from <= n <= |ops| && forall i :: from <= i < n && ops[i].vault == vault ==> ops[i].phase != Done(true)
    ensures Applied(ops, start, vault, n) == Applied(ops, start, vault, from)
    decreases n
  {
    hide Committed;
    if from < n {
      AppliedIdle(ops, start, vault, from, n - 1);
    }
  }

  /** The ghost of the step of one operation: only its phase changes, and it never leaves `Done`. */
  ghost predicate OnlyPhase(a: seq<Op>, b: seq<Op>, id: OpId) {
    && id < |a| && |a| == |b| && a[id].vault == b[id].vault && a[id].mutation == b[id].mutation && a[id].previous == b[id].previous
    && (forall j :: 0 <= j < |a| && j != id ==> a[j] == b[j])
    && !a[id].phase.Done?
  }

  lemma {:induction false} FollowsKept(a: seq<Op>, b: seq<Op>, id: OpId, vault: string, previous: Option<OpId>, n: nat)
    requires OnlyPhase(a, b, id)
    ensures OverBefore(a, vault, n) ==> OverBefore(b, vault, n)
    ensures Follows(a, vault, previous, n) ==> Follows(b, vault, previous, n)
  {
    if OverBefore(a, vault, n) {
      forall j | 0 <= j < n && j < |b| && b[j].vault == vault ensures b[j].phase.Done? {
        assert a[j].vault == vault;
      }
    }
  }

  /** An operation moves on: tails and reads are not disturbed. */
  lemma {:induction false} MoveKeepsQueues(s: State, s': State, id: OpId)
    requires OnlyPhase(s.ops, s'.ops, id) && s'.tails == s.tails && s'.gets == s.gets
    ensures TailsOk(s) ==> TailsOk(s')
    ensures GetsOk(s) ==> GetsOk(s')
  {
    if TailsOk(s) {
      forall vault ensures Follows(s'.ops, vault, Tail(s'.tails, vault), |s'.ops|) {
        FollowsKept(s.ops, s'.ops, id, vault, Tail(s.tails, vault), |s.ops|);
      }
    }
    if GetsOk(s) {
      forall g | g in s'.gets ensures g.callsBefore <= |s'.ops| && Follows(s'.ops, g.vault, g.previous, g.callsBefore) {
        FollowsKept(s.ops, s'.ops, id, g.vault, g.previous, g.callsBefore);
      }
    }
  }

  /** The others are not disturbed either: if the store of this vault changes, none of them has read it. */
  lemma {:induction false} MoveKeepsOthers(s: State, s': State, id: OpId)
    requires OpsOk(s) && OnlyPhase(s.ops, s'.ops, id) && OpOk(s', id)
    requires forall vault :: Stored(s'.store, vault) == Stored(s.store, vault)
                             || (vault == s.ops[id].vault && !s.ops[id].phase.Waiting?)
    ensures OpsOk(s')
  {
    forall j: nat | j < |s'.ops| ensures OpOk(s', j) {
      if j != id {
        assert OpOk(s, j) && OpOk(s, id);
        FollowsKept(s.ops, s'.ops, id, s.ops[j].vault, s.ops[j].previous, j);
        Undisturbed(s, id, j);
      }
    }
  }

  lemma Undisturbed(s: State, id: OpId, j: OpId)
    requires id < |s.ops| && j < |s.ops| && j != id && OpOk(s, j) && OpOk(s, id)
    ensures s.ops[j].vault == s.ops[id].vault && !s.ops[id].phase.Waiting? && !s.ops[id].phase.Done? ==>
      s.ops[j].phase.Waiting? || s.ops[j].phase.Done?
  {
  }

  lemma {:induction false} StoreKept(s: State, s': State, id: OpId, initial: map<string, Paths>)
    requires StoreOk(s, initial) && OnlyPhase(s.ops, s'.ops, id) && s'.store == s.store && s'.ops[id].phase != Done(true)
    ensures StoreOk(s', initial)
  {
    forall vault ensures Stored(s'.store, vault) == Applied(s'.ops, Stored(initial, vault), vault, |s'.ops|)
                         && WellFormed(Stored(s'.store, vault)) {
      AppliedSame(s.ops, s'.ops, Stored(initial, vault), vault, |s.ops|);
    }
  }

  /** The operation succeeds; it is the last of its vault that is over, so its effect comes last. */
  lemma {:induction false} AppliedMoves(s: State, s': State, id: OpId, start: Paths)
    requires OpsOk(s) && OnlyPhase(s.ops, s'.ops, id) && s'.ops[id].phase == Done(true)
    ensures Applied(s'.ops, start, s.ops[id].vault, |s'.ops|)
            == Committed(s.ops[id], Applied(s.ops, start, s.ops[id].vault, |s.ops|))
  {
    var vault := s.ops[id].vault;
    LaterNotDone(s, id);
    hide OpsOk, Committed;
    AppliedIdle(s.ops, start, vault, id, |s.ops|);
    AppliedIdle(s'.ops, start, vault, id + 1, |s.ops|);
    AppliedSame(s.ops, s'.ops, start, vault, id);
    CommittedAlike(s.ops[id], s'.ops[id], Applied(s.ops, start, vault, id));
  }

  lemma CommittedAlike(a: Op, b: Op, stored: Paths)
    requires a.mutation == b.mutation
    ensures Committed(a, stored) == Committed(b, stored)
  {
    hide ChangeOf;
  }

  lemma {:induction false} CommittedIsWellFormed(op: Op, stored: Paths)
    requires MutationOk(op.mutation) && WellFormed(stored)
    ensures WellFormed(Committed(op, stored))
  {
    ChangeIsWellFormed(stored, op.mutation);
    hide ChangeOf, WellFormed, MutationOk;
  }

  /** The store after `op` has succeeded: the list of its vault, and no other, has changed. */
  ghost predicate CommittedTo(s: State, op: Op, store: map<string, Paths>) {
    forall vault :: Stored(store, vault) == (if vault == op.vault then Committed(op, Stored(s.store, vault)) else Stored(s.store, vault))
  }

  lemma {:induction false} StoreMoves(s: State, s': State, id: OpId, initial: map<string, Paths>)
    requires OpsOk(s) && StoreOk(s, initial) && OnlyPhase(s.ops, s'.ops, id) && s'.ops[id].phase == Done(true)
    requires CommittedTo(s, s.ops[id], s'.store)
    ensures StoreOk(s', initial)
  {
    assert OpOk(s, id);
    AppliedMoves(s, s', id, Stored(initial, s.ops[id].vault));
    CommittedIsWellFormed(s.ops[id], Stored(s.store, s.ops[id].vault));
    hide Committed, WellFormed, MutationOk, OpsOk, OpOk, Stored;
    forall vault ensures Stored(s'.store, vault) == Applied(s'.ops, Stored(initial, vault), vault, |s'.ops|)
                         && WellFormed(Stored(s'.store, vault)) {
      if vault != s.ops[id].vault {
        AppliedSame(s.ops, s'.ops, Stored(initial, vault), vault, |s.ops|);
      }
    }
  }

  lemma {:induction false} LaterNotDone(s: State, id: OpId)
    requires OpsOk(s) && id < |s.ops| && !s.ops[id].phase.Done?
    ensures forall j :: id <= j < |s.ops| && s.ops[j].vault == s.ops[id].vault ==> s.ops[j].phase != Done(true)
  {
    forall j: nat | id <= j < |s.ops| && s.ops[j].vault == s.ops[id].vault ensures s.ops[j].phase != Done(true) {
      assert OpOk(s, j);
    }
  }

  lemma {:induction false} MoveIsOnlyPhase(s: State, id: OpId, phase: Phase)
    requires id < |s.ops| && !s.ops[id].phase.Done?
    ensures OnlyPhase(s.ops, Move(s, id, phase).ops, id)
  {
  }

  /** An operation that moves on keeps the invariant when it fits into the new state itself. */
  lemma {:induction false} MoveKeeps(s: State, id: OpId, phase: Phase, store: map<string, Paths>, initial: map<string, Paths>)
    requires Invariant(s, initial) && id < |s.ops| && !s.ops[id].phase.Done?
    requires var s' := Move(s, id, phase).(store := store); OpOk(s', id)
    requires if phase == Done(true) then CommittedTo(s, s.ops[id], store) else store == s.store
    requires s.ops[id].phase.Waiting? ==> store == s.store
    ensures Invariant(Move(s, id, phase).(store := store), initial)
  {
    var s' := Move(s, id, phase).(store := store);
    MoveIsOnlyPhase(s, id, phase);
    hide OpsOk, TailsOk, GetsOk, StoreOk, OpOk, OnlyPhase, Committed;
    MoveKeepsQueues(s, s', id);
    MoveKeepsOthers(s, s', id);
    if phase == Done(true) { StoreMoves(s, s', id, initial); } else { StoreKept(s, s', id, initial); }
  }

  lemma {:induction false} StartKeeps(s: State, id: OpId, initial: map<string, Paths>)
    requires Invariant(s, initial) && id < |s.ops| && s.ops[id].phase.Waiting? && Ready(s.ops, s.ops[id].previous)
    ensures Invariant(Step(s, Start(id)), initial)
  {
    StartsInOrder(s, id);
    assert OpOk(s, id);
    var phase := Loading(Stored(s.store, s.ops[id].vault));
    OpMoves(s, id, phase, s.store);
    assert Step(s, Start(id)) == Move(s, id, phase).(store := s.store);
    hide Invariant, OpOk, Step, Committed;
    MoveKeeps(s, id, phase, s.store, initial);
  }

  /** An operation fits into the new state when its new phase agrees with the store. */
  lemma {:induction false} OpMoves(s: State, id: OpId, phase: Phase, store: map<string, Paths>)
    requires id < |s.ops| && OpOk(s, id) && !s.ops[id].phase.Done? && OverBefore(s.ops, s.ops[id].vault, id)
    requires phase.Loading? ==> phase.snapshot == Stored(store, s.ops[id].vault)
    requires phase.Saving? ==> ChangeOf(s.ops[id].mutation, Stored(store, s.ops[id].vault)) == Save(phase.list)
    ensures OpOk(Move(s, id, phase).(store := store), id)
  {
    var s' := Move(s, id, phase).(store := store);
    MoveIsOnlyPhase(s, id, phase);
    FollowsKept(s.ops, s'.ops, id, s.ops[id].vault, s.ops[id].previous, id);
    hide Follows, OverBefore, ChangeOf, MutationOk;
  }

  lemma {:induction false} LoadedKeeps(s: State, id: OpId, ok: bool, initial: map<string, Paths>)
    requires Invariant(s, initial) && id < |s.ops| && s.ops[id].phase.Loading?
    ensures Invariant(Step(s, Loaded(id, ok)), initial)
  {
    assert OpOk(s, id);
    hide ChangeOf;
    var phase := AfterLoad(s.ops[id], s.ops[id].phase.snapshot, ok);
    OpMoves(s, id, phase, s.store);
    assert Step(s, Loaded(id, ok)) == Move(s, id, phase).(store := s.store);
    hide Invariant, OpOk, Step;
    MoveKeeps(s, id, phase, s.store, initial);
  }

  lemma SaveEndedMoves(s: State, id: OpId, ok: bool)
    requires id < |s.ops| && s.ops[id].phase.Saving? && OpOk(s, id)
    ensures var store := if ok then s.store[s.ops[id].vault := s.ops[id].phase.list] else s.store;
            Step(s, SaveEnded(id, ok)) == Move(s, id, Done(ok)).(store := store) && (ok ==> CommittedTo(s, s.ops[id], store))
  {
    hide ChangeOf, MutationOk, Follows, OverBefore;
  }

  lemma {:induction false} SavedKeeps(s: State, id: OpId, ok: bool, initial: map<string, Paths>)
    requires Invariant(s, initial) && id < |s.ops| && s.ops[id].phase.Saving?
    ensures Invariant(Step(s, SaveEnded(id, ok)), initial)
  {
    assert OpOk(s, id);
    hide ChangeOf;
    var store := if ok then s.store[s.ops[id].vault := s.ops[id].phase.list] else s.store;
    OpMoves(s, id, Done(ok), store);
    SaveEndedMoves(s, id, ok);
    hide Invariant, OpOk, Step, Move, CommittedTo, Committed;
    MoveKeeps(s, id, Done(ok), store, initial);
  }

  lemma {:induction false} FollowsPush(ops: seq<Op>, op: Op, vault: string, previous: Option<OpId>, n: nat)
    requires n <= |ops| && Follows(ops, vault, previous, n)
    ensures Follows(ops + [op], vault, previous, n)
    ensures op.vault != vault && n == |ops| ==> Follows(ops + [op], vault, previous, n + 1)
  {
    var ops' := ops + [op];
    assert forall j :: 0 <= j < n ==> ops'[j] == ops[j];
  }

  lemma {:induction false} EnqueueOps(s: State, vault: string, mutation: Mutation)
    requires OpsOk(s) && TailsOk(s) && MutationOk(mutation)
    ensures OpsOk(Enqueue(s, vault, mutation))
  {
    var s', n := Enqueue(s, vault, mutation), |s.ops|;
    var op := s'.ops[n];
    hide MutationOk, WellFormed, ChangeOf;
    FollowsPush(s.ops, op, vault, op.previous, n);
    forall id: nat | id < |s'.ops| ensures OpOk(s', id) {
      if id < n {
        assert OpOk(s, id);
        FollowsPush(s.ops, op, s.ops[id].vault, s.ops[id].previous, id);
      }
    }
  }

  lemma {:induction false} EnqueueQueues(s: State, vault: string, mutation: Mutation)
    requires TailsOk(s) && GetsOk(s)
    ensures TailsOk(Enqueue(s, vault, mutation)) && GetsOk(Enqueue(s, vault, mutation))
  {
    var s', n := Enqueue(s, vault, mutation), |s.ops|;
    var op := s'.ops[n];
    forall v ensures Follows(s'.ops, v, Tail(s'.tails, v), |s'.ops|) {
      FollowsPush(s.ops, op, v, Tail(s.tails, v), n);
    }
    hide TailsOk;
    forall g | g in s'.gets ensures g.callsBefore <= |s'.ops| && Follows(s'.ops, g.vault, g.previous, g.callsBefore) {
      FollowsPush(s.ops, op, g.vault, g.previous, g.callsBefore);
    }
  }

  lemma {:induction false} EnqueueStore(s: State, vault: string, mutation: Mutation, initial: map<string, Paths>)
    requires StoreOk(s, initial)
    ensures StoreOk(Enqueue(s, vault, mutation), initial)
  {
    var s', n := Enqueue(s, vault, mutation), |s.ops|;
    hide WellFormed, ChangeOf;
    forall v ensures Stored(s'.store, v) == Applied(s'.ops, Stored(initial, v), v, |s'.ops|) && WellFormed(Stored(s'.store, v)) {
      AppliedSame(s.ops, s'.ops, Stored(initial, v), v, n);
      AppliedIdle(s'.ops, Stored(initial, v), v, n, n + 1);
    }
  }

  lemma {:induction false} EnqueueKeeps(s: State, vault: string, mutation: Mutation, initial: map<string, Paths>)
    requires Invariant(s, initial) && MutationOk(mutation)
    ensures Invariant(Enqueue(s, vault, mutation), initial)
  {
    hide OpsOk, TailsOk, GetsOk, StoreOk, MutationOk, Enqueue;
    EnqueueOps(s, vault, mutation);
    EnqueueQueues(s, vault, mutation);
    EnqueueStore(s, vault, mutation, initial);
  }

  /** Deleting the tail of a finished queue leaves a vault whose calls are all over. */
  lemma {:induction false} CleanupKeeps(s: State, id: OpId, initial: map<string, Paths>)
    requires Invariant(s, initial) && id < |s.ops| && s.ops[id].phase.Done? && Tail(s.tails, s.ops[id].vault) == Some(id)
    ensures Invariant(Step(s, Cleanup(id)), initial)
  {
    var s' := Step(s, Cleanup(id));
    var vault := s.ops[id].vault;
    assert Follows(s.ops, vault, Some(id), |s.ops|);
    FollowsReady(s, vault, Some(id), |s.ops|);
    forall v ensures Follows(s'.ops, v, Tail(s'.tails, v), |s'.ops|) {
      assert Follows(s.ops, v, Tail(s.tails, v), |s.ops|);
    }
    SameOps(s, s', initial);
  }

  /** A call that is over gives up the tail of its vault, unless a later call has taken it; no other tail is touched. */
  lemma {:induction false} CleanupDeletes(s: State, id: OpId, v: string)
    requires id < |s.ops| && s.ops[id].phase.Done?
    ensures var s', vault := Step(s, Cleanup(id)), s.ops[id].vault;
            && s' == s.(tails := s'.tails)
            && (v in s'.tails <==> v in s.tails && !(v == vault && s.tails[v] == id))
            && (v in s'.tails ==> s'.tails[v] == s.tails[v])
  {
  }

  lemma {:induction false} SameOps(s: State, s': State, initial: map<string, Paths>)
    requires OpsOk(s) && GetsOk(s) && StoreOk(s, initial) && s'.ops == s.ops && s'.store == s.store
    ensures OpsOk(s') && StoreOk(s', initial)
    ensures s'.gets == s.gets ==> GetsOk(s')
  {
    forall id: nat | id < |s'.ops| ensures OpOk(s', id) {
      assert OpOk(s, id);
    }
  }

  lemma {:induction false} GetKeeps(s: State, event: Event, initial: map<string, Paths>)
    requires Invariant(s, initial) && (event.CallGet? || event.AnswerGet?)
    ensures Invariant(Step(s, event), initial)
  {
    var s' := Step(s, event);
    SameOps(s, s', initial);
    hide OpsOk, StoreOk, Follows;
    forall g | g in s'.gets ensures g.callsBefore <= |s'.ops| && Follows(s'.ops, g.vault, g.previous, g.callsBefore) {
      if event.CallGet? && g !in s.gets {
        assert Follows(s.ops, event.vault, Tail(s.tails, event.vault), |s.ops|);
      } else if event.AnswerGet? && g !in s.gets {
        assert s.gets[event.get] in s.gets;
      }
    }
    assert TailsOk(s');
  }

  lemma {:induction false} StepKeeps(s: State, event: Event, initial: map<string, Paths>)
    requires Invariant(s, initial)
    ensures Invariant(Step(s, event), initial)
  {
    hide Invariant, NormalizeBookmarkPath;
    match event {
      case CallSet(vault, path, bookmarked) =>
        var normalized := NormalizeBookmarkPath(path);
        if normalized.Some? { EnqueueKeeps(s, vault, Set(normalized.value, bookmarked), initial); }
      case CallRemap(vault, source, target) =>
        var from, to := NormalizeBookmarkPath(source), NormalizeBookmarkPath(target);
        if from.Some? && to.Some? { EnqueueKeeps(s, vault, Remap(from.value, to.value), initial); }
      case Start(id) =>
        if id < |s.ops| && s.ops[id].phase.Waiting? && Ready(s.ops, s.ops[id].previous) { StartKeeps(s, id, initial); }
      case Loaded(id, ok) =>
        if id < |s.ops| && s.ops[id].phase.Loading? { LoadedKeeps(s, id, ok, initial); }
      case SaveEnded(id, ok) =>
        if id < |s.ops| && s.ops[id].phase.Saving? { SavedKeeps(s, id, ok, initial); }
      case Cleanup(id) =>
        if id < |s.ops| && s.ops[id].phase.Done? && Tail(s.tails, s.ops[id].vault) == Some(id) { CleanupKeeps(s, id, initial); }
      case CallGet(_) => GetKeeps(s, event, initial);
      case AnswerGet(_) => GetKeeps(s, event, initial);
    }
  }

  lemma InitialInvariant(store: map<string, Paths>)
    requires forall vault :: WellFormed(Stored(store, vault))
    ensures Invariant(Initial(store), store)
  {
  }

  /**
   * Over every interleaving of calls, loads, saves, failures and cleanups, the stored list of every
   * vault is the successful calls applied in call order, and it is a well-formed list.
   */
  lemma {:induction false} RunKeeps(s: State, events: seq<Event>, initial: map<string, Paths>)
    requires Invariant(s, initial)
    ensures Invariant(After(s, events), initial)
    decreases |events|
  {
    hide Invariant, Step;
    if events != [] {
      StepKeeps(s, events[0], initial);
      RunKeeps(Step(s, events[0]), events[1..], initial);
    }
  }

  // ---------- what reads answer ----------

  /** The list of a vault after exactly its first `n` calls, all of which are over. */
  ghost predicate ListAfter(ops: seq<Op>, initial: map<string, Paths>, vault: string, n: nat, list: Paths) {
    n <= |ops| && OverBefore(ops, vault, n) && list == Applied(ops, Stored(initial, vault), vault, n)
  }

  /** A read that was answered shows the list after some first calls, all those before the read among them. */
  ghost predicate AnswerOk(ops: seq<Op>, initial: map<string, Paths>, g: Get) {
    g.answer.Some? ==> exists n: nat :: g.callsBefore <= n && ListAfter(ops, initial, g.vault, n, g.answer.value)
  }

  ghost predicate AnswersOk(s: State, initial: map<string, Paths>) {
    forall g :: g in s.gets ==> AnswerOk(s.ops, initial, g)
  }

  /** The calls of a vault that are over stay so, and what they made of the list does too. */
  lemma {:induction false} MovedListAfter(a: seq<Op>, b: seq<Op>, id: OpId, initial: map<string, Paths>, vault: string, n: nat, list: Paths)
    requires OnlyPhase(a, b, id) && ListAfter(a, initial, vault, n, list)
    ensures ListAfter(b, initial, vault, n, list)
  {
    FollowsKept(a, b, id, vault, None, n);
    AppliedSame(a, b, Stored(initial, vault), vault, n);
  }

  lemma {:induction false} PushedListAfter(ops: seq<Op>, op: Op, initial: map<string, Paths>, vault: string, n: nat, list: Paths)
    requires ListAfter(ops, initial, vault, n, list)
    ensures ListAfter(ops + [op], initial, vault, n, list)
  {
    AppliedSame(ops, ops + [op], Stored(initial, vault), vault, n);
  }

  lemma {:induction false} MoveKeepsAnswers(s: State, s': State, id: OpId, initial: map<string, Paths>)
    requires AnswersOk(s, initial) && OnlyPhase(s.ops, s'.ops, id) && s'.gets == s.gets
    ensures AnswersOk(s', initial)
  {
    hide OnlyPhase, ListAfter;
    forall g | g in s'.gets && g.answer.Some? ensures AnswerOk(s'.ops, initial, g) {
      assert AnswerOk(s.ops, initial, g);
      var n: nat :| g.callsBefore <= n && ListAfter(s.ops, initial, g.vault, n, g.answer.value);
      MovedListAfter(s.ops, s'.ops, id, initial, g.vault, n, g.answer.value);
    }
  }

  lemma {:induction false} EnqueueKeepsAnswers(s: State, vault: string, mutation: Mutation, initial: map<string, Paths>)
    requires AnswersOk(s, initial)
    ensures AnswersOk(Enqueue(s, vault, mutation), initial)
  {
    var s' := Enqueue(s, vault, mutation);
    hide ListAfter;
    forall g | g in s'.gets && g.answer.Some? ensures AnswerOk(s'.ops, initial, g) {
      assert AnswerOk(s.ops, initial, g);
      var n: nat :| g.callsBefore <= n && ListAfter(s.ops, initial, g.vault, n, g.answer.value);
      PushedListAfter(s.ops, s'.ops[|s.ops|], initial, g.vault, n, g.answer.value);
    }
  }

  /** The first call of a vault from `from` on that is not over. */
  lemma {:induction false} FirstOpen(ops: seq<Op>, vault: string, from: nat) returns (n: nat)
    requires from <= |ops| && OverBefore(ops, vault, from)
    ensures from <= n <= |ops| && OverBefore(ops, vault, n)
    ensures n < |ops| ==> ops[n].vault == vault && !ops[n].phase.Done?
    decreases |ops| - from
  {
    if from == |ops| || (ops[from].vault == vault && !ops[from].phase.Done?) {
      n := from;
    } else {
      n := FirstOpen(ops, vault, from + 1);
    }
  }

  /** What is stored now is the list after the calls before the first that is not over. */
  lemma {:induction false} StoredListAfter(s: State, initial: map<string, Paths>, vault: string, from: nat)
    requires Invariant(s, initial) && from <= |s.ops| && OverBefore(s.ops, vault, from)
    ensures exists n: nat :: from <= n && ListAfter(s.ops, initial, vault, n, Stored(s.store, vault))
  {
    var n := FirstOpen(s.ops, vault, from);
    if n < |s.ops| { LaterNotDone(s, n); }
    hide OpsOk, TailsOk, GetsOk, WellFormed, OverBefore;
    AppliedIdle(s.ops, Stored(initial, vault), vault, n, |s.ops|);
    assert Stored(s.store, vault) == Applied(s.ops, Stored(initial, vault), vault, |s.ops|);
    assert ListAfter(s.ops, initial, vault, n, Stored(s.store, vault));
  }

  lemma {:induction false} AnswerKeepsAnswers(s: State, get: nat, initial: map<string, Paths>)
    requires Invariant(s, initial) && AnswersOk(s, initial)
    ensures AnswersOk(Step(s, AnswerGet(get)), initial)
  {
    var s' := Step(s, AnswerGet(get));
    if s'.gets != s.gets {
      var vault := s.gets[get].vault;
      assert s.gets[get] in s.gets;
      FollowsReady(s, vault, s.gets[get].previous, s.gets[get].callsBefore);
      hide OpsOk, TailsOk, StoreOk, ListAfter;
      StoredListAfter(s, initial, vault, s.gets[get].callsBefore);
      forall g | g in s'.gets ensures AnswerOk(s'.ops, initial, g) {
        var i :| 0 <= i < |s'.gets| && s'.gets[i] == g;
        if i != get {
          assert s.gets[i] in s.gets;
        }
      }
    }
  }

  lemma {:induction false} StepKeepsAnswers(s: State, event: Event, initial: map<string, Paths>)
    requires Invariant(s, initial) && AnswersOk(s, initial)
    ensures AnswersOk(Step(s, event), initial)
  {
    hide Invariant, NormalizeBookmarkPath, OnlyPhase, Enqueue;
    var s' := Step(s, event);
    match event {
      case CallSet(vault, path, bookmarked) =>
        var normalized := NormalizeBookmarkPath(path);
        if normalized.Some? { EnqueueKeepsAnswers(s, vault, Set(normalized.value, bookmarked), initial); }
      case CallRemap(vault, source, target) =>
        var from, to := NormalizeBookmarkPath(source), NormalizeBookmarkPath(target);
        if from.Some? && to.Some? { EnqueueKeepsAnswers(s, vault, Remap(from.value, to.value), initial); }
      case Start(id) => PhaseKeepsAnswers(s, event, id, initial);
      case Loaded(id, ok) => PhaseKeepsAnswers(s, event, id, initial);
      case SaveEnded(id, ok) => PhaseKeepsAnswers(s, event, id, initial);
      case Cleanup(id) =>
      case CallGet(_) => NewReadKeepsAnswers(s, event, initial);
      case AnswerGet(g) => AnswerKeepsAnswers(s, g, initial);
    }
  }

  lemma NewReadKeepsAnswers(s: State, event: Event, initial: map<string, Paths>)
    requires AnswersOk(s, initial) && event.CallGet?
    ensures AnswersOk(Step(s, event), initial)
  {
    hide ListAfter;
  }

  lemma {:induction false} PhaseKeepsAnswers(s: State, event: Event, id: OpId, initial: map<string, Paths>)
    requires AnswersOk(s, initial) && (event == Start(id) || (event.Loaded? && event.id == id) || (event.SaveEnded? && event.id == id))
    ensures AnswersOk(Step(s, event), initial)
  {
    var s' := Step(s, event);
    if s' != s {
      MoveIsOnlyPhase(s, id, s'.ops[id].phase);
      assert s'.ops == Move(s, id, s'.ops[id].phase).ops;
      hide OnlyPhase, AnswersOk, Move;
      MoveKeepsAnswers(s, s', id, initial);
    }
  }

  /**
   * From a store of well-formed lists and over every interleaving of calls, failures and cleanups:
   * the stored list of every vault is the successful calls in call order, and every read that was
   * answered shows the list after some first calls, among them all that were made before it.
   */
  lemma {:induction false} RunsFromTheStart(store: map<string, Paths>, events: seq<Event>)
    requires forall vault :: WellFormed(Stored(store, vault))
    ensures Invariant(After(Initial(store), events), store) && AnswersOk(After(Initial(store), events), store)
  {
    InitialInvariant(store);
    hide Invariant, AnswersOk, Stored, WellFormed;
    assert AnswersOk(Initial(store), store) by { NothingAnswered(store); }
    RunKeeps(Initial(store), events, store);
    RunAnswers(Initial(store), events, store);
  }

  lemma NothingAnswered(store: map<string, Paths>)
    ensures AnswersOk(Initial(store), store)
  {
  }

  lemma {:induction false} RunAnswers(s: State, events: seq<Event>, initial: map<string, Paths>)
    requires Invariant(s, initial) && AnswersOk(s, initial)
    ensures AnswersOk(After(s, events), initial)
    decreases |events|
  {
    hide Invariant, AnswersOk, Step;
    if events != [] {
      StepKeeps(s, events[0], initial);
      StepKeepsAnswers(s, events[0], initial);
      RunAnswers(Step(s, events[0]), events[1..], initial);
    }
  }

  // ---------- what was asked for ----------

  /** What an accepted call asks for, with its paths in normal form. */
  datatype Request =
    | Add(vault: string, path: string)
    | Drop(vault: string, path: string)
    | Replace(vault: string, source: string, target: string)

  /** The calls of a run that were accepted, in the order they were made. */
  function Requests(events: seq<Event>): seq<Request> {
    if events == [] then []
    else
      (match events[0]
       case CallSet(vault, path, bookmarked) =>
         (match NormalizeBookmarkPath(path)
          case Some(p) => [if bookmarked then Add(vault, p) else Drop(vault, p)]
          case None => [])
       case CallRemap(vault, source, target) =>
         (match (NormalizeBookmarkPath(source), NormalizeBookmarkPath(target))
          case (Some(from), Some(to)) => [Replace(vault, from, to)]
          case _ => [])
       case _ => [])
      + Requests(events[1..])
  }

  /** The list without two paths. */
  function Dropped(list: Paths, a: string, b: string): Paths {
    if list == [] then []
    else if list[0] == a || list[0] == b then Dropped(list[1..], a, b)
    else [list[0]] + Dropped(list[1..], a, b)
  }

  /** The first of the two paths becomes the target, and the other one goes. */
  function Merged(list: Paths, source: string, target: string): Paths {
    if list == [] then []
    else if list[0] == source || list[0] == target then [target] + Dropped(list[1..], source, target)
    else [list[0]] + Merged(list[1..], source, target)
  }

  /** The list that a request asks for. */
  function Wanted(request: Request, list: Paths): Paths {
    match request
    case Add(_, path) => if path in list then list else list + [path]
    case Drop(_, path) => Dropped(list, path, path)
    case Replace(_, source, target) => Merged(list, source, target)
  }

  /** Whether the list can take the path that a request brings in. */
  predicate Fits(request: Request, list: Paths) {
    match request
    case Add(_, path) => |list| < 2048 && !DriveAbsolute(path)
    case Drop(_, _) => true
    case Replace(_, _, target) => !DriveAbsolute(target)
  }

  /** The requests for `vault` among the first `n` whose call succeeded, carried out one by one. */
  function Granted(requests: seq<Request>, ops: seq<Op>, start: Paths, vault: string, n: nat): Paths
    requires n <= |requests| && n <= |ops|
  {
    if n == 0 then start
    else
      var before := Granted(requests, ops, start, vault, n - 1);
      if requests[n - 1].vault == vault && ops[n - 1].phase == Done(true) then Wanted(requests[n - 1], before) else before
  }

  /** What a request means for each path, and that the other paths stay in their order. */
  lemma {:induction false} WantedMeans(request: Request, list: Paths, p: string)
    requires NoRepeats(list)
    ensures var wanted := Wanted(request, list);
            match request
            case Add(_, path) => (p in wanted <==> p in list || p == path) && list <= wanted
            case Drop(_, path) => (p in wanted <==> p in list && p != path)
            case Replace(_, source, target) =>
              && (source in list ==> (p in wanted <==> (p in list && p != source) || p == target))
              && (source !in list ==> wanted == list)
              && Dropped(wanted, source, target) == Dropped(list, source, target)
  {
    match request {
      case Add(_, _) =>
      case Drop(_, path) => DroppedMembers(list, path, path);
      case Replace(_, source, target) =>
        MergedMembers(list, source, target);
        if source !in list { MergedIdle(list, source, target); }
    }
  }

  lemma {:induction false} DroppedMembers(list: Paths, a: string, b: string)
    ensures forall p :: p in Dropped(list, a, b) <==> p in list && p != a && p != b
    ensures Dropped(Dropped(list, a, b), a, b) == Dropped(list, a, b)
    ensures Dropped(list, a, b) == Without(Without(list, a), b)
    ensures a !in list && b !in list ==> Dropped(list, a, b) == list
    decreases |list|
  {
    if list != [] {
      DroppedMembers(list[1..], a, b);
      HeadTail(list);
      DroppedCons(list[0], Dropped(list[1..], a, b), a, b);
      WithoutCons(list[0], Without(list[1..], a), b);
    }
  }

  lemma DroppedCons(x: string, rest: Paths, a: string, b: string)
    ensures Dropped([x] + rest, a, b) == (if x == a || x == b then Dropped(rest, a, b) else [x] + Dropped(rest, a, b))
  {
    assert ([x] + rest)[1..] == rest;
  }

  lemma {:induction false} MergedMembers(list: Paths, source: string, target: string)
    ensures forall p :: p in Merged(list, source, target) <==>
                        (p in list && p != source) || (p == target && source in list)
    ensures Dropped(Merged(list, source, target), source, target) == Dropped(list, source, target)
    decreases |list|
  {
    if list != [] {
      var rest := list[1..];
      DroppedMembers(rest, source, target);
      MergedMembers(rest, source, target);
      HeadTail(list);
      DroppedCons(target, Dropped(rest, source, target), source, target);
      DroppedCons(list[0], Merged(rest, source, target), source, target);
    }
  }

  lemma {:induction false} MergedIdle(list: Paths, source: string, target: string)
    requires NoRepeats(list) && (source == target || source !in list)
    ensures Merged(list, source, target) == list
    decreases |list|
  {
    if list != [] {
      HeadTail(list);
      if list[0] == target {
        DroppedMembers(list[1..], source, target);
      } else {
        MergedIdle(list[1..], source, target);
      }
    }
  }

  /** Renaming and then keeping the first of each is merging the two paths in place. */
  lemma {:induction false} FirstsIsMerged(list: Paths, source: string, target: string)
    requires NoRepeats(list)
    ensures Firsts(Renamed(list, source, target)) == Merged(list, source, target)
    decreases |list|
  {
    if list != [] {
      var rest := list[1..];
      var renamed := Renamed(rest, source, target);
      var x := if list[0] == source then target else list[0];
      assert ([x] + renamed)[1..] == renamed;
      RenamedMembers(rest, source, target);
      if x == target {
        RenamedOthers(rest, source, target);
        WithoutMembers(rest, source);
        WithoutMembers(Without(rest, source), target);
        FirstsOfDistinct(Without(renamed, target));
        DroppedMembers(rest, source, target);
      } else {
        WithoutTwice(renamed, x, x);
        FirstsIsMerged(rest, source, target);
      }
    }
  }

  /** The mutation that is enqueued for a request. */
  predicate Asks(op: Op, request: Request) {
    op.vault == request.vault &&
    match request
    case Add(_, path) => op.mutation == Set(path, true)
    case Drop(_, path) => op.mutation == Set(path, false)
    case Replace(_, source, target) => op.mutation == Remap(source, target)
  }

  /** A change is the list asked for, or nothing when that is there already; it is rejected when it does not fit. */
  lemma {:induction false} ChangeIsWanted(list: Paths, op: Op, request: Request)
    requires WellFormed(list) && MutationOk(op.mutation) && Asks(op, request)
    ensures ChangeOf(op.mutation, list) ==
            if Wanted(request, list) == list then Unchanged
            else if Fits(request, list) then Save(Wanted(request, list)) else Rejected
  {
    hide NormalizeBookmarkPath, DriveAbsolute, Without, NoRepeats, CreateNoteBookmarks, Renamed, Firsts, Merged, Dropped;
    match request {
      case Add(_, path) => SetChanges(list, path, true);
      case Drop(_, path) =>
        SetChanges(list, path, false);
        DroppedMembers(list, path, path);
        WithoutAgain(list, path);
        assert path in list ==> Dropped(list, path, path) != list;
      case Replace(_, source, target) =>
        RemapChanges(list, source, target);
        MergedMembers(list, source, target);
        if source == target || source !in list { MergedIdle(list, source, target); }
        assert source != target && source in list ==> Merged(list, source, target) != list;
    }
  }

  // ---------- what was granted ----------

  /** Every call that succeeded was one the list could take when its turn came. */
  ghost predicate SucceededRightly(s: State, initial: map<string, Paths>) {
    forall i: nat :: i < |s.ops| && s.ops[i].phase == Done(true) ==> Took(s.ops, initial, i)
  }

  ghost predicate Took(ops: seq<Op>, initial: map<string, Paths>, i: nat)
    requires i < |ops|
  {
    ChangeOf(ops[i].mutation, Applied(ops, Stored(initial, ops[i].vault), ops[i].vault, i)) != Rejected
  }

  lemma {:induction false} MoveSucceedsRightly(s: State, s': State, id: OpId, initial: map<string, Paths>)
    requires Invariant(s, initial) && SucceededRightly(s, initial) && OnlyPhase(s.ops, s'.ops, id)
    requires s'.ops[id].phase == Done(true) ==> ChangeOf(s.ops[id].mutation, Stored(s.store, s.ops[id].vault)) != Rejected
    ensures SucceededRightly(s', initial)
  {
    hide ChangeOf, WellFormed, TailsOk, GetsOk;
    forall i: nat | i < |s'.ops| && s'.ops[i].phase == Done(true) ensures Took(s'.ops, initial, i) {
      var vault := s.ops[i].vault;
      if i == id {
        LaterNotDone(s, id);
        AppliedIdle(s.ops, Stored(initial, vault), vault, id, |s.ops|);
        AppliedSame(s.ops, s'.ops, Stored(initial, vault), vault, id);
      } else {
        assert OpOk(s, i) && Took(s.ops, initial, i);
        EarlierIsOver(s, id, i);
        AppliedSame(s.ops, s'.ops, Stored(initial, vault), vault, i);
      }
    }
  }

  lemma EarlierIsOver(s: State, id: OpId, i: OpId)
    requires i < |s.ops| && id < |s.ops| && OpOk(s, i) && s.ops[i].phase.Done? && !s.ops[id].phase.Done?
    ensures id < i ==> s.ops[id].vault != s.ops[i].vault
  {
  }

  lemma {:induction false} EnqueueSucceedsRightly(s: State, vault: string, mutation: Mutation, initial: map<string, Paths>)
    requires SucceededRightly(s, initial)
    ensures SucceededRightly(Enqueue(s, vault, mutation), initial)
  {
    var s' := Enqueue(s, vault, mutation);
    hide ChangeOf;
    forall i: nat | i < |s'.ops| && s'.ops[i].phase == Done(true) ensures Took(s'.ops, initial, i) {
      assert Took(s.ops, initial, i);
      AppliedSame(s.ops, s'.ops, Stored(initial, s.ops[i].vault), s.ops[i].vault, i);
    }
  }

  lemma {:induction false} StepSucceedsRightly(s: State, event: Event, initial: map<string, Paths>)
    requires Invariant(s, initial) && SucceededRightly(s, initial)
    ensures SucceededRightly(Step(s, event), initial)
  {
    var s' := Step(s, event);
    hide NormalizeBookmarkPath, ChangeOf, Took, Enqueue, TailsOk, GetsOk, StoreOk;
    match event {
      case CallSet(vault, path, bookmarked) =>
        var normalized := NormalizeBookmarkPath(path);
        if normalized.Some? { EnqueueSucceedsRightly(s, vault, Set(normalized.value, bookmarked), initial); }
      case CallRemap(vault, source, target) =>
        var from, to := NormalizeBookmarkPath(source), NormalizeBookmarkPath(target);
        if from.Some? && to.Some? { EnqueueSucceedsRightly(s, vault, Remap(from.value, to.value), initial); }
      case Start(id) => PhaseSucceedsRightly(s, event, id, initial);
      case Loaded(id, ok) => PhaseSucceedsRightly(s, event, id, initial);
      case SaveEnded(id, ok) => PhaseSucceedsRightly(s, event, id, initial);
      case _ => assert s'.ops == s.ops;
    }
  }

  lemma {:induction false} PhaseSucceedsRightly(s: State, event: Event, id: OpId, initial: map<string, Paths>)
    requires Invariant(s, initial) && SucceededRightly(s, initial)
    requires event == Start(id) || (event.Loaded? && event.id == id) || (event.SaveEnded? && event.id == id)
    ensures SucceededRightly(Step(s, event), initial)
  {
    var s' := Step(s, event);
    if s' != s {
      assert OpOk(s, id);
      MoveIsOnlyPhase(s, id, s'.ops[id].phase);
      assert s'.ops == Move(s, id, s'.ops[id].phase).ops;
      hide Invariant, SucceededRightly, OnlyPhase, Move;
      MoveSucceedsRightly(s, s', id, initial);
    }
  }

  /** The operations are those that were asked for, in call order. */
  ghost predicate Enqueued(ops: seq<Op>, requests: seq<Request>) {
    |ops| == |requests| && forall i :: 0 <= i < |ops| ==> Asks(ops[i], requests[i])
  }

  lemma {:induction false} StepEnqueues(s: State, event: Event, requests: seq<Request>)
    requires Enqueued(s.ops, requests)
    ensures Enqueued(Step(s, event).ops, requests + Requests([event]))
  {
    hide NormalizeBookmarkPath, ChangeOf;
    assert Requests([]) == [];
  }

  lemma {:induction false} RunEnqueues(s: State, events: seq<Event>, requests: seq<Request>, initial: map<string, Paths>)
    requires Invariant(s, initial) && SucceededRightly(s, initial) && Enqueued(s.ops, requests)
    ensures var s' := After(s, events);
            Invariant(s', initial) && SucceededRightly(s', initial) && Enqueued(s'.ops, requests + Requests(events))
    decreases |events|
  {
    hide Invariant, SucceededRightly, Step, Enqueued;
    if events == [] {
      assert requests + [] == requests;
    } else {
      StepKeeps(s, events[0], initial);
      StepSucceedsRightly(s, events[0], initial);
      StepEnqueues(s, events[0], requests);
      RequestsSplit(events);
      Associative(requests, Requests([events[0]]), Requests(events[1..]));
      RunEnqueues(Step(s, events[0]), events[1..], requests + Requests([events[0]]), initial);
    }
  }

  lemma RequestsSplit(events: seq<Event>)
    requires events != []
    ensures Requests(events) == Requests([events[0]]) + Requests(events[1..])
  {
    hide NormalizeBookmarkPath;
    assert [events[0]][1..] == [] && Requests([]) == [];
  }

  lemma {:induction false} AppliedIsGranted(s: State, requests: seq<Request>, initial: map<string, Paths>, vault: string, n: nat)
    requires OpsOk(s) && SucceededRightly(s, initial) && Enqueued(s.ops, requests) && n <= |s.ops|
    requires WellFormed(Stored(initial, vault))
    ensures Applied(s.ops, Stored(initial, vault), vault, n) == Granted(requests, s.ops, Stored(initial, vault), vault, n)
    ensures WellFormed(Applied(s.ops, Stored(initial, vault), vault, n))
    decreases n
  {
    hide WellFormed, MutationOk, ChangeOf, Wanted, Fits, Stored;
    if n > 0 {
      AppliedIsGranted(s, requests, initial, vault, n - 1);
      var op, before := s.ops[n - 1], Applied(s.ops, Stored(initial, vault), vault, n - 1);
      assert OpOk(s, n - 1) && Asks(op, requests[n - 1]);
      if op.vault == vault && op.phase == Done(true) {
        assert Took(s.ops, initial, n - 1);
        CommittedIsWellFormed(op, before);
        ChangeIsWanted(before, op, requests[n - 1]);
      }
    }
  }

  /**
   * From a store of well-formed lists and over every interleaving: there is one operation for each
   * accepted call, in call order, and the stored list of every vault is what these calls asked for,
   * carried out one by one where they succeeded.
   */
  lemma {:induction false} StoredIsGranted(store: map<string, Paths>, events: seq<Event>, vault: string)
    requires forall v :: WellFormed(Stored(store, v))
    ensures var s, requests := After(Initial(store), events), Requests(events);
            && |s.ops| == |requests|
            && Stored(s.store, vault) == Granted(requests, s.ops, Stored(store, vault), vault, |requests|)
  {
    var s, requests := After(Initial(store), events), Requests(events);
    InitialInvariant(store);
    assert [] + requests == requests;
    hide WellFormed, Step, Initial;
    NoCallsYet(store);
    RunEnqueues(Initial(store), events, [], store);
    AppliedIsGranted(s, requests, store, vault, |requests|);
  }

  lemma NoCallsYet(store: map<string, Paths>)
    ensures SucceededRightly(Initial(store), store) && Enqueued(Initial(store).ops, [])
  {
  }

  /** The reads of a run, each with its vault and the number of calls accepted before it. */
  function Reads(events: seq<Event>, callsBefore: nat): seq<(string, nat)> {
    if events == [] then []
    else
      (if events[0].CallGet? then [(events[0].vault, callsBefore)] else [])
      + Reads(events[1..], callsBefore + |Requests([events[0]])|)
  }

  ghost predicate Asked(gets: seq<Get>, made: seq<(string, nat)>) {
    |gets| == |made| && forall i :: 0 <= i < |gets| ==> (gets[i].vault, gets[i].callsBefore) == made[i]
  }

  lemma {:induction false} StepAsks(s: State, event: Event, made: seq<(string, nat)>)
    requires Asked(s.gets, made)
    ensures Asked(Step(s, event).gets, made + if event.CallGet? then [(event.vault, |s.ops|)] else [])
    ensures |Step(s, event).ops| == |s.ops| + |Requests([event])|
  {
    hide NormalizeBookmarkPath, ChangeOf;
    assert Requests([]) == [];
  }

  lemma {:induction false} RunAsks(s: State, events: seq<Event>, made: seq<(string, nat)>)
    requires Asked(s.gets, made)
    ensures Asked(After(s, events).gets, made + Reads(events, |s.ops|))
    decreases |events|
  {
    hide Step, Asked, Requests;
    if events == [] {
      assert made + [] == made;
    } else {
      StepAsks(s, events[0], made);
      var now := if events[0].CallGet? then [(events[0].vault, |s.ops|)] else [];
      Associative(made, now, Reads(events[1..], |s.ops| + |Requests([events[0]])|));
      RunAsks(Step(s, events[0]), events[1..], made + now);
    }
  }

  /**
   * A read that was answered shows what some first calls on its vault asked for, all of them over
   * and all those made before the read among them.
   */
  lemma {:induction false} ReadsSeeGranted(store: map<string, Paths>, events: seq<Event>, i: nat)
    requires forall v :: WellFormed(Stored(store, v))
    requires i < |After(Initial(store), events).gets|
    ensures var s, requests, made := After(Initial(store), events), Requests(events), Reads(events, 0);
            && |s.ops| == |requests| && |s.gets| == |made|
            && var (vault, callsBefore) := made[i];
            s.gets[i].answer.Some? ==>
              (exists n: nat :: callsBefore <= n <= |requests| && OverBefore(s.ops, vault, n)
                 && s.gets[i].answer.value == Granted(requests, s.ops, Stored(store, vault), vault, n))
  {
    var s, requests := After(Initial(store), events), Requests(events);
    InitialInvariant(store);
    assert [] + requests == requests && [] + Reads(events, 0) == Reads(events, 0);
    hide WellFormed, Step, After, Initial, AnswersOk;
    NoCallsYet(store);
    RunEnqueues(Initial(store), events, [], store);
    RunsFromTheStart(store, events);
    NoReadsYet(store);
    RunAsks(Initial(store), events, []);
    if s.gets[i].answer.Some? {
      AnsweredOk(s, i, store);
      var n: nat :| s.gets[i].callsBefore <= n && ListAfter(s.ops, store, s.gets[i].vault, n, s.gets[i].answer.value);
      AppliedIsGranted(s, requests, store, s.gets[i].vault, n);
    }
  }

  lemma NoReadsYet(store: map<string, Paths>)
    ensures Asked(Initial(store).gets, []) && |Initial(store).ops| == 0
  {
  }

  lemma AnsweredOk(s: State, i: nat, initial: map<string, Paths>)
    requires AnswersOk(s, initial) && i < |s.gets|
    ensures AnswerOk(s.ops, initial, s.gets[i])
  {
    assert s.gets[i] in s.gets;
  }

  // ---------- how one call ends ----------

  /** Nothing but the end of its own load and save moves an operation that has begun, or its list. */
  lemma {:induction false} OthersLeaveIt(s: State, event: Event, id: OpId)
    requires OpsOk(s) && id < |s.ops| && !s.ops[id].phase.Waiting?
    requires s.ops[id].phase.Loading? ==> !(event.Loaded? && event.id == id)
    requires s.ops[id].phase.Saving? ==> !(event.SaveEnded? && event.id == id)
    ensures var s' := Step(s, event);
            && id < |s'.ops| && s'.ops[id] == s.ops[id]
            && (!s.ops[id].phase.Done? ==> Stored(s'.store, s.ops[id].vault) == Stored(s.store, s.ops[id].vault))
  {
    if event.SaveEnded? && event.id < |s.ops| && s.ops[event.id].phase.Saving? && s.ops[event.id].vault == s.ops[id].vault && !s.ops[id].phase.Done? {
      SectionsNeverOverlap(s, event.id, id);
    }
    hide NormalizeBookmarkPath, ChangeOf, OpsOk;
  }

  /** No event of the run is the end of the load, or of the save, of the operation. */
  predicate NeverLoads(events: seq<Event>, id: OpId) {
    forall e :: e in events ==> !(e.Loaded? && e.id == id)
  }

  predicate NeverSaves(events: seq<Event>, id: OpId) {
    forall e :: e in events ==> !(e.SaveEnded? && e.id == id)
  }

  lemma {:induction false} RunLeavesIt(s: State, events: seq<Event>, id: OpId, initial: map<string, Paths>)
    requires Invariant(s, initial) && id < |s.ops| && !s.ops[id].phase.Waiting?
    requires s.ops[id].phase.Loading? ==> NeverLoads(events, id)
    requires s.ops[id].phase.Saving? ==> NeverSaves(events, id)
    ensures var s' := After(s, events);
            && Invariant(s', initial) && id < |s'.ops| && s'.ops[id] == s.ops[id]
            && (!s.ops[id].phase.Done? ==> Stored(s'.store, s.ops[id].vault) == Stored(s.store, s.ops[id].vault))
    decreases |events|
  {
    assert OpsOk(s);
    hide Invariant, Step, Stored;
    if events != [] {
      assert events[0] in events;
      StepKeeps(s, events[0], initial);
      OthersLeaveIt(s, events[0], id);
      RunLeavesIt(Step(s, events[0]), events[1..], id, initial);
    }
  }

  /**
   * A call whose turn has come: it starts, its load ends, and its save ends, with anything else in
   * between. It succeeds exactly when its load does and the list is as wanted already, or fits and
   * is saved; what is saved is what was asked for, and no other vault is touched.
   */
  lemma {:induction false} CallEnds(s: State, id: OpId, request: Request, a: seq<Event>, loaded: bool, b: seq<Event>, saved: bool, initial: map<string, Paths>)
    requires Invariant(s, initial) && id < |s.ops| && Asks(s.ops[id], request)
    requires s.ops[id].phase.Waiting? && OverBefore(s.ops, s.ops[id].vault, id)
    requires NeverLoads(a, id) && NeverSaves(b, id)
    ensures var list := Stored(s.store, request.vault);
            var wanted := Wanted(request, list);
            var unloaded := After(s, [Start(id)] + a);
            var afterLoad := After(unloaded, [Loaded(id, loaded)]);
            var unsaved := After(afterLoad, b);
            var end := After(unsaved, [SaveEnded(id, saved)]);
            var saves := loaded && IsVaultId(request.vault) && wanted != list && Fits(request, list);
            && afterLoad.store == unloaded.store && Stored(unloaded.store, request.vault) == list
            && id < |end.ops|
            && end.ops[id].phase == Done(if saves then saved else loaded && IsVaultId(request.vault) && wanted == list)
            && end.store == (if saves && saved then unsaved.store[request.vault := wanted] else unsaved.store)
            && (saves ==> Stored(unsaved.store, request.vault) == list)
  {
    var vault, list := request.vault, Stored(s.store, request.vault);
    var started := Step(s, Start(id));
    StartsInOrder(s, id);
    StepKeeps(s, Start(id), initial);
    assert OpOk(s, id) && StoreOk(s, initial) && WellFormed(list);
    ChangeIsWanted(list, s.ops[id], request);
    BeginsLoading(s, id);
    hide Invariant, NormalizeBookmarkPath, ChangeOf, Wanted, Fits, OverBefore, OpOk, WellFormed, Follows, Step, Stored, NeverLoads, NeverSaves;
    RunLeavesIt(started, a, id, initial);
    assert ([Start(id)] + a)[1..] == a;
    var unloaded := After(started, a);
    LoadEnds(unloaded, id, loaded);
    StepKeeps(unloaded, Loaded(id, loaded), initial);
    var afterLoad := Step(unloaded, Loaded(id, loaded));
    OneEvent(unloaded, Loaded(id, loaded));
    hide After;
    SaveEnds(afterLoad, id, b, saved, initial);
  }

  lemma {:induction false} SaveEnds(s: State, id: OpId, b: seq<Event>, saved: bool, initial: map<string, Paths>)
    requires Invariant(s, initial) && id < |s.ops| && (s.ops[id].phase.Done? || s.ops[id].phase.Saving?) && NeverSaves(b, id)
    ensures var vault, unsaved := s.ops[id].vault, After(s, b);
            var end := After(unsaved, [SaveEnded(id, saved)]);
            && id < |end.ops|
            && if s.ops[id].phase.Done? then end.ops[id] == s.ops[id] && end.store == unsaved.store
               else
                 && end.ops[id].phase == Done(saved) && Stored(unsaved.store, vault) == Stored(s.store, vault)
                 && end.store == if saved then unsaved.store[vault := s.ops[id].phase.list] else unsaved.store
  {
    RunLeavesIt(s, b, id, initial);
    OneEvent(After(s, b), SaveEnded(id, saved));
    hide Invariant, After, Stored;
  }

  lemma OneEvent(s: State, event: Event)
    ensures After(s, [event]) == Step(s, event)
  {
    hide Step;
    assert After(s, [event]) == After(Step(s, event), []);
  }

  lemma BeginsLoading(s: State, id: OpId)
    requires id < |s.ops| && s.ops[id].phase.Waiting? && Ready(s.ops, s.ops[id].previous)
    ensures var started := Step(s, Start(id));
            && |started.ops| == |s.ops| && started.store == s.store
            && started.ops[id] == s.ops[id].(phase := Loading(Stored(s.store, s.ops[id].vault)))
  {
  }

  lemma LoadEnds(s: State, id: OpId, ok: bool)
    requires id < |s.ops| && s.ops[id].phase.Loading?
    ensures var loaded := Step(s, Loaded(id, ok));
            && |loaded.ops| == |s.ops| && loaded.store == s.store
            && loaded.ops[id] == s.ops[id].(phase := AfterLoad(s.ops[id], s.ops[id].phase.snapshot, ok))
  {
    hide ChangeOf;
  }

  // ---------- the controller ----------

  class NoteBookmarkController {
    var writeTails: map<string, OpId>
    var operations: seq<Op>
    var store: map<string, Paths>
    var readCalls: seq<Get>

    ghost function Abstract(): State reads this {
      State(operations, writeTails, store, readCalls)
    }

    constructor (store: map<string, Paths>)
      ensures Abstract() == Initial(store)
    {
      writeTails, operations, this.store, readCalls := map[], [], store, [];
    }

    method SetBookmark(vault: string, path: string, bookmarked: bool)
      modifies this
      ensures Abstract() == Step(old(Abstract()), CallSet(vault, path, bookmarked))
    {
      var normalized := NormalizeBookmarkPath(path);
      if normalized.Some? {
        Mutate(vault, Set(normalized.value, bookmarked));
      }
    }

    method RemapBookmark(vault: string, source: string, target: string)
      modifies this
      ensures Abstract() == Step(old(Abstract()), CallRemap(vault, source, target))
    {
      var from := NormalizeBookmarkPath(source);
      var to := NormalizeBookmarkPath(target);
      if from.Some? && to.Some? {
        Mutate(vault, Remap(from.value, to.value));
      }
    }

    method Mutate(vault: string, mutation: Mutation)
      modifies this
      ensures Abstract() == Enqueue(old(Abstract()), vault, mutation)
    {
      var previous := if vault in writeTails then Some(writeTails[vault]) else None;
      writeTails := writeTails[vault := |operations|];
      operations := operations + [Op(vault, mutation, previous, Waiting)];
    }

    /** Runs once the tail the operation waits for is settled. */
    method Begin(id: OpId)
      requires id < |operations| && operations[id].phase.Waiting? && Ready(operations, operations[id].previous)
      modifies this
      ensures Abstract() == Step(old(Abstract()), Start(id))
    {
      var op := operations[id];
      operations := operations[id := op.(phase := Loading(if op.vault in store then store[op.vault] else []))];
    }

    method AfterLoadEnded(id: OpId, ok: bool)
      requires id < |operations| && operations[id].phase.Loading?
      modifies this
      ensures Abstract() == Step(old(Abstract()), Loaded(id, ok))
    {
      var op := operations[id];
      var next := Done(false);
      if ok && IsVaultId(op.vault) {
        var change := ChangeOf(op.mutation, op.phase.snapshot);
        next := if change.Save? then Saving(change.list) else Done(change.Unchanged?);
      }
      operations := operations[id := op.(phase := next)];
    }

    method AfterSaveEnded(id: OpId, ok: bool)
      requires id < |operations| && operations[id].phase.Saving?
      modifies this
      ensures Abstract() == Step(old(Abstract()), SaveEnded(id, ok))
    {
      var op := operations[id];
      operations := operations[id := op.(phase := Done(ok))];
      if ok {
        store := store[op.vault := op.phase.list];
      }
    }

    /** Runs some time after the operation is over; another call may have become the tail by then. */
    method Finally(id: OpId)
      requires id < |operations| && operations[id].phase.Done?
      modifies this
      ensures Abstract() == Step(old(Abstract()), Cleanup(id))
    {
      var vault := operations[id].vault;
      if vault in writeTails && writeTails[vault] == id {
        writeTails := writeTails - {vault};
      }
    }

    method GetBookmarks(vault: string)
      modifies this
      ensures Abstract() == Step(old(Abstract()), CallGet(vault))
    {
      var pending := if vault in writeTails then Some(writeTails[vault]) else None;
      readCalls := readCalls + [Get(vault, pending, |operations|, None)];
    }

    /** Loads for a read whose pending write is settled. */
    method AnswerRead(get: nat)
      requires get < |readCalls| && readCalls[get].answer.None? && Ready(operations, readCalls[get].previous)
      requires IsVaultId(readCalls[get].vault)
      modifies this
      ensures Abstract() == Step(old(Abstract()), AnswerGet(get))
    {
      var call := readCalls[get];
      readCalls := readCalls[get := call.(answer := Some(if call.vault in store then store[call.vault] else []))];
    }
  }
}
