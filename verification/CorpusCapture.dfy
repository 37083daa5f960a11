/**
 * Reading a whole vault that others write to meanwhile
 * (src/application/attachment-move.ts, and the kernel reader it prefers).
 */
module CorpusCapture {
  import opened Options
  import opened Sequences
  import opened Sorting
  import JsText

  type Files = map<string, string>

  /** What a listing is asked for: notes, notes and canvases, or every visible file. */
  datatype Scope = Markdown | References | Visible

  datatype Entry = Entry(path: string, revision: string)

  datatype Corpus = Corpus(paths: seq<string>, revisions: seq<Entry>)

  predicate IsMarkdown(path: string) {
    JsText.EndsWith(JsText.Lower(path), ".md")
  }

  predicate IsCanvas(path: string) {
    JsText.EndsWith(JsText.Lower(path), ".canvas")
  }

  predicate InScope(scope: Scope, path: string) {
    scope.Visible? || IsMarkdown(path) || (scope.References? && IsCanvas(path))
  }

  /** Notes end in `.md` and canvases in `.canvas`, in any case. */
  lemma {:induction false} ScopesAre(path: string)
    ensures InScope(Markdown, path) <==> JsText.EndsAs(path, ".md")
    ensures InScope(References, path) <==> JsText.EndsAs(path, ".md") || JsText.EndsAs(path, ".canvas")
    ensures InScope(Visible, path)
  {
    JsText.EndsInAnyCase(path, ".md");
    JsText.EndsInAnyCase(path, ".canvas");
    hide JsText.EndsWith, JsText.EndsAs, JsText.Lower;
  }

  lemma MarkdownIsNoCanvas(path: string)
    ensures IsMarkdown(path) ==> !IsCanvas(path)
  {
    var s := JsText.Lower(path);
    assert IsMarkdown(path) ==> s != "" && s[|s| - 1] == ".md"[2];
    assert IsCanvas(path) ==> s != "" && s[|s| - 1] == ".canvas"[6];
  }

  // ---------- what a history of the vault allows ----------

  /** The revision of `path` at one instant, None where it is missing. */
  ghost function StateAt(history: seq<Files>, t: nat, path: string, revision: string -> string): Option<string>
    requires t < |history|
  {
    if path in history[t] then Some(revision(history[t][path])) else None
  }

  /** No path of the scope shows one state on both sides of the instant `at`, and another one at it. */
  ghost predicate Steady(history: seq<Files>, start: nat, at: nat, scope: Scope, revision: string -> string) {
    forall path: string, i: nat, k: nat ::
      (InScope(scope, path) && start <= i <= at <= k < |history|
       && StateAt(history, i, path, revision) == StateAt(history, k, path, revision)
       ==> StateAt(history, at, path, revision) == StateAt(history, i, path, revision))
  }

  ghost predicate Injective(revision: string -> string) {
    forall a, b :: revision(a) == revision(b) ==> a == b
  }

  /** The entry was true at some instant from `start` on. */
  ghost predicate WasTrue(history: seq<Files>, start: nat, e: Entry, revision: string -> string) {
    exists t: nat :: start <= t < |history| && e.path in history[t] && revision(history[t][e.path]) == e.revision
  }

  ghost predicate AllWereTrue(history: seq<Files>, start: nat, entries: seq<Entry>, revision: string -> string) {
    forall e :: e in entries ==> WasTrue(history, start, e, revision)
  }

  ghost predicate WasPresent(history: seq<Files>, start: nat, path: string) {
    exists t: nat :: start <= t < |history| && path in history[t]
  }

  ghost predicate WasMissing(history: seq<Files>, start: nat, path: string) {
    exists t: nat :: start <= t < |history| && path !in history[t]
  }

  /**
   * A walk over the folders, each read at an instant of its own: a path listed was there at some
   * instant from `start` on, and one not listed was missing at some.
   */
  ghost predicate Walked(history: seq<Files>, start: nat, scope: Scope, paths: seq<string>) {
    && NoRepeats(paths)
    && (forall p :: p in paths ==> InScope(scope, p) && WasPresent(history, start, p))
    && (forall p :: InScope(scope, p) && p !in paths ==> WasMissing(history, start, p))
  }

  ghost predicate Listed(paths: seq<string>, files: Files, scope: Scope) {
    forall p :: p in paths <==> p in files && InScope(scope, p)
  }

  function PathsOf(entries: seq<Entry>): seq<string> {
    if entries == [] then [] else [entries[0].path] + PathsOf(entries[1..])
  }

  lemma {:induction false} PathsOfMembers(entries: seq<Entry>)
    ensures forall p :: p in PathsOf(entries) <==> exists e :: e in entries && e.path == p
    decreases |entries|
  {
    if entries != [] {
      PathsOfMembers(entries[1..]);
      HeadTail(entries);
      assert forall p :: p in PathsOf(entries) <==> p == entries[0].path || p in PathsOf(entries[1..]);
    }
  }

  lemma {:induction false} PathsOfPush(entries: seq<Entry>, e: Entry)
    ensures PathsOf(entries + [e]) == PathsOf(entries) + [e.path]
    decreases |entries|
  {
    if entries == [] {
      assert entries + [e] == [e] && [e][1..] == [];
    } else {
      PathsOfPush(entries[1..], e);
      assert (entries + [e])[1..] == entries[1..] + [e];
      Associative([entries[0].path], PathsOf(entries[1..]), [e.path]);
    }
  }

  /** The corpus is the whole vault, within its scope, at one instant. */
  ghost predicate IsCorpus(corpus: Corpus, scope: Scope, files: Files, revision: string -> string) {
    && Listed(corpus.paths, files, scope)
    && PathsOf(corpus.revisions) == corpus.paths
    && forall e :: e in corpus.revisions ==> e.path in files && e.revision == revision(files[e.path])
  }

  /** One pass over the vault: every entry was true, and every other path of the scope missing, at some instant of it. */
  ghost predicate Passed(history: seq<Files>, start: nat, scope: Scope, corpus: Corpus, revision: string -> string) {
    && PathsOf(corpus.revisions) == corpus.paths
    && AllWereTrue(history, start, corpus.revisions, revision)
    && (forall p :: p in corpus.paths ==> InScope(scope, p))
    && (forall p :: InScope(scope, p) && p !in corpus.paths ==> WasMissing(history, start, p))
  }

  /** Two passes agree on the corpus, one up to the instant `at`, and one from it on. */
  ghost predicate SeenTwice(history: seq<Files>, start: nat, at: nat, scope: Scope, corpus: Corpus, revision: string -> string) {
    start <= at < |history| && Passed(history[..at + 1], start, scope, corpus, revision) && Passed(history, at, scope, corpus, revision)
  }

  lemma {:induction false} SteadyShows(history: seq<Files>, start: nat, at: nat, scope: Scope, corpus: Corpus, revision: string -> string)
    requires SeenTwice(history, start, at, scope, corpus, revision) && Steady(history, start, at, scope, revision)
    ensures IsCorpus(corpus, scope, history[at], revision)
  {
    PathsOfMembers(corpus.revisions);
    forall e | e in corpus.revisions ensures e.path in history[at] && e.revision == revision(history[at][e.path]) {
      assert e.path in corpus.paths;
      assert WasTrue(history[..at + 1], start, e, revision) && WasTrue(history, at, e, revision);
      var i: nat :| start <= i < at + 1 && e.path in history[..at + 1][i] && revision(history[..at + 1][i][e.path]) == e.revision;
      var k: nat :| at <= k < |history| && e.path in history[k] && revision(history[k][e.path]) == e.revision;
      assert StateAt(history, i, e.path, revision) == StateAt(history, k, e.path, revision) == Some(e.revision);
    }
    forall p | InScope(scope, p) && p !in corpus.paths ensures p !in history[at] {
      assert WasMissing(history[..at + 1], start, p) && WasMissing(history, at, p);
      var i: nat :| start <= i < at + 1 && p !in history[..at + 1][i];
      var k: nat :| at <= k < |history| && p !in history[k];
      assert StateAt(history, i, p, revision) == StateAt(history, k, p, revision) == None;
    }
  }

  /** The files of a scope can be written down as a corpus. */
  lemma {:induction false} Enumerate(files: Files, scope: Scope, revision: string -> string) returns (corpus: Corpus)
    ensures IsCorpus(corpus, scope, files, revision)
    decreases |files|
  {
    if files == map[] {
      corpus := Corpus([], []);
    } else {
      var p :| p in files;
      var fewer := files - {p};
      assert fewer.Keys == files.Keys - {p};
      corpus := Enumerate(fewer, scope, revision);
      if InScope(scope, p) {
        PathsOfPush(corpus.revisions, Entry(p, revision(files[p])));
        corpus := Corpus(corpus.paths + [p], corpus.revisions + [Entry(p, revision(files[p]))]);
      }
    }
  }

  /** A path that returns to a state across the instant `at` makes both passes agree on a vault that was not there then. */
  lemma {:induction false} UnsteadyMisleads(history: seq<Files>, start: nat, at: nat, scope: Scope, revision: string -> string,
                                            path: string, i: nat, k: nat) returns (corpus: Corpus)
    requires InScope(scope, path) && start <= i <= at <= k < |history|
    requires StateAt(history, i, path, revision) == StateAt(history, k, path, revision) != StateAt(history, at, path, revision)
    ensures SeenTwice(history, start, at, scope, corpus, revision) && !IsCorpus(corpus, scope, history[at], revision)
  {
    var files := if path in history[i] then history[at][path := history[i][path]] else history[at] - {path};
    corpus := Enumerate(files, scope, revision);
    var earlier := history[..at + 1];
    PathsOfMembers(corpus.revisions);
    forall e | e in corpus.revisions ensures WasTrue(earlier, start, e, revision) && WasTrue(history, at, e, revision) {
      assert e.path in files && e.revision == revision(files[e.path]);
      if e.path == path {
        assert earlier[i] == history[i];
      } else {
        assert earlier[at] == history[at];
      }
    }
    forall p | InScope(scope, p) && p !in corpus.paths ensures WasMissing(earlier, start, p) && WasMissing(history, at, p) {
      assert p !in files;
      if p == path {
        assert earlier[i] == history[i];
      } else {
        assert earlier[at] == history[at];
      }
    }
    if path in corpus.paths {
      var e :| e in corpus.revisions && e.path == path;
    }
  }

  /**
   * Whatever two passes agree on is the vault at the instant between them, exactly when no path of
   * the scope returns to a state across that instant.
   */
  lemma {:induction false} AgreeingPasses(history: seq<Files>, start: nat, at: nat, scope: Scope, revision: string -> string)
    requires start <= at < |history|
    ensures (forall corpus :: SeenTwice(history, start, at, scope, corpus, revision) ==> IsCorpus(corpus, scope, history[at], revision))
      <==> Steady(history, start, at, scope, revision)
  {
    hide IsCorpus, Passed;
    if Steady(history, start, at, scope, revision) {
      forall corpus | SeenTwice(history, start, at, scope, corpus, revision) ensures IsCorpus(corpus, scope, history[at], revision) {
        SteadyShows(history, start, at, scope, corpus, revision);
      }
    } else {
      var path: string, i: nat, k: nat :| InScope(scope, path) && start <= i <= at <= k < |history|
        && StateAt(history, i, path, revision) == StateAt(history, k, path, revision) != StateAt(history, at, path, revision);
      var corpus := UnsteadyMisleads(history, start, at, scope, revision, path, i, k);
    }
  }

  /** With two notes flipping together, two passes even agree on a vault that was never there at all. */
  lemma {:induction false} ReturningDefeatsIt(a: string, b: string, old_: string, new_: string, scope: Scope, revision: string -> string)
    requires a != b && InScope(scope, a) && InScope(scope, b) && revision(old_) != revision(new_)
    ensures var before, after: Files := map[a := old_, b := old_], map[a := new_, b := new_];
            var history := [before, after, before, after];
            var corpus := Corpus([a, b], [Entry(a, revision(old_)), Entry(b, revision(new_))]);
            && SeenTwice(history, 0, 1, scope, corpus, revision)
            && forall t :: 0 <= t < 4 ==> !IsCorpus(corpus, scope, history[t], revision)
  {
    var before, after: Files := map[a := old_, b := old_], map[a := new_, b := new_];
    var history := [before, after, before, after];
    var earlier := history[..2];
    var x, y := Entry(a, revision(old_)), Entry(b, revision(new_));
    assert earlier[0] == before && earlier[1] == after && history[2] == before && history[3] == after;
    assert WasTrue(earlier, 0, x, revision) && WasTrue(earlier, 0, y, revision);
    assert WasTrue(history, 1, x, revision) && WasTrue(history, 1, y, revision);
    assert [x, y][1..] == [y] && [y][1..] == [];
    assert PathsOf([y]) == [b] + PathsOf([]);
    assert PathsOf([x, y]) == [a] + PathsOf([y]) == [a, b];
    assert x in [x, y] && y in [x, y];
    forall p | p !in [a, b] ensures WasMissing(earlier, 0, p) && WasMissing(history, 1, p) {
      assert p !in earlier[0] && p !in history[1];
    }
  }

  // ---------- comparing two corpora ----------

  /** The last entry for a path decides, as in a map built from the list. */
  function Lookup(entries: seq<Entry>, path: string): Option<string> {
    if entries == [] then None
    else
      var later := Lookup(entries[1..], path);
      if later.Some? then later else if entries[0].path == path then Some(entries[0].revision) else None
  }

  lemma {:induction false} LookupFound(entries: seq<Entry>, path: string)
    ensures Lookup(entries, path).Some? ==> Entry(path, Lookup(entries, path).value) in entries
    decreases |entries|
  {
    if entries != [] {
      LookupFound(entries[1..], path);
    }
  }

  lemma {:induction false} LookupOnly(entries: seq<Entry>, e: Entry)
    requires e in entries && forall x :: x in entries && x.path == e.path ==> x == e
    ensures Lookup(entries, e.path) == Some(e.revision)
    decreases |entries|
  {
    LookupFound(entries[1..], e.path);
    if e in entries[1..] {
      LookupOnly(entries[1..], e);
    }
  }

  ghost predicate Differs(expected: Corpus, actual: Corpus, path: string) {
    || (path in expected.paths && path !in actual.paths)
    || (path in actual.paths && path !in expected.paths)
    || exists e :: e in actual.revisions && e.path == path && Lookup(expected.revisions, path) != Some(e.revision)
  }

  /** The paths that differ, each once and in order. */
  method ChangedCorpusPaths(expected: Corpus, actual: Corpus, rank: string -> int) returns (changed: seq<string>)
    ensures forall p :: p in changed <==> Differs(expected, actual, p)
    ensures NoRepeats(changed) && Sorted(changed, rank)
  {
    hide NoRepeats, Sorted, SortedPaths;
    var found: seq<string> := [];
    for i := 0 to |expected.paths|
      invariant forall p :: p in found <==> p in expected.paths[..i] && p !in actual.paths
    {
      if expected.paths[i] !in actual.paths { found := found + [expected.paths[i]]; }
    }
    ghost var onlyExpected := found;
    for i := 0 to |actual.paths|
      invariant forall p :: p in found <==> p in onlyExpected || (p in actual.paths[..i] && p !in expected.paths)
    {
      if actual.paths[i] !in expected.paths { found := found + [actual.paths[i]]; }
    }
    ghost var onlyOne := found;
    for i := 0 to |actual.revisions|
      invariant forall p :: p in found <==>
        p in onlyOne || exists e :: e in actual.revisions[..i] && e.path == p && Lookup(expected.revisions, p) != Some(e.revision)
    {
      var e := actual.revisions[i];
      if Lookup(expected.revisions, e.path) != Some(e.revision) { found := found + [e.path]; }
    }
    assert actual.revisions[..|actual.revisions|] == actual.revisions;
    changed := SortedPaths(found, rank);
    SortedPathsMembers(found, rank);
  }

  /** Only the actual revisions are looked up: nothing changed means same paths and every actual revision expected. */
  lemma {:induction false} NothingChanged(expected: Corpus, actual: Corpus)
    ensures (forall p :: !Differs(expected, actual, p)) <==>
      && (forall p :: p in expected.paths <==> p in actual.paths)
      && forall e :: e in actual.revisions ==> Lookup(expected.revisions, e.path) == Some(e.revision)
  {
    if forall p :: !Differs(expected, actual, p) {
      forall e | e in actual.revisions ensures Lookup(expected.revisions, e.path) == Some(e.revision) {
        assert !Differs(expected, actual, e.path);
      }
      forall p ensures p in expected.paths <==> p in actual.paths {
        assert !Differs(expected, actual, p);
      }
    }
  }

  /** The comparison is blind to an expected revision whose path has no actual one. */
  lemma {:induction false} MissingRevisionGoesUnseen(path: string, revision: string)
    ensures forall p :: !Differs(Corpus([path], [Entry(path, revision)]), Corpus([path], []), p)
  {
  }

  // ---------- reading the vault ----------

  function Distinct(paths: seq<string>): seq<string> {
    if paths == [] then []
    else if paths[0] in paths[1..] then Distinct(paths[1..]) else [paths[0]] + Distinct(paths[1..])
  }

  ghost predicate NoRepeats(paths: seq<string>) {
    paths == [] || (paths[0] !in paths[1..] && NoRepeats(paths[1..]))
  }

  function SortedPaths(paths: seq<string>, rank: string -> int): seq<string> {
    SortBy(Distinct(paths), rank)
  }

  lemma {:induction false} DistinctMembers(paths: seq<string>)
    ensures forall p :: p in Distinct(paths) <==> p in paths
    ensures NoRepeats(Distinct(paths))
    decreases |paths|
  {
    if paths != [] {
      DistinctMembers(paths[1..]);
      HeadTail(paths);
      if paths[0] !in paths[1..] {
        assert Distinct(paths)[1..] == Distinct(paths[1..]);
      }
    }
  }

  lemma {:induction false} CountedOnce(paths: seq<string>)
    requires NoRepeats(paths)
    ensures forall p :: multiset(paths)[p] <= 1
    decreases |paths|
  {
    if paths != [] {
      CountedOnce(paths[1..]);
      HeadTail(paths);
      assert multiset(paths) == multiset{paths[0]} + multiset(paths[1..]);
    }
  }

  lemma {:induction false} OnceIsNoRepeat(paths: seq<string>)
    requires forall p :: multiset(paths)[p] <= 1
    ensures NoRepeats(paths)
    decreases |paths|
  {
    if paths != [] {
      HeadTail(paths);
      assert multiset(paths) == multiset{paths[0]} + multiset(paths[1..]);
      forall p ensures multiset(paths[1..])[p] <= 1 {
        assert multiset(paths)[p] <= 1;
      }
      assert multiset(paths)[paths[0]] <= 1;
      OnceIsNoRepeat(paths[1..]);
    }
  }

  lemma {:induction false} SortedPathsMembers(paths: seq<string>, rank: string -> int)
    ensures forall p :: p in SortedPaths(paths, rank) <==> p in paths
    ensures NoRepeats(SortedPaths(paths, rank)) && Sorted(SortedPaths(paths, rank), rank)
  {
    DistinctMembers(paths);
    SortBySorts(Distinct(paths), rank);
    SameElements(Distinct(paths), SortedPaths(paths, rank));
    CountedOnce(Distinct(paths));
    OnceIsNoRepeat(SortedPaths(paths, rank));
  }

  /** Nothing failed, and the files are the same at every instant from `start` on. */
  ghost predicate Undisturbed(history: seq<Files>, start: nat, faultsBefore: nat, faults: nat) {
    faults == faultsBefore && start < |history| && forall t: nat :: start <= t < |history| ==> history[t] == history[start]
  }

  /** Different paths have different places in the order. */
  ghost predicate Distinguishes(rank: string -> int) {
    forall a, b :: rank(a) == rank(b) ==> a == b
  }

  datatype Outcome<T> = Ready(value: T) | Missing | Failed

  /** Two passes, one after the other, agree, or something was written in between. */
  lemma {:induction false} Compared(earlier: seq<Files>, history: seq<Files>, first: nat, start: nat, scope: Scope, expected: Corpus,
                                    actual: Corpus, changed: seq<string>, revision: string -> string, faultsBefore: nat, faults: nat)
    requires earlier <= history && first <= start < |earlier| && Passed(earlier, start, scope, expected, revision)
    requires Passed(history, |earlier| - 1, scope, actual, revision) && forall p :: p in changed <==> Differs(expected, actual, p)
    ensures if changed != [] then !Undisturbed(history, first, faultsBefore, faults)
            else
              && SeenTwice(history, start, |earlier| - 1, scope, actual, revision)
              && (Steady(history, start, |earlier| - 1, scope, revision) ==> IsCorpus(actual, scope, history[|earlier| - 1], revision))
  {
    hide Passed, Undisturbed, SeenTwice, Steady, IsCorpus, Differs;
    HistoryUntil(earlier, history);
    if changed != [] {
      assert changed[0] in changed;
      ChangedIsDisturbed(history, first, start, |earlier| - 1, scope, expected, actual, changed[0], revision, faultsBefore, faults);
    } else {
      PassesAgree(history, start, |earlier| - 1, scope, expected, actual, revision);
    }
  }

  lemma HistoryUntil(earlier: seq<Files>, history: seq<Files>)
    requires earlier <= history
    ensures history[..|earlier|] == earlier
  {
  }

  class Vault {
    /** The visible files. */
    var files: Files
    /** Every state of the vault so far, the present one last. */
    ghost var history: seq<Files>
    /** How many listings and reads have failed for a reason of their own. */
    ghost var faults: nat
    const revision: string -> string
    const rank: string -> int
    /** The kernel offers its own corpus reader. */
    const hasReader: bool

    ghost predicate Valid() reads this {
      history != [] && history[|history| - 1] == files
    }

    constructor (files: Files, revision: string -> string, rank: string -> int, hasReader: bool)
      ensures Valid() && this.files == files && history == [files] && faults == 0
      ensures this.revision == revision && this.rank == rank && this.hasReader == hasReader
    {
      this.files, this.revision, this.rank, this.hasReader := files, revision, rank, hasReader;
      history, faults := [files], 0;
    }

    /** While a call waits, others write to the vault as often and as they like. */
    method Await()
      requires Valid()
      modifies this
      ensures Valid() && old(history) <= history && faults == old(faults)
    {
      var writes: nat := *;
      while writes > 0
        invariant Valid() && old(history) <= history && faults == old(faults)
      {
        files := *;
        history := history + [files];
        writes := writes - 1;
      }
    }

    /**
     * Walks the folders, with a wait before each. `turn` says in which of the readings a path is
     * found or missed; it is arbitrary, so any tree of folders is covered.
     */
    method List(scope: Scope) returns (paths: Outcome<seq<string>>)
      requires Valid()
      modifies this
      ensures Valid() && old(history) <= history && old(faults) <= faults
      ensures paths.Ready? ==> Walked(history, |old(history)| - 1, scope, paths.value)
      ensures !paths.Ready? ==> paths.Failed? && faults > old(faults)
    {
      hide NoRepeats, InScope, Walking, WalkingHere, Walked, TurnOf;
      var rounds: int := *;
      var last: nat := if rounds < 0 then 0 else rounds;
      var turn: map<string, nat> := *;
      var found: seq<string> := [];
      NothingWalked(history, |history| - 1, scope, turn, last);
      for reading := 0 to last + 1
        invariant Valid() && old(history) <= history && faults == old(faults)
        invariant Walking(history, |old(history)| - 1, scope, found, turn, last, reading)
      {
        ghost var before := history;
        Await();
        var broken: bool := *;
        if broken {
          faults := faults + 1;
          return Failed;
        }
        WalkingLonger(before, history, |old(history)| - 1, scope, found, turn, last, reading);
        var rest := set p | p in files && InScope(scope, p) && TurnOf(turn, last, p) == reading;
        ghost var here, now := rest, history;
        while rest != {}
          invariant Valid() && history == now && faults == old(faults) && rest <= here
          invariant WalkingHere(history, |old(history)| - 1, scope, found, turn, last, reading, here, rest)
          decreases rest
        {
          var p :| p in rest;
          WalkedOneMore(history, |old(history)| - 1, scope, found, turn, last, reading, here, rest, p);
          found, rest := found + [p], rest - {p};
        }
        FolderWalked(history, |old(history)| - 1, scope, found, turn, last, reading, here);
      }
      AllWalked(history, |old(history)| - 1, scope, found, turn, last);
      return Ready(found);
    }

    /** Reads one file; a read may fail even when the file is there, as one beyond the size limit does. */
    method ReadText(path: string) returns (text: Outcome<string>)
      requires Valid()
      modifies this
      ensures Valid() && old(history) <= history && old(faults) <= faults
      ensures text.Ready? ==> path in files && text.value == files[path]
      ensures text.Missing? ==> path !in files
      ensures text.Failed? ==> faults > old(faults)
    {
      Await();
      var broken: bool := *;
      if broken {
        faults := faults + 1;
        return Failed;
      }
      text := if path in files then Ready(files[path]) else Missing;
    }

    method ReadRevisions(paths: seq<string>) returns (entries: Outcome<seq<Entry>>)
      requires Valid()
      modifies this
      ensures Valid() && old(history) <= history && old(faults) <= faults
      ensures entries.Ready? ==>
        PathsOf(entries.value) == paths && AllWereTrue(history, |old(history)| - 1, entries.value, revision)
      ensures entries.Missing? ==> exists p :: p in paths && WasMissing(history, |old(history)| - 1, p)
      ensures entries.Failed? ==> faults > old(faults)
    {
      hide PathsOf, AllWereTrue, WasTrue;
      var read: seq<Entry> := [];
      NothingRead(history, |history| - 1, revision);
      for i := 0 to |paths|
        invariant Valid() && old(history) <= history && old(faults) <= faults
        invariant PathsOf(read) == paths[..i]
        invariant AllWereTrue(history, |old(history)| - 1, read, revision)
      {
        ghost var before := history;
        var text := ReadText(paths[i]);
        if !text.Ready? {
          assert text.Missing? ==> paths[i] !in history[|history| - 1] && WasMissing(history, |old(history)| - 1, paths[i]);
          assert paths[i] in paths;
          return if text.Missing? then Missing else Failed;
        }
        ReadOneMore(before, history, |old(history)| - 1, read, Entry(paths[i], revision(text.value)), revision);
        read := read + [Entry(paths[i], revision(text.value))];
      }
      assert paths[..|paths|] == paths;
      return Ready(read);
    }

    /**
     * Lists, reads, lists and reads again, up to three times. What the passes agree on is the vault
     * at `at`, the instant between them, unless a path returned to a state across that instant.
     */
    method CaptureByPaths() returns (corpus: Outcome<Corpus>, ghost start: nat, ghost at: nat)
      requires Valid()
      modifies this
      ensures Valid() && old(history) <= history && old(faults) <= faults
      ensures |old(history)| - 1 <= start <= at < |history|
      ensures corpus.Ready? ==> SeenTwice(history, start, at, Markdown, corpus.value, revision)
      ensures corpus.Ready? && Steady(history, start, at, Markdown, revision) ==>
        IsCorpus(corpus.value, Markdown, history[at], revision)
      ensures Undisturbed(history, |old(history)| - 1, old(faults), faults) ==> corpus.Ready?
      ensures corpus.Failed? ==> faults > old(faults)
    {
      hide Walked, Passed, WasTrue, AllWereTrue, Steady, IsCorpus, Differs, SortedPaths, PathsOf, Undisturbed, WasMissing, NoRepeats, Sorted,
           InScope, SeenTwice;
      ghost var first := |history| - 1;
      for attempt := 0 to 3
        invariant Valid() && old(history) <= history && old(faults) <= faults
        invariant attempt > 0 ==> !Undisturbed(history, first, old(faults), faults)
      {
        start := |history| - 1;
        ghost var faultsBefore := faults;
        var listed := List(Markdown);
        if !listed.Ready? {
          Faulty(history, first, old(faults), faults);
          return Failed, start, start;
        }
        ghost var walked := history;
        var firstPaths := SortedPaths(listed.value, rank);
        SortedPathsMembers(listed.value, rank);
        var firstRevisions := ReadRevisions(firstPaths);
        if !firstRevisions.Ready? {
          Interrupted(walked, history, first, start, Markdown, listed.value, firstPaths, firstRevisions, old(faults), faults);
          continue;
        }
        at := |history| - 1;
        ghost var earlier := history;
        var expected := Corpus(firstPaths, firstRevisions.value);
        PassOf(walked, earlier, start, Markdown, listed.value, expected, revision);
        var listedAgain := List(Markdown);
        if !listedAgain.Ready? {
          Faulty(history, first, old(faults), faults);
          return Failed, start, start;
        }
        walked := history;
        var secondPaths := SortedPaths(listedAgain.value, rank);
        SortedPathsMembers(listedAgain.value, rank);
        var secondRevisions := ReadRevisions(secondPaths);
        if !secondRevisions.Ready? {
          Interrupted(walked, history, first, at, Markdown, listedAgain.value, secondPaths, secondRevisions, old(faults), faults);
          continue;
        }
        var actual := Corpus(secondPaths, secondRevisions.value);
        PassOf(walked, history, at, Markdown, listedAgain.value, actual, revision);
        var changed := ChangedCorpusPaths(expected, actual, rank);
        Compared(earlier, history, first, start, Markdown, expected, actual, changed, revision, old(faults), faults);
        if changed != [] {
          continue;
        }
        return Ready(actual), start, at;
      }
      return Missing, |history| - 1, |history| - 1;
    }

    /** The kernel's own reader: the same two passes, compared entry by entry. */
    method ReadStableCorpus(scope: Scope) returns (corpus: Option<Corpus>, ghost start: nat, ghost at: nat)
      requires Valid()
      modifies this
      ensures Valid() && old(history) <= history && old(faults) <= faults
      ensures |old(history)| - 1 <= start <= at < |history|
      ensures corpus.Some? ==> SeenTwice(history, start, at, scope, corpus.value, revision)
      ensures corpus.Some? && Steady(history, start, at, scope, revision) ==>
        IsCorpus(corpus.value, scope, history[at], revision)
      ensures Undisturbed(history, |old(history)| - 1, old(faults), faults) && Distinguishes(rank) ==> corpus.Some?
    {
      hide Walked, Passed, WasTrue, AllWereTrue, Steady, IsCorpus, SortBy, PathsOf, InScope, Undisturbed, WasMissing, Distinguishes, NoRepeats,
           Sorted, SeenTwice;
      ghost var first := |history| - 1;
      for attempt := 0 to 3
        invariant Valid() && old(history) <= history && old(faults) <= faults
        invariant attempt > 0 ==> !(Undisturbed(history, first, old(faults), faults) && Distinguishes(rank))
      {
        start := |history| - 1;
        var listed := List(scope);
        if !listed.Ready? {
          Faulty(history, first, old(faults), faults);
          return None, start, start;
        }
        ghost var earlierWalk, walked := history, history;
        var paths := SortBy(listed.value, rank);
        SortedListing(listed.value, rank);
        var revisions := ReadRevisions(paths);
        if !revisions.Ready? {
          Interrupted(walked, history, first, start, scope, listed.value, paths, revisions, old(faults), faults);
          if revisions.Failed? { return None, start, start; }
          continue;
        }
        at := |history| - 1;
        ghost var earlier := history;
        PassOf(walked, earlier, start, scope, listed.value, Corpus(paths, revisions.value), revision);
        var listedAgain := List(scope);
        if !listedAgain.Ready? {
          Faulty(history, first, old(faults), faults);
          return None, start, start;
        }
        walked := history;
        var finalPaths := SortBy(listedAgain.value, rank);
        SortedListing(listedAgain.value, rank);
        if finalPaths != paths {
          WalkLasts(earlierWalk, walked, start, scope, listed.value);
          OrdersAreDisturbed(walked, first, start, at, scope, listed.value, listedAgain.value, rank, old(faults), faults);
          continue;
        }
        var finalRevisions := ReadRevisions(finalPaths);
        if !finalRevisions.Ready? {
          Interrupted(walked, history, first, at, scope, listedAgain.value, finalPaths, finalRevisions, old(faults), faults);
          if finalRevisions.Failed? { return None, start, start; }
          continue;
        }
        assert history[..at + 1] == earlier;
        PassOf(walked, history, at, scope, listedAgain.value, Corpus(paths, finalRevisions.value), revision);
        if finalRevisions.value != revisions.value {
          EntriesAreDisturbed(history, first, start, at, scope, paths, revisions.value, finalRevisions.value, revision, old(faults), faults);
          continue;
        }
        SamePassTwice(history, start, at, scope, Corpus(paths, revisions.value), revision);
        return Some(Corpus(paths, revisions.value)), start, at;
      }
      return None, |history| - 1, |history| - 1;
    }

    /** Prefers the kernel's reader; `Failed` when the listing of the other one throws. */
    method CaptureKernelCorpus(scope: Scope) returns (corpus: Outcome<Corpus>, ghost start: nat, ghost at: nat)
      requires Valid() && !scope.Visible?
      modifies this
      ensures Valid() && old(history) <= history && old(faults) <= faults
      ensures |old(history)| - 1 <= start <= at < |history|
      ensures corpus.Ready? ==> SeenTwice(history, start, at, scope, corpus.value, revision)
      ensures corpus.Ready? && Steady(history, start, at, scope, revision) ==>
        IsCorpus(corpus.value, scope, history[at], revision)
      ensures Undisturbed(history, |old(history)| - 1, old(faults), faults) && Distinguishes(rank) ==>
        (corpus.Ready? <==> hasReader || scope.Markdown?)
      ensures scope.References? && !hasReader ==> corpus.Missing?
      ensures corpus.Failed? ==> faults > old(faults)
    {
      if hasReader {
        var stable;
        stable, start, at := ReadStableCorpus(scope);
        corpus := if stable.Some? then Ready(stable.value) else Missing;
      } else if scope.References? {
        return Missing, |history| - 1, |history| - 1;
      } else {
        corpus, start, at := CaptureByPaths();
      }
    }
  }

  // ---------- walking the folders ----------

  function TurnOf(turn: map<string, nat>, last: nat, path: string): nat {
    if path in turn && turn[path] <= last then turn[path] else last
  }

  /** All paths whose turn came before `reading` were looked for. */
  ghost predicate Walking(history: seq<Files>, start: nat, scope: Scope, found: seq<string>, turn: map<string, nat>, last: nat, reading: nat) {
    && NoRepeats(found)
    && (forall p :: p in found ==> InScope(scope, p) && TurnOf(turn, last, p) < reading && WasPresent(history, start, p))
    && (forall p :: InScope(scope, p) && TurnOf(turn, last, p) < reading && p !in found ==> WasMissing(history, start, p))
  }

  /** The same, with `here` just read and all of it but `rest` taken down. */
  ghost predicate WalkingHere(history: seq<Files>, start: nat, scope: Scope, found: seq<string>, turn: map<string, nat>, last: nat,
                              reading: nat, here: set<string>, rest: set<string>) {
    && start < |history| && NoRepeats(found)
    && (forall p :: p in here <==> p in history[|history| - 1] && InScope(scope, p) && TurnOf(turn, last, p) == reading)
    && (forall p :: p in found ==>
          InScope(scope, p) && WasPresent(history, start, p) && (TurnOf(turn, last, p) < reading || (p in here && p !in rest)))
    && (forall p :: p in here && p !in rest ==> p in found)
    && (forall p :: InScope(scope, p) && TurnOf(turn, last, p) < reading && p !in found ==> WasMissing(history, start, p))
  }

  lemma NothingWalked(history: seq<Files>, start: nat, scope: Scope, turn: map<string, nat>, last: nat)
    ensures Walking(history, start, scope, [], turn, last, 0)
  {
  }

  lemma {:induction false} PresenceLasts(before: seq<Files>, history: seq<Files>, start: nat, path: string)
    requires before <= history
    ensures WasPresent(before, start, path) ==> WasPresent(history, start, path)
    ensures WasMissing(before, start, path) ==> WasMissing(history, start, path)
  {
    assert forall t :: 0 <= t < |before| ==> history[t] == before[t];
  }

  lemma {:induction false} WalkingLonger(before: seq<Files>, history: seq<Files>, start: nat, scope: Scope, found: seq<string>,
                                         turn: map<string, nat>, last: nat, reading: nat)
    requires before <= history && start < |before| && Walking(before, start, scope, found, turn, last, reading)
    ensures var here := set p | p in history[|history| - 1] && InScope(scope, p) && TurnOf(turn, last, p) == reading;
            WalkingHere(history, start, scope, found, turn, last, reading, here, here)
  {
    hide NoRepeats, InScope, TurnOf, WasPresent, WasMissing;
    forall p
      ensures WasPresent(before, start, p) ==> WasPresent(history, start, p)
      ensures WasMissing(before, start, p) ==> WasMissing(history, start, p)
    {
      PresenceLasts(before, history, start, p);
    }
  }

  lemma {:induction false} PushNoRepeats(paths: seq<string>, path: string)
    requires NoRepeats(paths) && path !in paths
    ensures NoRepeats(paths + [path])
    decreases |paths|
  {
    if paths == [] {
      assert paths + [path] == [path];
    } else {
      PushNoRepeats(paths[1..], path);
      assert (paths + [path])[1..] == paths[1..] + [path];
    }
  }

  lemma {:induction false} WalkedOneMore(history: seq<Files>, start: nat, scope: Scope, found: seq<string>, turn: map<string, nat>, last: nat,
                                         reading: nat, here: set<string>, rest: set<string>, p: string)
    requires WalkingHere(history, start, scope, found, turn, last, reading, here, rest) && p in rest && rest <= here
    ensures WalkingHere(history, start, scope, found + [p], turn, last, reading, here, rest - {p})
  {
    PushNoRepeats(found, p);
    assert p in history[|history| - 1];
    hide NoRepeats, InScope, TurnOf;
  }

  lemma {:induction false} FolderWalked(history: seq<Files>, start: nat, scope: Scope, found: seq<string>, turn: map<string, nat>, last: nat,
                                        reading: nat, here: set<string>)
    requires WalkingHere(history, start, scope, found, turn, last, reading, here, {})
    ensures Walking(history, start, scope, found, turn, last, reading + 1)
  {
    hide NoRepeats, InScope, TurnOf;
    forall p | InScope(scope, p) && TurnOf(turn, last, p) == reading && p !in found ensures WasMissing(history, start, p) {
      assert p !in here && p !in history[|history| - 1];
    }
  }

  lemma AllWalked(history: seq<Files>, start: nat, scope: Scope, found: seq<string>, turn: map<string, nat>, last: nat)
    requires Walking(history, start, scope, found, turn, last, last + 1)
    ensures Walked(history, start, scope, found)
  {
    hide NoRepeats, InScope, WasPresent, WasMissing;
  }

  // ---------- what a pass shows ----------

  lemma NothingRead(history: seq<Files>, start: nat, revision: string -> string)
    ensures AllWereTrue(history, start, [], revision) && PathsOf([]) == []
  {
  }

  lemma {:induction false} ReadOneMore(before: seq<Files>, history: seq<Files>, start: nat, entries: seq<Entry>, e: Entry, revision: string -> string)
    requires before <= history && AllWereTrue(before, start, entries, revision) && start < |history|
    requires var now := history[|history| - 1]; e.path in now && e.revision == revision(now[e.path])
    ensures AllWereTrue(history, start, entries + [e], revision)
    ensures PathsOf(entries + [e]) == PathsOf(entries) + [e.path]
  {
    PathsOfPush(entries, e);
    assert WasTrue(history, start, e, revision);
    forall x | x in entries ensures WasTrue(history, start, x, revision) {
      assert WasTrue(before, start, x, revision);
      var t: nat :| start <= t < |before| && x.path in before[t] && revision(before[t][x.path]) == x.revision;
      assert history[t] == before[t];
    }
  }

  /** A listing and the reading of all that it listed make up a pass. */
  lemma {:induction false} PassOf(walked: seq<Files>, history: seq<Files>, start: nat, scope: Scope, listed: seq<string>, corpus: Corpus,
                                  revision: string -> string)
    requires walked <= history && Walked(walked, start, scope, listed) && walked != [] && start < |walked|
    requires forall p :: p in corpus.paths <==> p in listed
    requires PathsOf(corpus.revisions) == corpus.paths && AllWereTrue(history, |walked| - 1, corpus.revisions, revision)
    ensures Passed(history, start, scope, corpus, revision)
  {
    hide PathsOf, NoRepeats, InScope;
    forall e | e in corpus.revisions ensures WasTrue(history, start, e, revision) {
      assert WasTrue(history, |walked| - 1, e, revision);
    }
    forall p | InScope(scope, p) && p !in corpus.paths ensures WasMissing(history, start, p) {
      PresenceLasts(walked, history, start, p);
    }
  }

  lemma SortedListing(paths: seq<string>, rank: string -> int)
    ensures forall p :: p in SortBy(paths, rank) <==> p in paths
  {
    SortBySorts(paths, rank);
    SameElements(paths, SortBy(paths, rank));
  }

  lemma {:induction false} AgreedPass(history: seq<Files>, start: nat, scope: Scope, expected: Corpus, actual: Corpus, revision: string -> string)
    requires (forall p :: !Differs(expected, actual, p)) && Passed(history, start, scope, expected, revision)
    requires PathsOf(actual.revisions) == actual.paths
    ensures Passed(history, start, scope, actual, revision)
  {
    NothingChanged(expected, actual);
    hide Differs, PathsOf, InScope;
    forall e | e in actual.revisions ensures WasTrue(history, start, e, revision) {
      LookupFound(expected.revisions, e.path);
    }
  }

  lemma {:induction false} PassesAgree(history: seq<Files>, start: nat, at: nat, scope: Scope, expected: Corpus, actual: Corpus,
                                       revision: string -> string)
    requires start <= at < |history| && Passed(history[..at + 1], start, scope, expected, revision)
    requires Passed(history, at, scope, actual, revision) && forall p :: !Differs(expected, actual, p)
    ensures SeenTwice(history, start, at, scope, actual, revision)
    ensures Steady(history, start, at, scope, revision) ==> IsCorpus(actual, scope, history[at], revision)
  {
    AgreedPass(history[..at + 1], start, scope, expected, actual, revision);
    if Steady(history, start, at, scope, revision) {
      SteadyShows(history, start, at, scope, actual, revision);
    }
  }

  lemma {:induction false} SamePassTwice(history: seq<Files>, start: nat, at: nat, scope: Scope, corpus: Corpus, revision: string -> string)
    requires start <= at < |history| && Passed(history[..at + 1], start, scope, corpus, revision) && Passed(history, at, scope, corpus, revision)
    ensures SeenTwice(history, start, at, scope, corpus, revision)
    ensures Steady(history, start, at, scope, revision) ==> IsCorpus(corpus, scope, history[at], revision)
  {
    if Steady(history, start, at, scope, revision) {
      SteadyShows(history, start, at, scope, corpus, revision);
    }
  }

  // ---------- what a vault nobody writes to shows ----------

  lemma Faulty(history: seq<Files>, start: nat, faultsBefore: nat, faults: nat)
    requires faults > faultsBefore
    ensures !Undisturbed(history, start, faultsBefore, faults)
  {
  }

  /** A reading that stops on a path that was listed has met a write or a fault. */
  lemma {:induction false} Interrupted<T>(walked: seq<Files>, history: seq<Files>, first: nat, start: nat, scope: Scope, listed: seq<string>,
                                          paths: seq<string>, entries: Outcome<T>, faultsBefore: nat, faults: nat)
    requires walked <= history && first <= start < |walked| && Walked(walked, start, scope, listed) && !entries.Ready?
    requires forall p :: p in paths <==> p in listed
    requires entries.Missing? ==> exists p :: p in paths && WasMissing(history, |walked| - 1, p)
    requires entries.Failed? ==> faults > faultsBefore
    ensures !Undisturbed(history, first, faultsBefore, faults)
  {
    if entries.Missing? {
      var p :| p in paths && WasMissing(history, |walked| - 1, p);
      assert WasPresent(walked, start, p);
      var i: nat :| start <= i < |walked| && p in walked[i];
      var k: nat :| |walked| - 1 <= k < |history| && p !in history[k];
      assert history[i] == walked[i];
    }
  }

  /** In an undisturbed vault a pass shows the vault. */
  lemma {:induction false} StillPass(history: seq<Files>, first: nat, start: nat, scope: Scope, corpus: Corpus, revision: string -> string,
                                     faults: nat)
    requires first <= start && Passed(history, start, scope, corpus, revision) && Undisturbed(history, first, faults, faults)
    ensures IsCorpus(corpus, scope, history[first], revision)
  {
    PathsOfMembers(corpus.revisions);
    forall e | e in corpus.revisions ensures e.path in history[first] && e.revision == revision(history[first][e.path]) {
      assert WasTrue(history, start, e, revision);
    }
    forall p ensures p in corpus.paths <==> p in history[first] && InScope(scope, p) {
      if InScope(scope, p) && p !in corpus.paths {
        assert WasMissing(history, start, p);
      }
    }
  }

  lemma {:induction false} PassLasts(before: seq<Files>, history: seq<Files>, start: nat, scope: Scope, corpus: Corpus, revision: string -> string)
    requires before <= history && Passed(before, start, scope, corpus, revision)
    ensures Passed(history, start, scope, corpus, revision)
  {
    hide PathsOf, InScope;
    assert forall t :: 0 <= t < |before| ==> history[t] == before[t];
    forall e | e in corpus.revisions ensures WasTrue(history, start, e, revision) {
      assert WasTrue(before, start, e, revision);
      var t: nat :| start <= t < |before| && e.path in before[t] && revision(before[t][e.path]) == e.revision;
      assert e.path in history[t];
    }
    forall p | InScope(scope, p) && p !in corpus.paths ensures WasMissing(history, start, p) {
      PresenceLasts(before, history, start, p);
    }
  }

  lemma {:induction false} LookupIs(entries: seq<Entry>, path: string, revision: string)
    requires path in PathsOf(entries) && forall e :: e in entries && e.path == path ==> e.revision == revision
    ensures Lookup(entries, path) == Some(revision)
  {
    PathsOfMembers(entries);
    var e :| e in entries && e.path == path;
    LookupOnly(entries, e);
  }

  lemma {:induction false} OneVaultOneCorpus(expected: Corpus, actual: Corpus, scope: Scope, files: Files, revision: string -> string)
    requires IsCorpus(expected, scope, files, revision) && IsCorpus(actual, scope, files, revision)
    ensures forall p :: !Differs(expected, actual, p)
  {
    PathsOfMembers(actual.revisions);
    hide PathsOf, InScope;
    forall e | e in actual.revisions ensures Lookup(expected.revisions, e.path) == Some(e.revision) {
      assert e.path in actual.paths;
      LookupIs(expected.revisions, e.path, e.revision);
    }
  }

  lemma {:induction false} ChangedIsDisturbed(history: seq<Files>, first: nat, start: nat, at: nat, scope: Scope, expected: Corpus, actual: Corpus,
                                              path: string, revision: string -> string, faultsBefore: nat, faults: nat)
    requires first <= start <= at < |history| && Passed(history[..at + 1], start, scope, expected, revision)
    requires Passed(history, at, scope, actual, revision) && Differs(expected, actual, path)
    ensures !Undisturbed(history, first, faultsBefore, faults)
  {
    if Undisturbed(history, first, faultsBefore, faults) {
      PassLasts(history[..at + 1], history, start, scope, expected, revision);
      StillPass(history, first, start, scope, expected, revision, faults);
      StillPass(history, first, at, scope, actual, revision, faults);
      OneVaultOneCorpus(expected, actual, scope, history[first], revision);
      assert false;
    }
  }

  lemma HasFirst(paths: seq<string>)
    requires paths != []
    ensures exists p :: p in paths
  {
    assert paths[0] in paths;
  }

  /** Sorted lists of the same paths, each once, are the same when the order tells them apart. */
  lemma {:induction false} SortedOnce(a: seq<string>, b: seq<string>, rank: string -> int)
    requires Sorted(a, rank) && Sorted(b, rank) && NoRepeats(a) && NoRepeats(b) && Distinguishes(rank)
    requires forall p :: p in a <==> p in b
    ensures a == b
    decreases |a|
  {
    if a == [] {
      if b != [] {
        HasFirst(b);
        assert false;
      }
    } else {
      assert a[0] in b;
      assert b[0] in a;
      var i :| 0 <= i < |b| && b[i] == a[0];
      var j :| 0 <= j < |a| && a[j] == b[0];
      SortedAt(b, rank, 0, i);
      SortedAt(a, rank, 0, j);
      assert a[0] == b[0];
      forall p ensures p in a[1..] <==> p in b[1..] {
        assert p in a <==> p == a[0] || p in a[1..];
        assert p in b <==> p == b[0] || p in b[1..];
      }
      SortedOnce(a[1..], b[1..], rank);
      HeadTail(a);
      HeadTail(b);
    }
  }

  lemma {:induction false} StillWalk(history: seq<Files>, first: nat, start: nat, scope: Scope, listed: seq<string>, faults: nat)
    requires first <= start && Walked(history, start, scope, listed) && Undisturbed(history, first, faults, faults)
    ensures Listed(listed, history[first], scope)
  {
    forall p ensures p in listed <==> p in history[first] && InScope(scope, p) {
      if p in listed {
        assert WasPresent(history, start, p);
      } else if InScope(scope, p) {
        assert WasMissing(history, start, p);
      }
    }
  }

  lemma {:induction false} WalkLasts(before: seq<Files>, history: seq<Files>, start: nat, scope: Scope, listed: seq<string>)
    requires before <= history && Walked(before, start, scope, listed)
    ensures Walked(history, start, scope, listed)
  {
    hide NoRepeats, InScope, WasPresent, WasMissing;
    forall p
      ensures WasPresent(before, start, p) ==> WasPresent(history, start, p)
      ensures WasMissing(before, start, p) ==> WasMissing(history, start, p)
    {
      PresenceLasts(before, history, start, p);
    }
  }

  lemma {:induction false} SortKeepsOnce(paths: seq<string>, rank: string -> int)
    requires NoRepeats(paths)
    ensures NoRepeats(SortBy(paths, rank)) && Sorted(SortBy(paths, rank), rank)
  {
    SortBySorts(paths, rank);
    CountedOnce(paths);
    OnceIsNoRepeat(SortBy(paths, rank));
  }

  lemma {:induction false} OrdersAreDisturbed(history: seq<Files>, first: nat, start: nat, at: nat, scope: Scope, listed: seq<string>,
                                              listedAgain: seq<string>, rank: string -> int, faultsBefore: nat, faults: nat)
    requires first <= start <= at < |history|
    requires Walked(history, start, scope, listed) && Walked(history, at, scope, listedAgain)
    requires SortBy(listed, rank) != SortBy(listedAgain, rank)
    ensures !(Undisturbed(history, first, faultsBefore, faults) && Distinguishes(rank))
  {
    if Undisturbed(history, first, faultsBefore, faults) && Distinguishes(rank) {
      StillWalk(history, first, start, scope, listed, faults);
      StillWalk(history, first, at, scope, listedAgain, faults);
      SortKeepsOnce(listed, rank);
      SortKeepsOnce(listedAgain, rank);
      SortedListing(listed, rank);
      SortedListing(listedAgain, rank);
      hide NoRepeats, Sorted, SortBy, InScope, Distinguishes;
      SortedOnce(SortBy(listed, rank), SortBy(listedAgain, rank), rank);
      assert false;
    }
  }

  lemma {:induction false} SameEntries(a: seq<Entry>, b: seq<Entry>, files: Files, revision: string -> string)
    requires PathsOf(a) == PathsOf(b)
    requires forall e :: e in a || e in b ==> e.path in files && e.revision == revision(files[e.path])
    ensures a == b
    decreases |a|
  {
    if a == [] {
      assert b == [];
    } else {
      assert b != [];
      assert PathsOf(a)[1..] == PathsOf(a[1..]) && PathsOf(b)[1..] == PathsOf(b[1..]);
      assert PathsOf(a)[0] == PathsOf(b)[0] && a[0] in a && b[0] in b;
      SameEntries(a[1..], b[1..], files, revision);
      HeadTail(a);
      HeadTail(b);
    }
  }

  lemma {:induction false} EntriesAreDisturbed(history: seq<Files>, first: nat, start: nat, at: nat, scope: Scope, paths: seq<string>,
                                               entries: seq<Entry>, entriesAgain: seq<Entry>, revision: string -> string,
                                               faultsBefore: nat, faults: nat)
    requires first <= start <= at < |history| && entries != entriesAgain
    requires Passed(history[..at + 1], start, scope, Corpus(paths, entries), revision)
    requires Passed(history, at, scope, Corpus(paths, entriesAgain), revision)
    ensures !Undisturbed(history, first, faultsBefore, faults)
  {
    if Undisturbed(history, first, faultsBefore, faults) {
      PassLasts(history[..at + 1], history, start, scope, Corpus(paths, entries), revision);
      StillPass(history, first, start, scope, Corpus(paths, entries), revision, faults);
      StillPass(history, first, at, scope, Corpus(paths, entriesAgain), revision, faults);
      SameEntries(entries, entriesAgain, history[first], revision);
      assert false;
    }
  }

  // ---------- the plan that relies on the corpus ----------

  /** A document the planner read: the text its rewrites were computed from. */
  datatype Snapshot = Snapshot(path: string, text: string)

  /** `unreadable` are the canvases that could not be read or parsed; they block the plan. */
  datatype Plan<R> = Thrown | Conflict(changed: seq<string>) | Planned(rewrites: seq<R>, unreadable: set<string>)

  function EntriesOf(read: seq<Snapshot>, revision: string -> string): seq<Entry> {
    if read == [] then [] else [Entry(read[0].path, revision(read[0].text))] + EntriesOf(read[1..], revision)
  }

  /** All rewrites of the documents read, in the order they were read. */
  function RewritesOf<R>(read: seq<Snapshot>, rewrite: (string, string) -> seq<R>): seq<R> {
    if read == [] then [] else rewrite(read[0].path, read[0].text) + RewritesOf(read[1..], rewrite)
  }

  function SnapshotPaths(read: seq<Snapshot>): seq<string> {
    if read == [] then [] else [read[0].path] + SnapshotPaths(read[1..])
  }

  ghost predicate WasRead(history: seq<Files>, start: nat, s: Snapshot) {
    exists t: nat :: start <= t < |history| && s.path in history[t] && history[t][s.path] == s.text
  }

  ghost predicate AllWereRead(history: seq<Files>, start: nat, read: seq<Snapshot>) {
    forall s :: s in read ==> WasRead(history, start, s)
  }

  /** The documents read are the whole vault, within the scope, at one instant. */
  ghost predicate ReadWhole(read: seq<Snapshot>, scope: Scope, files: Files) {
    && (forall s :: s in read ==> s.path in files && files[s.path] == s.text && InScope(scope, s.path))
    && forall p :: p in files && InScope(scope, p) ==> exists s :: s in read && s.path == p
  }

  lemma {:induction false} PushSnapshot<R>(read: seq<Snapshot>, s: Snapshot, revision: string -> string, rewrite: (string, string) -> seq<R>)
    ensures EntriesOf(read + [s], revision) == EntriesOf(read, revision) + [Entry(s.path, revision(s.text))]
    ensures RewritesOf(read + [s], rewrite) == RewritesOf(read, rewrite) + rewrite(s.path, s.text)
    ensures SnapshotPaths(read + [s]) == SnapshotPaths(read) + [s.path]
    decreases |read|
  {
    if read == [] {
      assert read + [s] == [s] && [s][1..] == [];
    } else {
      PushSnapshot(read[1..], s, revision, rewrite);
      assert (read + [s])[1..] == read[1..] + [s];
      Associative(rewrite(read[0].path, read[0].text), RewritesOf(read[1..], rewrite), rewrite(s.path, s.text));
    }
  }

  lemma {:induction false} SnapshotMembers(read: seq<Snapshot>, revision: string -> string)
    ensures forall s :: s in read ==> Entry(s.path, revision(s.text)) in EntriesOf(read, revision)
    ensures forall e :: e in EntriesOf(read, revision) ==> exists s :: s in read && e == Entry(s.path, revision(s.text))
    ensures forall s :: s in read ==> s.path in SnapshotPaths(read)
    ensures forall p :: p in SnapshotPaths(read) ==> exists s :: s in read && s.path == p
  {
    SnapshotsAt(read, revision);
    var entries, paths := EntriesOf(read, revision), SnapshotPaths(read);
    hide EntriesOf, SnapshotPaths;
    forall s | s in read ensures Entry(s.path, revision(s.text)) in entries && s.path in paths {
      var i :| 0 <= i < |read| && read[i] == s;
      assert entries[i] in entries && paths[i] in paths;
    }
    forall e | e in entries ensures exists s :: s in read && e == Entry(s.path, revision(s.text)) {
      var i :| 0 <= i < |entries| && entries[i] == e;
      assert read[i] in read;
    }
    forall p | p in paths ensures exists s :: s in read && s.path == p {
      var i :| 0 <= i < |paths| && paths[i] == p;
      assert read[i] in read;
    }
  }

  lemma {:induction false} SnapshotsAt(read: seq<Snapshot>, revision: string -> string)
    ensures |EntriesOf(read, revision)| == |SnapshotPaths(read)| == |read|
    ensures forall i :: 0 <= i < |read| ==>
      EntriesOf(read, revision)[i] == Entry(read[i].path, revision(read[i].text)) && SnapshotPaths(read)[i] == read[i].path
    decreases |read|
  {
    if read != [] {
      SnapshotsAt(read[1..], revision);
    }
  }

  lemma {:induction false} OneTextPerPath(read: seq<Snapshot>, a: Snapshot, b: Snapshot)
    requires NoRepeats(SnapshotPaths(read)) && a in read && b in read && a.path == b.path
    ensures a == b
    decreases |read|
  {
    assert SnapshotPaths(read)[1..] == SnapshotPaths(read[1..]);
    SnapshotMembers(read[1..], (s: string) => s);
    if a in read[1..] && b in read[1..] {
      OneTextPerPath(read[1..], a, b);
    }
  }

  lemma {:induction false} UniqueRevision(read: seq<Snapshot>, s: Snapshot, revision: string -> string)
    requires NoRepeats(SnapshotPaths(read)) && s in read
    ensures Lookup(EntriesOf(read, revision), s.path) == Some(revision(s.text))
  {
    SnapshotMembers(read, revision);
    var entries := EntriesOf(read, revision);
    forall e | e in entries && e.path == s.path ensures e == Entry(s.path, revision(s.text)) {
      var x :| x in read && e == Entry(x.path, revision(x.text));
      OneTextPerPath(read, x, s);
    }
    LookupOnly(entries, Entry(s.path, revision(s.text)));
  }

  /** A corpus that matches the documents read shows that they are the vault of its instant. */
  lemma {:induction false} MatchingCorpus(read: seq<Snapshot>, paths: seq<string>, actual: Corpus, scope: Scope, files: Files,
                           revision: string -> string)
    requires NoRepeats(SnapshotPaths(read)) && Injective(revision)
    requires forall p :: p in paths <==> p in SnapshotPaths(read)
    requires IsCorpus(actual, scope, files, revision)
    requires forall p :: !Differs(Corpus(paths, EntriesOf(read, revision)), actual, p)
    ensures ReadWhole(read, scope, files)
  {
    var expected := Corpus(paths, EntriesOf(read, revision));
    NothingChanged(expected, actual);
    SnapshotMembers(read, revision);
    PathsOfMembers(actual.revisions);
    hide Differs, PathsOf, SnapshotPaths, EntriesOf, Lookup, InScope, NoRepeats;
    forall s | s in read ensures s.path in files && files[s.path] == s.text && InScope(scope, s.path) {
      assert s.path in expected.paths && s.path in actual.paths;
      var e :| e in actual.revisions && e.path == s.path;
      UniqueRevision(read, s, revision);
    }
  }

  lemma {:induction false} ReadLasts(before: seq<Files>, history: seq<Files>, start: nat, from: nat, read: seq<Snapshot>)
    requires before <= history && from <= start && AllWereRead(before, start, read)
    ensures AllWereRead(history, from, read)
  {
    forall s | s in read ensures WasRead(history, from, s) {
      assert WasRead(before, start, s);
      var t: nat :| start <= t < |before| && s.path in before[t] && before[t][s.path] == s.text;
      assert history[t] == before[t];
    }
  }

  lemma {:induction false} JustRead(before: seq<Files>, history: seq<Files>, start: nat, read: seq<Snapshot>, s: Snapshot)
    requires before <= history && start < |history| && AllWereRead(before, start, read)
    requires var now := history[|history| - 1]; s.path in now && now[s.path] == s.text
    ensures AllWereRead(history, start, read + [s])
  {
    ReadLasts(before, history, start, start, read);
    assert WasRead(history, start, s);
  }

  /** Reads documents one by one and computes their rewrites, up to the first that cannot be read. */
  method ReadDocuments<R>(vault: Vault, paths: seq<string>, rewrite: (string, string) -> seq<R>)
      returns (stopped: Option<string>, rewrites: seq<R>, read: seq<Snapshot>)
    requires vault.Valid()
    modifies vault
    ensures vault.Valid() && old(vault.history) <= vault.history && old(vault.faults) <= vault.faults
    ensures stopped.None? ==> SnapshotPaths(read) == paths && rewrites == RewritesOf(read, rewrite)
    ensures stopped.None? ==> AllWereRead(vault.history, |old(vault.history)| - 1, read)
    ensures stopped.Some? ==>
      && stopped.value in paths
      && (vault.faults > old(vault.faults) || WasMissing(vault.history, |old(vault.history)| - 1, stopped.value))
  {
    hide SnapshotPaths, RewritesOf, EntriesOf, AllWereRead;
    read, rewrites := [], [];
    NothingSnapped(rewrite, vault.history, |vault.history| - 1);
    for i := 0 to |paths|
      invariant vault.Valid() && old(vault.history) <= vault.history && old(vault.faults) <= vault.faults
      invariant SnapshotPaths(read) == paths[..i] && rewrites == RewritesOf(read, rewrite)
      invariant AllWereRead(vault.history, |old(vault.history)| - 1, read)
    {
      ghost var before := vault.history;
      var text := vault.ReadText(paths[i]);
      if !text.Ready? {
        assert text.Missing? ==> paths[i] !in vault.history[|vault.history| - 1];
        return Some(paths[i]), [], [];
      }
      var s := Snapshot(paths[i], text.value);
      PushSnapshot(read, s, vault.revision, rewrite);
      JustRead(before, vault.history, |old(vault.history)| - 1, read, s);
      read := read + [s];
      rewrites := rewrites + rewrite(paths[i], text.value);
    }
    assert paths[..|paths|] == paths;
    return None, rewrites, read;
  }

  lemma NothingSnapped<R>(rewrite: (string, string) -> seq<R>, history: seq<Files>, start: nat)
    ensures SnapshotPaths([]) == [] && RewritesOf([], rewrite) == [] && AllWereRead(history, start, [])
  {
  }

  function Canvases(paths: seq<string>): seq<string> {
    if paths == [] then [] else (if IsCanvas(paths[0]) then [paths[0]] else []) + Canvases(paths[1..])
  }

  lemma {:induction false} CanvasesMembers(paths: seq<string>)
    ensures forall p :: p in Canvases(paths) <==> p in paths && IsCanvas(p)
    decreases |paths|
  {
    if paths != [] {
      CanvasesMembers(paths[1..]);
      HeadTail(paths);
    }
  }

  /** Why a canvas blocks: a fault, or an instant at which it was missing or held what does not parse. */
  ghost predicate IsUnreadable(history: seq<Files>, start: nat, path: string, parses: (string, string) -> bool, faulty: bool) {
    || faulty || WasMissing(history, start, path)
    || exists text :: WasRead(history, start, Snapshot(path, text)) && !parses(path, text)
  }

  /** The loop invariant: the paths scanned so far were read and parse, or are unreadable. */
  ghost predicate Scanned<R>(history: seq<Files>, start: nat, paths: seq<string>, rewrite: (string, string) -> seq<R>,
                             parses: (string, string) -> bool, faulty: bool, rewrites: seq<R>, read: seq<Snapshot>, unreadable: set<string>) {
    && AllWereRead(history, start, read)
    && (forall s :: s in read ==> s.path in paths && (parses(s.path, s.text) || s.path in unreadable))
    && (forall p :: p in unreadable ==> p in paths && IsUnreadable(history, start, p, parses, faulty))
    && (forall p :: p in paths && p !in unreadable ==> exists s :: s in read && s.path == p)
    && (unreadable == {} ==> SnapshotPaths(read) == paths && rewrites == RewritesOf(read, rewrite))
  }

  lemma {:induction false} UnreadableLasts(before: seq<Files>, history: seq<Files>, start: nat, from: nat, path: string,
                                           parses: (string, string) -> bool, faulty: bool, faultyNow: bool)
    requires before <= history && from <= start && (faulty ==> faultyNow) && IsUnreadable(before, start, path, parses, faulty)
    ensures IsUnreadable(history, from, path, parses, faultyNow)
  {
    PresenceLasts(before, history, start, path);
    assert WasMissing(history, start, path) ==> WasMissing(history, from, path);
    if exists text :: WasRead(before, start, Snapshot(path, text)) && !parses(path, text) {
      var text :| WasRead(before, start, Snapshot(path, text)) && !parses(path, text);
      ReadLasts(before, history, start, from, [Snapshot(path, text)]);
      assert WasRead(history, from, Snapshot(path, text));
    }
  }

  /** The canvas at `path` was read as `text`, or could not be read. */
  lemma {:induction false} ScannedOneMore<R>(before: seq<Files>, history: seq<Files>, start: nat, paths: seq<string>, path: string,
                           text: Option<string>, rewrite: (string, string) -> seq<R>, parses: (string, string) -> bool, faulty: bool, faultyNow: bool,
                           rewrites: seq<R>, read: seq<Snapshot>, unreadable: set<string>)
    requires before <= history && start < |history| && (faulty ==> faultyNow)
    requires Scanned(before, start, paths, rewrite, parses, faulty, rewrites, read, unreadable)
    requires var now := history[|history| - 1];
             if text.Some? then path in now && now[path] == text.value else faultyNow || path !in now
    ensures text.None? ==> Scanned(history, start, paths + [path], rewrite, parses, faultyNow, rewrites, read, unreadable + {path})
    ensures text.Some? ==>
      var read' := read + [Snapshot(path, text.value)];
      if parses(path, text.value)
      then Scanned(history, start, paths + [path], rewrite, parses, faultyNow, rewrites + rewrite(path, text.value), read', unreadable)
      else Scanned(history, start, paths + [path], rewrite, parses, faultyNow, rewrites, read', unreadable + {path})
  {
    hide RewritesOf, SnapshotPaths;
    ReadLasts(before, history, start, start, read);
    forall p | p in unreadable ensures IsUnreadable(history, start, p, parses, faultyNow) {
      UnreadableLasts(before, history, start, start, p, parses, faulty, faultyNow);
    }
    if text.Some? {
      JustRead(before, history, start, read, Snapshot(path, text.value));
      assert WasRead(history, start, Snapshot(path, text.value));
      PushSnapshot(read, Snapshot(path, text.value), (s: string) => s, rewrite);
    } else {
      assert faultyNow || WasMissing(history, start, path);
    }
    hide WasRead, WasMissing;
  }

  /** A canvas that cannot be read or parsed is skipped and reported. */
  method ScanCanvases<R>(vault: Vault, paths: seq<string>, rewrite: (string, string) -> seq<R>, parses: (string, string) -> bool)
      returns (rewrites: seq<R>, read: seq<Snapshot>, unreadable: set<string>)
    requires vault.Valid()
    modifies vault
    ensures vault.Valid() && old(vault.history) <= vault.history && old(vault.faults) <= vault.faults
    ensures Scanned(vault.history, |old(vault.history)| - 1, paths, rewrite, parses, vault.faults > old(vault.faults), rewrites, read, unreadable)
  {
    hide SnapshotPaths, RewritesOf, EntriesOf, Scanned;
    rewrites, read, unreadable := [], [], {};
    NothingScanned(vault.history, |vault.history| - 1, rewrite, parses);
    for i := 0 to |paths|
      invariant vault.Valid() && old(vault.history) <= vault.history && old(vault.faults) <= vault.faults
      invariant Scanned(vault.history, |old(vault.history)| - 1, paths[..i], rewrite, parses, vault.faults > old(vault.faults),
                        rewrites, read, unreadable)
    {
      ghost var before, faulty := vault.history, vault.faults > old(vault.faults);
      var text := vault.ReadText(paths[i]);
      ScannedOneMore(before, vault.history, |old(vault.history)| - 1, paths[..i], paths[i], if text.Ready? then Some(text.value) else None,
                     rewrite, parses, faulty, vault.faults > old(vault.faults), rewrites, read, unreadable);
      assert paths[..i + 1] == paths[..i] + [paths[i]];
      if !text.Ready? {
        unreadable := unreadable + {paths[i]};
        continue;
      }
      read := read + [Snapshot(paths[i], text.value)];
      if !parses(paths[i], text.value) {
        unreadable := unreadable + {paths[i]};
        continue;
      }
      rewrites := rewrites + rewrite(paths[i], text.value);
    }
    assert paths[..|paths|] == paths;
  }

  lemma NothingScanned<R>(history: seq<Files>, start: nat, rewrite: (string, string) -> seq<R>, parses: (string, string) -> bool)
    ensures Scanned(history, start, [], rewrite, parses, false, [], [], {})
  {
  }

  lemma {:induction false} JoinRewrites<R>(a: seq<Snapshot>, b: seq<Snapshot>, rewrite: (string, string) -> seq<R>)
    ensures RewritesOf(a + b, rewrite) == RewritesOf(a, rewrite) + RewritesOf(b, rewrite)
    decreases |a|
  {
    if a == [] {
      assert a + b == b;
    } else {
      JoinRewrites(a[1..], b, rewrite);
      assert (a + b)[1..] == a[1..] + b;
      Associative(rewrite(a[0].path, a[0].text), RewritesOf(a[1..], rewrite), RewritesOf(b, rewrite));
    }
  }

  lemma {:induction false} JoinSnapshots(a: seq<Snapshot>, b: seq<Snapshot>, revision: string -> string)
    ensures SnapshotPaths(a + b) == SnapshotPaths(a) + SnapshotPaths(b)
    ensures EntriesOf(a + b, revision) == EntriesOf(a, revision) + EntriesOf(b, revision)
    decreases |a|
  {
    if a == [] {
      assert a + b == b;
    } else {
      JoinSnapshots(a[1..], b, revision);
      assert (a + b)[1..] == a[1..] + b;
      Associative([a[0].path], SnapshotPaths(a[1..]), SnapshotPaths(b));
      Associative([Entry(a[0].path, revision(a[0].text))], EntriesOf(a[1..], revision), EntriesOf(b, revision));
    }
  }

  lemma {:induction false} JoinNoRepeats(a: seq<string>, b: seq<string>)
    requires NoRepeats(a) && NoRepeats(b) && forall p :: p in a ==> p !in b
    ensures NoRepeats(a + b)
    decreases |a|
  {
    if a == [] {
      assert a + b == b;
    } else {
      assert (a + b)[1..] == a[1..] + b;
      JoinNoRepeats(a[1..], b);
    }
  }

  lemma UndisturbedLater(history: seq<Files>, first: nat, later: nat, faultsBefore: nat, between: nat, faults: nat)
    requires first <= later < |history| && faultsBefore <= between <= faults && Undisturbed(history, first, faultsBefore, faults)
    ensures Undisturbed(history, later, between, faults) && between == faultsBefore && history[later] == history[first]
  {
  }

  lemma {:induction false} UndisturbedIsSteady(history: seq<Files>, first: nat, start: nat, at: nat, scope: Scope,
                                              revision: string -> string, faults: nat)
    requires first <= start <= at < |history| && Undisturbed(history, first, faults, faults)
    ensures Steady(history, start, at, scope, revision)
  {
  }

  /** In an undisturbed vault no document that was listed is missing. */
  lemma {:induction false} StoppedIsDisturbed(walked: seq<Files>, history: seq<Files>, first: nat, start: nat, from: nat, scope: Scope,
                                              listed: seq<string>, stopped: string, faultsBefore: nat, faults: nat)
    requires walked <= history && first <= start <= from && Walked(walked, start, scope, listed) && stopped in listed
    requires faults > faultsBefore || WasMissing(history, from, stopped)
    ensures !Undisturbed(history, first, faultsBefore, faults)
  {
    assert WasPresent(walked, start, stopped);
    var i: nat :| start <= i < |walked| && stopped in walked[i];
    assert history[i] == walked[i];
  }

  /** In an undisturbed vault the documents read match the corpus. */
  lemma {:induction false} StillMatches(read: seq<Snapshot>, paths: seq<string>, actual: Corpus, scope: Scope, files: Files, revision: string -> string)
    requires forall p :: p in paths <==> p in SnapshotPaths(read)
    requires forall p :: p in paths <==> p in files && InScope(scope, p)
    requires forall s :: s in read ==> s.path in files && files[s.path] == s.text
    requires IsCorpus(actual, scope, files, revision)
    ensures forall p :: !Differs(Corpus(paths, EntriesOf(read, revision)), actual, p)
  {
    var expected := Corpus(paths, EntriesOf(read, revision));
    SnapshotMembers(read, revision);
    PathsOfMembers(actual.revisions);
    PathsOfMembers(expected.revisions);
    hide PathsOf, SnapshotPaths, EntriesOf, InScope, Differs;
    forall e | e in actual.revisions ensures Lookup(expected.revisions, e.path) == Some(e.revision) {
      assert e.path in actual.paths && e.path in paths;
      var s :| s in read && s.path == e.path;
      LookupIs(expected.revisions, e.path, e.revision);
    }
    NothingChanged(expected, actual);
  }

  lemma {:induction false} StillRead(history: seq<Files>, first: nat, start: nat, read: seq<Snapshot>, faults: nat)
    requires first <= start && AllWereRead(history, start, read) && Undisturbed(history, first, faults, faults)
    ensures forall s :: s in read ==> s.path in history[first] && history[first][s.path] == s.text
  {
    forall s | s in read ensures s.path in history[first] && history[first][s.path] == s.text {
      assert WasRead(history, start, s);
    }
  }

  /** What the planner has read before it looks for a corpus. */
  datatype Pass<R> = Threw | Stopped(path: string) | Complete(paths: seq<string>, rewrites: seq<R>, unreadable: set<string>)

  /** The paths and documents of a complete pass belong together. */
  ghost predicate PassFits<R>(scope: Scope, visible: seq<string>, read: seq<Snapshot>, pass: Pass<R>, rewrite: (string, string) -> seq<R>)
    requires pass.Complete?
  {
    && (pass.unreadable == {} ==>
          && pass.rewrites == RewritesOf(read, rewrite) && NoRepeats(SnapshotPaths(read))
          && forall p :: p in pass.paths <==> p in SnapshotPaths(read))
    && (scope.References? ==> forall p :: IsCanvas(p) ==> (p in pass.paths <==> p in visible))
    && (forall p :: p in pass.unreadable ==> scope.References? && IsCanvas(p) && p in visible)
  }

  /** In an undisturbed vault a complete pass has met exactly the files there are. */
  ghost predicate PassIsExact<R>(scope: Scope, read: seq<Snapshot>, pass: Pass<R>, files: Files, parses: (string, string) -> bool)
    requires pass.Complete?
  {
    && (forall s :: s in read ==> s.path in files && files[s.path] == s.text)
    && (forall p :: p in pass.paths <==> p in files && InScope(scope, p))
    && (forall p :: p in pass.unreadable <==> scope.References? && IsCanvas(p) && p in files && !parses(p, files[p]))
  }

  /** Canvases refer to attachments too, but only a rename follows them. */
  method ReadCanvases<R>(vault: Vault, scope: Scope, visible: seq<string>, notePaths: seq<string>, rewrite: (string, string) -> seq<R>,
                         parses: (string, string) -> bool)
      returns (paths: seq<string>, scanned: seq<string>, rewrites: seq<R>, read: seq<Snapshot>, unreadable: set<string>)
    requires vault.Valid()
    modifies vault
    ensures vault.Valid() && old(vault.history) <= vault.history && old(vault.faults) <= vault.faults
    ensures forall p :: p in paths <==> p in notePaths || p in scanned
    ensures NoRepeats(scanned) && forall p :: p in scanned <==> scope.References? && IsCanvas(p) && p in visible
    ensures Scanned(vault.history, |old(vault.history)| - 1, scanned, rewrite, parses, vault.faults > old(vault.faults), rewrites, read, unreadable)
  {
    hide SortedPaths, NoRepeats, Canvases, IsCanvas, Scanned, Sorted;
    paths, scanned, rewrites, read, unreadable := notePaths, [], [], [], {};
    if scope.References? {
      scanned := SortedPaths(Canvases(visible), vault.rank);
      rewrites, read, unreadable := ScanCanvases(vault, scanned, rewrite, parses);
      paths := SortedPaths(notePaths + scanned, vault.rank);
      SortedPathsMembers(notePaths + scanned, vault.rank);
    } else {
      NothingScanned(vault.history, |vault.history| - 1, rewrite, parses);
    }
    ScannedCanvases(scope, visible, scanned, vault.rank);
  }

  /** The listings and reads of the planner, one after the other. */
  method ReadAll<R>(vault: Vault, scope: Scope, rewriteFor: seq<string> -> (string, string) -> seq<R>, parses: (string, string) -> bool)
      returns (pass: Pass<R>, visible: seq<string>, read: seq<Snapshot>)
    requires vault.Valid() && !scope.Visible?
    modifies vault
    ensures vault.Valid() && old(vault.history) <= vault.history && old(vault.faults) <= vault.faults
    ensures pass.Threw? ==> vault.faults > old(vault.faults)
    ensures pass.Stopped? ==> !Undisturbed(vault.history, |old(vault.history)| - 1, old(vault.faults), vault.faults)
    ensures pass.Complete? ==>
      && Walked(vault.history, |old(vault.history)| - 1, Visible, visible)
      && AllWereRead(vault.history, |old(vault.history)| - 1, read)
      && PassFits(scope, visible, read, pass, rewriteFor(visible))
      && (forall p :: p in pass.unreadable ==>
            IsUnreadable(vault.history, |old(vault.history)| - 1, p, parses, vault.faults > old(vault.faults)))
      && (Undisturbed(vault.history, |old(vault.history)| - 1, old(vault.faults), vault.faults) ==>
            PassIsExact(scope, read, pass, vault.history[|old(vault.history)| - 1], parses))
  {
    hide Walked, AllWereRead, PassFits, PassIsExact, Undisturbed, SortedPaths, SnapshotPaths, EntriesOf, RewritesOf, NoRepeats, Canvases,
         IsCanvas, IsMarkdown, InScope, Scanned, IsUnreadable, Sorted, WasMissing;
    ghost var first, faultsBefore := |vault.history| - 1, vault.faults;
    visible, read := [], [];
    var seen := vault.List(Visible);
    if !seen.Ready? { return Threw, visible, read; }
    ghost var h1 := vault.history;
    visible := seen.value;
    var listed := vault.List(Markdown);
    if !listed.Ready? { return Threw, visible, read; }
    ghost var h2 := vault.history;
    var markdownPaths := SortedPaths(listed.value, vault.rank);
    SortedPathsMembers(listed.value, vault.rank);
    var stopped, notes, readNotes := ReadDocuments(vault, markdownPaths, rewriteFor(visible));
    ghost var h3, between := vault.history, vault.faults;
    if stopped.Some? {
      StoppedIsDisturbed(h2, h3, first, |h1| - 1, |h2| - 1, Markdown, listed.value, stopped.value, faultsBefore, vault.faults);
      return Stopped(stopped.value), visible, read;
    }
    var paths, scanned, canvasRewrites, readCanvases, unreadable := ReadCanvases(vault, scope, visible, markdownPaths, rewriteFor(visible), parses);
    pass := Complete(paths, notes + canvasRewrites, unreadable);
    read := readNotes + readCanvases;
    ghost var faulty := vault.faults > faultsBefore;
    WalkedNotes(h2, |h1| - 1, listed.value);
    WalkLasts(h1, vault.history, first, Visible, visible);
    WalkLasts(h2, vault.history, |h1| - 1, Markdown, listed.value);
    ReadLasts(h3, vault.history, |h2| - 1, first, readNotes);
    ScanLasts(vault.history, |h3| - 1, first, scanned, rewriteFor(visible), parses, vault.faults > between, faulty, canvasRewrites,
              readCanvases, unreadable);
    ReadJoin(vault.history, first, readNotes, readCanvases);
    PassFitsTogether(scope, visible, markdownPaths, scanned, readNotes, readCanvases, pass, notes, canvasRewrites, rewriteFor(visible));
    if Undisturbed(vault.history, first, faultsBefore, vault.faults) {
      StillPassIsExact(vault.history, first, |h1| - 1, scope, visible, listed.value, scanned, readNotes, readCanvases, pass, rewriteFor(visible),
                       parses, canvasRewrites, faultsBefore, vault.faults);
    }
  }

  lemma WalkedNotes(history: seq<Files>, start: nat, listed: seq<string>)
    requires Walked(history, start, Markdown, listed)
    ensures forall p :: p in listed ==> IsMarkdown(p)
  {
    hide IsMarkdown, NoRepeats;
  }

  lemma {:induction false} ScannedCanvases(scope: Scope, visible: seq<string>, scanned: seq<string>, rank: string -> int)
    requires scanned == if scope.References? then SortedPaths(Canvases(visible), rank) else []
    ensures NoRepeats(scanned) && forall p :: p in scanned <==> scope.References? && IsCanvas(p) && p in visible
  {
    SortedPathsMembers(Canvases(visible), rank);
    CanvasesMembers(visible);
  }

  lemma {:induction false} ScanLasts<R>(history: seq<Files>, start: nat, from: nat, paths: seq<string>, rewrite: (string, string) -> seq<R>,
                           parses: (string, string) -> bool, faulty: bool, faultyNow: bool, rewrites: seq<R>, read: seq<Snapshot>,
                           unreadable: set<string>)
    requires from <= start && (faulty ==> faultyNow) && Scanned(history, start, paths, rewrite, parses, faulty, rewrites, read, unreadable)
    ensures Scanned(history, from, paths, rewrite, parses, faultyNow, rewrites, read, unreadable) && AllWereRead(history, from, read)
    ensures forall p :: p in unreadable ==> p in paths && IsUnreadable(history, from, p, parses, faultyNow)
    ensures unreadable == {} ==> SnapshotPaths(read) == paths && rewrites == RewritesOf(read, rewrite)
  {
    hide RewritesOf, SnapshotPaths;
    ReadLasts(history, history, start, from, read);
    forall p | p in unreadable ensures IsUnreadable(history, from, p, parses, faultyNow) {
      UnreadableLasts(history, history, start, from, p, parses, faulty, faultyNow);
    }
  }

  /** Notes and canvases never share a path, so the documents read are read once each. */
  lemma {:induction false} PassFitsTogether<R>(scope: Scope, visible: seq<string>, notePaths: seq<string>, scanned: seq<string>,
                           readNotes: seq<Snapshot>, readCanvases: seq<Snapshot>, pass: Pass<R>, notes: seq<R>, canvasRewrites: seq<R>,
                           rewrite: (string, string) -> seq<R>)
    requires NoRepeats(notePaths) && (forall p :: p in notePaths ==> IsMarkdown(p)) && NoRepeats(scanned)
    requires forall p :: p in scanned <==> scope.References? && IsCanvas(p) && p in visible
    requires pass.Complete? && pass.rewrites == notes + canvasRewrites && forall p :: p in pass.paths <==> p in notePaths || p in scanned
    requires SnapshotPaths(readNotes) == notePaths && notes == RewritesOf(readNotes, rewrite)
    requires forall p :: p in pass.unreadable ==> p in scanned
    requires pass.unreadable == {} ==> SnapshotPaths(readCanvases) == scanned && canvasRewrites == RewritesOf(readCanvases, rewrite)
    ensures PassFits(scope, visible, readNotes + readCanvases, pass, rewrite)
  {
    JoinSnapshots(readNotes, readCanvases, (s: string) => s);
    JoinRewrites(readNotes, readCanvases, rewrite);
    hide NoRepeats, SnapshotPaths, RewritesOf, IsMarkdown, IsCanvas;
    forall p | p in notePaths ensures !IsCanvas(p) {
      MarkdownIsNoCanvas(p);
    }
    JoinNoRepeats(notePaths, scanned);
  }

  lemma {:induction false} ReadJoin(history: seq<Files>, start: nat, a: seq<Snapshot>, b: seq<Snapshot>)
    requires AllWereRead(history, start, a) && AllWereRead(history, start, b)
    ensures AllWereRead(history, start, a + b)
  {
    hide WasRead;
  }

  lemma {:induction false} StillPassIsExact<R>(history: seq<Files>, first: nat, start: nat, scope: Scope, visible: seq<string>, listed: seq<string>,
                           scanned: seq<string>, readNotes: seq<Snapshot>, readCanvases: seq<Snapshot>, pass: Pass<R>,
                           rewrite: (string, string) -> seq<R>, parses: (string, string) -> bool, canvasRewrites: seq<R>,
                           faultsBefore: nat, faults: nat)
    requires first <= start && !scope.Visible? && Undisturbed(history, first, faultsBefore, faults)
    requires Walked(history, first, Visible, visible) && Walked(history, start, Markdown, listed)
    requires forall p :: p in scanned <==> scope.References? && IsCanvas(p) && p in visible
    requires pass.Complete? && forall p :: p in pass.paths <==> p in listed || p in scanned
    requires AllWereRead(history, first, readNotes + readCanvases)
    requires Scanned(history, first, scanned, rewrite, parses, faults > faultsBefore, canvasRewrites, readCanvases, pass.unreadable)
    ensures PassIsExact(scope, readNotes + readCanvases, pass, history[first], parses)
  {
    StillRead(history, first, first, readNotes + readCanvases, faults);
    StillRead(history, first, first, readCanvases, faults);
    StillWalk(history, first, first, Visible, visible, faults);
    StillWalk(history, first, start, Markdown, listed, faults);
    hide IsMarkdown, IsCanvas, SnapshotPaths, RewritesOf, Walked, AllWereRead;
    var files := history[first];
    forall p ensures p in pass.unreadable <==> scope.References? && IsCanvas(p) && p in files && !parses(p, files[p]) {
      if p in pass.unreadable {
        StillUnreadable(history, first, p, parses, faults);
      } else if p in scanned {
        var s :| s in readCanvases && s.path == p;
      }
    }
  }

  lemma {:induction false} StillUnreadable(history: seq<Files>, first: nat, path: string, parses: (string, string) -> bool, faults: nat)
    requires Undisturbed(history, first, faults, faults) && path in history[first] && IsUnreadable(history, first, path, parses, false)
    ensures !parses(path, history[first][path])
  {
    if WasMissing(history, first, path) {
      assert false;
    }
    var text :| WasRead(history, first, Snapshot(path, text)) && !parses(path, text);
  }

  lemma {:induction false} UnreadableStay(before: seq<Files>, history: seq<Files>, start: nat, unreadable: set<string>,
                                          parses: (string, string) -> bool, faulty: bool, faultyNow: bool)
    requires before <= history && (faulty ==> faultyNow) && forall p :: p in unreadable ==> IsUnreadable(before, start, p, parses, faulty)
    ensures forall p :: p in unreadable ==> IsUnreadable(history, start, p, parses, faultyNow)
  {
    forall p | p in unreadable ensures IsUnreadable(history, start, p, parses, faultyNow) {
      UnreadableLasts(before, history, start, start, p, parses, faulty, faultyNow);
    }
  }

  lemma {:induction false} Matched<R>(read: seq<Snapshot>, pass: Pass<R>, visible: seq<string>, actual: Corpus, scope: Scope, files: Files,
                                      revision: string -> string, rewrite: (string, string) -> seq<R>)
    requires pass.Complete? && pass.unreadable == {} && PassFits(scope, visible, read, pass, rewrite) && Injective(revision)
    requires IsCorpus(actual, scope, files, revision) && forall p :: !Differs(Corpus(pass.paths, EntriesOf(read, revision)), actual, p)
    ensures ReadWhole(read, scope, files)
    ensures scope.References? ==> forall p :: IsCanvas(p) ==> (p in visible <==> p in files)
  {
    MatchingCorpus(read, pass.paths, actual, scope, files, revision);
    NothingChanged(Corpus(pass.paths, EntriesOf(read, revision)), actual);
  }

  lemma NoneChanged(changed: seq<string>, expected: Corpus, actual: Corpus)
    requires forall p :: p in changed ==> Differs(expected, actual, p)
    requires forall p :: !Differs(expected, actual, p)
    ensures changed == []
  {
    hide Differs;
    if changed != [] {
      HasFirst(changed);
      assert false;
    }
  }

  lemma UndisturbedPrefix(before: seq<Files>, history: seq<Files>, first: nat, faultsBefore: nat, between: nat, faults: nat)
    requires before <= history && first < |before| && faultsBefore <= between <= faults && Undisturbed(history, first, faultsBefore, faults)
    ensures Undisturbed(before, first, faultsBefore, between) && before[first] == history[first]
  {
    assert forall t :: 0 <= t < |before| ==> history[t] == before[t];
  }

  lemma ExactlyUnreadable<R>(scope: Scope, read: seq<Snapshot>, pass: Pass<R>, files: Files, parses: (string, string) -> bool)
    requires pass.Complete? && PassIsExact(scope, read, pass, files, parses)
    ensures forall p :: p in pass.unreadable <==> scope.References? && IsCanvas(p) && p in files && !parses(p, files[p])
  {
    hide IsCanvas, InScope;
  }

  lemma {:induction false} ExactMatches<R>(read: seq<Snapshot>, pass: Pass<R>, actual: Corpus, scope: Scope, files: Files,
                                           parses: (string, string) -> bool, revision: string -> string, rewrite: (string, string) -> seq<R>,
                                           visible: seq<string>)
    requires pass.Complete? && pass.unreadable == {} && PassFits(scope, visible, read, pass, rewrite)
    requires PassIsExact(scope, read, pass, files, parses) && IsCorpus(actual, scope, files, revision)
    ensures forall p :: !Differs(Corpus(pass.paths, EntriesOf(read, revision)), actual, p)
  {
    StillMatches(read, pass.paths, actual, scope, files, revision);
  }

  /**
   * The planner's pass over the vault, and its check against a corpus captured afterwards. A plan
   * without unreadable canvases was computed from the texts of one instant, unless a path returned
   * to a state across it. In an undisturbed vault there is a plan.
   */
  method PlanMove<R>(vault: Vault, scope: Scope, rewriteFor: seq<string> -> (string, string) -> seq<R>, parses: (string, string) -> bool,
                     generationMoved: bool)
      returns (plan: Plan<R>, visible: seq<string>, read: seq<Snapshot>, ghost start: nat, ghost at: nat)
    requires vault.Valid() && !scope.Visible?
    modifies vault
    ensures vault.Valid() && old(vault.history) <= vault.history && old(vault.faults) <= vault.faults
    ensures |old(vault.history)| - 1 <= start <= at < |vault.history|
    ensures plan.Thrown? ==> vault.faults > old(vault.faults)
    ensures plan.Planned? ==>
      && !generationMoved && Walked(vault.history, |old(vault.history)| - 1, Visible, visible)
      && (forall p :: p in plan.unreadable ==>
            scope.References? && IsCanvas(p) && p in visible
            && IsUnreadable(vault.history, |old(vault.history)| - 1, p, parses, vault.faults > old(vault.faults)))
    ensures plan.Planned? && plan.unreadable == {} ==>
      && plan.rewrites == RewritesOf(read, rewriteFor(visible))
      && (Steady(vault.history, start, at, scope, vault.revision) && Injective(vault.revision) ==>
            ReadWhole(read, scope, vault.history[at])
            && (scope.References? ==> forall p :: IsCanvas(p) ==> (p in visible <==> p in vault.history[at])))
    ensures Undisturbed(vault.history, |old(vault.history)| - 1, old(vault.faults), vault.faults) && Distinguishes(vault.rank)
            && (scope.References? ==> vault.hasReader) ==>
      var files := vault.history[|old(vault.history)| - 1];
      && (plan.Planned? <==> !generationMoved)
      && (plan.Planned? ==> forall p :: p in plan.unreadable <==> scope.References? && IsCanvas(p) && p in files && !parses(p, files[p]))
  {
    hide Walked, AllWereRead, PassIsExact, Undisturbed, Steady, Injective, IsCorpus, Differs, ReadWhole, SnapshotPaths, EntriesOf, RewritesOf,
         NoRepeats, IsCanvas, IsUnreadable, Sorted, Distinguishes, SeenTwice;
    ghost var first, faultsBefore := |vault.history| - 1, vault.faults;
    start, at := first, first;
    var pass;
    pass, visible, read := ReadAll(vault, scope, rewriteFor, parses);
    if pass.Threw? {
      Faulty(vault.history, first, faultsBefore, vault.faults);
      return Thrown, visible, read, start, at;
    }
    if pass.Stopped? {
      return Conflict([pass.path]), visible, read, start, at;
    }
    ghost var before, between := vault.history, vault.faults;
    var corpus: Outcome<Corpus> := Missing;
    if pass.unreadable == {} {
      corpus, start, at := vault.CaptureKernelCorpus(scope);
      if corpus.Failed? {
        Faulty(vault.history, first, faultsBefore, vault.faults);
        return Thrown, visible, read, start, at;
      }
    }
    var expected := Corpus(pass.paths, EntriesOf(read, vault.revision));
    var changed := ChangedCorpusPaths(expected, if corpus.Ready? then corpus.value else Corpus([], []), vault.rank);
    WalkLasts(before, vault.history, first, Visible, visible);
    UnreadableStay(before, vault.history, first, pass.unreadable, parses, between > faultsBefore, vault.faults > faultsBefore);
    if changed == [] && corpus.Ready? && Steady(vault.history, start, at, scope, vault.revision) && Injective(vault.revision) {
      Matched(read, pass, visible, corpus.value, scope, vault.history[at], vault.revision, rewriteFor(visible));
    }
    if Undisturbed(vault.history, first, faultsBefore, vault.faults) && Distinguishes(vault.rank) && (scope.References? ==> vault.hasReader) {
      UndisturbedPrefix(before, vault.history, first, faultsBefore, between, vault.faults);
      ExactlyUnreadable(scope, read, pass, vault.history[first], parses);
      if pass.unreadable == {} {
        UndisturbedLater(vault.history, first, |before| - 1, faultsBefore, between, vault.faults);
        UndisturbedLater(vault.history, first, at, faultsBefore, between, vault.faults);
        UndisturbedIsSteady(vault.history, first, start, at, scope, vault.revision, vault.faults);
        ExactMatches(read, pass, corpus.value, scope, vault.history[first], parses, vault.revision, rewriteFor(visible), visible);
        NoneChanged(changed, expected, corpus.value);
      }
    }
    if (pass.unreadable == {} && (corpus.Missing? || changed != [])) || generationMoved {
      return Conflict(changed), visible, read, start, at;
    }
    plan := Planned(pass.rewrites, pass.unreadable);
  }
}
