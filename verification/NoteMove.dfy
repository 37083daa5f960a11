/**
 * Moving a note and rewriting the links that would break (src/application/note-move.ts). Resolving
 * a link and rendering its replacement are parameters: a function of the path set, and the range,
 * text and re-parsed target of the rewritten link.
 */
module NoteMove {
  import opened Options
  import opened Sequences
  import opened Sorting
  import opened RightToLeft
  import opened Splices

  // ---------- choosing disjoint ranges ----------

  /** A rewrite of one link: its range and text, and the target its text parses back to. */
  datatype Candidate = Candidate(index: nat, edit: Edit<char>, target: string)

  function StartOf(c: Candidate): int {
    c.edit.start
  }

  ghost predicate WellPlaced(candidates: seq<Candidate>, limit: nat) {
    forall i :: 0 <= i < |candidates| ==> candidates[i].edit.start < candidates[i].edit.end <= limit
  }

  /** The range at `p` of the list meets its left or its right neighbour. */
  ghost predicate Clashes(sorted: seq<Candidate>, p: nat)
    requires p < |sorted|
  {
    || (p > 0 && sorted[p].edit.start < sorted[p - 1].edit.end)
    || (p + 1 < |sorted| && sorted[p + 1].edit.start < sorted[p].edit.end)
  }

  /** The range of the link `k` meets a neighbour. */
  ghost predicate IsCrowded(sorted: seq<Candidate>, k: nat) {
    exists p: nat :: p < |sorted| && Clashes(sorted, p) && sorted[p].index == k
  }

  /** Exactly the links whose ranges meet a neighbour are marked. */
  ghost predicate MarksClashes(sorted: seq<Candidate>, marks: set<nat>) {
    forall k: nat :: k in marks <==> IsCrowded(sorted, k)
  }

  /** Both ranges are marked wherever a range starts before its predecessor ends. */
  ghost predicate Marked(sorted: seq<Candidate>, marks: set<nat>) {
    |sorted| > 1 ==>
      && (sorted[1].edit.start < sorted[0].edit.end ==> sorted[0].index in marks && sorted[1].index in marks)
      && Marked(sorted[1..], marks)
  }

  lemma {:induction false} ClashesAreMarked(sorted: seq<Candidate>, marks: set<nat>)
    requires forall p: nat :: p < |sorted| && Clashes(sorted, p) ==> sorted[p].index in marks
    ensures Marked(sorted, marks)
    decreases |sorted|
  {
    if |sorted| > 1 {
      assert sorted[1].edit.start < sorted[0].edit.end ==> Clashes(sorted, 0) && Clashes(sorted, 1);
      forall p: nat | p < |sorted[1..]| && Clashes(sorted[1..], p) ensures sorted[1..][p].index in marks {
        assert Clashes(sorted, p + 1);
      }
      ClashesAreMarked(sorted[1..], marks);
    }
  }

  /** Compares neighbours only, from the left. */
  method OverlapScan(sorted: seq<Candidate>) returns (overlapping: set<nat>)
    ensures MarksClashes(sorted, overlapping)
  {
    overlapping := {};
    var index := 1;
    while index < |sorted|
      invariant index == 1 || 1 <= index <= |sorted|
      invariant index <= |sorted| ==> MarksClashes(sorted[..index], overlapping)
      invariant index > |sorted| ==> overlapping == {}
    {
      var previous, current := sorted[index - 1], sorted[index];
      assert sorted[..index + 1] == sorted[..index] + [current];
      OneMoreClash(sorted[..index], current, overlapping);
      if current.edit.start < previous.edit.end {
        overlapping := overlapping + {previous.index, current.index};
      }
      index := index + 1;
    }
    if |sorted| >= 1 {
      assert sorted[..|sorted|] == sorted;
    }
  }

  lemma {:induction false} OneMoreClash(sorted: seq<Candidate>, c: Candidate, marks: set<nat>)
    requires sorted != [] && MarksClashes(sorted, marks)
    ensures var previous := sorted[|sorted| - 1];
            MarksClashes(sorted + [c], if c.edit.start < previous.edit.end then marks + {previous.index, c.index} else marks)
  {
    var previous := sorted[|sorted| - 1];
    forall k: nat ensures IsCrowded(sorted + [c], k) <==>
        IsCrowded(sorted, k) || (c.edit.start < previous.edit.end && (k == previous.index || k == c.index)) {
      CrowdedByOneMore(sorted, c, k);
    }
    hide IsCrowded;
  }

  lemma {:induction false} CrowdedByOneMore(sorted: seq<Candidate>, c: Candidate, k: nat)
    requires sorted != []
    ensures var previous := sorted[|sorted| - 1];
            IsCrowded(sorted + [c], k) <==>
              IsCrowded(sorted, k) || (c.edit.start < previous.edit.end && (k == previous.index || k == c.index))
  {
    var n, longer := |sorted|, sorted + [c];
    ClashesWithOneMore(sorted, c);
    hide Clashes;
    if IsCrowded(sorted, k) {
      var p: nat :| p < n && Clashes(sorted, p) && sorted[p].index == k;
      assert Clashes(longer, p) && longer[p].index == k;
    }
    if c.edit.start < sorted[n - 1].edit.end {
      assert Clashes(longer, n - 1) && Clashes(longer, n);
    }
    if IsCrowded(longer, k) {
      var p: nat :| p < n + 1 && Clashes(longer, p) && longer[p].index == k;
    }
  }

  lemma ClashesWithOneMore(sorted: seq<Candidate>, c: Candidate)
    requires sorted != []
    ensures var n, meet := |sorted|, c.edit.start < sorted[|sorted| - 1].edit.end;
            && (Clashes(sorted + [c], n) <==> meet)
            && (forall p: nat :: p < n ==> (Clashes(sorted + [c], p) <==> Clashes(sorted, p) || (p == n - 1 && meet)))
            && (forall p: nat :: p < n ==> (sorted + [c])[p] == sorted[p])
  {
  }

  function Unmarked(sorted: seq<Candidate>, overlapping: set<nat>): seq<Candidate> {
    if sorted == [] then []
    else (if sorted[0].index in overlapping then [] else [sorted[0]]) + Unmarked(sorted[1..], overlapping)
  }

  function EditsOf(candidates: seq<Candidate>): (edits: seq<Edit<char>>)
    ensures |edits| == |candidates|
  {
    if candidates == [] then [] else [candidates[0].edit] + EditsOf(candidates[1..])
  }

  /** Of ranges sorted by start, those that meet no neighbour are pairwise disjoint and in order. */
  lemma {:induction false} UnmarkedAreDisjoint(sorted: seq<Candidate>, marks: set<nat>, from: nat, limit: nat)
    requires Sorted(sorted, StartOf) && WellPlaced(sorted, limit) && Marked(sorted, marks) && from <= limit
    requires sorted != [] ==> from <= sorted[0].edit.start || (sorted[0].index in marks && |sorted| == 1)
                              || (sorted[0].index in marks && from <= sorted[1].edit.start)
    ensures Ordered(EditsOf(Unmarked(sorted, marks)), from, limit)
    ensures NoneEmpty(EditsOf(Unmarked(sorted, marks)))
    decreases |sorted|
  {
    if sorted != [] {
      var rest := Unmarked(sorted[1..], marks);
      if |sorted| > 2 {
        assert sorted[1..][0] == sorted[1] && sorted[1..][1] == sorted[2];
      }
      if sorted[0].index in marks {
        UnmarkedAreDisjoint(sorted[1..], marks, from, limit);
        assert [] + rest == rest;
      } else {
        UnmarkedAreDisjoint(sorted[1..], marks, sorted[0].edit.end, limit);
        DropHead([sorted[0]], rest);
        DropHead([sorted[0].edit], EditsOf(rest));
        PutFirst(sorted[0].edit, EditsOf(rest), from, limit);
      }
    }
  }

  lemma PutFirst(e: Edit<char>, rest: seq<Edit<char>>, from: nat, limit: nat)
    requires from <= e.start < e.end <= limit && Ordered(rest, e.end, limit) && NoneEmpty(rest)
    ensures Ordered([e] + rest, from, limit) && NoneEmpty([e] + rest)
  {
    DropHead([e], rest);
  }

  lemma {:induction false} UnmarkedMembers(sorted: seq<Candidate>, overlapping: set<nat>)
    ensures forall c :: c in Unmarked(sorted, overlapping) <==> c in sorted && c.index !in overlapping
    decreases |sorted|
  {
    if sorted != [] {
      UnmarkedMembers(sorted[1..], overlapping);
      HeadTail(sorted);
    }
  }

  // ---------- the plan ----------

  datatype Resolution = ResolvedTo(path: string) | Ambiguous(candidates: seq<string>) | Unresolved

  datatype Link = Link(target: string, resolution: Resolution)

  /** A note as the index knows it. */
  datatype Document = Document(path: string, revision: string, links: seq<Link>)

  /** A note as it is read. */
  datatype Snapshot = Snapshot(content: string, revision: string)

  /**
   * What the move asks about: the two paths and the functions it calls. Every note is read at most
   * once; `render` is given the note and the number of a link, where the note will be, and the path
   * the link is to mean.
   */
  datatype Move = Move(source: string, target: string,
                       read: string -> Option<Snapshot>,
                       resolve: (set<string>, string, string) -> Resolution,
                       render: (string, nat, string, string) -> (Edit<char>, string),
                       sort: seq<string> -> seq<string>)
  {
    function Remap(path: string): string {
      if path == source then target else path
    }

    function RemapAll(paths: seq<string>): seq<string> {
      if paths == [] then [] else [Remap(paths[0])] + RemapAll(paths[1..])
    }

    /** What a link should mean after the move. */
    function Expected(resolution: Resolution): Resolution {
      match resolution
      case ResolvedTo(path) => ResolvedTo(Remap(path))
      case Ambiguous(candidates) => Ambiguous(sort(RemapAll(candidates)))
      case Unresolved => Unresolved
    }

    function Projected(paths: set<string>): set<string> {
      set path | path in paths :: Remap(path)
    }

    /** The link at `i` would not mean what it should if its target were `written`. */
    predicate Breaks(paths: set<string>, document: Document, i: nat, written: string)
      requires i < |document.links|
    {
      resolve(Projected(paths), Remap(document.path), written) != Expected(document.links[i].resolution)
    }

    predicate NeedsRewrite(paths: set<string>, document: Document, i: nat)
      requires i < |document.links|
    {
      Breaks(paths, document, i, document.links[i].target) && document.links[i].resolution.ResolvedTo?
    }

    function CandidateFor(document: Document, i: nat): Candidate
      requires i < |document.links| && document.links[i].resolution.ResolvedTo?
    {
      var (edit, written) := render(document.path, i, Remap(document.path), Remap(document.links[i].resolution.path));
      Candidate(i, edit, written)
    }

    /** The rewrites that the first `n` links need. */
    function Candidates(paths: set<string>, document: Document, n: nat): seq<Candidate>
      requires n <= |document.links|
    {
      if n == 0 then []
      else Candidates(paths, document, n - 1)
           + if NeedsRewrite(paths, document, n - 1) then [CandidateFor(document, n - 1)] else []
    }

    /** The same in text order. */
    ghost function InOrder(paths: set<string>, document: Document): seq<Candidate> {
      SortBy(Candidates(paths, document, |document.links|), StartOf)
    }

    /** The rewrite of the link at `i` meets a neighbour in text order. */
    ghost predicate Crowded(paths: set<string>, document: Document, i: nat) {
      IsCrowded(InOrder(paths, document), i)
    }

    /** The note can still be read as it was indexed. */
    predicate Current(document: Document) {
      read(document.path).Some? && read(document.path).value.revision == document.revision
    }

    /** Links occupy non-empty ranges of the text they were parsed from. */
    ghost predicate RendersInside(document: Document) {
      forall i :: 0 <= i < |document.links| && document.links[i].resolution.ResolvedTo? && read(document.path).Some? ==>
        CandidateFor(document, i).edit.start < CandidateFor(document, i).edit.end <= |read(document.path).value.content|
    }
  }

  /** `content` is the text to write, if the note is written at all. */
  datatype DocumentPlan = DocumentPlan(applied: map<nat, string>, blockers: set<nat>, content: Option<string>)

  /** The target the link has once the plan is carried out. */
  function FinalTarget(document: Document, plan: DocumentPlan, i: nat): string
    requires i < |document.links|
  {
    if i in plan.applied then plan.applied[i] else document.links[i].target
  }

  lemma {:induction false} CandidatesAre(move: Move, paths: set<string>, document: Document, n: nat)
    requires n <= |document.links|
    ensures forall c :: c in move.Candidates(paths, document, n) <==>
      c.index < n && move.NeedsRewrite(paths, document, c.index) && c == move.CandidateFor(document, c.index)
    decreases n
  {
    if n > 0 {
      CandidatesAre(move, paths, document, n - 1);
    }
  }

  lemma NeededIsCandidate(move: Move, paths: set<string>, document: Document, i: nat)
    requires i < |document.links| && move.NeedsRewrite(paths, document, i)
    ensures move.CandidateFor(document, i) in move.Candidates(paths, document, |document.links|)
  {
    CandidatesAre(move, paths, document, |document.links|);
    assert move.CandidateFor(document, i).index == i;
  }

  method FindCandidates(move: Move, paths: set<string>, document: Document)
      returns (candidates: seq<Candidate>, blockers: set<nat>)
    ensures candidates == move.Candidates(paths, document, |document.links|)
    ensures forall i: nat :: i in blockers <==>
      i < |document.links| && move.Breaks(paths, document, i, document.links[i].target)
      && !document.links[i].resolution.ResolvedTo?
  {
    candidates, blockers := [], {};
    for index := 0 to |document.links|
      invariant candidates == move.Candidates(paths, document, index)
      invariant forall i: nat :: i in blockers <==>
        i < index && move.Breaks(paths, document, i, document.links[i].target)
        && !document.links[i].resolution.ResolvedTo?
    {
      var link := document.links[index];
      if move.Breaks(paths, document, index, link.target) {
        if link.resolution.ResolvedTo? {
          candidates := candidates + [move.CandidateFor(document, index)];
        } else {
          blockers := blockers + {index};
        }
      }
    }
  }

  function AppliedTargets(applicable: seq<Candidate>): map<nat, string> {
    if applicable == [] then map[]
    else
      var last := applicable[|applicable| - 1];
      AppliedTargets(applicable[..|applicable| - 1])[last.index := last.target]
  }

  lemma {:induction false} AppliedAre(applicable: seq<Candidate>)
    requires forall c, d :: c in applicable && d in applicable && c.index == d.index ==> c == d
    ensures forall c :: c in applicable ==> c.index in AppliedTargets(applicable) && AppliedTargets(applicable)[c.index] == c.target
    ensures forall i :: i in AppliedTargets(applicable) ==> exists c :: c in applicable && c.index == i
    decreases |applicable|
  {
    if applicable != [] {
      AppliedAre(applicable[..|applicable| - 1]);
      assert applicable == applicable[..|applicable| - 1] + [applicable[|applicable| - 1]];
    }
  }

  /** Exactly the rewrites that are needed and meet no neighbour. */
  ghost predicate Applies(move: Move, paths: set<string>, document: Document, applicable: seq<Candidate>) {
    forall c :: c in applicable <==>
      c.index < |document.links| && move.NeedsRewrite(paths, document, c.index) && !move.Crowded(paths, document, c.index)
      && c == move.CandidateFor(document, c.index)
  }

  lemma {:induction false} InOrderMembers(move: Move, paths: set<string>, document: Document)
    ensures Sorted(move.InOrder(paths, document), StartOf)
    ensures forall c :: c in move.InOrder(paths, document) <==>
      c.index < |document.links| && move.NeedsRewrite(paths, document, c.index) && c == move.CandidateFor(document, c.index)
  {
    var candidates := move.Candidates(paths, document, |document.links|);
    SortBySorts(candidates, StartOf);
    SameElements(candidates, SortBy(candidates, StartOf));
    CandidatesAre(move, paths, document, |document.links|);
  }

  /** What is not marked is what applies. */
  lemma {:induction false} UnmarkedApply(move: Move, paths: set<string>, document: Document, marks: set<nat>)
    requires MarksClashes(move.InOrder(paths, document), marks)
    ensures Applies(move, paths, document, Unmarked(move.InOrder(paths, document), marks))
    ensures forall i: nat :: i in marks ==>
      i < |document.links| && move.NeedsRewrite(paths, document, i) && move.Crowded(paths, document, i)
  {
    var sorted := move.InOrder(paths, document);
    InOrderMembers(move, paths, document);
    UnmarkedMembers(sorted, marks);
    assert forall i: nat :: i in marks <==> IsCrowded(sorted, i);
    hide MarksClashes, Move.InOrder, Sorted;
    forall i: nat | i in marks ensures i < |document.links| && move.NeedsRewrite(paths, document, i) {
      var p: nat :| p < |sorted| && Clashes(sorted, p) && sorted[p].index == i;
      assert sorted[p] in sorted;
    }
  }

  /** The rewrites that apply lie apart and in order. */
  lemma {:induction false} UnmarkedInOrder(move: Move, paths: set<string>, document: Document, marks: set<nat>)
    requires move.RendersInside(document) && move.read(document.path).Some?
    requires MarksClashes(move.InOrder(paths, document), marks)
    ensures var chosen, limit := Unmarked(move.InOrder(paths, document), marks), |move.read(document.path).value.content|;
            Ordered(EditsOf(chosen), 0, limit) && NoneEmpty(EditsOf(chosen))
  {
    var sorted, limit := move.InOrder(paths, document), |move.read(document.path).value.content|;
    InOrderMembers(move, paths, document);
    ClashesAreMarked(sorted, marks);
    hide Ordered, NoneEmpty, EditsOf, Unmarked, Marked, MarksClashes, Move.InOrder, Sorted;
    assert WellPlaced(sorted, limit) by {
      forall p: nat | p < |sorted| ensures sorted[p].edit.start < sorted[p].edit.end <= limit {
        assert sorted[p] in sorted;
      }
    }
    UnmarkedAreDisjoint(sorted, marks, 0, limit);
  }

  /** The plan of one note: what is rewritten and to what, and which links would not mean what they should. */
  ghost predicate PlanIsExact(move: Move, paths: set<string>, document: Document, plan: DocumentPlan) {
    && (forall i: nat :: i in plan.applied <==>
          i < |document.links| && move.NeedsRewrite(paths, document, i) && !move.Crowded(paths, document, i))
    && (forall i: nat :: i in plan.applied ==> plan.applied[i] == move.CandidateFor(document, i).target)
    && forall i: nat :: i in plan.blockers <==>
         i < |document.links| && move.Breaks(paths, document, i, FinalTarget(document, plan, i))
  }

  /** The new text is one left-to-right pass over exactly the rewrites that apply. */
  ghost predicate Writes(move: Move, paths: set<string>, document: Document, plan: DocumentPlan, applicable: seq<Candidate>) {
    && Applies(move, paths, document, applicable)
    && if applicable == [] then plan.content == None
       else
         && move.Current(document)
         && var content := move.read(document.path).value.content;
            Ordered(EditsOf(applicable), 0, |content|) && plan.content == Some(Splice(content, 0, EditsOf(applicable)))
  }

  ghost predicate WritesRewrites(move: Move, paths: set<string>, document: Document, plan: DocumentPlan) {
    exists applicable :: Writes(move, paths, document, plan, applicable)
  }

  /** Some link of the note needs a rewrite, so the note has to be read. */
  ghost predicate IsRead(move: Move, paths: set<string>, document: Document) {
    exists i: nat :: i < |document.links| && move.NeedsRewrite(paths, document, i)
  }

  method PlanDocument(move: Move, paths: set<string>, document: Document) returns (plan: Option<DocumentPlan>)
    requires move.RendersInside(document)
    ensures plan.None? <==> IsRead(move, paths, document) && !move.Current(document)
    ensures plan.Some? ==>
      PlanIsExact(move, paths, document, plan.value) && WritesRewrites(move, paths, document, plan.value)
  {
    hide Ordered, NoneEmpty, EditsOf, Splice, AppliedTargets, Unmarked, SortBy, MarksClashes;
    var candidates, blockers := FindCandidates(move, paths, document);
    CandidatesAre(move, paths, document, |document.links|);
    if candidates == [] {
      NoCandidates(move, paths, document, blockers);
      return Some(DocumentPlan(map[], blockers, None));
    }
    assert candidates[0] in candidates;
    if !move.Current(document) {
      return None;
    }
    var content := move.read(document.path).value.content;
    var sorted := SortBy(candidates, StartOf);
    var overlapping := OverlapScan(sorted);
    var chosen := Unmarked(sorted, overlapping);
    UnmarkedApply(move, paths, document, overlapping);
    UnmarkedInOrder(move, paths, document, overlapping);
    var result := content;
    if chosen != [] {
      result := ApplyRewrites(content, EditsOf(chosen), EditsOf(chosen));
    }
    var made := DocumentPlan(AppliedTargets(chosen), blockers + overlapping, if chosen == [] then None else Some(result));
    var all := ValidateLinks(move, paths, document, made);
    ExactlyPlanned(move, paths, document, chosen, made, all);
    made := made.(blockers := all);
    assert Writes(move, paths, document, made, chosen);
    return Some(made);
  }

  /** What blocks before the last pass breaks by the target it ends up with, so the last pass finds it too. */
  lemma {:induction false} ExactlyPlanned(move: Move, paths: set<string>, document: Document, chosen: seq<Candidate>, plan: DocumentPlan, all: set<nat>)
    requires Applies(move, paths, document, chosen) && plan.applied == AppliedTargets(chosen)
    requires forall i: nat :: i in plan.blockers ==>
      i < |document.links| && move.Breaks(paths, document, i, document.links[i].target)
      && (!move.NeedsRewrite(paths, document, i) || move.Crowded(paths, document, i))
    requires forall i: nat :: i in all <==>
      i in plan.blockers || (i < |document.links| && move.Breaks(paths, document, i, FinalTarget(document, plan, i)))
    ensures PlanIsExact(move, paths, document, plan.(blockers := all))
  {
    AppliedAre(chosen);
    hide AppliedTargets;
    var made := plan.(blockers := all);
    forall i: nat ensures i in made.applied <==>
          i < |document.links| && move.NeedsRewrite(paths, document, i) && !move.Crowded(paths, document, i) {
      if i < |document.links| && move.NeedsRewrite(paths, document, i) && !move.Crowded(paths, document, i) {
        assert move.CandidateFor(document, i).index == i;
        assert move.CandidateFor(document, i) in chosen;
      }
    }
    forall i: nat | i in made.applied ensures made.applied[i] == move.CandidateFor(document, i).target {
      var c :| c in chosen && c.index == i;
    }
  }

  lemma NoCandidates(move: Move, paths: set<string>, document: Document, blockers: set<nat>)
    requires move.Candidates(paths, document, |document.links|) == []
    requires forall i: nat :: i in blockers <==>
      i < |document.links| && move.Breaks(paths, document, i, document.links[i].target)
      && !document.links[i].resolution.ResolvedTo?
    ensures !IsRead(move, paths, document)
    ensures PlanIsExact(move, paths, document, DocumentPlan(map[], blockers, None))
    ensures WritesRewrites(move, paths, document, DocumentPlan(map[], blockers, None))
  {
    CandidatesAre(move, paths, document, |document.links|);
    forall i: nat | i < |document.links| ensures !move.NeedsRewrite(paths, document, i) {
      if move.NeedsRewrite(paths, document, i) {
        NeededIsCandidate(move, paths, document, i);
        assert false;
      }
    }
    assert Writes(move, paths, document, DocumentPlan(map[], blockers, None), []);
  }

  /** The last pass: every link is resolved again with the target it ends up with. */
  method ValidateLinks(move: Move, paths: set<string>, document: Document, plan: DocumentPlan) returns (blockers: set<nat>)
    ensures forall i: nat :: i in blockers <==>
      i in plan.blockers || (i < |document.links| && move.Breaks(paths, document, i, FinalTarget(document, plan, i)))
  {
    blockers := plan.blockers;
    for index := 0 to |document.links|
      invariant forall i: nat :: i in blockers <==>
        i in plan.blockers || (i < index && move.Breaks(paths, document, i, FinalTarget(document, plan, i)))
    {
      if move.Breaks(paths, document, index, FinalTarget(document, plan, index)) {
        blockers := blockers + {index};
      }
    }
  }

  datatype Reason = TargetExists | SourceRevisionChanged

  datatype Outcome = Failed | Conflict(reason: Reason) | Planned(plans: seq<DocumentPlan>)

  function PathsOf(documents: seq<Document>): set<string> {
    set document | document in documents :: document.path
  }

  /** The note that moves, as the index knows it. */
  ghost predicate IsSource(move: Move, documents: seq<Document>, document: Document) {
    document in documents && document.path == move.source
  }

  /** Every note that has to be read, the source first, is still as it was indexed. */
  ghost predicate IndexIsCurrent(move: Move, documents: seq<Document>, updateLinks: bool) {
    forall document :: document in documents ==>
      (document.path == move.source || (updateLinks && IsRead(move, PathsOf(documents), document)) ==> move.Current(document))
  }

  /** What is read of the note has the revision that the index has. */
  predicate AsIndexed(move: Move, document: Document) {
    match move.read(document.path)
    case None => false
    case Some(snapshot) => snapshot.revision == document.revision
  }

  lemma WrittenAsIndexed(move: Move, paths: set<string>, document: Document, plan: DocumentPlan)
    requires WritesRewrites(move, paths, document, plan) && plan.content.Some?
    ensures AsIndexed(move, document)
  {
    var applicable :| Writes(move, paths, document, plan, applicable);
    hide Applies, Splice, Ordered, EditsOf;
  }

  /** What the caller expected the source to be is not what is read. */
  predicate SourceChanged(move: Move, expectedRevision: string) {
    move.read(move.source).Some? && expectedRevision != "" && move.read(move.source).value.revision != expectedRevision
  }

  /**
   * Plans the move of a note. The index holds every path once. An empty expected revision means
   * that the caller expects none.
   */
  method PlanMarkdownNoteMove(move: Move, documents: seq<Document>, updateLinks: bool, expectedRevision: string) returns (outcome: Outcome)
    requires forall document :: document in documents ==> move.RendersInside(document)
    requires forall x, y :: x in documents && y in documents && x.path == y.path ==> x == y
    ensures var possible := move.source != move.target && move.source in PathsOf(documents);
            && (outcome == Conflict(TargetExists) <==> possible && move.target in PathsOf(documents))
            && (outcome == Conflict(SourceRevisionChanged) <==>
                  possible && move.target !in PathsOf(documents) && SourceChanged(move, expectedRevision))
            && (outcome.Planned? <==>
                  possible && move.target !in PathsOf(documents) && !SourceChanged(move, expectedRevision)
                  && IndexIsCurrent(move, documents, updateLinks))
    ensures outcome.Planned? ==> forall document :: document in documents && document.path == move.source ==> AsIndexed(move, document)
    ensures outcome.Planned? && !updateLinks ==> outcome.plans == []
    ensures outcome.Planned? && updateLinks ==> forall d :: 0 <= d < |documents| && d < |outcome.plans| && outcome.plans[d].content.Some? ==>
      move.read(documents[d].path).Some? && move.read(documents[d].path).value.revision == documents[d].revision
    ensures outcome.Planned? && updateLinks ==>
      |outcome.plans| == |documents|
      && forall d :: 0 <= d < |documents| ==>
           PlanIsExact(move, PathsOf(documents), documents[d], outcome.plans[d])
           && WritesRewrites(move, PathsOf(documents), documents[d], outcome.plans[d])
           && (RendersRightly(move, PathsOf(documents), documents[d]) && AllCanFollow(move, PathsOf(documents), documents[d]) ==>
                 outcome.plans[d].blockers == {})
  {
    hide PlanIsExact, WritesRewrites, IsRead, Move.RendersInside, RendersRightly, AllCanFollow;
    var paths := PathsOf(documents);
    if move.source == move.target || move.source !in paths {
      return Failed;
    }
    if move.target in paths {
      return Conflict(TargetExists);
    }
    var source :| source in documents && source.path == move.source;
    if move.read(move.source).None? {
      return Failed;
    }
    if expectedRevision != "" && move.read(move.source).value.revision != expectedRevision {
      return Conflict(SourceRevisionChanged);
    }
    if !move.Current(source) {
      return Failed;
    }
    var plans: seq<DocumentPlan> := [];
    if updateLinks {
      for d := 0 to |documents|
        invariant |plans| == d
        invariant forall k :: 0 <= k < d && IsRead(move, paths, documents[k]) ==> move.Current(documents[k])
        invariant forall k :: 0 <= k < d ==>
          PlanIsExact(move, paths, documents[k], plans[k]) && WritesRewrites(move, paths, documents[k], plans[k])
          && (RendersRightly(move, paths, documents[k]) && AllCanFollow(move, paths, documents[k]) ==> plans[k].blockers == {})
          && (plans[k].content.Some? ==> AsIndexed(move, documents[k]))
      {
        var plan := PlanDocument(move, paths, documents[d]);
        if plan.None? {
          return Failed;
        }
        if RendersRightly(move, paths, documents[d]) && AllCanFollow(move, paths, documents[d]) {
          NothingBlocks(move, paths, documents[d], plan.value);
        }
        if plan.value.content.Some? { WrittenAsIndexed(move, paths, documents[d], plan.value); }
        plans := plans + [plan.value];
      }
    }
    outcome := Planned(plans);
  }

  /** A move blocks exactly where a link breaks and no rewrite of it is both possible and right. */
  lemma {:induction false} UnblockedMoves(move: Move, paths: set<string>, document: Document, plan: DocumentPlan)
    requires PlanIsExact(move, paths, document, plan)
    ensures plan.blockers == {} <==>
      forall i: nat :: i < |document.links| && move.Breaks(paths, document, i, document.links[i].target) ==>
        && document.links[i].resolution.ResolvedTo? && !move.Crowded(paths, document, i)
        && !move.Breaks(paths, document, i, move.CandidateFor(document, i).target)
  {
    forall i: nat | i < |document.links|
      ensures i in plan.blockers <==>
        && move.Breaks(paths, document, i, document.links[i].target)
        && !(document.links[i].resolution.ResolvedTo? && !move.Crowded(paths, document, i)
             && !move.Breaks(paths, document, i, move.CandidateFor(document, i).target))
    {
    }
    if plan.blockers != {} {
      var i :| i in plan.blockers;
    }
  }

  /** The rewrite `c` stands in the text that the plan writes, at its start moved by the rewrites before it. */
  ghost predicate StandsWritten(move: Move, paths: set<string>, document: Document, plan: DocumentPlan, c: Candidate) {
    exists applicable, k: nat :: Writes(move, paths, document, plan, applicable) && k < |applicable| && applicable[k] == c
      && plan.content.Some? && StandsAt(plan.content.value, EditsOf(applicable), k)
  }

  /** The text of the `k`-th edit stands where the growth of the edits before it has moved it. */
  ghost predicate StandsAt(text: string, edits: seq<Edit<char>>, k: nat)
    requires k < |edits|
  {
    var at := edits[k].start + Growth(edits[..k]);
    0 <= at && at + |edits[k].text| <= |text| && text[at..at + |edits[k].text|] == edits[k].text
  }

  // ---------- what a link means afterwards ----------

  /** Written as `written`, the link leads among the moved paths to what it led to before the move. */
  ghost predicate LeadsOn(move: Move, paths: set<string>, document: Document, i: nat, written: string)
    requires i < |document.links|
  {
    var after := move.resolve(paths - {move.source} + {move.target},
                              if document.path == move.source then move.target else document.path, written);
    match document.links[i].resolution
    case ResolvedTo(path) => after == ResolvedTo(if path == move.source then move.target else path)
    case Ambiguous(candidates) =>
      exists moved: seq<string> :: after == Ambiguous(move.sort(moved)) && |moved| == |candidates|
        && forall k :: 0 <= k < |moved| ==> moved[k] == if candidates[k] == move.source then move.target else candidates[k]
    case Unresolved => after == Unresolved
  }

  /** What the renderer writes for a link at `i` of the note to mean `path`. */
  ghost function RenderedFor(move: Move, document: Document, i: nat, path: string): (Edit<char>, string) {
    move.render(document.path, i, if document.path == move.source then move.target else document.path,
                if path == move.source then move.target else path)
  }

  /** Whatever path the renderer is asked for, what it writes leads there among the moved paths. */
  ghost predicate RendersRightly(move: Move, paths: set<string>, document: Document) {
    forall i: nat, path :: i < |document.links| && path in paths ==>
      var written := RenderedFor(move, document, i, path).1;
      move.resolve(paths - {move.source} + {move.target},
                   if document.path == move.source then move.target else document.path, written)
        == ResolvedTo(if path == move.source then move.target else path)
  }

  /** A link that would break leads to a note of the index, and what is rendered for it meets no other such range. */
  ghost predicate CanFollow(move: Move, paths: set<string>, document: Document, i: nat)
    requires i < |document.links|
  {
    !LeadsOn(move, paths, document, i, document.links[i].target) ==>
      && document.links[i].resolution.ResolvedTo? && document.links[i].resolution.path in paths
      && forall j: nat :: j < |document.links| && j != i && document.links[j].resolution.ResolvedTo?
                          && !LeadsOn(move, paths, document, j, document.links[j].target) ==>
           Apart(RenderedFor(move, document, i, document.links[i].resolution.path).0,
                 RenderedFor(move, document, j, document.links[j].resolution.path).0)
  }

  ghost predicate AllCanFollow(move: Move, paths: set<string>, document: Document) {
    forall i: nat :: i < |document.links| ==> CanFollow(move, paths, document, i)
  }

  predicate Apart(a: Edit<char>, b: Edit<char>) {
    a.end <= b.start || b.end <= a.start
  }

  lemma {:induction false} RemapsEach(move: Move, paths: seq<string>)
    ensures |move.RemapAll(paths)| == |paths|
    ensures forall k :: 0 <= k < |paths| ==> move.RemapAll(paths)[k] == if paths[k] == move.source then move.target else paths[k]
    decreases |paths|
  {
    if paths != [] {
      RemapsEach(move, paths[1..]);
    }
  }

  /** A link breaks exactly when it would not lead on. */
  lemma {:induction false} BreaksIff(move: Move, paths: set<string>, document: Document, i: nat, written: string)
    requires move.source != move.target && move.source in paths && move.target !in paths
    requires i < |document.links|
    ensures move.Breaks(paths, document, i, written) <==> !LeadsOn(move, paths, document, i, written)
  {
    Moved(move, paths);
    match document.links[i].resolution {
      case Ambiguous(candidates) =>
        RemapsEach(move, candidates);
        assert forall moved: seq<string> ::
          |moved| == |candidates|
          && (forall k :: 0 <= k < |moved| ==> moved[k] == if candidates[k] == move.source then move.target else candidates[k])
          ==> moved == move.RemapAll(candidates);
      case _ =>
    }
  }

  ghost predicate Rising(candidates: seq<Candidate>) {
    forall p, q :: 0 <= p < q < |candidates| ==> candidates[p].index < candidates[q].index
  }

  lemma {:induction false} CandidatesDiffer(move: Move, paths: set<string>, document: Document, n: nat)
    requires n <= |document.links|
    ensures Rising(move.Candidates(paths, document, n))
    decreases n
  {
    if n > 0 {
      CandidatesDiffer(move, paths, document, n - 1);
      CandidatesAre(move, paths, document, n - 1);
      var before := move.Candidates(paths, document, n - 1);
      forall p | 0 <= p < |before| ensures before[p].index < n - 1 {
        assert before[p] in before;
      }
      if move.NeedsRewrite(paths, document, n - 1) {
        assert (before + [move.CandidateFor(document, n - 1)])[..|before|] == before;
        OneMoreDiffers(before, move.Candidates(paths, document, n), n - 1);
      }
    }
  }

  lemma OneMoreDiffers(before: seq<Candidate>, longer: seq<Candidate>, n: nat)
    requires Rising(before) && forall p :: 0 <= p < |before| ==> before[p].index < n
    requires |longer| == |before| + 1 && longer[..|before|] == before && longer[|before|].index == n
    ensures Rising(longer)
  {
    assert forall p :: 0 <= p < |before| ==> longer[..|before|][p] == longer[p];
    forall p, q | 0 <= p < q < |longer| ensures longer[p].index < longer[q].index {
      assert longer[p] == before[p];
    }
  }

  /** In text order no link comes twice. */
  lemma {:induction false} InOrderDiffer(move: Move, paths: set<string>, document: Document)
    ensures var sorted := move.InOrder(paths, document);
            forall p, q :: 0 <= p < q < |sorted| ==> sorted[p].index != sorted[q].index
  {
    var candidates, sorted := move.Candidates(paths, document, |document.links|), move.InOrder(paths, document);
    CandidatesDiffer(move, paths, document, |document.links|);
    SortBySorts(candidates, StartOf);
    RisingIsDistinct(candidates);
    KeepsDistinct(candidates, sorted);
    hide Move.InOrder, Move.Candidates, Move.CandidateFor, Move.NeedsRewrite;
    forall p, q | 0 <= p < q < |sorted| && sorted[p].index == sorted[q].index ensures false {
      IndexTells(move, paths, document, sorted[p], sorted[q]);
    }
  }

  lemma RisingIsDistinct(candidates: seq<Candidate>)
    requires Rising(candidates)
    ensures forall p, q :: 0 <= p < q < |candidates| ==> candidates[p] != candidates[q]
  {
    forall p, q | 0 <= p < q < |candidates| ensures candidates[p] != candidates[q] {
      assert candidates[p].index < candidates[q].index;
    }
  }

  lemma IndexTells(move: Move, paths: set<string>, document: Document, c: Candidate, d: Candidate)
    requires c in move.InOrder(paths, document) && d in move.InOrder(paths, document) && c.index == d.index
    ensures c == d
  {
    InOrderMembers(move, paths, document);
    hide Move.InOrder;
  }

  /** A range that lies apart from all the others that are needed meets no neighbour. */
  lemma {:induction false} ApartIsNotCrowded(move: Move, paths: set<string>, document: Document, i: nat)
    requires i < |document.links| && move.NeedsRewrite(paths, document, i)
    requires move.RendersInside(document) && move.read(document.path).Some?
    requires forall j: nat :: j < |document.links| && j != i && move.NeedsRewrite(paths, document, j) ==>
      Apart(move.CandidateFor(document, i).edit, move.CandidateFor(document, j).edit)
    ensures !move.Crowded(paths, document, i)
  {
    var sorted := move.InOrder(paths, document);
    InOrderMembers(move, paths, document);
    InOrderDiffer(move, paths, document);
    hide Move.InOrder, Move.Candidates, Move.Breaks;
    forall p: nat | p < |sorted| && sorted[p].index == i ensures !Clashes(sorted, p) {
      assert sorted[p] in sorted && sorted[p] == move.CandidateFor(document, i);
      if p > 0 { NeighboursApart(move, paths, document, sorted, p - 1, p); }
      if p + 1 < |sorted| { NeighboursApart(move, paths, document, sorted, p, p + 1); }
    }
  }

  lemma {:induction false} NeighboursApart(move: Move, paths: set<string>, document: Document, sorted: seq<Candidate>, p: nat, q: nat)
    requires q < |sorted| && q == p + 1 && Sorted(sorted, StartOf) && move.read(document.path).Some? && move.RendersInside(document)
    requires forall x :: x in sorted ==> x.index < |document.links| && move.NeedsRewrite(paths, document, x.index) && x == move.CandidateFor(document, x.index)
    requires Apart(sorted[p].edit, sorted[q].edit)
    ensures sorted[p].edit.end <= sorted[q].edit.start
  {
    assert sorted[p] in sorted && sorted[q] in sorted;
    SortedAt(sorted, StartOf, p, q);
  }

  /** Where the renderer is right and every link can follow, nothing blocks the move. */
  lemma {:induction false} NothingBlocks(move: Move, paths: set<string>, document: Document, plan: DocumentPlan)
    requires move.source != move.target && move.source in paths && move.target !in paths
    requires move.RendersInside(document) && PlanIsExact(move, paths, document, plan)
    requires IsRead(move, paths, document) ==> move.Current(document)
    requires RendersRightly(move, paths, document) && AllCanFollow(move, paths, document)
    ensures plan.blockers == {}
  {
    forall i: nat | i < |document.links| && move.Breaks(paths, document, i, document.links[i].target)
      ensures document.links[i].resolution.ResolvedTo? && !move.Crowded(paths, document, i)
              && !move.Breaks(paths, document, i, move.CandidateFor(document, i).target) {
      LinkFollows(move, paths, document, plan, i);
    }
    hide Move.Crowded, Move.Breaks, Move.CandidateFor, LeadsOn;
    UnblockedMoves(move, paths, document, plan);
  }

  lemma {:induction false} LinkFollows(move: Move, paths: set<string>, document: Document, plan: DocumentPlan, i: nat)
    requires move.source != move.target && move.source in paths && move.target !in paths
    requires move.RendersInside(document) && (IsRead(move, paths, document) ==> move.Current(document))
    requires RendersRightly(move, paths, document) && AllCanFollow(move, paths, document)
    requires i < |document.links| && move.Breaks(paths, document, i, document.links[i].target)
    ensures document.links[i].resolution.ResolvedTo? && !move.Crowded(paths, document, i)
            && !move.Breaks(paths, document, i, move.CandidateFor(document, i).target)
  {
    forall j: nat, written | j < |document.links| ensures move.Breaks(paths, document, j, written) <==> !LeadsOn(move, paths, document, j, written) {
      BreaksIff(move, paths, document, j, written);
    }
    assert CanFollow(move, paths, document, i);
    hide Move.Breaks;
    assert move.CandidateFor(document, i).target == RenderedFor(move, document, i, document.links[i].resolution.path).1;
    hide Move.Crowded;
    assert move.NeedsRewrite(paths, document, i);
    ApartIsNotCrowded(move, paths, document, i);
  }

  /** A link is a blocker exactly when, as it is written in the end, it does not lead on. */
  lemma {:induction false} BlockedExactly(move: Move, paths: set<string>, document: Document, plan: DocumentPlan, i: nat)
    requires move.source != move.target && move.source in paths && move.target !in paths
    requires PlanIsExact(move, paths, document, plan)
    ensures i in plan.blockers <==> i < |document.links| && !LeadsOn(move, paths, document, i, FinalTarget(document, plan, i))
  {
    if i < |document.links| { BreaksIff(move, paths, document, i, FinalTarget(document, plan, i)); }
    hide LeadsOn, Move.Breaks;
  }

  /**
   * Without blockers every link leads, among paths that no longer hold the source, to what it led
   * to before: a link that would not is rewritten in the text that is written, to what the renderer
   * gives for the path it led to; every other link is left alone.
   */
  lemma {:induction false} EveryLinkFollows(move: Move, paths: set<string>, document: Document, plan: DocumentPlan, i: nat)
    requires move.source != move.target && move.source in paths && move.target !in paths
    requires PlanIsExact(move, paths, document, plan) && WritesRewrites(move, paths, document, plan) && plan.blockers == {}
    requires i < |document.links|
    ensures LeadsOn(move, paths, document, i, FinalTarget(document, plan, i))
    ensures if LeadsOn(move, paths, document, i, document.links[i].target)
            then FinalTarget(document, plan, i) == document.links[i].target
            else
              && document.links[i].resolution.ResolvedTo?
              && var (edit, written) := RenderedFor(move, document, i, document.links[i].resolution.path);
                 FinalTarget(document, plan, i) == written
                 && StandsWritten(move, paths, document, plan, Candidate(i, edit, written))
  {
    UnblockedMoves(move, paths, document, plan);
    assert i !in plan.blockers;
    BlockedExactly(move, paths, document, plan, i);
    BreaksIff(move, paths, document, i, document.links[i].target);
    if move.NeedsRewrite(paths, document, i) {
      RewriteStands(move, paths, document, plan, i);
      var (edit, written) := RenderedFor(move, document, i, document.links[i].resolution.path);
      assert move.CandidateFor(document, i) == Candidate(i, edit, written);
    }
    hide StandsWritten, LeadsOn;
  }

  lemma {:induction false} RewriteStands(move: Move, paths: set<string>, document: Document, plan: DocumentPlan, i: nat)
    requires WritesRewrites(move, paths, document, plan)
    requires i < |document.links| && move.NeedsRewrite(paths, document, i) && !move.Crowded(paths, document, i)
    ensures StandsWritten(move, paths, document, plan, move.CandidateFor(document, i))
  {
    var applicable :| Writes(move, paths, document, plan, applicable);
    var c := move.CandidateFor(document, i);
    assert c.index == i && c in applicable;
    var content := move.read(document.path).value.content;
    var k := EditAt(applicable, c);
    hide Splice, Ordered, EditsOf, Applies, Clashes, Growth;
    SpliceHasText(content, EditsOf(applicable), k);
    assert StandsAt(plan.content.value, EditsOf(applicable), k);
  }

  lemma Moved(move: Move, paths: set<string>)
    requires move.source != move.target && move.source in paths && move.target !in paths
    ensures move.Projected(paths) == paths - {move.source} + {move.target}
  {
    forall p ensures p in move.Projected(paths) <==> p in paths - {move.source} + {move.target} {
      if p in paths - {move.source} {
        assert move.Remap(p) == p;
      }
      assert move.Remap(move.source) == move.target;
    }
  }

  lemma {:induction false} EditAt(candidates: seq<Candidate>, c: Candidate) returns (k: nat)
    requires c in candidates
    ensures k < |candidates| && candidates[k] == c && EditsOf(candidates)[k] == c.edit
    decreases |candidates|
  {
    if candidates[0] == c {
      k := 0;
    } else {
      var rest := EditAt(candidates[1..], c);
      k := rest + 1;
    }
  }
}
