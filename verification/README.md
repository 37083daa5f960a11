# Threadleaf: the application layer, modelled and proved

This project models the parts of Threadleaf's application layer that must lose no byte, no update
and no resource, and proves what they promise. It has one module per file or component of the
repository, and stands on its own: `dafny verify dfyconfig.toml` checks all of it.

**Edits that keep bytes.** `AttachmentInsert` maps editor offsets to stored text and splices
references; `Frontmatter` and `NoteProperties` patch one property of a note; `RightToLeft` and
`NoteMove` rewrite the links that a moved note would break; `Percent`, `CanvasReference`,
`Quoting` and `CanvasRewrite` print attachment references that the canvas reader must read back;
`Utf8` and `FilePreview` cut a file at a character boundary. `Splices` defines the one
left-to-right pass that all of these come down to.

**Graphs.** `VaultGraph` is the bounded breadth-first search and the cut by distance;
`CanvasEmbed` is the bounded depth-first walk over canvases that may embed each other in cycles.

**Protocols, step by step.** Wherever the original awaits, other steps may come in between.
`CorpusCapture` reads a vault that others write to meanwhile. `WorkspaceController` activates and
switches vault runtimes. `NoteBookmarks` queues writes per vault. The last two are state machines
over events, each with a class whose methods, one per segment between two waits, are proved to be
the steps of the machine; theorems are about all runs.

**Documents with an invariant.** `JsonCanvas` is the parser's structural checks and the mutable
document; `WorkspaceState` is the persisted layout with its version 1 projection.

`VaultPath` and `JsText` model the path and string operations of the host that these rely on, and
`Sorting`, `Reachability`, `Decimals`, `Json`, `Options` and `Sequences` are shared.

## What the code does that one might not expect

Each point is proved: a lemma shows the failing family, and a theorem, named here too, holds if and
only if a condition does that shuts out the whole family.

- `normalizeVaultPath` is not idempotent: `./C:/x` is accepted as `C:/x`, which is rejected. A
  bookmark, a workspace state or an attachment reference with such a path cannot be written or read
  back (`VaultPath.DriveBehindDot`, `WorkspaceState.DocumentReadsBack`, `NoteBookmarks.SetChanges`).
- The caret after a batch insertion falls short by the length of its selection
  (`AttachmentInsert.CaretAtEndOfReference`), and a negative selection start is reported as a wrong
  order (`AttachmentInsert.MapSelection`).
- A relative canvas reference to a name that starts with a dot gets no `./` and is looked for in the
  vault root (`CanvasReference.DotName`).
- Two agreeing reads of a vault prove something about the instant between them exactly when no path
  returns to a state across it (`CorpusCapture.AgreeingPasses`); with two notes that flip together
  they agree on a vault that never was (`CorpusCapture.ReturningDefeatsIt`). The list of visible files
  that link resolution uses is made before and never checked: `CorpusCapture.PlanMove` promises only
  that its canvases are those of the corpus.
- `close` does not stop a switch under way, whichever wait it is at
  (`WorkspaceController.SwitchOutlivesClose`); it is final exactly when there is none
  (`WorkspaceController.CloseIsFinal`). A snapshot listener that throws while a runtime is replaced
  leaves the old one open (`WorkspaceController.StepConserves`, `WorkspaceController.RunConserves`).
- Setting a property loses what stands before a bare carriage return in the frontmatter
  (`NoteProperties.BareCrLoses`), becomes part of a last comment that U+2028 or U+2029 ends
  (`NoteProperties.CommentSwallows`), and with such a separator in a text or list value makes
  frontmatter that is refused or misread (`NoteProperties.SerializedIsPrinted`). In every other case
  the property and everything else is found again (`NoteProperties.SetIsReadBack`).
- Removing a property just set does not restore such notes either, nor one whose frontmatter held
  nothing but blanks (`NoteProperties.SetThenRemove`).
- Reordering a pinned tab changes nothing (`WorkspaceState.MovedLayout`).

## Assumptions

- A revision determines its text (`Injective` in `CorpusCapture`). A folder is read, and a file is
  read, at one instant; between folders and between files anything may be written
  (`CorpusCapture.Vault`).
- A store returns what was last saved, and a failed save leaves it as it was (`NoteBookmarks`).
- The runtime factory never hands out a runtime twice (`WorkspaceController`).
- The string literals that the JSON visitor reports lie in text order and apart from each other
  (`CanvasRewrite.InTextOrder`); links are parsed from non-empty ranges (`NoteMove.Move.RendersInside`),
  and the index holds every path once.
- Where it is named, and only there, the link renderer is taken to write what leads to the path it is
  asked for (`NoteMove.RendersRightly`).
- Locale order is any ranking of names (`rank`); the query of a graph, the link resolver, the link
  renderer, path identity, number printing and the JSON list reader are parameters.

## Model

| member | source | states |
|---|---|---|
| `AttachmentInsert.ExternalOffsetAtEditorOffset` | src/application/attachment-insert.ts:142-157 | an offset is mapped exactly when it lies in the shown text, and then to a cut that splits no CRLF, does not precede the byte order mark, and stands for that editor offset |
| `AttachmentInsert.CutsAreOrdered` | src/application/attachment-insert.ts:142-157 | clean cuts of the stored text are in the order of the editor offsets they stand for, none beyond the shown text |
| `AttachmentInsert.CutIsUnique` | src/application/attachment-insert.ts:142-157 | an editor offset names at most one clean cut, so the mapping is the only possible one |
| `AttachmentInsert.MapSelection` | src/application/attachment-insert.ts:541-558 | a selection is accepted iff it lies in the shown text behind the previous one; the reason given otherwise, which is `selection-order` also for a negative start |
| `AttachmentInsert.SpliceCommutesWithView` | src/application/attachment-insert.ts:535-584 | for any ordered selections and any references that stand alone, splicing the stored text at the mapped cuts and then viewing it equals splicing the view |
| `AttachmentInsert.PlanBatch` | src/application/attachment-insert.ts:535-584 | a batch is planned iff it has 1 to 32 items and their selections are valid and ordered; the note is then one splice at clean cuts, and its view is the shown note with every selection replaced |
| `AttachmentInsert.PlanInsert` | src/application/attachment-insert.ts:288-364 | the single insertion: accepted iff the selection is valid; the view changes only there; the caret is the end of the reference |
| `AttachmentInsert.CaretAtEndOfReference` | src/application/attachment-insert.ts:568-578 | each reference stands at its selection moved by the items before it; its caret falls short of the end by the length of the selection, so it is at the end iff the selection is empty |
| `AttachmentInsert.ReferenceReadsBack` | src/application/attachment-insert.ts:159-174 | reading a reference as Markdown or as a wikilink gives its label, with the escapes undone, and its target, iff the target holds no closing parenthesis, or no closing bracket |
| `Splices.SpliceSplits` | src/application/attachment-insert.ts:535-584 | whatever edits come first, the splice of the rest follows them unchanged, moved by exactly their growth |
| `Splices.SpliceHasText` | src/application/attachment-insert.ts:535-584 | the i-th replacement stands in the result at its own start plus the growth of the edits before it |
| `FilePreview.ValidPrefixes` | src/application/vault-file-preview-service.ts:139-160 | the prefixes of valid UTF-8 that decode are exactly those cut at a character boundary, and they decode to prefixes of the text |
| `FilePreview.BoundaryNearby` | src/application/vault-file-preview-service.ts:148-160 | a character boundary lies at most three bytes before any offset |
| `FilePreview.TrimUtf8Preview` | src/application/vault-file-preview-service.ts:148-160 | for any bytes the loop stops at the longest prefix within the limit that decodes, and reports truncation iff bytes were dropped |
| `FilePreview.PreviewOfValidText` | src/application/vault-file-preview-service.ts:148-160 | for valid bytes that prefix ends at the greatest boundary within the limit, at most three bytes short of it, and shows a prefix of the text |
| `FilePreview.PreviewText` | src/application/vault-file-preview-service.ts:299-303 | the text preview is taken iff the bytes are valid UTF-8 without NUL; truncated iff they exceed the limit; whole text otherwise |
| `FilePreview.DecodesTextIff` | src/application/vault-file-preview-service.ts:148-160 | a text is shown for exactly its own UTF-8 bytes, with one byte order mark in front or, unless it starts with one, without |
| `Utf8.CharRoundTrip` | src/application/vault-file-preview-service.ts:139-146 | decoding the UTF-8 form of a character (section 3 of RFC 3629) yields that character |
| `Utf8.DecodesIffEncoded` | src/application/vault-file-preview-service.ts:139-146 | strict decoding gives a text for exactly its own UTF-8 form |
| `VaultPath.NormalizedIsVaultPath` | src/kernel/path-policy.ts:108-130 | every accepted path comes out as plain segments joined by single slashes |
| `VaultPath.NormalizedExactly` | src/kernel/path-policy.ts:108-130 | a path is accepted iff it is relative, ends in no slash of either kind, climbs nowhere and names something; what comes out is its named segments with single slashes between them |
| `VaultPath.NormalizeTwice` | src/kernel/path-policy.ts:108-130 | normalizing the result again gives it back iff it does not start with a drive |
| `VaultPath.NormalizeAgain` | src/kernel/path-policy.ts:108-130 | a path in normal form is accepted as itself, or rejected iff it starts with a drive |
| `VaultPath.DriveBehindDot` | src/kernel/path-policy.ts:108-130 | every drive path is accepted behind `./` and rejected once that is stripped: normalization is not idempotent |
| `VaultPath.RelativeLeadsBack` | src/application/json-canvas-reference-rewrite.ts:134 | following the relative path from a folder, with its upward steps, leads to the target segments |
| `Percent.EncodedPathRoundTrip` | src/application/json-canvas-reference-rewrite.ts:93-103 | percent-encoding a path segment by segment (section 2.1 of RFC 3986) is undone by decoding the whole, and leaves nothing that delimits a reference |
| `Percent.DecodesIffSpelled` | src/application/canvas-attachment-service.ts:83-86 | decoding gives a text for exactly the strings in which each character stands for itself, unless it is a percent sign, or is escaped byte by byte with hexadecimal digits in either case |
| `CanvasReference.ReadPrinted` | src/application/canvas-attachment-service.ts:45-133 | a printed path with its suffix is read by decoding exactly the printed part, unless the whole exceeds the length limit; what that decodes to is read as in `RootReference` and `RelativeReference` |
| `CanvasReference.ResolvedIsPublic` | src/application/canvas-attachment-service.ts:30-133 | whatever a reference says, what it resolves to is a path of the vault, and no segment of it, in lower case, is `.obsidian`, `.git` or `.trash` or starts with `.threadleaf-` |
| `CanvasReference.EveryReferenceIsFramed` | src/application/canvas-attachment-service.ts:42-66 | every reference is a target between white space and, at most once, angle brackets with white space inside |
| `CanvasReference.AnyReference` | src/application/canvas-attachment-service.ts:45-103 | any framed target whatever: `invalid` beyond 4096 characters or with a NUL, `external` iff a scheme or `//` leads it, `invalid` when its path part spells no text, and otherwise resolved by the text it spells, with the query and fragment left off |
| `CanvasReference.RootReference` | src/application/canvas-attachment-service.ts:99-131 | a path of the vault behind any number of slashes resolves to itself, and is `private` iff one of its segments is; a drive is `invalid` or outside the vault |
| `CanvasReference.RelativeReference` | src/application/canvas-attachment-service.ts:104-131 | a reference led by `.` or `..` resolves from the folder of the canvas, climbing and then going down; it leaves the vault iff it climbs further than to the root or names nothing |
| `CanvasReference.PrintedIsReadBack` | src/application/json-canvas-reference-rewrite.ts:105-137 | for plain, rooted and relative spellings the printed reference reads, from the same canvas, as exactly the target with its suffix kept, iff it fits the length limit, the target is neither a drive nor a private path, and a relative spelling has a readable first step |
| `CanvasReference.SpellingIsKept` | src/application/json-canvas-reference-rewrite.ts:105-137 | the new reference spells the target in the way of the old one, behind a slash, from the root or relative, and keeps the query or fragment |
| `CanvasReference.DotName` | src/application/json-canvas-reference-rewrite.ts:134-136 | a relative target whose first name starts with a dot gets no `./`, and so is found iff the canvas lies in the vault root |
| `CanvasReference.EmptyRelative` | src/application/json-canvas-reference-rewrite.ts:134-136 | a relative target equal to the folder of the canvas is never read back |
| `CanvasRewrite.PlannedToken` | src/application/json-canvas-reference-rewrite.ts:267-321 | a node is rewritten only through its own single literal with that value, only if it resolves to the moved attachment, and to the printed replacement |
| `CanvasRewrite.NodeOutcome` | src/application/json-canvas-reference-rewrite.ts:267-321 | a node is left alone iff its reference does not mean the moved attachment, and blocks iff its literal is not the only one, it may mean the attachment but does not resolve, or its spelling cannot be replaced |
| `CanvasRewrite.ConcernedAreRewritten` | src/application/json-canvas-reference-rewrite.ts:267-330 | when nothing blocks, every node whose reference means the moved attachment is rewritten in the list and in the text, at its one literal, and no other node is |
| `CanvasRewrite.EditsAreOrdered` | src/application/json-canvas-reference-rewrite.ts:267-329 | the replaced literals are disjoint and in text order |
| `CanvasRewrite.RewriteReferences` | src/application/json-canvas-reference-rewrite.ts:263-330 | the rewrite is blocked iff some node fails, by the first such node and its reason; otherwise the text is the original with exactly the planned literals exchanged |
| `CanvasRewrite.RewritesFollow` | src/application/json-canvas-reference-rewrite.ts:267-330 | every rewritten reference referred to the moved attachment and now reads as the target under the exact condition of `PrintedIsReadBack` |
| `Quoting.QuoteReadsBack` | src/application/json-canvas-reference-rewrite.ts:328 | a string printed as a JSON literal is read back as that string |
| `Quoting.EscapesRead` | src/application/json-canvas-reference-rewrite.ts:328 | the reader takes the escapes of section 7 of RFC 8259 for the code points they stand for |
| `RightToLeft.DescendingIsBackwards` | src/application/note-move.ts:189-191 | for non-empty disjoint ranges, sorting by descending start is exactly the reverse of text order |
| `RightToLeft.ApplyRewrites` | src/application/note-move.ts:188-196 | splicing from the right equals one left-to-right pass that keeps every gap |
| `RightToLeft.EmptyRangeClashes` | src/application/note-move.ts:188-196 | with an empty range beside a range of the same start the two differ: why the ranges must not be empty |
| `NoteMove.OverlapScan` | src/application/note-move.ts:389-397 | marks exactly the links whose range starts before its left neighbour ends, or ends behind the start of its right neighbour |
| `NoteMove.UnmarkedAreDisjoint` | src/application/note-move.ts:384-401 | comparing neighbours is enough: the unmarked ranges are pairwise disjoint and in order |
| `NoteMove.FindCandidates` | src/application/note-move.ts:279-316 | the candidates are exactly the links that would break and resolve to a note; exactly those that would break and do not resolve block |
| `NoteMove.UnmarkedApply` | src/application/note-move.ts:384-401 | what is left unmarked is exactly what is needed and meets no neighbour |
| `NoteMove.PlanDocument` | src/application/note-move.ts:318-463 | refused iff the note has to be read and is not as it was indexed; otherwise a link is rewritten iff it would break, resolves to a note and its range meets no neighbour, to its own replacement; the text written is one splice of exactly these; the blockers are exactly the links that do not mean what they should with their final target; what that is, in words of its own, is in `BlockedExactly` and `EveryLinkFollows` |
| `NoteMove.ValidateLinks` | src/application/note-move.ts:431-463 | adds exactly the links whose final target resolves to anything but the expected resolution |
| `NoteMove.PlanMarkdownNoteMove` | src/application/note-move.ts:226-463 | conflicts iff the target exists, or the source is not at the expected revision; planned iff otherwise the paths allow it and every note that is read has its indexed revision; with link updates every note gets the plan of `PlanDocument`, without blockers wherever the renderer is right and every link can follow |
| `NoteMove.UnblockedMoves` | src/application/note-move.ts:431-463 | a note has no blocker iff every link that would break resolves to a note, meets no neighbour, and is replaced by one that means what it should |
| `NoteMove.BlockedExactly` | src/application/note-move.ts:431-463 | a link is a blocker iff, as it is written in the end, it does not lead among the moved paths to what it led to before |
| `NoteMove.NothingBlocks` | src/application/note-move.ts:318-463 | if what the renderer writes for a path always leads there, then a note has no blocker as soon as every link that would break leads to an indexed note and its rendered range lies apart from the other such ranges |
| `NoteMove.EveryLinkFollows` | src/application/note-move.ts:61-78 | without blockers every link resolves, among the paths less the source and with the target, to the path it had, or the target if that was the source, and so do the candidates of an ambiguous link: one that would not by the replacement rendered for that path, which stands in the written text at its moved place, every other one by the target it has |
| `VaultGraph.LocalDistances` | src/application/vault-graph.ts:143-171 | terminates; answers iff the root is indexed; holds exactly the notes within `depth`, each with its shortest distance |
| `VaultGraph.ReachesAll` | src/application/vault-graph.ts:150-169 | when the queue is expanded, no note within reach is missing or too far |
| `VaultGraph.Discover` | src/application/vault-graph.ts:161-167 | reaching a new neighbour keeps the queue free of repetition, ordered by distance and never two levels apart |
| `VaultGraph.GraphEdges` | src/application/vault-graph.ts:84-111 | one entry per ordered pair of indexed notes with a resolved link, counting every such link |
| `VaultGraph.EdgesJoinNotes` | src/application/vault-graph.ts:88-93 | both ends of every edge are indexed |
| `VaultGraph.AdjacencyFor` | src/application/vault-graph.ts:113-123 | two notes are neighbours iff an edge joins them in either direction |
| `VaultGraph.CountsFor` | src/application/vault-graph.ts:125-141 | every note gets as many incoming links as resolve to it anywhere in the index, and as many outgoing ones as its own links that resolve to an indexed note |
| `VaultGraph.EveryLinkCountsTwice` | src/application/vault-graph.ts:125-141 | over all notes there are as many incoming as outgoing links: each link that resolves to an indexed note, once |
| `Sorting.SortByIsStable` | src/application/vault-graph.ts:205-217 | the stable sort by a key refines an earlier order among equal keys |
| `VaultGraph.NotesInOrder` | src/application/vault-graph.ts:205-217 | notes are ordered by distance, then number of neighbours, then name |
| `VaultGraph.KeptMembers` | src/application/vault-graph.ts:188-219 | only eligible notes are shown, as many as the limit allows, and all of them when they fit |
| `VaultGraph.SelectEdges` | src/application/vault-graph.ts:225-233 | shows the most frequent edges of the candidates, none twice, in order of frequency and names, as many as the limit allows |
| `VaultGraph.ProjectVaultGraph` | src/application/vault-graph.ts:173-260 | refused iff the local root is not indexed; otherwise shows the kept notes, each with its distance, links and neighbours, and the most frequent edges among them, with both totals and truncation reported iff something is left out |
| `VaultGraph.NotesAreShownRightly` | src/application/vault-graph.ts:188-260 | every note shown was asked for, within reach or, in a global graph, linked unless orphans are included, and has its own numbers of incoming and outgoing links, of neighbours, and the length of a shortest walk from the root; as many as were asked for are reported, and all of them shown within the limit |
| `VaultGraph.FirstAreShown` | src/application/vault-graph.ts:205-219 | what the limit leaves out comes, by distance, number of neighbours and name, after everything shown |
| `VaultGraph.EdgesJoinShownNotes` | src/application/vault-graph.ts:220-233 | every edge shown joins two notes shown |
| `VaultGraph.RootIsShown` | src/application/vault-graph.ts:188-219 | the root is shown at distance zero whatever the query and the limit |
| `VaultGraph.PrefixIsConnected` | src/application/vault-graph.ts:205-219 | every non-empty prefix of the notes by distance holds the root, and with every other note a neighbour one step nearer |
| `VaultGraph.LocalGraphIsRooted` | src/application/vault-graph.ts:182-260 | for every limit, a local graph whose query matches all shows with every note but the root a neighbour one step nearer the root |
| `CorpusCapture.AgreeingPasses` | src/application/attachment-move.ts:622-640 | whatever two passes agree on is the whole vault, within its scope, at the instant between them, iff no path of the scope shows one state, a revision or its absence, on both sides of that instant and another at it |
| `CorpusCapture.UnsteadyMisleads` | src/application/attachment-move.ts:622-640 | whenever such a path exists, there is a corpus both passes agree on that is not the vault of that instant |
| `CorpusCapture.ReturningDefeatsIt` | src/application/attachment-move.ts:622-640 | two notes that flip together make both passes agree on a corpus the vault never held |
| `CorpusCapture.ChangedCorpusPaths` | src/application/attachment-move.ts:574-594 | the paths reported are exactly those listed on one side only or with an unexpected actual revision, each once and in order |
| `CorpusCapture.NothingChanged` | src/application/attachment-move.ts:574-594 | nothing is reported iff the path sets are equal and every actual revision is the expected one |
| `CorpusCapture.MissingRevisionGoesUnseen` | src/application/attachment-move.ts:589-592 | an expected revision without an actual one goes unseen |
| `CorpusCapture.SortedPathsMembers` | src/application/attachment-move.ts:570-572 | the sorted path list holds each path once, in order |
| `CorpusCapture.ScopesAre` | src/kernel/path-policy.ts:566-581 | notes are the paths that end in `.md` in any case, references those and `.canvas` |
| `CorpusCapture.Vault.List` | src/kernel/path-policy.ts:43-70 | a walk over the folders with a wait before each: a path listed was there, and one not listed was missing, at some instant of the walk |
| `CorpusCapture.Vault.ReadRevisions` | src/application/attachment-move.ts:643-656 | the entries follow the paths, and each was true at some instant of the pass; without them a file was missing or a read failed |
| `CorpusCapture.Vault.CaptureByPaths` | src/application/attachment-move.ts:619-641 | under any interleaving of outside writes, a corpus returned was seen by two agreeing passes, and so is the vault between them under the condition of `AgreeingPasses`; where nothing is written and nothing fails, a corpus is returned |
| `CorpusCapture.Vault.ReadStableCorpus` | src/kernel/vault-kernel.ts:436-493 | the same of the kernel's own reader for either scope, whose success also needs an order that tells paths apart |
| `CorpusCapture.Vault.CaptureKernelCorpus` | src/application/attachment-move.ts:607-641 | with or without that reader; the reference scope without it gives no corpus |
| `CorpusCapture.ReadDocuments` | src/application/attachment-move.ts:877-1028 | all notes were read from the vault during the pass and their rewrites computed from the texts read, or the one it stopped at was missing or could not be read |
| `CorpusCapture.ScanCanvases` | src/application/attachment-move.ts:700-803 | every canvas was read and parses, with its rewrites, or is reported; one is reported only for a fault, its absence, or a text that does not parse |
| `CorpusCapture.MatchingCorpus` | src/application/attachment-move.ts:1068-1086 | a corpus that matches the documents read shows that they were the vault of its instant |
| `CorpusCapture.PlanMove` | src/application/attachment-move.ts:820-1096 | a plan without unreadable canvases has the rewrites of the texts that made up the whole vault, within its scope, between the two passes of the corpus, under the condition of `AgreeingPasses`; in a vault nobody writes to there is a plan iff the generation has not moved, with exactly the canvases that do not parse as blockers |
| `WorkspaceController.Controller.Resume` | src/application/workspace-controller.ts:639-697 | like every method of its class, one per segment between two waits (of activation, switch, guarded read, adoption and close): the fields change as in the step of the state machine, whose steps come to what `ActivationEnds`, `SwitchEnds` and `GuardedReadAnswers` say |
| `WorkspaceController.CallsBegin` | src/application/workspace-controller.ts:639-646 | an activation starts for the deferred vault, a switch with nothing deferred any more, and each leaves every other call, the current runtime and what was closed as it was |
| `WorkspaceController.ActivationSucceeds` | src/application/workspace-controller.ts:639-697 | an activation that is not overtaken makes, after three, two or one successes, the runtime made for it the current one, which never was current; nothing is deferred, and exactly the old one is closed |
| `WorkspaceController.ActivationEnds` | src/application/workspace-controller.ts:639-697 | whatever happens between its waits, an activation takes effect iff it succeeds at all three and no other activation, switch or close came in between; otherwise the current runtime stays, one made for it is closed once, and nothing is deferred any more iff the factory failed in time |
| `WorkspaceController.SwitchEnds` | src/application/workspace-controller.ts:1559-1593 | the same of a switch, which takes effect iff it succeeds at every wait |
| `WorkspaceController.StepKeepsShape` | src/application/workspace-controller.ts:639-697 | every event keeps: a held runtime is held by the call it was made for, was never current and never closed |
| `WorkspaceController.StepConserves` | src/application/workspace-controller.ts:639-697 | an event keeps every runtime accounted for iff it is neither a close of the living controller nor an adoption in which a listener throws |
| `WorkspaceController.RunConserves` | src/application/workspace-controller.ts:1559-1593 | after any run each runtime handed out is current, held by exactly one unfinished call, or closed exactly once, iff it was closed along with the controller as often as a throwing listener left it open |
| `WorkspaceController.RunsFromTheStart` | src/application/workspace-controller.ts:639-697 | from the start of the controller, this holds at every moment of a run iff no event of it closes the living controller or lets a listener throw while a runtime is replaced |
| `WorkspaceController.CloseIsFinal` | src/application/workspace-controller.ts:1600-1606 | `close` is final, in that in every continuation nothing is adopted and every runtime is held by one call still under way or closed exactly once, iff no switch is under way when it is called |
| `WorkspaceController.SwitchOutlivesClose` | src/application/workspace-controller.ts:1559-1593 | a switch under way at any of its four waits outlives `close`: with success it closes the old runtime a second time and leaves a new one current and open |
| `WorkspaceController.OvertakenNeverCurrent` | src/application/workspace-controller.ts:678-687 | in no run does the runtime of an overtaken activation become current, whether or not it exists yet |
| `WorkspaceController.NewerCallsOvertake` | src/application/workspace-controller.ts:645-645 | a newer activation, a switch and a close overtake every activation under way |
| `WorkspaceController.ReplacedNeverReturns` | src/application/workspace-controller.ts:1621-1631 | a replaced runtime is never current again, in any run |
| `WorkspaceController.GuardedReadIsCurrent` | src/application/workspace-controller.ts:583-595 | a guarded read that answers with a response came from a runtime of the vault asked for that was current at every moment of the call |
| `WorkspaceController.GuardedReadAnswers` | src/application/workspace-controller.ts:583-595 | a guarded read is refused while a vault is deferred, stale for another vault than the current one, and otherwise, whatever happens while it waits, answered with a response iff the same runtime is current at the end, else stale with the vault that is open; it changes nothing else |
| `WorkspaceController.AnswersStay` | src/application/workspace-controller.ts:583-595 | an answer, once given, stays |
| `Frontmatter.SplitLosesNothing` | src/application/note-properties.ts:59-64 | splitting into lines loses nothing iff every carriage return is part of a line end |
| `Frontmatter.SplitJoined` | src/application/note-properties.ts:59-64 | lines that end in LF or CRLF are found again after joining |
| `Frontmatter.FindsClear` | src/application/note-properties.ts:74-80 | the closing marker found is the first that stands at a line start |
| `Frontmatter.ClosingWithin` | src/application/note-properties.ts:74-74 | whether a line is a closing marker shows within the line |
| `Frontmatter.LayoutParts` | src/application/note-properties.ts:66-89 | the parts of a layout make up the note, with no marker before the closing one |
| `Frontmatter.LayoutExactly` | src/application/note-properties.ts:66-89 | a note has no frontmatter iff no marker line opens it, is unclosed iff no marker of dashes or dots stands alone on a later line, and otherwise is cut at the first such line; CRLF is used iff the note holds one |
| `Frontmatter.SplitParts` | src/application/note-properties.ts:59-64 | text without a bare carriage return splits into ended lines and at most one that is not |
| `Frontmatter.AssembledLayout` | src/application/note-properties.ts:66-89 | clear lines put between markers, and a last one that only a separator ends, are found again with the same markers and body |
| `NoteProperties.ScanSound` | src/application/note-properties.ts:99-136 | the pieces of a scanned frontmatter are its lines, each a gap or a well-formed block, with no name twice |
| `NoteProperties.ScanComplete` | src/application/note-properties.ts:99-136 | scanning well-formed pieces written out gives these pieces |
| `NoteProperties.PropertyBlocks` | src/application/note-properties.ts:99-136 | the loop finds the blocks of that scan with their spans, or refuses with it |
| `NoteProperties.SpliceLines` | src/application/note-properties.ts:383-392 | splicing the span of a block is putting, or leaving out, that block |
| `NoteProperties.PutKeepsOthers` | src/application/note-properties.ts:383-397 | without the block of the name, the pieces before and after a set are the same |
| `NoteProperties.SeenLossless` | src/application/note-properties.ts:366-430 | setting and removing work on a note with bare carriage returns as on the note without what splitting loses |
| `NoteProperties.MergedNote` | src/application/note-properties.ts:393-395 | a property added behind a last line that is not ended leaves a note that does not have it, or cannot be edited |
| `NoteProperties.PropertyLine` | src/application/note-properties.ts:106-106 | a printed property line is read as that name and value, and is no gap and no continuation |
| `NoteProperties.ParsesExactly` | src/application/note-properties.ts:106-106 | a line gives a property this name and value iff it is the name, a colon and the value between white space |
| `NoteProperties.SerializedIff` | src/application/note-properties.ts:312-364 | a value is accepted iff: text and lists hold no line end or NUL, a list is nothing, JSON or comma-joined pieces none of which is blank, a number is a plain decimal that the host can print, a checkbox is `true` or `false` in any case, and dates and times name a day of the Gregorian calendar and a moment of it |
| `NoteProperties.DateIff` | src/application/note-properties.ts:171-183 | a date is accepted iff it is the padded numbers of a year, a month and a day of that month; February has the leap days that lie in the year |
| `NoteProperties.ListIff` | src/application/note-properties.ts:144-170 | a list is read as exactly the items it is given as: none, those of the JSON list, or the trimmed pieces whose untrimmed forms join with commas to the input |
| `NoteProperties.SetSays` | src/application/note-properties.ts:366-404 | a note that can take the value has afterwards one property of the name, and its lines say the value: a quoted text unquotes to it, the items unquote in order to the items given, a number is what the host prints, a checkbox the word in lower case, a date or time the trimmed input |
| `NoteProperties.NameIsNoMarker` | src/application/note-properties.ts:91-97 | a property line is no closing marker, even when its name consists of dashes |
| `NoteProperties.SerializedIsPrinted` | src/application/note-properties.ts:312-364 | every accepted value of every type is printed as one block that scans again, or that the scan refuses, depending exactly on whether a quoted value, text or list item, holds a line or paragraph separator |
| `NoteProperties.CommentSwallows` | src/application/note-properties.ts:393-395 | in a note whose last frontmatter line is a comment that a separator ends, whatever property is set becomes part of the comment |
| `NoteProperties.BareCrLoses` | src/application/note-properties.ts:59-64 | in a note with a comment before a bare carriage return, setting a property deletes the comment |
| `NoteProperties.ApplyNotePropertySet` | src/application/note-properties.ts:366-404 | refuses iff the name or the value is not accepted, the frontmatter is not closed, or its lines are refused; otherwise locates and splices as specified, and the note then says the value as in `SetSays` |
| `NoteProperties.RescanAfterSet` | src/application/note-properties.ts:366-404 | nothing is lost, and splitting and scanning the result finds the same markers and body, every other piece unchanged in order, and one block of the name with the printed lines, iff the frontmatter has no bare carriage return, and ends in a line feed or has the property |
| `NoteProperties.SetIsReadBack` | src/application/note-properties.ts:366-404 | the same for any accepted value: iff the frontmatter meets that condition and no quoted value holds a separator |
| `NoteProperties.RescanAfterFirstSet` | src/application/note-properties.ts:373-381 | a note without frontmatter gets one that holds just the property; the text follows byte for byte |
| `NoteProperties.FirstSetIsReadBack` | src/application/note-properties.ts:373-381 | and that property is found again iff no quoted value holds a separator |
| `NoteProperties.LastSetWins` | src/application/note-properties.ts:366-404 | a set after a set of the same property equals the second alone, so that setting twice equals setting once, iff the note, less what splitting loses, ends its frontmatter in a line feed or has the property |
| `NoteProperties.SetsCommute` | src/application/note-properties.ts:366-404 | sets of two different properties that are both present commute, in any note that can be edited |
| `NoteProperties.SetThenRemove` | src/application/note-properties.ts:366-430 | removing a property just set on a note without it restores the note iff it had no frontmatter, or one without a bare carriage return that ends in a line feed and holds some text |
| `NoteProperties.RescanAfterRemove` | src/application/note-properties.ts:406-430 | removing leaves every other piece, both markers and the body, where non-blank text is left, iff the frontmatter has no bare carriage return |
| `NoteProperties.MarkersGo` | src/application/note-properties.ts:421-429 | removing the last property that is not a blank line takes the markers away too |
| `NoteProperties.ApplyNotePropertyRemove` | src/application/note-properties.ts:406-430 | locates and splices as specified; says when the property is missing or the note is refused |
| `CanvasEmbed.Expansion.Visit` | src/application/canvas-embed-service.ts:90-154 | terminates on cycles and only adds items; nothing is cut off iff all that the canvas unfolds to fits, and then exactly that is added; while there is room, every reference above the depth limit is followed |
| `CanvasEmbed.ClosedHoldsAll` | src/application/canvas-embed-service.ts:129-153 | items closed under references hold everything reachable from the root |
| `CanvasEmbed.EmbedsAre` | src/application/canvas-embed-service.ts:129-141 | a canvas embeds another iff it is well formed and one of its file nodes names a `.canvas` that resolves to it |
| `CanvasEmbed.ExpandCanvasEmbeds` | src/application/canvas-embed-service.ts:57-157 | answers iff vault and path allow it; shows at most the allowed number of distinct canvases, each reached by a walk of exactly its depth; not truncated iff all references unfold to readable canvases, none twice, within the depth and below the count limit, and then it shows exactly these, which are the reachable ones; unless the list is full, nothing readable that a canvas above the depth limit refers to is left out |
| `JsonCanvas.NodeReported` | src/application/json-canvas.ts:94-198 | a node raises no diagnostic iff it is well formed (JSON Canvas Spec 1.0, section "Nodes") and of a supported type |
| `JsonCanvas.EdgeReported` | src/application/json-canvas.ts:200-253 | an edge raises no diagnostic iff it is well formed (JSON Canvas Spec 1.0, section "Edges") |
| `JsonCanvas.ParseJsonCanvas` | src/application/json-canvas.ts:317-397 | the loops with their id sets collect exactly the specified diagnostics and keep every key of the root |
| `JsonCanvas.ReadyIffSound` | src/application/json-canvas.ts:317-397 | no diagnostics iff the lists are lists within their limits, all nodes and edges are well formed, ids are unique and no edge dangles |
| `JsonCanvas.MutableJsonCanvas.NextId` | src/application/json-canvas.ts:416-424 | the loop finds the specified id |
| `JsonCanvas.NextIdIsFresh` | src/application/json-canvas.ts:416-424 | that id is unused and non-empty, and is found within nodes + edges + 1 tries |
| `JsonCanvas.FreeIndexIsFirst` | src/application/json-canvas.ts:420-423 | all smaller numbers are taken |
| `Decimals.DecimalInjective` | src/application/json-canvas.ts:421-423 | different numbers print differently |
| `JsonCanvas.ApplyKeeps` | src/application/json-canvas.ts:439-575 | a sound document stays sound iff the argument of the operation is well formed |
| `JsonCanvas.RunKeeps` | src/application/json-canvas.ts:427-583 | every run of well-formed operations on a sound document leaves a sound one |
| `JsonCanvas.RemoveNodePasses` | src/application/json-canvas.ts:562-570 | removing a node takes its edges along and leaves no node of that id |
| `JsonCanvas.UnknownKeysStay` | src/application/json-canvas.ts:427-575 | no operation but a removal loses an entry, and none changes a key outside its own fields |
| `JsonCanvas.PlacesNode` | src/application/json-canvas.ts:467-483 | moving and resizing write the two numbers where they belong in the first node of the id, and nothing else; refused iff there is none or a number will not do |
| `JsonCanvas.EditsContent` | src/application/json-canvas.ts:485-520 | editing writes the content of a node of the right type into the field of that type, and nothing else |
| `JsonCanvas.EditsLabel` | src/application/json-canvas.ts:522-532 | a caption is written into the label of the edge; an empty one takes the label away |
| `JsonCanvas.AddsNewNode` | src/application/json-canvas.ts:439-465 | a new node comes last, with its geometry, its content in the field of its kind, and an id that was given or is not used |
| `JsonCanvas.AddsEdge` | src/application/json-canvas.ts:534-550 | an edge is added behind the others iff there is room, both its ends are there and its id is not |
| `JsonCanvas.ConnectsNodes` | src/application/json-canvas.ts:552-560 | connecting leads from the source to the target, at the sides given |
| `JsonCanvas.RemovesNode` | src/application/json-canvas.ts:562-570 | removing a node leaves, in order, every other node and every edge without an end at it |
| `JsonCanvas.RemovesEdge` | src/application/json-canvas.ts:572-575 | removing an edge leaves, in order, every other entry |
| `JsonCanvas.MutableJsonCanvas.AddNode` | src/application/json-canvas.ts:427-583 | like every editing method of its class: the document becomes the one that the abstract operation gives, and a refusal changes nothing |
| `NoteBookmarks.NormalizeBookmarkTwice` | src/application/note-bookmarks.ts:22-34 | an accepted bookmark path is accepted again as itself, unless it starts with a drive |
| `NoteBookmarks.BookmarkPathExactly` | src/application/note-bookmarks.ts:22-34 | a bookmark is a path of the vault that ends in `.md` in any case and has no segment led by a dot |
| `NoteBookmarks.WantedMeans` | src/application/note-bookmarks.ts:84-110 | what a request asks for, path by path: a path put in or taken out, or the target in the place of the first of source and target, with all other paths in their order |
| `NoteBookmarks.ChangeIsWanted` | src/application/note-bookmarks.ts:84-110 | a mutation saves exactly the list asked for, unless it is there already, and is rejected iff it does not fit |
| `NoteBookmarks.SetChanges` | src/application/note-bookmarks.ts:84-96 | setting appends, removes or leaves the list, and is rejected iff it is full or the path starts with a drive |
| `NoteBookmarks.RemapChanges` | src/application/note-bookmarks.ts:98-110 | remapping leaves every other path in its place among the others and the target once; it is rejected iff the target starts with a drive |
| `NoteBookmarks.ChangeIsWellFormed` | src/application/note-bookmarks.ts:36-66 | what is saved is within the limit, without repetition and in normal form |
| `NoteBookmarks.SectionsNeverOverlap` | src/application/note-bookmarks.ts:119-138 | two sections from load to save of one vault never overlap |
| `NoteBookmarks.StartsInOrder` | src/application/note-bookmarks.ts:119-138 | an operation can start iff all earlier calls on its vault are over, whatever tails were deleted |
| `NoteBookmarks.CleanupKeeps` | src/application/note-bookmarks.ts:132-136 | deleting the tail of a finished queue keeps the invariant, so no later call starts early |
| `NoteBookmarks.CleanupDeletes` | src/application/note-bookmarks.ts:132-136 | a call that is over gives up the tail of its vault, unless a later call has taken it |
| `NoteBookmarks.GetSeesEarlierCalls` | src/application/note-bookmarks.ts:76-82 | a read can be answered iff every mutation called before it is over, and the answer is the list with all mutations applied that have succeeded |
| `NoteBookmarks.StepKeeps` | src/application/note-bookmarks.ts:76-138 | every event keeps queue order, and the stored list as the successful calls in call order |
| `NoteBookmarks.RunKeeps` | src/application/note-bookmarks.ts:76-138 | over every interleaving with failures the stored list of every vault is the successful calls applied one by one in call order, and well formed |
| `NoteBookmarks.RunsFromTheStart` | src/application/note-bookmarks.ts:76-138 | from a store of well-formed lists this holds in every run, and every read answered shows the list after exactly some first operations of its vault, all of them over and those before the read among them; which operations these are is in `StoredIsGranted` |
| `NoteBookmarks.StoredIsGranted` | src/application/note-bookmarks.ts:84-138 | over every run of events there is one operation for each accepted call, in call order, and the stored list of every vault is what these calls asked for, by their normalized paths and flags, carried out one by one where they succeeded |
| `NoteBookmarks.ReadsSeeGranted` | src/application/note-bookmarks.ts:76-82 | a read shows what some first calls of the run on its vault asked for, all of them over and those made before the read among them |
| `NoteBookmarks.CallEnds` | src/application/note-bookmarks.ts:84-131 | a call whose turn has come, with anything else in between: it succeeds iff its load does and the list is as wanted already or fits and is saved; then the list of its vault, and no other, is what was asked for |
| `NoteBookmarks.NoteBookmarkController.Begin` | src/application/note-bookmarks.ts:76-138 | like every method of its class, one per segment between two waits (of set, remap, load, save, cleanup and read): the fields change as in the step of the state machine |
| `WorkspaceState.ParsedIsOk` | src/application/workspace-state.ts:161-343 | whatever is read, of any version, keeps the layout invariant: pinned prefix, no tab twice, active tab open, pane and split rules, limits |
| `WorkspaceState.VersionsAgree` | src/application/workspace-state.ts:294-317 | a document of both versions is read as its layout iff its version 1 part reads as one pane that shows what the active pane shows |
| `WorkspaceState.ArrangedIsOk` | src/application/workspace-state.ts:176-197 | arranging puts the pinned tabs first and loses or repeats none |
| `WorkspaceState.FittingPaneReads` | src/application/workspace-state.ts:161-213 | a pane written in any tab order reads with its pinned tabs first, or is refused iff a path starts with a drive |
| `WorkspaceState.StateReadsBack` | src/application/workspace-state.ts:358-387 | the version 2 form of a layout reads back as it iff no path starts with a drive |
| `WorkspaceState.LegacyReadsBack` | src/application/workspace-state.ts:257-292 | the version 1 part of a document reads as the tabs and active path of the active pane |
| `WorkspaceState.DocumentReadsBack` | src/application/workspace-state.ts:397-424 | a state can be written iff no path starts with a drive, and the version 1 compatible document then reads back as that state |
| `WorkspaceState.DrivePathIsStuck` | src/application/workspace-state.ts:109-118 | every drive path is read behind `./`, into a pane that cannot be read back |
| `WorkspaceState.ReorderWorkspaceTab` | src/application/workspace-state.ts:433-467 | splices, normalizes and answers as specified: a pinned tab stays, another one moves |
| `WorkspaceState.MovedLayout` | src/application/workspace-state.ts:463-466 | reading the reordered layout gives back the old state for a pinned tab, the moved one otherwise, or is refused iff a path starts with a drive |
| `WorkspaceState.ReorderedIsOk` | src/application/workspace-state.ts:433-467 | moving an unpinned tab keeps the pinned prefix, every tab and the order of the others, and the layout invariant |
| `WorkspaceState.ReorderMoves` | src/application/workspace-state.ts:433-467 | a reorder that does not throw changes nothing but the order of the tabs of the pane: an unpinned tab comes behind exactly the tabs in front of the gap nearest to the target, halves up, among those behind the pinned tabs |
| `WorkspaceState.MovedKeeps` | src/application/workspace-state.ts:455-458 | the two splices keep every tab once, keep the others in order, and put the tab at the insertion index |
| `WorkspaceState.ReorderKeepsLayout` | src/application/workspace-state.ts:433-467 | every reorder that does not throw keeps the layout invariant |
| `WorkspaceState.RunReadsBack` | src/application/workspace-state.ts:397-467 | after any run of reorders a state that could be written still reads back from its document |

## Left out

- CanvasReference.PrintedIsReadBack: length counts Unicode scalar values where the original counts UTF-16 units, and references with lone surrogates are not modelled; `AttachmentInsert` alone works on UTF-16 units.
- WorkspaceState.ParsedIsOk: the 256-unit limit on the vault identity likewise counts scalar values.
- VaultGraph.ProjectVaultGraph: titles and tags of a node are not shown, and the query is any predicate.
- VaultGraph.GraphEdges: a map from edges to their numbers, so the order of the list before selection, which no result depends on, is not modelled.
- AttachmentInsert.PlanBatch: the refusals for file names, sizes, target paths, the note's revision and the listing of the target folder, which come before and after the selections, are not modelled.
- AttachmentInsert.PlanInsert: the same refusals are not modelled.
- AttachmentInsert.ReferenceReadsBack: the label comes without its extension, and the target encoded for its link style, as parameters.
- JsonCanvas.ParseJsonCanvas: starts from the JSON value, so the byte limit, invalid UTF-8 and the position of syntax errors are not modelled; the order of keys is not kept.
- JsonCanvas.MutableJsonCanvas.AddNewNode: stands for the four `add` methods, and `EditContent` for three `edit` methods, which differ in a kind and a key.
- CorpusCapture.PlanMove: the checks of the source and target file before the pass, the generation hash, and blockers other than unreadable canvases are not modelled; a file beyond the size limit counts as one that fails to be read.
- NoteMove.PlanDocument: rendering a link and parsing the rendered text are one parameter, so the claim is about the target that parsing reports, not about parsing the whole new text again; that the text parses into the links of the index, which its revision implies, is not checked again.
- NoteProperties.SerializedIsPrinted: how a number prints is a parameter that must stay within digits, signs, point and exponent.
- WorkspaceController.RunConserves: the warning text, decorated snapshots and the other runtime operations, which only forward, are not modelled.
- CanvasEmbed.ExpandCanvasEmbeds: a canvas has one reading for the whole walk, which reads it at most once; `maxBytes` is part of that reading.
- Attachment relink and restore, sniffing of images and attachments, notes' YAML and complex properties, settings, updates, templates, trash and editor drafts: refusal chains or smaller claims.
- The file system, Electron, IPC, child processes and `native/state_lock.c`: no closed specification here.
- Confirmation ids and user messages: hashes and wording.
