/**
 * Inserting attachment references into a note (src/application/attachment-insert.ts).
 *
 * The editor shows a note without its byte order mark and with every line end as one unit, so a
 * selection taken in the editor must be mapped back before the stored text is spliced.
 */
module AttachmentInsert {
  import opened Options
  import opened Sequences
  import opened Splices

  /** One UTF-16 code unit; offsets in this module count these. */
  newtype Unit = x: int | 0 <= x < 0x10000

  type Text = seq<Unit>

  const LF: Unit := 0x0A
  const CR: Unit := 0x0D
  const BOM: Unit := 0xFEFF

  function BomLength(s: Text): (n: nat)
  {
    if |s| > 0 && s[0] == BOM then 1 else 0
  }

  /** Every line end (CR LF, CR or LF) becomes one LF. */
  ghost function Unified(s: Text): Text {
    if s == [] then []
    else if s[0] == CR && |s| > 1 && s[1] == LF then [LF] + Unified(s[2..])
    else [if s[0] == CR then LF else s[0]] + Unified(s[1..])
  }

  /** What the editor shows of a stored note. */
  ghost function EditorView(s: Text): Text {
    Unified(s[BomLength(s)..])
  }

  /** The two sides of the cut are shown independently: it follows the mark and splits no CR LF. */
  ghost predicate CleanCut(s: Text, k: nat) {
    && BomLength(s) <= k <= |s|
    && !(0 < k < |s| && s[k - 1] == CR && s[k] == LF)
  }

  ghost function EditorOffset(s: Text, k: nat): nat
    requires BomLength(s) <= k <= |s|
  {
    |Unified(s[BomLength(s)..k])|
  }

  // ---------- how the view splits ----------

  lemma {:induction false} UnifiedConcat(a: Text, b: Text)
    requires !(a != [] && b != [] && a[|a| - 1] == CR && b[0] == LF)
    ensures Unified(a + b) == Unified(a) + Unified(b)
    decreases |a|
  {
    if a == [] {
      assert a + b == b;
    } else {
      var step := if a[0] == CR && |a| > 1 && a[1] == LF then 2 else 1;
      var head: Text := [if a[0] == CR then LF else a[0]];
      assert (a + b)[0] == a[0] && (|a| + |b| > 1 ==> (a + b)[1] == if |a| > 1 then a[1] else b[0]);
      assert (a + b)[step..] == a[step..] + b;
      assert Unified(a + b) == head + Unified(a[step..] + b);
      assert Unified(a) == head + Unified(a[step..]);
      UnifiedConcat(a[step..], b);
      Associative(head, Unified(a[step..]), Unified(b));
    }
  }

  lemma {:induction false} UnifiedBetween(s: Text, i: nat, j: nat, k: nat)
    requires i <= j <= k <= |s|
    requires i < j < k ==> !(s[j - 1] == CR && s[j] == LF)
    ensures Unified(s[i..k]) == Unified(s[i..j]) + Unified(s[j..k])
  {
    assert s[i..k] == s[i..j] + s[j..k];
    UnifiedConcat(s[i..j], s[j..k]);
  }

  lemma UnifiedNonEmpty(s: Text)
    requires s != []
    ensures Unified(s) != []
  {
  }

  /** Clean cuts are ordered like the editor offsets they stand for, so the mapping is one to one. */
  lemma {:induction false} CutsAreOrdered(s: Text, j: nat, k: nat)
    requires CleanCut(s, j) && CleanCut(s, k) && j < k
    ensures EditorOffset(s, j) < EditorOffset(s, k)
    ensures EditorOffset(s, k) <= |EditorView(s)|
  {
    UnifiedBetween(s, BomLength(s), j, k);
    UnifiedNonEmpty(s[j..k]);
    CutInView(s, k);
  }

  lemma {:induction false} CutInView(s: Text, k: nat)
    requires CleanCut(s, k)
    ensures EditorView(s) == Unified(s[BomLength(s)..k]) + Unified(s[k..])
    ensures EditorOffset(s, k) <= |EditorView(s)|
    ensures EditorView(s)[..EditorOffset(s, k)] == Unified(s[BomLength(s)..k])
    ensures EditorView(s)[EditorOffset(s, k)..] == Unified(s[k..])
  {
    assert s[BomLength(s)..|s|] == s[BomLength(s)..];
    assert s[k..|s|] == s[k..];
    UnifiedBetween(s, BomLength(s), k, |s|);
  }

  lemma {:induction false} CutsInView(s: Text, j: nat, k: nat)
    requires CleanCut(s, j) && CleanCut(s, k) && j <= k
    ensures EditorOffset(s, j) <= EditorOffset(s, k) <= |EditorView(s)|
    ensures EditorView(s)[EditorOffset(s, j)..EditorOffset(s, k)] == Unified(s[j..k])
  {
    CutInView(s, j);
    CutInView(s, k);
    UnifiedBetween(s, BomLength(s), j, k);
  }

  /** An editor offset names at most one clean cut of the stored text. */
  lemma {:induction false} CutIsUnique(s: Text, j: nat, k: nat)
    requires CleanCut(s, j) && CleanCut(s, k)
    ensures EditorOffset(s, j) == EditorOffset(s, k) <==> j == k
  {
    if j < k {
      CutsAreOrdered(s, j, k);
    } else if k < j {
      CutsAreOrdered(s, k, j);
    }
  }

  /** Walks the stored text to the cut that an editor offset stands for. */
  method ExternalOffsetAtEditorOffset(source: Text, requestedOffset: int) returns (r: Option<nat>)
    ensures r.Some? <==> 0 <= requestedOffset <= |EditorView(source)|
    ensures r.Some? ==> CleanCut(source, r.value) && EditorOffset(source, r.value) == requestedOffset
  {
    if requestedOffset < 0 {
      return None;
    }
    ghost var start := BomLength(source);
    var externalOffset := BomLength(source);
    var editorOffset := 0;
    assert source[start..start] == [];
    while externalOffset < |source|
      invariant CleanCut(source, externalOffset)
      invariant editorOffset == EditorOffset(source, externalOffset) <= requestedOffset
      decreases |source| - externalOffset
    {
      CutInView(source, externalOffset);
      if editorOffset == requestedOffset {
        return Some(externalOffset);
      }
      ghost var before := externalOffset;
      if source[externalOffset] == CR && externalOffset + 1 < |source| && source[externalOffset + 1] == LF {
        externalOffset := externalOffset + 2;
      } else {
        externalOffset := externalOffset + 1;
      }
      editorOffset := editorOffset + 1;
      OneUnit(source, before, externalOffset);
    }
    CutInView(source, externalOffset);
    assert source[|source|..] == [];
    r := if editorOffset == requestedOffset then Some(externalOffset) else None;
  }

  lemma {:induction false} OneUnit(s: Text, k: nat, next: nat)
    requires CleanCut(s, k) && k < |s|
    requires next == if s[k] == CR && k + 1 < |s| && s[k + 1] == LF then k + 2 else k + 1
    ensures CleanCut(s, next) && EditorOffset(s, next) == EditorOffset(s, k) + 1
  {
    UnifiedBetween(s, BomLength(s), k, next);
    assert s[k..next][next - k..] == [];
    assert Unified(s[k..next][next - k..]) == [];
  }

  // ---------- references ----------

  datatype LinkStyle = Wikilink | Markdown

  const BANG: Unit := 0x21
  const OPEN_BRACKET: Unit := 0x5B
  const CLOSE_BRACKET: Unit := 0x5D
  const OPEN_PAREN: Unit := 0x28
  const CLOSE_PAREN: Unit := 0x29

  const BACKSLASH: Unit := 0x5C

  /** Brackets and backslashes in a label are escaped. */
  function EscapedLabel(stem: Text): Text {
    if stem == [] then []
    else (if stem[0] in {BACKSLASH, OPEN_BRACKET, CLOSE_BRACKET} then [BACKSLASH, stem[0]] else [stem[0]]) + EscapedLabel(stem[1..])
  }

  /** `![[target]]` or `![label](target)`; the label is the file name without its extension. */
  function AttachmentReference(style: LinkStyle, target: Text, fileLabel: Text): (r: Text)
    ensures |r| >= 5 && r[0] == BANG && r[|r| - 1] in {CLOSE_BRACKET, CLOSE_PAREN}
  {
    match style
    case Wikilink => [BANG, OPEN_BRACKET, OPEN_BRACKET] + target + [CLOSE_BRACKET, CLOSE_BRACKET]
    case Markdown => [BANG, OPEN_BRACKET] + EscapedLabel(fileLabel) + [CLOSE_BRACKET, OPEN_PAREN] + target + [CLOSE_PAREN]
  }

  // ---------- what a reference says ----------

  /** The text up to the first `stop`, and what follows it. */
  function ReadUntil(s: Text, stop: Unit): Option<(Text, Text)> {
    if s == [] then None
    else if s[0] == stop then Some(([], s[1..]))
    else
      match ReadUntil(s[1..], stop)
      case None => None
      case Some((text, rest)) => Some(([s[0]] + text, rest))
  }

  /** A link label up to its closing bracket, with backslash escapes undone, and what follows. */
  function ReadLabel(s: Text): Option<(Text, Text)>
    decreases |s|
  {
    if s == [] then None
    else if s[0] == CLOSE_BRACKET then Some(([], s[1..]))
    else if s[0] == BACKSLASH && |s| > 1 then
      match ReadLabel(s[2..])
      case None => None
      case Some((stem, rest)) => Some(([s[1]] + stem, rest))
    else
      match ReadLabel(s[1..])
      case None => None
      case Some((stem, rest)) => Some(([s[0]] + stem, rest))
  }

  /** Label and target of `![label](target)`, where nothing follows. */
  function ReadMarkdown(s: Text): Option<(Text, Text)> {
    if |s| < 2 || s[0] != 0x21 || s[1] != 0x5B then None
    else
      match ReadLabel(s[2..])
      case None => None
      case Some((stem, rest)) =>
        if rest == [] || rest[0] != 0x28 then None
        else
          match ReadUntil(rest[1..], 0x29)
          case None => None
          case Some((target, after)) => if after == [] then Some((stem, target)) else None
  }

  /** The target of `![[target]]`, where nothing follows. */
  function ReadWikilink(s: Text): Option<Text> {
    if |s| < 3 || s[0] != 0x21 || s[1] != 0x5B || s[2] != 0x5B then None
    else
      match ReadUntil(s[3..], 0x5D)
      case None => None
      case Some((target, after)) => if after == [0x5D] then Some(target) else None
  }

  lemma {:induction false} ReadsUntil(text: Text, stop: Unit, rest: Text)
    requires stop !in text
    ensures ReadUntil(text + [stop] + rest, stop) == Some((text, rest))
    decreases |text|
  {
    var s := text + [stop] + rest;
    if text == [] {
      assert s == [stop] + rest && s[1..] == rest;
    } else {
      assert s[0] == text[0] && text[0] in text && s[1..] == text[1..] + [stop] + rest;
      HeadTail(text);
      assert stop !in text[1..];
      ReadsUntil(text[1..], stop, rest);
    }
  }

  lemma {:induction false} ReadsLabel(stem: Text, rest: Text)
    ensures ReadLabel(EscapedLabel(stem) + [CLOSE_BRACKET] + rest) == Some((stem, rest))
    decreases |stem|
  {
    var s := EscapedLabel(stem) + [CLOSE_BRACKET] + rest;
    if stem == [] {
      assert s == [CLOSE_BRACKET] + rest && s[1..] == rest;
    } else {
      var next := EscapedLabel(stem[1..]) + [CLOSE_BRACKET] + rest;
      ReadsLabel(stem[1..], rest);
      HeadTail(stem);
      if stem[0] in {BACKSLASH, OPEN_BRACKET, CLOSE_BRACKET} {
        assert s == [BACKSLASH, stem[0]] + next && s[2..] == next && s[0] == BACKSLASH && s[1] == stem[0];
      } else {
        assert s == [stem[0]] + next && s[1..] == next;
      }
    }
  }

  lemma {:induction false} StopsEarly(text: Text, stop: Unit, rest: Text)
    requires stop in text
    ensures ReadUntil(text + rest, stop).Some? && |ReadUntil(text + rest, stop).value.0| < |text|
    decreases |text|
  {
    var s := text + rest;
    assert s[0] == text[0] && s[1..] == text[1..] + rest;
    if text[0] != stop {
      HeadTail(text);
      StopsEarly(text[1..], stop, rest);
    }
  }

  /**
   * A printed reference says its label and its target: in Markdown exactly when the target holds no
   * closing parenthesis, and as a wikilink exactly when it holds no closing bracket.
   */
  lemma {:induction false} ReferenceReadsBack(target: Text, stem: Text)
    ensures ReadMarkdown(AttachmentReference(Markdown, target, stem)) == Some((stem, target)) <==> CLOSE_PAREN !in target
    ensures ReadWikilink(AttachmentReference(Wikilink, target, stem)) == Some(target) <==> CLOSE_BRACKET !in target
  {
    MarkdownReadsBack(target, stem);
    WikilinkReadsBack(target, stem);
  }

  lemma {:induction false} MarkdownReadsBack(target: Text, stem: Text)
    ensures ReadMarkdown(AttachmentReference(Markdown, target, stem)) == Some((stem, target)) <==> CLOSE_PAREN !in target
  {
    var s := AttachmentReference(Markdown, target, stem);
    var rest := [OPEN_PAREN] + target + [CLOSE_PAREN];
    assert s[2..] == EscapedLabel(stem) + [CLOSE_BRACKET] + rest;
    assert s[0] == BANG && s[1] == OPEN_BRACKET;
    ReadsLabel(stem, rest);
    assert rest[1..] == target + [CLOSE_PAREN] + [] == target + [CLOSE_PAREN];
    hide EscapedLabel, AttachmentReference;
    if CLOSE_PAREN in target {
      StopsEarly(target, CLOSE_PAREN, [CLOSE_PAREN]);
    } else {
      ReadsUntil(target, CLOSE_PAREN, []);
    }
  }

  lemma {:induction false} WikilinkReadsBack(target: Text, stem: Text)
    ensures ReadWikilink(AttachmentReference(Wikilink, target, stem)) == Some(target) <==> CLOSE_BRACKET !in target
  {
    var s := AttachmentReference(Wikilink, target, stem);
    var rest := [CLOSE_BRACKET];
    assert s[3..] == target + [CLOSE_BRACKET] + rest;
    if CLOSE_BRACKET in target {
      StopsEarly(target, CLOSE_BRACKET, [CLOSE_BRACKET] + rest);
      assert target + [CLOSE_BRACKET] + rest == target + ([CLOSE_BRACKET] + rest);
    } else {
      ReadsUntil(target, CLOSE_BRACKET, rest);
    }
  }

  /** What the splice needs of an inserted text: it meets no line end or mark of its surroundings. */
  ghost predicate StandsAlone(reference: Text) {
    reference != [] && reference[0] != LF && reference[0] != BOM && reference[|reference| - 1] != CR
  }

  // ---------- the splice and its view ----------

  ghost predicate Corresponds(s: Text, edit: Edit<Unit>, shown: Edit<Unit>) {
    && CleanCut(s, edit.start) && CleanCut(s, edit.end) && StandsAlone(edit.text)
    && shown == Edit(EditorOffset(s, edit.start), EditorOffset(s, edit.end), Unified(edit.text))
  }

  /** `edits` replaces, in the stored text, exactly the editor ranges that `shown` replaces. */
  ghost predicate Maps(s: Text, edits: seq<Edit<Unit>>, shown: seq<Edit<Unit>>)
    decreases |edits|
  {
    && |edits| == |shown|
    && (edits != [] ==> Corresponds(s, edits[0], shown[0]) && Maps(s, edits[1..], shown[1..]))
  }

  lemma {:induction false} MapsOneMore(s: Text, edits: seq<Edit<Unit>>, shown: seq<Edit<Unit>>, e: Edit<Unit>, x: Edit<Unit>)
    requires Maps(s, edits, shown) && Corresponds(s, e, x)
    ensures Maps(s, edits + [e], shown + [x])
    decreases |edits|
  {
    if edits != [] {
      assert (edits + [e])[1..] == edits[1..] + [e] && (shown + [x])[1..] == shown[1..] + [x];
      MapsOneMore(s, edits[1..], shown[1..], e, x);
    }
  }

  /** The view of gap + reference + rest is the view of each, because the reference stands alone. */
  lemma {:induction false} UnifiedAround(gap: Text, reference: Text, rest: Text)
    requires StandsAlone(reference)
    ensures Unified(gap + reference + rest) == Unified(gap) + Unified(reference) + Unified(rest)
  {
    UnifiedConcat(gap, reference);
    UnifiedConcat(gap + reference, rest);
  }

  lemma {:induction false} SpliceThenUnify(s: Text, k: nat, edits: seq<Edit<Unit>>, shown: seq<Edit<Unit>>)
    requires CleanCut(s, k) && Ordered(edits, k, |s|) && Maps(s, edits, shown)
    ensures Ordered(shown, EditorOffset(s, k), |EditorView(s)|)
    ensures Unified(Splice(s, k, edits)) == Splice(EditorView(s), EditorOffset(s, k), shown)
    decreases |edits|
  {
    CutInView(s, k);
    if edits != [] {
      var e := edits[0];
      CutsInView(s, k, e.start);
      CutsInView(s, e.start, e.end);
      SpliceThenUnify(s, e.end, edits[1..], shown[1..]);
      UnifiedAround(s[k..e.start], e.text, Splice(s, e.end, edits[1..]));
    }
  }

  /** The result keeps the mark of the source and gains none. */
  lemma {:induction false} SpliceKeepsMark(s: Text, edits: seq<Edit<Unit>>, shown: seq<Edit<Unit>>)
    requires Ordered(edits, 0, |s|) && Maps(s, edits, shown)
    ensures Ordered(edits, BomLength(s), |s|)
    ensures BomLength(Splice(s, 0, edits)) == BomLength(s)
    ensures Splice(s, 0, edits)[BomLength(s)..] == Splice(s, BomLength(s), edits)
  {
    SpliceFromLater(s, 0, BomLength(s), edits);
    if edits != [] && BomLength(s) == 0 {
      var rest := Splice(s, edits[0].end, edits[1..]);
      assert Splice(s, 0, edits) == s[0..edits[0].start] + edits[0].text + rest;
      assert Splice(s, 0, edits)[0] == if edits[0].start == 0 then edits[0].text[0] else s[0];
    }
  }

  /**
   * Splicing the stored text at the mapped offsets and then viewing it gives the same text as
   * splicing the editor view directly.
   */
  lemma {:induction false} SpliceCommutesWithView(s: Text, edits: seq<Edit<Unit>>, shown: seq<Edit<Unit>>)
    requires Ordered(edits, 0, |s|) && Maps(s, edits, shown)
    ensures Ordered(shown, 0, |EditorView(s)|)
    ensures EditorView(Splice(s, 0, edits)) == Splice(EditorView(s), 0, shown)
  {
    SpliceKeepsMark(s, edits, shown);
    assert s[BomLength(s)..BomLength(s)] == [];
    SpliceThenUnify(s, BomLength(s), edits, shown);
  }

  // ---------- the batch plan ----------

  datatype Item = Item(selectionStart: int, selectionEnd: int, target: Text, fileLabel: Text)

  datatype Preview = Preview(reference: Text, selectionStart: int, selectionEnd: int, selectionAfter: int)

  datatype Reason = BatchEmpty | BatchTooLarge | SelectionOrder | InvalidSelection

  datatype BatchPlan =
    | Refused(reason: Reason)
    | Planned(nextSourceContent: Text, previews: seq<Preview>)

  const MAX_BATCH_ITEMS := 32

  function Reference(style: LinkStyle, item: Item): Text {
    AttachmentReference(style, item.target, item.fileLabel)
  }

  /** The selections lie in the shown text from `from` on, ordered and not overlapping. */
  ghost predicate ValidSelections(items: seq<Item>, from: int, length: nat)
    decreases |items|
  {
    items != [] ==>
      && from <= items[0].selectionStart <= items[0].selectionEnd <= length
      && ValidSelections(items[1..], items[0].selectionEnd, length)
  }

  ghost function AsOffset(x: int): nat {
    if x < 0 then 0 else x
  }

  /** The replacements as the editor sees them. */
  ghost function ShownEdits(style: LinkStyle, items: seq<Item>): (edits: seq<Edit<Unit>>) {
    if items == [] then []
    else [Edit(AsOffset(items[0].selectionStart), AsOffset(items[0].selectionEnd), Unified(Reference(style, items[0])))]
         + ShownEdits(style, items[1..])
  }

  /** How far the note has moved after `item` when earlier items have moved it by `delta`. */
  function NextDelta(style: LinkStyle, item: Item, delta: int): int {
    delta + |Reference(style, item)| - (item.selectionEnd - item.selectionStart)
  }

  function PreviewFor(style: LinkStyle, item: Item, delta: int): Preview {
    Preview(Reference(style, item), item.selectionStart, item.selectionEnd,
            item.selectionStart + NextDelta(style, item, delta))
  }

  ghost function Previews(style: LinkStyle, items: seq<Item>, delta: int): seq<Preview>
    decreases |items|
  {
    if items == [] then []
    else [PreviewFor(style, items[0], delta)] + Previews(style, items[1..], NextDelta(style, items[0], delta))
  }

  /** The previews made so far, followed by those of `rest`, are the previews of all items. */
  ghost predicate Previewed(style: LinkStyle, items: seq<Item>, rest: seq<Item>, made: seq<Preview>, delta: int) {
    Previews(style, items, 0) == made + Previews(style, rest, delta)
  }

  lemma {:induction false} PreviewedNext(style: LinkStyle, items: seq<Item>, rest: seq<Item>, made: seq<Preview>, delta: int)
    requires rest != [] && Previewed(style, items, rest, made, delta)
    ensures Previewed(style, items, rest[1..], made + [PreviewFor(style, rest[0], delta)],
                      NextDelta(style, rest[0], delta))
  {
    Associative(made, [PreviewFor(style, rest[0], delta)], Previews(style, rest[1..], NextDelta(style, rest[0], delta)));
  }

  /** The batch loop when `rest` is still to be done: what is planned, and where the cursors stand. */
  ghost predicate Reached(s: Text, style: LinkStyle, items: seq<Item>, rest: seq<Item>, edits: seq<Edit<Unit>>,
                          shown: seq<Edit<Unit>>, parts: Text, externalCursor: nat, previousSelectionEnd: nat) {
    && (ValidSelections(items, 0, |EditorView(s)|) <==> ValidSelections(rest, previousSelectionEnd, |EditorView(s)|))
    && ShownEdits(style, items) == shown + ShownEdits(style, rest)
    && Ordered(edits, 0, |s|) && Maps(s, edits, shown)
    && parts == Done(s, 0, edits)
    && externalCursor == EndOf(0, edits) <= |s|
    && (if edits == [] then previousSelectionEnd == 0
        else CleanCut(s, externalCursor) && previousSelectionEnd == EditorOffset(s, externalCursor))
  }

  lemma {:induction false} ReachedStart(s: Text, style: LinkStyle, items: seq<Item>)
    ensures items[0..] == items && Reached(s, style, items, items, [], [], [], 0, 0)
    ensures Previewed(style, items, items, [], 0)
  {
  }

  lemma {:induction false} ReachedNext(s: Text, style: LinkStyle, items: seq<Item>, rest: seq<Item>, edits: seq<Edit<Unit>>,
                           shown: seq<Edit<Unit>>, parts: Text, cursor: nat, previousSelectionEnd: nat, e: Edit<Unit>, x: Edit<Unit>)
    requires rest != [] && Reached(s, style, items, rest, edits, shown, parts, cursor, previousSelectionEnd)
    requires previousSelectionEnd <= rest[0].selectionStart <= rest[0].selectionEnd <= |EditorView(s)|
    requires Corresponds(s, e, x) && e.text == Reference(style, rest[0])
    requires x.start == rest[0].selectionStart && x.end == rest[0].selectionEnd
    ensures cursor <= e.start <= e.end <= |s|
    ensures Reached(s, style, items, rest[1..], edits + [e], shown + [x], parts + s[cursor..e.start] + e.text,
                    e.end, x.end)
  {
    if e.end < e.start {
      CutsAreOrdered(s, e.end, e.start);
    }
    if edits != [] && e.start < cursor {
      CutsAreOrdered(s, e.start, cursor);
    }
    MapsOneMore(s, edits, shown, e, x);
    DoneOneMore(s, 0, edits, e);
    assert ShownEdits(style, rest) == [x] + ShownEdits(style, rest[1..]);
    Associative(shown, [x], ShownEdits(style, rest[1..]));
  }

  lemma {:induction false} NextRefused(s: Text, style: LinkStyle, items: seq<Item>, rest: seq<Item>, edits: seq<Edit<Unit>>,
                           shown: seq<Edit<Unit>>, parts: Text, cursor: nat, previousSelectionEnd: nat)
    requires rest != [] && Reached(s, style, items, rest, edits, shown, parts, cursor, previousSelectionEnd)
    requires !(previousSelectionEnd <= rest[0].selectionStart <= rest[0].selectionEnd <= |EditorView(s)|)
    ensures !ValidSelections(items, 0, |EditorView(s)|)
  {
  }

  lemma {:induction false} ReachedEnd(s: Text, style: LinkStyle, items: seq<Item>, edits: seq<Edit<Unit>>,
                          shown: seq<Edit<Unit>>, parts: Text, cursor: nat, previousSelectionEnd: nat, previews: seq<Preview>, delta: int)
    requires Previewed(style, items, [], previews, delta)
    requires Reached(s, style, items, [], edits, shown, parts, cursor, previousSelectionEnd)
    ensures ValidSelections(items, 0, |EditorView(s)|)
    ensures Ordered(edits, 0, |s|) && Maps(s, edits, ShownEdits(style, items))
    ensures cursor <= |s| && parts + s[cursor..] == Splice(s, 0, edits)
    ensures previews == Previews(style, items, 0)
  {
    assert edits + [] == edits && shown + [] == shown;
    SpliceSplits(s, 0, edits, []);
  }

  /** Maps one selection, or answers why it is refused. */
  method MapSelection(source: Text, item: Item, previousSelectionEnd: nat)
      returns (r: Option<(nat, nat)>, reason: Reason)
    ensures r.Some? <==>
      previousSelectionEnd <= item.selectionStart <= item.selectionEnd <= |EditorView(source)|
    ensures r.Some? ==>
      && CleanCut(source, r.value.0) && EditorOffset(source, r.value.0) == item.selectionStart
      && CleanCut(source, r.value.1) && EditorOffset(source, r.value.1) == item.selectionEnd
    ensures reason == if item.selectionStart < previousSelectionEnd then SelectionOrder else InvalidSelection
  {
    reason := if item.selectionStart < previousSelectionEnd then SelectionOrder else InvalidSelection;
    var selectionStart := ExternalOffsetAtEditorOffset(source, item.selectionStart);
    var selectionEnd := ExternalOffsetAtEditorOffset(source, item.selectionEnd);
    if selectionStart.None? || selectionEnd.None? || item.selectionStart > item.selectionEnd
       || item.selectionStart < previousSelectionEnd
    {
      r := None;
    } else {
      r := Some((selectionStart.value, selectionEnd.value));
    }
  }

  /**
   * Plans the batch: accepted exactly when the selections are valid in the editor, and then the
   * planned note, seen in the editor, is the shown note with every selection replaced.
   */
  method PlanBatch(source: Text, style: LinkStyle, items: seq<Item>)
      returns (plan: BatchPlan, ghost edits: seq<Edit<Unit>>)
    ensures plan.Planned? <==>
      0 < |items| <= MAX_BATCH_ITEMS && ValidSelections(items, 0, |EditorView(source)|)
    ensures plan.Planned? ==>
      && Ordered(edits, 0, |source|) && Maps(source, edits, ShownEdits(style, items))
      && plan.nextSourceContent == Splice(source, 0, edits)
      && plan.previews == Previews(style, items, 0)
    ensures plan.Planned? ==>
      && Ordered(ShownEdits(style, items), 0, |EditorView(source)|)
      && EditorView(plan.nextSourceContent) == Splice(EditorView(source), 0, ShownEdits(style, items))
  {
    hide Ordered, Maps, Done, Splice, EditorView, ShownEdits, AttachmentReference, CleanCut, EditorOffset, Reached, Previews, Previewed;
    edits := [];
    if |items| == 0 {
      return Refused(BatchEmpty), edits;
    }
    if |items| > MAX_BATCH_ITEMS {
      return Refused(BatchTooLarge), edits;
    }
    var parts: Text := [];
    var previews: seq<Preview> := [];
    ghost var shown: seq<Edit<Unit>> := [];
    var externalCursor: nat, previousSelectionEnd: nat := 0, 0;
    var cumulativeDelta := 0;
    ReachedStart(source, style, items);
    for n := 0 to |items|
      invariant Reached(source, style, items, items[n..], edits, shown, parts, externalCursor, previousSelectionEnd)
      invariant Previewed(style, items, items[n..], previews, cumulativeDelta)
    {
      var item := items[n];
      ghost var rest := items[n..];
      assert rest[0] == item && rest[1..] == items[n + 1..];
      var mapped, reason := MapSelection(source, item, previousSelectionEnd);
      if mapped.None? {
        NextRefused(source, style, items, rest, edits, shown, parts, externalCursor, previousSelectionEnd);
        return Refused(reason), edits;
      }
      var (selectionStart, selectionEnd) := mapped.value;
      var reference := Reference(style, item);
      ghost var e := Edit(selectionStart, selectionEnd, reference);
      ghost var x := Edit(item.selectionStart as nat, item.selectionEnd as nat, Unified(reference));
      ReachedNext(source, style, items, rest, edits, shown, parts, externalCursor, previousSelectionEnd, e, x);
      // The remaining two tests of the source can no longer fail.
      if selectionStart < externalCursor || selectionStart > selectionEnd {
        assert false;
      }
      parts := parts + source[externalCursor..selectionStart] + reference;
      edits, shown := edits + [e], shown + [x];
      externalCursor := selectionEnd;
      previousSelectionEnd := item.selectionEnd;
      PreviewedNext(style, items, rest, previews, cumulativeDelta);
      cumulativeDelta := cumulativeDelta + |reference| - (item.selectionEnd - item.selectionStart);
      previews := previews
        + [Preview(reference, item.selectionStart, item.selectionEnd, item.selectionStart + cumulativeDelta)];
    }
    assert items[|items|..] == [];
    ReachedEnd(source, style, items, edits, shown, parts, externalCursor, previousSelectionEnd, previews, cumulativeDelta);
    SpliceCommutesWithView(source, edits, ShownEdits(style, items));
    plan := Planned(parts + source[externalCursor..], previews);
  }

  lemma {:induction false} InsertedView(s: Text, start: nat, end: nat, reference: Text)
    requires CleanCut(s, start) && CleanCut(s, end) && StandsAlone(reference)
    requires EditorOffset(s, start) <= EditorOffset(s, end)
    ensures start <= end && EditorOffset(s, end) <= |EditorView(s)|
    ensures EditorView(s[..start] + reference + s[end..])
         == EditorView(s)[..EditorOffset(s, start)] + Unified(reference) + EditorView(s)[EditorOffset(s, end)..]
  {
    if end < start {
      CutsAreOrdered(s, end, start);
    }
    CutInView(s, end);
    var edits := [Edit(start, end, reference)];
    var shown := [Edit(EditorOffset(s, start), EditorOffset(s, end), Unified(reference))];
    SpliceCommutesWithView(s, edits, shown);
    assert Splice(s, 0, edits) == s[0..start] + reference + Splice(s, end, []);
    assert Splice(EditorView(s), 0, shown)
        == EditorView(s)[0..EditorOffset(s, start)] + Unified(reference) + Splice(EditorView(s), EditorOffset(s, end), []);
  }

  /** The single insertion, whose caret is always the end of the reference. */
  method PlanInsert(source: Text, style: LinkStyle, item: Item) returns (plan: BatchPlan)
    ensures plan.Planned? <==> 0 <= item.selectionStart <= item.selectionEnd <= |EditorView(source)|
    ensures plan.Planned? ==>
      && plan.previews == [Preview(Reference(style, item), item.selectionStart, item.selectionEnd,
                                   item.selectionStart + |Reference(style, item)|)]
      && EditorView(plan.nextSourceContent)
         == EditorView(source)[..item.selectionStart] + Unified(Reference(style, item))
            + EditorView(source)[item.selectionEnd..]
  {
    var mapped, _ := MapSelection(source, item, 0);
    if mapped.None? {
      return Refused(InvalidSelection);
    }
    var (selectionStart, selectionEnd) := mapped.value;
    var reference := Reference(style, item);
    InsertedView(source, selectionStart, selectionEnd, reference);
    plan := Planned(source[..selectionStart] + reference + source[selectionEnd..],
                    [Preview(reference, item.selectionStart, item.selectionEnd,
                             item.selectionStart + |reference|)]);
  }

  // ---------- where the caret goes ----------

  lemma {:induction false} UnifiedWithoutCr(s: Text)
    requires CR !in s
    ensures Unified(s) == s
    decreases |s|
  {
    if s != [] {
      UnifiedWithoutCr(s[1..]);
    }
  }

  ghost predicate OneLineEndStyle(style: LinkStyle, items: seq<Item>) {
    forall i :: 0 <= i < |items| ==> CR !in Reference(style, items[i])
  }

  lemma {:induction false} PlanLengths(style: LinkStyle, items: seq<Item>, delta: int)
    ensures |Previews(style, items, delta)| == |ShownEdits(style, items)| == |items|
    decreases |items|
  {
    if items != [] {
      PlanLengths(style, items[1..], NextDelta(style, items[0], delta));
    }
  }

  lemma {:induction false} ShownAt(style: LinkStyle, items: seq<Item>, from: nat, length: nat, i: nat)
    requires ValidSelections(items, from, length) && OneLineEndStyle(style, items)
    requires i < |items| == |ShownEdits(style, items)|
    ensures 0 <= items[i].selectionStart <= items[i].selectionEnd
    ensures ShownEdits(style, items)[i]
         == Edit(items[i].selectionStart, items[i].selectionEnd, Reference(style, items[i]))
    decreases |items|
  {
    UnifiedWithoutCr(Reference(style, items[0]));
    hide Reference, Unified;
    if i > 0 {
      ShownAt(style, items[1..], items[0].selectionEnd, length, i - 1);
    }
  }

  lemma {:induction false} PreviewAt(style: LinkStyle, items: seq<Item>, from: nat, length: nat, delta: int, i: nat)
    requires ValidSelections(items, from, length) && OneLineEndStyle(style, items)
    requires i < |items| == |ShownEdits(style, items)| == |Previews(style, items, delta)|
    ensures Previews(style, items, delta)[i]
         == PreviewFor(style, items[i], delta + Growth(ShownEdits(style, items)[..i]))
    decreases |items|
  {
    if i > 0 {
      GrowthNext(style, items, i);
      PlanLengths(style, items[1..], NextDelta(style, items[0], delta));
      hide PreviewFor, Growth, ShownEdits;
      PreviewAt(style, items[1..], items[0].selectionEnd, length, NextDelta(style, items[0], delta), i - 1);
    }
  }

  lemma {:induction false} GrowthNext(style: LinkStyle, items: seq<Item>, i: nat)
    requires 0 < i <= |items| == |ShownEdits(style, items)| && CR !in Reference(style, items[0])
    requires 0 <= items[0].selectionStart && 0 <= items[0].selectionEnd
    ensures |ShownEdits(style, items[1..])| == |items| - 1
    ensures Growth(ShownEdits(style, items)[..i])
         == NextDelta(style, items[0], 0) + Growth(ShownEdits(style, items[1..])[..i - 1])
  {
    UnifiedWithoutCr(Reference(style, items[0]));
    assert ShownEdits(style, items)[..i][1..] == ShownEdits(style, items[1..])[..i - 1];
  }

  /**
   * In the planned note, seen in the editor, the i-th reference starts at its selection moved by
   * the items before it. The caret reported for it stands at its end exactly when the selection
   * was empty; otherwise it falls short by the length of the selection.
   */
  lemma {:induction false} CaretAtEndOfReference(style: LinkStyle, shownNote: Text, items: seq<Item>, i: nat)
    requires ValidSelections(items, 0, |shownNote|) && Ordered(ShownEdits(style, items), 0, |shownNote|)
    requires OneLineEndStyle(style, items) && i < |items|
    ensures |Previews(style, items, 0)| == |ShownEdits(style, items)| == |items|
    ensures var p := Previews(style, items, 0)[i];
            var at := items[i].selectionStart + Growth(ShownEdits(style, items)[..i]);
            var next := Splice(shownNote, 0, ShownEdits(style, items));
            && 0 <= at <= at + |p.reference| <= |next|
            && next[at..at + |p.reference|] == p.reference == Reference(style, items[i])
            && p.selectionAfter == at + |p.reference| - (items[i].selectionEnd - items[i].selectionStart)
            && (p.selectionAfter == at + |p.reference| <==> items[i].selectionStart == items[i].selectionEnd)
  {
    hide AttachmentReference, Ordered, Splice, ShownEdits, Previews, Growth, ValidSelections;
    PlanLengths(style, items, 0);
    ShownAt(style, items, 0, |shownNote|, i);
    PreviewAt(style, items, 0, |shownNote|, 0, i);
    SpliceHasText(shownNote, ShownEdits(style, items), i);
  }
}
