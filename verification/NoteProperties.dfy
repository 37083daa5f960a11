/** Setting and removing one frontmatter property without touching the rest (src/application/note-properties.ts). */
module NoteProperties {
  import opened Options
  import opened Sequences
  import opened JsText
  import opened Frontmatter
  import Decimals
  import opened Quoting

  // ---------- what a line is ----------

  predicate IsNameChar(c: char) {
    IsLetter(c) || IsDigit(c) || c == '_' || c == '-'
  }

  predicate IsName(name: string) {
    name != "" && forall c :: c in name ==> IsNameChar(c)
  }

  predicate OneLine(s: string) {
    forall c :: c in s ==> !IsTerminator(c)
  }

  function NameLength(text: string): (n: nat)
    ensures n <= |text|
  {
    if text != "" && IsNameChar(text[0]) then 1 + NameLength(text[1..]) else 0
  }

  /** Blank lines and comments. */
  predicate IsGap(text: string) {
    Trim(text) == "" || StartsWith(TrimStart(text), "#")
  }

  datatype Property = Property(name: string, inlineValue: string)

  function ParseProperty(text: string): Option<Property> {
    var n := NameLength(text);
    if n == 0 || n == |text| || text[n] != ':' || !OneLine(text[n + 1..]) then None
    else Some(Property(text[..n], Trim(text[n + 1..])))
  }

  predicate IsContinuation(text: string) {
    text != "" && IsBlank(text[0])
  }

  predicate IsListItem(text: string) {
    var rest := AfterBlanks(text);
    IsContinuation(text) && |rest| >= 3 && rest[0] == '-' && IsBlank(rest[1]) && OneLine(rest[2..])
  }

  predicate IsBlockScalar(value: string) {
    value != "" && (value[0] == '>' || value[0] == '|')
    && var rest := if |value| > 1 && (value[1] == '+' || value[1] == '-') then value[2..] else value[1..];
       forall c :: c in rest ==> IsDigit(c)
  }

  // ---------- the blocks of a frontmatter ----------

  /** A line between properties, or a property with its continuation lines. */
  datatype Piece = Gap(line: string) | Block(name: string, lines: seq<string>)

  function Continuations(lines: seq<string>): (n: nat)
    ensures n <= |lines|
  {
    if lines != [] && IsContinuation(TextOf(lines[0])) then 1 + Continuations(lines[1..]) else 0
  }

  predicate AllItems(lines: seq<string>) {
    forall line :: line in lines ==> IsListItem(TextOf(line))
  }

  /** Cuts the lines into pieces; None where the original refuses to edit the frontmatter. */
  function Scan(lines: seq<string>, seen: set<string>): Option<seq<Piece>>
    decreases |lines|
  {
    if lines == [] then Some([])
    else if IsGap(TextOf(lines[0])) then
      var rest := Scan(lines[1..], seen);
      if rest.None? then None else Some([Gap(lines[0])] + rest.value)
    else
      var property := ParseProperty(TextOf(lines[0]));
      var n := Continuations(lines[1..]);
      if property.None? || property.value.name in seen then None
      else if n > 0 && (property.value.inlineValue != "" || !AllItems(lines[1..n + 1])) then None
      else if IsBlockScalar(property.value.inlineValue) then None
      else
        var rest := Scan(lines[n + 1..], seen + {property.value.name});
        if rest.None? then None else Some([Block(property.value.name, lines[..n + 1])] + rest.value)
  }

  function LinesOf(piece: Piece): seq<string> {
    if piece.Gap? then [piece.line] else piece.lines
  }

  function Flat(pieces: seq<Piece>): seq<string> {
    if pieces == [] then [] else LinesOf(pieces[0]) + Flat(pieces[1..])
  }

  ghost predicate BlockOk(name: string, lines: seq<string>) {
    && lines != [] && !IsGap(TextOf(lines[0])) && !IsContinuation(TextOf(lines[0]))
    && ParseProperty(TextOf(lines[0])).Some? && ParseProperty(TextOf(lines[0])).value.name == name
    && !IsBlockScalar(ParseProperty(TextOf(lines[0])).value.inlineValue)
    && (|lines| > 1 ==> ParseProperty(TextOf(lines[0])).value.inlineValue == "" && AllItems(lines[1..]))
  }

  /** What follows a block does not continue it. */
  ghost predicate StartsFlush(pieces: seq<Piece>) {
    pieces == [] || pieces[0].Block? || !IsContinuation(TextOf(pieces[0].line))
  }

  ghost predicate PiecesOk(pieces: seq<Piece>, seen: set<string>) {
    pieces == [] ||
    match pieces[0]
    case Gap(line) => IsGap(TextOf(line)) && PiecesOk(pieces[1..], seen)
    case Block(name, lines) =>
      BlockOk(name, lines) && name !in seen && StartsFlush(pieces[1..]) && PiecesOk(pieces[1..], seen + {name})
  }

  lemma {:induction false} PropertyIsFlush(text: string)
    requires ParseProperty(text).Some?
    ensures !IsContinuation(text)
  {
  }

  lemma ContinuationsEnd(lines: seq<string>)
    ensures var n := Continuations(lines);
            && (forall i :: 0 <= i < n ==> IsContinuation(TextOf(lines[i])))
            && (n < |lines| ==> !IsContinuation(TextOf(lines[n])))
  {
    hide IsContinuation, TextOf;
  }

  lemma {:induction false} ScanSound(lines: seq<string>, seen: set<string>)
    requires Scan(lines, seen).Some?
    ensures Flat(Scan(lines, seen).value) == lines && PiecesOk(Scan(lines, seen).value, seen)
    ensures lines == [] || (Scan(lines, seen).value != [] && LinesOf(Scan(lines, seen).value[0]) != [] && LinesOf(Scan(lines, seen).value[0])[0] == lines[0])
    decreases |lines|
  {
    hide TextOf, IsGap, IsContinuation, ParseProperty, IsBlockScalar, AllItems;
    if lines != [] {
      if IsGap(TextOf(lines[0])) {
        ScanSound(lines[1..], seen);
        FlatCons(Gap(lines[0]), Scan(lines[1..], seen).value);
        HeadTail(lines);
      } else {
        BlockSound(lines, seen);
      }
    }
  }

  lemma FlatCons(piece: Piece, pieces: seq<Piece>)
    ensures ([piece] + pieces)[1..] == pieces && Flat([piece] + pieces) == LinesOf(piece) + Flat(pieces)
  {
  }

  lemma {:induction false} BlockSound(lines: seq<string>, seen: set<string>)
    requires lines != [] && !IsGap(TextOf(lines[0])) && Scan(lines, seen).Some?
    ensures Flat(Scan(lines, seen).value) == lines && PiecesOk(Scan(lines, seen).value, seen)
    ensures Scan(lines, seen).value != [] && LinesOf(Scan(lines, seen).value[0]) != [] && LinesOf(Scan(lines, seen).value[0])[0] == lines[0]
    decreases |lines|, 0
  {
    hide TextOf, IsGap, IsContinuation, ParseProperty, IsBlockScalar, AllItems, Flat, PiecesOk, Continuations;
    var property := ParseProperty(TextOf(lines[0])).value;
    var n := Continuations(lines[1..]);
    var rest := lines[n + 1..];
    var seen' := seen + {property.name};
    assert Scan(rest, seen').Some?;
    ScanSound(rest, seen');
    ContinuationsEnd(lines[1..]);
    PropertyIsFlush(TextOf(lines[0]));
    var pieces := Scan(rest, seen').value;
    var block := Block(property.name, lines[..n + 1]);
    FlatCons(block, pieces);
    assert lines[..n + 1] + rest == lines;
    assert lines[..n + 1][1..] == lines[1..n + 1];
    BlockFollowed(block, pieces, rest, seen);
  }

  lemma BlockFollowed(block: Piece, pieces: seq<Piece>, rest: seq<string>, seen: set<string>)
    requires block.Block? && BlockOk(block.name, block.lines) && block.name !in seen && PiecesOk(pieces, seen + {block.name})
    requires rest == [] ==> pieces == []
    requires rest != [] ==> pieces != [] && LinesOf(pieces[0]) != [] && LinesOf(pieces[0])[0] == rest[0] && !IsContinuation(TextOf(rest[0]))
    ensures PiecesOk([block] + pieces, seen)
  {
    assert ([block] + pieces)[1..] == pieces;
    hide BlockOk, IsContinuation, TextOf;
  }

  lemma {:induction false} AllContinue(lines: seq<string>, rest: seq<string>)
    requires AllItems(lines) && (rest == [] || !IsContinuation(TextOf(rest[0])))
    ensures Continuations(lines + rest) == |lines|
    decreases |lines|
  {
    hide TextOf, AfterBlanks;
    if lines == [] {
      assert lines + rest == rest;
    } else {
      assert lines[0] in lines && (lines + rest)[1..] == lines[1..] + rest;
      AllContinue(lines[1..], rest);
    }
  }

  lemma {:induction false} FlatStarts(pieces: seq<Piece>, seen: set<string>)
    requires PiecesOk(pieces, seen) && StartsFlush(pieces)
    ensures Flat(pieces) == [] || !IsContinuation(TextOf(Flat(pieces)[0]))
  {
    hide TextOf, IsContinuation, IsGap;
  }

  /** Scanning finds the pieces again that a list of lines was put together from. */
  lemma {:induction false} ScanComplete(pieces: seq<Piece>, seen: set<string>)
    requires PiecesOk(pieces, seen)
    ensures Scan(Flat(pieces), seen) == Some(pieces)
    decreases |pieces|
  {
    if pieces != [] {
      HeadTail(pieces);
      if pieces[0].Gap? {
        ScanComplete(pieces[1..], seen);
        hide IsGap, TextOf;
        DropHead([pieces[0].line], Flat(pieces[1..]));
      } else {
        BlockComplete(pieces, seen);
      }
    }
  }

  lemma {:induction false} BlockComplete(pieces: seq<Piece>, seen: set<string>)
    requires PiecesOk(pieces, seen) && pieces != [] && pieces[0].Block?
    ensures Scan(Flat(pieces), seen) == Some(pieces)
    decreases |pieces|, 0
  {
    var name, lines := pieces[0].name, pieces[0].lines;
    var rest := Flat(pieces[1..]);
    ScanComplete(pieces[1..], seen + {name});
    FlatStarts(pieces[1..], seen + {name});
    FlatCons(pieces[0], pieces[1..]);
    HeadTail(pieces);
    hide PiecesOk, IsContinuation, TextOf, Flat, StartsFlush, Scan, BlockOk;
    ScanAfterBlock(name, lines, rest, seen);
  }

  lemma NoneContinue(rest: seq<string>)
    requires rest == [] || !IsContinuation(TextOf(rest[0]))
    ensures Continuations(rest) == 0
  {
    hide IsContinuation, TextOf;
  }

  lemma BlockCut(lines: seq<string>, rest: seq<string>)
    requires lines != []
    ensures (lines + rest)[0] == lines[0] && (lines + rest)[1..] == lines[1..] + rest
    ensures (lines + rest)[..|lines|] == lines && (lines + rest)[|lines|..] == rest
    ensures (lines + rest)[1..|lines|] == lines[1..]
  {
  }

  // ---------- putting and dropping one block ----------

  predicate IsBlockOf(piece: Piece, name: string) {
    piece.Block? && piece.name == name
  }

  predicate Has(pieces: seq<Piece>, name: string) {
    exists piece :: piece in pieces && IsBlockOf(piece, name)
  }

  /** Replaces the block of a property, or adds one at the end. */
  function Put(pieces: seq<Piece>, name: string, lines: seq<string>): seq<Piece> {
    if pieces == [] then [Block(name, lines)]
    else if IsBlockOf(pieces[0], name) then [Block(name, lines)] + pieces[1..]
    else [pieces[0]] + Put(pieces[1..], name, lines)
  }

  function Drop(pieces: seq<Piece>, name: string): seq<Piece> {
    if pieces == [] then []
    else if IsBlockOf(pieces[0], name) then pieces[1..]
    else [pieces[0]] + Drop(pieces[1..], name)
  }

  lemma {:induction false} PutOk(pieces: seq<Piece>, name: string, lines: seq<string>, seen: set<string>)
    requires PiecesOk(pieces, seen) && BlockOk(name, lines) && name !in seen
    ensures PiecesOk(Put(pieces, name, lines), seen)
    ensures StartsFlush(pieces) ==> StartsFlush(Put(pieces, name, lines))
    decreases |pieces|
  {
    hide BlockOk, IsGap, IsContinuation, TextOf;
    if pieces != [] {
      HeadTail(pieces);
      ConsRest(Block(name, lines), pieces[1..]);
      ConsRest(pieces[0], Put(pieces[1..], name, lines));
      if !IsBlockOf(pieces[0], name) {
        PutOk(pieces[1..], name, lines, if pieces[0].Block? then seen + {pieces[0].name} else seen);
      }
    }
  }

  lemma ConsRest<T>(x: T, rest: seq<T>)
    ensures ([x] + rest)[1..] == rest && ([x] + rest)[0] == x
  {
  }

  /** A name that was seen before is none of the blocks. */
  lemma {:induction false} SeenIsAbsent(pieces: seq<Piece>, seen: set<string>, name: string)
    requires PiecesOk(pieces, seen) && name in seen
    ensures !Has(pieces, name)
    decreases |pieces|
  {
    hide BlockOk, IsGap, StartsFlush;
    if pieces != [] {
      SeenIsAbsent(pieces[1..], if pieces[0].Block? then seen + {pieces[0].name} else seen, name);
      HeadTail(pieces);
    }
  }

  lemma {:induction false} AbsentIsKept(pieces: seq<Piece>, name: string)
    requires !Has(pieces, name)
    ensures Drop(pieces, name) == pieces
    ensures forall lines :: Put(pieces, name, lines) == pieces + [Block(name, lines)]
    decreases |pieces|
  {
    if pieces != [] {
      HeadTail(pieces);
      assert pieces[0] in pieces;
      assert forall x :: x in pieces[1..] ==> x in pieces;
      AbsentIsKept(pieces[1..], name);
      forall lines ensures Put(pieces, name, lines) == pieces + [Block(name, lines)] {
        Associative([pieces[0]], pieces[1..], [Block(name, lines)]);
      }
    }
  }

  /** Setting a property changes its own block and nothing else: what is left without it is the same. */
  lemma {:induction false} PutKeepsOthers(pieces: seq<Piece>, name: string, lines: seq<string>, seen: set<string>)
    requires PiecesOk(pieces, seen)
    ensures Drop(Put(pieces, name, lines), name) == Drop(pieces, name)
    ensures !Has(Drop(pieces, name), name)
    ensures Block(name, lines) in Put(pieces, name, lines)
    decreases |pieces|
  {
    hide BlockOk, IsGap, StartsFlush;
    ConsRest(Block(name, lines), if pieces == [] then [] else pieces[1..]);
    if pieces != [] {
      HeadTail(pieces);
      ConsRest(pieces[0], Put(pieces[1..], name, lines));
      var seen' := if pieces[0].Block? then seen + {pieces[0].name} else seen;
      if IsBlockOf(pieces[0], name) {
        SeenIsAbsent(pieces[1..], seen', name);
      } else {
        PutKeepsOthers(pieces[1..], name, lines, seen');
      }
    }
  }

  lemma {:induction false} PutTwice(pieces: seq<Piece>, name: string, first: seq<string>, second: seq<string>)
    ensures Put(Put(pieces, name, first), name, second) == Put(pieces, name, second)
    decreases |pieces|
  {
    ConsRest(Block(name, first), if pieces == [] then [] else pieces[1..]);
    if pieces != [] && !IsBlockOf(pieces[0], name) {
      ConsRest(pieces[0], Put(pieces[1..], name, first));
      PutTwice(pieces[1..], name, first, second);
    }
  }

  lemma {:induction false} PutsCommute(pieces: seq<Piece>, a: string, x: seq<string>, b: string, y: seq<string>)
    requires a != b && Has(pieces, a) && Has(pieces, b)
    ensures Put(Put(pieces, a, x), b, y) == Put(Put(pieces, b, y), a, x)
    decreases |pieces|
  {
    var head, rest := pieces[0], pieces[1..];
    HeadTail(pieces);
    if IsBlockOf(head, a) {
      ConsRest(Block(a, x), rest);
      ConsRest(head, Put(rest, b, y));
    } else if IsBlockOf(head, b) {
      ConsRest(Block(b, y), rest);
      ConsRest(head, Put(rest, a, x));
    } else {
      ConsRest(head, Put(rest, a, x));
      ConsRest(head, Put(rest, b, y));
      PutsCommute(rest, a, x, b, y);
    }
  }

  lemma {:induction false} DropOk(pieces: seq<Piece>, name: string, seen: set<string>)
    requires PiecesOk(pieces, seen)
    ensures PiecesOk(Drop(pieces, name), seen)
    ensures StartsFlush(pieces) ==> StartsFlush(Drop(pieces, name))
    decreases |pieces|
  {
    hide BlockOk, IsGap, IsContinuation, TextOf;
    if pieces != [] {
      HeadTail(pieces);
      ConsRest(pieces[0], Drop(pieces[1..], name));
      if IsBlockOf(pieces[0], name) {
        FewerSeen(pieces[1..], seen + {name}, seen);
      } else {
        DropOk(pieces[1..], name, if pieces[0].Block? then seen + {pieces[0].name} else seen);
      }
    }
  }

  lemma {:induction false} FewerSeen(pieces: seq<Piece>, more: set<string>, fewer: set<string>)
    requires PiecesOk(pieces, more) && fewer <= more
    ensures PiecesOk(pieces, fewer)
    decreases |pieces|
  {
    hide BlockOk, IsGap, StartsFlush;
    if pieces != [] {
      if pieces[0].Block? {
        FewerSeen(pieces[1..], more + {pieces[0].name}, fewer + {pieces[0].name});
      } else {
        FewerSeen(pieces[1..], more, fewer);
      }
    }
  }

  // ---------- printing a value ----------

  datatype PropertyType = Text | List | Number | Checkbox | Date | Datetime

  /** How the host prints a number, None when it is not finite, and reads a JSON list of strings. */
  datatype Host = Host(printNumber: string -> Option<string>, parseJsonList: string -> Option<seq<string>>)

  predicate AllDigits(s: string) {
    s != "" && forall c :: c in s ==> IsDigit(c)
  }

  /** `n` digits without a leading zero, and a fraction if anything follows. */
  predicate IsUnsigned(s: string, n: nat) {
    n <= |s| && AllDigits(s[..n]) && (s[0] == '0' ==> n == 1) && (n == |s| || (s[n] == '.' && AllDigits(s[n + 1..])))
  }

  /** An integer without leading zeros, or a decimal with such an integer before its point. */
  predicate IsNumberLiteral(s: string) {
    var unsigned := if s != "" && s[0] == '-' then s[1..] else s;
    exists n: nat :: n <= |unsigned| && IsUnsigned(unsigned, n)
  }

  predicate IsCalendarDate(s: string) {
    |s| == 10 && s[4] == '-' && s[7] == '-' && AllDigits(s[..4]) && AllDigits(s[5..7]) && AllDigits(s[8..])
    && var year, month, day := Decimals.Value(s[..4]), Decimals.Value(s[5..7]), Decimals.Value(s[8..]);
       var leap := year % 4 == 0 && (year % 100 != 0 || year % 400 == 0);
       var lengths := [31, if leap then 29 else 28, 31, 30, 31, 30, 31, 31, 30, 31, 30, 31];
       1 <= month <= 12 && 1 <= day <= lengths[month - 1]
  }

  predicate IsDateTime(s: string) {
    |s| == 19 && IsCalendarDate(s[..10]) && s[10] == 'T' && s[13] == ':' && s[16] == ':'
    && AllDigits(s[11..13]) && AllDigits(s[14..16]) && AllDigits(s[17..])
    && Decimals.Value(s[11..13]) <= 23 && Decimals.Value(s[14..16]) <= 59 && Decimals.Value(s[17..]) <= 59
  }

  predicate IsSingleLine(s: string) {
    '\r' !in s && '\n' !in s && '\0' !in s
  }

  function SplitCommas(s: string, item: string): seq<string>
    decreases |s|
  {
    if s == "" then [Trim(item)]
    else if s[0] == ',' then [Trim(item)] + SplitCommas(s[1..], "")
    else SplitCommas(s[1..], item + [s[0]])
  }

  function ParseListValue(raw: string, host: Host): Option<seq<string>> {
    if !IsSingleLine(raw) then None
    else if Trim(raw) == "" then Some([])
    else if StartsWith(Trim(raw), "[") then host.parseJsonList(Trim(raw))
    else if "" in SplitCommas(raw, "") then None
    else Some(SplitCommas(raw, ""))
  }

  function ItemLines(items: seq<string>): seq<string> {
    if items == [] then [] else ["  - " + Quote(items[0])] + ItemLines(items[1..])
  }

  /** The lines of a property, without line ends; None where the original throws. */
  function SerializeProperty(name: string, raw: string, kind: PropertyType, host: Host): Option<seq<string>> {
    if !IsName(name) then None
    else
      match kind
      case Text => if IsSingleLine(raw) then Some([name + ": " + Quote(raw)]) else None
      case List =>
        var items := ParseListValue(raw, host);
        if items.None? then None
        else if items.value == [] then Some([name + ": []"])
        else Some([name + ":"] + ItemLines(items.value))
      case Number =>
        var printed := if IsNumberLiteral(Trim(raw)) then host.printNumber(Trim(raw)) else None;
        if printed.None? then None else Some([name + ": " + printed.value])
      case Checkbox =>
        var word := Lower(Trim(raw));
        if word == "true" || word == "false" then Some([name + ": " + word]) else None
      case Date => if IsCalendarDate(Trim(raw)) then Some([name + ": " + Trim(raw)]) else None
      case Datetime => if IsDateTime(Trim(raw)) then Some([name + ": " + Trim(raw)]) else None
  }

  // ---------- serialized lines scan as one block ----------

  /** A value that stands on the line of its property and starts with no blank and no block indicator. */
  ghost predicate ScalarOk(value: string) {
    value != "" && OneLine(value) && !IsSpace(value[0]) && value[0] != '>' && value[0] != '|'
  }

  /** The lines of a property as they are printed, one scalar or a list of quoted items. */
  ghost predicate Printed(name: string, texts: seq<string>) {
    IsName(name) &&
    ((exists value :: ScalarOk(value) && texts == [name + ": " + value])
     || (exists items :: items != [] && (forall item :: item in items ==> OneLine(Quote(item))) && texts == [name + ":"] + ItemLines(items)))
  }

  function Ended(texts: seq<string>, ending: string): seq<string> {
    if texts == [] then [] else [texts[0] + ending] + Ended(texts[1..], ending)
  }

  lemma {:induction false} NameLengthOf(name: string, rest: string)
    requires IsName(name) && rest != "" && !IsNameChar(rest[0])
    ensures NameLength(name + rest) == |name|
    decreases |name|
  {
    if |name| == 1 {
      assert (name + rest)[1..] == rest && name[0] in name;
    } else {
      assert name[0] in name && (name + rest)[1..] == name[1..] + rest;
      NameLengthOf(name[1..], rest);
    }
  }

  lemma {:induction false} PropertyLine(name: string, tail: string)
    requires IsName(name) && OneLine(tail)
    ensures ParseProperty(name + ":" + tail) == Some(Property(name, Trim(tail)))
    ensures !IsGap(name + ":" + tail) && !IsContinuation(name + ":" + tail)
    ensures OneLine(name + ":" + tail)
  {
    var text := name + ":" + tail;
    assert text == name + (":" + tail);
    NameLengthOf(name, ":" + tail);
    assert text[..|name|] == name && text[|name| + 1..] == tail && text[0] == name[0] && name[0] in name;
    NotBlankText(text);
    forall c | c in text ensures !IsTerminator(c) {
      if c in name { assert IsNameChar(c); }
    }
    hide Trim, TrimStart, NameLength;
  }

  lemma NotBlankText(text: string)
    requires text != "" && IsNameChar(text[0])
    ensures !IsGap(text)
  {
    TrimStays(text);
  }

  lemma TrimStays(text: string)
    requires text != "" && !IsSpace(text[0])
    ensures TrimStart(text) == text && Trim(text) != "" && Trim(text)[0] == text[0]
  {
    TrimEndKeepsFirst(text);
  }

  lemma {:induction false} TrimEndKeepsFirst(text: string)
    requires text != "" && !IsSpace(text[0])
    ensures TrimEnd(text) != "" && TrimEnd(text)[0] == text[0]
    decreases |text|
  {
    if IsSpace(text[|text| - 1]) {
      TrimEndKeepsFirst(text[..|text| - 1]);
    }
  }

  lemma {:induction false} ScalarIsNoBlockScalar(value: string)
    requires ScalarOk(value)
    ensures !IsBlockScalar(Trim(" " + value)) && OneLine(" " + value)
  {
    assert TrimStart(" " + value) == TrimStart(value) by { assert (" " + value)[1..] == value; }
    TrimStays(value);
  }

  lemma {:induction false} ItemIsListItem(item: string)
    requires OneLine(Quote(item))
    ensures IsListItem("  - " + Quote(item)) && OneLine("  - " + Quote(item))
  {
    var q := Quote(item);
    ItemShape(q);
    BlanksSkipped("  ", "- " + q);
    OneLineConcat("  - ", q);
    hide Quote, AfterBlanks;
  }

  lemma ItemShape(q: string)
    ensures "  - " + q == "  " + ("- " + q) && ("- " + q)[2..] == q && ("- " + q)[0] == '-' && ("- " + q)[1] == ' '
    ensures ("  - " + q)[0] == ' ' && AllBlank("  ") && OneLine("  - ")
  {
  }

  lemma {:induction false} ItemsAreItems(items: seq<string>, ending: string)
    requires (forall item :: item in items ==> OneLine(Quote(item))) && IsEnding(ending)
    ensures AllItems(Ended(ItemLines(items), ending))
    ensures forall text :: text in ItemLines(items) ==> OneLine(text) && text != "" && text[0] == ' '
    decreases |items|
  {
    if items != [] {
      assert items[0] in items;
      ItemIsListItem(items[0]);
      hide Quote, IsListItem;
      OneLineIsClean("  - " + Quote(items[0]));
      TextOfLine("  - " + Quote(items[0]), ending);
      ItemsAreItems(items[1..], ending);
      ConsRest("  - " + Quote(items[0]), ItemLines(items[1..]));
    }
  }

  lemma OneLineIsClean(text: string)
    requires OneLine(text)
    ensures Clean(text)
  {
  }

  predicate IsSeparator(c: char) {
    c == '\U{2028}' || c == '\U{2029}'
  }

  predicate NoSeparator(s: string) {
    forall c :: c in s ==> !IsSeparator(c)
  }

  lemma QuoteCharOneLine(c: char)
    ensures OneLine(QuoteChar(c)) <==> !IsSeparator(c)
  {
    if c < ' ' && c != '\n' && c != '\r' && c != '\t' && c != '\U{0008}' && c != '\U{000C}' {
      var h, l := HEX[c as int / 16], HEX[c as int % 16];
      HexIsPlain(c as int / 16);
      HexIsPlain(c as int % 16);
      OneLineConcat("\\u00", [h, l]);
    } else if c == '\"' || c == '\\' || c < ' ' {
      assert |QuoteChar(c)| == 2;
    } else {
      assert QuoteChar(c) == [c] && c in [c];
    }
  }

  lemma HexIsPlain(i: nat)
    requires i < 16
    ensures !IsTerminator(HEX[i])
  {
  }

  /** A quoted string is one line exactly when it holds no separator: every other line end is escaped. */
  lemma {:induction false} QuoteOneLine(s: string)
    ensures OneLine(Quote(s)) <==> NoSeparator(s)
  {
    QuoteCharsOneLine(s);
    OneLineConcat("\"", QuoteChars(s));
    OneLineConcat("\"" + QuoteChars(s), "\"");
  }

  lemma {:induction false} QuoteCharsOneLine(s: string)
    ensures OneLine(QuoteChars(s)) <==> NoSeparator(s)
    decreases |s|
  {
    hide QuoteChar;
    if s != "" {
      QuoteCharOneLine(s[0]);
      QuoteCharsOneLine(s[1..]);
      OneLineConcat(QuoteChar(s[0]), QuoteChars(s[1..]));
      HeadTail(s);
      assert forall c :: c in s <==> c == s[0] || c in s[1..];
    }
  }

  lemma OneLineConcat(a: string, b: string)
    ensures OneLine(a + b) <==> OneLine(a) && OneLine(b)
  {
    assert forall c :: c in a + b <==> c in a || c in b;
  }

  // ---------- printed lines between the markers ----------

  lemma {:induction false} ClearInside(text: string, ending: string)
    requires OneLine(text) && IsEnding(ending)
    ensures Clear(false, text + ending, "")
    decreases |text|
  {
    if text == "" {
      assert text + ending == ending && ending[1..] + "" == ending[1..];
    } else {
      assert text[0] in text && (text + ending)[1..] == text[1..] + ending;
      ClearInside(text[1..], ending);
    }
  }

  /** A line without inner line ends is clear unless it is a marker itself. */
  lemma {:induction false} ClearLine(text: string, ending: string)
    requires text != "" && OneLine(text) && IsEnding(ending) && ClosingRest(text + ending).None?
    ensures Clear(true, text + ending, "") && WellLine(text + ending) && TextOf(text + ending) == text
  {
    OneLineIsClean(text);
    TextOfLine(text, ending);
    hide ClosingRest;
    assert text[0] in text && (text + ending)[1..] == text[1..] + ending && (text + ending)[0] == text[0];
    assert text + ending + "" == text + ending;
    ClearInside(text[1..], ending);
  }

  lemma MoreThanMarker(s: string)
    requires |s| > 3 && !IsBlank(s[3]) && !IsTerminator(s[3])
    ensures ClosingRest(s).None?
  {
    assert s[3..][0] == s[3];
  }

  lemma MarkerChars(s: string)
    ensures StartsMarker(s) ==> |s| >= 3 && forall i :: 0 <= i < 3 ==> s[i] == '-' || s[i] == '.'
  {
  }

  /** A property line is no marker, even when its name consists of dashes. */
  lemma {:induction false} NameIsNoMarker(name: string, tail: string)
    requires IsName(name)
    ensures ClosingRest(name + ":" + tail).None?
  {
    var s := name + ":" + tail;
    MarkerChars(s);
    assert s[|name|] == ':';
    if |name| >= 3 {
      NameChar(name, tail);
      MoreThanMarker(s);
    }
  }

  lemma NameChar(name: string, tail: string)
    requires IsName(name) && |name| >= 3
    ensures var c := (name + ":" + tail)[3]; !IsBlank(c) && !IsTerminator(c)
  {
    var c := (name + ":" + tail)[3];
    assert c == ':' || (|name| > 3 && c == name[3] && name[3] in name);
  }

  lemma BlankIsNoMarker(text: string)
    requires text != "" && text[0] == ' '
    ensures ClosingRest(text).None?
  {
  }

  ghost predicate AllClear(lines: seq<string>) {
    forall line :: line in lines ==> WellLine(line) && Clear(true, line, "")
  }

  lemma {:induction false} PropertyLineIsClear(name: string, tail: string, ending: string)
    requires IsName(name) && OneLine(tail) && IsEnding(ending)
    ensures var line := name + ":" + tail + ending;
            WellLine(line) && Clear(true, line, "") && TextOf(line) == name + ":" + tail
  {
    PropertyLine(name, tail);
    Associative(name + ":", tail, ending);
    NameIsNoMarker(name, tail + ending);
    hide ParseProperty, Clear, WellLine, ClosingRest, TextOf, IsGap;
    ClearLine(name + ":" + tail, ending);
  }

  lemma {:induction false} ItemsAreClear(items: seq<string>, ending: string)
    requires (forall item :: item in items ==> OneLine(Quote(item))) && IsEnding(ending)
    ensures AllClear(Ended(ItemLines(items), ending))
    decreases |items|
  {
    if items != [] {
      assert items[0] in items;
      ItemIsListItem(items[0]);
      hide Quote, IsListItem, ClosingRest, Clear, WellLine, TextOf;
      var text := "  - " + Quote(items[0]);
      assert text[0] == ' ' && (text + ending)[0] == ' ';
      BlankIsNoMarker(text + ending);
      ClearLine(text, ending);
      ItemsAreClear(items[1..], ending);
      ConsRest(text, ItemLines(items[1..]));
    }
  }

  /** Printed lines make up one block and hide no marker. */
  lemma {:induction false} PrintedIsBlock(name: string, texts: seq<string>, ending: string)
    requires Printed(name, texts) && IsEnding(ending)
    ensures BlockOk(name, Ended(texts, ending)) && AllClear(Ended(texts, ending))
  {
    if exists value :: ScalarOk(value) && texts == [name + ": " + value] {
      var value :| ScalarOk(value) && texts == [name + ": " + value];
      ScalarBlock(name, value, ending);
    } else {
      var items :| items != [] && (forall item :: item in items ==> OneLine(Quote(item))) && texts == [name + ":"] + ItemLines(items);
      ListBlock(name, items, ending);
    }
  }

  lemma {:induction false} ScalarBlock(name: string, value: string, ending: string)
    requires IsName(name) && ScalarOk(value) && IsEnding(ending)
    ensures BlockOk(name, Ended([name + ": " + value], ending)) && AllClear(Ended([name + ": " + value], ending))
  {
    hide ParseProperty, Clear, WellLine, TextOf, IsGap, IsContinuation, IsBlockScalar, ScalarOk, Ended, IsName, OneLine, BlockOk;
    BlankMoves(name, value);
    ScalarIsNoBlockScalar(value);
    PropertyLine(name, " " + value);
    PropertyLineIsClear(name, " " + value, ending);
    EndedOne(name + ": " + value, ending);
    OneLineBlock(name, name + ": " + value + ending);
  }

  lemma OneLineBlock(name: string, line: string)
    requires var text := TextOf(line);
             !IsGap(text) && !IsContinuation(text) && ParseProperty(text).Some? && ParseProperty(text).value.name == name
             && !IsBlockScalar(ParseProperty(text).value.inlineValue)
    ensures BlockOk(name, [line])
  {
    hide ParseProperty, TextOf, IsGap, IsContinuation, IsBlockScalar;
  }

  lemma BlankMoves(name: string, value: string)
    ensures name + ": " + value == name + ":" + (" " + value)
  {
  }

  lemma EndedOne(text: string, ending: string)
    ensures Ended([text], ending) == [text + ending]
  {
  }

  lemma {:induction false} ListBlock(name: string, items: seq<string>, ending: string)
    requires IsName(name) && IsEnding(ending) && forall item :: item in items ==> OneLine(Quote(item))
    ensures BlockOk(name, Ended([name + ":"] + ItemLines(items), ending)) && AllClear(Ended([name + ":"] + ItemLines(items), ending))
  {
    assert name + ":" + "" == name + ":";
    PropertyLine(name, "");
    PropertyLineIsClear(name, "", ending);
    ItemsAreItems(items, ending);
    ItemsAreClear(items, ending);
    hide ParseProperty, Clear, WellLine, TextOf, IsGap, IsContinuation, AllItems, Quote;
    ConsRest(name + ":", ItemLines(items));
    ConsRest(name + ":" + ending, Ended(ItemLines(items), ending));
    assert Ended([name + ":"] + ItemLines(items), ending) == [name + ":" + ending] + Ended(ItemLines(items), ending);
    assert Trim("") == "";
  }

  // ---------- setting and removing ----------

  /** The note after setting a property to printed lines; None where the original throws. */
  function SetContent(content: string, name: string, texts: seq<string>): Option<string> {
    match FrontmatterLayout(content)
    case Unclosed => None
    case NoFrontmatter =>
      var ending := LineEndingFor(content);
      Some(BomOf(content) + "---" + ending + JoinLines(Ended(texts, ending)) + "---" + ending + content[|BomOf(content)|..])
    case Found(l) =>
      var pieces := Scan(l.lines, {});
      if pieces.None? then None
      else Some(l.opening + JoinLines(Flat(Put(pieces.value, name, Ended(texts, l.lineEnding)))) + l.closing + l.body)
  }

  datatype Removal = Refused | Missing | Removed(content: string)

  function RemoveContent(content: string, name: string): Removal {
    match FrontmatterLayout(content)
    case Unclosed => Refused
    case NoFrontmatter => Missing
    case Found(l) =>
      var pieces := Scan(l.lines, {});
      if pieces.None? then Refused
      else if !Has(pieces.value, name) then Missing
      else
        var frontmatter := JoinLines(Flat(Drop(pieces.value, name)));
        Removed(if Trim(frontmatter) == "" then l.bom + l.body else l.opening + frontmatter + l.closing + l.body)
  }

  /** Splitting the frontmatter loses nothing, and a property that is added starts a line of its own. */
  ghost predicate Settable(content: string, name: string) {
    match FrontmatterLayout(content)
    case Found(l) =>
      && NoBareCr(FrontmatterOf(content))
      && (EndsInLine(FrontmatterOf(content)) || (Scan(l.lines, {}).Some? && Has(Scan(l.lines, {}).value, name)))
    case _ => true
  }

  lemma Assembled(opening: string, f: string, closing: string, body: string)
    ensures opening + f + closing + body == Assemble(opening, f, closing, body)
  {
    Associative(opening, f, closing);
    Associative(opening, f + closing, body);
    Associative(f, closing, body);
  }

  lemma {:induction false} PutLines(pieces: seq<Piece>, name: string, lines: seq<string>)
    ensures forall line :: line in lines ==> line in Flat(Put(pieces, name, lines))
    ensures forall line :: line in Flat(Put(pieces, name, lines)) ==> line in lines || line in Flat(pieces)
    decreases |pieces|
  {
    ConsRest(Block(name, lines), if pieces == [] then [] else pieces[1..]);
    if pieces != [] {
      ConsRest(pieces[0], Put(pieces[1..], name, lines));
      if !IsBlockOf(pieces[0], name) {
        PutLines(pieces[1..], name, lines);
      }
    }
  }

  lemma {:induction false} DropLines(pieces: seq<Piece>, name: string)
    ensures forall line :: line in Flat(Drop(pieces, name)) ==> line in Flat(pieces)
    decreases |pieces|
  {
    if pieces != [] {
      ConsRest(pieces[0], Drop(pieces[1..], name));
      if !IsBlockOf(pieces[0], name) {
        DropLines(pieces[1..], name);
      }
    }
  }

  /** The last line of a frontmatter, where no line feed ends it. */
  function LastOf(content: string): string {
    Unended(FrontmatterOf(content))
  }

  function FirstsOf(content: string): seq<string> {
    SplitLines(BeforeUnended(FrontmatterOf(content)))
  }

  /** The lines of a frontmatter that loses nothing hide no marker. */
  lemma {:induction false} FoundLines(content: string)
    requires FrontmatterLayout(content).Found? && NoBareCr(FrontmatterOf(content))
    ensures var l, last := FrontmatterLayout(content).layout, LastOf(content);
            && AllClear(FirstsOf(content)) && LastOk(last, l.closing + l.body) && l.lines == FirstsOf(content) + Tail(last)
            && JoinLines(FirstsOf(content)) + last == FrontmatterOf(content)
            && JoinLines(l.lines) == FrontmatterOf(content)
  {
    var l, f := FrontmatterLayout(content).layout, FrontmatterOf(content);
    hide FrontmatterLayout, FrontmatterOf, Clear, WellLine, NoBareCr, SplitLines, IsOpening, IsClosing, Assemble, Unended, BeforeUnended;
    LayoutParts(content);
    SplitParts(f);
    PartsClear(FirstsOf(content), LastOf(content), l.closing + l.body);
    SplitLosesNothing(f);
  }

  lemma {:induction false} PartsClear(lines: seq<string>, last: string, after: string)
    requires Clear(true, JoinLines(lines) + last, after) && StartsLine(true, JoinLines(lines) + last) && Clean(last)
    requires forall line :: line in lines ==> WellLine(line)
    ensures AllClear(lines) && LastOk(last, after)
  {
    JoinedIsWell(lines);
    LineStartsNext(JoinLines(lines));
    ClearConcat(true, JoinLines(lines), last, after);
    LinesClear(lines, last + after);
    if last != "" { assert (JoinLines(lines) + last)[|JoinLines(lines) + last| - 1] == last[|last| - 1]; }
    hide Clear, WellLine, JoinLines;
  }

  lemma {:induction false} JoinTail(lines: seq<string>, last: string)
    ensures JoinLines(lines + Tail(last)) == JoinLines(lines) + last
  {
    JoinConcat(lines, Tail(last));
    if last != "" {
      assert [last][1..] == [] && JoinLines([last]) == last + JoinLines([]) && last + "" == last;
    }
  }

  lemma {:induction false} EndedCrlf(texts: seq<string>, ending: string)
    requires (forall text :: text in texts ==> Clean(text)) && IsEnding(ending)
    ensures forall line :: line in Ended(texts, ending) ==> (HasCrlf(line) <==> ending == "\r\n")
    decreases |texts|
  {
    hide HasCrlf, Clean;
    if texts != [] {
      assert texts[0] in texts;
      CrlfLine(texts[0], ending);
      EndedCrlf(texts[1..], ending);
    }
  }

  lemma {:induction false} PrintedIsClean(name: string, texts: seq<string>)
    requires Printed(name, texts)
    ensures texts != [] && forall text :: text in texts ==> Clean(text)
  {
    if exists value :: ScalarOk(value) && texts == [name + ": " + value] {
      var value :| ScalarOk(value) && texts == [name + ": " + value];
      BlankMoves(name, value);
      ScalarIsNoBlockScalar(value);
      PropertyLine(name, " " + value);
      OneLineIsClean(name + ":" + (" " + value));
    } else {
      var items :| items != [] && (forall item :: item in items ==> OneLine(Quote(item))) && texts == [name + ":"] + ItemLines(items);
      assert name + ":" + "" == name + ":";
      PropertyLine(name, "");
      ItemsAreItems(items, "\n");
      hide Quote, AllItems, ParseProperty;
      forall text | text in texts ensures Clean(text) {
        OneLineIsClean(text);
      }
    }
  }

  /** What is between two markers can be exchanged for other clear lines, before a last one that stays. */
  lemma {:induction false} Exchanged(content: string, lines: seq<string>)
    requires FrontmatterLayout(content).Found? && NoBareCr(FrontmatterOf(content)) && AllClear(lines)
    ensures var l, last := FrontmatterLayout(content).layout, LastOf(content);
            var after := l.opening + JoinLines(lines + Tail(last)) + l.closing + l.body;
            && FrontmatterLayout(after) == Found(l.(lines := lines + Tail(last), lineEnding := LineEndingFor(after)))
            && FrontmatterOf(after) == JoinLines(lines + Tail(last))
            && (HasCrlf(content) <==> HasCrlf(l.opening) || HasCrlf(JoinLines(FirstsOf(content))) || HasCrlf(l.closing + l.body))
            && (HasCrlf(after) <==> HasCrlf(l.opening) || HasCrlf(JoinLines(lines)) || HasCrlf(l.closing + l.body))
            && content == l.opening + JoinLines(l.lines) + l.closing + l.body
  {
    var l, last := FrontmatterLayout(content).layout, LastOf(content);
    hide FrontmatterLayout, FrontmatterOf, Clear, WellLine, NoBareCr, SplitLines, IsOpening, IsClosing, Assemble, HasCrlf, EndsInLine, LastOf,
         FirstsOf, Unended, StartsLine;
    LayoutParts(content);
    FoundLines(content);
    JoinTail(lines, last);
    Assembled(l.opening, JoinLines(lines) + last, l.closing, l.body);
    Assembled(l.opening, JoinLines(l.lines), l.closing, l.body);
    AssembledLayout(l.opening, lines, last, l.closing, l.body);
    CrlfBetween(l.opening, lines, last, l.closing, l.body);
    CrlfBetween(l.opening, FirstsOf(content), last, l.closing, l.body);
  }

  lemma {:induction false} CrlfBetween(opening: string, lines: seq<string>, last: string, closing: string, body: string)
    requires IsOpening(opening) && IsClosing(closing, body) && AllClear(lines) && Clean(last)
    ensures HasCrlf(Assemble(opening, JoinLines(lines) + last, closing, body)) <==>
      HasCrlf(opening) || HasCrlf(JoinLines(lines)) || HasCrlf(closing + body)
  {
    var f := JoinLines(lines) + last;
    hide IsOpening, IsClosing, Clear, WellLine, HasCrlf, Assemble, JoinLines;
    JoinedIsWell(lines);
    CleanHasNoCrlf(last);
    CrlfConcat(JoinLines(lines), last);
    assert f == "" || f[|f| - 1] != '\r' by {
      if last != "" { assert f[|f| - 1] == last[|last| - 1] && last[|last| - 1] in last; }
      else { assert f == JoinLines(lines); }
    }
    CrlfAssembled(opening, f, closing, body);
  }

  // ---------- the last line ----------

  function TailPieces(last: string): seq<Piece> {
    if last == "" then [] else [Gap(last)]
  }

  lemma {:induction false} FlatConcat(a: seq<Piece>, b: seq<Piece>)
    ensures Flat(a + b) == Flat(a) + Flat(b)
    decreases |a|
  {
    if a == [] {
      assert a + b == b && [] + Flat(b) == Flat(b);
    } else {
      assert (a + b)[1..] == a[1..] + b;
      FlatConcat(a[1..], b);
      Associative(LinesOf(a[0]), Flat(a[1..]), Flat(b));
    }
  }

  /** A line that ends in a separator belongs to no property. */
  lemma {:induction false} SeparatorEndsNoBlock(name: string, lines: seq<string>)
    requires BlockOk(name, lines)
    ensures var last := lines[|lines| - 1]; last != "" && Clean(last) ==> !IsSeparator(last[|last| - 1])
  {
    var last := lines[|lines| - 1];
    if last != "" && Clean(last) {
      UnendedText(last);
      var c := last[|last| - 1];
      if |lines| > 1 {
        assert last in lines[1..];
        var rest := AfterBlanks(last);
        assert rest[2..][|rest| - 3] == c && c in rest[2..];
      } else {
        var n := NameLength(last);
        if n + 1 < |last| {
          assert last[n + 1..][|last| - n - 2] == c && c in last[n + 1..];
        }
      }
    }
  }

  lemma {:induction false} LastIsGap(pieces: seq<Piece>, seen: set<string>, firsts: seq<string>, last: string)
    requires PiecesOk(pieces, seen) && Flat(pieces) == firsts + [last]
    requires last != "" && Clean(last) && IsSeparator(last[|last| - 1])
    ensures pieces != [] && pieces[|pieces| - 1] == Gap(last) && Flat(pieces[..|pieces| - 1]) == firsts
    decreases |pieces|, 1
  {
    var head, rest := pieces[0], pieces[1..];
    HeadTail(pieces);
    FlatCons(head, rest);
    if rest == [] {
      OnlyPiece(head, seen, firsts, last);
    } else {
      LastIsGapInRest(pieces, seen, firsts, last);
    }
  }

  lemma OnlyPiece(head: Piece, seen: set<string>, firsts: seq<string>, last: string)
    requires PiecesOk([head], seen) && LinesOf(head) + Flat([]) == firsts + [last]
    requires last != "" && Clean(last) && IsSeparator(last[|last| - 1])
    ensures head == Gap(last) && firsts == []
  {
    assert LinesOf(head) + [] == LinesOf(head) && (firsts + [last])[|firsts|] == last;
    if head.Block? {
      SeparatorEndsNoBlock(head.name, head.lines);
      assert false;
    }
  }

  lemma {:induction false} LastIsGapInRest(pieces: seq<Piece>, seen: set<string>, firsts: seq<string>, last: string)
    requires |pieces| > 1 && PiecesOk(pieces, seen) && Flat(pieces) == firsts + [last]
    requires last != "" && Clean(last) && IsSeparator(last[|last| - 1])
    ensures pieces[|pieces| - 1] == Gap(last) && Flat(pieces[..|pieces| - 1]) == firsts
    decreases |pieces|, 0
  {
    var head, rest := pieces[0], pieces[1..];
    HeadTail(pieces);
    FlatCons(head, rest);
    RestOk(pieces, seen);
    hide PiecesOk, Flat, BlockOk;
    CutFront(LinesOf(head), Flat(rest), firsts, last);
    LastIsGap(rest, if head.Block? then seen + {head.name} else seen, firsts[|LinesOf(head)|..], last);
    var before := rest[..|rest| - 1];
    assert pieces[..|pieces| - 1] == [head] + before;
    FlatCons(head, before);
  }

  lemma RestOk(pieces: seq<Piece>, seen: set<string>)
    requires |pieces| > 1 && PiecesOk(pieces, seen)
    ensures PiecesOk(pieces[1..], if pieces[0].Block? then seen + {pieces[0].name} else seen) && Flat(pieces[1..]) != []
  {
    hide IsGap;
  }

  lemma CutFront(a: seq<string>, b: seq<string>, firsts: seq<string>, last: string)
    requires a + b == firsts + [last] && b != []
    ensures |a| <= |firsts| && b == firsts[|a|..] + [last] && a + firsts[|a|..] == firsts
  {
    assert (a + b)[|a|..] == b && (a + b)[..|a|] == a;
    assert (firsts + [last])[|a|..] == firsts[|a|..] + [last];
    assert (firsts + [last])[..|a|] == firsts[..|a|];
  }

  /** A last line that is not ended is a piece of its own. */
  lemma {:induction false} PiecesTail(content: string, before: seq<Piece>) returns (firsts: seq<Piece>)
    requires FrontmatterLayout(content).Found? && NoBareCr(FrontmatterOf(content))
    requires Scan(FrontmatterLayout(content).layout.lines, {}) == Some(before)
    ensures before == firsts + TailPieces(LastOf(content)) && Flat(firsts) == FirstsOf(content)
  {
    var l, last := FrontmatterLayout(content).layout, LastOf(content);
    hide FrontmatterLayout, FrontmatterOf, NoBareCr, SplitLines, Scan, PiecesOk, AllClear, Flat, FirstsOf, LastOf, LastOk, Clean, IsSeparator;
    FoundLines(content);
    ScanSound(l.lines, {});
    if last != "" { SeparatorLast(last, l.closing + l.body); }
    firsts := CutTail(before, FirstsOf(content), last);
  }

  lemma {:induction false} CutTail(pieces: seq<Piece>, lines: seq<string>, last: string) returns (firsts: seq<Piece>)
    requires PiecesOk(pieces, {}) && Flat(pieces) == lines + Tail(last)
    requires last != "" ==> Clean(last) && IsSeparator(last[|last| - 1])
    ensures pieces == firsts + TailPieces(last) && Flat(firsts) == lines
  {
    hide PiecesOk, Flat;
    if last == "" {
      firsts := pieces;
      assert pieces + [] == pieces && lines + [] == lines;
    } else {
      LastIsGap(pieces, {}, lines, last);
      firsts := pieces[..|pieces| - 1];
    }
  }

  lemma SeparatorLast(last: string, after: string)
    requires LastOk(last, after) && last != ""
    ensures IsSeparator(last[|last| - 1]) && Clean(last)
  {
    assert last[|last| - 1] in last;
    hide Clear;
  }

  lemma NoBlockInTail(last: string, name: string)
    ensures !Has(TailPieces(last), name) && [] + TailPieces(last) == TailPieces(last)
  {
  }

  lemma {:induction false} PutBefore(firsts: seq<Piece>, last: string, name: string, lines: seq<string>)
    requires last == "" || Has(firsts + TailPieces(last), name)
    ensures Put(firsts + TailPieces(last), name, lines) == Put(firsts, name, lines) + TailPieces(last)
    decreases |firsts|
  {
    var tail := TailPieces(last);
    if last == "" {
      assert firsts + tail == firsts && Put(firsts, name, lines) + tail == Put(firsts, name, lines);
    } else if firsts == [] {
      NoBlockInTail(last, name);
      assert false;
    } else {
      assert (firsts + tail)[1..] == firsts[1..] + tail && (firsts + tail)[0] == firsts[0];
      if IsBlockOf(firsts[0], name) {
        Associative([Block(name, lines)], firsts[1..], tail);
      } else {
        HasRest(firsts + tail, name);
        PutBefore(firsts[1..], last, name, lines);
        Associative([firsts[0]], Put(firsts[1..], name, lines), tail);
      }
    }
  }

  lemma {:induction false} DropBefore(firsts: seq<Piece>, last: string, name: string)
    requires Has(firsts + TailPieces(last), name)
    ensures Drop(firsts + TailPieces(last), name) == Drop(firsts, name) + TailPieces(last)
    decreases |firsts|
  {
    var tail := TailPieces(last);
    if firsts == [] {
      NoBlockInTail(last, name);
      assert false;
    } else {
      assert (firsts + tail)[1..] == firsts[1..] + tail && (firsts + tail)[0] == firsts[0];
      if !IsBlockOf(firsts[0], name) {
        HasRest(firsts + tail, name);
        DropBefore(firsts[1..], last, name);
        Associative([firsts[0]], Drop(firsts[1..], name), tail);
      }
    }
  }

  lemma TailFlat(last: string)
    ensures Flat(TailPieces(last)) == Tail(last)
  {
    if last != "" { assert [Gap(last)][1..] == [] && [last] + [] == [last]; }
  }

  /** Setting a property in what stands before the last line. */
  lemma {:induction false} PutLinesBefore(content: string, before: seq<Piece>, name: string, lines: seq<string>) returns (firsts: seq<Piece>)
    requires FrontmatterLayout(content).Found? && Settable(content, name)
    requires Scan(FrontmatterLayout(content).layout.lines, {}) == Some(before)
    ensures Flat(firsts) == FirstsOf(content)
    ensures Flat(Put(before, name, lines)) == Flat(Put(firsts, name, lines)) + Tail(LastOf(content))
  {
    firsts := PiecesTail(content, before);
    UnendedParts(FrontmatterOf(content));
    hide FrontmatterLayout, FrontmatterOf, NoBareCr, Scan, Flat, FirstsOf, Put, Has, TailPieces, EndsInLine, Unended;
    PutBefore(firsts, LastOf(content), name, lines);
    FlatConcat(Put(firsts, name, lines), TailPieces(LastOf(content)));
    TailFlat(LastOf(content));
  }

  // ---------- what is found again ----------

  lemma {:induction false} PutIsClear(pieces: seq<Piece>, name: string, texts: seq<string>, ending: string)
    requires AllClear(Flat(pieces)) && Printed(name, texts) && IsEnding(ending)
    ensures AllClear(Flat(Put(pieces, name, Ended(texts, ending))))
  {
    hide Printed, Flat, Put, Clear, WellLine, BlockOk, Ended;
    PrintedIsBlock(name, texts, ending);
    PutLines(pieces, name, Ended(texts, ending));
  }

  lemma {:induction false} PutCrlf(pieces: seq<Piece>, name: string, texts: seq<string>, ending: string)
    requires AllClear(Flat(pieces)) && Printed(name, texts) && IsEnding(ending)
    ensures var lines := Flat(Put(pieces, name, Ended(texts, ending)));
            if ending == "\r\n" then HasCrlf(JoinLines(lines)) else HasCrlf(JoinLines(lines)) ==> HasCrlf(JoinLines(Flat(pieces)))
  {
    var new_ := Ended(texts, ending);
    PutIsClear(pieces, name, texts, ending);
    PrintedIsClean(name, texts);
    EndedCrlf(texts, ending);
    assert new_[0] in new_;
    hide Printed, Flat, Put, HasCrlf, Clear, WellLine, Ended;
    PutLines(pieces, name, new_);
    CrlfLines(Flat(Put(pieces, name, new_)));
    CrlfLines(Flat(pieces));
  }

  /** Putting a printed block keeps the note's line ending. */
  lemma {:induction false} PutKeepsEnding(content: string, firsts: seq<Piece>, name: string, texts: seq<string>)
    requires FrontmatterLayout(content).Found? && NoBareCr(FrontmatterOf(content)) && Printed(name, texts)
    requires Flat(firsts) == FirstsOf(content)
    ensures var l := FrontmatterLayout(content).layout;
            var lines := Flat(Put(firsts, name, Ended(texts, l.lineEnding)));
            && AllClear(lines)
            && LineEndingFor(l.opening + JoinLines(lines + Tail(LastOf(content))) + l.closing + l.body) == l.lineEnding
  {
    var l := FrontmatterLayout(content).layout;
    LayoutEnding(content);
    hide FrontmatterLayout, FrontmatterOf, NoBareCr, Printed, Flat, Put, HasCrlf, AllClear, Ended, FirstsOf, LastOf, LastOk;
    FoundLines(content);
    PutIsClear(firsts, name, texts, l.lineEnding);
    PutCrlf(firsts, name, texts, l.lineEnding);
    Exchanged(content, Flat(Put(firsts, name, Ended(texts, l.lineEnding))));
  }

  lemma LayoutEnding(content: string)
    requires FrontmatterLayout(content).Found?
    ensures FrontmatterLayout(content).layout.lineEnding == LineEndingFor(content)
  {
    hide HasCrlf, OpeningRest, CutFrontmatter;
  }

  /**
   * Nothing of the note is lost, and splitting and scanning it after the set finds the same markers
   * and body, and the same pieces but for one block of that name, which holds the printed lines.
   */
  ghost predicate SetIsFound(content: string, name: string, texts: seq<string>)
    requires FrontmatterLayout(content).Found? && Scan(FrontmatterLayout(content).layout.lines, {}).Some?
  {
    var l := FrontmatterLayout(content).layout;
    var before := Scan(l.lines, {}).value;
    var pieces := Put(before, name, Ended(texts, l.lineEnding));
    && content == l.opening + JoinLines(Flat(before)) + l.closing + l.body
    && SetContent(content, name, texts).Some?
    && FrontmatterLayout(SetContent(content, name, texts).value) == Found(l.(lines := Flat(pieces)))
    && Scan(Flat(pieces), {}) == Some(pieces)
    && Block(name, Ended(texts, l.lineEnding)) in pieces
    && Drop(pieces, name) == Drop(before, name) && !Has(Drop(pieces, name), name)
  }

  lemma SetIs(content: string, l: Layout, before: seq<Piece>, name: string, texts: seq<string>)
    requires FrontmatterLayout(content) == Found(l) && Scan(l.lines, {}) == Some(before)
    ensures SetContent(content, name, texts)
         == Some(l.opening + JoinLines(Flat(Put(before, name, Ended(texts, l.lineEnding)))) + l.closing + l.body)
  {
    hide FrontmatterLayout, Scan, JoinLines, Flat, Put, Ended;
  }

  lemma {:induction false} SettableIsFound(content: string, name: string, texts: seq<string>)
    requires FrontmatterLayout(content).Found? && Scan(FrontmatterLayout(content).layout.lines, {}).Some?
    requires Printed(name, texts) && Settable(content, name)
    ensures SetIsFound(content, name, texts)
  {
    var l := FrontmatterLayout(content).layout;
    var before := Scan(l.lines, {}).value;
    var block := Ended(texts, l.lineEnding);
    LayoutEnding(content);
    SetIs(content, l, before, name, texts);
    hide FrontmatterLayout, FrontmatterOf, Printed, Flat, Put, Drop, Has, HasCrlf, Clear, WellLine, BlockOk, Scan, PiecesOk, SetContent, Ended,
         NoBareCr, EndsInLine, JoinLines, FirstsOf, LastOf, Tail;
    var firsts := PutLinesBefore(content, before, name, block);
    ScanSound(l.lines, {});
    PrintedIsBlock(name, texts, l.lineEnding);
    PutOk(before, name, block, {});
    ScanComplete(Put(before, name, block), {});
    PutKeepsOthers(before, name, block, {});
    PutKeepsEnding(content, firsts, name, texts);
    Exchanged(content, Flat(Put(firsts, name, block)));
  }

  /** A frontmatter that loses text in splitting is not what its pieces make up. */
  lemma {:induction false} LossShows(content: string, before: seq<Piece>)
    requires FrontmatterLayout(content).Found? && Scan(FrontmatterLayout(content).layout.lines, {}) == Some(before)
    requires var l := FrontmatterLayout(content).layout; content == l.opening + JoinLines(Flat(before)) + l.closing + l.body
    ensures NoBareCr(FrontmatterOf(content))
  {
    var l, f := FrontmatterLayout(content).layout, FrontmatterOf(content);
    hide FrontmatterLayout, FrontmatterOf, Clear, NoBareCr, IsOpening, IsClosing, Scan, PiecesOk, Flat, SplitFrom, JoinLines, StartsLine;
    LayoutParts(content);
    ScanSound(l.lines, {});
    SplitFromJoins("", f);
    assert |content| == |l.opening| + |f| + |l.closing| + |l.body|;
    assert |content| == |l.opening| + |JoinLines(l.lines)| + |l.closing| + |l.body|;
  }

  lemma LastCharIn(s: string)
    ensures s != "" ==> s[|s| - 1] in s
  {
  }

  /** A property added behind a last line that is not ended is not on a line of its own. */
  lemma {:induction false} UnendedSwallows(content: string, name: string, texts: seq<string>)
    requires FrontmatterLayout(content).Found? && Scan(FrontmatterLayout(content).layout.lines, {}).Some?
    requires NoBareCr(FrontmatterOf(content)) && !EndsInLine(FrontmatterOf(content)) && Printed(name, texts)
    requires !Has(Scan(FrontmatterLayout(content).layout.lines, {}).value, name)
    ensures !SetIsFound(content, name, texts)
  {
    var l, last := FrontmatterLayout(content).layout, LastOf(content);
    var before, block := Scan(l.lines, {}).value, Ended(texts, l.lineEnding);
    UnendedParts(FrontmatterOf(content));
    PrintedIsClean(name, texts);
    hide FrontmatterLayout, FrontmatterOf, Printed, Flat, Put, Drop, Has, Scan, PiecesOk, SetContent, NoBareCr, EndsInLine, JoinLines, FirstsOf,
         AllClear, LastOk, Unended, Clean;
    FoundLines(content);
    ScanSound(l.lines, {});
    AbsentIsKept(before, name);
    FlatPush(before, Block(name, block));
    if SetIsFound(content, name, texts) {
      var after := SetContent(content, name, texts).value;
      LayoutParts(after);
      var n := |FirstsOf(content)|;
      var lines := FirstsOf(content) + Tail(last) + block;
      assert SplitLines(FrontmatterOf(after)) == lines && block != [] && lines[n] == last && n + 1 < |lines|;
      OnlyLastUnended("", FrontmatterOf(after), n);
      LastCharIn(last);
      assert false;
    }
  }

  /**
   * A property that is set to printed lines is found again, with everything else as it was, exactly
   * when the frontmatter has no bare carriage return, and ends in a line feed or has the property.
   */
  lemma {:induction false} RescanAfterSet(content: string, name: string, texts: seq<string>)
    requires FrontmatterLayout(content).Found? && Scan(FrontmatterLayout(content).layout.lines, {}).Some? && Printed(name, texts)
    ensures var f, before := FrontmatterOf(content), Scan(FrontmatterLayout(content).layout.lines, {}).value;
            SetIsFound(content, name, texts) <==> NoBareCr(f) && (EndsInLine(f) || Has(before, name))
  {
    var before := Scan(FrontmatterLayout(content).layout.lines, {}).value;
    hide FrontmatterLayout, FrontmatterOf, Printed, Flat, Put, Drop, Has, Scan, SetContent, NoBareCr, EndsInLine, JoinLines, Ended;
    if SetIsFound(content, name, texts) {
      LossShows(content, before);
      if !EndsInLine(FrontmatterOf(content)) && !Has(before, name) {
        UnendedSwallows(content, name, texts);
      }
    } else if Settable(content, name) {
      SettableIsFound(content, name, texts);
    }
  }

  /** A note without frontmatter gets one that holds just the property; its text follows unchanged. */
  lemma {:induction false} RescanAfterFirstSet(content: string, name: string, texts: seq<string>)
    requires FrontmatterLayout(content).NoFrontmatter? && Printed(name, texts)
    ensures var ending, bom := LineEndingFor(content), BomOf(content);
            var block := Ended(texts, ending);
            var after := SetContent(content, name, texts).value;
            && FrontmatterLayout(after)
                == Found(Layout(bom, bom + "---" + ending, block, "---" + ending, content[|bom|..], ending))
            && Scan(block, {}) == Some([Block(name, block)]) && content == bom + content[|bom|..]
  {
    var ending, bom := LineEndingFor(content), BomOf(content);
    var block, body := Ended(texts, ending), content[|bom|..];
    var opening, closing := bom + "---" + ending, "---" + ending;
    BomCase(content);
    assert content == bom + body;
    FirstContent(content, name, texts);
    hide FrontmatterLayout, FrontmatterOf, BomOf, Printed, Clear, WellLine, BlockOk, Scan, IsOpening, IsClosing, HasCrlf, Ended, SetContent,
         Assemble, NoBareCr;
    MarkerLines(bom, ending, body);
    PrintedIsBlock(name, texts, ending);
    NoLast(closing + body);
    AssembledLayout(opening, block, "", closing, body);
    assert block + Tail("") == block && JoinLines(block) + "" == JoinLines(block);
    OneBlock(name, block);
    FirstEnding(content, name, texts);
  }

  lemma FirstContent(content: string, name: string, texts: seq<string>)
    requires FrontmatterLayout(content).NoFrontmatter?
    ensures var ending, bom := LineEndingFor(content), BomOf(content);
            SetContent(content, name, texts)
            == Some(Assemble(bom + "---" + ending, JoinLines(Ended(texts, ending)), "---" + ending, content[|bom|..]))
  {
    var ending, bom := LineEndingFor(content), BomOf(content);
    var block, body := JoinLines(Ended(texts, ending)), content[|bom|..];
    hide FrontmatterLayout, BomOf, HasCrlf, Ended, JoinLines;
    Assembled(bom + "---" + ending, block, "---" + ending, body);
    Associative(bom + "---" + ending + block, "---", ending);
  }

  lemma MarkerLines(bom: string, ending: string, body: string)
    requires (bom == "" || bom == [BOM]) && IsEnding(ending)
    ensures IsOpening(bom + "---" + ending) && BomOf(bom + "---" + ending) == bom && IsClosing("---" + ending, body)
  {
    hide IsOpening, ClosingRest, BomOf;
    OpeningMarker(bom, ending);
    ClosingMarker(ending, body);
    Associative(bom, "---", ending);
    DashFirst(ending);
    BomReads(bom, "---" + ending);
  }

  lemma DashFirst(ending: string)
    ensures ("---" + ending)[0] != BOM && "---" + ending != ""
  {
  }

  lemma OpeningMarker(bom: string, ending: string)
    requires (bom == "" || bom == [BOM]) && IsEnding(ending)
    ensures IsOpening(bom + "---" + ending)
  {
    assert bom + "---" + ending == OpeningOf(bom, "", ending);
    assert AllBlank("");
  }

  lemma LineEndReads(ending: string, body: string)
    requires IsEnding(ending)
    ensures AfterLineEnd(ending + body) == Some(body) && AfterBlanks(ending + body) == ending + body
  {
    DropHead(ending, body);
    var s := ending + body;
    assert s[0] == ending[0] && StartsWith(s, ending);
    if ending == "\n" { assert !StartsWith(s, "\r\n"); }
  }

  lemma ClosingMarker(ending: string, body: string)
    requires IsEnding(ending)
    ensures ClosingRest("---" + ending + body) == Some(body)
  {
    hide AfterBlanks, AfterLineEnd, IsEnding;
    Associative("---", ending, body);
    DropHead("---", ending + body);
    LineEndReads(ending, body);
  }

  lemma {:induction false} OneBlock(name: string, block: seq<string>)
    requires BlockOk(name, block)
    ensures Scan(block, {}) == Some([Block(name, block)]) && Flat([Block(name, block)]) == block
  {
    hide BlockOk, Scan;
    assert [Block(name, block)][1..] == [] && block + [] == block;
    ScanComplete([Block(name, block)], {});
  }

  lemma {:induction false} FirstEnding(content: string, name: string, texts: seq<string>)
    requires FrontmatterLayout(content).NoFrontmatter? && Printed(name, texts)
    ensures var ending := LineEndingFor(content);
            LineEndingFor(Assemble(BomOf(content) + "---" + ending, JoinLines(Ended(texts, ending)), "---" + ending, content[|BomOf(content)|..])) == ending
  {
    var ending, bom := LineEndingFor(content), BomOf(content);
    var body, block := content[|bom|..], Ended(texts, ending);
    BomCase(content);
    MarkerLines(bom, ending, body);
    CrlfWithBom(content);
    hide FrontmatterLayout, BomOf, Printed, Clear, WellLine, IsOpening, IsClosing, Ended;
    PrintedIsBlock(name, texts, ending);
    PrintedIsClean(name, texts);
    EndedCrlf(texts, ending);
    JoinedIsWell(block);
    CrlfLines(block);
    CrlfAssembled(bom + "---" + ending, JoinLines(block), "---" + ending, body);
    MarkerCrlf(bom, ending, body);
  }

  lemma CrlfWithBom(content: string)
    ensures HasCrlf(content[|BomOf(content)|..]) <==> HasCrlf(content)
  {
  }

  lemma {:induction false} MarkerCrlf(bom: string, ending: string, body: string)
    requires (bom == "" || bom == [BOM]) && IsEnding(ending)
    ensures HasCrlf(bom + "---" + ending) <==> ending == "\r\n"
    ensures HasCrlf("---" + ending + body) <==> ending == "\r\n" || HasCrlf(body)
  {
    CrlfLine(bom + "---", ending);
    CrlfLine("---", ending);
    CrlfConcat("---" + ending, body);
  }

  // ---------- runs of two ----------

  /** The note without what splitting its frontmatter into lines loses. */
  function Lossless(content: string): string {
    match FrontmatterLayout(content)
    case Found(l) => Assemble(l.opening, KeptOf(FrontmatterOf(content)), l.closing, l.body)
    case _ => content
  }

  /** Setting and removing see a note as if what splitting loses were not there. */
  lemma {:induction false} SeenLossless(content: string)
    requires FrontmatterLayout(content).Found?
    ensures var l, c := FrontmatterLayout(content).layout, Lossless(content);
            && FrontmatterLayout(c) == Found(l) && NoBareCr(FrontmatterOf(c))
            && |c| <= |content| && (c == content <==> NoBareCr(FrontmatterOf(content)))
            && (forall name, texts :: SetContent(c, name, texts) == SetContent(content, name, texts))
            && (forall name :: RemoveContent(c, name) == RemoveContent(content, name))
  {
    KeptLayout(content);
    LosslessIs(content);
    hide Lossless, FrontmatterLayout, FrontmatterOf, NoBareCr, KeptOf, Assemble, SetContent, RemoveContent;
    var c := Lossless(content);
    forall name, texts ensures SetContent(c, name, texts) == SetContent(content, name, texts) {
      OnlyLayoutMatters(content, c, name, texts);
    }
    forall name ensures RemoveContent(c, name) == RemoveContent(content, name) {
      OnlyLayoutMatters(content, c, name, []);
    }
  }

  lemma LosslessIs(content: string)
    requires FrontmatterLayout(content).Found?
    ensures var l := FrontmatterLayout(content).layout; Lossless(content) == Assemble(l.opening, KeptOf(FrontmatterOf(content)), l.closing, l.body)
  {
    hide FrontmatterLayout, Assemble, KeptOf, FrontmatterOf;
  }

  lemma OnlyLayoutMatters(a: string, b: string, name: string, texts: seq<string>)
    requires FrontmatterLayout(a).Found? && FrontmatterLayout(b) == FrontmatterLayout(a)
    ensures SetContent(a, name, texts) == SetContent(b, name, texts) && RemoveContent(a, name) == RemoveContent(b, name)
  {
    hide FrontmatterLayout, Scan, Put, Drop, Flat, JoinLines, Ended, Trim, Has;
  }

  // ---------- a property that lands on the last line ----------

  /** Scanning goes through well-formed pieces to the lines that follow them. */
  lemma {:induction false} ScanThrough(pieces: seq<Piece>, tail: seq<string>, seen: set<string>)
    requires PiecesOk(pieces, seen)
    requires tail != [] && IsContinuation(TextOf(tail[0])) ==> pieces == [] || pieces[|pieces| - 1].Gap?
    ensures Scan(Flat(pieces) + tail, seen)
         == match Scan(tail, seen + Names(pieces)) case None => None case Some(rest) => Some(pieces + rest)
    decreases |pieces|
  {
    if pieces == [] {
      assert [] + tail == tail && seen + Names([]) == seen;
      assert forall rest: seq<Piece> :: [] + rest == rest;
    } else {
      HeadTail(pieces);
      ThroughFirst(pieces, tail, seen);
    }
  }

  lemma {:induction false} ThroughFirst(pieces: seq<Piece>, tail: seq<string>, seen: set<string>)
    requires PiecesOk(pieces, seen) && pieces != []
    requires tail != [] && IsContinuation(TextOf(tail[0])) ==> pieces[|pieces| - 1].Gap?
    ensures Scan(Flat(pieces) + tail, seen)
         == match Scan(tail, seen + Names(pieces)) case None => None case Some(rest) => Some(pieces + rest)
    decreases |pieces|, 0
  {
    var head, more := pieces[0], pieces[1..];
    var seen' := if head.Block? then seen + {head.name} else seen;
    var lines := Flat(more) + tail;
    HeadTail(pieces);
    FlatCons(head, more);
    NamesCons(head, more);
    FirstOk(pieces, seen);
    hide Flat, PiecesOk, Names, IsContinuation, TextOf, Scan, BlockOk, IsGap;
    ScanThrough(more, tail, seen');
    assert seen + Names(pieces) == seen' + Names(more);
    Associative(LinesOf(head), Flat(more), tail);
    if head.Gap? {
      ConsRest(head.line, lines);
      ScanAtGap([head.line] + lines, seen);
    } else {
      FlushNext(more, tail, seen');
      ScanAfterBlock(head.name, head.lines, lines, seen);
    }
    if Scan(tail, seen + Names(pieces)).Some? {
      Associative([head], more, Scan(tail, seen + Names(pieces)).value);
    }
  }

  lemma NamesCons(head: Piece, more: seq<Piece>)
    ensures Names([head] + more) == (if head.Block? then {head.name} else {}) + Names(more)
  {
    assert forall x :: x in [head] + more <==> x == head || x in more;
  }

  lemma FirstOk(pieces: seq<Piece>, seen: set<string>)
    requires PiecesOk(pieces, seen) && pieces != []
    ensures PiecesOk(pieces[1..], if pieces[0].Block? then seen + {pieces[0].name} else seen)
    ensures pieces[0].Gap? ==> IsGap(TextOf(pieces[0].line))
    ensures pieces[0].Block? ==> BlockOk(pieces[0].name, pieces[0].lines) && pieces[0].name !in seen && StartsFlush(pieces[1..])
  {
    hide BlockOk, IsGap, TextOf;
  }

  lemma {:induction false} FlushNext(more: seq<Piece>, tail: seq<string>, seen: set<string>)
    requires PiecesOk(more, seen) && StartsFlush(more) && (more == [] ==> tail == [] || !IsContinuation(TextOf(tail[0])))
    ensures var lines := Flat(more) + tail; lines == [] || !IsContinuation(TextOf(lines[0]))
  {
    FlatStarts(more, seen);
    if more != [] {
      HeadTail(more);
      FlatCons(more[0], more[1..]);
      FirstOk(more, seen);
      assert LinesOf(more[0]) != [] by { hide IsGap; }
    }
    hide IsContinuation, TextOf, PiecesOk;
  }

  lemma {:induction false} ScanAfterBlock(name: string, lines: seq<string>, rest: seq<string>, seen: set<string>)
    requires BlockOk(name, lines) && name !in seen && (rest == [] || !IsContinuation(TextOf(rest[0])))
    ensures Scan(lines + rest, seen)
         == match Scan(rest, seen + {name}) case None => None case Some(more) => Some([Block(name, lines)] + more)
  {
    hide IsGap, TextOf, IsContinuation, ParseProperty, IsBlockScalar, AllItems, Continuations;
    if |lines| == 1 {
      NoneContinue(rest);
      assert lines[1..] + rest == rest;
    } else {
      AllContinue(lines[1..], rest);
    }
    BlockCut(lines, rest);
  }

  lemma {:induction false} TrimStartConcat(a: string, b: string)
    ensures TrimStart(a) != "" ==> TrimStart(a + b) == TrimStart(a) + b
    ensures TrimStart(a) == "" ==> TrimStart(a + b) == TrimStart(b)
    decreases |a|
  {
    if a == "" {
      assert a + b == b;
    } else {
      assert (a + b)[1..] == a[1..] + b;
      TrimStartConcat(a[1..], b);
    }
  }

  lemma BlankTrims(s: string)
    requires Trim(s) == ""
    ensures TrimStart(s) == ""
  {
    if TrimStart(s) != "" { TrimStays(TrimStart(s)); }
  }

  /** A gap followed on its line by a printed property is a comment, or no line that can be scanned. */
  lemma {:induction false} MergedText(last: string, text: string)
    requires last != "" && IsGap(last) && text != "" && IsNameChar(text[0])
    ensures IsGap(last + text) || ParseProperty(last + text).None?
  {
    TrimStartConcat(last, text);
    TrimStays(text);
    if Trim(last) == "" {
      BlankTrims(last);
      assert !IsNameChar(last[0]) by { if !IsSpace(last[0]) { TrimStays(last); } }
      assert (last + text)[0] == last[0];
    } else {
      assert StartsWith(TrimStart(last + text), "#");
    }
  }

  /** The lines of a note after a property was added behind a last line that is not ended. */
  function MergedLines(content: string, block: seq<string>): seq<string>
    requires block != []
  {
    FirstsOf(content) + ([LastOf(content) + block[0]] + block[1..])
  }

  lemma {:induction false} MergedAreClear(content: string, block: seq<string>)
    requires FrontmatterLayout(content).Found? && NoBareCr(FrontmatterOf(content)) && block != [] && AllClear(block)
    ensures AllClear(MergedLines(content, block)) && JoinLines(MergedLines(content, block)) == FrontmatterOf(content) + JoinLines(block)
  {
    var l, last, firsts := FrontmatterLayout(content).layout, LastOf(content), FirstsOf(content);
    FoundLines(content);
    hide FrontmatterLayout, FrontmatterOf, NoBareCr, FirstsOf, LastOf, JoinLines;
    MergedLine(last, block[0], l.closing + l.body);
    JoinConcat(firsts, [last + block[0]] + block[1..]);
    ConsLine(last + block[0], block[1..]);
    HeadTail(block);
    ConsLine(block[0], block[1..]);
    Associative(last, block[0], JoinLines(block[1..]));
    Associative(JoinLines(firsts), last, JoinLines(block));
    hide Clear, WellLine;
  }

  lemma {:induction false} MergedLine(last: string, line: string, after: string)
    requires LastOk(last, after) && WellLine(line) && Clear(true, line, "")
    ensures WellLine(last + line) && Clear(true, last + line, "")
  {
    var text: string, ending: string :| line == text + ending && IsEnding(ending) && Clean(text);
    hide WellLine, Clear;
    CleanConcat(last, text);
    Associative(last, text, ending);
    TextOfLine(last + text, ending);
    assert line + "" == line;
    ClearWithin(true, last, after);
    ClearWithin(true, last, line);
    ClearConcat(true, last, line, "");
  }

  lemma CleanConcat(a: string, b: string)
    ensures Clean(a + b) <==> Clean(a) && Clean(b)
  {
    assert forall c :: c in a + b <==> c in a || c in b;
  }

  lemma {:induction false} MergedScan(content: string, before: seq<Piece>, name: string, texts: seq<string>, ending: string)
    requires FrontmatterLayout(content).Found? && NoBareCr(FrontmatterOf(content)) && !EndsInLine(FrontmatterOf(content))
    requires Scan(FrontmatterLayout(content).layout.lines, {}) == Some(before) && !Has(before, name)
    requires Printed(name, texts) && IsEnding(ending)
    ensures Ended(texts, ending) != []
    ensures var scanned := Scan(MergedLines(content, Ended(texts, ending)), {}); scanned.None? || !Has(scanned.value, name)
  {
    var last, block := LastOf(content), Ended(texts, ending);
    UnendedParts(FrontmatterOf(content));
    FoundLines(content);
    ScanSound(FrontmatterLayout(content).layout.lines, {});
    PrintedIsBlock(name, texts, ending);
    PrintedIsClean(name, texts);
    PrintedStarts(name, texts, ending);
    var firsts := PiecesTail(content, before);
    assert TailPieces(last) == [Gap(last)];
    hide FrontmatterLayout, FrontmatterOf, NoBareCr, EndsInLine, FirstsOf, LastOf, Printed, Scan, Flat, AllClear, Ended, BlockOk, PiecesOk,
         TailPieces, LastOk, Has;
    FirstsFit(firsts, last, {});
    LastTexts(last, block[0], texts[0], ending);
    MergedTailScan(firsts, last, block, texts[0], name);
  }

  lemma PrintedStarts(name: string, texts: seq<string>, ending: string)
    requires Printed(name, texts) && texts != []
    ensures texts[0] != "" && IsNameChar(texts[0][0])
    ensures Ended(texts, ending) != [] && Ended(texts, ending)[0] == texts[0] + ending
  {
    assert name[0] in name;
    if exists value :: ScalarOk(value) && texts == [name + ": " + value] {
      var value :| ScalarOk(value) && texts == [name + ": " + value];
      EndedOne(name + ": " + value, ending);
    } else {
      var items :| items != [] && (forall item :: item in items ==> OneLine(Quote(item))) && texts == [name + ":"] + ItemLines(items);
      HeadEnded(name + ":", ItemLines(items), ending);
    }
  }

  /** The pieces before a last gap, and how it may start. */
  lemma {:induction false} FirstsFit(firsts: seq<Piece>, last: string, seen: set<string>)
    requires PiecesOk(firsts + [Gap(last)], seen)
    ensures PiecesOk(firsts, seen) && IsGap(TextOf(last))
    ensures IsContinuation(TextOf(last)) ==> firsts == [] || firsts[|firsts| - 1].Gap?
    decreases |firsts|
  {
    if firsts == [] {
      assert firsts + [Gap(last)] == [Gap(last)];
    } else {
      var all := firsts + [Gap(last)];
      assert all[0] == firsts[0] && all[1..] == firsts[1..] + [Gap(last)];
      FirstOk(all, seen);
      hide IsGap, IsContinuation, TextOf, BlockOk;
      FirstsFit(firsts[1..], last, if firsts[0].Block? then seen + {firsts[0].name} else seen);
      if firsts[1..] != [] { assert all[1..][0] == firsts[1..][0]; } else { assert all[1..] == [Gap(last)]; }
    }
  }

  lemma {:induction false} LastTexts(last: string, line: string, text: string, ending: string)
    requires Clean(last) && Clean(text) && IsEnding(ending) && line == text + ending
    ensures TextOf(last) == last && TextOf(last + line) == last + text
  {
    UnendedText(last);
    Associative(last, text, ending);
    TextOfLine(last + text, ending);
  }

  lemma {:induction false} MergedTailScan(firsts: seq<Piece>, last: string, block: seq<string>, text: string, name: string)
    requires PiecesOk(firsts, {}) && !Has(firsts + [Gap(last)], name) && block != [] && last != ""
    requires TextOf(last) == last && TextOf(last + block[0]) == last + text && text != "" && IsNameChar(text[0])
    requires IsGap(last) && (IsContinuation(last) ==> firsts == [] || firsts[|firsts| - 1].Gap?)
    requires AllItems(block[1..])
    ensures var scanned := Scan(Flat(firsts) + ([last + block[0]] + block[1..]), {}); scanned.None? || !Has(scanned.value, name)
  {
    var merged, rest := last + block[0], block[1..];
    var tail := [merged] + rest;
    ConsRest(merged, rest);
    MergedText(last, text);
    assert (last + text)[0] == last[0];
    assert IsContinuation(TextOf(tail[0])) ==> IsContinuation(last);
    ScanThrough(firsts, tail, {});
    var seen := {} + Names(firsts);
    if IsGap(TextOf(merged)) {
      hide IsGap, TextOf, Flat, PiecesOk, Names, ParseProperty, IsListItem;
      ScanAtGap(tail, seen);
      if rest == [] {
        assert Scan([], seen) == Some([]);
        assert Scan(tail, seen) == Some([Gap(merged)]) by { assert [Gap(merged)] + [] == [Gap(merged)]; }
        SameWithoutBlocks(firsts, last, merged, name);
      } else {
        assert rest[0] in rest;
        ItemIsNoProperty(TextOf(rest[0]));
        UnreadableFirst(rest, seen);
      }
    } else {
      hide IsGap, TextOf, Flat, PiecesOk, Names, ParseProperty, IsListItem;
      UnreadableFirst(tail, seen);
    }
  }

  lemma SameWithoutBlocks(firsts: seq<Piece>, last: string, merged: string, name: string)
    requires !Has(firsts + [Gap(last)], name)
    ensures !Has(firsts + [Gap(merged)], name)
  {
    forall x | x in firsts + [Gap(merged)] ensures !IsBlockOf(x, name) {
      if x in firsts {
        assert x in firsts + [Gap(last)];
      }
    }
  }

  lemma UnreadableFirst(lines: seq<string>, seen: set<string>)
    requires lines != [] && !IsGap(TextOf(lines[0])) && ParseProperty(TextOf(lines[0])).None?
    ensures Scan(lines, seen) == None
  {
    hide IsGap, TextOf, ParseProperty;
  }

  lemma {:induction false} BlanksAreSpace(s: string)
    requires AfterBlanks(s) != "" && !IsSpace(AfterBlanks(s)[0])
    ensures TrimStart(s) == AfterBlanks(s)
    decreases |s|
  {
    if IsBlank(s[0]) {
      BlanksAreSpace(s[1..]);
    }
  }

  /** A list item without a property before it cannot be scanned. */
  lemma {:induction false} ItemIsNoProperty(text: string)
    requires IsListItem(text)
    ensures !IsGap(text) && ParseProperty(text).None?
  {
    BlanksAreSpace(text);
    TrimStays(AfterBlanks(text));
    assert Trim(text) == TrimEnd(AfterBlanks(text));
    TrimEndKeepsFirst(AfterBlanks(text));
  }

  /** The note after a property was added behind a last line that is not ended: it does not have that property. */
  lemma {:induction false} MergedNote(content: string, l: Layout, before: seq<Piece>, name: string, texts: seq<string>) returns (merged: Layout)
    requires FrontmatterLayout(content) == Found(l) && NoBareCr(FrontmatterOf(content)) && !EndsInLine(FrontmatterOf(content))
    requires Scan(l.lines, {}) == Some(before) && !Has(before, name) && Printed(name, texts)
    ensures SetContent(content, name, texts).Some? && FrontmatterLayout(SetContent(content, name, texts).value) == Found(merged)
    ensures merged == l.(lines := merged.lines)
    ensures JoinLines(merged.lines) == FrontmatterOf(content) + JoinLines(Ended(texts, l.lineEnding))
    ensures var scanned := Scan(merged.lines, {}); scanned.None? || !Has(scanned.value, name)
  {
    var block := Ended(texts, l.lineEnding);
    LayoutEnding(content);
    LayoutParts(content);
    SetIs(content, l, before, name, texts);
    hide FrontmatterLayout, FrontmatterOf, NoBareCr, EndsInLine, Printed, Scan, Flat, Put, Has, SetContent, AllClear, IsOpening, IsClosing,
         JoinLines, Ended, HasCrlf, MergedLines, Clear, StartsLine, BomOf, Assemble, PiecesOk;
    MergedScan(content, before, name, texts, l.lineEnding);
    PrintedIsBlock(name, texts, l.lineEnding);
    MergedAreClear(content, block);
    AddedLines(content, l, before, name, block);
    MergedCrlf(content, l, name, texts);
    MergedLayout(l, MergedLines(content, block));
    merged := l.(lines := MergedLines(content, block));
  }

  lemma {:induction false} MergedLayout(l: Layout, lines: seq<string>)
    requires IsOpening(l.opening) && BomOf(l.opening) == l.bom && IsClosing(l.closing, l.body) && AllClear(lines)
    requires LineEndingFor(Assemble(l.opening, JoinLines(lines), l.closing, l.body)) == l.lineEnding
    ensures FrontmatterLayout(l.opening + JoinLines(lines) + l.closing + l.body) == Found(l.(lines := lines))
  {
    hide FrontmatterLayout, Clear, WellLine, IsOpening, IsClosing, JoinLines, BomOf, Assemble, HasCrlf;
    Assembled(l.opening, JoinLines(lines), l.closing, l.body);
    NoLast(l.closing + l.body);
    EmptyLast(lines, JoinLines(lines));
    AssembledLayout(l.opening, lines, "", l.closing, l.body);
  }

  lemma EmptyLast(lines: seq<string>, joined: string)
    ensures lines + Tail("") == lines && joined + "" == joined
  {
  }

  lemma {:induction false} AddedLines(content: string, l: Layout, before: seq<Piece>, name: string, block: seq<string>)
    requires FrontmatterLayout(content) == Found(l) && NoBareCr(FrontmatterOf(content))
    requires Scan(l.lines, {}) == Some(before) && !Has(before, name)
    ensures JoinLines(Flat(Put(before, name, block))) == FrontmatterOf(content) + JoinLines(block)
  {
    hide FrontmatterLayout, FrontmatterOf, NoBareCr, Scan, Has, JoinLines, Flat, Put, AllClear, LastOk;
    FoundLines(content);
    ScanSound(l.lines, {});
    AbsentIsKept(before, name);
    FlatPush(before, Block(name, block));
    JoinConcat(l.lines, block);
  }

  /** What is added has the line ending of the note. */
  lemma {:induction false} MergedCrlf(content: string, l: Layout, name: string, texts: seq<string>)
    requires FrontmatterLayout(content) == Found(l) && Printed(name, texts)
    ensures var f := FrontmatterOf(content) + JoinLines(Ended(texts, l.lineEnding));
            LineEndingFor(Assemble(l.opening, f, l.closing, l.body)) == l.lineEnding
  {
    var f, block := FrontmatterOf(content), Ended(texts, l.lineEnding);
    LayoutParts(content);
    LayoutEnding(content);
    PrintedIsBlock(name, texts, l.lineEnding);
    PrintedIsClean(name, texts);
    EndedCrlf(texts, l.lineEnding);
    JoinedIsWell(block);
    PrintedStarts(name, texts, l.lineEnding);
    NameStarts(texts[0] + l.lineEnding, texts[0]);
    hide FrontmatterLayout, FrontmatterOf, Printed, HasCrlf, BlockOk, Clear, WellLine, IsOpening, IsClosing, Assemble, Ended, NoBareCr;
    CrlfLines(block);
    BlockStarts(block);
    assert StartsLine(true, f + JoinLines(block)) by { LineStartsNext(JoinLines(block)); StartsAfter(f, JoinLines(block)); }
    CrlfOf(l.opening, f, l.closing, l.body);
    CrlfOf(l.opening, f + JoinLines(block), l.closing, l.body);
    CrlfJoined(f, JoinLines(block));
    assert block[0] in block;
  }

  lemma NameStarts(line: string, text: string)
    requires text != "" && IsNameChar(text[0]) && text <= line
    ensures line != "" && line[0] != '\n'
  {
  }

  lemma BlockStarts(block: seq<string>)
    requires block != [] && block[0] != "" && block[0][0] != '\n'
    ensures JoinLines(block) != "" && JoinLines(block)[0] != '\n'
  {
  }

  /** The last of two sets of one property wins, exactly where the property is added on a line of its own. */
  lemma {:induction false} LastSetWins(content: string, name: string, first: seq<string>, second: seq<string>)
    requires Printed(name, first) && Printed(name, second) && SetContent(content, name, first).Some?
    ensures SetContent(SetContent(content, name, first).value, name, second) == SetContent(content, name, second)
      <==> Settable(Lossless(content), name)
  {
    hide Printed, Scan, Flat, HasCrlf, JoinLines, Ended, Drop, FrontmatterOf;
    if FrontmatterLayout(content).NoFrontmatter? {
      FirstSetThenSet(content, name, first, second);
    } else {
      SetScans(content, name, first);
      var l, c := FrontmatterLayout(content).layout, Lossless(content);
      SeenLossless(content);
      SettableMeans(c, name, Scan(l.lines, {}).value);
      hide FrontmatterLayout, SetContent, Settable, Lossless, Put, NoBareCr, EndsInLine, Has;
      if Settable(c, name) {
        SetTwice(c, name, first, second);
      } else {
        MergedSetAgain(c, l, Scan(l.lines, {}).value, name, first, second);
      }
    }
  }

  lemma {:induction false} SetTwice(content: string, name: string, first: seq<string>, second: seq<string>)
    requires FrontmatterLayout(content).Found? && Scan(FrontmatterLayout(content).layout.lines, {}).Some?
    requires Settable(content, name) && Printed(name, first)
    ensures SetContent(content, name, first).Some?
    ensures SetContent(SetContent(content, name, first).value, name, second) == SetContent(content, name, second)
  {
    var l := FrontmatterLayout(content).layout;
    SettableIsFound(content, name, first);
    hide Settable, Printed, Flat, HasCrlf, Scan, JoinLines, Ended, Drop, FrontmatterLayout;
    PutTwice(Scan(l.lines, {}).value, name, Ended(first, l.lineEnding), Ended(second, l.lineEnding));
  }

  lemma {:induction false} MergedSetAgain(content: string, l: Layout, before: seq<Piece>, name: string, first: seq<string>, second: seq<string>)
    requires FrontmatterLayout(content) == Found(l) && NoBareCr(FrontmatterOf(content)) && !EndsInLine(FrontmatterOf(content))
    requires Scan(l.lines, {}) == Some(before) && !Has(before, name) && Printed(name, first)
    ensures SetContent(content, name, first).Some?
    ensures SetContent(SetContent(content, name, first).value, name, second) != SetContent(content, name, second)
  {
    var block, again := Ended(first, l.lineEnding), Ended(second, l.lineEnding);
    var merged := MergedNote(content, l, before, name, first);
    var after := SetContent(content, name, first).value;
    SetIs(content, l, before, name, second);
    PrintedBlockIsText(name, first, l.lineEnding);
    hide FrontmatterLayout, FrontmatterOf, NoBareCr, EndsInLine, Printed, Scan, Flat, Has, JoinLines, Ended, Put;
    AddedLines(content, l, before, name, again);
    if Scan(merged.lines, {}).Some? {
      var pieces := Scan(merged.lines, {}).value;
      SetIs(after, merged, pieces, name, second);
      hide SetContent;
      ScanSound(merged.lines, {});
      AbsentIsKept(pieces, name);
      FlatPush(pieces, Block(name, again));
      JoinConcat(merged.lines, again);
      assert |JoinLines(Flat(Put(pieces, name, again)))| == |FrontmatterOf(content)| + |JoinLines(block)| + |JoinLines(again)|;
      assert |SetContent(after, name, second).value| > |SetContent(content, name, second).value|;
    } else {
      SetRefused(after, merged, name, second);
    }
  }

  lemma SetRefused(content: string, l: Layout, name: string, texts: seq<string>)
    requires FrontmatterLayout(content) == Found(l) && Scan(l.lines, {}).None?
    ensures SetContent(content, name, texts) == None && RemoveContent(content, name) == Refused
  {
    hide FrontmatterLayout, Scan, JoinLines, Flat, Put, Drop, Ended, Has, Trim;
  }

  lemma PrintedBlockIsText(name: string, texts: seq<string>, ending: string)
    requires Printed(name, texts) && IsEnding(ending)
    ensures JoinLines(Ended(texts, ending)) != ""
  {
    PrintedIsClean(name, texts);
    PrintedStarts(name, texts, ending);
    hide Printed;
  }

  lemma {:induction false} FirstSetThenSet(content: string, name: string, first: seq<string>, second: seq<string>)
    requires FrontmatterLayout(content).NoFrontmatter? && Printed(name, first)
    ensures SetContent(SetContent(content, name, first).value, name, second) == SetContent(content, name, second)
  {
    var ending, bom := LineEndingFor(content), BomOf(content);
    var body := content[|bom|..];
    RescanAfterFirstSet(content, name, first);
    FirstContent(content, name, first);
    FirstContent(content, name, second);
    var block := Ended(second, ending);
    hide FrontmatterLayout, BomOf, Printed, HasCrlf, Scan, JoinLines, Ended;
    Assembled(bom + "---" + ending, JoinLines(block), "---" + ending, body);
    PutAlone(name, Ended(first, ending), block);
  }

  lemma PutAlone(name: string, first: seq<string>, second: seq<string>)
    ensures Flat(Put([Block(name, first)], name, second)) == second
    ensures Drop([Block(name, first)], name) == [] && Has([Block(name, first)], name)
  {
    assert [Block(name, first)][0] in [Block(name, first)];
    assert Put([Block(name, first)], name, second) == [Block(name, second)];
    assert second + [] == second;
  }

  /** Sets of two properties that are both there already commute, whatever the frontmatter. */
  lemma {:induction false} SetsCommute(content: string, a: string, x: seq<string>, b: string, y: seq<string>)
    requires FrontmatterLayout(content).Found? && Printed(a, x) && Printed(b, y) && a != b
    requires Scan(FrontmatterLayout(content).layout.lines, {}).Some?
    requires var pieces := Scan(FrontmatterLayout(content).layout.lines, {}).value; Has(pieces, a) && Has(pieces, b)
    ensures SetContent(content, a, x).Some? && SetContent(content, b, y).Some?
    ensures SetContent(SetContent(content, a, x).value, b, y) == SetContent(SetContent(content, b, y).value, a, x)
  {
    var l, c := FrontmatterLayout(content).layout, Lossless(content);
    var pieces := Scan(l.lines, {}).value;
    SeenLossless(content);
    SettableMeans(c, a, pieces);
    SettableMeans(c, b, pieces);
    hide NoBareCr, FrontmatterOf, Printed, Flat, HasCrlf, Scan, JoinLines, Ended, Drop, Put, Has, FrontmatterLayout, Settable, Lossless, EndsInLine;
    SettableIsFound(c, a, x);
    SettableIsFound(c, b, y);
    PutsCommute(pieces, a, Ended(x, l.lineEnding), b, Ended(y, l.lineEnding));
  }

  lemma RemoveFrom(content: string, l: Layout, pieces: seq<Piece>, name: string)
    requires FrontmatterLayout(content) == Found(l) && Scan(l.lines, {}) == Some(pieces) && Has(pieces, name)
    ensures var f := JoinLines(Flat(Drop(pieces, name)));
            RemoveContent(content, name) == Removed(if Trim(f) == "" then l.bom + l.body else l.opening + f + l.closing + l.body)
  {
    hide FrontmatterLayout, Scan, JoinLines, Flat, Drop, Has, Trim;
  }

  /** Nothing of the note is lost, and after the removal the same markers, body and other pieces are found. */
  ghost predicate RemovalIsFound(content: string, name: string)
    requires FrontmatterLayout(content).Found? && Scan(FrontmatterLayout(content).layout.lines, {}).Some?
  {
    var l := FrontmatterLayout(content).layout;
    var before := Scan(l.lines, {}).value;
    var lines := Flat(Drop(before, name));
    var after := l.opening + JoinLines(lines) + l.closing + l.body;
    && content == l.opening + JoinLines(Flat(before)) + l.closing + l.body
    && RemoveContent(content, name) == Removed(after)
    && FrontmatterLayout(after) == Found(l.(lines := lines, lineEnding := LineEndingFor(after)))
    && Scan(lines, {}) == Some(Drop(before, name)) && !Has(Drop(before, name), name)
  }

  /**
   * Removing a property that is there, where anything but blanks is left, leaves every other piece
   * exactly when the frontmatter has no bare carriage return.
   */
  lemma {:induction false} RescanAfterRemove(content: string, l: Layout, before: seq<Piece>, name: string)
    requires FrontmatterLayout(content) == Found(l) && Scan(l.lines, {}) == Some(before) && Has(before, name)
    requires Trim(JoinLines(Flat(Drop(before, name)))) != ""
    ensures RemovalIsFound(content, name) <==> NoBareCr(FrontmatterOf(content))
  {
    hide FrontmatterLayout, FrontmatterOf, NoBareCr, Flat, Drop, Has, Scan, Trim, JoinLines, RemoveContent;
    if RemovalIsFound(content, name) {
      LossShows(content, before);
    } else if NoBareCr(FrontmatterOf(content)) {
      LosslessRemoval(content, l, before, name);
    }
  }

  lemma {:induction false} LosslessRemoval(content: string, l: Layout, before: seq<Piece>, name: string)
    requires FrontmatterLayout(content) == Found(l) && Scan(l.lines, {}) == Some(before) && Has(before, name)
    requires Trim(JoinLines(Flat(Drop(before, name)))) != "" && NoBareCr(FrontmatterOf(content))
    ensures RemovalIsFound(content, name)
  {
    hide FrontmatterLayout, FrontmatterOf, NoBareCr, Flat, Drop, Has, HasCrlf, Clear, WellLine, BlockOk, Scan, PiecesOk, Trim, JoinLines,
         RemoveContent, FirstsOf, LastOf, Tail;
    RemoveFrom(content, l, before, name);
    ScanSound(l.lines, {});
    DropOk(before, name, {});
    ScanComplete(Drop(before, name), {});
    PutKeepsOthers(before, name, [], {});
    var firsts := DropLinesBefore(content, before, name);
    FoundLines(content);
    DropLines(firsts, name);
    Exchanged(content, Flat(Drop(firsts, name)));
  }

  lemma {:induction false} DropLinesBefore(content: string, before: seq<Piece>, name: string) returns (firsts: seq<Piece>)
    requires FrontmatterLayout(content).Found? && NoBareCr(FrontmatterOf(content))
    requires Scan(FrontmatterLayout(content).layout.lines, {}) == Some(before) && Has(before, name)
    ensures Flat(firsts) == FirstsOf(content)
    ensures Flat(Drop(before, name)) == Flat(Drop(firsts, name)) + Tail(LastOf(content))
  {
    firsts := PiecesTail(content, before);
    hide FrontmatterLayout, FrontmatterOf, NoBareCr, Scan, Flat, FirstsOf, Drop, Has, TailPieces;
    DropBefore(firsts, LastOf(content), name);
    FlatConcat(Drop(firsts, name), TailPieces(LastOf(content)));
    TailFlat(LastOf(content));
  }

  /**
   * Setting a property that was not there and removing it again restores the note exactly when it
   * had no frontmatter, or one that the property is found in again and that held some text.
   */
  lemma {:induction false} SetThenRemove(content: string, name: string, texts: seq<string>)
    requires Printed(name, texts) && SetContent(content, name, texts).Some?
    requires FrontmatterLayout(content).Found? && Scan(FrontmatterLayout(content).layout.lines, {}).Some? ==>
      !Has(Scan(FrontmatterLayout(content).layout.lines, {}).value, name)
    ensures RemoveContent(SetContent(content, name, texts).value, name) == Removed(content)
      <==> FrontmatterLayout(content).NoFrontmatter? || (Settable(content, name) && Trim(FrontmatterOf(content)) != "")
  {
    hide Settable, Printed, Flat, HasCrlf, Scan, JoinLines, Ended, Drop, Put, Has, Trim, FrontmatterOf;
    if FrontmatterLayout(content).NoFrontmatter? {
      FirstSetThenRemove(content, name, texts);
    } else {
      SetScans(content, name, texts);
      var l := FrontmatterLayout(content).layout;
      AddedOrMerged(content, l, Scan(l.lines, {}).value, name, texts);
    }
  }

  lemma {:induction false} AddedOrMerged(content: string, l: Layout, before: seq<Piece>, name: string, texts: seq<string>)
    requires FrontmatterLayout(content) == Found(l) && Scan(l.lines, {}) == Some(before) && !Has(before, name) && Printed(name, texts)
    ensures SetContent(content, name, texts).Some?
    ensures RemoveContent(SetContent(content, name, texts).value, name) == Removed(content)
      <==> Settable(content, name) && Trim(FrontmatterOf(content)) != ""
  {
    var c := Lossless(content);
    SeenLossless(content);
    SettableMeans(content, name, before);
    SettableMeans(c, name, before);
    LayoutParts(content);
    Assembled(l.opening, FrontmatterOf(content), l.closing, l.body);
    Shorter(l.bom, l.opening, FrontmatterOf(content), l.closing, l.body);
    hide FrontmatterLayout, FrontmatterOf, NoBareCr, EndsInLine, Settable, Lossless, Printed, Scan, SetContent, RemoveContent, Has, Trim, Clear,
         StartsLine, IsOpening, IsClosing, BomOf, Assemble, HasCrlf;
    if Settable(c, name) {
      AddedThenRemoved(c, l, before, name, texts);
    } else {
      var merged := MergedNote(c, l, before, name, texts);
      NotRemoved(SetContent(c, name, texts).value, merged, name);
    }
  }

  lemma NotRemoved(content: string, l: Layout, name: string)
    requires FrontmatterLayout(content) == Found(l)
    requires var scanned := Scan(l.lines, {}); scanned.None? || !Has(scanned.value, name)
    ensures !RemoveContent(content, name).Removed?
  {
    hide FrontmatterLayout, Scan, JoinLines, Flat, Drop, Has, Trim;
  }

  lemma {:induction false} FirstSetThenRemove(content: string, name: string, texts: seq<string>)
    requires FrontmatterLayout(content).NoFrontmatter? && Printed(name, texts)
    ensures RemoveContent(SetContent(content, name, texts).value, name) == Removed(content)
  {
    var ending, bom := LineEndingFor(content), BomOf(content);
    RescanAfterFirstSet(content, name, texts);
    hide FrontmatterLayout, BomOf, Printed, HasCrlf, Scan, Ended, SetContent;
    PutAlone(name, Ended(texts, ending), []);
    assert Trim(JoinLines(Flat([]))) == "";
  }

  lemma {:induction false} AddedThenRemoved(content: string, l: Layout, before: seq<Piece>, name: string, texts: seq<string>)
    requires FrontmatterLayout(content) == Found(l) && Settable(content, name) && Printed(name, texts)
    requires Scan(l.lines, {}) == Some(before) && !Has(before, name)
    ensures SetContent(content, name, texts).Some?
    ensures RemoveContent(SetContent(content, name, texts).value, name)
         == Removed(if Trim(FrontmatterOf(content)) == "" then l.bom + l.body else content)
  {
    SetIs(content, l, before, name, texts);
    hide Settable, Printed, Flat, HasCrlf, Scan, JoinLines, Ended, Drop, Put, Trim, IsOpening, IsClosing, RemoveContent,
         FrontmatterLayout, SetContent, FrontmatterOf, Assemble, BomOf, Clear;
    var pieces := AddedScans(content, l, before, name, texts);
    RemoveFrom(SetContent(content, name, texts).value, l.(lines := Flat(pieces)), pieces, name);
    SettableLines(content, name, before);
    LayoutParts(content);
    Assembled(l.opening, FrontmatterOf(content), l.closing, l.body);
  }

  lemma SettableLines(content: string, name: string, before: seq<Piece>)
    requires FrontmatterLayout(content).Found? && Settable(content, name)
    requires Scan(FrontmatterLayout(content).layout.lines, {}) == Some(before)
    ensures JoinLines(FrontmatterLayout(content).layout.lines) == FrontmatterOf(content)
  {
    FoundLines(content);
  }

  lemma {:induction false} AddedScans(content: string, l: Layout, before: seq<Piece>, name: string, texts: seq<string>) returns (pieces: seq<Piece>)
    requires FrontmatterLayout(content) == Found(l) && Settable(content, name) && Printed(name, texts)
    requires Scan(l.lines, {}) == Some(before) && !Has(before, name) && SetContent(content, name, texts).Some?
    ensures FrontmatterLayout(SetContent(content, name, texts).value) == Found(l.(lines := Flat(pieces)))
    ensures Scan(Flat(pieces), {}) == Some(pieces) && Has(pieces, name) && Drop(pieces, name) == before && Flat(before) == l.lines
  {
    hide Settable, Printed, Flat, HasCrlf, Scan, Ended, Drop, Put, FrontmatterLayout, SetContent;
    pieces := Put(before, name, Ended(texts, l.lineEnding));
    SettableIsFound(content, name, texts);
    assert IsBlockOf(Block(name, Ended(texts, l.lineEnding)), name);
    ScanSound(l.lines, {});
    AbsentIsKept(before, name);
  }

  lemma SetScans(content: string, name: string, texts: seq<string>)
    requires FrontmatterLayout(content).Found? && SetContent(content, name, texts).Some?
    ensures Scan(FrontmatterLayout(content).layout.lines, {}).Some?
  {
    hide FrontmatterLayout, Scan;
  }

  lemma {:induction false} Shorter(bom: string, opening: string, f: string, closing: string, body: string)
    requires IsOpening(opening) && bom == BomOf(opening)
    ensures bom + body != opening + f + closing + body
  {
    var b: string, blanks: string, ending: string :|
      opening == OpeningOf(b, blanks, ending) && (b == "" || b == [BOM]) && AllBlank(blanks) && IsEnding(ending);
    assert |opening| > |bom|;
    assert |bom + body| < |opening + f + closing + body|;
  }

  // ---------- which values can be read back ----------

  /** What is printed between quotes. */
  function Quoted(raw: string, kind: PropertyType, host: Host): seq<string> {
    match kind
    case Text => [raw]
    case List => var items := ParseListValue(raw, host); if items.None? then [] else items.value
    case _ => []
  }

  ghost predicate NumbersOk(host: Host) {
    forall s :: host.printNumber(s).Some? ==>
      host.printNumber(s).value != "" && forall c :: c in host.printNumber(s).value ==> IsDigit(c) || c == '-' || c == '+' || c == '.' || c == 'e'
  }

  lemma {:induction false} QuoteShape(s: string)
    ensures Clean(Quote(s)) && Quote(s) != "" && Quote(s)[0] == '\"'
  {
    QuoteCharsClean(s);
  }

  lemma {:induction false} QuoteCharsClean(s: string)
    ensures Clean(QuoteChars(s))
    decreases |s|
  {
    if s != "" {
      QuoteCharClean(s[0]);
      hide QuoteChar;
      QuoteCharsClean(s[1..]);
    }
  }

  lemma QuoteCharClean(c: char)
    ensures Clean(QuoteChar(c))
  {
    QuoteCharOneLine(c);
    if IsSeparator(c) {
      assert QuoteChar(c) == [c];
    } else {
      OneLineIsClean(QuoteChar(c));
    }
  }

  lemma DateIsScalar(s: string)
    requires IsCalendarDate(s)
    ensures ScalarOk(s)
  {
    DigitsAreScalar(s[..4]);
    DigitsAreScalar(s[5..7]);
    DigitsAreScalar(s[8..]);
    assert s == s[..4] + "-" + s[5..7] + "-" + s[8..] by { hide AllDigits; DateShape(s); }
    OneLineConcat(s[..4] + "-" + s[5..7] + "-", s[8..]);
    OneLineConcat(s[..4] + "-" + s[5..7], "-");
    OneLineConcat(s[..4] + "-", s[5..7]);
    OneLineConcat(s[..4], "-");
    assert s[..4][0] == s[0];
    hide Decimals.Value;
  }

  lemma DateShape(s: string)
    requires |s| == 10 && s[4] == '-' && s[7] == '-'
    ensures s == s[..4] + "-" + s[5..7] + "-" + s[8..]
  {
  }

  lemma DigitsAreScalar(s: string)
    requires AllDigits(s)
    ensures ScalarOk(s)
  {
    assert s[0] in s;
  }

  lemma DateTimeIsScalar(s: string)
    requires IsDateTime(s)
    ensures ScalarOk(s)
  {
    DateIsScalar(s[..10]);
    DigitsAreScalar(s[11..13]);
    DigitsAreScalar(s[14..16]);
    DigitsAreScalar(s[17..]);
    hide IsCalendarDate, AllDigits, Decimals.Value;
    TimeShape(s);
    OneLineConcat(s[..10] + "T" + s[11..13] + ":" + s[14..16] + ":", s[17..]);
    OneLineConcat(s[..10] + "T" + s[11..13] + ":" + s[14..16], ":");
    OneLineConcat(s[..10] + "T" + s[11..13] + ":", s[14..16]);
    OneLineConcat(s[..10] + "T" + s[11..13], ":");
    OneLineConcat(s[..10] + "T", s[11..13]);
    OneLineConcat(s[..10], "T");
    assert s[..10][0] == s[0];
  }

  lemma TimeShape(s: string)
    requires |s| == 19 && s[10] == 'T' && s[13] == ':' && s[16] == ':'
    ensures s == s[..10] + "T" + s[11..13] + ":" + s[14..16] + ":" + s[17..]
  {
  }

  lemma {:induction false} SerializedScalar(name: string, value: string)
    requires IsName(name) && ScalarOk(value)
    ensures Printed(name, [name + ": " + value])
  {
  }

  /** No quoted value holds a line or paragraph separator. */
  ghost predicate Readable(raw: string, kind: PropertyType, host: Host) {
    forall value :: value in Quoted(raw, kind, host) ==> NoSeparator(value)
  }

  lemma {:induction false} ReadableIsPrinted(name: string, raw: string, kind: PropertyType, host: Host)
    requires SerializeProperty(name, raw, kind, host).Some? && NumbersOk(host) && Readable(raw, kind, host)
    ensures Printed(name, SerializeProperty(name, raw, kind, host).value)
  {
    hide ScalarOk, Printed, IsNumberLiteral, IsCalendarDate, IsDateTime, Trim, Lower, ParseListValue, Quote, IsSingleLine;
    match kind {
      case Text =>
        assert raw in Quoted(raw, kind, host);
        QuotedScalar(raw);
        SerializedScalar(name, Quote(raw));
      case List =>
        var items := ParseListValue(raw, host).value;
        assert Quoted(raw, kind, host) == items;
        if items == [] {
          PlainScalars();
          SerializedScalar(name, "[]");
          assert name + ": " + "[]" == name + ": []";
        } else {
          SerializedList(name, items);
        }
      case Number =>
        NumberScalar(host, Trim(raw));
        SerializedScalar(name, host.printNumber(Trim(raw)).value);
      case Checkbox => PlainScalars(); SerializedScalar(name, Lower(Trim(raw)));
      case Date => DateIsScalar(Trim(raw)); SerializedScalar(name, Trim(raw));
      case Datetime => DateTimeIsScalar(Trim(raw)); SerializedScalar(name, Trim(raw));
    }
  }

  lemma QuotedScalar(s: string)
    requires NoSeparator(s)
    ensures ScalarOk(Quote(s))
  {
    QuoteOneLine(s);
    QuoteShape(s);
    hide Quote;
  }

  lemma PlainScalars()
    ensures ScalarOk("[]") && ScalarOk("true") && ScalarOk("false")
  {
  }

  lemma NumberScalar(host: Host, s: string)
    requires NumbersOk(host) && host.printNumber(s).Some?
    ensures ScalarOk(host.printNumber(s).value)
  {
    var value := host.printNumber(s).value;
    assert value[0] in value;
  }

  lemma {:induction false} SerializedList(name: string, items: seq<string>)
    requires IsName(name) && items != [] && forall item :: item in items ==> NoSeparator(item)
    ensures Printed(name, [name + ":"] + ItemLines(items))
  {
    hide Quote, ItemLines, IsName;
    forall item | item in items ensures OneLine(Quote(item)) {
      QuoteOneLine(item);
    }
  }

  lemma {:induction false} SeparatorInText(name: string, raw: string, ending: string)
    requires IsName(name) && !NoSeparator(raw) && IsEnding(ending)
    ensures Scan(Ended([name + ": " + Quote(raw)], ending), {}) == None
  {
    var q := Quote(raw);
    var tail := " " + q;
    var text := name + ":" + tail;
    BlankMoves(name, q);
    EndedOne(name + ": " + q, ending);
    QuoteOneLine(raw);
    QuoteShape(raw);
    OneLineConcat(" ", q);
    hide Quote, Ended;
    assert text == name + (":" + tail) && text[0] == name[0] && name[0] in name;
    NameLengthOf(name, ":" + tail);
    assert text[|name| + 1..] == tail;
    NotBlankText(text);
    NameIsClean(name);
    assert Clean(text);
    TextOfLine(text, ending);
    hide NameLength, Trim, TrimStart, TextOf;
  }

  lemma {:induction false} ItemsContinue(items: seq<string>, ending: string)
    requires IsEnding(ending)
    ensures |Ended(ItemLines(items), ending)| == |items| && Continuations(Ended(ItemLines(items), ending)) == |items|
    ensures AllItems(Ended(ItemLines(items), ending)) ==> forall item :: item in items ==> NoSeparator(item)
    decreases |items|
  {
    if items != [] {
      var text, lines := "  - " + Quote(items[0]), Ended(ItemLines(items), ending);
      ConsRest("  - " + Quote(items[0]), ItemLines(items[1..]));
      ConsRest(text + ending, Ended(ItemLines(items[1..]), ending));
      assert lines == [text + ending] + Ended(ItemLines(items[1..]), ending);
      ItemText(items[0], ending);
      ItemsContinue(items[1..], ending);
      hide Quote, TextOf, IsListItem;
      if AllItems(lines) {
        assert lines[0] in lines;
        assert forall line :: line in lines[1..] ==> line in lines;
      }
    }
  }

  lemma {:induction false} ItemText(item: string, ending: string)
    requires IsEnding(ending)
    ensures var text := "  - " + Quote(item);
            && TextOf(text + ending) == text && IsContinuation(text) && (IsListItem(text) ==> NoSeparator(item))
  {
    var q := Quote(item);
    QuoteShape(item);
    QuoteOneLine(item);
    ItemShape(q);
    BlanksSkipped("  ", "- " + q);
    TextOfLine("  - " + q, ending);
    hide Quote, AfterBlanks, TextOf;
  }

  lemma {:induction false} SeparatorInList(name: string, items: seq<string>, ending: string)
    requires IsName(name) && IsEnding(ending) && exists item :: item in items && !NoSeparator(item)
    ensures Scan(Ended([name + ":"] + ItemLines(items), ending), {}) == None
  {
    var rest := Ended(ItemLines(items), ending);
    assert name + ":" + "" == name + ":";
    PropertyLine(name, "");
    PropertyLineIsClear(name, "", ending);
    ItemsContinue(items, ending);
    hide Quote, ItemLines, TextOf, IsGap, ParseProperty, IsContinuation, Continuations, AllItems, NoSeparator, Clear, WellLine, Trim, IsName;
    ConsRest(name + ":", ItemLines(items));
    HeadEnded(name + ":", ItemLines(items), ending);
    hide Ended, Scan;
    BadItemsRefused(name + ":" + ending, rest);
  }

  lemma HeadEnded(text: string, texts: seq<string>, ending: string)
    ensures Ended([text] + texts, ending) == [text + ending] + Ended(texts, ending)
  {
    assert ([text] + texts)[1..] == texts;
  }

  lemma {:induction false} BadItemsRefused(first: string, rest: seq<string>)
    requires !IsGap(TextOf(first)) && ParseProperty(TextOf(first)).Some? && rest != []
    requires Continuations(rest) == |rest| && !AllItems(rest)
    ensures Scan([first] + rest, {}) == None
  {
    hide TextOf, IsGap, ParseProperty, IsContinuation, Continuations, AllItems;
    BlockCut([first], rest);
    assert ([first] + rest)[1..|rest| + 1] == rest;
  }

  /**
   * A printed property is read again as one block, or its frontmatter is refused, depending only on
   * whether a quoted value holds a separator.
   */
  lemma {:induction false} SerializedIsPrinted(name: string, raw: string, kind: PropertyType, host: Host, ending: string)
    requires SerializeProperty(name, raw, kind, host).Some? && NumbersOk(host) && IsEnding(ending)
    ensures var texts := SerializeProperty(name, raw, kind, host).value;
            var block := Ended(texts, ending);
            && (Printed(name, texts) <==> Readable(raw, kind, host))
            && Scan(block, {}) == if Readable(raw, kind, host) then Some([Block(name, block)]) else None
  {
    var texts := SerializeProperty(name, raw, kind, host).value;
    var block := Ended(texts, ending);
    if Readable(raw, kind, host) {
      ReadableIsPrinted(name, raw, kind, host);
    } else {
      UnreadableIsRefused(name, raw, kind, host, ending);
    }
    hide SerializeProperty, Printed, Readable, Scan, Ended, BlockOk, AllClear;
    if Printed(name, texts) {
      PrintedIsBlock(name, texts, ending);
      OneBlock(name, block);
    }
  }

  lemma {:induction false} UnreadableIsRefused(name: string, raw: string, kind: PropertyType, host: Host, ending: string)
    requires SerializeProperty(name, raw, kind, host).Some? && IsEnding(ending) && !Readable(raw, kind, host)
    ensures Scan(Ended(SerializeProperty(name, raw, kind, host).value, ending), {}) == None
  {
    hide Quote, ParseListValue, Scan, Ended, NoSeparator, IsSingleLine, ItemLines;
    var value :| value in Quoted(raw, kind, host) && !NoSeparator(value);
    if kind.Text? {
      SeparatorInText(name, raw, ending);
    } else {
      SeparatorInList(name, ParseListValue(raw, host).value, ending);
    }
  }

  lemma {:induction false} BlocksAreOk(pieces: seq<Piece>, seen: set<string>, name: string, lines: seq<string>)
    requires PiecesOk(pieces, seen) && Block(name, lines) in pieces
    ensures BlockOk(name, lines)
    decreases |pieces|
  {
    hide BlockOk, IsGap, StartsFlush;
    if pieces[0] != Block(name, lines) {
      BlocksAreOk(pieces[1..], if pieces[0].Block? then seen + {pieces[0].name} else seen, name, lines);
    }
  }

  /**
   * Setting any accepted value in a frontmatter: the property is found again, and everything else as
   * it was, exactly when the frontmatter can take it and no quoted value holds a separator.
   */
  lemma {:induction false} SetIsReadBack(content: string, name: string, raw: string, kind: PropertyType, host: Host)
    requires SerializeProperty(name, raw, kind, host).Some? && NumbersOk(host)
    requires FrontmatterLayout(content).Found? && Scan(FrontmatterLayout(content).layout.lines, {}).Some?
    ensures SetIsFound(content, name, SerializeProperty(name, raw, kind, host).value)
      <==> Settable(content, name) && Readable(raw, kind, host)
  {
    var texts, l := SerializeProperty(name, raw, kind, host).value, FrontmatterLayout(content).layout;
    var before := Scan(l.lines, {}).value;
    var block := Ended(texts, l.lineEnding);
    LayoutEnding(content);
    SerializedIsPrinted(name, raw, kind, host, l.lineEnding);
    SettableMeans(content, name, before);
    hide SerializeProperty, Printed, Readable, Scan, Ended, FrontmatterLayout, Settable, FrontmatterOf, Put, Flat, BlockOk, JoinLines, Has,
         NoBareCr, EndsInLine, PiecesOk, HasCrlf;
    if Readable(raw, kind, host) {
      RescanAfterSet(content, name, texts);
    } else if SetIsFound(content, name, texts) {
      var pieces := Put(before, name, block);
      ScanSound(Flat(pieces), {});
      BlocksAreOk(pieces, {}, name, block);
      OneBlock(name, block);
      assert false;
    }
  }

  /** The same for a note without frontmatter, which takes every value that can be read again. */
  lemma {:induction false} FirstSetIsReadBack(content: string, name: string, raw: string, kind: PropertyType, host: Host)
    requires SerializeProperty(name, raw, kind, host).Some? && NumbersOk(host) && FrontmatterLayout(content).NoFrontmatter?
    ensures var ending, bom := LineEndingFor(content), BomOf(content);
            var texts := SerializeProperty(name, raw, kind, host).value;
            var block, after := Ended(texts, ending), SetContent(content, name, texts).value;
            && SetContent(content, name, texts).Some?
            && ((FrontmatterLayout(after) == Found(Layout(bom, bom + "---" + ending, block, "---" + ending, content[|bom|..], ending))
                 && Scan(block, {}) == Some([Block(name, block)]))
                <==> Readable(raw, kind, host))
  {
    var texts, ending := SerializeProperty(name, raw, kind, host).value, LineEndingFor(content);
    SerializedIsPrinted(name, raw, kind, host, ending);
    FirstContent(content, name, texts);
    hide SerializeProperty, Printed, Readable, Scan, Ended, FrontmatterLayout, HasCrlf, BomOf, SetContent, Assemble;
    if Readable(raw, kind, host) {
      RescanAfterFirstSet(content, name, texts);
    }
  }

  lemma SettableMeans(content: string, name: string, before: seq<Piece>)
    requires FrontmatterLayout(content).Found? && Scan(FrontmatterLayout(content).layout.lines, {}) == Some(before)
    ensures Settable(content, name) <==>
      NoBareCr(FrontmatterOf(content)) && (EndsInLine(FrontmatterOf(content)) || Has(before, name))
  {
    hide FrontmatterLayout, FrontmatterOf, NoBareCr, Scan, Has;
  }

  lemma NameIsClean(name: string)
    requires IsName(name)
    ensures Clean(name)
  {
    assert !IsNameChar('\r') && !IsNameChar('\n');
  }

  // ---------- notes that a set does not leave as they were ----------

  lemma UnendedText(text: string)
    requires Clean(text)
    ensures TextOf(text) == text
  {
    if text != "" { assert text[|text| - 1] in text; }
  }

  lemma CommentIsGap(text: string)
    requires StartsWith(text, "#")
    ensures IsGap(text)
  {
    assert text[0] == '#' && TrimStart(text) == text;
  }

  lemma GapAlone(line: string)
    requires IsGap(TextOf(line))
    ensures Scan([line], {}) == Some([Gap(line)])
  {
    hide IsGap, TextOf;
    assert [line][1..] == [] && Scan([line][1..], {}) == Some([]);
    assert [Gap(line)] + [] == [Gap(line)];
  }

  lemma {:induction false} ClearText(text: string, end: string, after: string)
    requires OneLine(text) && |end| == 1
    ensures Clear(false, text + end, after)
    decreases |text|
  {
    if text == "" {
      assert text + end == end && end[1..] == "";
    } else {
      assert text[0] in text && (text + end)[1..] == text[1..] + end && (text + end)[0] == text[0];
      ClearText(text[1..], end, after);
    }
  }

  /** A comment that one character other than a line feed ends. */
  lemma {:induction false} CommentIsClear(text: string, end: char, after: string)
    requires OneLine(text) && IsTerminator(end)
    ensures var line := "#" + text + [end];
            Clear(true, line, after) && StartsLine(true, line) && (!Clean([end]) || Clean(line))
  {
    var line := "#" + text + [end];
    OneLineIsClean(text);
    ClearText(text, [end], after);
    assert line[1..] == text + [end] && line[0] == '#' && line[|line| - 1] == end;
    assert (line + after)[0] == '#';
    assert !StartsMarker(line + after);
  }

  /** The note whose frontmatter is `f` between two plain markers. */
  function NoteWith(f: string, body: string): string {
    Assemble("---\n", f, "---\n", body)
  }

  lemma PlainMarkers(body: string)
    ensures IsOpening("---\n") && BomOf("---\n") == "" && IsClosing("---\n", body)
  {
    hide IsOpening, BomOf, ClosingRest;
    MarkerLines("", "\n", body);
    PlainMarker();
  }

  lemma PlainMarker()
    ensures "" + "---" + "\n" == "---\n" && "---" + "\n" == "---\n"
  {
  }

  /**
   * A last comment that ends in a separator instead of a line feed: whatever property is set, it
   * becomes part of the comment, and the note has no property of that name.
   */
  lemma {:induction false} CommentSwallows(text: string, separator: char, name: string, value: string, body: string)
    requires OneLine(text) && IsSeparator(separator) && IsName(name) && ScalarOk(value)
    ensures var comment := "#" + text + [separator];
            var note := NoteWith(comment, body);
            var line := comment + (name + ": " + value + LineEndingFor(note));
            && FrontmatterLayout(note).Found? && Scan(FrontmatterLayout(note).layout.lines, {}) == Some([Gap(comment)])
            && SetContent(note, name, [name + ": " + value]) == Some(NoteWith(line, body))
            && FrontmatterLayout(NoteWith(line, body)).Found?
            && Scan(FrontmatterLayout(NoteWith(line, body)).layout.lines, {}) == Some([Gap(line)])
  {
    var comment := "#" + text + [separator];
    var note := NoteWith(comment, body);
    var ending := LineEndingFor(note);
    var added := name + ": " + value + ending;
    SwallowingNote(text, separator, body);
    SwallowedLine(text, separator, name, value, ending, body);
    hide FrontmatterLayout, Scan, ScalarOk, IsName, OneLine, HasCrlf, NoteWith, Put;
    var l := FrontmatterLayout(note).layout;
    LayoutEnding(note);
    SetIs(note, l, [Gap(comment)], name, [name + ": " + value]);
    EndedOne(name + ": " + value, ending);
    PutAfterGap(comment, name, [added]);
    JoinTwo(comment, added);
    hide JoinLines, Flat, Ended;
    NoteAssembled(comment + added, body);
  }

  lemma NoteAssembled(f: string, body: string)
    ensures "---\n" + f + "---\n" + body == NoteWith(f, body)
  {
    Assembled("---\n", f, "---\n", body);
    hide Assemble;
  }

  lemma {:induction false} NoteLayout(lines: seq<string>, last: string, body: string)
    requires AllClear(lines) && LastOk(last, "---\n" + body)
    ensures var note := NoteWith(JoinLines(lines) + last, body);
            FrontmatterLayout(note) == Found(Layout("", "---\n", lines + Tail(last), "---\n", body, LineEndingFor(note)))
  {
    hide FrontmatterLayout, Clear, IsOpening, IsClosing, BomOf, HasCrlf, Assemble, LastOk, WellLine, JoinLines, Tail;
    PlainMarkers(body);
    AssembledLayout("---\n", lines, last, "---\n", body);
  }

  lemma JustOne(line: string)
    ensures JoinLines([]) + line == line && JoinLines([line]) + "" == line
    ensures line != "" ==> [] + Tail(line) == [line] && [line] + Tail("") == [line]
  {
    assert [line][1..] == [] && JoinLines([line]) == line + JoinLines([]);
  }

  lemma {:induction false} SwallowingNote(text: string, separator: char, body: string)
    requires OneLine(text) && IsSeparator(separator)
    ensures var comment := "#" + text + [separator];
            var note := NoteWith(comment, body);
            && FrontmatterLayout(note) == Found(Layout("", "---\n", [comment], "---\n", body, LineEndingFor(note)))
            && Scan([comment], {}) == Some([Gap(comment)])
  {
    var comment := "#" + text + [separator];
    CommentIsClear(text, separator, "---\n" + body);
    UnendedText(comment);
    CommentIsGap(comment);
    GapAlone(comment);
    JustOne(comment);
    assert comment != "" && Clean([separator]);
    hide FrontmatterLayout, Clear, HasCrlf, Scan, IsGap, NoteWith, OneLine, StartsLine, JoinLines, Tail, TextOf;
    NoteLayout([], comment, body);
  }

  lemma {:induction false} SwallowedLine(text: string, separator: char, name: string, value: string, ending: string, body: string)
    requires OneLine(text) && IsSeparator(separator) && IsName(name) && ScalarOk(value) && IsEnding(ending)
    ensures var line := "#" + text + [separator] + (name + ": " + value + ending);
            var note := NoteWith(line, body);
            && FrontmatterLayout(note) == Found(Layout("", "---\n", [line], "---\n", body, LineEndingFor(note)))
            && Scan([line], {}) == Some([Gap(line)])
  {
    var comment, printed := "#" + text + [separator], name + ": " + value;
    var line := comment + (printed + ending);
    hide FrontmatterLayout, Clear, HasCrlf, IsGap, NoteWith, OneLine, WellLine, JoinLines, Tail, TextOf, LastOk, ScalarOk, IsName, Scan, StartsWith,
         IsSeparator;
    NoLast("---\n" + body);
    LineAfterComment(text, separator, name, value, ending);
    CommentIsGap(comment + printed);
    GapAlone(line);
    JustOne(line);
    assert line != "";
    NoteLayout([line], "", body);
  }

  lemma {:induction false} LineAfterComment(text: string, separator: char, name: string, value: string, ending: string)
    requires OneLine(text) && IsSeparator(separator) && IsName(name) && ScalarOk(value) && IsEnding(ending)
    ensures var comment, printed := "#" + text + [separator], name + ": " + value;
            var line := comment + (printed + ending);
            TextOf(line) == comment + printed && WellLine(line) && Clear(true, line, "") && StartsWith(comment + printed, "#")
  {
    var comment, printed := "#" + text + [separator], name + ": " + value;
    var added := printed + ending;
    BlankMoves(name, value);
    ScalarIsNoBlockScalar(value);
    PropertyLine(name, " " + value);
    PropertyLineIsClear(name, " " + value, ending);
    OneLineIsClean(printed);
    CommentIsClear(text, separator, added + "");
    Associative(comment, printed, ending);
    TextOfLine(comment + printed, ending);
    ClearConcat(true, comment, added, "");
    assert comment[0] == '#';
    hide Clear, WellLine, TextOf, ParseProperty, IsGap, OneLine;
  }

  lemma PutAfterGap(comment: string, name: string, lines: seq<string>)
    ensures Flat(Put([Gap(comment)], name, lines)) == [comment] + lines
  {
    assert [Gap(comment)][1..] == [];
    assert Put([], name, lines) == [Block(name, lines)] && [Block(name, lines)][1..] == [] && lines + [] == lines;
    ConsRest(Gap(comment), [Block(name, lines)]);
    FlatCons(Gap(comment), [Block(name, lines)]);
  }

  lemma JoinTwo(a: string, b: string)
    ensures JoinLines([a] + [b]) == a + b
  {
    assert [a] + [b] == [a, b] && [a, b][1..] == [b] && [b][1..] == [] && b + "" == b;
    assert JoinLines([b]) == b + JoinLines([]);
  }

  /** A comment before a bare carriage return is gone once a property of the same frontmatter is set. */
  lemma {:induction false} BareCrLoses(text: string, name: string, old_: string, texts: seq<string>, body: string)
    requires OneLine(text) && IsName(name) && ScalarOk(old_)
    ensures var note := NoteWith("#" + text + "\r" + (name + ": " + old_ + "\n"), body);
            && FrontmatterLayout(note).Found?
            && SetContent(note, name, texts) == Some(NoteWith(JoinLines(Ended(texts, LineEndingFor(note))), body))
  {
    var line := name + ": " + old_ + "\n";
    var f := "#" + text + "\r" + line;
    var note := NoteWith(f, body);
    LosingNote(text, name, old_, body);
    BlankMoves(name, old_);
    OldBlock(name, old_);
    LayoutEnding(note);
    hide FrontmatterLayout, Scan, ScalarOk, IsName, OneLine, HasCrlf, NoteWith, BlockOk;
    OneBlock(name, [line]);
    SetIs(note, FrontmatterLayout(note).layout, [Block(name, [line])], name, texts);
    PutAlone(name, [line], Ended(texts, LineEndingFor(note)));
    hide JoinLines, Flat, Ended, Put;
    NoteAssembled(JoinLines(Ended(texts, LineEndingFor(note))), body);
  }

  lemma OldBlock(name: string, value: string)
    requires IsName(name) && ScalarOk(value)
    ensures BlockOk(name, [name + ": " + value + "\n"])
  {
    ScalarBlock(name, value, "\n");
    EndedOne(name + ": " + value, "\n");
    hide BlockOk, Ended;
  }

  lemma {:induction false} LosingNote(text: string, name: string, value: string, body: string)
    requires OneLine(text) && IsName(name) && ScalarOk(value)
    ensures var line := name + ": " + value + "\n";
            var note := NoteWith("#" + text + "\r" + line, body);
            FrontmatterLayout(note) == Found(Layout("", "---\n", [line], "---\n", body, LineEndingFor(note)))
  {
    var comment, line := "#" + text + "\r", name + ": " + value + "\n";
    var f, after := comment + line, "---\n" + body;
    PlainMarkers(body);
    BlankMoves(name, value);
    ScalarIsNoBlockScalar(value);
    PropertyLine(name, " " + value);
    PropertyLineIsClear(name, " " + value, "\n");
    CommentIsClear(text, '\r', line + after);
    ClearWithin(true, line, after);
    ClearConcat(true, comment, line, after);
    SplitLosing(text, name + ": " + value);
    assert f[|f| - 1] == '\n';
    hide Clear, WellLine, ParseProperty, IsGap, OneLine, IsOpening, IsClosing, OpeningRest, CutFrontmatter, BomOf, HasCrlf, TextOf, SplitFrom;
    CutReads(f, "---\n", body);
    OpeningReads("---\n", f + after);
    TakeHead("---\n", f + after);
  }

  lemma {:induction false} SplitLosing(text: string, printed: string)
    requires OneLine(text) && OneLine(printed) && printed != ""
    ensures SplitLines("#" + text + "\r" + (printed + "\n")) == [printed + "\n"]
  {
    var rest := printed + "\n";
    assert rest[0] == printed[0] && printed[0] in printed;
    OneLineIsClean(text);
    OneLineIsClean(printed);
    assert "#" + text + "\r" + rest == ("#" + text) + ("\r" + rest);
    SplitDrops("", "#" + text, rest);
    SplitLine("", printed, "\n", "");
    assert "" + printed + "\n" == rest && rest + "" == rest;
  }

  lemma {:induction false} SplitDrops(prefix: string, lost: string, rest: string)
    requires Clean(lost) && (rest == "" || rest[0] != '\n')
    ensures SplitFrom(prefix, lost + ("\r" + rest)) == SplitFrom("", rest)
    decreases |lost|
  {
    if lost == "" {
      assert lost + ("\r" + rest) == "\r" + rest && ("\r" + rest)[1..] == rest;
    } else {
      assert lost[0] in lost;
      assert (lost + ("\r" + rest))[0] == lost[0] && (lost + ("\r" + rest))[1..] == lost[1..] + ("\r" + rest);
      SplitDrops(prefix + [lost[0]], lost[1..], rest);
    }
  }

  // ---------- the loops of the original ----------

  datatype Span = Span(start: nat, end: nat)

  // ---------- what a line is, exactly ----------

  /** The line has a name, a colon and, on the same line, a value. */
  ghost predicate NamesValue(text: string, name: string, tail: string) {
    && text == name + ":" + tail && name != ""
    && (forall c :: c in name ==> 'a' <= c <= 'z' || 'A' <= c <= 'Z' || '0' <= c <= '9' || c == '_' || c == '-')
    && forall c :: c in tail ==> c !in {'\n', '\r', '\U{2028}', '\U{2029}'}
  }

  lemma {:induction false} NameIsHead(text: string)
    ensures forall c :: c in text[..NameLength(text)] ==> IsNameChar(c)
    ensures NameLength(text) < |text| ==> !IsNameChar(text[NameLength(text)])
    decreases |text|
  {
    if text != "" && IsNameChar(text[0]) {
      NameIsHead(text[1..]);
      assert text[..NameLength(text)] == [text[0]] + text[1..][..NameLength(text[1..])];
    }
  }

  /** A line gives a property this name and value exactly when it is the name, a colon and the value between white space. */
  lemma {:induction false} ParsesExactly(text: string, name: string, value: string)
    ensures ParseProperty(text) == Some(Property(name, value)) <==> exists tail :: NamesValue(text, name, tail) && Trim(tail) == value
  {
    hide Trim;
    if ParseProperty(text) == Some(Property(name, value)) {
      var n := NameLength(text);
      NameIsHead(text);
      assert text == text[..n] + ":" + text[n + 1..];
      assert NamesValue(text, name, text[n + 1..]);
    }
    if tail :| NamesValue(text, name, tail) && Trim(tail) == value {
      PropertyLine(name, tail);
    }
  }

  /** A gap is a line of white space, or one whose first other character is `#`. */
  lemma {:induction false} GapExactly(text: string)
    ensures IsGap(text) <==>
      (forall c :: c in text ==> IsSpace(c)) || exists k :: 0 <= k < |text| && text[k] == '#' && forall j :: 0 <= j < k ==> IsSpace(text[j])
  {
    var left := StartParts(text);
    var rest := TrimStart(text);
    TrimmedAway(text);
    assert rest != "" ==> text[|left|] == rest[0];
    assert StartsWith(rest, "#") <==> rest != "" && rest[0] == '#';
    if k :| 0 <= k < |text| && text[k] == '#' && forall j :: 0 <= j < k ==> IsSpace(text[j]) {
      FirstOther(left, rest, k);
    }
    if rest != "" && rest[0] == '#' {
      assert forall j :: 0 <= j < |left| ==> text[j] == left[j] && left[j] in left;
    }
  }

  lemma FirstOther(left: string, rest: string, k: nat)
    requires k < |left + rest| && (left + rest)[k] == '#' && (forall j :: 0 <= j < k ==> IsSpace((left + rest)[j]))
    requires (forall c :: c in left ==> IsSpace(c)) && (rest != "" ==> !IsSpace(rest[0]))
    ensures rest != "" && rest[0] == '#'
  {
    assert forall j :: 0 <= j < |left| ==> (left + rest)[j] == left[j] && left[j] in left;
    assert rest != "" ==> (left + rest)[|left|] == rest[0];
  }

  lemma {:induction false} TrimmedAway(text: string)
    ensures Trim(text) == "" <==> forall c :: c in text ==> IsSpace(c)
  {
    var left, right := TrimParts(text);
    if Trim(text) != "" {
      assert Trim(text)[0] in text by { assert text == left + (Trim(text) + right); assert text[|left|] == Trim(text)[0]; }
    } else {
      assert text == left + right;
    }
  }

  /** An item is a dash between blanks, with something behind them on the same line. */
  lemma {:induction false} ItemExactly(text: string)
    ensures IsListItem(text) <==> exists blanks, gap: char, rest :: ItemOf(text, blanks, gap, rest)
  {
    var rest := AfterBlanks(text);
    var blanks := LeadingBlanks(text);
    if IsListItem(text) {
      assert rest == "-" + [rest[1]] + rest[2..];
      assert blanks == "" ==> text == rest;
      assert ItemOf(text, blanks, rest[1], rest[2..]);
    }
    if front, gap: char, tail :| ItemOf(text, front, gap, tail) {
      ItemReads(text, front, gap, tail);
    }
  }

  ghost predicate ItemOf(text: string, blanks: string, gap: char, rest: string) {
    && text == blanks + ("-" + [gap] + rest) && blanks != "" && rest != ""
    && (forall c :: c in blanks + [gap] ==> c == ' ' || c == '\t') && forall c :: c in rest ==> c !in {'\n', '\r', '\U{2028}', '\U{2029}'}
  }

  lemma {:induction false} ItemReads(text: string, blanks: string, gap: char, rest: string)
    requires ItemOf(text, blanks, gap, rest)
    ensures IsListItem(text)
  {
    var item := "-" + [gap] + rest;
    assert forall c :: c in blanks ==> c in blanks + [gap];
    assert gap in blanks + [gap];
    BlanksSkipped(blanks, item);
    assert item[0] == '-' && item[1] == gap && item[2..] == rest;
    assert text[0] == blanks[0] && blanks[0] in blanks;
  }

  // ---------- when the markers go ----------

  /** Nothing but blank lines. */
  ghost predicate OnlyBlank(pieces: seq<Piece>) {
    forall piece :: piece in pieces ==> piece.Gap? && AllSpace(piece.line)
  }

  predicate AllSpace(s: string) {
    forall c :: c in s ==> IsSpace(c)
  }

  lemma AllSpaceJoin(a: string, b: string)
    ensures AllSpace(a + b) <==> AllSpace(a) && AllSpace(b)
  {
    assert forall c :: c in a + b <==> c in a || c in b;
  }

  lemma {:induction false} JoinedAllSpace(a: seq<string>, b: seq<string>)
    ensures AllSpace(JoinLines(a + b)) <==> AllSpace(JoinLines(a)) && AllSpace(JoinLines(b))
    decreases |a|
  {
    if a == [] {
      assert a + b == b;
    } else {
      ConsLines(a, b);
      JoinedAllSpace(a[1..], b);
      AllSpaceJoin(a[0], JoinLines(a[1..] + b));
      AllSpaceJoin(a[0], JoinLines(a[1..]));
    }
  }

  lemma ConsLines(a: seq<string>, b: seq<string>)
    requires a != []
    ensures JoinLines(a + b) == a[0] + JoinLines(a[1..] + b)
  {
    assert (a + b)[0] == a[0] && (a + b)[1..] == a[1..] + b;
  }

  /** A block holds more than white space. */
  lemma {:induction false} BlockIsNotBlank(name: string, lines: seq<string>)
    requires BlockOk(name, lines)
    ensures !AllSpace(JoinLines(lines))
  {
    var text := TextOf(lines[0]);
    TrimmedAway(text);
    assert text == lines[0][..|text|];
    AllSpaceJoin(text, lines[0][|text|..]);
    assert text + lines[0][|text|..] == lines[0];
    AllSpaceJoin(lines[0], JoinLines(lines[1..]));
    hide Trim, TrimStart, ParseProperty, AllItems, IsContinuation, TextOf;
  }

  lemma {:induction false} BlankIff(pieces: seq<Piece>, seen: set<string>)
    requires PiecesOk(pieces, seen)
    ensures Trim(JoinLines(Flat(pieces))) == "" <==> OnlyBlank(pieces)
  {
    TrimmedAway(JoinLines(Flat(pieces)));
    BlankPieces(pieces, seen);
    hide Trim, OnlyBlank;
  }

  lemma {:induction false} BlankPieces(pieces: seq<Piece>, seen: set<string>)
    requires PiecesOk(pieces, seen)
    ensures AllSpace(JoinLines(Flat(pieces))) <==> OnlyBlank(pieces)
    decreases |pieces|
  {
    hide BlockOk, IsGap, StartsFlush, AllSpace;
    if pieces != [] {
      HeadTail(pieces);
      BlankPieces(pieces[1..], if pieces[0].Block? then seen + {pieces[0].name} else seen);
      JoinedAllSpace(LinesOf(pieces[0]), Flat(pieces[1..]));
      if pieces[0].Block? {
        BlockIsNotBlank(pieces[0].name, pieces[0].lines);
        assert pieces[0] in pieces;
      } else {
        assert JoinLines([pieces[0].line]) == pieces[0].line + JoinLines([]) == pieces[0].line;
      }
      OnlyBlankCons(pieces);
    } else {
      NothingBlank();
    }
  }

  lemma NothingBlank()
    ensures AllSpace(JoinLines(Flat([]))) && OnlyBlank([])
  {
  }

  lemma OnlyBlankCons(pieces: seq<Piece>)
    requires pieces != []
    ensures OnlyBlank(pieces) <==> pieces[0].Gap? && AllSpace(pieces[0].line) && OnlyBlank(pieces[1..])
  {
    hide AllSpace;
    HeadTail(pieces);
    assert forall piece :: piece in pieces <==> piece == pieces[0] || piece in pieces[1..];
  }

  /** Removing the last property that is not a blank line takes the markers away too. */
  lemma {:induction false} MarkersGo(content: string, l: Layout, before: seq<Piece>, name: string)
    requires FrontmatterLayout(content) == Found(l) && Scan(l.lines, {}) == Some(before)
    ensures RemoveContent(content, name) ==
            if !Has(before, name) then Missing
            else if OnlyBlank(Drop(before, name)) then Removed(l.bom + l.body)
            else Removed(l.opening + JoinLines(Flat(Drop(before, name))) + l.closing + l.body)
  {
    ScanSound(l.lines, {});
    DropOk(before, name, {});
    BlankIff(Drop(before, name), {});
    hide FrontmatterLayout, Scan, Drop, Flat, JoinLines, Has, OnlyBlank, Trim, PiecesOk;
  }

  // ---------- which values are accepted ----------

  /** A number with zeros in front, of the given width. */
  function Padded(n: nat, width: nat): string {
    if width == 0 then "" else Padded(n / 10, width - 1) + [Decimals.DIGITS[n % 10]]
  }

  /** How many leap days there are up to the end of a year of the Gregorian calendar. */
  function LeapDays(year: int): int {
    year / 4 - year / 100 + year / 400
  }

  function DaysOfMonth(year: nat, month: nat): int {
    if month == 2 then 28 + LeapDays(year) - LeapDays(year - 1)
    else if month in {4, 6, 9, 11} then 30
    else 31
  }

  ghost predicate DateOf(s: string, year: nat, month: nat, day: nat) {
    && s == Padded(year, 4) + "-" + Padded(month, 2) + "-" + Padded(day, 2)
    && year < 10000 && 1 <= month <= 12 && 1 <= day <= DaysOfMonth(year, month)
  }

  ghost predicate NamesDay(s: string) {
    exists year: nat, month: nat, day: nat :: DateOf(s, year, month, day)
  }

  ghost predicate TimeOf(s: string, hour: nat, minute: nat, second: nat) {
    s == Padded(hour, 2) + ":" + Padded(minute, 2) + ":" + Padded(second, 2) && hour < 24 && minute < 60 && second < 60
  }

  ghost predicate NamesMoment(s: string) {
    exists date: string, time: string, hour: nat, minute: nat, second: nat ::
      s == date + "T" + time && NamesDay(date) && TimeOf(time, hour, minute, second)
  }

  ghost predicate NamesNumber(s: string) {
    exists sign, whole, fraction :: NumberOf(s, sign, whole, fraction)
  }

  ghost predicate NumberOf(s: string, sign: string, whole: string, fraction: string) {
    && s == sign + whole + fraction && (sign == "" || sign == "-")
    && AllDigits(whole) && (whole == "0" || whole[0] != '0')
    && (fraction == "" || (fraction[0] == '.' && AllDigits(fraction[1..])))
  }

  function JoinCommas(pieces: seq<string>): string {
    if pieces == [] then "" else if |pieces| == 1 then pieces[0] else pieces[0] + "," + JoinCommas(pieces[1..])
  }

  /** The pieces between the commas of `raw`, trimmed, are the items, and none is empty. */
  ghost predicate CommaItems(raw: string, pieces: seq<string>, items: seq<string>) {
    && pieces != [] && |items| == |pieces| && JoinCommas(pieces) == raw
    && forall i :: 0 <= i < |pieces| ==> ',' !in pieces[i] && items[i] == Trim(pieces[i]) && items[i] != ""
  }

  /** The items that a list is given as: nothing, JSON, or pieces with commas between them. */
  ghost predicate ItemsOf(raw: string, host: Host, items: seq<string>) {
    if Trim(raw) == "" then items == []
    else if Trim(raw)[0] == '[' then host.parseJsonList(Trim(raw)) == Some(items)
    else exists pieces :: CommaItems(raw, pieces, items)
  }

  /** The values that a property of each kind may have. */
  ghost predicate Accepts(raw: string, kind: PropertyType, host: Host) {
    match kind
    case Text => '\r' !in raw && '\n' !in raw && '\0' !in raw
    case List => '\r' !in raw && '\n' !in raw && '\0' !in raw && exists items :: ItemsOf(raw, host, items)
    case Number => host.printNumber(Trim(raw)).Some? && NamesNumber(Trim(raw))
    case Checkbox => Lower(Trim(raw)) in {"true", "false"}
    case Date => NamesDay(Trim(raw))
    case Datetime => NamesMoment(Trim(raw))
  }

  lemma {:induction false} PaddedShape(n: nat, width: nat)
    ensures |Padded(n, width)| == width && forall c :: c in Padded(n, width) ==> IsDigit(c)
    decreases width
  {
    if width > 0 {
      PaddedShape(n / 10, width - 1);
      Decimals.DigitValue(n % 10);
    }
  }

  function Power10(width: nat): nat {
    if width == 0 then 1 else 10 * Power10(width - 1)
  }

  lemma {:induction false} ValueOfPadded(n: nat, width: nat)
    requires n < Power10(width)
    ensures Decimals.Value(Padded(n, width)) == n
    decreases width
  {
    if width > 0 {
      var rest, last := Padded(n / 10, width - 1), [Decimals.DIGITS[n % 10]];
      ValueOfPadded(n / 10, width - 1);
      Decimals.DigitValue(n % 10);
      assert (rest + last)[..|rest + last| - 1] == rest && (rest + last)[|rest + last| - 1] == Decimals.DIGITS[n % 10];
    }
  }

  lemma {:induction false} PaddedValue(s: string)
    requires forall c :: c in s ==> IsDigit(c)
    ensures Padded(Decimals.Value(s), |s|) == s && Decimals.Value(s) < Power10(|s|)
    decreases |s|
  {
    if s != "" {
      var rest, last := s[..|s| - 1], s[|s| - 1];
      assert last in s && s == rest + [last];
      PaddedValue(rest);
      DigitOf(last);
      var v := Decimals.Value(s);
      assert v / 10 == Decimals.Value(rest) && v % 10 == (last - '0') as nat;
    }
  }

  lemma DigitOf(c: char)
    requires IsDigit(c)
    ensures Decimals.DIGITS[(c - '0') as nat] == c
  {
  }

  /** The rule by which February has 29 days adds just the leap day of the year. */
  lemma LeapRule(year: nat)
    ensures LeapDays(year) - LeapDays(year - 1) == if year % 4 == 0 && (year % 100 != 0 || year % 400 == 0) then 1 else 0
  {
    DivideNext(year, 4);
    DivideNext(year, 100);
    DivideNext(year, 400);
    Hundreds(year);
  }

  lemma Hundreds(year: nat)
    ensures year % 400 == 0 ==> year % 100 == 0
    ensures year % 100 == 0 ==> year % 4 == 0
  {
    assert year == 400 * (year / 400) + year % 400 && year == 100 * (year / 100) + year % 100;
    Multiples(4 * (year / 400));
    Multiples(25 * (year / 100));
  }

  lemma Multiples(k: nat)
    ensures (100 * k) % 100 == 0 && (4 * k) % 4 == 0
  {
  }

  lemma DivideNext(n: nat, d: nat)
    requires d > 1
    ensures n / d - (n - 1) / d == if n % d == 0 then 1 else 0
  {
    var q, r := n / d, n % d;
    assert n == q * d + r;
    if r == 0 {
      assert n - 1 == (q - 1) * d + (d - 1);
      QuotientIs(n - 1, d, q - 1, d - 1);
    } else {
      QuotientIs(n - 1, d, q, r - 1);
    }
  }

  lemma QuotientIs(n: int, d: nat, q: int, r: nat)
    requires d > 0 && n == q * d + r && r < d
    ensures n / d == q
  {
    var e := n / d - q;
    assert n == (n / d) * d + n % d;
    assert e * d == r - n % d by { assert (n / d) * d == e * d + q * d; }
    assert (e >= 1 ==> e * d >= d) && (e <= -1 ==> e * d + d <= 0);
  }

  lemma DatePartsIff(s: string)
    ensures |s| == 10 && s[4] == '-' && s[7] == '-' <==>
            exists a, b, c :: |a| == 4 && |b| == 2 && |c| == 2 && s == a + "-" + b + "-" + c
    ensures forall a, b, c :: |a| == 4 && |b| == 2 && |c| == 2 && s == a + "-" + b + "-" + c ==>
              s[..4] == a && s[5..7] == b && s[8..] == c
  {
    if |s| == 10 && s[4] == '-' && s[7] == '-' {
      DateShape(s);
    }
  }

  lemma {:induction false} DigitsPadded(s: string)
    ensures AllDigits(s) ==> Padded(Decimals.Value(s), |s|) == s && Decimals.Value(s) < Power10(|s|)
  {
    if AllDigits(s) { PaddedValue(s); }
  }

  lemma {:induction false} PaddedDigits(n: nat, width: nat)
    requires n < Power10(width) && width > 0
    ensures AllDigits(Padded(n, width)) && |Padded(n, width)| == width && Decimals.Value(Padded(n, width)) == n
  {
    PaddedShape(n, width);
    ValueOfPadded(n, width);
  }

  lemma Powers10()
    ensures Power10(2) == 100 && Power10(4) == 10000
  {
    assert Power10(1) == 10 && Power10(3) == 1000;
  }

  lemma MonthLengths(year: nat, month: nat)
    requires 1 <= month <= 12
    ensures var leap := year % 4 == 0 && (year % 100 != 0 || year % 400 == 0);
            [31, if leap then 29 else 28, 31, 30, 31, 30, 31, 31, 30, 31, 30, 31][month - 1] == DaysOfMonth(year, month)
    ensures DaysOfMonth(year, month) < 100
  {
    LeapRule(year);
    hide LeapDays;
  }

  /** A date is accepted exactly when it names a day of the calendar. */
  lemma {:induction false} DateIff(s: string)
    ensures IsCalendarDate(s) <==> NamesDay(s)
  {
    Powers10();
    DatePartsIff(s);
    hide AllDigits, Padded, Decimals.Value, DaysOfMonth, Power10;
    if IsCalendarDate(s) {
      var year, month, day := Decimals.Value(s[..4]), Decimals.Value(s[5..7]), Decimals.Value(s[8..]);
      DigitsPadded(s[..4]);
      DigitsPadded(s[5..7]);
      DigitsPadded(s[8..]);
      DateShape(s);
      MonthLengths(year, month);
      assert DateOf(s, year, month, day);
    }
    if NamesDay(s) {
      var year: nat, month: nat, day: nat :| DateOf(s, year, month, day);
      MonthLengths(year, month);
      PaddedDigits(year, 4);
      PaddedDigits(month, 2);
      PaddedDigits(day, 2);
      assert s[..4] == Padded(year, 4) && s[5..7] == Padded(month, 2) && s[8..] == Padded(day, 2);
    }
  }

  lemma TimePartsIff(s: string)
    ensures |s| == 19 && s[10] == 'T' && s[13] == ':' && s[16] == ':' <==>
            exists date, a, b, c :: |date| == 10 && |a| == 2 && |b| == 2 && |c| == 2 && s == date + "T" + (a + ":" + b + ":" + c)
    ensures forall date, a, b, c :: |date| == 10 && |a| == 2 && |b| == 2 && |c| == 2 && s == date + "T" + (a + ":" + b + ":" + c) ==>
              s[..10] == date && s[11..13] == a && s[14..16] == b && s[17..] == c
  {
    if |s| == 19 && s[10] == 'T' && s[13] == ':' && s[16] == ':' {
      assert s == s[..10] + "T" + (s[11..13] + ":" + s[14..16] + ":" + s[17..]);
    }
  }

  lemma {:induction false} MomentIff(s: string)
    ensures IsDateTime(s) <==> NamesMoment(s)
  {
    Powers10();
    TimePartsIff(s);
    hide AllDigits, Padded, Decimals.Value, IsCalendarDate, NamesDay, Power10;
    if IsDateTime(s) {
      DateIff(s[..10]);
      DigitsPadded(s[11..13]);
      DigitsPadded(s[14..16]);
      DigitsPadded(s[17..]);
      var time := s[11..13] + ":" + s[14..16] + ":" + s[17..];
      assert s == s[..10] + "T" + time;
      assert TimeOf(time, Decimals.Value(s[11..13]), Decimals.Value(s[14..16]), Decimals.Value(s[17..]));
    }
    if NamesMoment(s) {
      var date, time, hour: nat, minute: nat, second: nat :| s == date + "T" + time && NamesDay(date) && TimeOf(time, hour, minute, second);
      DateIff(date);
      PaddedDigits(hour, 2);
      PaddedDigits(minute, 2);
      PaddedDigits(second, 2);
      DayLength(date);
      assert s[..10] == date && s[11..13] == Padded(hour, 2) && s[14..16] == Padded(minute, 2) && s[17..] == Padded(second, 2);
    }
  }

  lemma DayLength(date: string)
    requires NamesDay(date)
    ensures |date| == 10
  {
    DateIff(date);
  }

  lemma {:induction false} NumberIff(s: string)
    ensures IsNumberLiteral(s) <==> NamesNumber(s)
  {
    if IsNumberLiteral(s) { LiteralIsNumber(s); }
    hide IsNumberLiteral, NumberOf;
    if NamesNumber(s) {
      var sign, whole, fraction :| NumberOf(s, sign, whole, fraction);
      NumberIsLiteral(s, sign, whole, fraction);
    }
  }

  lemma {:induction false} LiteralIsNumber(s: string)
    requires IsNumberLiteral(s)
    ensures NamesNumber(s)
  {
    var sign := if s != "" && s[0] == '-' then "-" else "";
    var unsigned := if s != "" && s[0] == '-' then s[1..] else s;
    var n: nat :| n <= |unsigned| && IsUnsigned(unsigned, n);
    UnsignedParts(unsigned, n);
    hide AllDigits, IsUnsigned, IsNumberLiteral;
    assert s == sign + unsigned;
    assert unsigned == unsigned[..n] + unsigned[n..];
    Associative(sign, unsigned[..n], unsigned[n..]);
    assert s == sign + unsigned[..n] + unsigned[n..];
    NumberIsNamed(s, sign, unsigned[..n], unsigned[n..]);
  }

  lemma NumberIsNamed(s: string, sign: string, whole: string, fraction: string)
    requires NumberOf(s, sign, whole, fraction)
    ensures NamesNumber(s)
  {
  }

  lemma {:induction false} NumberIsLiteral(s: string, sign: string, whole: string, fraction: string)
    requires NumberOf(s, sign, whole, fraction)
    ensures IsNumberLiteral(s)
  {
    PartsUnsigned(s, sign, whole, fraction);
    assert (if s[0] == '-' then s[1..] else s) == whole + fraction;
    assert IsUnsigned(whole + fraction, |whole|) && |whole| <= |whole + fraction|;
  }

  lemma UnsignedParts(s: string, n: nat)
    requires IsUnsigned(s, n)
    ensures var whole, fraction := s[..n], s[n..];
            && AllDigits(whole) && (whole == "0" || whole[0] != '0')
            && (fraction == "" || (fraction[0] == '.' && AllDigits(fraction[1..])))
  {
    assert s[..n] != "" && s[..n][0] == s[0];
    assert n < |s| ==> s[n..][1..] == s[n + 1..];
  }

  lemma PartsUnsigned(s: string, sign: string, whole: string, fraction: string)
    requires NumberOf(s, sign, whole, fraction)
    ensures IsUnsigned(whole + fraction, |whole|) && s == sign + (whole + fraction)
    ensures s != "" && (s[0] == '-' <==> sign == "-") && (sign == "" || sign == "-")
  {
    var u := whole + fraction;
    assert whole[0] in whole && u[0] == whole[0];
    assert u[..|whole|] == whole;
    assert fraction != "" ==> u[|whole| + 1..] == fraction[1..];
    assert s[0] == if sign == "-" then '-' else u[0];
  }

  // ---------- lists ----------

  /** The pieces between the commas, not trimmed. */
  function Pieces(s: string, piece: string): (pieces: seq<string>)
    ensures pieces != []
    decreases |s|
  {
    if s == "" then [piece]
    else if s[0] == ',' then [piece] + Pieces(s[1..], "")
    else Pieces(s[1..], piece + [s[0]])
  }

  lemma {:induction false} PiecesAre(s: string, piece: string)
    requires ',' !in piece
    ensures var pieces, items := Pieces(s, piece), SplitCommas(s, piece);
            && JoinCommas(pieces) == piece + s && |items| == |pieces|
            && forall i :: 0 <= i < |pieces| ==> ',' !in pieces[i] && items[i] == Trim(pieces[i])
    decreases |s|
  {
    hide Trim;
    if s == "" {
      assert piece + s == piece;
    } else if s[0] == ',' {
      PiecesAre(s[1..], "");
      var rest := Pieces(s[1..], "");
      assert "" + s[1..] == s[1..];
      assert ([piece] + rest)[1..] == rest;
      assert piece + "," + s[1..] == piece + s;
    } else {
      PiecesAre(s[1..], piece + [s[0]]);
      assert piece + [s[0]] + s[1..] == piece + s;
    }
  }

  /** Pieces without commas are found again between the commas that join them. */
  lemma {:induction false} PiecesOfJoin(pieces: seq<string>)
    requires pieces != [] && forall i :: 0 <= i < |pieces| ==> ',' !in pieces[i]
    ensures Pieces(JoinCommas(pieces), "") == pieces
    decreases |pieces|
  {
    if |pieces| == 1 {
      PieceRead("", pieces[0], "");
      assert "" + pieces[0] == pieces[0] && pieces[0] + "" == pieces[0];
    } else {
      PieceRead("", pieces[0], "," + JoinCommas(pieces[1..]));
      assert pieces[0] + "," + JoinCommas(pieces[1..]) == pieces[0] + ("," + JoinCommas(pieces[1..]));
      assert "" + pieces[0] == pieces[0] && ("," + JoinCommas(pieces[1..]))[1..] == JoinCommas(pieces[1..]);
      PiecesOfJoin(pieces[1..]);
    }
  }

  lemma {:induction false} PieceRead(before: string, piece: string, rest: string)
    requires ',' !in piece
    ensures Pieces(piece + rest, before) == Pieces(rest, before + piece)
    decreases |piece|
  {
    if piece == "" {
      assert piece + rest == rest && before + piece == before;
    } else {
      assert piece[0] in piece && (piece + rest)[1..] == piece[1..] + rest;
      assert before + [piece[0]] + piece[1..] == before + piece;
      PieceRead(before + [piece[0]], piece[1..], rest);
    }
  }

  lemma {:induction false} CommaItemsIff(raw: string, items: seq<string>)
    ensures (exists pieces :: CommaItems(raw, pieces, items)) <==> "" !in SplitCommas(raw, "") && items == SplitCommas(raw, "")
  {
    hide Trim;
    PiecesAre(raw, "");
    assert "" + raw == raw;
    if "" !in SplitCommas(raw, "") && items == SplitCommas(raw, "") {
      assert forall i :: 0 <= i < |items| ==> items[i] in items;
      assert CommaItems(raw, Pieces(raw, ""), items);
    }
    if pieces :| CommaItems(raw, pieces, items) {
      PiecesOfJoin(pieces);
      assert items == SplitCommas(raw, "");
    }
  }

  lemma ListIsSingleLine(raw: string, host: Host)
    ensures ParseListValue(raw, host).Some? ==> IsSingleLine(raw)
  {
  }

  /** A list is read as exactly the items it is given as. */
  lemma {:induction false} ListIff(raw: string, host: Host, items: seq<string>)
    requires IsSingleLine(raw)
    ensures ParseListValue(raw, host) == Some(items) <==> ItemsOf(raw, host, items)
  {
    CommaItemsIff(raw, items);
    assert Trim(raw) != "" ==> (StartsWith(Trim(raw), "[") <==> Trim(raw)[0] == '[');
    hide Trim, SplitCommas, CommaItems;
  }

  /** A property is printed exactly when its name and its value are accepted. */
  lemma {:induction false} SerializedIff(name: string, raw: string, kind: PropertyType, host: Host)
    ensures SerializeProperty(name, raw, kind, host).Some? <==> IsName(name) && Accepts(raw, kind, host)
  {
    DateIff(Trim(raw));
    MomentIff(Trim(raw));
    NumberIff(Trim(raw));
    if IsSingleLine(raw) {
      forall items ensures ParseListValue(raw, host) == Some(items) <==> ItemsOf(raw, host, items) {
        ListIff(raw, host, items);
      }
    }
    hide Trim, IsCalendarDate, NamesDay, IsDateTime, NamesMoment, IsNumberLiteral, NamesNumber, Lower, ItemsOf, Quote, ItemLines, IsName;
    if kind.List? && ParseListValue(raw, host).Some? {
      assert ItemsOf(raw, host, ParseListValue(raw, host).value);
    }
  }

  // ---------- what a block says ----------

  function ItemValue(text: string): string
    requires IsListItem(text)
  {
    Trim(AfterBlanks(text)[1..])
  }

  /** What stands on the line of a property: quoted text that reads as the value, or the value itself. */
  ghost predicate ScalarSays(inlineValue: string, raw: string, kind: PropertyType, host: Host) {
    match kind
    case Text => Unquote(inlineValue) == Some(raw)
    case Number => host.printNumber(Trim(raw)) == Some(inlineValue)
    case Checkbox => inlineValue == Lower(Trim(raw))
    case Date => inlineValue == Trim(raw)
    case Datetime => inlineValue == Trim(raw)
    case List => false
  }

  /** One quoted line for each item, or an empty list on the line of the property. */
  ghost predicate ListSays(inlineValue: string, lines: seq<string>, items: seq<string>) {
    && inlineValue == (if items == [] then "[]" else "") && |lines| == |items|
    && forall i :: 0 <= i < |items| ==> IsListItem(TextOf(lines[i])) && Unquote(ItemValue(TextOf(lines[i]))) == Some(items[i])
  }

  /** The lines of a block give the property this name and the value that `raw` stands for. */
  ghost predicate Says(block: seq<string>, name: string, raw: string, kind: PropertyType, host: Host) {
    block != [] && ParseProperty(TextOf(block[0])).Some? &&
    var property := ParseProperty(TextOf(block[0])).value;
    && property.name == name
    && if kind.List? then exists items :: ItemsOf(raw, host, items) && ListSays(property.inlineValue, block[1..], items)
       else |block| == 1 && ScalarSays(property.inlineValue, raw, kind, host)
  }

  /** The note has exactly one property of this name, and it has this value. */
  ghost predicate NoteSays(note: string, name: string, raw: string, kind: PropertyType, host: Host) {
    && FrontmatterLayout(note).Found?
    && Scan(FrontmatterLayout(note).layout.lines, {}).Some?
    && var pieces := Scan(FrontmatterLayout(note).layout.lines, {}).value;
       Has(pieces, name) && forall block :: Block(name, block) in pieces ==> Says(block, name, raw, kind, host)
  }

  lemma {:induction false} ScalarLineSays(name: string, value: string, ending: string)
    requires IsName(name) && ScalarOk(value) && !IsSpace(value[|value| - 1]) && IsEnding(ending)
    ensures ParseProperty(TextOf(name + ": " + value + ending)) == Some(Property(name, value))
  {
    BlankMoves(name, value);
    OneLineConcat(" ", value);
    PropertyLine(name, " " + value);
    TrimPadded(" ", value, "");
    assert " " + value + "" == " " + value;
    OneLineIsClean(name + ":" + (" " + value));
    TextOfLine(name + ": " + value, ending);
    hide ParseProperty, TextOf, Trim;
  }

  lemma {:induction false} TrimmedEnd(s: string)
    ensures Trim(s) != "" ==> !IsSpace(Trim(s)[|Trim(s)| - 1])
  {
    var left, right := TrimParts(s);
  }

  lemma {:induction false} QuoteEnd(s: string)
    ensures Quote(s) != "" && !IsSpace(Quote(s)[0]) && !IsSpace(Quote(s)[|Quote(s)| - 1])
  {
    assert Quote(s)[|Quote(s)| - 1] == '\"';
  }

  lemma {:induction false} ItemLineSays(item: string, ending: string)
    requires NoSeparator(item) && IsEnding(ending)
    ensures var text := TextOf("  - " + Quote(item) + ending); IsListItem(text) && Unquote(ItemValue(text)) == Some(item)
  {
    var text := "  - " + Quote(item);
    QuoteOneLine(item);
    ItemIsListItem(item);
    QuoteReadsBack(item);
    hide Quote, TextOf, Unquote, ItemValue, IsListItem;
    ItemText(item, ending);
    ItemValueIs(item);
    assert text + ending == "  - " + Quote(item) + ending;
  }

  lemma {:induction false} ItemValueIs(item: string)
    requires IsListItem("  - " + Quote(item))
    ensures ItemValue("  - " + Quote(item)) == Quote(item)
  {
    var q := Quote(item);
    QuoteEnd(item);
    hide Quote, AfterBlanks, Trim;
    ItemShape(q);
    BlanksSkipped("  ", "- " + q);
    assert ("- " + q)[1..] == " " + q + "";
    TrimPadded(" ", q, "");
  }

  lemma {:induction false} ItemLinesSay(items: seq<string>, ending: string)
    requires (forall item :: item in items ==> NoSeparator(item)) && IsEnding(ending)
    ensures var lines := Ended(ItemLines(items), ending);
            |lines| == |items| && forall i :: 0 <= i < |items| ==>
              IsListItem(TextOf(lines[i])) && Unquote(ItemValue(TextOf(lines[i]))) == Some(items[i])
    decreases |items|
  {
    hide Quote, TextOf, IsListItem, ItemValue, Unquote, NoSeparator, IsEnding;
    if items != [] {
      assert items[0] in items;
      ItemLineSays(items[0], ending);
      ItemLinesSay(items[1..], ending);
      ConsRest("  - " + Quote(items[0]), ItemLines(items[1..]));
      HeadEnded("  - " + Quote(items[0]), ItemLines(items[1..]), ending);
      hide Ended, ItemLines;
      forall i | 0 < i < |items| ensures items[i] == items[1..][i - 1] {
      }
    }
  }

  /** What is printed for an accepted value says just that value. */
  lemma {:induction false} SerializedSays(name: string, raw: string, kind: PropertyType, host: Host, ending: string)
    requires SerializeProperty(name, raw, kind, host).Some? && NumbersOk(host) && Readable(raw, kind, host) && IsEnding(ending)
    ensures Says(Ended(SerializeProperty(name, raw, kind, host).value, ending), name, raw, kind, host)
  {
    hide ScalarOk, IsNumberLiteral, IsCalendarDate, IsDateTime, Trim, Lower, ParseListValue, Quote, IsSingleLine, ParseProperty, TextOf, Unquote, ItemsOf;
    if kind.List? {
      ListIsSingleLine(raw, host);
      ListIff(raw, host, ParseListValue(raw, host).value);
      ListBlockSays(name, ParseListValue(raw, host).value, ending);
    } else {
      var value := ScalarSerialized(name, raw, kind, host);
      ScalarLineSays(name, value, ending);
      EndedOne(name + ": " + value, ending);
    }
  }

  lemma {:induction false} ScalarSerialized(name: string, raw: string, kind: PropertyType, host: Host) returns (value: string)
    requires SerializeProperty(name, raw, kind, host).Some? && NumbersOk(host) && Readable(raw, kind, host) && !kind.List?
    ensures SerializeProperty(name, raw, kind, host).value == [name + ": " + value]
    ensures ScalarOk(value) && !IsSpace(value[|value| - 1]) && ScalarSays(value, raw, kind, host)
  {
    hide IsNumberLiteral, IsCalendarDate, IsDateTime, Trim, Quote, Unquote;
    TrimmedEnd(raw);
    match kind {
      case Text =>
        assert raw in Quoted(raw, kind, host);
        value := Quote(raw);
        QuotedScalar(raw);
        QuoteEnd(raw);
        QuoteReadsBack(raw);
      case Number =>
        value := host.printNumber(Trim(raw)).value;
        NumberScalar(host, Trim(raw));
        assert value[|value| - 1] in value;
      case Checkbox => PlainScalars(); value := Lower(Trim(raw));
      case Date => DateIsScalar(Trim(raw)); value := Trim(raw);
      case Datetime => DateTimeIsScalar(Trim(raw)); value := Trim(raw);
    }
  }

  lemma {:induction false} ListBlockSays(name: string, items: seq<string>, ending: string)
    requires IsName(name) && (forall item :: item in items ==> NoSeparator(item)) && IsEnding(ending)
    ensures var texts := if items == [] then [name + ": []"] else [name + ":"] + ItemLines(items);
            var block := Ended(texts, ending);
            && block != [] && ParseProperty(TextOf(block[0])).Some? && ParseProperty(TextOf(block[0])).value.name == name
            && ListSays(ParseProperty(TextOf(block[0])).value.inlineValue, block[1..], items)
  {
    if items == [] {
      PlainScalars();
      ScalarLineSays(name, "[]", ending);
      assert name + ": " + "[]" == name + ": []";
      EndedOne(name + ": []", ending);
    } else {
      assert name + ":" + "" == name + ":";
      PropertyLine(name, "");
      OneLineIsClean(name + ":");
      TextOfLine(name + ":", ending);
      assert Trim("") == "";
      ItemLinesSay(items, ending);
      HeadEnded(name + ":", ItemLines(items), ending);
      hide Quote, TextOf, IsListItem, ItemValue, Unquote, ItemLines, ParseProperty, Ended;
      assert ([name + ":" + ending] + Ended(ItemLines(items), ending))[1..] == Ended(ItemLines(items), ending);
    }
  }

  /** A property is there once: every block of its name is the one that was put in. */
  lemma {:induction false} OneOfItsName(pieces: seq<Piece>, name: string, block: seq<string>, seen: set<string>)
    requires PiecesOk(pieces, seen) && Block(name, block) in pieces
    ensures Has(pieces, name) && forall other :: Block(name, other) in pieces ==> other == block
    decreases |pieces|
  {
    hide BlockOk, IsGap, StartsFlush;
    HeadTail(pieces);
    var more := if pieces[0].Block? then seen + {pieces[0].name} else seen;
    if pieces[0] == Block(name, block) {
      SeenStaysOut(pieces[1..], name, more);
    } else {
      OneOfItsName(pieces[1..], name, block, more);
      if pieces[0].Block? && pieces[0].name == name {
        SeenStaysOut(pieces[1..], name, more);
      }
    }
  }

  lemma {:induction false} SeenStaysOut(pieces: seq<Piece>, name: string, seen: set<string>)
    requires PiecesOk(pieces, seen) && name in seen
    ensures forall other :: Block(name, other) !in pieces
    decreases |pieces|
  {
    hide BlockOk, IsGap, StartsFlush;
    if pieces != [] {
      SeenStaysOut(pieces[1..], name, if pieces[0].Block? then seen + {pieces[0].name} else seen);
    }
  }

  /** A note that can take the value says it afterwards. */
  lemma {:induction false} SetSays(content: string, name: string, raw: string, kind: PropertyType, host: Host)
    requires SerializeProperty(name, raw, kind, host).Some? && NumbersOk(host) && Readable(raw, kind, host)
    requires SetContent(content, name, SerializeProperty(name, raw, kind, host).value).Some? && Settable(content, name)
    ensures NoteSays(SetContent(content, name, SerializeProperty(name, raw, kind, host).value).value, name, raw, kind, host)
  {
    hide SerializeProperty, Readable, Scan, Ended, FrontmatterLayout, Settable, Put, Flat, JoinLines, HasCrlf, PiecesOk, Says, BomOf, SetIsFound;
    var texts := SerializeProperty(name, raw, kind, host).value;
    if FrontmatterLayout(content).Found? {
      var l := FrontmatterLayout(content).layout;
      LayoutEnding(content);
      SerializedSays(name, raw, kind, host, EndingOf(content));
      SetIsReadBack(content, name, raw, kind, host);
      FoundBlock(content, name, texts);
    } else {
      SerializedSays(name, raw, kind, host, EndingOf(content));
      FirstSetSays(content, name, raw, kind, host);
    }
  }

  function EndingOf(content: string): (ending: string)
    ensures IsEnding(ending) && ending == LineEndingFor(content)
  {
    LineEndingFor(content)
  }

  lemma {:induction false} FirstSetSays(content: string, name: string, raw: string, kind: PropertyType, host: Host)
    requires SerializeProperty(name, raw, kind, host).Some? && NumbersOk(host) && Readable(raw, kind, host)
    requires FrontmatterLayout(content).NoFrontmatter?
    requires Says(Ended(SerializeProperty(name, raw, kind, host).value, LineEndingFor(content)), name, raw, kind, host)
    ensures NoteSays(SetContent(content, name, SerializeProperty(name, raw, kind, host).value).value, name, raw, kind, host)
  {
    hide SerializeProperty, Readable, Scan, Ended, FrontmatterLayout, Says, SetContent, BomOf, HasCrlf, NoteSays, NumbersOk;
    var texts, ending := SerializeProperty(name, raw, kind, host).value, LineEndingFor(content);
    FirstSetIsReadBack(content, name, raw, kind, host);
    OnlyBlockSays(SetContent(content, name, texts).value, Ended(texts, ending), name, raw, kind, host);
  }

  lemma OnlyBlockSays(note: string, block: seq<string>, name: string, raw: string, kind: PropertyType, host: Host)
    requires FrontmatterLayout(note).Found? && FrontmatterLayout(note).layout.lines == block
    requires Scan(block, {}) == Some([Block(name, block)]) && Says(block, name, raw, kind, host)
    ensures NoteSays(note, name, raw, kind, host)
  {
    hide FrontmatterLayout, Scan, Says;
    var piece := Block(name, block);
    assert piece in [piece] && IsBlockOf(piece, name);
    assert Has([piece], name);
  }

  lemma {:induction false} FoundBlock(content: string, name: string, texts: seq<string>)
    requires FrontmatterLayout(content).Found? && Scan(FrontmatterLayout(content).layout.lines, {}).Some?
    requires SetIsFound(content, name, texts)
    ensures var l, after := FrontmatterLayout(content).layout, FrontmatterLayout(SetContent(content, name, texts).value);
            && after.Found? && Scan(after.layout.lines, {}).Some?
            && var pieces := Scan(after.layout.lines, {}).value;
               Has(pieces, name) && forall block :: Block(name, block) in pieces ==> block == Ended(texts, l.lineEnding)
  {
    var l := FrontmatterLayout(content).layout;
    var pieces := Put(Scan(l.lines, {}).value, name, Ended(texts, l.lineEnding));
    hide FrontmatterLayout, Scan, Put, Flat, JoinLines, PiecesOk, SetContent, Ended, Drop;
    ScanSound(Flat(pieces), {});
    OneOfItsName(pieces, name, Ended(texts, l.lineEnding), {});
  }

  /** Where each block lies among the lines. */
  function BlocksOf(pieces: seq<Piece>, offset: nat): map<string, Span> {
    if pieces == [] then map[]
    else
      var end := offset + |LinesOf(pieces[0])|;
      var rest := BlocksOf(pieces[1..], end);
      if pieces[0].Block? then rest[pieces[0].name := Span(offset, end)] else rest
  }

  function Names(pieces: seq<Piece>): set<string> {
    set piece | piece in pieces && piece.Block? :: piece.name
  }

  lemma {:induction false} BlocksOfPush(pieces: seq<Piece>, piece: Piece, offset: nat)
    requires piece.Block? ==> piece.name !in Names(pieces)
    ensures var at := offset + |Flat(pieces)|;
            BlocksOf(pieces + [piece], offset)
            == if piece.Block? then BlocksOf(pieces, offset)[piece.name := Span(at, at + |piece.lines|)] else BlocksOf(pieces, offset)
    decreases |pieces|
  {
    if pieces == [] {
      assert pieces + [piece] == [piece] && [piece][1..] == [];
    } else {
      assert (pieces + [piece])[1..] == pieces[1..] + [piece];
      assert pieces[0] in pieces && forall x :: x in pieces[1..] ==> x in pieces;
      BlocksOfPush(pieces[1..], piece, offset + |LinesOf(pieces[0])|);
    }
  }

  lemma {:induction false} BlocksOfNames(pieces: seq<Piece>, offset: nat)
    ensures BlocksOf(pieces, offset).Keys == Names(pieces)
    ensures forall name :: name in BlocksOf(pieces, offset) <==> Has(pieces, name)
    decreases |pieces|
  {
    if pieces != [] {
      BlocksOfNames(pieces[1..], offset + |LinesOf(pieces[0])|);
      assert forall x :: x in pieces <==> x == pieces[0] || x in pieces[1..];
      assert Names(pieces) == Names(pieces[1..]) + if pieces[0].Block? then {pieces[0].name} else {};
      forall name ensures name in BlocksOf(pieces, offset) <==> Has(pieces, name) {
        if Has(pieces[1..], name) {
          var x :| x in pieces[1..] && IsBlockOf(x, name);
          assert x in pieces;
        }
      }
    }
  }

  /** Between `start` and `end` lie the lines of the block that `put` replaces and `drop` leaves out. */
  ghost predicate Spliced(flat: seq<string>, start: int, end: int, lines: seq<string>, put: seq<string>, drop: seq<string>) {
    && 0 <= start <= end <= |flat|
    && flat[..start] + lines + flat[end..] == put
    && flat[..start] + flat[end..] == drop
  }

  lemma SplicedFirst(first: seq<string>, rest: seq<string>, lines: seq<string>)
    ensures Spliced(first + rest, 0, |first|, lines, lines + rest, rest)
  {
  }

  lemma SplicedBehind(first: seq<string>, rest: seq<string>, start: int, end: int, lines: seq<string>, put: seq<string>, drop: seq<string>)
    requires Spliced(rest, start, end, lines, put, drop)
    ensures Spliced(first + rest, |first| + start, |first| + end, lines, first + put, first + drop)
  {
    assert (first + rest)[..|first| + start] == first + rest[..start];
    assert (first + rest)[|first| + end..] == rest[end..];
    Associative(first, rest[..start], rest[end..]);
    Associative(first, rest[..start] + lines, rest[end..]);
    Associative(first, rest[..start], lines);
  }

  lemma {:induction false} BlocksAhead(pieces: seq<Piece>, name: string, offset: nat)
    requires Has(pieces, name)
    ensures name in BlocksOf(pieces, offset)
    ensures var n := |LinesOf(pieces[0])|;
            if IsBlockOf(pieces[0], name) then BlocksOf(pieces, offset)[name] == Span(offset, offset + n)
            else Has(pieces[1..], name) && name in BlocksOf(pieces[1..], offset + n)
                 && BlocksOf(pieces, offset)[name] == BlocksOf(pieces[1..], offset + n)[name]
  {
    if !IsBlockOf(pieces[0], name) {
      HasRest(pieces, name);
      BlocksOfNames(pieces[1..], offset + |LinesOf(pieces[0])|);
    }
  }

  lemma PutAhead(pieces: seq<Piece>, name: string, lines: seq<string>)
    requires pieces != []
    ensures if IsBlockOf(pieces[0], name)
            then Flat(Put(pieces, name, lines)) == lines + Flat(pieces[1..]) && Drop(pieces, name) == pieces[1..]
            else Flat(Put(pieces, name, lines)) == LinesOf(pieces[0]) + Flat(Put(pieces[1..], name, lines))
                 && Flat(Drop(pieces, name)) == LinesOf(pieces[0]) + Flat(Drop(pieces[1..], name))
  {
    FlatCons(Block(name, lines), pieces[1..]);
    FlatCons(pieces[0], Put(pieces[1..], name, lines));
    FlatCons(pieces[0], Drop(pieces[1..], name));
  }

  /** Splicing the lines of a block is putting or dropping the block. */
  lemma {:induction false} SpliceIsPut(pieces: seq<Piece>, name: string, lines: seq<string>, offset: nat) returns (span: Span)
    requires Has(pieces, name)
    ensures name in BlocksOf(pieces, offset) && BlocksOf(pieces, offset)[name] == span
    ensures Spliced(Flat(pieces), span.start - offset, span.end - offset, lines, Flat(Put(pieces, name, lines)), Flat(Drop(pieces, name)))
    decreases |pieces|
  {
    hide Spliced, BlocksOf, Put, Drop, IsBlockOf, Flat;
    BlocksAhead(pieces, name, offset);
    PutAhead(pieces, name, lines);
    HeadTail(pieces);
    FlatCons(pieces[0], pieces[1..]);
    var first, rest := LinesOf(pieces[0]), pieces[1..];
    if IsBlockOf(pieces[0], name) {
      SplicedFirst(first, Flat(rest), lines);
      span := Span(offset, offset + |first|);
    } else {
      span := SpliceIsPut(rest, name, lines, offset + |first|);
      SplicedBehind(first, Flat(rest), span.start - offset - |first|, span.end - offset - |first|, lines,
                    Flat(Put(rest, name, lines)), Flat(Drop(rest, name)));
    }
  }

  lemma SpliceLines(pieces: seq<Piece>, name: string, lines: seq<string>)
    requires Has(pieces, name)
    ensures name in BlocksOf(pieces, 0)
    ensures var span := BlocksOf(pieces, 0)[name];
            && span.start <= span.end <= |Flat(pieces)|
            && Flat(pieces)[..span.start] + lines + Flat(pieces)[span.end..] == Flat(Put(pieces, name, lines))
            && Flat(pieces)[..span.start] + Flat(pieces)[span.end..] == Flat(Drop(pieces, name))
  {
    hide BlocksOf, Put, Drop, Flat, Has;
    var span := SpliceIsPut(pieces, name, lines, 0);
  }

  lemma HasRest(pieces: seq<Piece>, name: string)
    requires Has(pieces, name) && !IsBlockOf(pieces[0], name)
    ensures Has(pieces[1..], name)
  {
    var x :| x in pieces && IsBlockOf(x, name);
    assert x in pieces[1..];
  }

  /** After `index` lines, cut into `done`, the rest is scanned as the whole would be. */
  ghost predicate Scanning(lines: seq<string>, index: nat, done: seq<Piece>, blocks: map<string, Span>)
    requires index <= |lines|
  {
    && Flat(done) == lines[..index] && blocks == BlocksOf(done, 0) && blocks.Keys == Names(done)
    && Scan(lines, {}) == match Scan(lines[index..], Names(done)) case None => None case Some(rest) => Some(done + rest)
  }

  lemma {:induction false} FlatPush(done: seq<Piece>, piece: Piece)
    ensures Flat(done + [piece]) == Flat(done) + LinesOf(piece)
    decreases |done|
  {
    if done == [] {
      assert done + [piece] == [piece] && [piece][1..] == [] && LinesOf(piece) + [] == LinesOf(piece);
    } else {
      assert (done + [piece])[1..] == done[1..] + [piece];
      FlatPush(done[1..], piece);
      Associative(LinesOf(done[0]), Flat(done[1..]), LinesOf(piece));
    }
  }

  lemma {:induction false} NextPiece(lines: seq<string>, index: nat, done: seq<Piece>, blocks: map<string, Span>, piece: Piece, end: nat)
    requires index < end <= |lines| && Scanning(lines, index, done, blocks) && LinesOf(piece) == lines[index..end]
    requires piece.Block? ==> piece.name !in blocks
    requires Scan(lines[index..], Names(done))
      == match Scan(lines[end..], Names(done + [piece])) case None => None case Some(rest) => Some([piece] + rest)
    ensures Scanning(lines, end, done + [piece], if piece.Block? then blocks[piece.name := Span(index, end)] else blocks)
  {
    hide Scan, Flat, BlocksOf, Names;
    FlatPush(done, piece);
    BlocksOfPush(done, piece, 0);
    BlocksOfNames(done + [piece], 0);
    NextLines(lines, index, end);
    var rest := Scan(lines[end..], Names(done + [piece]));
    if rest.Some? {
      Associative(done, [piece], rest.value);
    }
  }

  lemma NextLines(lines: seq<string>, index: nat, end: nat)
    requires index <= end <= |lines|
    ensures lines[..index] + lines[index..end] == lines[..end] && |lines[..index]| == index && |lines[index..end]| == end - index
  {
  }

  lemma {:induction false} NamesPush(done: seq<Piece>, piece: Piece)
    ensures Names(done + [piece]) == Names(done) + if piece.Block? then {piece.name} else {}
  {
    assert forall x :: x in done + [piece] <==> x in done || x == piece;
  }

  lemma ScanningFacts(lines: seq<string>, index: nat, done: seq<Piece>, blocks: map<string, Span>)
    requires index <= |lines| && Scanning(lines, index, done, blocks)
    ensures blocks.Keys == Names(done)
    ensures Scan(lines[index..], blocks.Keys) == None ==> Scan(lines, {}) == None
  {
    hide Scan, Names, Flat;
  }

  lemma {:induction false} ScanAtGap(lines: seq<string>, seen: set<string>)
    requires lines != [] && IsGap(TextOf(lines[0]))
    ensures Scan(lines, seen) == match Scan(lines[1..], seen) case None => None case Some(rest) => Some([Gap(lines[0])] + rest)
  {
    hide IsGap, TextOf;
  }

  lemma {:induction false} GapNext(lines: seq<string>, index: nat, done: seq<Piece>, blocks: map<string, Span>)
    requires index < |lines| && Scanning(lines, index, done, blocks) && IsGap(TextOf(lines[index]))
    ensures Scanning(lines, index + 1, done + [Gap(lines[index])], blocks)
  {
    hide IsGap, TextOf, Scanning, Scan, Names;
    var gap := Gap(lines[index]);
    SliceFacts(lines, index, index + 1);
    ScanAtGap(lines[index..], Names(done));
    NamesPush(done, gap);
    assert Names(done) + {} == Names(done);
    assert lines[index..index + 1] == [lines[index]];
    NextPiece(lines, index, done, blocks, gap, index + 1);
  }

  lemma {:induction false} ContinuationsAre(lines: seq<string>, index: nat, end: nat)
    requires index < end <= |lines| && (end < |lines| ==> !IsContinuation(TextOf(lines[end])))
    requires forall i :: index < i < end ==> IsContinuation(TextOf(lines[i]))
    ensures Continuations(lines[index + 1..]) == end - index - 1
    decreases end - index
  {
    hide IsContinuation, TextOf;
    var rest := lines[index + 1..];
    if rest != [] {
      assert rest[0] == lines[index + 1] && rest[1..] == lines[index + 2..];
      if index + 1 < end {
        ContinuationsAre(lines, index + 1, end);
      }
    }
  }

  /** The original refuses the property on the first line, with its `n` continuation lines. */
  predicate Refuses(first: string, items: seq<string>, seen: set<string>) {
    var property := ParseProperty(TextOf(first));
    property.None? || property.value.name in seen || IsBlockScalar(property.value.inlineValue)
    || (items != [] && (property.value.inlineValue != "" || !AllItems(items)))
  }

  lemma {:induction false} ScanAtBlock(lines: seq<string>, seen: set<string>, n: nat)
    requires lines != [] && !IsGap(TextOf(lines[0])) && n == Continuations(lines[1..])
    ensures if Refuses(lines[0], lines[1..n + 1], seen) then Scan(lines, seen) == None
            else
              var name := ParseProperty(TextOf(lines[0])).value.name;
              Scan(lines, seen) == match Scan(lines[n + 1..], seen + {name})
                                   case None => None
                                   case Some(rest) => Some([Block(name, lines[..n + 1])] + rest)
  {
    hide IsGap, TextOf, IsContinuation, IsBlockScalar, AllItems, ParseProperty, Continuations;
  }

  /** What the scan does with the property at `index` whose continuation lines end before `end`. */
  lemma {:induction false} BlockNext(lines: seq<string>, index: nat, done: seq<Piece>, blocks: map<string, Span>, end: nat)
    requires index < end <= |lines| && Scanning(lines, index, done, blocks) && !IsGap(TextOf(lines[index]))
    requires forall i :: index < i < end ==> IsContinuation(TextOf(lines[i]))
    requires end < |lines| ==> !IsContinuation(TextOf(lines[end]))
    ensures Refuses(lines[index], lines[index + 1..end], blocks.Keys) ==> Scan(lines, {}) == None
    ensures !Refuses(lines[index], lines[index + 1..end], blocks.Keys) ==>
      var name := ParseProperty(TextOf(lines[index])).value.name;
      Scanning(lines, end, done + [Block(name, lines[index..end])], blocks[name := Span(index, end)])
  {
    hide IsGap, TextOf, IsContinuation, IsBlockScalar, AllItems, ParseProperty, Continuations, Scan, Scanning, Names;
    ContinuationsAre(lines, index, end);
    SliceFacts(lines, index, end);
    ScanAtBlock(lines[index..], blocks.Keys, end - index - 1);
    ScanningFacts(lines, index, done, blocks);
    hide Refuses;
    if !Refuses(lines[index], lines[index + 1..end], blocks.Keys) {
      RefusesNot(lines[index], lines[index + 1..end], blocks.Keys);
      var block := Block(ParseProperty(TextOf(lines[index])).value.name, lines[index..end]);
      NamesPush(done, block);
      NextPiece(lines, index, done, blocks, block, end);
    }
  }

  lemma RefusesNot(first: string, items: seq<string>, seen: set<string>)
    requires !Refuses(first, items, seen)
    ensures ParseProperty(TextOf(first)).Some? && ParseProperty(TextOf(first)).value.name !in seen
  {
  }

  lemma SliceFacts(lines: seq<string>, index: nat, end: nat)
    requires index < end <= |lines|
    ensures var rest, n := lines[index..], end - index - 1;
            && rest[0] == lines[index] && rest[1..] == lines[index + 1..] && rest[1..n + 1] == lines[index + 1..end]
            && rest[n + 1..] == lines[end..] && rest[..n + 1] == lines[index..end]
  {
  }

  /** Finds the blocks; None where the original throws. */
  method PropertyBlocks(lines: seq<string>) returns (blocks: Option<map<string, Span>>)
    ensures blocks == match Scan(lines, {}) case None => None case Some(pieces) => Some(BlocksOf(pieces, 0))
  {
    ScanStarts(lines);
    hide Scanning, Scan, IsGap, TextOf, IsContinuation, IsListItem, IsBlockScalar, ParseProperty, BlocksOf, Names;
    var found: map<string, Span> := map[];
    ghost var done: seq<Piece> := [];
    var index := 0;
    while index < |lines|
      invariant index <= |lines| && Scanning(lines, index, done, found)
    {
      if IsGap(TextOf(lines[index])) {
        GapNext(lines, index, done, found);
        done := done + [Gap(lines[index])];
        index := index + 1;
        continue;
      }
      var property := ParseProperty(TextOf(lines[index]));
      var end := index + 1;
      var items := true;
      while end < |lines| && IsContinuation(TextOf(lines[end]))
        invariant index < end <= |lines| && forall i :: index < i < end ==> IsContinuation(TextOf(lines[i]))
        invariant items <==> AllItems(lines[index + 1..end])
      {
        assert lines[index + 1..end + 1] == lines[index + 1..end] + [lines[end]];
        items := items && IsListItem(TextOf(lines[end]));
        end := end + 1;
      }
      BlockNext(lines, index, done, found, end);
      if property.None? || property.value.name in found || IsBlockScalar(property.value.inlineValue)
         || (end > index + 1 && (property.value.inlineValue != "" || !items)) {
        return None;
      }
      done := done + [Block(property.value.name, lines[index..end])];
      found := found[property.value.name := Span(index, end)];
      index := end;
    }
    ScanEnds(lines, done, found);
    return Some(found);
  }

  lemma ScanStarts(lines: seq<string>)
    ensures Scanning(lines, 0, [], map[])
  {
    assert lines[0..] == lines && lines[..0] == [];
    assert Names([]) == {};
    assert forall rest: seq<Piece> :: [] + rest == rest;
  }

  lemma ScanEnds(lines: seq<string>, done: seq<Piece>, blocks: map<string, Span>)
    requires Scanning(lines, |lines|, done, blocks)
    ensures Scan(lines, {}) == Some(done) && blocks == BlocksOf(done, 0)
  {
    assert lines[|lines|..] == [] && done + [] == done;
  }

  /** There is no frontmatter, or it is closed and nothing in it is refused. */
  ghost predicate Editable(content: string) {
    match FrontmatterLayout(content)
    case Unclosed => false
    case NoFrontmatter => true
    case Found(l) => Scan(l.lines, {}).Some?
  }

  lemma {:induction false} SetMeans(content: string, name: string, raw: string, kind: PropertyType, host: Host)
    ensures SerializeProperty(name, raw, kind, host).Some? <==> IsName(name) && Accepts(raw, kind, host)
    ensures SerializeProperty(name, raw, kind, host).Some? ==>
      var after := SetContent(content, name, SerializeProperty(name, raw, kind, host).value);
      && (after.Some? <==> Editable(content))
      && (after.Some? && Settable(content, name) && Readable(raw, kind, host) && NumbersOk(host) ==> NoteSays(after.value, name, raw, kind, host))
  {
    SerializedIff(name, raw, kind, host);
    hide FrontmatterLayout, Scan, SerializeProperty, Accepts, Settable, Readable, NumbersOk, NoteSays, Put, Flat, JoinLines, Ended, HasCrlf, BomOf;
    if SerializeProperty(name, raw, kind, host).Some? && Settable(content, name) && Readable(raw, kind, host) && NumbersOk(host)
       && SetContent(content, name, SerializeProperty(name, raw, kind, host).value).Some? {
      SetSays(content, name, raw, kind, host);
    }
  }

  method ApplyNotePropertySet(currentContent: string, name: string, raw: string, kind: PropertyType, host: Host) returns (content: Option<string>)
    ensures content == match SerializeProperty(name, raw, kind, host)
                       case None => None
                       case Some(texts) => SetContent(currentContent, name, texts)
    ensures content.Some? <==> IsName(name) && Accepts(raw, kind, host) && Editable(currentContent)
    ensures content.Some? && Settable(currentContent, name) && Readable(raw, kind, host) && NumbersOk(host) ==>
      NoteSays(content.value, name, raw, kind, host)
  {
    SetMeans(currentContent, name, raw, kind, host);
    hide FrontmatterLayout, Scan, Put, Flat, JoinLines, Ended, HasCrlf, BlocksOf, Has, SerializeProperty, Accepts, Editable, Settable, Readable,
         NumbersOk, NoteSays;
    var serialized := SerializeProperty(name, raw, kind, host);
    if serialized.None? {
      return None;
    }
    var texts := serialized.value;
    var layout := FrontmatterLayout(currentContent);
    if layout.Unclosed? {
      return None;
    }
    if layout.NoFrontmatter? {
      var ending := LineEndingFor(currentContent);
      var bom := BomOf(currentContent);
      var body := currentContent[|bom|..];
      return Some(bom + "---" + ending + JoinLines(Ended(texts, ending)) + "---" + ending + body);
    }
    var l := layout.layout;
    var blocks := PropertyBlocks(l.lines);
    if blocks.None? {
      return None;
    }
    ghost var pieces := Scan(l.lines, {}).value;
    ScanSound(l.lines, {});
    BlocksOfNames(pieces, 0);
    var replacement := Ended(texts, l.lineEnding);
    var lines := l.lines;
    if name in blocks.value {
      var existing := blocks.value[name];
      SpliceLines(pieces, name, replacement);
      lines := lines[..existing.start] + replacement + lines[existing.end..];
    } else {
      AbsentIsAppended(pieces, name, replacement);
      lines := lines + replacement;
    }
    return Some(l.opening + JoinLines(lines) + l.closing + l.body);
  }

  lemma AbsentIsAppended(pieces: seq<Piece>, name: string, lines: seq<string>)
    requires !Has(pieces, name)
    ensures Flat(Put(pieces, name, lines)) == Flat(pieces) + lines
  {
    AbsentIsKept(pieces, name);
    FlatPush(pieces, Block(name, lines));
  }

  method ApplyNotePropertyRemove(currentContent: string, name: string) returns (removal: Removal)
    ensures removal == if IsName(name) then RemoveContent(currentContent, name) else Refused
  {
    hide FrontmatterLayout, Scan, Put, Drop, Flat, JoinLines, BlocksOf, Has, Trim;
    if !IsName(name) {
      return Refused;
    }
    var layout := FrontmatterLayout(currentContent);
    if layout.Unclosed? {
      return Refused;
    }
    if layout.NoFrontmatter? {
      return Missing;
    }
    var l := layout.layout;
    var blocks := PropertyBlocks(l.lines);
    if blocks.None? {
      return Refused;
    }
    ghost var pieces := Scan(l.lines, {}).value;
    ScanSound(l.lines, {});
    BlocksOfNames(pieces, 0);
    if name !in blocks.value {
      return Missing;
    }
    var existing := blocks.value[name];
    SpliceLines(pieces, name, []);
    var frontmatter := JoinLines(l.lines[..existing.start] + l.lines[existing.end..]);
    if Trim(frontmatter) == "" {
      return Removed(l.bom + l.body);
    }
    return Removed(l.opening + frontmatter + l.closing + l.body);
  }
}
