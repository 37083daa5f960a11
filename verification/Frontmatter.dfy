/** The lines and the markers of a note's frontmatter (src/application/note-properties.ts). */
module Frontmatter {
  import opened Options
  import opened Sequences
  import opened JsText

  // ---------- lines ----------

  /** The regular expression skips what stands before a carriage return that no line feed follows. */
  function SplitFrom(prefix: string, s: string): seq<string>
    decreases |s|
  {
    if s == "" then (if prefix == "" then [] else [prefix])
    else if s[0] == '\n' then [prefix + "\n"] + SplitFrom("", s[1..])
    else if s[0] == '\r' then
      if |s| > 1 && s[1] == '\n' then [prefix + "\r\n"] + SplitFrom("", s[2..]) else SplitFrom("", s[1..])
    else SplitFrom(prefix + [s[0]], s[1..])
  }

  function SplitLines(s: string): seq<string> {
    SplitFrom("", s)
  }

  function JoinLines(lines: seq<string>): string {
    if lines == [] then "" else lines[0] + JoinLines(lines[1..])
  }

  ghost predicate NoBareCr(s: string) {
    s == "" || ((s[0] == '\r' ==> |s| > 1 && s[1] == '\n') && NoBareCr(s[1..]))
  }

  /** A line of text and its line end. */
  ghost predicate WellLine(line: string) {
    exists text: string, ending: string :: line == text + ending && (ending == "\n" || ending == "\r\n") && '\r' !in text && '\n' !in text
  }

  function TextOf(full: string): string {
    if full != "" && full[|full| - 1] == '\n' then
      if |full| > 1 && full[|full| - 2] == '\r' then full[..|full| - 2] else full[..|full| - 1]
    else full
  }

  lemma {:induction false} SplitFromJoins(prefix: string, s: string)
    ensures NoBareCr(s) ==> JoinLines(SplitFrom(prefix, s)) == prefix + s
    ensures !NoBareCr(s) ==> |JoinLines(SplitFrom(prefix, s))| < |prefix| + |s|
    decreases |s|
  {
    if s == "" {
      assert [prefix][1..] == [] && prefix + "" == prefix;
    } else if s[0] == '\r' && !(|s| > 1 && s[1] == '\n') {
      SplitFromJoins("", s[1..]);
    } else if s[0] == '\n' || s[0] == '\r' {
      var n := if s[0] == '\n' then 1 else 2;
      SplitFromJoins("", s[n..]);
      assert s[..n] == if n == 1 then "\n" else "\r\n";
      assert n == 2 ==> s[1..][1..] == s[2..] && (NoBareCr(s[1..]) <==> NoBareCr(s[2..]));
      ConsLine(prefix + s[..n], SplitFrom("", s[n..]));
      Regroup(prefix, s, n);
    } else {
      SplitFromJoins(prefix + [s[0]], s[1..]);
      Regroup(prefix, s, 1);
    }
  }

  lemma ConsLine(line: string, lines: seq<string>)
    ensures JoinLines([line] + lines) == line + JoinLines(lines)
  {
    assert ([line] + lines)[1..] == lines;
  }

  lemma Regroup(prefix: string, s: string, n: nat)
    requires n <= |s|
    ensures prefix + s[..n] + s[n..] == prefix + s
  {
    assert s[..n] + s[n..] == s;
    Associative(prefix, s[..n], s[n..]);
  }

  /** Splitting loses no character exactly when every carriage return is part of a line end. */
  lemma {:induction false} SplitLosesNothing(s: string)
    ensures JoinLines(SplitLines(s)) == s <==> NoBareCr(s)
  {
    SplitFromJoins("", s);
  }

  predicate Clean(text: string) {
    '\r' !in text && '\n' !in text
  }

  predicate IsEnding(ending: string) {
    ending == "\n" || ending == "\r\n"
  }

  lemma {:induction false} SplitLine(prefix: string, text: string, ending: string, rest: string)
    requires Clean(text) && IsEnding(ending)
    ensures SplitFrom(prefix, text + ending + rest) == [prefix + text + ending] + SplitFrom("", rest)
    decreases |text|
  {
    if text == "" {
      assert text + ending + rest == ending + rest && prefix + text + ending == prefix + ending;
      assert (ending + rest)[|ending|..] == rest;
    } else {
      var s := text + ending + rest;
      assert s[0] == text[0] && s[1..] == text[1..] + ending + rest;
      SplitLine(prefix + [text[0]], text[1..], ending, rest);
      assert prefix + [text[0]] + text[1..] == prefix + text by {
        HeadTail(text);
        Associative(prefix, [text[0]], text[1..]);
      }
    }
  }

  ghost predicate EndsInLine(s: string) {
    s == "" || s[|s| - 1] == '\n'
  }

  lemma {:induction false} SplitFromWell(prefix: string, s: string)
    requires Clean(prefix) && s != "" && EndsInLine(s)
    ensures forall line :: line in SplitFrom(prefix, s) ==> WellLine(line)
    decreases |s|
  {
    if s[0] == '\n' {
      assert WellLine(prefix + "\n");
      if s[1..] != "" { SplitFromWell("", s[1..]); }
    } else if s[0] == '\r' && |s| > 1 && s[1] == '\n' {
      assert WellLine(prefix + "\r\n");
      if s[2..] != "" { SplitFromWell("", s[2..]); }
    } else if s[0] == '\r' {
      SplitFromWell("", s[1..]);
    } else {
      SplitFromWell(prefix + [s[0]], s[1..]);
    }
  }

  lemma SplitIsWell(s: string)
    requires EndsInLine(s)
    ensures forall line :: line in SplitLines(s) ==> WellLine(line)
  {
    if s != "" { SplitFromWell("", s); }
  }

  lemma {:induction false} SplitJoined(lines: seq<string>)
    requires forall line :: line in lines ==> WellLine(line)
    ensures SplitLines(JoinLines(lines)) == lines
    decreases |lines|
  {
    if lines != [] {
      assert lines[0] in lines;
      var text: string, ending: string :| lines[0] == text + ending && IsEnding(ending) && Clean(text);
      SplitJoined(lines[1..]);
      SplitLine("", text, ending, JoinLines(lines[1..]));
      assert "" + text + ending == lines[0];
      HeadTail(lines);
    }
  }

  /** The offset behind the last line feed. */
  function LastStart(s: string): (at: nat)
    ensures at <= |s|
    decreases |s|
  {
    if s == "" || s[|s| - 1] == '\n' then |s| else LastStart(s[..|s| - 1])
  }

  function Unended(s: string): string {
    s[LastStart(s)..]
  }

  function BeforeUnended(s: string): string {
    s[..LastStart(s)]
  }

  /** A line without a line end, where there is one. */
  function Tail(last: string): seq<string> {
    if last == "" then [] else [last]
  }

  lemma {:induction false} LastStartsThere(s: string)
    ensures var at := LastStart(s); (at > 0 ==> s[at - 1] == '\n') && forall i :: at <= i < |s| ==> s[i] != '\n'
    decreases |s|
  {
    if s != "" && s[|s| - 1] != '\n' {
      var init := s[..|s| - 1];
      LastStartsThere(init);
      forall i | LastStart(s) <= i < |s| ensures s[i] != '\n' {
        if i < |init| { assert init[i] == s[i]; }
      }
    }
  }

  lemma {:induction false} UnendedParts(s: string)
    ensures s == BeforeUnended(s) + Unended(s) && EndsInLine(BeforeUnended(s)) && '\n' !in Unended(s)
    ensures EndsInLine(s) <==> Unended(s) == ""
  {
    LastStartsThere(s);
    hide LastStart;
    var at := LastStart(s);
    CutAt(s, at);
    if at < |s| { assert s[|s| - 1] != '\n'; }
  }

  lemma {:induction false} NoBareCrConcat(a: string, b: string)
    requires EndsInLine(a)
    ensures NoBareCr(a + b) <==> NoBareCr(a) && NoBareCr(b)
    decreases |a|
  {
    if a == "" {
      assert a + b == b;
    } else {
      assert (a + b)[1..] == a[1..] + b;
      NoBareCrConcat(a[1..], b);
      if |a| > 1 { assert (a + b)[1] == a[1]; }
    }
  }

  lemma {:induction false} NoCrWithoutLf(s: string)
    requires NoBareCr(s) && '\n' !in s
    ensures Clean(s)
    decreases |s|
  {
    if s != "" {
      assert forall c :: c in s <==> c == s[0] || c in s[1..];
      assert |s| > 1 ==> s[1] in s;
      NoCrWithoutLf(s[1..]);
    }
  }

  lemma {:induction false} SplitUnended(prefix: string, s: string)
    requires Clean(s) && prefix + s != ""
    ensures SplitFrom(prefix, s) == [prefix + s]
    decreases |s|
  {
    if s == "" {
      assert prefix + s == prefix;
    } else {
      assert s[0] in s;
      SplitUnended(prefix + [s[0]], s[1..]);
      HeadTail(s);
      Associative(prefix, [s[0]], s[1..]);
    }
  }

  lemma {:induction false} SplitConcat(prefix: string, a: string, b: string)
    requires a != "" && EndsInLine(a)
    ensures SplitFrom(prefix, a + b) == SplitFrom(prefix, a) + SplitFrom("", b)
    decreases |a|
  {
    assert (a + b)[0] == a[0] && (a + b)[1..] == a[1..] + b;
    if a[0] == '\n' || a[0] == '\r' {
      var n := if a[0] == '\r' && |a| > 1 && a[1] == '\n' then 2 else 1;
      assert |a| > 1 ==> (a + b)[1] == a[1];
      assert (a + b)[n..] == a[n..] + b;
      var line := if n == 2 then [prefix + "\r\n"] else if a[0] == '\n' then [prefix + "\n"] else [];
      if a[n..] == "" {
        assert a[n..] + b == b && SplitFrom("", a[n..]) == [];
        assert line + [] + SplitFrom("", b) == line + SplitFrom("", b);
      } else {
        SplitConcat("", a[n..], b);
        Associative(line, SplitFrom("", a[n..]), SplitFrom("", b));
      }
    } else {
      SplitConcat(prefix + [a[0]], a[1..], b);
    }
  }

  /** Text without a bare carriage return splits into ended lines and perhaps one that is not. */
  lemma {:induction false} SplitParts(s: string)
    requires NoBareCr(s)
    ensures var lines, last := SplitLines(BeforeUnended(s)), Unended(s);
            && SplitLines(s) == lines + Tail(last) && JoinLines(lines) + last == s && Clean(last)
            && forall line :: line in lines ==> WellLine(line)
  {
    var head, last := BeforeUnended(s), Unended(s);
    UnendedParts(s);
    NoBareCrConcat(head, last);
    NoCrWithoutLf(last);
    SplitLosesNothing(head);
    SplitIsWell(head);
    SplitEnds(head, last);
  }

  lemma {:induction false} SplitEnds(head: string, last: string)
    requires EndsInLine(head) && Clean(last)
    ensures SplitLines(head + last) == SplitLines(head) + Tail(last)
  {
    if last != "" { SplitUnended("", last); }
    if head == "" {
      assert head + last == last && "" + last == last && [] + Tail(last) == Tail(last);
    } else {
      SplitConcat("", head, last);
      assert "" + last == last;
    }
  }

  /** Every line but the last has its line end. */
  lemma {:induction false} OnlyLastUnended(prefix: string, s: string, i: nat)
    requires i + 1 < |SplitFrom(prefix, s)|
    ensures var line := SplitFrom(prefix, s)[i]; line != "" && line[|line| - 1] == '\n'
    decreases |s|
  {
    if s != "" {
      if s[0] == '\n' || (s[0] == '\r' && |s| > 1 && s[1] == '\n') {
        var n := if s[0] == '\n' then 1 else 2;
        if i > 0 { OnlyLastUnended("", s[n..], i - 1); }
      } else if s[0] == '\r' {
        OnlyLastUnended("", s[1..], i);
      } else {
        OnlyLastUnended(prefix + [s[0]], s[1..], i);
      }
    }
  }

  lemma {:induction false} NoBareCrLine(text: string, ending: string, rest: string)
    requires Clean(text) && IsEnding(ending)
    ensures NoBareCr(text + ending + rest) <==> NoBareCr(rest)
    decreases |text|
  {
    var s := text + ending + rest;
    if text == "" {
      assert s == ending + rest && s[|ending|..] == rest;
      if ending == "\r\n" { assert s[1..][1..] == rest && NoBareCr(s[1..]) == NoBareCr(rest); }
    } else {
      assert s[1..] == text[1..] + ending + rest;
      NoBareCrLine(text[1..], ending, rest);
    }
  }

  lemma {:induction false} JoinedIsWell(lines: seq<string>)
    requires forall line :: line in lines ==> WellLine(line)
    ensures NoBareCr(JoinLines(lines)) && EndsInLine(JoinLines(lines))
    decreases |lines|
  {
    if lines != [] {
      assert lines[0] in lines;
      var text: string, ending: string :| lines[0] == text + ending && IsEnding(ending) && Clean(text);
      JoinedIsWell(lines[1..]);
      NoBareCrLine(text, ending, JoinLines(lines[1..]));
    }
  }

  lemma {:induction false} JoinConcat(a: seq<string>, b: seq<string>)
    ensures JoinLines(a + b) == JoinLines(a) + JoinLines(b)
    decreases |a|
  {
    if a == [] {
      assert a + b == b;
    } else {
      assert (a + b)[1..] == a[1..] + b;
      JoinConcat(a[1..], b);
      Associative(a[0], JoinLines(a[1..]), JoinLines(b));
    }
  }

  lemma TextOfLine(text: string, ending: string)
    requires Clean(text) && IsEnding(ending)
    ensures TextOf(text + ending) == text && WellLine(text + ending)
  {
    var full := text + ending;
    assert full[..|text|] == text;
    if ending == "\n" && text != "" { assert full[|full| - 2] == text[|text| - 1]; }
  }

  // ---------- markers ----------

  const BOM: char := '\U{FEFF}'

  predicate IsBlank(c: char) {
    c == ' ' || c == '\t'
  }

  /** What `^` and `$` take for a line end in a multi-line regular expression. */
  predicate IsTerminator(c: char) {
    c == '\n' || c == '\r' || c == '\U{2028}' || c == '\U{2029}'
  }

  function AfterBlanks(s: string): (r: string)
    ensures |r| <= |s| && s[|s| - |r|..] == r
  {
    if s != "" && IsBlank(s[0]) then AfterBlanks(s[1..]) else s
  }

  function BomOf(content: string): string {
    if content != "" && content[0] == BOM then [BOM] else ""
  }

  function AfterNewline(rest: string): Option<string> {
    if StartsWith(rest, "\r\n") then Some(rest[2..]) else if StartsWith(rest, "\n") then Some(rest[1..]) else None
  }

  function AfterDashes(s: string): Option<string> {
    if StartsWith(s, "---") then AfterNewline(AfterBlanks(s[3..])) else None
  }

  /** What follows an opening marker at the start of `content`. */
  function OpeningRest(content: string): Option<string> {
    AfterDashes(content[|BomOf(content)|..])
  }

  /** What follows the end of a marker's line, or of the text, when `rest` stands there. */
  function AfterLineEnd(rest: string): (r: Option<string>)
    ensures r.Some? ==> |r.value| <= |rest| && rest[|rest| - |r.value|..] == r.value
  {
    if StartsWith(rest, "\r\n") then Some(rest[2..])
    else if StartsWith(rest, "\n") then Some(rest[1..])
    else if rest == "" || IsTerminator(rest[0]) then Some(rest)
    else None
  }

  predicate StartsMarker(s: string)
    ensures StartsMarker(s) ==> |s| >= 3
  {
    StartsWith(s, "---") || StartsWith(s, "...")
  }

  /** What follows a closing marker at the start of `s`, if one stands there. */
  function ClosingRest(s: string): Option<string> {
    if StartsMarker(s) then AfterLineEnd(AfterBlanks(s[3..])) else None
  }

  lemma SuffixTwice(s: string, a: string, b: string)
    requires |a| <= |s| && s[|s| - |a|..] == a && |b| <= |a| && a[|a| - |b|..] == b
    ensures s[|s| - |b|..] == b
  {
  }

  lemma ClosingIsSuffix(s: string)
    ensures var r := ClosingRest(s); r.Some? ==> |r.value| < |s| && s[|s| - |r.value|..] == r.value
  {
    hide AfterBlanks, AfterLineEnd, StartsMarker;
    if ClosingRest(s).Some? {
      var rest := AfterBlanks(s[3..]);
      SuffixTwice(s, s[3..], rest);
      SuffixTwice(s, rest, ClosingRest(s).value);
    }
  }

  /** The first line start at which a closing marker stands. */
  function FindClosing(atStart: bool, s: string): (i: Option<nat>)
    ensures i.Some? ==> i.value <= |s|
    decreases |s|
  {
    if atStart && ClosingRest(s).Some? then Some(0)
    else if s == "" then None
    else
      var i := FindClosing(IsTerminator(s[0]), s[1..]);
      if i.None? then None else Some(i.value + 1)
  }

  /** No closing marker starts within `f` when `after` follows it. */
  ghost predicate Clear(atStart: bool, f: string, after: string)
    decreases |f|
  {
    f == "" || (!(atStart && ClosingRest(f + after).Some?) && Clear(IsTerminator(f[0]), f[1..], after))
  }

  ghost predicate StartsLine(atStart: bool, f: string) {
    if f == "" then atStart else IsTerminator(f[|f| - 1])
  }

  lemma {:induction false} FindsClear(atStart: bool, f: string, marker: string)
    requires Clear(atStart, f, marker) && StartsLine(atStart, f) && ClosingRest(marker).Some?
    ensures FindClosing(atStart, f + marker) == Some(|f|)
    decreases |f|
  {
    hide ClosingRest, IsTerminator;
    if f == "" {
      assert f + marker == marker;
    } else {
      assert (f + marker)[0] == f[0] && (f + marker)[1..] == f[1..] + marker;
      FindsClear(IsTerminator(f[0]), f[1..], marker);
    }
  }

  lemma {:induction false} FoundIsClear(atStart: bool, s: string)
    ensures var i := FindClosing(atStart, s);
            i.Some? ==> Clear(atStart, s[..i.value], s[i.value..]) && StartsLine(atStart, s[..i.value]) && ClosingRest(s[i.value..]).Some?
    decreases |s|
  {
    hide ClosingRest, IsTerminator;
    var i := FindClosing(atStart, s);
    if i.Some? {
      if i.value == 0 {
        assert s[0..] == s && s[..0] == "";
      } else {
        FoundIsClear(IsTerminator(s[0]), s[1..]);
        var n := i.value - 1;
        assert s[..n + 1][1..] == s[1..][..n] && s[n + 1..] == s[1..][n..] && s[..n + 1][0] == s[0];
        assert s[..n + 1] + s[n + 1..] == s;
        if n > 0 { assert s[..n + 1][n] == s[1..][..n][n - 1]; }
      }
    }
  }

  /** The text ends in a line end, of whatever kind. */
  predicate EndsLine(s: string) {
    s != "" && IsTerminator(s[|s| - 1])
  }

  lemma {:induction false} AfterBlanksWithin(s: string, after: string)
    requires EndsLine(s)
    ensures AfterBlanks(s) != "" && AfterBlanks(s + after) == AfterBlanks(s) + after
    ensures EndsLine(AfterBlanks(s))
    decreases |s|
  {
    if IsBlank(s[0]) {
      assert (s + after)[1..] == s[1..] + after;
      AfterBlanksWithin(s[1..], after);
    }
  }

  lemma ShortPrefix(s: string, after: string, marker: string)
    requires s != "" && |marker| >= |s| && StartsWith(s + after, marker)
    ensures s[|s| - 1] in marker
  {
    assert marker[|s| - 1] == (s + after)[|s| - 1];
  }

  lemma PrefixWithin(s: string, after: string, marker: string)
    requires EndsLine(s) && forall c :: c in marker ==> !IsTerminator(c)
    ensures StartsWith(s + after, marker) ==> StartsWith(s, marker)
    ensures StartsWith(s, marker) ==> StartsWith(s + after, marker) && |marker| < |s| && (s + after)[|marker|..] == s[|marker|..] + after
  {
    if StartsWith(s + after, marker) && |marker| >= |s| {
      ShortPrefix(s, after, marker);
    }
  }

  lemma LineEndWithin(rest: string, after: string)
    requires EndsLine(rest)
    ensures AfterLineEnd(rest + after).Some? <==> AfterLineEnd(rest).Some?
  {
    assert (rest + after)[0] == rest[0];
    assert |rest| > 1 ==> (rest + after)[1] == rest[1];
  }

  lemma MarkerWithin(s: string, after: string)
    requires EndsLine(s)
    ensures StartsMarker(s + after) <==> StartsMarker(s)
    ensures StartsMarker(s) ==> 3 < |s| && (s + after)[3..] == s[3..] + after
  {
    PrefixWithin(s, after, "---");
    PrefixWithin(s, after, "...");
  }

  /** Whether a marker closes the frontmatter shows within its own line. */
  lemma {:induction false} ClosingWithin(s: string, after: string)
    requires EndsLine(s)
    ensures ClosingRest(s + after).Some? <==> ClosingRest(s).Some?
  {
    hide AfterBlanks, AfterLineEnd, StartsMarker;
    MarkerWithin(s, after);
    if StartsMarker(s) {
      AfterBlanksWithin(s[3..], after);
      LineEndWithin(AfterBlanks(s[3..]), after);
    }
  }

  lemma {:induction false} ClearWithin(atStart: bool, f: string, after: string)
    requires f == "" || EndsLine(f)
    ensures Clear(atStart, f, after) <==> Clear(atStart, f, "")
    decreases |f|
  {
    hide ClosingRest, IsTerminator;
    if f != "" {
      ClosingWithin(f, after);
      assert f + "" == f;
      ClearWithin(IsTerminator(f[0]), f[1..], after);
    }
  }

  lemma {:induction false} ClearConcat(atStart: bool, a: string, b: string, after: string)
    ensures Clear(atStart, a + b, after) <==> Clear(atStart, a, b + after) && Clear(StartsLine(atStart, a), b, after)
    decreases |a|
  {
    hide ClosingRest, IsTerminator;
    if a == "" {
      assert a + b == b;
    } else {
      assert (a + b)[0] == a[0] && (a + b)[1..] == a[1..] + b;
      Associative(a, b, after);
      ClearConcat(IsTerminator(a[0]), a[1..], b, after);
    }
  }

  lemma {:induction false} LinesClear(lines: seq<string>, after: string)
    requires forall line :: line in lines ==> WellLine(line)
    ensures Clear(true, JoinLines(lines), after) <==> forall line :: line in lines ==> Clear(true, line, "")
    decreases |lines|
  {
    if lines != [] {
      assert lines[0] in lines && WellLine(lines[0]);
      var rest := JoinLines(lines[1..]);
      ClearConcat(true, lines[0], rest, after);
      ClearWithin(true, lines[0], rest + after);
      LinesClear(lines[1..], after);
      HeadTail(lines);
      hide Clear, WellLine;
    }
  }

  // ---------- the layout ----------

  datatype Layout = Layout(bom: string, opening: string, lines: seq<string>, closing: string, body: string, lineEnding: string)

  datatype LayoutResult = NoFrontmatter | Unclosed | Found(layout: Layout)

  predicate HasCrlf(s: string) {
    |s| > 1 && ((s[0] == '\r' && s[1] == '\n') || HasCrlf(s[1..]))
  }

  function LineEndingFor(content: string): (ending: string)
    ensures IsEnding(ending)
  {
    if HasCrlf(content) then "\r\n" else "\n"
  }

  datatype Parts = Parts(frontmatter: string, closing: string, body: string)

  /** Cuts what follows the opening marker at the first closing marker. */
  function CutFrontmatter(remaining: string): Option<Parts> {
    var i := FindClosing(true, remaining);
    if i.None? then None
    else
      var marker := remaining[i.value..];
      FoundIsClear(true, remaining);
      ClosingIsSuffix(marker);
      var body := ClosingRest(marker).value;
      Some(Parts(remaining[..i.value], marker[..|marker| - |body|], body))
  }

  /** The text between the markers. */
  function FrontmatterOf(content: string): string {
    match OpeningRest(content)
    case None => ""
    case Some(remaining) =>
      var parts := CutFrontmatter(remaining);
      if parts.None? then "" else parts.value.frontmatter
  }

  function FrontmatterLayout(content: string): LayoutResult {
    match OpeningRest(content)
    case None => NoFrontmatter
    case Some(remaining) =>
      var parts := CutFrontmatter(remaining);
      if parts.None? then Unclosed
      else
        OpeningKept(content);
        Found(Layout(BomOf(content), content[..|content| - |remaining|], SplitLines(parts.value.frontmatter),
                     parts.value.closing, parts.value.body, LineEndingFor(content)))
  }

  predicate AllBlank(blanks: string) {
    forall c :: c in blanks ==> IsBlank(c)
  }

  lemma {:induction false} BlanksSkipped(blanks: string, y: string)
    requires AllBlank(blanks) && y != "" && !IsBlank(y[0])
    ensures AfterBlanks(blanks + y) == y
    decreases |blanks|
  {
    if blanks == "" {
      assert blanks + y == y;
    } else {
      assert blanks[0] in blanks && (blanks + y)[1..] == blanks[1..] + y;
      BlanksSkipped(blanks[1..], y);
    }
  }

  lemma {:induction false} LeadingBlanks(s: string) returns (blanks: string)
    ensures s == blanks + AfterBlanks(s) && AllBlank(blanks)
    decreases |s|
  {
    if s != "" && IsBlank(s[0]) {
      var rest := LeadingBlanks(s[1..]);
      blanks := [s[0]] + rest;
      HeadTail(s);
      Associative([s[0]], rest, AfterBlanks(s[1..]));
    } else {
      blanks := "";
    }
  }

  /** A marker line as it opens frontmatter. */
  function OpeningOf(bom: string, blanks: string, ending: string): string {
    bom + ("---" + (blanks + ending))
  }

  ghost predicate IsOpening(opening: string) {
    exists bom: string, blanks: string, ending: string ::
      opening == OpeningOf(bom, blanks, ending) && (bom == "" || bom == [BOM]) && AllBlank(blanks) && IsEnding(ending)
  }

  lemma OpeningThen(bom: string, blanks: string, ending: string, x: string)
    ensures OpeningOf(bom, blanks, ending) + x == bom + ("---" + (blanks + (ending + x)))
  {
    Associative(bom, "---" + (blanks + ending), x);
    Associative("---", blanks + ending, x);
    Associative(blanks, ending, x);
  }

  lemma NewlineReads(ending: string, x: string)
    requires IsEnding(ending)
    ensures AfterNewline(ending + x) == Some(x) && ending + x != "" && !IsBlank((ending + x)[0])
  {
    DropHead(ending, x);
  }

  lemma DashesRead(blanks: string, ending: string, x: string)
    requires AllBlank(blanks) && IsEnding(ending)
    ensures AfterDashes("---" + (blanks + (ending + x))) == Some(x)
  {
    NewlineReads(ending, x);
    BlanksSkipped(blanks, ending + x);
    DropHead("---", blanks + (ending + x));
    hide AfterBlanks, AllBlank, AfterNewline;
  }

  lemma NewlineShape(rest: string) returns (ending: string)
    requires AfterNewline(rest).Some?
    ensures IsEnding(ending) && rest == ending + AfterNewline(rest).value
  {
    ending := if StartsWith(rest, "\r\n") then "\r\n" else "\n";
  }

  lemma DashesShape(s: string) returns (blanks: string, ending: string)
    requires AfterDashes(s).Some?
    ensures AllBlank(blanks) && IsEnding(ending) && s == "---" + (blanks + (ending + AfterDashes(s).value))
  {
    blanks := LeadingBlanks(s[3..]);
    ending := NewlineShape(AfterBlanks(s[3..]));
    assert s == "---" + s[3..];
    hide AfterBlanks, AllBlank, AfterNewline;
  }

  lemma BomReads(bom: string, s: string)
    requires (bom == "" || bom == [BOM]) && s != "" && s[0] != BOM
    ensures BomOf(bom + s) == bom && (bom + s)[|bom|..] == s
  {
    DropHead(bom, s);
  }

  /** A marker line reads as an opening marker whatever follows it. */
  lemma {:induction false} OpeningReads(opening: string, x: string)
    requires IsOpening(opening)
    ensures OpeningRest(opening + x) == Some(x) && BomOf(opening + x) == BomOf(opening)
  {
    var bom: string, blanks: string, ending: string :|
      opening == OpeningOf(bom, blanks, ending) && (bom == "" || bom == [BOM]) && AllBlank(blanks) && IsEnding(ending);
    hide AfterBlanks, AllBlank, AfterDashes, BomOf;
    OpeningThen(bom, blanks, ending, x);
    BomReads(bom, "---" + (blanks + (ending + x)));
    BomReads(bom, "---" + (blanks + ending));
    DashesRead(blanks, ending, x);
  }

  lemma ShapeIsOpening(bom: string, blanks: string, ending: string)
    requires (bom == "" || bom == [BOM]) && AllBlank(blanks) && IsEnding(ending)
    ensures IsOpening(OpeningOf(bom, blanks, ending)) && OpeningOf(bom, blanks, ending) != ""
  {
  }

  lemma {:induction false} OpeningKept(content: string)
    requires OpeningRest(content).Some?
    ensures var remaining := OpeningRest(content).value;
            |remaining| < |content| && content == content[..|content| - |remaining|] + remaining
            && IsOpening(content[..|content| - |remaining|]) && BomOf(content[..|content| - |remaining|]) == BomOf(content)
  {
    var remaining := OpeningRest(content).value;
    var bom := BomOf(content);
    var blanks, ending := DashesShape(content[|bom|..]);
    BomIsHead(content);
    hide AfterBlanks, AllBlank, AfterDashes, BomOf;
    var opening := OpeningOf(bom, blanks, ending);
    ShapeIsOpening(bom, blanks, ending);
    OpeningThen(bom, blanks, ending, remaining);
    hide OpeningOf, IsOpening, OpeningRest, IsEnding;
    assert content == opening + remaining;
    TakeHead(opening, remaining);
    OpeningReads(opening, remaining);
  }

  lemma BomIsHead(content: string)
    ensures content == BomOf(content) + content[|BomOf(content)|..] && (BomOf(content) == "" || BomOf(content) == [BOM])
  {
  }

  lemma BomCase(content: string)
    ensures BomOf(content) == "" || BomOf(content) == [BOM]
  {
  }

  lemma TakeHead(a: string, b: string)
    ensures (a + b)[..|a + b| - |b|] == a
  {
  }

  // ---------- taking apart and putting together ----------

  function Assemble(opening: string, frontmatter: string, closing: string, body: string): string {
    opening + (frontmatter + (closing + body))
  }

  ghost predicate IsClosing(closing: string, body: string) {
    closing != "" && ClosingRest(closing + body) == Some(body)
  }

  lemma {:induction false} CutParts(remaining: string)
    requires CutFrontmatter(remaining).Some?
    ensures var p := CutFrontmatter(remaining).value;
            && remaining == p.frontmatter + (p.closing + p.body)
            && IsClosing(p.closing, p.body) && Clear(true, p.frontmatter, p.closing + p.body) && StartsLine(true, p.frontmatter)
  {
    hide ClosingRest, FindClosing, Clear, StartsLine, SplitLines, AfterBlanks, AfterLineEnd;
    var i := FindClosing(true, remaining).value;
    var marker := remaining[i..];
    var p := CutFrontmatter(remaining).value;
    FoundIsClear(true, remaining);
    ClosingIsSuffix(marker);
    CutEnd(marker, p.body);
    assert p.closing + p.body == marker && p.frontmatter == remaining[..i];
    CutAt(remaining, i);
  }

  lemma CutAt(s: string, i: nat)
    requires i <= |s|
    ensures s[..i] + s[i..] == s
  {
  }

  lemma CutEnd(s: string, end: string)
    requires |end| < |s| && s[|s| - |end|..] == end
    ensures s[..|s| - |end|] + end == s && s[..|s| - |end|] != ""
  {
  }

  lemma {:induction false} CutReads(f: string, closing: string, body: string)
    requires Clear(true, f, closing + body) && StartsLine(true, f) && IsClosing(closing, body)
    ensures CutFrontmatter(f + (closing + body)) == Some(Parts(f, closing, body))
  {
    FindsClear(true, f, closing + body);
    DropHead(f, closing + body);
    TakeHead(closing, body);
    hide ClosingRest, FindClosing, Clear, StartsLine;
    assert (f + (closing + body))[..|f|] == f;
  }

  /** The parts of a layout make up the note. */
  lemma {:induction false} LayoutParts(content: string)
    requires FrontmatterLayout(content).Found?
    ensures var l, f := FrontmatterLayout(content).layout, FrontmatterOf(content);
            && content == Assemble(l.opening, f, l.closing, l.body)
            && IsOpening(l.opening) && BomOf(l.opening) == l.bom && l.lines == SplitLines(f)
            && IsClosing(l.closing, l.body) && Clear(true, f, l.closing + l.body) && StartsLine(true, f)
            && l.lineEnding == LineEndingFor(content)
  {
    OpeningKept(content);
    CutParts(OpeningRest(content).value);
    hide OpeningRest, CutFrontmatter, Clear, StartsLine, IsOpening, IsClosing, BomOf, SplitLines, LineEndingFor;
  }

  /** A last line without a line feed hides no marker, and ends in another line end of its own. */
  ghost predicate LastOk(last: string, after: string) {
    Clean(last) && Clear(true, last, after) && StartsLine(true, last)
  }

  lemma NoLast(after: string)
    ensures LastOk("", after)
  {
  }

  /** Clear lines between markers are found again as they are, and so is a last line that is not ended. */
  lemma {:induction false} AssembledLayout(opening: string, lines: seq<string>, last: string, closing: string, body: string)
    requires IsOpening(opening) && IsClosing(closing, body) && LastOk(last, closing + body)
    requires forall line :: line in lines ==> WellLine(line) && Clear(true, line, "")
    ensures var content := Assemble(opening, JoinLines(lines) + last, closing, body);
            && FrontmatterLayout(content) == Found(Layout(BomOf(opening), opening, lines + Tail(last), closing, body, LineEndingFor(content)))
            && FrontmatterOf(content) == JoinLines(lines) + last
  {
    var f := JoinLines(lines) + last;
    JoinedIsWell(lines);
    LinesClear(lines, last + (closing + body));
    LineStartsNext(JoinLines(lines));
    ClearConcat(true, JoinLines(lines), last, closing + body);
    StartsAfter(JoinLines(lines), last);
    SplitJoined(lines);
    SplitEnds(JoinLines(lines), last);
    hide OpeningRest, CutFrontmatter, Clear, IsOpening, IsClosing, BomOf, SplitLines, JoinLines, WellLine, LineEndingFor, StartsLine, NoBareCr;
    CutReads(f, closing, body);
    OpeningReads(opening, f + (closing + body));
    TakeHead(opening, f + (closing + body));
  }

  lemma StartsAfter(a: string, b: string)
    requires StartsLine(true, a) && StartsLine(true, b)
    ensures StartsLine(true, a + b)
  {
    if b == "" { assert a + b == a; }
  }

  lemma LineStartsNext(f: string)
    requires EndsInLine(f)
    ensures StartsLine(true, f)
  {
  }

  lemma {:induction false} CrlfConcat(a: string, b: string)
    requires a == "" || a[|a| - 1] != '\r'
    ensures HasCrlf(a + b) <==> HasCrlf(a) || HasCrlf(b)
    decreases |a|
  {
    if a == "" {
      assert a + b == b;
    } else {
      assert (a + b)[1..] == a[1..] + b;
      CrlfConcat(a[1..], b);
      if |a| > 1 { assert (a + b)[1] == a[1]; }
    }
  }

  /** The line ending of a note is that of its parts. */
  lemma {:induction false} CrlfAssembled(opening: string, f: string, closing: string, body: string)
    requires IsOpening(opening) && (f == "" || f[|f| - 1] != '\r') && IsClosing(closing, body)
    ensures HasCrlf(Assemble(opening, f, closing, body)) <==>
      HasCrlf(opening) || HasCrlf(f) || HasCrlf(closing + body)
  {
    OpeningEnds(opening);
    CrlfConcat(opening, f + (closing + body));
    CrlfConcat(f, closing + body);
  }

  lemma {:induction false} CleanHasNoCrlf(s: string)
    requires Clean(s)
    ensures !HasCrlf(s)
    decreases |s|
  {
    if s != "" {
      assert s[0] in s;
      CleanHasNoCrlf(s[1..]);
    }
  }

  lemma OpeningEnds(opening: string)
    requires IsOpening(opening)
    ensures opening != "" && opening[|opening| - 1] == '\n'
  {
  }

  lemma {:induction false} CrlfLines(lines: seq<string>)
    requires forall line :: line in lines ==> WellLine(line)
    ensures HasCrlf(JoinLines(lines)) <==> exists line :: line in lines && HasCrlf(line)
    decreases |lines|
  {
    if lines != [] {
      assert lines[0] in lines && WellLine(lines[0]);
      CrlfConcat(lines[0], JoinLines(lines[1..]));
      CrlfLines(lines[1..]);
      HeadTail(lines);
    }
  }

  lemma {:induction false} CrlfLine(text: string, ending: string)
    requires Clean(text) && IsEnding(ending)
    ensures HasCrlf(text + ending) <==> ending == "\r\n"
    decreases |text|
  {
    if text == "" {
      assert text + ending == ending;
    } else {
      assert (text + ending)[1..] == text[1..] + ending;
      CrlfLine(text[1..], ending);
    }
  }

  // ---------- what splitting keeps ----------

  /** The text of a frontmatter without what splitting into lines loses. */
  function KeptOf(f: string): string {
    JoinLines(SplitLines(f))
  }

  lemma {:induction false} SplitTwice(prefix: string, s: string)
    requires Clean(prefix)
    ensures SplitLines(JoinLines(SplitFrom(prefix, s))) == SplitFrom(prefix, s)
    decreases |s|
  {
    if s == "" {
      if prefix != "" {
        SplitUnended("", prefix);
        assert [prefix][1..] == [] && prefix + "" == prefix && "" + prefix == prefix;
      }
    } else if s[0] == '\n' || (s[0] == '\r' && |s| > 1 && s[1] == '\n') {
      var n, ending := if s[0] == '\n' then 1 else 2, if s[0] == '\n' then "\n" else "\r\n";
      var rest := SplitFrom("", s[n..]);
      SplitTwice("", s[n..]);
      ConsLine(prefix + ending, rest);
      SplitLine("", prefix, ending, JoinLines(rest));
      assert "" + prefix + ending == prefix + ending;
    } else if s[0] == '\r' {
      SplitTwice("", s[1..]);
    } else {
      SplitTwice(prefix + [s[0]], s[1..]);
    }
  }

  lemma {:induction false} KeptIsClear(prefix: string, s: string, after: string)
    requires Clean(prefix) && Clear(true, prefix + s, after) && StartsLine(true, prefix + s)
    ensures var kept := JoinLines(SplitFrom(prefix, s)); Clear(true, kept, after) && StartsLine(true, kept)
    decreases |s|, 0
  {
    hide Clear;
    if s == "" {
      assert prefix + s == prefix;
      if prefix != "" { assert [prefix][1..] == [] && prefix + "" == prefix; }
    } else if s[0] == '\n' || (s[0] == '\r' && |s| > 1 && s[1] == '\n') {
      var n, ending := if s[0] == '\n' then 1 else 2, if s[0] == '\n' then "\n" else "\r\n";
      KeptLineIsClear(prefix, ending, s[n..], after) by { assert prefix + s == prefix + ending + s[n..]; }
    } else if s[0] == '\r' {
      assert prefix + s == (prefix + "\r") + s[1..];
      ClearConcat(true, prefix + "\r", s[1..], after);
      RestStartsLine(prefix + "\r", s[1..]);
      assert "" + s[1..] == s[1..];
      KeptIsClear("", s[1..], after);
    } else {
      assert prefix + s == prefix + [s[0]] + s[1..];
      KeptIsClear(prefix + [s[0]], s[1..], after);
    }
  }

  lemma RestStartsLine(a: string, b: string)
    requires StartsLine(true, a + b) && a != "" && IsTerminator(a[|a| - 1])
    ensures StartsLine(true, b)
  {
    if b != "" { assert (a + b)[|a + b| - 1] == b[|b| - 1]; }
  }

  lemma {:induction false} KeptLineIsClear(prefix: string, ending: string, rest: string, after: string)
    requires Clean(prefix) && IsEnding(ending) && Clear(true, prefix + ending + rest, after) && StartsLine(true, prefix + ending + rest)
    ensures var kept := JoinLines([prefix + ending] + SplitFrom("", rest)); Clear(true, kept, after) && StartsLine(true, kept)
    decreases |rest|, 1
  {
    hide Clear;
    var line, more := prefix + ending, JoinLines(SplitFrom("", rest));
    ClearConcat(true, line, rest, after);
    RestStartsLine(line, rest);
    assert "" + rest == rest;
    KeptIsClear("", rest, after);
    ConsLine(line, SplitFrom("", rest));
    ClearWithin(true, line, rest + after);
    ClearWithin(true, line, more + after);
    ClearConcat(true, line, more, after);
    StartsAfter(line, more);
  }

  lemma {:induction false} KeptCrlf(prefix: string, s: string)
    requires Clean(prefix)
    ensures HasCrlf(JoinLines(SplitFrom(prefix, s))) <==> HasCrlf(prefix + s)
    decreases |s|
  {
    if s == "" {
      assert prefix + s == prefix;
      if prefix != "" { assert [prefix][1..] == [] && prefix + "" == prefix; }
    } else if s[0] == '\n' || (s[0] == '\r' && |s| > 1 && s[1] == '\n') {
      var n, ending := if s[0] == '\n' then 1 else 2, if s[0] == '\n' then "\n" else "\r\n";
      KeptCrlf("", s[n..]);
      CrlfLineFirst(prefix, ending, s[n..], SplitFrom("", s[n..]));
      assert prefix + s == prefix + ending + s[n..];
    } else if s[0] == '\r' {
      KeptCrlf("", s[1..]);
      assert "" + s[1..] == s[1..];
      BareCrHasNoCrlf(prefix, s);
    } else {
      assert prefix + s == prefix + [s[0]] + s[1..];
      KeptCrlf(prefix + [s[0]], s[1..]);
    }
  }

  lemma CrlfLineFirst(prefix: string, ending: string, rest: string, lines: seq<string>)
    requires Clean(prefix) && IsEnding(ending) && (HasCrlf(JoinLines(lines)) <==> HasCrlf("" + rest))
    ensures HasCrlf(JoinLines([prefix + ending] + lines)) <==> HasCrlf(prefix + ending + rest)
  {
    hide HasCrlf;
    assert "" + rest == rest;
    ConsLine(prefix + ending, lines);
    CrlfConcat(prefix + ending, JoinLines(lines));
    CrlfConcat(prefix + ending, rest);
  }

  lemma BareCrHasNoCrlf(prefix: string, s: string)
    requires Clean(prefix) && s != "" && s[0] == '\r' && !(|s| > 1 && s[1] == '\n')
    ensures HasCrlf(prefix + s) <==> HasCrlf(s[1..])
  {
    CleanHasNoCrlf(prefix);
    if prefix != "" { assert prefix[|prefix| - 1] in prefix; }
    CrlfConcat(prefix, s);
  }

  /** A note whose frontmatter loses text in splitting has the layout of the note without that text. */
  lemma {:induction false} KeptLayout(content: string)
    requires FrontmatterLayout(content).Found?
    ensures var l, kept := FrontmatterLayout(content).layout, KeptOf(FrontmatterOf(content));
            var lossless := Assemble(l.opening, kept, l.closing, l.body);
            && FrontmatterLayout(lossless) == Found(l) && FrontmatterOf(lossless) == kept && NoBareCr(kept)
            && |lossless| <= |content| && (lossless == content <==> NoBareCr(FrontmatterOf(content)))
  {
    var l, f := FrontmatterLayout(content).layout, FrontmatterOf(content);
    var kept := KeptOf(f);
    LayoutParts(content);
    SplitFromJoins("", f);
    assert "" + f == f;
    hide FrontmatterLayout, FrontmatterOf, Clear, IsOpening, IsClosing, BomOf, StartsLine, HasCrlf, SplitFrom;
    SplitTwice("", f);
    KeptIsClear("", f, l.closing + l.body);
    SplitLosesNothing(kept);
    KeptCrlf("", f);
    CrlfOf(l.opening, f, l.closing, l.body);
    CrlfOf(l.opening, kept, l.closing, l.body);
    ReadsBack(l.opening, kept, l.closing, l.body);
  }

  lemma {:induction false} ReadsBack(opening: string, f: string, closing: string, body: string)
    requires IsOpening(opening) && IsClosing(closing, body) && Clear(true, f, closing + body) && StartsLine(true, f)
    ensures var content := Assemble(opening, f, closing, body);
            && FrontmatterLayout(content) == Found(Layout(BomOf(opening), opening, SplitLines(f), closing, body, LineEndingFor(content)))
            && FrontmatterOf(content) == f
  {
    hide OpeningRest, CutFrontmatter, Clear, IsOpening, IsClosing, BomOf, SplitLines, LineEndingFor, StartsLine;
    CutReads(f, closing, body);
    OpeningReads(opening, f + (closing + body));
    TakeHead(opening, f + (closing + body));
  }

  lemma {:induction false} CrlfOf(opening: string, f: string, closing: string, body: string)
    requires IsOpening(opening) && IsClosing(closing, body) && StartsLine(true, f)
    ensures HasCrlf(Assemble(opening, f, closing, body)) <==> HasCrlf(opening) || HasCrlf(f) || HasCrlf(closing + body)
  {
    OpeningEnds(opening);
    CrlfConcat(opening, f + (closing + body));
    assert IsClosing(closing, body) ==> closing != "" && (closing + body)[0] != '\n' by { ClosingStarts(closing, body); }
    CrlfJoined(f, closing + body);
  }

  lemma ClosingStarts(closing: string, body: string)
    requires IsClosing(closing, body)
    ensures closing + body != "" && (closing + body)[0] != '\n'
  {
    hide AfterBlanks, AfterLineEnd;
  }

  lemma {:induction false} CrlfJoined(a: string, b: string)
    requires b != "" && b[0] != '\n'
    ensures HasCrlf(a + b) <==> HasCrlf(a) || HasCrlf(b)
    decreases |a|
  {
    if a == "" {
      assert a + b == b;
    } else {
      assert (a + b)[1..] == a[1..] + b;
      CrlfJoined(a[1..], b);
      if |a| > 1 { assert (a + b)[1] == a[1]; } else { assert (a + b)[1] == b[0]; }
    }
  }

  // ---------- the layout, exactly ----------

  /** `s` starts with a closing marker, alone on its line, and `body` follows the end of that line. */
  ghost predicate Closes(s: string, marker: string, blanks: string, end: string, body: string) {
    && s == marker + (blanks + (end + body)) && (marker == "---" || marker == "...")
    && (forall c :: c in blanks ==> c == ' ' || c == '\t')
    && (end == "\n" || end == "\r\n"
        || (end == "" && !("\n" <= body) && !("\r\n" <= body)
            && (body == "" || body[0] in {'\r', '\U{2028}', '\U{2029}'})))
  }

  ghost predicate ClosesAt(s: string) {
    exists marker, blanks, end, body :: Closes(s, marker, blanks, end, body)
  }

  lemma {:induction false} ClosingShape(s: string) returns (marker: string, blanks: string, end: string)
    requires ClosingRest(s).Some?
    ensures Closes(s, marker, blanks, end, ClosingRest(s).value)
  {
    MarkerHead(s);
    hide AfterBlanks, AfterLineEnd, StartsMarker, StartsWith;
    marker := s[..3];
    blanks := LeadingBlanks(s[3..]);
    end := LineEndShape(AfterBlanks(s[3..]));
  }

  lemma MarkerHead(s: string)
    requires StartsMarker(s)
    ensures s == s[..3] + s[3..] && (s[..3] == "---" || s[..3] == "...")
  {
  }

  lemma LineEndShape(rest: string) returns (end: string)
    requires AfterLineEnd(rest).Some?
    ensures var body := AfterLineEnd(rest).value;
            && rest == end + body
            && (end == "\n" || end == "\r\n"
                || (end == "" && !("\n" <= body) && !("\r\n" <= body) && (body == "" || body[0] in {'\r', '\U{2028}', '\U{2029}'})))
  {
    if StartsWith(rest, "\r\n") {
      end := "\r\n";
      assert rest == end + rest[2..];
    } else if StartsWith(rest, "\n") {
      end := "\n";
      assert rest == end + rest[1..];
    } else {
      end := "";
      assert rest == end + rest;
      NoNewline(rest);
    }
  }

  lemma NoNewline(rest: string)
    requires !StartsWith(rest, "\n") && (rest == "" || IsTerminator(rest[0]))
    ensures rest == "" || rest[0] in {'\r', '\U{2028}', '\U{2029}'}
  {
    assert rest != "" && rest[0] == '\n' ==> "\n" <= rest;
  }

  lemma {:induction false} ClosingReads(s: string, marker: string, blanks: string, end: string, body: string)
    requires Closes(s, marker, blanks, end, body)
    ensures ClosingRest(s) == Some(body)
  {
    var rest := end + body;
    assert s[3..] == blanks + rest;
    assert end == "" ==> rest == body;
    if rest == "" {
      assert blanks + rest == blanks;
      AllBlanksSkipped(blanks);
    } else {
      assert rest[0] == if end == "" then body[0] else end[0];
      BlanksSkipped(blanks, rest);
    }
    LineEnds(end, body);
    hide AfterBlanks;
  }

  lemma LineEnds(end: string, body: string)
    requires end == "\n" || end == "\r\n" || (end == "" && !("\n" <= body) && !("\r\n" <= body) && (body == "" || IsTerminator(body[0])))
    ensures AfterLineEnd(end + body) == Some(body)
  {
    if end == "" {
      assert end + body == body;
    } else {
      assert (end + body)[0] == end[0];
      DropHead(end, body);
    }
  }

  lemma {:induction false} AllBlanksSkipped(blanks: string)
    requires AllBlank(blanks)
    ensures AfterBlanks(blanks) == ""
    decreases |blanks|
  {
    if blanks != "" {
      assert blanks[0] in blanks;
      AllBlanksSkipped(blanks[1..]);
    }
  }

  lemma {:induction false} ClosesIff(s: string)
    ensures ClosingRest(s).Some? <==> ClosesAt(s)
  {
    if ClosingRest(s).Some? {
      var marker, blanks, end := ClosingShape(s);
    }
    if ClosesAt(s) {
      var marker, blanks, end, body :| Closes(s, marker, blanks, end, body);
      ClosingReads(s, marker, blanks, end, body);
    }
  }

  lemma {:induction false} HasCrlfIff(s: string)
    ensures HasCrlf(s) <==> exists i: nat :: CrlfAt(s, i)
    decreases |s|
  {
    if |s| > 1 {
      HasCrlfIff(s[1..]);
      assert CrlfAt(s, 0) <==> s[0] == '\r' && s[1] == '\n';
      forall i: nat ensures CrlfAt(s[1..], i) <==> CrlfAt(s, i + 1) {
      }
      if i: nat :| CrlfAt(s, i) {
        assert i == 0 || CrlfAt(s[1..], i - 1);
      }
    }
  }

  predicate CrlfAt(s: string, i: nat) {
    i + 1 < |s| && s[i] == '\r' && s[i + 1] == '\n'
  }

  /** A line starts at `j` of the text behind the opening marker. */
  predicate LineStarts(s: string, j: nat)
    requires j <= |s|
  {
    j == 0 || s[j - 1] in {'\n', '\r', '\U{2028}', '\U{2029}'}
  }

  /** The first closing marker at a line start stands at `i`, or, with None, there is none. */
  ghost predicate FirstMarker(s: string, i: Option<nat>) {
    && (i.Some? ==> i.value <= |s| && LineStarts(s, i.value) && ClosesAt(s[i.value..]))
    && forall j: nat :: j <= |s| && LineStarts(s, j) && (i.Some? ==> j < i.value) ==> !ClosesAt(s[j..])
  }

  ghost predicate StartsThere(atStart: bool, s: string, j: nat)
    requires j <= |s|
  {
    if j == 0 then atStart else IsTerminator(s[j - 1])
  }

  lemma {:induction false} FindsFirst(atStart: bool, s: string)
    ensures var i := FindClosing(atStart, s);
            && (i.Some? ==> StartsThere(atStart, s, i.value) && ClosingRest(s[i.value..]).Some?)
            && forall j: nat :: j <= |s| && StartsThere(atStart, s, j) && (i.Some? ==> j < i.value) ==> ClosingRest(s[j..]).None?
    decreases |s|
  {
    hide ClosingRest, IsTerminator;
    assert s[0..] == s;
    if !(atStart && ClosingRest(s).Some?) && s != "" {
      FindsFirst(IsTerminator(s[0]), s[1..]);
      forall j: nat | 0 < j <= |s| ensures s[1..][j - 1..] == s[j..] && (StartsThere(atStart, s, j) <==> StartsThere(IsTerminator(s[0]), s[1..], j - 1)) {
      }
    }
  }

  lemma {:induction false} FindsFirstMarker(s: string)
    ensures FirstMarker(s, FindClosing(true, s))
  {
    FindsFirst(true, s);
    hide ClosingRest, ClosesAt, FindClosing;
    forall j: nat | j <= |s| ensures (LineStarts(s, j) <==> StartsThere(true, s, j)) && (ClosingRest(s[j..]).Some? <==> ClosesAt(s[j..])) {
      ClosesIff(s[j..]);
    }
  }

  /** The note starts with an opening marker, alone on its line, and `remaining` follows. */
  ghost predicate Opens(content: string, bom: string, blanks: string, ending: string, remaining: string) {
    && content == bom + ("---" + (blanks + (ending + remaining))) && (bom == "" || bom == "\U{FEFF}")
    && (forall c :: c in blanks ==> c == ' ' || c == '\t') && (ending == "\n" || ending == "\r\n")
  }

  lemma {:induction false} OpensReads(content: string, bom: string, blanks: string, ending: string, remaining: string)
    requires Opens(content, bom, blanks, ending, remaining)
    ensures OpeningRest(content) == Some(remaining) && BomOf(content) == bom
  {
    BomReads(bom, "---" + (blanks + (ending + remaining)));
    DashesRead(blanks, ending, remaining);
    hide AfterBlanks, AfterDashes;
  }

  lemma {:induction false} OpeningShape(content: string) returns (bom: string, blanks: string, ending: string)
    requires OpeningRest(content).Some?
    ensures Opens(content, bom, blanks, ending, OpeningRest(content).value) && bom == BomOf(content)
  {
    bom := BomOf(content);
    assert content == bom + content[|bom|..];
    blanks, ending := DashesShape(content[|bom|..]);
  }

  /**
   * A note has no frontmatter exactly when it does not open with a marker; it is unclosed when no
   * closing marker stands at a line start behind that; and otherwise the parts lie around the first.
   */
  lemma {:induction false} LayoutExactly(content: string)
    ensures match FrontmatterLayout(content)
            case NoFrontmatter => forall bom, blanks, ending, remaining :: !Opens(content, bom, blanks, ending, remaining)
            case Unclosed => exists bom, blanks, ending, remaining :: Opens(content, bom, blanks, ending, remaining) && FirstMarker(remaining, None)
            case Found(l) => exists blanks, ending, remaining, i: nat ::
              && Opens(content, l.bom, blanks, ending, remaining) && i <= |remaining| && FirstMarker(remaining, Some(i))
              && LaidOut(l, blanks, ending, remaining, i)
              && l.lineEnding == if exists k: nat :: CrlfAt(content, k) then "\r\n" else "\n"
  {
    HasCrlfIff(content);
    if OpeningRest(content).None? {
      forall bom, blanks, ending, remaining ensures !Opens(content, bom, blanks, ending, remaining) {
        NeverOpens(content, bom, blanks, ending, remaining);
      }
    } else {
      var bom, blanks, ending := OpeningShape(content);
      var remaining := OpeningRest(content).value;
      FindsFirstMarker(remaining);
      if FindClosing(true, remaining).Some? {
        FoundIsLaidOut(content, bom, blanks, ending, remaining);
      }
      hide Opens, FirstMarker, OpeningRest, FindClosing, ClosingRest, LaidOut, HasCrlf, CrlfAt;
    }
  }

  lemma NeverOpens(content: string, bom: string, blanks: string, ending: string, remaining: string)
    requires OpeningRest(content).None?
    ensures !Opens(content, bom, blanks, ending, remaining)
  {
    if Opens(content, bom, blanks, ending, remaining) {
      OpensReads(content, bom, blanks, ending, remaining);
      assert false;
    }
  }

  /** The parts of a layout: the opening line, the lines up to `i`, the closing line and what follows it. */
  ghost predicate LaidOut(l: Layout, blanks: string, ending: string, remaining: string, i: nat)
    requires i <= |remaining|
  {
    && l.opening == l.bom + ("---" + (blanks + ending)) && l.lines == SplitLines(remaining[..i])
    && exists marker, more, end :: Closes(remaining[i..], marker, more, end, l.body) && l.closing == marker + (more + end)
  }

  lemma {:induction false} FoundIsLaidOut(content: string, bom: string, blanks: string, ending: string, remaining: string)
    requires OpeningRest(content) == Some(remaining) && FindClosing(true, remaining).Some?
    requires Opens(content, bom, blanks, ending, remaining) && bom == BomOf(content)
    ensures FrontmatterLayout(content).Found?
    ensures LaidOut(FrontmatterLayout(content).layout, blanks, ending, remaining, FindClosing(true, remaining).value)
  {
    var i := FindClosing(true, remaining).value;
    FoundIsClear(true, remaining);
    var s := remaining[i..];
    var marker, more, end := ClosingShape(s);
    var body := ClosingRest(s).value;
    hide FindClosing, ClosingRest, OpeningRest, BomOf, SplitLines, HasCrlf;
    Closing(marker, more, end, body);
    OpeningThen(bom, blanks, ending, remaining);
    TakeHead(OpeningOf(bom, blanks, ending), remaining);
  }

  lemma Closing(marker: string, more: string, end: string, body: string)
    ensures var s := marker + (more + (end + body)); s == marker + (more + end) + body && |s| >= |body| && s[..|s| - |body|] == marker + (more + end)
  {
    Associative(more, end, body);
    Associative(marker, more + end, body);
    TakeHead(marker + (more + end), body);
  }
}
