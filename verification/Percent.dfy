/**
 * Percent-encoding of vault paths (section 2.1 of RFC 3986, over UTF-8) and its strict decoder:
 * `encodePathSegment` and `decodeURIComponent` of src/application/json-canvas-reference-rewrite.ts.
 */
module Percent {
  import opened Options
  import opened Sequences
  import opened JsText
  import opened Utf8
  import opened VaultPath

  /** The characters the URI component encoder leaves alone. */
  predicate IsUriUnescaped(c: char) {
    IsLetter(c) || IsDigit(c) || IsReservedMark(c) || c == '-' || c == '_' || c == '.' || c == '~'
  }

  predicate IsReservedMark(c: char) {
    c == '!' || c == '\'' || c == '(' || c == ')' || c == '*'
  }

  function HexDigit(n: nat): char
    requires n < 16
  {
    "0123456789ABCDEF"[n]
  }

  function EncodeByte(b: Byte): (s: string)
    ensures |s| == 3 && s[0] == '%'
  {
    ['%', HexDigit(b / 16), HexDigit(b % 16)]
  }

  function EncodeBytes(bytes: seq<Byte>): (s: string)
    ensures |s| == 3 * |bytes|
  {
    if bytes == [] then "" else EncodeByte(bytes[0]) + EncodeBytes(bytes[1..])
  }

  /** `encodeURIComponent` followed by the replacement of the five remaining marks. */
  function EncodeSegmentChar(c: char): (s: string) {
    if IsReservedMark(c) then EncodeByte((c as int) % 256)
    else if IsUriUnescaped(c) then [c]
    else EncodeBytes(EncodeChar(c))
  }

  function EncodeSegmentChars(segment: string): string {
    if segment == "" then "" else EncodeSegmentChar(segment[0]) + EncodeSegmentChars(segment[1..])
  }

  function EncodePathSegment(segment: string): string {
    if segment == "." || segment == ".." then segment else EncodeSegmentChars(segment)
  }

  function EncodeSegments(segments: seq<string>): (r: seq<string>)
    ensures |r| == |segments|
  {
    if segments == [] then [] else [EncodePathSegment(segments[0])] + EncodeSegments(segments[1..])
  }

  function EncodedPath(filePath: string): string {
    Join(EncodeSegments(Split(filePath)))
  }

  function HexValue(c: char): (n: Option<nat>)
    ensures n.Some? ==> n.value < 16
  {
    if '0' <= c <= '9' then Some((c - '0') as nat)
    else if 'A' <= c <= 'F' then Some((c - 'A') as nat + 10)
    else if 'a' <= c <= 'f' then Some((c - 'a') as nat + 10)
    else None
  }

  /** `n` escapes in a row at the start of `s`, as bytes. */
  function EscapedBytes(s: string, n: nat): (bytes: Option<seq<Byte>>)
    ensures bytes.Some? ==> |bytes.value| == n && 3 * n <= |s|
  {
    if n == 0 then Some([])
    else if |s| < 3 || s[0] != '%' || HexValue(s[1]).None? || HexValue(s[2]).None? then None
    else
      var rest := EscapedBytes(s[3..], n - 1);
      if rest.None? then None else Some([HexValue(s[1]).value * 16 + HexValue(s[2]).value] + rest.value)
  }

  /** `decodeURIComponent`: None where it throws. */
  function DecodeUriComponent(s: string): Option<string> {
    if s == "" then Some("")
    else if s[0] != '%' then
      var rest := DecodeUriComponent(s[1..]);
      if rest.None? then None else Some([s[0]] + rest.value)
    else
      var first := EscapedBytes(s, 1);
      var n := if first.None? then 0 else SequenceLength(first.value[0]);
      var bytes := EscapedBytes(s, n);
      if n == 0 || bytes.None? || SequenceValue(bytes.value).None? then None
      else
        var rest := DecodeUriComponent(s[3 * n..]);
        if rest.None? then None else Some([SequenceValue(bytes.value).value] + rest.value)
  }

  // ---------- reading back what was encoded ----------

  lemma {:induction false} BytesRoundTrip(bytes: seq<Byte>, rest: string)
    ensures EscapedBytes(EncodeBytes(bytes) + rest, |bytes|) == Some(bytes)
    decreases |bytes|
  {
    if bytes != [] {
      BytesRoundTrip(bytes[1..], rest);
      Associative(EncodeByte(bytes[0]), EncodeBytes(bytes[1..]), rest);
      EscapedNext(bytes[0], EncodeBytes(bytes[1..]) + rest, |bytes| - 1);
      HeadTail(bytes);
    }
  }

  lemma {:induction false} EscapedNext(b: Byte, rest: string, n: nat)
    ensures EscapedBytes(EncodeByte(b) + rest, n + 1)
         == if EscapedBytes(rest, n).None? then None else Some([b] + EscapedBytes(rest, n).value)
  {
    HexRoundTrip(b);
    var s := EncodeByte(b) + rest;
    assert s[0] == '%' && s[1] == HexDigit(b / 16) && s[2] == HexDigit(b % 16);
    hide HexDigit, HexValue, EncodeByte;
    assert s[3..] == rest;
    assert b / 16 * 16 + b % 16 == b;
  }

  lemma {:induction false} HexRoundTrip(b: Byte)
    ensures HexValue(HexDigit(b / 16)) == Some(b / 16) && HexValue(HexDigit(b % 16)) == Some(b % 16)
  {
    HexDigitValue(b / 16);
    HexDigitValue(b % 16);
  }

  lemma {:induction false} HexDigitValue(n: nat)
    requires n < 16
    ensures HexValue(HexDigit(n)) == Some(n)
  {
    if n < 10 {
      assert HexDigit(n) == '0' + n as char;
    } else {
      assert HexDigit(n) == 'A' + (n - 10) as char;
    }
  }

  lemma {:induction false} DecodeEscaped(c: char, rest: string)
    ensures DecodeUriComponent(EncodeBytes(EncodeChar(c)) + rest)
         == if DecodeUriComponent(rest).None? then None else Some([c] + DecodeUriComponent(rest).value)
  {
    var bytes := EncodeChar(c);
    var s := EncodeBytes(bytes) + rest;
    CharRoundTrip(c);
    BytesRoundTrip(bytes, rest);
    BytesRoundTrip([bytes[0]], EncodeBytes(bytes[1..]) + rest);
    Associative(EncodeByte(bytes[0]), EncodeBytes(bytes[1..]), rest);
    SingleByte(bytes[0]);
    DropHead(EncodeBytes(bytes), rest);
    assert s[0] == '%';
    hide EncodeBytes, EncodeChar, EscapedBytes, SequenceValue, SequenceLength, EncodeByte;
  }

  lemma SingleByte(b: Byte)
    ensures EncodeBytes([b]) == EncodeByte(b)
  {
    assert EncodeByte(b) + "" == EncodeByte(b);
  }

  lemma {:induction false} DecodeChar(c: char, rest: string)
    ensures DecodeUriComponent(EncodeSegmentChar(c) + rest)
         == if DecodeUriComponent(rest).None? then None else Some([c] + DecodeUriComponent(rest).value)
  {
    if IsReservedMark(c) {
      DecodeEscaped(c, rest);
      MarkIsOneByte(c);
      hide EncodeBytes, EncodeChar, EncodeByte, DecodeUriComponent;
    } else if !IsUriUnescaped(c) {
      DecodeEscaped(c, rest);
      hide EncodeBytes, EncodeChar, EncodeByte, DecodeUriComponent;
    } else {
      assert ([c] + rest)[1..] == rest;
    }
  }

  lemma MarkIsOneByte(c: char)
    requires IsReservedMark(c)
    ensures EncodeBytes(EncodeChar(c)) == EncodeByte((c as int) % 256)
  {
    assert EncodeChar(c) == [(c as int) % 256];
  }

  // ---------- whole paths ----------

  /** The same encoding, character by character, with slashes left alone. */
  ghost function EncodeChars(path: string): string {
    if path == "" then ""
    else (if path[0] == '/' then "/" else EncodeSegmentChar(path[0])) + EncodeChars(path[1..])
  }

  lemma {:induction false} SegmentCharwise(segment: string)
    requires '/' !in segment
    ensures EncodePathSegment(segment) == EncodeChars(segment)
  {
    CharsOfSegment(segment);
    if segment == "." || segment == ".." {
      assert forall i :: 0 <= i < |segment| ==> segment[i] == '.';
      DotsUnchanged(segment);
    }
  }

  lemma {:induction false} DotsUnchanged(s: string)
    requires forall i :: 0 <= i < |s| ==> s[i] == '.'
    ensures EncodeChars(s) == s
    decreases |s|
  {
    if s != "" {
      DotsUnchanged(s[1..]);
      HeadTail(s);
    }
  }

  lemma {:induction false} CharsOfSegment(segment: string)
    requires '/' !in segment
    ensures EncodeSegmentChars(segment) == EncodeChars(segment)
    decreases |segment|
  {
    if segment != "" {
      CharsOfSegment(segment[1..]);
    }
  }

  lemma {:induction false} EncodeCharsConcat(a: string, b: string)
    ensures EncodeChars(a + b) == EncodeChars(a) + EncodeChars(b)
    decreases |a|
  {
    if a == "" {
      assert a + b == b;
    } else {
      EncodeCharsConcat(a[1..], b);
      ConsConcat(a, b);
      Associative(if a[0] == '/' then "/" else EncodeSegmentChar(a[0]), EncodeChars(a[1..]), EncodeChars(b));
    }
  }

  lemma ConsConcat(a: string, b: string)
    requires a != ""
    ensures (a + b)[0] == a[0] && (a + b)[1..] == a[1..] + b
  {
  }

  lemma {:induction false} EncodeAroundSlash(a: string, b: string)
    ensures EncodeChars(a + "/" + b) == EncodeChars(a) + "/" + EncodeChars(b)
  {
    Associative(a, "/", b);
    EncodeCharsConcat(a, "/" + b);
    ConsConcat("/", b);
    assert ("/")[1..] == "";
    Associative(EncodeChars(a), "/", EncodeChars(b));
  }

  /** Encoding segment by segment only ever differs from encoding in one go at the slashes. */
  lemma {:induction false} SegmentsCharwise(segments: seq<string>)
    requires segments != [] && forall x :: x in segments ==> '/' !in x
    ensures Join(EncodeSegments(segments)) == EncodeChars(Join(segments))
    decreases |segments|
  {
    assert segments[0] in segments;
    SegmentCharwise(segments[0]);
    if |segments| > 1 {
      SegmentsCharwise(segments[1..]);
      EncodeAroundSlash(segments[0], Join(segments[1..]));
    }
  }

  lemma {:induction false} DecodeChars(path: string, suffix: string)
    ensures DecodeUriComponent(EncodeChars(path) + suffix)
         == if DecodeUriComponent(suffix).None? then None else Some(path + DecodeUriComponent(suffix).value)
    decreases |path|
  {
    if path == "" {
      assert EncodeChars(path) + suffix == suffix;
      assert DecodeUriComponent(suffix).Some? ==> path + DecodeUriComponent(suffix).value == DecodeUriComponent(suffix).value;
    } else {
      var head := if path[0] == '/' then "/" else EncodeSegmentChar(path[0]);
      DecodeChars(path[1..], suffix);
      Associative(head, EncodeChars(path[1..]), suffix);
      DecodeChar(path[0], EncodeChars(path[1..]) + suffix);
      DecodeSlash(EncodeChars(path[1..]) + suffix);
      HeadTail(path);
      if DecodeUriComponent(suffix).Some? {
        Associative([path[0]], path[1..], DecodeUriComponent(suffix).value);
      }
      hide EncodeSegmentChar, DecodeUriComponent;
    }
  }

  lemma DecodeSlash(rest: string)
    ensures DecodeUriComponent("/" + rest) == if DecodeUriComponent(rest).None? then None else Some(['/'] + DecodeUriComponent(rest).value)
  {
    assert ("/" + rest)[1..] == rest;
  }

  predicate IsEncodedChar(c: char) {
    IsLetter(c) || IsDigit(c) || c == '-' || c == '_' || c == '.' || c == '~' || c == '%' || c == '/'
  }

  predicate IsEncoded(s: string) {
    s != "" ==> IsEncodedChar(s[0]) && IsEncoded(s[1..])
  }

  lemma {:induction false} EncodedConcat(a: string, b: string)
    requires IsEncoded(a) && IsEncoded(b)
    ensures IsEncoded(a + b)
    decreases |a|
  {
    if a == "" {
      assert a + b == b;
    } else {
      EncodedConcat(a[1..], b);
      ConsConcat(a, b);
    }
  }

  lemma {:induction false} BytesEncoded(bytes: seq<Byte>)
    ensures IsEncoded(EncodeBytes(bytes))
    decreases |bytes|
  {
    if bytes != [] {
      BytesEncoded(bytes[1..]);
      ByteEncoded(bytes[0]);
      EncodedConcat(EncodeByte(bytes[0]), EncodeBytes(bytes[1..]));
    }
  }

  lemma ByteEncoded(b: Byte)
    ensures IsEncoded(EncodeByte(b))
  {
    var s := EncodeByte(b);
    HexDigitEncoded(b / 16);
    HexDigitEncoded(b % 16);
    assert s[1] == HexDigit(b / 16) && s[2] == HexDigit(b % 16);
    hide HexDigit, IsEncodedChar;
    assert IsEncodedChar('%') by { PercentIsEncoded(); }
    assert s[1..][1..] == [s[2]] && s[1..][1..][1..] == "";
    assert IsEncoded(s[1..][1..]);
    assert IsEncoded(s[1..]);
  }

  lemma PercentIsEncoded()
    ensures IsEncodedChar('%')
  {
  }

  lemma HexDigitEncoded(n: nat)
    requires n < 16
    ensures IsEncodedChar(HexDigit(n))
  {
    if n < 10 {
      assert HexDigit(n) == '0' + n as char;
    } else {
      assert HexDigit(n) == 'A' + (n - 10) as char;
    }
  }

  /** An encoded path consists of unreserved characters, escapes and slashes only. */
  lemma {:induction false} CharsEncoded(path: string)
    ensures IsEncoded(EncodeChars(path))
    decreases |path|
  {
    if path != "" {
      var head := if path[0] == '/' then "/" else EncodeSegmentChar(path[0]);
      if IsReservedMark(path[0]) {
        ByteEncoded((path[0] as int) % 256);
      } else {
        BytesEncoded(EncodeChar(path[0]));
      }
      CharsEncoded(path[1..]);
      EncodedConcat(head, EncodeChars(path[1..]));
    }
  }

  /** Whatever the path is, its printed form decodes back to it and contains nothing to escape. */
  lemma {:induction false} EncodedPathRoundTrip(path: string)
    ensures DecodeUriComponent(EncodedPath(path)) == Some(path)
    ensures IsEncoded(EncodedPath(path))
    ensures EncodedPath(path) == EncodeChars(path)
  {
    SplitSlashFree(path);
    JoinSplit(path);
    SegmentsCharwise(Split(path));
    CharsEncoded(path);
    DecodeChars(path, "");
    assert EncodeChars(path) + "" == EncodeChars(path) && path + "" == path;
  }

  lemma {:induction false} SplitSlashFree(s: string)
    ensures forall x :: x in Split(s) ==> '/' !in x
    decreases |s|
  {
    if s != "" {
      SplitSlashFree(s[1..]);
    }
  }

  // ---------- every spelling ----------

  predicate IsDigitFor(c: char, n: nat)
    requires n < 16
  {
    c == "0123456789ABCDEF"[n] || c == "0123456789abcdef"[n]
  }

  /** Each byte is written as an escape, with the digits in either case. */
  predicate SpellsBytes(s: string, bytes: seq<Byte>) {
    if bytes == [] then s == ""
    else |s| >= 3 && s[0] == '%' && IsDigitFor(s[1], bytes[0] / 16) && IsDigitFor(s[2], bytes[0] % 16) && SpellsBytes(s[3..], bytes[1..])
  }

  /** A character stands for itself, unless it is the percent sign, or its bytes are escaped. */
  predicate SpellsChar(s: string, c: char) {
    (s == [c] && c != '%') || SpellsBytes(s, EncodeChar(c))
  }

  ghost predicate Spells(s: string, text: string)
    decreases |text|
  {
    if text == "" then s == "" else exists n: nat :: n <= |s| && SpellsChar(s[..n], text[0]) && Spells(s[n..], text[1..])
  }

  lemma {:induction false} HexValueIff(c: char, n: nat)
    requires n < 16
    ensures HexValue(c) == Some(n) <==> IsDigitFor(c, n)
  {
    if n < 10 {
      assert "0123456789ABCDEF"[n] == '0' + n as char && "0123456789abcdef"[n] == '0' + n as char;
    } else {
      assert "0123456789ABCDEF"[n] == 'A' + (n - 10) as char && "0123456789abcdef"[n] == 'a' + (n - 10) as char;
    }
  }

  /** A run of escapes is read as exactly the bytes it spells. */
  lemma {:induction false} EscapedIff(s: string, bytes: seq<Byte>)
    ensures EscapedBytes(s, |bytes|) == Some(bytes) <==> 3 * |bytes| <= |s| && SpellsBytes(s[..3 * |bytes|], bytes)
    decreases |bytes|
  {
    if bytes != [] && |s| >= 3 && 3 * |bytes| <= |s| {
      HexValueIff(s[1], bytes[0] / 16);
      HexValueIff(s[2], bytes[0] % 16);
      EscapedIff(s[3..], bytes[1..]);
      HeadTail(bytes);
      var own := s[..3 * |bytes|];
      assert own[3..] == s[3..][..3 * |bytes[1..]|];
      EscapedStep(s, bytes);
    }
  }

  lemma EscapedStep(s: string, bytes: seq<Byte>)
    requires bytes != [] && |s| >= 3
    ensures EscapedBytes(s, |bytes|) == Some(bytes) <==>
            && s[0] == '%' && HexValue(s[1]) == Some(bytes[0] / 16) && HexValue(s[2]) == Some(bytes[0] % 16)
            && EscapedBytes(s[3..], |bytes| - 1) == Some(bytes[1..])
  {
    hide HexValue;
    HeadTail(bytes);
    if s[0] == '%' && HexValue(s[1]).Some? && HexValue(s[2]).Some? && EscapedBytes(s[3..], |bytes| - 1).Some? {
      var b: Byte := HexValue(s[1]).value * 16 + HexValue(s[2]).value;
      assert b / 16 == HexValue(s[1]).value && b % 16 == HexValue(s[2]).value;
      assert EscapedBytes(s, |bytes|).value == [b] + EscapedBytes(s[3..], |bytes| - 1).value;
      assert ([b] + EscapedBytes(s[3..], |bytes| - 1).value)[1..] == EscapedBytes(s[3..], |bytes| - 1).value;
    }
  }

  lemma {:induction false} EscapedFirst(s: string, bytes: seq<Byte>)
    requires bytes != [] && EscapedBytes(s, |bytes|) == Some(bytes)
    ensures EscapedBytes(s, 1) == Some([bytes[0]])
  {
    EscapedStep(s, bytes);
    EscapedStep(s, [bytes[0]]);
    assert [bytes[0]][1..] == [];
  }

  lemma {:induction false} SpellsBytesLength(s: string, bytes: seq<Byte>)
    requires SpellsBytes(s, bytes)
    ensures |s| == 3 * |bytes|
    decreases |bytes|
  {
    if bytes != [] {
      SpellsBytesLength(s[3..], bytes[1..]);
    }
  }

  /** What stands for one character is read as it, in front of anything. */
  lemma {:induction false} DecodeSpelledChar(s: string, n: nat, c: char)
    requires n <= |s| && SpellsChar(s[..n], c)
    ensures 0 < n && DecodeUriComponent(s)
         == if DecodeUriComponent(s[n..]).None? then None else Some([c] + DecodeUriComponent(s[n..]).value)
  {
    if s[..n] == [c] && c != '%' {
      assert s[0] == s[..n][0];
    } else {
      var bytes := EncodeChar(c);
      SpellsBytesLength(s[..n], bytes);
      EscapedIff(s, bytes);
      EscapedFirst(s, bytes);
      CharRoundTrip(c);
      EscapedStep(s, bytes);
      hide EncodeChar, EscapedBytes, SequenceValue, SequenceLength, SpellsBytes;
    }
  }

  /** The decoder reads a text from exactly the strings that spell it. */
  lemma {:induction false} DecodesIffSpelled(s: string, text: string)
    ensures DecodeUriComponent(s) == Some(text) <==> Spells(s, text)
  {
    if Spells(s, text) { SpelledIsDecoded(s, text); }
    if DecodeUriComponent(s) == Some(text) { DecodedIsSpelled(s, text); }
  }

  lemma {:induction false} SpelledIsDecoded(s: string, text: string)
    requires Spells(s, text)
    ensures DecodeUriComponent(s) == Some(text)
    decreases |text|
  {
    if text != "" {
      var n: nat :| n <= |s| && SpellsChar(s[..n], text[0]) && Spells(s[n..], text[1..]);
      hide DecodeUriComponent, SpellsChar;
      DecodeSpelledChar(s, n, text[0]);
      SpelledIsDecoded(s[n..], text[1..]);
      HeadTail(text);
    }
  }

  lemma {:induction false} DecodedIsSpelled(s: string, text: string)
    requires DecodeUriComponent(s) == Some(text)
    ensures Spells(s, text)
    decreases |s|
  {
    if s != "" {
      var n := FirstSpelled(s, text);
      hide DecodeUriComponent, SpellsChar;
      DecodedIsSpelled(s[n..], text[1..]);
    }
  }

  lemma {:induction false} FirstSpelled(s: string, text: string) returns (n: nat)
    requires s != "" && DecodeUriComponent(s) == Some(text)
    ensures text != "" && 0 < n <= |s| && SpellsChar(s[..n], text[0]) && DecodeUriComponent(s[n..]) == Some(text[1..])
  {
    if s[0] != '%' {
      n := 1;
      assert text[1..] == DecodeUriComponent(s[1..]).value;
    } else {
      var k := SequenceLength(EscapedBytes(s, 1).value[0]);
      var bytes := EscapedBytes(s, k).value;
      n := 3 * k;
      EscapedIff(s, bytes);
      ValueIsUnique(bytes, text[0]);
      assert text[1..] == DecodeUriComponent(s[n..]).value;
    }
  }
}
