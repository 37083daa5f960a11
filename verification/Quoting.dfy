/** Strings as JSON text. */
module Quoting {
  import opened Options
  import opened Sequences

  const HEX := "0123456789abcdef"

  /** How a JSON string shows one character. */
  function QuoteChar(c: char): string {
    if c == '\"' then "\\\""
    else if c == '\\' then "\\\\"
    else if c == '\n' then "\\n"
    else if c == '\r' then "\\r"
    else if c == '\t' then "\\t"
    else if c == '\U{0008}' then "\\b"
    else if c == '\U{000C}' then "\\f"
    else if c < ' ' then "\\u00" + [HEX[c as int / 16], HEX[c as int % 16]]
    else [c]
  }

  function QuoteChars(s: string): string {
    if s == "" then "" else QuoteChar(s[0]) + QuoteChars(s[1..])
  }

  function Quote(s: string): string {
    "\"" + QuoteChars(s) + "\""
  }

  // ---------- reading it back ----------

  function HexValue(c: char): Option<nat> {
    if '0' <= c <= '9' then Some((c - '0') as nat)
    else if 'a' <= c <= 'f' then Some((c - 'a') as nat + 10)
    else if 'A' <= c <= 'F' then Some((c - 'A') as nat + 10)
    else None
  }

  /** What the escape after a backslash stands for; only the escapes that stay below 0x100 are read here. */
  function ReadEscape(s: string): (r: Option<(char, nat)>)
    ensures r.Some? ==> 1 <= r.value.1 <= |s|
  {
    if s == "" then None
    else if s[0] == '\"' || s[0] == '\\' || s[0] == '/' then Some((s[0], 1))
    else if s[0] == 'n' then Some(('\n', 1))
    else if s[0] == 'r' then Some(('\r', 1))
    else if s[0] == 't' then Some(('\t', 1))
    else if s[0] == 'b' then Some(('\U{0008}', 1))
    else if s[0] == 'f' then Some(('\U{000C}', 1))
    else if |s| >= 5 && s[0] == 'u' && s[1] == '0' && s[2] == '0' && HexValue(s[3]).Some? && HexValue(s[4]).Some? then
      Some(((HexValue(s[3]).value * 16 + HexValue(s[4]).value) as char, 5))
    else None
  }

  /** The characters that a JSON string stands for, without its quotes. */
  function ReadChars(s: string): Option<string>
    decreases |s|
  {
    if s == "" then Some("")
    else if s[0] == '\"' || s[0] < ' ' then None
    else if s[0] == '\\' then
      var escape := ReadEscape(s[1..]);
      if escape.None? then None
      else
        var rest := ReadChars(s[1..][escape.value.1..]);
        if rest.None? then None else Some([escape.value.0] + rest.value)
    else
      var rest := ReadChars(s[1..]);
      if rest.None? then None else Some([s[0]] + rest.value)
  }

  function Unquote(token: string): Option<string> {
    if |token| < 2 || token[0] != '\"' || token[|token| - 1] != '\"' then None else ReadChars(token[1..|token| - 1])
  }

  /** The two-character escapes of section 7 of RFC 8259, with the code points they stand for. */
  lemma EscapesRead(i: nat, rest: string)
    requires i < 8
    ensures ReadEscape(["\"\\/bfnrt"[i]] + rest) == Some(([0x22, 0x5C, 0x2F, 0x08, 0x0C, 0x0A, 0x0D, 0x09][i] as char, 1))
  {
  }

  /** The hexadecimal escapes below 0x100, in either case. */
  lemma HexEscapesRead(high: nat, low: nat, h: char, l: char, rest: string)
    requires high < 16 && low < 16
    requires h == "0123456789abcdef"[high] || h == "0123456789ABCDEF"[high]
    requires l == "0123456789abcdef"[low] || l == "0123456789ABCDEF"[low]
    ensures ReadEscape(['u', '0', '0', h, l] + rest) == Some(((16 * high + low) as char, 5))
  {
    HexDigitReads(high, h);
    HexDigitReads(low, l);
    hide HexValue;
  }

  lemma HexDigitReads(n: nat, c: char)
    requires n < 16 && (c == "0123456789abcdef"[n] || c == "0123456789ABCDEF"[n])
    ensures HexValue(c) == Some(n)
  {
  }

  lemma HexReads(i: nat)
    requires i < 16
    ensures HexValue(HEX[i]) == Some(i)
  {
  }

  lemma ControlReads(c: char, rest: string)
    requires c < ' '
    ensures ReadEscape(['u', '0', '0', HEX[c as int / 16], HEX[c as int % 16]] + rest) == Some((c, 5))
  {
    HexReads(c as int / 16);
    HexReads(c as int % 16);
  }

  /** One quoted character reads as that character, whatever follows it. */
  lemma {:induction false} CharReads(c: char, rest: string)
    ensures ReadChars(QuoteChar(c) + rest)
         == match ReadChars(rest) case None => None case Some(tail) => Some([c] + tail)
  {
    var q := QuoteChar(c);
    var s := q + rest;
    if c == '\"' || c == '\\' || c == '\n' || c == '\r' || c == '\t' || c == '\U{0008}' || c == '\U{000C}' {
      assert |q| == 2 && s[0] == '\\' && s[1..][0] == q[1] && s[1..][1..] == rest;
    } else if c < ' ' {
      var hex := ['u', '0', '0', HEX[c as int / 16], HEX[c as int % 16]];
      assert q == ['\\'] + hex;
      ControlReads(c, rest);
      assert s == ['\\'] + (hex + rest) && s[1..] == hex + rest;
      DropHead(hex, rest);
    } else {
      assert q == [c] && s[1..] == rest;
    }
  }

  lemma {:induction false} CharsRead(s: string)
    ensures ReadChars(QuoteChars(s)) == Some(s)
    decreases |s|
  {
    hide QuoteChar, ReadEscape;
    if s != "" {
      CharsRead(s[1..]);
      CharReads(s[0], QuoteChars(s[1..]));
      HeadTail(s);
    }
  }

  /** What is printed between quotes is read back as it was. */
  lemma {:induction false} QuoteReadsBack(s: string)
    ensures Unquote(Quote(s)) == Some(s)
  {
    CharsRead(s);
    var q := Quote(s);
    assert q[1..|q| - 1] == QuoteChars(s);
  }
}
