/** The string operations of the host language that the modelled code relies on. */
module JsText {
  /** White space and line ends as `trim` and `\s` understand them. */
  predicate IsSpace(c: char) {
    || '\U{0009}' <= c <= '\U{000D}' || c == ' ' || c == '\U{00A0}' || c == '\U{1680}' || c == '\U{2028}'
    || c == '\U{2029}' || c == '\U{202F}' || c == '\U{205F}' || c == '\U{3000}' || c == '\U{FEFF}'
    || '\U{2000}' <= c <= '\U{200A}'
  }

  function TrimStart(s: string): (r: string)
    ensures |r| <= |s|
    ensures r != "" ==> !IsSpace(r[0])
  {
    if s != "" && IsSpace(s[0]) then TrimStart(s[1..]) else s
  }

  function TrimEnd(s: string): (r: string)
    ensures |r| <= |s|
  {
    if s != "" && IsSpace(s[|s| - 1]) then TrimEnd(s[..|s| - 1]) else s
  }

  function Trim(s: string): string {
    TrimEnd(TrimStart(s))
  }

  /** Nothing is trimmed exactly when neither end is white space. */
  lemma {:induction false} TrimmedIff(s: string)
    ensures Trim(s) == s <==> s == "" || (!IsSpace(s[0]) && !IsSpace(s[|s| - 1]))
  {
    if s != "" && IsSpace(s[0]) {
      assert |TrimStart(s)| < |s|;
    } else if s != "" && IsSpace(s[|s| - 1]) {
      assert |TrimEnd(s)| < |s|;
    }
  }

  /** White space around a text is trimmed off, whatever stands between its first and last character. */
  lemma {:induction false} TrimPadded(left: string, text: string, right: string)
    requires (forall c :: c in left ==> IsSpace(c)) && (forall c :: c in right ==> IsSpace(c))
    requires text != "" ==> !IsSpace(text[0]) && !IsSpace(text[|text| - 1])
    ensures Trim(left + text + right) == text
  {
    TrimLeft(left, text + right);
    assert left + text + right == left + (text + right);
    if text == "" {
      assert text + right == right;
      TrimLeft(right, "");
      assert right + "" == right;
    } else {
      assert (text + right)[0] == text[0];
      TrimRight(text, right);
    }
  }

  lemma {:induction false} TrimLeft(left: string, rest: string)
    requires forall c :: c in left ==> IsSpace(c)
    ensures TrimStart(left + rest) == TrimStart(rest)
    decreases |left|
  {
    if left == "" {
      assert left + rest == rest;
    } else {
      assert left[0] in left && (left + rest)[1..] == left[1..] + rest;
      TrimLeft(left[1..], rest);
    }
  }

  lemma {:induction false} TrimRight(text: string, right: string)
    requires text != "" && !IsSpace(text[|text| - 1]) && forall c :: c in right ==> IsSpace(c)
    ensures TrimEnd(text + right) == text
    decreases |right|
  {
    if right == "" {
      assert text + right == text;
    } else {
      var s, last := text + right, right[|right| - 1];
      assert last in right && s[|s| - 1] == last && s[..|s| - 1] == text + right[..|right| - 1];
      TrimRight(text, right[..|right| - 1]);
    }
  }

  /** Only white space is trimmed off, and nothing is left to trim. */
  lemma {:induction false} TrimParts(s: string) returns (left: string, right: string)
    ensures (forall c :: c in left ==> IsSpace(c)) && (forall c :: c in right ==> IsSpace(c))
    ensures s == left + Trim(s) + right
    ensures Trim(s) != "" ==> !IsSpace(Trim(s)[0]) && !IsSpace(Trim(s)[|Trim(s)| - 1])
  {
    left := StartParts(s);
    right := EndParts(TrimStart(s));
    assert s == left + (Trim(s) + right) == left + Trim(s) + right;
    if Trim(s) != "" {
      assert TrimStart(s)[0] == (Trim(s) + right)[0] == Trim(s)[0];
    }
  }

  lemma {:induction false} StartParts(s: string) returns (left: string)
    ensures (forall c :: c in left ==> IsSpace(c)) && s == left + TrimStart(s)
    decreases |s|
  {
    if s != "" && IsSpace(s[0]) {
      left := StartParts(s[1..]);
      left := [s[0]] + left;
    } else {
      left := "";
    }
  }

  lemma {:induction false} EndParts(s: string) returns (right: string)
    ensures (forall c :: c in right ==> IsSpace(c)) && s == TrimEnd(s) + right
    ensures TrimEnd(s) != "" ==> !IsSpace(TrimEnd(s)[|TrimEnd(s)| - 1])
    decreases |s|
  {
    if s != "" && IsSpace(s[|s| - 1]) {
      right := EndParts(s[..|s| - 1]);
      right := right + [s[|s| - 1]];
    } else {
      right := "";
    }
  }

  predicate IsLetter(c: char) {
    'a' <= c <= 'z' || 'A' <= c <= 'Z'
  }

  predicate IsDigit(c: char) {
    '0' <= c <= '9'
  }

  function LowerChar(c: char): char {
    if 'A' <= c <= 'Z' then c - 'A' + 'a' else c
  }

  /** Lower case where only ASCII letters matter. */
  function Lower(s: string): (r: string)
    ensures |r| == |s|
  {
    if s == "" then "" else [LowerChar(s[0])] + Lower(s[1..])
  }

  lemma {:induction false} LowerAt(s: string, i: nat)
    requires i < |s|
    ensures Lower(s)[i] == if 65 <= s[i] as int <= 90 then (s[i] as int + 32) as char else s[i]
  {
    if i > 0 {
      LowerAt(s[1..], i - 1);
    }
  }

  predicate StartsWith(s: string, prefix: string) {
    prefix <= s
  }

  predicate EndsWith(s: string, suffix: string) {
    |suffix| <= |s| && s[|s| - |suffix|..] == suffix
  }

  /** The text ends in this suffix, with each letter in either case. */
  predicate EndsAs(s: string, suffix: string) {
    |suffix| <= |s| && forall k :: 0 <= k < |suffix| ==> SameLetter(s[|s| - |suffix| + k], suffix[k])
  }

  predicate SameLetter(c: char, small: char) {
    c == small || ('a' <= small <= 'z' && c as int == small as int - 32)
  }

  lemma {:induction false} EndsInAnyCase(s: string, suffix: string)
    requires forall k :: 0 <= k < |suffix| ==> !('A' <= suffix[k] <= 'Z')
    ensures EndsWith(Lower(s), suffix) <==> EndsAs(s, suffix)
  {
    forall i | 0 <= i < |s| ensures Lower(s)[i] == LowerChar(s[i]) {
      LowerAt(s, i);
    }
    if |suffix| <= |s| {
      var tail := Lower(s)[|s| - |suffix|..];
      assert forall k :: 0 <= k < |suffix| ==> tail[k] == LowerChar(s[|s| - |suffix| + k]);
      assert forall k :: 0 <= k < |suffix| ==> (LowerChar(s[|s| - |suffix| + k]) == suffix[k] <==> SameLetter(s[|s| - |suffix| + k], suffix[k]));
    }
  }
}
