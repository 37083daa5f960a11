/** UTF-8 as section 4 of RFC 3629 defines it: one to four bytes for each Unicode scalar value. */
module Utf8 {
  import opened Options

  type Byte = x: int | 0 <= x < 0x100

  predicate IsContinuation(b: Byte) {
    0x80 <= b < 0xC0
  }

  function EncodeChar(c: char): (bytes: seq<Byte>)
    ensures 1 <= |bytes| <= 4
    ensures !IsContinuation(bytes[0]) && forall i :: 1 <= i < |bytes| ==> IsContinuation(bytes[i])
  {
    var v := c as int;
    if v < 0x80 then [v]
    else if v < 0x800 then [0xC0 + v / 64, 0x80 + v % 64]
    else if v < 0x10000 then [0xE0 + v / 4096, 0x80 + v / 64 % 64, 0x80 + v % 64]
    else [0xF0 + v / 262144, 0x80 + v / 4096 % 64, 0x80 + v / 64 % 64, 0x80 + v % 64]
  }

  /** The number of bytes a first byte announces, or 0 when no sequence starts with it. */
  function SequenceLength(first: Byte): (n: nat)
    ensures n <= 4
    ensures IsContinuation(first) ==> n == 0
  {
    if first < 0x80 then 1
    else if 0xC2 <= first < 0xE0 then 2
    else if 0xE0 <= first < 0xF0 then 3
    else if 0xF0 <= first < 0xF5 then 4
    else 0
  }

  predicate IsScalar(v: int) {
    0 <= v < 0xD800 || 0xE000 <= v < 0x11_0000
  }

  /** The value of one complete sequence; overlong forms, surrogates and large values have none. */
  function SequenceValue(bytes: seq<Byte>): (c: Option<char>)
    requires bytes != []
  {
    var n := SequenceLength(bytes[0]);
    if n != |bytes| then None
    else if n == 1 then Some(bytes[0] as char)
    else if !IsContinuation(bytes[1]) || (n >= 3 && !IsContinuation(bytes[2])) || (n == 4 && !IsContinuation(bytes[3])) then None
    else if n == 2 then Some(((bytes[0] as int - 0xC0) * 64 + bytes[1] as int - 0x80) as char)
    else if n == 3 then
      var v: int := (bytes[0] as int - 0xE0) * 4096 + (bytes[1] as int - 0x80) * 64 + bytes[2] as int - 0x80;
      if v >= 0x800 && IsScalar(v) then Some(v as char) else None
    else
      var v: int := (bytes[0] as int - 0xF0) * 262144 + (bytes[1] as int - 0x80) * 4096 + (bytes[2] as int - 0x80) * 64 + bytes[3] as int - 0x80;
      if v >= 0x10000 && IsScalar(v) then Some(v as char) else None
  }

  /** Strict decoding: the whole input must be well-formed. */
  function Decode(bytes: seq<Byte>): Option<string> {
    if bytes == [] then Some("")
    else
      var n := SequenceLength(bytes[0]);
      if n == 0 || n > |bytes| || SequenceValue(bytes[..n]).None? then None
      else
        var rest := Decode(bytes[n..]);
        if rest.None? then None else Some([SequenceValue(bytes[..n]).value] + rest.value)
  }

  /** Every scalar value is read back from its own bytes. */
  lemma {:induction false} CharRoundTrip(c: char)
    ensures SequenceLength(EncodeChar(c)[0]) == |EncodeChar(c)|
    ensures SequenceValue(EncodeChar(c)) == Some(c)
  {
    var v := c as int;
    if v < 0x800 {
    } else if v < 0x10000 {
      assert v / 64 / 64 == v / 4096;
    } else {
      assert v / 64 / 64 == v / 4096 && v / 4096 / 64 == v / 262144;
    }
  }

  lemma {:induction false} FirstByteStarts(bytes: seq<Byte>)
    requires bytes != [] && SequenceValue(bytes).Some?
    ensures !IsContinuation(bytes[0]) && |bytes| <= 4
    ensures forall i :: 1 <= i < |bytes| ==> IsContinuation(bytes[i])
  {
  }

  /** No other bytes have a value: the form of a character is unique. */
  lemma {:induction false} ValueIsUnique(bytes: seq<Byte>, c: char)
    requires bytes != [] && SequenceValue(bytes) == Some(c)
    ensures bytes == EncodeChar(c)
  {
    if |bytes| == 2 {
      Digits64(bytes[0] as int - 0xC0, bytes[1] as int - 0x80);
    } else if |bytes| == 3 {
      ThreeDigits64(bytes[0] as int - 0xE0, bytes[1] as int - 0x80, bytes[2] as int - 0x80);
    } else if |bytes| == 4 {
      ThreeDigits64((bytes[0] as int - 0xF0) * 64 + bytes[1] as int - 0x80, bytes[2] as int - 0x80, bytes[3] as int - 0x80);
      Digits64(bytes[0] as int - 0xF0, bytes[1] as int - 0x80);
      DivideTwice(c as int);
    }
  }

  lemma ThreeDigits64(high: int, middle: int, low: int)
    requires 0 <= middle < 64 && 0 <= low < 64
    ensures var v := high * 4096 + middle * 64 + low; v / 4096 == high && v / 64 == high * 64 + middle && v / 64 % 64 == middle && v % 64 == low
  {
    Digits64(high * 64 + middle, low);
    Digits64(high, middle);
    DivideTwice(high * 4096 + middle * 64 + low);
  }

  lemma DivideTwice(v: int)
    ensures v / 64 / 64 == v / 4096 && v / 4096 / 64 == v / 262144
  {
  }

  lemma Digits64(high: int, low: int)
    requires 0 <= low < 64
    ensures (high * 64 + low) / 64 == high && (high * 64 + low) % 64 == low
  {
  }

  /** The bytes of a text. */
  function EncodeText(text: string): seq<Byte> {
    if text == "" then [] else EncodeChar(text[0]) + EncodeText(text[1..])
  }

  /** A text is read from exactly its own bytes. */
  lemma {:induction false} DecodesIffEncoded(bytes: seq<Byte>, text: string)
    ensures Decode(bytes) == Some(text) <==> bytes == EncodeText(text)
    decreases |bytes|
  {
    if bytes == [] {
      assert text != "" ==> |EncodeText(text)| > 0;
    } else {
      var n := SequenceLength(bytes[0]);
      if Decode(bytes) == Some(text) {
        ValueIsUnique(bytes[..n], text[0]);
        assert text[1..] == Decode(bytes[n..]).value && bytes == bytes[..n] + bytes[n..];
        DecodesIffEncoded(bytes[n..], text[1..]);
      }
      if bytes == EncodeText(text) {
        CharRoundTrip(text[0]);
        assert bytes[..n] == EncodeChar(text[0]) && bytes[n..] == EncodeText(text[1..]);
        DecodesIffEncoded(bytes[n..], text[1..]);
        assert text == [text[0]] + text[1..];
      }
    }
  }
}
