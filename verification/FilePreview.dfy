/**
 * The text preview of an ordinary file (src/application/vault-file-preview-service.ts): the bytes
 * are cut at a limit, and the cut moves back until it no longer splits a character.
 */
module FilePreview {
  import opened Options
  import opened Utf8

  const MAX_PREVIEW_TEXT_BYTES := 64 * 1024

  ghost predicate Valid(bytes: seq<Byte>) {
    Decode(bytes).Some?
  }

  /** A character starts at `k`, or the text ends there. */
  ghost predicate Boundary(bytes: seq<Byte>, k: nat)
    requires k <= |bytes|
  {
    k == |bytes| || !IsContinuation(bytes[k])
  }

  /** A fatal text decoder that, as by default, swallows one leading byte order mark. */
  function DecodeText(bytes: seq<Byte>): Option<string> {
    var decoded := Decode(bytes);
    if decoded.Some? && decoded.value != "" && decoded.value[0] == '\U{FEFF}'
    then Some(decoded.value[1..]) else decoded
  }

  function DecodeUtf8NoNul(bytes: seq<Byte>): Option<string> {
    if 0 in bytes then None else DecodeText(bytes)
  }

  /** The bytes are those of the text, with one byte order mark in front of it or, unless it starts with one, without. */
  ghost predicate Spell(bytes: seq<Byte>, text: string) {
    bytes == EncodeText("\U{FEFF}" + text) || (bytes == EncodeText(text) && (text != "" ==> text[0] != '\U{FEFF}'))
  }

  lemma {:induction false} DecodesTextIff(bytes: seq<Byte>, text: string)
    ensures DecodeText(bytes) == Some(text) <==> Spell(bytes, text)
  {
    var marked := "\U{FEFF}" + text;
    assert marked[0] == '\U{FEFF}' && marked[1..] == text;
    DecodesIffEncoded(bytes, marked);
    DecodesIffEncoded(bytes, text);
    hide EncodeText, Decode;
    if Decode(bytes).Some? && Decode(bytes).value != "" && Decode(bytes).value[0] == '\U{FEFF}' {
      assert Decode(bytes).value == "\U{FEFF}" + Decode(bytes).value[1..];
    }
  }

  /** The prefixes of a valid text that are valid are those cut at a boundary, and no others. */
  lemma {:induction false} ValidPrefixes(bytes: seq<Byte>, k: nat)
    requires Valid(bytes) && k <= |bytes|
    ensures Valid(bytes[..k]) <==> Boundary(bytes, k)
    ensures Boundary(bytes, k) ==> Decode(bytes[..k]).value <= Decode(bytes).value
    decreases |bytes|
  {
    if k < |bytes| {
      var n := SequenceLength(bytes[0]);
      FirstByteStarts(bytes[..n]);
      if 0 < k < n {
        assert bytes[k] == bytes[..n][k];
      } else if k >= n {
        ValidPrefixes(bytes[n..], k - n);
        assert bytes[..k][n..] == bytes[n..][..k - n];
        assert bytes[..k][..n] == bytes[..n];
        assert bytes[k] == bytes[n..][k - n];
      }
    } else {
      assert bytes[..k] == bytes;
    }
  }

  /** A boundary lies at most three bytes before any offset, since no character has more than four. */
  lemma {:induction false} BoundaryNearby(bytes: seq<Byte>, k: nat) returns (j: nat)
    requires Valid(bytes) && k <= |bytes|
    ensures k - 3 <= j <= k && Boundary(bytes, j)
    decreases |bytes|
  {
    if bytes == [] || k == 0 {
      j := 0;
      if bytes != [] {
        FirstByteStarts(bytes[..SequenceLength(bytes[0])]);
      }
    } else {
      var n := SequenceLength(bytes[0]);
      FirstByteStarts(bytes[..n]);
      if k < n {
        j := 0;
      } else {
        var i := BoundaryNearby(bytes[n..], k - n);
        j := n + i;
      }
    }
  }

  /** The length of the longest prefix, of at most `limit` bytes, that decodes. */
  ghost function LongestValid(bytes: seq<Byte>, limit: nat): (end: nat)
    requires limit <= |bytes|
    ensures end <= limit && Valid(bytes[..end])
    ensures forall e :: end < e <= limit ==> !Valid(bytes[..e])
  {
    if limit == 0 || Valid(bytes[..limit]) then limit else LongestValid(bytes, limit - 1)
  }

  /** Where the preview of a file is cut. */
  ghost function PreviewEnd(bytes: seq<Byte>): nat {
    LongestValid(bytes, if |bytes| < MAX_PREVIEW_TEXT_BYTES then |bytes| else MAX_PREVIEW_TEXT_BYTES)
  }

  /** Backs off from the limit to the longest prefix that decodes. */
  method TrimUtf8Preview(bytes: seq<Byte>) returns (text: string, truncated: bool)
    ensures DecodeText(bytes[..PreviewEnd(bytes)]) == Some(text)
    ensures truncated <==> PreviewEnd(bytes) < |bytes|
  {
    var end := if |bytes| < MAX_PREVIEW_TEXT_BYTES then |bytes| else MAX_PREVIEW_TEXT_BYTES;
    text := "";
    while end >= 0
      invariant 0 <= end <= |bytes| && LongestValid(bytes, end) == PreviewEnd(bytes)
    {
      var decoded := DecodeText(bytes[..end]);
      if decoded.Some? {
        text := decoded.value;
        break;
      }
      end := end - 1;
    }
    truncated := end < |bytes|;
  }

  /**
   * For a valid file the preview stops at the greatest character boundary within the limit, at
   * most three bytes short of it, and shows a prefix of the text, all of it when nothing was cut.
   */
  lemma {:induction false} PreviewOfValidText(bytes: seq<Byte>)
    requires Valid(bytes)
    ensures var end := PreviewEnd(bytes);
            && end <= |bytes| && end <= MAX_PREVIEW_TEXT_BYTES && Boundary(bytes, end)
            && (forall e :: end < e <= |bytes| && e <= MAX_PREVIEW_TEXT_BYTES ==> !Boundary(bytes, e))
            && (|bytes| <= end + 3 || MAX_PREVIEW_TEXT_BYTES <= end + 3)
            && DecodeText(bytes[..end]).value <= DecodeText(bytes).value
            && (|bytes| <= MAX_PREVIEW_TEXT_BYTES ==> end == |bytes|)
  {
    var limit := if |bytes| < MAX_PREVIEW_TEXT_BYTES then |bytes| else MAX_PREVIEW_TEXT_BYTES;
    var end := LongestValid(bytes, limit);
    ValidPrefixes(bytes, end);
    var near := BoundaryNearby(bytes, limit);
    ValidPrefixes(bytes, near);
    forall e | end < e <= |bytes| && e <= MAX_PREVIEW_TEXT_BYTES ensures !Boundary(bytes, e) {
      ValidPrefixes(bytes, e);
    }
    assert bytes[..|bytes|] == bytes;
  }

  datatype TextPreview = TextPreview(text: string, truncated: bool)

  /** The text branch of the preview: taken exactly for valid UTF-8 without a NUL byte. */
  method PreviewText(bytes: seq<Byte>) returns (r: Option<TextPreview>)
    ensures r.Some? <==> Valid(bytes) && 0 !in bytes
    ensures r.Some? ==>
      && DecodeText(bytes[..PreviewEnd(bytes)]) == Some(r.value.text)
      && r.value.text <= DecodeText(bytes).value
      && (r.value.truncated <==> MAX_PREVIEW_TEXT_BYTES < |bytes|)
      && (!r.value.truncated ==> r.value.text == DecodeText(bytes).value)
      && Spell(bytes[..PreviewEnd(bytes)], r.value.text)
  {
    if DecodeUtf8NoNul(bytes).None? {
      return None;
    }
    var text, truncated := TrimUtf8Preview(bytes);
    PreviewOfValidText(bytes);
    DecodesTextIff(bytes[..PreviewEnd(bytes)], text);
    assert bytes[..|bytes|] == bytes;
    r := Some(TextPreview(text, truncated));
  }
}
