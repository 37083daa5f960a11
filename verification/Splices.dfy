/** Replacing ranges of a text: the operation every rewriting service reduces to. */
module Splices {
  import opened Sequences

  datatype Edit<T> = Edit(start: nat, end: nat, text: seq<T>)

  /** The edits lie in `from..limit`, in order, and no two of them overlap. */
  ghost predicate Ordered<T>(edits: seq<Edit<T>>, from: nat, limit: nat)
    decreases |edits|
  {
    if edits == [] then from <= limit
    else from <= edits[0].start <= edits[0].end <= limit && Ordered(edits[1..], edits[0].end, limit)
  }

  /** One left-to-right pass over `text` from offset `from`: copy each gap, then the replacement. */
  ghost function Splice<T>(text: seq<T>, from: nat, edits: seq<Edit<T>>): seq<T>
    requires Ordered(edits, from, |text|)
    decreases |edits|
  {
    if edits == [] then text[from..]
    else text[from..edits[0].start] + edits[0].text + Splice(text, edits[0].end, edits[1..])
  }

  /** The part of the result that is final once all of `edits` are done. */
  ghost function Done<T>(text: seq<T>, from: nat, edits: seq<Edit<T>>): seq<T>
    requires Ordered(edits, from, |text|)
    decreases |edits|
  {
    if edits == [] then []
    else text[from..edits[0].start] + edits[0].text + Done(text, edits[0].end, edits[1..])
  }

  /** Where the last of `edits` ends. */
  ghost function EndOf<T>(from: nat, edits: seq<Edit<T>>): nat {
    if edits == [] then from else edits[|edits| - 1].end
  }

  /** How far `edits` move the text that follows them. */
  ghost function Growth<T>(edits: seq<Edit<T>>): int {
    if edits == [] then 0
    else |edits[0].text| - (edits[0].end - edits[0].start) + Growth(edits[1..])
  }

  lemma {:induction false} OrderedSplit<T>(before: seq<Edit<T>>, after: seq<Edit<T>>, from: nat, limit: nat)
    requires Ordered(before + after, from, limit)
    ensures Ordered(before, from, limit) && Ordered(after, EndOf(from, before), limit)
    ensures from <= EndOf(from, before) <= limit
    decreases |before| + |after|
  {
    if before != [] {
      assert (before + after)[1..] == before[1..] + after;
      OrderedSplit(before[1..], after, before[0].end, limit);
    } else {
      assert before + after == after;
      if after != [] {
        assert [] + after[1..] == after[1..];
        OrderedSplit([], after[1..], after[0].end, limit);
      }
    }
  }

  lemma {:induction false} OrderedJoin<T>(before: seq<Edit<T>>, e: Edit<T>, from: nat, limit: nat)
    requires Ordered(before, from, limit) && EndOf(from, before) <= e.start <= e.end <= limit
    ensures Ordered(before + [e], from, limit)
    decreases |before|
  {
    if before == [] {
      assert ([e])[1..] == [];
    } else {
      assert (before + [e])[1..] == before[1..] + [e];
      OrderedJoin(before[1..], e, before[0].end, limit);
    }
  }

  lemma {:induction false} SpliceFromLater<T>(text: seq<T>, from: nat, to: nat, edits: seq<Edit<T>>)
    requires from <= to && Ordered(edits, to, |text|)
    ensures Ordered(edits, from, |text|) && to <= |text|
    ensures Splice(text, from, edits) == text[from..to] + Splice(text, to, edits)
  {
    if edits == [] {
      assert text[from..] == text[from..to] + text[to..];
    } else {
      OrderedSplit([edits[0]], edits[1..], to, |text|) by { assert [edits[0]] + edits[1..] == edits; }
      var e := edits[0];
      assert text[from..e.start] == text[from..to] + text[to..e.start];
      Associative(text[from..to], text[to..e.start], e.text);
      Associative(text[from..to], text[to..e.start] + e.text, Splice(text, e.end, edits[1..]));
    }
  }

  /**
   * Nothing outside the edited ranges is lost or changed: whatever edits come first, the splice
   * of the rest follows them unchanged, moved by exactly the growth of the edits before it.
   */
  lemma {:induction false} SpliceSplits<T>(text: seq<T>, from: nat, before: seq<Edit<T>>, after: seq<Edit<T>>)
    requires Ordered(before + after, from, |text|)
    ensures Ordered(before, from, |text|) && Ordered(after, EndOf(from, before), |text|)
    ensures Splice(text, from, before + after)
         == Done(text, from, before) + Splice(text, EndOf(from, before), after)
    ensures |Done(text, from, before)| == EndOf(from, before) - from + Growth(before)
    decreases |before|
  {
    OrderedSplit(before, after, from, |text|);
    if before == [] {
      assert before + after == after;
    } else {
      var e := before[0];
      assert (before + after)[1..] == before[1..] + after;
      SpliceSplits(text, e.end, before[1..], after);
      Associative(text[from..e.start] + e.text, Done(text, e.end, before[1..]),
                  Splice(text, EndOf(from, before), after));
    }
  }

  lemma {:induction false} DoneOneMore<T>(text: seq<T>, from: nat, before: seq<Edit<T>>, e: Edit<T>)
    requires Ordered(before, from, |text|) && EndOf(from, before) <= e.start <= e.end <= |text|
    ensures Ordered(before + [e], from, |text|)
    ensures Done(text, from, before + [e])
         == Done(text, from, before) + text[EndOf(from, before)..e.start] + e.text
    decreases |before|
  {
    OrderedJoin(before, e, from, |text|);
    var gap := text[EndOf(from, before)..e.start];
    if before == [] {
      assert before + [e] == [e] && ([e])[1..] == [];
    } else {
      var head := text[from..before[0].start] + before[0].text;
      assert (before + [e])[1..] == before[1..] + [e];
      DoneOneMore(text, before[0].end, before[1..], e);
      Associative(Done(text, before[0].end, before[1..]), gap, e.text);
      Associative(head, Done(text, before[0].end, before[1..]), gap + e.text);
      Associative(head + Done(text, before[0].end, before[1..]), gap, e.text);
    }
  }

  /** The i-th replacement stands at its start moved by the edits before it. */
  lemma {:induction false} SpliceHasText<T>(text: seq<T>, edits: seq<Edit<T>>, i: nat)
    requires Ordered(edits, 0, |text|) && i < |edits|
    ensures var at := edits[i].start + Growth(edits[..i]);
            && 0 <= at && at + |edits[i].text| <= |Splice(text, 0, edits)|
            && Splice(text, 0, edits)[at..at + |edits[i].text|] == edits[i].text
  {
    assert edits[..i] + edits[i..] == edits;
    SpliceSplits(text, 0, edits[..i], edits[i..]);
    var e := edits[i];
    var left := Done(text, 0, edits[..i]) + text[EndOf(0, edits[..i])..e.start];
    var right := Splice(text, e.end, edits[i..][1..]);
    Associative(Done(text, 0, edits[..i]), text[EndOf(0, edits[..i])..e.start] + e.text, right);
    Associative(Done(text, 0, edits[..i]), text[EndOf(0, edits[..i])..e.start], e.text);
    assert Splice(text, 0, edits) == left + e.text + right;
    assert |left| == e.start + Growth(edits[..i]);
  }
}
