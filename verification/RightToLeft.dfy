/**
 * Splicing ranges from the right, as the rewriting loops of src/application/note-move.ts and
 * src/application/json-canvas-reference-rewrite.ts do.
 */
module RightToLeft {
  import opened Sequences
  import opened Sorting
  import opened Splices

  ghost predicate NoneEmpty(edits: seq<Edit<char>>) {
    forall i :: 0 <= i < |edits| ==> edits[i].start < edits[i].end
  }

  function FromEnd(e: Edit<char>): int {
    0 - e.start
  }

  ghost function Backwards(edits: seq<Edit<char>>): seq<Edit<char>> {
    if edits == [] then [] else [edits[|edits| - 1]] + Backwards(edits[..|edits| - 1])
  }

  lemma {:induction false} LastStartsLast(edits: seq<Edit<char>>, from: nat, limit: nat, e: Edit<char>)
    requires Ordered(edits, from, limit) && NoneEmpty(edits) && e in edits
    ensures from <= e.start && (e == edits[|edits| - 1] || e.start < edits[|edits| - 1].start)
    decreases |edits|
  {
    if e == edits[0] {
      if |edits| > 1 {
        LastStartsLast(edits[1..], e.end, limit, edits[|edits| - 1]);
      }
    } else {
      assert e in edits[1..];
      LastStartsLast(edits[1..], edits[0].end, limit, e);
    }
  }

  /** For non-empty ranges, sorting by descending start is exactly the reverse of text order. */
  lemma {:induction false} DescendingIsBackwards(ascending: seq<Edit<char>>, descending: seq<Edit<char>>, limit: nat)
    requires Ordered(ascending, 0, limit) && NoneEmpty(ascending)
    requires Sorted(descending, FromEnd) && multiset(descending) == multiset(ascending)
    ensures descending == Backwards(ascending)
    decreases |ascending|
  {
    SameElements(ascending, descending);
    if ascending != [] {
      var last := ascending[|ascending| - 1];
      var init := ascending[..|ascending| - 1];
      assert ascending == init + [last];
      LastComesFirst(ascending, descending, limit);
      OrderedSplit(init, [last], 0, limit);
      HeadTail(descending);
      assert multiset(descending[1..]) == multiset([last] + descending[1..]) - multiset{last};
      assert multiset(init) == multiset(init + [last]) - multiset{last};
      DescendingIsBackwards(init, descending[1..], limit);
    }
  }

  lemma {:induction false} LastComesFirst(ascending: seq<Edit<char>>, descending: seq<Edit<char>>, limit: nat)
    requires ascending != [] && Ordered(ascending, 0, limit) && NoneEmpty(ascending)
    requires Sorted(descending, FromEnd) && |descending| == |ascending|
    requires forall x :: x in ascending <==> x in descending
    ensures descending[0] == ascending[|ascending| - 1]
  {
    var last := ascending[|ascending| - 1];
    LastStartsLast(ascending, 0, limit, descending[0]);
    assert last in ascending;
    var i :| 0 <= i < |descending| && descending[i] == last;
    SortedAt(descending, FromEnd, 0, i);
  }

  lemma {:induction false} ReplaceBefore(content: string, e: Edit<char>, later: seq<Edit<char>>)
    requires e.start <= e.end && Ordered(later, e.end, |content|)
    ensures Ordered(later, 0, |content|) && Ordered([e] + later, 0, |content|)
    ensures e.end <= |Splice(content, 0, later)|
    ensures var result := Splice(content, 0, later);
            result[..e.start] + e.text + result[e.end..] == Splice(content, 0, [e] + later)
  {
    SpliceFromLater(content, 0, e.end, later);
    var result := Splice(content, 0, later);
    assert ([e] + later)[1..] == later;
    DropHead(content[0..e.end], Splice(content, e.end, later));
    assert result[..e.start] == content[0..e.start];
  }

  /**
   * Splices from the right so that earlier offsets stay valid; the result is the one left-to-right
   * pass over the same rewrites in text order.
   */
  method ApplyRewrites(content: string, rewrites: seq<Edit<char>>, ghost inOrder: seq<Edit<char>>) returns (result: string)
    requires Ordered(inOrder, 0, |content|) && NoneEmpty(inOrder) && multiset(inOrder) == multiset(rewrites)
    ensures result == Splice(content, 0, inOrder)
  {
    result := content;
    var sorted := SortBy(rewrites, FromEnd);
    SortBySorts(rewrites, FromEnd);
    DescendingIsBackwards(inOrder, sorted, |content|);
    hide Sorted, SortBy, Ordered, Splice, NoneEmpty;
    StartBackwards(content, inOrder);
    ghost var before, after := inOrder, [];
    for n := 0 to |sorted|
      invariant inOrder == before + after && sorted[n..] == Backwards(before)
      invariant Ordered(before + after, 0, |content|) && Ordered(after, 0, |content|)
      invariant result == Splice(content, 0, after)
    {
      var candidate := sorted[n];
      StepBackwards(content, before, after, sorted[n..]);
      result := result[..candidate.start] + candidate.text + result[candidate.end..];
      assert sorted[n..][1..] == sorted[n + 1..];
      before, after := before[..|before| - 1], [candidate] + after;
    }
    EndBackwards(before, after);
  }

  lemma StartBackwards(content: string, edits: seq<Edit<char>>)
    requires Ordered(edits, 0, |content|)
    ensures edits + [] == edits && Backwards(edits)[0..] == Backwards(edits)
    ensures Ordered<char>([], 0, |content|) && Splice<char>(content, 0, []) == content
  {
  }

  lemma {:induction false} StepBackwards(content: string, before: seq<Edit<char>>, after: seq<Edit<char>>, rest: seq<Edit<char>>)
    requires rest != [] && rest == Backwards(before) && Ordered(before + after, 0, |content|)
    ensures before != []
    ensures var e := rest[0];
            var next := [e] + after;
            && rest[1..] == Backwards(before[..|before| - 1])
            && before[..|before| - 1] + next == before + after
            && Ordered(after, 0, |content|) && Ordered(next, 0, |content|)
            && e.start <= e.end <= |Splice(content, 0, after)|
            && Splice(content, 0, after)[..e.start] + e.text + Splice(content, 0, after)[e.end..] == Splice(content, 0, next)
  {
    var e := before[|before| - 1];
    var init := before[..|before| - 1];
    assert before == init + [e];
    Associative(init, [e], after);
    OrderedSplit(init, [e] + after, 0, |content|);
    assert ([e] + after)[1..] == after;
    ReplaceBefore(content, e, after);
  }

  lemma EndBackwards(before: seq<Edit<char>>, after: seq<Edit<char>>)
    requires Backwards(before) == []
    ensures before + after == after
  {
  }

  /** An empty range next to a range that starts with it is why the ranges must not be empty. */
  lemma {:induction false} EmptyRangeClashes(content: string, k: nat, x: char, y: char)
    requires k < |content| && x != y
    ensures var first, second := Edit(k, k, [x]), Edit(k, k + 1, [y]);
            var once := content[..first.start] + first.text + content[first.end..];
            var twice := once[..second.start] + second.text + once[second.end..];
            && SortBy([first, second], FromEnd) == [first, second]
            && Ordered([first, second], 0, |content|)
            && twice != Splice(content, 0, [first, second])
  {
    var first, second := Edit(k, k, [x]), Edit(k, k + 1, [y]);
    var once := content[..k] + [x] + content[k..];
    var twice := once[..k] + [y] + once[k + 1..];
    assert [first, second][1..] == [second] && [second][1..] == [];
    assert SortBy([second], FromEnd) == [second];
    assert Splice(content, 0, [first, second])[k] == x;
    assert twice[k] == y;
  }
}
