/** The stable sort of the host language, by an integer key. */
module Sorting {
  import opened Sequences

  /** Puts `x` in front of the first element whose key is not smaller. */
  function Insert<T>(x: T, sorted: seq<T>, key: T -> int): seq<T> {
    if sorted == [] || key(x) <= key(sorted[0]) then [x] + sorted
    else [sorted[0]] + Insert(x, sorted[1..], key)
  }

  function SortBy<T>(s: seq<T>, key: T -> int): seq<T> {
    if s == [] then [] else Insert(s[0], SortBy(s[1..], key), key)
  }

  ghost predicate Sorted<T>(s: seq<T>, key: T -> int) {
    |s| >= 2 ==> key(s[0]) <= key(s[1]) && Sorted(s[1..], key)
  }

  lemma {:induction false} InsertSorts<T>(x: T, sorted: seq<T>, key: T -> int)
    requires Sorted(sorted, key)
    ensures Sorted(Insert(x, sorted, key), key)
    ensures multiset(Insert(x, sorted, key)) == multiset{x} + multiset(sorted)
    decreases |sorted|
  {
    if sorted == [] || key(x) <= key(sorted[0]) {
      assert ([x] + sorted)[1..] == sorted;
    } else {
      InsertSorts(x, sorted[1..], key);
      HeadTail(sorted);
      var rest := Insert(x, sorted[1..], key);
      assert ([sorted[0]] + rest)[1..] == rest;
      assert multiset(sorted) == multiset{sorted[0]} + multiset(sorted[1..]);
    }
  }

  /** Sorting orders the elements and keeps every one of them. */
  lemma {:induction false} SortBySorts<T>(s: seq<T>, key: T -> int)
    ensures Sorted(SortBy(s, key), key)
    ensures multiset(SortBy(s, key)) == multiset(s)
    decreases |s|
  {
    if s != [] {
      SortBySorts(s[1..], key);
      InsertSorts(s[0], SortBy(s[1..], key), key);
      HeadTail(s);
      assert multiset(s) == multiset{s[0]} + multiset(s[1..]);
    }
  }

  lemma {:induction false} SameElements<T(!new)>(a: seq<T>, b: seq<T>)
    requires multiset(a) == multiset(b)
    ensures |a| == |b| && forall x :: x in a <==> x in b
  {
    assert |multiset(a)| == |a| && |multiset(b)| == |b|;
    assert forall x :: x in a <==> x in multiset(a);
    assert forall x :: x in b <==> x in multiset(b);
  }

  /** Rearranging a list without repetition repeats nothing. */
  lemma {:induction false} KeepsDistinct<T(!new)>(a: seq<T>, b: seq<T>)
    requires multiset(a) == multiset(b) && forall i, j :: 0 <= i < j < |a| ==> a[i] != a[j]
    ensures forall i, j :: 0 <= i < j < |b| ==> b[i] != b[j]
  {
    forall i, j | 0 <= i < j < |b| ensures b[i] != b[j] {
      OnceEach(a, b[j]);
      assert b == b[..j] + b[j..] && multiset(b) == multiset(b[..j]) + multiset(b[j..]);
      assert b[..j][i] == b[i] && b[j..][0] == b[j];
    }
  }

  lemma {:induction false} OnceEach<T>(s: seq<T>, x: T)
    requires forall i, j :: 0 <= i < j < |s| ==> s[i] != s[j]
    ensures multiset(s)[x] <= 1
    decreases |s|
  {
    if s != [] {
      HeadTail(s);
      assert multiset(s) == multiset{s[0]} + multiset(s[1..]);
      OnceEach(s[1..], x);
      if x == s[0] {
        assert forall k :: 0 <= k < |s[1..]| ==> s[1..][k] == s[k + 1];
        assert x !in s[1..];
      }
    }
  }

  lemma {:induction false} SortedAt<T>(s: seq<T>, key: T -> int, i: nat, j: nat)
    requires Sorted(s, key) && i <= j < |s|
    ensures key(s[i]) <= key(s[j])
    decreases j
  {
    if i > 0 {
      SortedAt(s[1..], key, i - 1, j - 1);
    } else if j > 0 {
      SortedAt(s[1..], key, 0, j - 1);
    }
  }

  /** Every element is before all that follow it. */
  ghost predicate Chain<T(!new)>(s: seq<T>, before: (T, T) -> bool) {
    s == [] || ((forall y :: y in s[1..] ==> before(s[0], y)) && Chain(s[1..], before))
  }

  /** The order by `key` first, and by `before` among equal keys. */
  function ThenBy<T>(key: T -> int, before: (T, T) -> bool): (T, T) -> bool {
    (x: T, y: T) => key(x) < key(y) || (key(x) == key(y) && before(x, y))
  }

  lemma {:induction false} InsertChain<T(!new)>(x: T, sorted: seq<T>, key: T -> int, before: (T, T) -> bool)
    requires Chain(sorted, ThenBy(key, before)) && forall y :: y in sorted ==> before(x, y)
    ensures Chain(Insert(x, sorted, key), ThenBy(key, before))
    ensures forall y :: y in Insert(x, sorted, key) <==> y == x || y in sorted
    decreases |sorted|
  {
    if sorted == [] || key(x) <= key(sorted[0]) {
      assert ([x] + sorted)[1..] == sorted;
      forall y | y in sorted ensures ThenBy(key, before)(x, y) {
        assert y == sorted[0] || y in sorted[1..];
      }
    } else {
      InsertChain(x, sorted[1..], key, before);
      HeadTail(sorted);
      var rest := Insert(x, sorted[1..], key);
      forall y | y in rest ensures ThenBy(key, before)(sorted[0], y) {
        assert y == x || y in sorted[1..];
      }
      ConsChain(sorted[0], rest, ThenBy(key, before));
    }
  }

  lemma ConsChain<T(!new)>(x: T, rest: seq<T>, before: (T, T) -> bool)
    requires Chain(rest, before) && forall y :: y in rest ==> before(x, y)
    ensures Chain([x] + rest, before)
  {
    assert ([x] + rest)[1..] == rest;
  }

  /** The sort is stable: what was in order stays so among elements of equal key. */
  lemma {:induction false} SortByIsStable<T(!new)>(s: seq<T>, key: T -> int, before: (T, T) -> bool)
    requires Chain(s, before)
    ensures Chain(SortBy(s, key), ThenBy(key, before))
    ensures forall y :: y in SortBy(s, key) <==> y in s
    decreases |s|
  {
    if s != [] {
      SortByIsStable(s[1..], key, before);
      var rest := SortBy(s[1..], key);
      SortBySorts(s[1..], key);
      SameElements(s[1..], rest);
      forall y | y in rest ensures before(s[0], y) {
        assert y in s[1..];
      }
      InsertChain(s[0], SortBy(s[1..], key), key, before);
      HeadTail(s);
    }
  }

  lemma {:induction false} AnyChain<T(!new)>(s: seq<T>, before: (T, T) -> bool)
    requires forall x, y :: x in s && y in s ==> before(x, y)
    ensures Chain(s, before)
    decreases |s|
  {
    if s != [] {
      AnyChain(s[1..], before);
    }
  }

  lemma {:induction false} ChainPrefix<T(!new)>(s: seq<T>, n: nat, before: (T, T) -> bool)
    requires Chain(s, before) && n <= |s|
    ensures Chain(s[..n], before)
    decreases |s|
  {
    if n > 0 {
      assert s[..n][1..] == s[1..][..n - 1];
      ChainPrefix(s[1..], n - 1, before);
    }
  }
}
