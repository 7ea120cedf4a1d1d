/** Python's `sorted` with an integer key: a stable ascending sort. */
module Sorting {
  /** Before the first element whose key is not smaller. */
  function Insert<T>(x: T, sorted: seq<T>, key: T -> int): seq<T> {
    if sorted == [] || key(x) <= key(sorted[0]) then [x] + sorted
    else [sorted[0]] + Insert(x, sorted[1..], key)
  }

  function Sorted<T>(s: seq<T>, key: T -> int): seq<T> {
    if s == [] then [] else Insert(s[0], Sorted(s[1..], key), key)
  }

  predicate Ascending<T>(s: seq<T>, key: T -> int) {
    forall i, j :: 0 <= i < j < |s| ==> key(s[i]) <= key(s[j])
  }

  /** The elements with key `k`, in order. */
  function Keyed<T>(s: seq<T>, key: T -> int, k: int): seq<T> {
    if s == [] then [] else if key(s[0]) == k then [s[0]] + Keyed(s[1..], key, k) else Keyed(s[1..], key, k)
  }

  lemma {:induction false} InsertPermutes<T>(x: T, sorted: seq<T>, key: T -> int)
    ensures multiset(Insert(x, sorted, key)) == multiset{x} + multiset(sorted)
  {
    if sorted != [] && key(sorted[0]) < key(x) {
      InsertPermutes(x, sorted[1..], key);
      assert sorted == [sorted[0]] + sorted[1..];
    }
  }

  lemma InsertAdds<T>(x: T, sorted: seq<T>, key: T -> int)
    ensures forall y :: y in Insert(x, sorted, key) ==> y == x || y in sorted
  {
    InsertPermutes(x, sorted, key);
    forall y | y in Insert(x, sorted, key) ensures y == x || y in sorted {
      assert y in multiset(Insert(x, sorted, key));
    }
  }

  lemma AscendingFrom<T>(first: T, rest: seq<T>, key: T -> int)
    requires Ascending(rest, key) && forall y :: y in rest ==> key(first) <= key(y)
    ensures Ascending([first] + rest, key)
  {
    var s := [first] + rest;
    assert forall j :: 0 < j < |s| ==> s[j] == rest[j - 1] && s[j] in rest;
  }

  lemma {:induction false} InsertSorts<T>(x: T, sorted: seq<T>, key: T -> int)
    requires Ascending(sorted, key)
    ensures Ascending(Insert(x, sorted, key), key)
  {
    if sorted != [] && key(sorted[0]) < key(x) {
      InsertSorts(x, sorted[1..], key);
      InsertAdds(x, sorted[1..], key);
      AscendingFrom(sorted[0], Insert(x, sorted[1..], key), key);
    } else {
      AscendingFrom(x, sorted, key);
    }
  }

  lemma {:induction false} InsertIsStable<T>(x: T, sorted: seq<T>, key: T -> int, k: int)
    ensures Keyed(Insert(x, sorted, key), key, k)
         == if key(x) == k then [x] + Keyed(sorted, key, k) else Keyed(sorted, key, k)
  {
    if sorted == [] || key(x) <= key(sorted[0]) {
      assert ([x] + sorted)[1..] == sorted;
    } else {
      InsertIsStable(x, sorted[1..], key, k);
      assert Insert(x, sorted, key)[1..] == Insert(x, sorted[1..], key);
    }
  }

  /** A stable sort, characterised: ordered, a permutation, ties in input order. */
  lemma {:induction false} SortedIsStable<T>(s: seq<T>, key: T -> int, k: int)
    ensures Ascending(Sorted(s, key), key)
    ensures multiset(Sorted(s, key)) == multiset(s)
    ensures Keyed(Sorted(s, key), key, k) == Keyed(s, key, k)
  {
    if s != [] {
      var rest := Sorted(s[1..], key);
      SortedIsStable(s[1..], key, k);
      InsertSorts(s[0], rest, key);
      InsertPermutes(s[0], rest, key);
      InsertIsStable(s[0], rest, key, k);
      assert s == [s[0]] + s[1..];
    }
  }

  lemma SortedMembers<T>(s: seq<T>, key: T -> int)
    ensures forall x :: x in Sorted(s, key) <==> x in s
    ensures |Sorted(s, key)| == |s|
  {
    SortedIsStable(s, key, 0);
    assert forall x :: x in Sorted(s, key) <==> x in multiset(Sorted(s, key));
    assert forall x :: x in s <==> x in multiset(s);
    assert |Sorted(s, key)| == |multiset(Sorted(s, key))|;
  }

  lemma {:induction false} SortedStays<T>(s: seq<T>, key: T -> int)
    requires Ascending(s, key)
    ensures Sorted(s, key) == s
  {
    if s != [] {
      SortedStays(s[1..], key);
    }
  }
}
