/** Sorting by a given order: what Python's sorted() does. */
module Sorting {
  ghost predicate TotalOrder<T(!new)>(atMost: (T, T) -> bool) {
    && (forall a, b :: atMost(a, b) || atMost(b, a))
    && (forall a, b, c :: atMost(a, b) && atMost(b, c) ==> atMost(a, c))
  }

  ghost predicate Ordered<T>(s: seq<T>, atMost: (T, T) -> bool) {
    forall i, j :: 0 <= i < j < |s| ==> atMost(s[i], s[j])
  }

  lemma OrderedFirst<T(!new)>(x: T, s: seq<T>, atMost: (T, T) -> bool)
    requires TotalOrder(atMost) && Ordered(s, atMost) && (s == [] || atMost(x, s[0]))
    ensures Ordered([x] + s, atMost)
  {
    forall j | 0 <= j < |s| ensures atMost(x, s[j]) {
      if j > 0 { assert atMost(s[0], s[j]); }
    }
  }

  lemma OrderedAfter<T(!new)>(x: T, s: seq<T>, t: seq<T>, atMost: (T, T) -> bool)
    requires TotalOrder(atMost) && s != [] && Ordered(s, atMost) && !atMost(x, s[0])
    requires Ordered(t, atMost) && multiset(t) == multiset{x} + multiset(s[1..])
    ensures Ordered([s[0]] + t, atMost)
  {
    forall j | 0 <= j < |t| ensures atMost(s[0], t[j]) {
      assert t[j] in multiset(t);
      if t[j] != x {
        assert t[j] in s[1..];
        var k :| 0 <= k < |s| - 1 && s[1..][k] == t[j];
        assert atMost(s[0], s[k + 1]);
      }
    }
  }

  /** x put before the first element it is at most. */
  function Insert<T(!new)>(x: T, s: seq<T>, atMost: (T, T) -> bool): (r: seq<T>)
    requires TotalOrder(atMost) && Ordered(s, atMost)
    ensures Ordered(r, atMost) && multiset(r) == multiset{x} + multiset(s)
  {
    if s == [] || atMost(x, s[0]) then
      OrderedFirst(x, s, atMost);
      [x] + s
    else
      assert s == [s[0]] + s[1..];
      var t := Insert(x, s[1..], atMost);
      OrderedAfter(x, s, t, atMost);
      [s[0]] + t
  }

  /** sorted(s): elements of the same rank keep their order. */
  function Sorted<T(!new)>(s: seq<T>, atMost: (T, T) -> bool): (r: seq<T>)
    requires TotalOrder(atMost)
    ensures Ordered(r, atMost) && multiset(r) == multiset(s)
  {
    if s == [] then []
    else
      assert s == [s[0]] + s[1..];
      Insert(s[0], Sorted(s[1..], atMost), atMost)
  }

  lemma SortedHas<T(!new)>(s: seq<T>, atMost: (T, T) -> bool)
    requires TotalOrder(atMost)
    ensures |Sorted(s, atMost)| == |s| && forall x :: x in Sorted(s, atMost) <==> x in s
  {
    var r := Sorted(s, atMost);
    assert |multiset(r)| == |multiset(s)|;
    assert forall x :: x in r <==> x in multiset(r);
    assert forall x :: x in s <==> x in multiset(s);
  }
}
