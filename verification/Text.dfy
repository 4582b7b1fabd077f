/** The order of strings, and sorting by it: what Python's sorted() does. */
module Text {
  import opened Finite
  import Sorting

  /** a sorts strictly before b: code point by code point, a proper prefix first. */
  predicate Before(a: string, b: string) {
    if b == "" then false
    else if a == "" then true
    else a[0] < b[0] || (a[0] == b[0] && Before(a[1..], b[1..]))
  }

  /** The two agree up to a place at which a ends or has the smaller code point. */
  ghost predicate PartAt(a: string, b: string, k: int) {
    0 <= k <= |a| && k < |b| && a[..k] == b[..k] && (k == |a| || a[k] as int < b[k] as int)
  }

  lemma PartsAtStart(a: string, b: string, k: int)
    requires PartAt(a, b, k)
    ensures k == 0 || (a != "" && b != "" && a[0] == b[0])
  {
    if k > 0 {
      assert a[..k][0] == a[0] && b[..k][0] == b[0];
    }
  }

  lemma {:induction false} BeforeIff(a: string, b: string)
    ensures Before(a, b) <==> exists k :: PartAt(a, b, k)
  {
    if a == "" || b == "" || a[0] != b[0] {
      if Before(a, b) { assert PartAt(a, b, 0); }
      if k :| PartAt(a, b, k) {
        PartsAtStart(a, b, k);
      }
    } else {
      BeforeIff(a[1..], b[1..]);
      if k :| PartAt(a[1..], b[1..], k) {
        assert a[..k + 1] == [a[0]] + a[1..][..k] && b[..k + 1] == [b[0]] + b[1..][..k];
        assert PartAt(a, b, k + 1);
      }
      if k :| PartAt(a, b, k) {
        assert k > 0;
        assert a[1..][..k - 1] == a[..k][1..] && b[1..][..k - 1] == b[..k][1..];
        assert PartAt(a[1..], b[1..], k - 1);
      }
    }
  }

  predicate AtMost(a: string, b: string) {
    a == b || Before(a, b)
  }

  lemma {:induction false} BeforeTotal(a: string, b: string)
    ensures a == b || Before(a, b) || Before(b, a)
  {
    if a != "" && b != "" && a[0] == b[0] {
      BeforeTotal(a[1..], b[1..]);
      assert a == [a[0]] + a[1..] && b == [b[0]] + b[1..];
    }
  }

  lemma {:induction false} BeforeTransitive(a: string, b: string, c: string)
    requires Before(a, b) && Before(b, c)
    ensures Before(a, c)
  {
    if a != "" && a[0] == b[0] && b[0] == c[0] {
      BeforeTransitive(a[1..], b[1..], c[1..]);
    }
  }

  lemma {:induction false} BeforeIrreflexive(a: string)
    ensures !Before(a, a)
  {
    if a != "" { BeforeIrreflexive(a[1..]); }
  }

  lemma AtMostTransitive(a: string, b: string, c: string)
    requires AtMost(a, b) && AtMost(b, c)
    ensures AtMost(a, c)
  {
    if a != b && b != c { BeforeTransitive(a, b, c); }
  }

  /** The order of what keys give. */
  function ByKey<T>(key: T -> string): (T, T) -> bool {
    (a, b) => AtMost(key(a), key(b))
  }

  lemma KeysOrder<T(!new)>(key: T -> string)
    ensures Sorting.TotalOrder(ByKey(key))
  {
    forall a, b ensures ByKey(key)(a, b) || ByKey(key)(b, a) {
      BeforeTotal(key(a), key(b));
    }
    forall a, b, c | ByKey(key)(a, b) && ByKey(key)(b, c) ensures ByKey(key)(a, c) {
      AtMostTransitive(key(a), key(b), key(c));
    }
  }

  ghost predicate Ordered<T>(s: seq<T>, key: T -> string) {
    forall i, j :: 0 <= i < j < |s| ==> AtMost(key(s[i]), key(s[j]))
  }

  /** sorted(s, key=key). */
  function Sorted<T(!new)>(s: seq<T>, key: T -> string): (r: seq<T>)
    ensures multiset(r) == multiset(s)
    ensures Ordered(r, key)
  {
    KeysOrder(key);
    var r := Sorting.Sorted(s, ByKey(key));
    assert Ordered(r, key) by {
      forall i, j | 0 <= i < j < |r| ensures AtMost(key(r[i]), key(r[j])) {
        assert ByKey(key)(r[i], r[j]);
      }
    }
    r
  }

  lemma AtMostBothWays(a: string, b: string)
    requires AtMost(a, b) && AtMost(b, a)
    ensures a == b
  {
    if a != b {
      BeforeTransitive(a, b, a);
      BeforeIrreflexive(a);
    }
  }

  /** Two lists in order with the same members are one list. */
  lemma {:induction false} OneOrder(s: seq<string>, t: seq<string>)
    requires Ordered(s, Same) && Ordered(t, Same) && multiset(s) == multiset(t)
    ensures s == t
  {
    assert |s| == |t| by { assert |multiset(s)| == |multiset(t)|; }
    if s != [] {
      InOther(s, t);
      InOther(t, s);
      hide AtMost;
      FirstIsLeast(s, t[0]);
      FirstIsLeast(t, s[0]);
      AtMostBothWays(s[0], t[0]);
      TailOf(s);
      TailOf(t);
      OneOrder(s[1..], t[1..]);
      assert s == [s[0]] + s[1..] && t == [t[0]] + t[1..];
    }
  }

  lemma InOther(s: seq<string>, t: seq<string>)
    requires s != [] && multiset(s) == multiset(t)
    ensures s[0] in t
  {
    assert s[0] in multiset(s);
  }

  lemma TailOf(s: seq<string>)
    requires s != []
    ensures multiset(s[1..]) == multiset(s) - multiset{s[0]}
    ensures Ordered(s, Same) ==> Ordered(s[1..], Same)
  {
    assert s == [s[0]] + s[1..];
  }

  lemma FirstIsLeast(s: seq<string>, x: string)
    requires Ordered(s, Same) && x in s
    ensures AtMost(s[0], x)
  {
    var i :| 0 <= i < |s| && s[i] == x;
    if i > 0 { assert AtMost(Same(s[0]), Same(s[i])); }
  }

  function Same(s: string): string {
    s
  }

  /** sorted(s) of a set. */
  method SortedSet(s: set<string>) returns (r: seq<string>)
    ensures Distinct(r) && Elements(r) == s && Ordered(r, Same)
  {
    var left, list := s, [];
    while left != {}
      invariant left <= s && Distinct(list) && Elements(list) == s - left
      decreases |left|
    {
      var x :| x in left;
      assert x !in list && Elements(list + [x]) == Elements(list) + {x};
      left, list := left - {x}, list + [x];
    }
    PermutedDistinct(list, Sorted(list, Same));
    r := Sorted(list, Same);
  }
}
