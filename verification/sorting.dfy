/**
 * Sorting by an integer key, ascending or descending: the comparison sorts
 * (`List<T>.Sort` with a key comparer) that the replay engine and the task
 * queries use.  Insertion sort; equal keys keep their input order, which is
 * one of the orders the library sort may produce.
 */
module Sorting {

  predicate InOrder(a: int, b: int, desc: bool) {
    if desc then a >= b else a <= b
  }

  ghost predicate Ordered<T>(s: seq<T>, key: T -> int, desc: bool) {
    forall i, j :: 0 <= i < j < |s| ==> InOrder(key(s[i]), key(s[j]), desc)
  }

  lemma ConsOrdered<T>(y: T, t: seq<T>, key: T -> int, desc: bool)
    requires Ordered(t, key, desc)
    requires forall j :: 0 <= j < |t| ==> InOrder(key(y), key(t[j]), desc)
    ensures Ordered([y] + t, key, desc)
  {
    var r := [y] + t;
    forall i, j | 0 <= i < j < |r| ensures InOrder(key(r[i]), key(r[j]), desc) {
      if i > 0 {
        assert r[i] == t[i - 1] && r[j] == t[j - 1];
      } else {
        assert r[j] == t[j - 1];
      }
    }
  }

  lemma HeadBeforeInserted<T>(y: T, x: T, t: seq<T>, r: seq<T>, key: T -> int, desc: bool)
    requires InOrder(key(y), key(x), desc)
    requires forall j :: 0 <= j < |t| ==> InOrder(key(y), key(t[j]), desc)
    requires multiset(r) == multiset(t) + multiset{x}
    ensures forall j :: 0 <= j < |r| ==> InOrder(key(y), key(r[j]), desc)
  {
    forall j | 0 <= j < |r| ensures InOrder(key(y), key(r[j]), desc) {
      assert r[j] in multiset(r);
      if r[j] != x {
        assert r[j] in multiset(t);
        var k :| 0 <= k < |t| && t[k] == r[j];
      }
    }
  }

  /** `x` placed before the first element it may precede. */
  function Insert<T>(x: T, s: seq<T>, key: T -> int, desc: bool): (r: seq<T>)
    requires Ordered(s, key, desc)
    ensures multiset(r) == multiset(s) + multiset{x}
    ensures Ordered(r, key, desc)
    decreases |s|
  {
    if s == [] then [x]
    else if InOrder(key(x), key(s[0]), desc) then
      ConsOrdered(x, s, key, desc);
      [x] + s
    else
      var t := s[1..];
      assert s == [s[0]] + t;
      assert Ordered(t, key, desc) by {
        forall i, j | 0 <= i < j < |t| ensures InOrder(key(t[i]), key(t[j]), desc) {
          assert t[i] == s[i + 1] && t[j] == s[j + 1];
        }
      }
      assert forall j :: 0 <= j < |t| ==> InOrder(key(s[0]), key(t[j]), desc) by {
        forall j | 0 <= j < |t| ensures InOrder(key(s[0]), key(t[j]), desc) {
          assert t[j] == s[j + 1];
        }
      }
      var r' := Insert(x, t, key, desc);
      HeadBeforeInserted(s[0], x, t, r', key, desc);
      ConsOrdered(s[0], r', key, desc);
      [s[0]] + r'
  }

  /** A rearrangement of `s` ordered by `key`, ascending or (`desc`) descending. */
  function SortBy<T>(s: seq<T>, key: T -> int, desc: bool): (r: seq<T>)
    ensures multiset(r) == multiset(s)
    ensures Ordered(r, key, desc)
    decreases |s|
  {
    if s == [] then []
    else
      assert s == [s[0]] + s[1..];
      Insert(s[0], SortBy(s[1..], key, desc), key, desc)
  }
}
