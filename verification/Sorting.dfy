/** Sorting distinct keys, as the source does with the built-in sort of its language. */
module Sorting {
  ghost predicate StrictOrder<T(!new)>(before: (T, T) -> bool) {
    && (forall a :: !before(a, a))
    && (forall a, b :: a == b || before(a, b) || before(b, a))
    && (forall a, b, c :: before(a, b) && before(b, c) ==> before(a, c))
  }

  ghost predicate Ascending<T>(s: seq<T>, before: (T, T) -> bool) {
    forall i, j | 0 <= i < j < |s| :: before(s[i], s[j])
  }

  ghost predicate Distinct<T>(s: seq<T>) {
    forall i, j | 0 <= i < j < |s| :: s[i] != s[j]
  }

  function Insert<T>(x: T, s: seq<T>, before: (T, T) -> bool): seq<T> {
    if s == [] || before(x, s[0]) then [x] + s
    else [s[0]] + Insert(x, s[1..], before)
  }

  function Sort<T>(s: seq<T>, before: (T, T) -> bool): seq<T> {
    if s == [] then [] else Insert(s[0], Sort(s[1..], before), before)
  }

  lemma {:induction false} InsertMembers<T>(x: T, s: seq<T>, before: (T, T) -> bool)
    ensures multiset(Insert(x, s, before)) == multiset{x} + multiset(s)
  {
    if s != [] && !before(x, s[0]) {
      InsertMembers(x, s[1..], before);
      assert s == [s[0]] + s[1..];
    }
  }

  lemma {:induction false} InsertKeepsOrder<T(!new)>(x: T, s: seq<T>, before: (T, T) -> bool)
    requires StrictOrder(before) && Ascending(s, before) && x !in s
    ensures Ascending(Insert(x, s, before), before)
  {
    if s != [] && !before(x, s[0]) {
      var rest := Insert(x, s[1..], before);
      InsertKeepsOrder(x, s[1..], before);
      InsertMembers(x, s[1..], before);
      forall y | y in rest ensures before(s[0], y) {
        assert y in multiset(rest);
        assert y == x || y in s[1..];
      }
    }
  }

  lemma {:induction false} SortMembers<T>(s: seq<T>, before: (T, T) -> bool)
    ensures multiset(Sort(s, before)) == multiset(s)
    ensures |Sort(s, before)| == |s|
  {
    if s != [] {
      SortMembers(s[1..], before);
      InsertMembers(s[0], Sort(s[1..], before), before);
      assert s == [s[0]] + s[1..];
    }
    assert |multiset(Sort(s, before))| == |multiset(s)|;
  }

  lemma SameMembers<T>(s: seq<T>, before: (T, T) -> bool, x: T)
    ensures x in Sort(s, before) <==> x in s
  {
    SortMembers(s, before);
    assert x in Sort(s, before) <==> x in multiset(Sort(s, before));
    assert x in s <==> x in multiset(s);
  }

  /** Sorting distinct keys lists each of them once, in strictly ascending order. */
  lemma {:induction false} SortIsAscending<T(!new)>(s: seq<T>, before: (T, T) -> bool)
    requires StrictOrder(before) && Distinct(s)
    ensures Ascending(Sort(s, before), before)
    ensures forall x :: x in Sort(s, before) <==> x in s
    ensures |Sort(s, before)| == |s|
  {
    if s != [] {
      SortIsAscending(s[1..], before);
      InsertKeepsOrder(s[0], Sort(s[1..], before), before);
    }
    forall x ensures x in Sort(s, before) <==> x in s {
      SameMembers(s, before, x);
    }
    SortMembers(s, before);
  }

  // A map together with the order its keys were inserted in.
  ghost predicate Keyed<K(!new), V>(order: seq<K>, m: map<K, V>) {
    && (forall k :: k in order <==> k in m)
    && Distinct(order)
  }

  lemma KeyedInsert<K(!new), V>(order: seq<K>, m: map<K, V>, k: K, v: V)
    requires Keyed(order, m)
    ensures Keyed(if k in m then order else order + [k], m[k := v])
  {
  }

  // A listing of a set without repetition is as long as the set is large.
  lemma {:induction false} DistinctSize<T>(s: seq<T>, members: set<T>)
    requires Distinct(s) && (forall x | x in s :: x in members) && (forall x | x in members :: x in s)
    ensures |s| == |members|
  {
    if s == [] {
      assert members == {};
    } else {
      var last, front := s[|s|-1], s[..|s|-1];
      assert last in s;
      forall x | x in members - {last} ensures x in front {
        var i :| 0 <= i < |s| && s[i] == x;
        assert front[i] == x;
      }
      DistinctSize(front, members - {last});
    }
  }

  lemma KeyedSize<K(!new), V>(order: seq<K>, m: map<K, V>)
    requires Keyed(order, m)
    ensures |order| == |m| == |m.Keys|
  {
    DistinctSize(order, m.Keys);
  }

  method Choose<T(==)>(members: set<T>) returns (x: T)
    requires members != {}
    ensures x in members
  {
    x :| x in members;
  }

  // The elements of a set in some order.
  method Elements<T(==, !new)>(members: set<T>) returns (s: seq<T>)
    ensures Distinct(s) && |s| == |members|
    ensures forall x :: x in s <==> x in members
  {
    s := [];
    var left := members;
    while left != {}
      invariant left <= members && Distinct(s)
      invariant forall x :: x in s <==> x in members - left
    {
      var x := Choose(left);
      assert x !in members - left && x !in s;
      s, left := s + [x], left - {x};
    }
    DistinctSize(s, members);
  }
}
