/** The stable `sort` of the standard library, and the "sort, then slice" cut built on it. */
module Sorting {
  ghost predicate SortedBy<T>(s: seq<T>, key: T -> real) {
    forall i, j :: 0 <= i < j < |s| ==> key(s[i]) <= key(s[j])
  }

  function WithKey<T>(s: seq<T>, key: T -> real, k: real): seq<T> {
    if s == [] then []
    else WithKey(s[..|s| - 1], key, k) + if key(s[|s| - 1]) == k then [s[|s| - 1]] else []
  }

  function Insert<T>(s: seq<T>, x: T, key: T -> real): seq<T> {
    if s == [] then [x]
    else
      var n := |s| - 1;
      if key(s[n]) <= key(x) then s + [x] else Insert(s[..n], x, key) + [s[n]]
  }

  function SortBy<T>(s: seq<T>, key: T -> real): seq<T> {
    if s == [] then [] else Insert(SortBy(s[..|s| - 1], key), s[|s| - 1], key)
  }

  lemma {:induction false} InsertContents<T>(s: seq<T>, x: T, key: T -> real)
    ensures multiset(Insert(s, x, key)) == multiset(s) + multiset{x}
    ensures |Insert(s, x, key)| == |s| + 1
  {
    if s != [] {
      var n := |s| - 1;
      InsertContents(s[..n], x, key);
      assert s == s[..n] + [s[n]];
    }
  }

  lemma {:induction false} InsertSorted<T>(s: seq<T>, x: T, key: T -> real)
    requires SortedBy(s, key)
    ensures SortedBy(Insert(s, x, key), key)
  {
    if s != [] {
      var n := |s| - 1;
      if key(s[n]) <= key(x) {
        forall i | 0 <= i < |s| ensures key(s[i]) <= key(x) {
          assert i < n ==> key(s[i]) <= key(s[n]);
        }
      } else {
        var r := Insert(s[..n], x, key);
        InsertSorted(s[..n], x, key);
        InsertContents(s[..n], x, key);
        forall y | y in r ensures key(y) <= key(s[n]) {
          assert y in multiset(r);
          assert y in s[..n] || y == x;
        }
      }
    }
  }

  lemma {:induction false} InsertStable<T>(s: seq<T>, x: T, key: T -> real, k: real)
    requires SortedBy(s, key)
    ensures WithKey(Insert(s, x, key), key, k) == WithKey(s + [x], key, k)
  {
    assert (s + [x])[..|s|] == s;
    if s == [] {
      assert [x] == [] + [x];
    } else if key(s[|s| - 1]) > key(x) {
      var n := |s| - 1;
      var r := Insert(s[..n], x, key);
      InsertStable(s[..n], x, key, k);
      assert (r + [s[n]])[..|r|] == r;
      assert (s[..n] + [x])[..n] == s[..n];
    }
  }

  lemma {:induction false} SortByCorrect<T>(s: seq<T>, key: T -> real)
    ensures SortedBy(SortBy(s, key), key)
    ensures multiset(SortBy(s, key)) == multiset(s) && |SortBy(s, key)| == |s|
  {
    if s != [] {
      var n := |s| - 1;
      SortByCorrect(s[..n], key);
      InsertSorted(SortBy(s[..n], key), s[n], key);
      InsertContents(SortBy(s[..n], key), s[n], key);
      assert s == s[..n] + [s[n]];
    }
  }

  /** Elements with equal keys keep their order. */
  lemma {:induction false} SortByStable<T>(s: seq<T>, key: T -> real, k: real)
    ensures WithKey(SortBy(s, key), key, k) == WithKey(s, key, k)
  {
    if s != [] {
      var n := |s| - 1;
      var r := SortBy(s[..n], key);
      SortByStable(s[..n], key, k);
      SortByCorrect(s[..n], key);
      InsertStable(r, s[n], key, k);
      assert (r + [s[n]])[..|r|] == r;
    }
  }

  // ----- Equal keys, by the order before the sort -----

  ghost predicate InOrder<T(!new)>(s: seq<T>, before: (T, T) -> bool) {
    forall i, j :: 0 <= i < j < |s| ==> before(s[i], s[j])
  }

  lemma InOrderTail<T(!new)>(a: seq<T>, b: seq<T>, before: (T, T) -> bool)
    requires a != [] && b != [] && a[0] == b[0] && InOrder(a, before)
    requires !before(a[0], a[0])
    requires forall x :: x in a ==> x in b
    ensures InOrder(a[1..], before) && forall x :: x in a[1..] ==> x in b[1..]
  {
    forall x | x in a[1..] ensures x in b[1..] {
      var i :| 0 < i < |a| && a[i] == x;
      assert before(a[0], x);
      assert x in a;
      var j :| 0 <= j < |b| && b[j] == x;
      assert b[1..][j - 1] == x;
    }
  }

  lemma SomeElement<T>(s: seq<T>) returns (x: T)
    requires s != []
    ensures x in s
  {
    x := s[0];
  }

  /** Only one sequence of some elements is in a strict order. */
  lemma {:induction false} OneOrder<T(!new)>(a: seq<T>, b: seq<T>, before: (T, T) -> bool)
    requires InOrder(a, before) && InOrder(b, before)
    requires forall x, y :: x in a && y in a ==> !(before(x, y) && before(y, x))
    requires forall x :: x in a <==> x in b
    ensures a == b
  {
    if a == [] {
      if b != [] {
        var x := SomeElement(b);
      }
    } else {
      assert a[0] in b && b[0] in a;
      assert a[0] == b[0] by {
        var k :| 0 <= k < |b| && b[k] == a[0];
        var m :| 0 <= m < |a| && a[m] == b[0];
        assert k == 0 || m == 0;
      }
      InOrderTail(a, b, before);
      InOrderTail(b, a, before);
      OneOrder(a[1..], b[1..], before);
    }
  }

  /** By key, and at equal keys in the order that `before` gives. */
  ghost predicate OrderedBy<T(!new)>(s: seq<T>, key: T -> real, before: (T, T) -> bool) {
    forall i, j :: 0 <= i < j < |s| ==> key(s[i]) < key(s[j]) || (key(s[i]) == key(s[j]) && before(s[i], s[j]))
  }

  lemma {:induction false} InsertOrdered<T(!new)>(s: seq<T>, x: T, key: T -> real, before: (T, T) -> bool)
    requires OrderedBy(s, key, before) && forall y :: y in s ==> before(y, x)
    ensures OrderedBy(Insert(s, x, key), key, before)
  {
    if s != [] {
      var n := |s| - 1;
      if key(s[n]) <= key(x) {
        forall i | 0 <= i < |s| ensures key(s[i]) <= key(x) {
          assert i < n ==> key(s[i]) <= key(s[n]);
        }
      } else {
        var r := Insert(s[..n], x, key);
        InsertOrdered(s[..n], x, key, before);
        InsertContents(s[..n], x, key);
        forall y | y in r ensures key(y) < key(s[n]) || (key(y) == key(s[n]) && before(y, s[n])) {
          assert y in multiset(r);
          assert y in s[..n] || y == x;
        }
      }
    }
  }

  /** A stable sort of rows that came in order gives rows by key, and by that order at equal keys. */
  lemma {:induction false} SortByOrders<T(!new)>(s: seq<T>, key: T -> real, before: (T, T) -> bool)
    requires InOrder(s, before)
    ensures OrderedBy(SortBy(s, key), key, before)
  {
    if s != [] {
      var n := |s| - 1;
      SortByOrders(s[..n], key, before);
      SortByCorrect(s[..n], key);
      forall y | y in SortBy(s[..n], key) ensures before(y, s[n]) {
        assert y in multiset(s[..n]);
      }
      InsertOrdered(SortBy(s[..n], key), s[n], key, before);
    }
  }

  // ----- Descending rank, cut to the first `limit` -----

  function Descending<T>(key: T -> real): T -> real {
    x => -key(x)
  }

  function Top<T>(s: seq<T>, key: T -> real, limit: nat): seq<T> {
    var r := SortBy(s, Descending(key));
    if |r| <= limit then r else r[..limit]
  }

  lemma DescendingSorted<T>(r: seq<T>, key: T -> real)
    requires SortedBy(r, Descending(key))
    ensures forall i, j :: 0 <= i < j < |r| ==> key(r[i]) >= key(r[j])
  {
    forall i, j | 0 <= i < j < |r|
      ensures key(r[i]) >= key(r[j])
    {
      assert Descending(key)(r[i]) <= Descending(key)(r[j]);
    }
  }

  /**
   * The cut keeps as many rows as it may, in descending order, loses rows only to the
   * limit, and no row it drops beats a row it keeps.
   */
  lemma TopIsBest<T>(s: seq<T>, key: T -> real, limit: nat) returns (dropped: seq<T>)
    ensures var kept := Top(s, key, limit);
      && |kept| == (if |s| <= limit then |s| else limit)
      && multiset(s) == multiset(kept) + multiset(dropped)
      && (forall i, j :: 0 <= i < j < |kept| ==> key(kept[i]) >= key(kept[j]))
      && (forall i, j :: 0 <= i < |kept| && 0 <= j < |dropped| ==> key(kept[i]) >= key(dropped[j]))
  {
    var r := SortBy(s, Descending(key));
    SortByCorrect(s, Descending(key));
    DescendingSorted(r, key);
    var kept := Top(s, key, limit);
    dropped := r[|kept|..];
    assert r == kept + dropped;
  }
}
