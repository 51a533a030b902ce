/** Insertion-ordered tables, and the "look up, update, store back" loop that groups rows by a key. */
module Grouping {
  import opened Collections

  /** A map that remembers the order in which its keys were first stored. */
  datatype Table<K(==), V> = Table(rows: map<K, V>, order: seq<K>) {
    function Get(k: K, default: V): V {
      if k in rows then rows[k] else default
    }

    function Put(k: K, v: V): Table<K, V> {
      Table(rows[k := v], if k in rows then order else order + [k])
    }

    ghost predicate Valid() {
      Distinct(order) && Elems(order) == rows.Keys
    }

    function Entries(): (es: seq<(K, V)>)
      requires Valid()
      ensures |es| == |order|
      ensures forall i :: 0 <= i < |order| ==> order[i] in rows && es[i] == (order[i], rows[order[i]])
    {
      assert forall k :: k in order ==> k in Elems(order);
      seq(|order|, i requires 0 <= i < |order| => (order[i], rows[order[i]]))
    }
  }

  function Empty<K, V>(): Table<K, V> { Table(map[], []) }

  lemma PutValid<K, V>(t: Table<K, V>, k: K, v: V)
    requires t.Valid()
    ensures t.Put(k, v).Valid()
  {
    if k !in t.rows {
      assert k !in Elems(t.order);
      assert Elems(t.order + [k]) == Elems(t.order) + {k};
    }
  }

  // ----- What the loop is meant to compute -----

  /** The rows with key k, in order. */
  function Of<T, K(==)>(s: seq<T>, key: T -> Option<K>, k: K): seq<T> {
    if s == [] then []
    else
      var n := |s| - 1;
      var before := Of(s[..n], key, k);
      if key(s[n]) == Some(k) then before + [s[n]] else before
  }

  /** The elements that satisfy p, in order. */
  function Filter<T>(s: seq<T>, p: T -> bool): seq<T> {
    if s == [] then []
    else
      var before := Filter(s[..|s| - 1], p);
      if p(s[|s| - 1]) then before + [s[|s| - 1]] else before
  }

  lemma {:induction false} OfIsFilter<T(!new), K>(s: seq<T>, key: T -> Option<K>, k: K, p: T -> bool)
    requires forall x :: p(x) <==> key(x) == Some(k)
    ensures Of(s, key, k) == Filter(s, p)
  {
    if s != [] {
      OfIsFilter(s[..|s| - 1], key, k, p);
    }
  }

  /** The filter keeps exactly the elements that satisfy p, as often as they occur. */
  lemma {:induction false} FilterCounts<T>(s: seq<T>, p: T -> bool, x: T)
    ensures multiset(Filter(s, p))[x] == if p(x) then multiset(s)[x] else 0
  {
    if s != [] {
      var n := |s| - 1;
      FilterCounts(s[..n], p, x);
      assert s == s[..n] + [s[n]];
    }
  }

  /** And it keeps their order: it acts on each part alone. */
  lemma {:induction false} FilterConcat<T>(a: seq<T>, b: seq<T>, p: T -> bool)
    ensures Filter(a + b, p) == Filter(a, p) + Filter(b, p)
  {
    if b == [] {
      assert a + b == a;
    } else {
      var n := |b| - 1;
      FilterConcat(a, b[..n], p);
      assert (a + b)[..|a + b| - 1] == a + b[..n];
    }
  }

  // ----- The loop -----

  function Add<T, K(==), V>(t: Table<K, V>, x: T, key: T -> Option<K>, init: V, step: (V, T) -> V): Table<K, V> {
    match key(x)
    case None => t
    case Some(k) => t.Put(k, step(t.Get(k, init), x))
  }

  function GroupBy<T, K(==), V>(s: seq<T>, key: T -> Option<K>, init: V, step: (V, T) -> V): Table<K, V> {
    if s == [] then Empty()
    else Add(GroupBy(s[..|s| - 1], key, init, step), s[|s| - 1], key, init, step)
  }

  lemma GroupByTake<T, K, V>(s: seq<T>, i: nat, key: T -> Option<K>, init: V, step: (V, T) -> V)
    requires i < |s|
    ensures GroupBy(s[..i + 1], key, init, step) == Add(GroupBy(s[..i], key, init, step), s[i], key, init, step)
  {
    assert s[..i + 1][..i] == s[..i];
  }

  lemma FoldSnoc<T, V>(s: seq<T>, x: T, init: V, step: (V, T) -> V)
    ensures Fold(step, init, s + [x]) == step(Fold(step, init, s), x)
  {
    Snoc(s, x);
  }

  /**
   * The one-pass loop is an independent filter-and-fold for each key: a key has an entry
   * exactly when some row has that key, and the entry is the fold of just those rows.
   */
  lemma {:induction false} GroupByMeaning<T, K, V>(s: seq<T>, key: T -> Option<K>, init: V, step: (V, T) -> V, k: K)
    ensures k in GroupBy(s, key, init, step).rows <==> Of(s, key, k) != []
    ensures GroupBy(s, key, init, step).Get(k, init) == Fold(step, init, Of(s, key, k))
  {
    if s != [] {
      var n := |s| - 1;
      GroupByMeaning(s[..n], key, init, step, k);
      FoldSnoc(Of(s[..n], key, k), s[n], init, step);
    }
  }

  lemma {:induction false} GroupByValid<T, K, V>(s: seq<T>, key: T -> Option<K>, init: V, step: (V, T) -> V)
    ensures GroupBy(s, key, init, step).Valid()
  {
    if s == [] {
      assert Elems<K>([]) == {};
    } else {
      var n := |s| - 1;
      var t := GroupBy(s[..n], key, init, step);
      GroupByValid(s[..n], key, init, step);
      match key(s[n])
      case None =>
      case Some(k) => PutValid(t, k, step(t.Get(k, init), s[n]));
    }
  }

  // ----- Totals over all groups -----

  ghost predicate Additive<T(!new), V(!new)>(init: V, step: (V, T) -> V, f: V -> int, g: T -> int) {
    f(init) == 0 && forall v, x :: f(step(v, x)) == f(v) + g(x)
  }

  function Keyed<T, K>(key: T -> Option<K>, g: T -> int): T -> int {
    x => if key(x).Some? then g(x) else 0
  }

  /** What the groups hold together is what the rows that have a key bring in. */
  lemma {:induction false} GroupTotal<T(!new), K, V(!new)>(s: seq<T>, key: T -> Option<K>, init: V, step: (V, T) -> V,
      f: V -> int, g: T -> int)
    requires Additive(init, step, f, g)
    ensures MapSum(GroupBy(s, key, init, step).rows, f) == Sum(s, Keyed(key, g))
  {
    if s != [] {
      var n := |s| - 1;
      var t := GroupBy(s[..n], key, init, step);
      GroupTotal(s[..n], key, init, step, f, g);
      match key(s[n])
      case None =>
      case Some(k) => MapSumUpdate(t.rows, f, k, step(t.Get(k, init), s[n]));
    }
  }

  /** The step of a plain counter. */
  function AddCount<T>(n: nat, x: T): nat { n + 1 }

  lemma {:induction false} CountFold<T>(s: seq<T>)
    ensures Fold(AddCount, 0, s) == |s|
  {
    if s != [] {
      CountFold(s[..|s| - 1]);
    }
  }

  function One<T>(x: T): int { 1 }

  function Whole(n: nat): int { n }

  /** How many rows have a key at all. */
  function CountKeyed<T, K>(s: seq<T>, key: T -> Option<K>): nat {
    if s == [] then 0
    else
      var before := CountKeyed(s[..|s| - 1], key);
      if key(s[|s| - 1]).Some? then before + 1 else before
  }

  lemma {:induction false} KeyedOnes<T, K>(s: seq<T>, key: T -> Option<K>)
    ensures Sum(s, Keyed(key, One)) == CountKeyed(s, key)
  {
    if s != [] {
      KeyedOnes(s[..|s| - 1], key);
    }
  }

  function OfEntry<K, V>(f: V -> int): ((K, V)) -> int {
    (e: (K, V)) => f(e.1)
  }

  lemma {:induction false} EntriesSum<K, V>(t: Table<K, V>, f: V -> int)
    requires t.Valid()
    ensures Sum(t.Entries(), OfEntry(f)) == MapSum(t.rows, f)
    decreases |t.order|
  {
    if t.order == [] {
      assert t.rows.Keys == {};
      assert t.rows == map[];
    } else {
      var n := |t.order| - 1;
      var k := t.order[n];
      var u := Table(t.rows - {k}, t.order[..n]);
      DropLast(t);
      EntriesSum(u, f);
      MapSumRemove(t.rows, f, k);
    }
  }

  lemma DropLast<K, V>(t: Table<K, V>)
    requires t.Valid() && t.order != []
    ensures var n := |t.order| - 1;
      && t.order[n] in t.rows
      && Table(t.rows - {t.order[n]}, t.order[..n]).Valid()
      && |t.Entries()| == n + 1
      && t.Entries()[..n] == Table(t.rows - {t.order[n]}, t.order[..n]).Entries()
      && t.Entries()[n].1 == t.rows[t.order[n]]
  {
    var n := |t.order| - 1;
    var k := t.order[n];
    LastOfDistinct(t.order);
    var u := Table(t.rows - {k}, t.order[..n]);
    assert u.rows.Keys == t.rows.Keys - {k};
    assert t.Entries()[..n] == u.Entries();
  }

  lemma LastOfDistinct<K>(s: seq<K>)
    requires Distinct(s) && s != []
    ensures var n := |s| - 1; Distinct(s[..n]) && Elems(s[..n]) == Elems(s) - {s[n]} && s[n] in Elems(s)
  {
    var n := |s| - 1;
    assert s == s[..n] + [s[n]];
  }

  /** Report rows built from the entries carry the entries' total. */
  lemma {:induction false} RowsSum<K, V, R>(es: seq<(K, V)>, rows: seq<R>, f: V -> int, u: R -> int)
    requires |rows| == |es| && forall i :: 0 <= i < |es| ==> u(rows[i]) == f(es[i].1)
    ensures Sum(rows, u) == Sum(es, OfEntry(f))
  {
    if es == [] {
      assert rows == [];
    } else {
      var n := |es| - 1;
      assert forall i :: 0 <= i < n ==> rows[..n][i] == rows[i] && es[..n][i] == es[i];
      RowsSum(es[..n], rows[..n], f, u);
      assert u(rows[n]) == OfEntry(f)(es[n]);
    }
  }

  // ----- Order of the rows -----

  lemma {:induction false} OfConcat<T, K>(a: seq<T>, b: seq<T>, key: T -> Option<K>, k: K)
    ensures Of(a + b, key, k) == Of(a, key, k) + Of(b, key, k)
  {
    if b == [] {
      assert a + b == a;
    } else {
      var n := |b| - 1;
      OfConcat(a, b[..n], key, k);
      assert (a + b)[..|a + b| - 1] == a + b[..n];
    }
  }

  /** Rows in another order give groups in another order, with the same members. */
  lemma {:induction false} OfPermuted<T, K>(a: seq<T>, b: seq<T>, key: T -> Option<K>, k: K)
    requires multiset(a) == multiset(b)
    ensures multiset(Of(a, key, k)) == multiset(Of(b, key, k))
    decreases |b|
  {
    if b == [] {
      assert |multiset(a)| == 0;
    } else {
      var n := |b| - 1;
      var x := b[n];
      assert b == b[..n] + [x];
      assert x in multiset(b);
      var i := RemoveFirst(a, x);
      OfPermuted(a[..i] + a[i + 1..], b[..n], key, k);
      OfConcat(a[..i] + [x], a[i + 1..], key, k);
      OfConcat(a[..i], [x], key, k);
      OfConcat(a[..i], a[i + 1..], key, k);
    }
  }

  lemma {:induction false} OfMembers<T, K>(s: seq<T>, key: T -> Option<K>, k: K, x: T)
    ensures x in Of(s, key, k) <==> x in s && key(x) == Some(k)
  {
    if s != [] {
      OfMembers(s[..|s| - 1], key, k, x);
    }
  }
}
