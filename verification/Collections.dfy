/** Small vocabulary shared by the component modules. */
module Collections {

  type Byte = x: int | 0 <= x < 256

  const TWO_32 := 0x1_0000_0000

  /** The number some bytes spell, most significant byte first. */
  function ByteValue(s: seq<Byte>): nat {
    if s == [] then 0
    else
      var last: int := s[|s| - 1];
      ByteValue(s[..|s| - 1]) * 256 + last
  }

  datatype Option<+T> = None | Some(value: T) {
    function GetOr(default: T): T {
      match this
      case Some(v) => v
      case None => default
    }
  }

  datatype Result<+T, +E> = Ok(value: T) | Err(error: E)

  ghost predicate Distinct<T>(s: seq<T>) {
    forall i, j :: 0 <= i < j < |s| ==> s[i] != s[j]
  }

  function Elems<T>(s: seq<T>): set<T> {
    set x | x in s
  }

  /** The position of the first occurrence of x. */
  function IndexOf<T(==)>(s: seq<T>, x: T): (i: nat)
    requires x in s
    ensures i < |s| && s[i] == x && x !in s[..i]
  {
    if s[0] == x then 0
    else
      assert x in s[1..];
      var k := IndexOf(s[1..], x);
      assert s[..k + 1] == [s[0]] + s[1..][..k];
      k + 1
  }

  lemma {:induction false} DistinctCardinality<T>(s: seq<T>)
    requires Distinct(s)
    ensures |Elems(s)| == |s|
  {
    if s == [] {
      assert Elems(s) == {};
    } else {
      var n := |s| - 1;
      var init, last := s[..n], s[n];
      assert Distinct(init) by {
        forall i, j | 0 <= i < j < n ensures init[i] != init[j] {
          assert s[i] != s[j];
        }
      }
      DistinctCardinality(init);
      assert forall x :: x in init ==> x != last;
      assert s == init + [last];
      assert Elems(s) == Elems(init) + {last};
    }
  }

  lemma ConcatAssoc<T>(a: seq<T>, b: seq<T>, c: seq<T>)
    ensures a + (b + c) == (a + b) + c
  {
  }

  lemma Snoc<T>(s: seq<T>, x: T)
    ensures (s + [x])[..|s|] == s && (s + [x])[|s|] == x
  {
  }

  lemma SubsetSize<T>(a: set<T>, b: set<T>)
    requires a <= b
    ensures |a| <= |b|
  {
    assert b == a + (b - a);
  }

  // ----- Folds and sums -----

  function Fold<T, B>(step: (T, B) -> T, c: T, input: seq<B>): T
    decreases |input|
  {
    if input == [] then c else step(Fold(step, c, input[..|input| - 1]), input[|input| - 1])
  }

  function Sum<T>(s: seq<T>, f: T -> int): int {
    if s == [] then 0 else Sum(s[..|s| - 1], f) + f(s[|s| - 1])
  }

  function RealSum<T>(s: seq<T>, f: T -> real): real {
    if s == [] then 0.0 else RealSum(s[..|s| - 1], f) + f(s[|s| - 1])
  }

  lemma {:induction false} SumConcat<T>(a: seq<T>, b: seq<T>, f: T -> int)
    ensures Sum(a + b, f) == Sum(a, f) + Sum(b, f)
  {
    if b == [] {
      assert a + b == a;
    } else {
      var n := |b| - 1;
      SumConcat(a, b[..n], f);
      assert (a + b)[..|a + b| - 1] == a + b[..n];
    }
  }

  lemma {:induction false} RealSumConcat<T>(a: seq<T>, b: seq<T>, f: T -> real)
    ensures RealSum(a + b, f) == RealSum(a, f) + RealSum(b, f)
  {
    if b == [] {
      assert a + b == a;
    } else {
      var n := |b| - 1;
      RealSumConcat(a, b[..n], f);
      assert (a + b)[..|a + b| - 1] == a + b[..n];
    }
  }

  lemma RemoveFirst<T>(a: seq<T>, x: T) returns (i: nat)
    requires x in multiset(a)
    ensures i < |a| && a[i] == x && a == a[..i] + [x] + a[i + 1..]
    ensures multiset(a[..i] + a[i + 1..]) == multiset(a) - multiset{x}
  {
    i :| 0 <= i < |a| && a[i] == x;
    assert a == a[..i] + [x] + a[i + 1..];
  }

  /** A sum does not depend on the order of its terms. */
  lemma {:induction false} SumPermuted<T>(a: seq<T>, b: seq<T>, f: T -> int)
    requires multiset(a) == multiset(b)
    ensures Sum(a, f) == Sum(b, f)
    decreases |b|
  {
    if b == [] {
      assert |multiset(a)| == 0;
    } else {
      var n := |b| - 1;
      var x := b[n];
      assert b == b[..n] + [x];
      assert x in multiset(b);
      var i := RemoveFirst(a, x);
      SumPermuted(a[..i] + a[i + 1..], b[..n], f);
      SumConcat(a[..i] + [x], a[i + 1..], f);
      SumConcat(a[..i], [x], f);
      SumConcat(a[..i], a[i + 1..], f);
      assert Sum([x], f) == f(x);
    }
  }

  lemma {:induction false} RealSumPermuted<T>(a: seq<T>, b: seq<T>, f: T -> real)
    requires multiset(a) == multiset(b)
    ensures RealSum(a, f) == RealSum(b, f)
    decreases |b|
  {
    if b == [] {
      assert |multiset(a)| == 0;
    } else {
      var n := |b| - 1;
      var x := b[n];
      assert b == b[..n] + [x];
      assert x in multiset(b);
      var i := RemoveFirst(a, x);
      RealSumPermuted(a[..i] + a[i + 1..], b[..n], f);
      RealSumConcat(a[..i] + [x], a[i + 1..], f);
      RealSumConcat(a[..i], [x], f);
      RealSumConcat(a[..i], a[i + 1..], f);
      assert RealSum([x], f) == f(x);
    }
  }

  // ----- Sums over the values of a map -----

  ghost function MapSum<K, V>(m: map<K, V>, f: V -> int): int
    decreases |m|
  {
    if m == map[] then 0
    else
      var k :| k in m;
      f(m[k]) + MapSum(m - {k}, f)
  }

  lemma {:induction false} MapSumRemove<K, V>(m: map<K, V>, f: V -> int, k: K)
    requires k in m
    ensures MapSum(m, f) == f(m[k]) + MapSum(m - {k}, f)
    decreases |m|
  {
    var j :| j in m && MapSum(m, f) == f(m[j]) + MapSum(m - {j}, f);
    if j != k {
      MapSumRemove(m - {j}, f, k);
      MapSumRemove(m - {k}, f, j);
      assert m - {j} - {k} == m - {k} - {j};
    }
  }

  /** Writing one entry changes the sum by the difference it makes. */
  lemma MapSumUpdate<K, V>(m: map<K, V>, f: V -> int, k: K, v: V)
    ensures MapSum(m[k := v], f) == MapSum(m, f) + f(v) - if k in m then f(m[k]) else 0
  {
    MapSumRemove(m[k := v], f, k);
    if k in m {
      MapSumRemove(m, f, k);
      assert m[k := v] - {k} == m - {k};
    } else {
      assert m[k := v] - {k} == m;
    }
  }

  lemma OneMore(c: int, n: int)
    ensures c * (n + 1) == c * n + c
  {
  }

  lemma {:induction false} MapSumBound<K, V>(m: map<K, V>, f: V -> int, c: nat)
    requires forall k :: k in m ==> f(m[k]) <= c
    ensures MapSum(m, f) <= c * |m|
    decreases |m|
  {
    if m != map[] {
      var k :| k in m;
      var rest := m - {k};
      MapSumRemove(m, f, k);
      assert forall j :: j in rest ==> f(rest[j]) <= c;
      MapSumBound(rest, f, c);
      assert m.Keys == rest.Keys + {k};
      OneMore(c, |rest|);
    }
  }

  lemma {:induction false} MapSumPointwise<K, V, W>(m: map<K, V>, n: map<K, W>, f: V -> int, g: W -> int)
    requires m.Keys == n.Keys
    requires forall k :: k in m ==> f(m[k]) == g(n[k])
    ensures MapSum(m, f) == MapSum(n, g)
    decreases |m|
  {
    if m == map[] {
      assert n == map[];
    } else {
      var k :| k in m;
      MapSumRemove(m, f, k);
      MapSumRemove(n, g, k);
      MapSumPointwise(m - {k}, n - {k}, f, g);
    }
  }
}
