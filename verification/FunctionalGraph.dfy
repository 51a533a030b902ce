/**
 * Partial functions read as graphs with at most one outgoing edge per node:
 * "blocked thread -> lock owner" and "span -> parent span" are both of this kind.
 */
module FunctionalGraph {
  import opened Collections

  ghost predicate Edge<N>(w: map<N, N>, a: N, b: N) {
    a in w && w[a] == b
  }

  /** A walk along the edges that never visits a node twice. */
  ghost predicate IsPath<N>(w: map<N, N>, p: seq<N>) {
    && |p| > 0
    && Distinct(p)
    && forall i :: 0 <= i < |p| - 1 ==> Edge(w, p[i], p[i + 1])
  }

  ghost predicate IsCycle<N>(w: map<N, N>, c: seq<N>) {
    IsPath(w, c) && Edge(w, c[|c| - 1], c[0])
  }

  /** A tail that leads into a cycle it is not part of; the tail may be empty. */
  ghost predicate IsLasso<N>(w: map<N, N>, tail: seq<N>, c: seq<N>) {
    IsCycle(w, c) && IsPath(w, tail + c)
  }

  function Rotate<N>(c: seq<N>, k: nat): seq<N>
    requires k <= |c|
  {
    c[k..] + c[..k]
  }

  lemma RotateElems<N>(c: seq<N>, k: nat)
    requires k <= |c|
    ensures |Rotate(c, k)| == |c|
    ensures Elems(Rotate(c, k)) == Elems(c)
  {
    assert c == c[..k] + c[k..];
  }

  lemma RotatedCycle<N>(w: map<N, N>, c: seq<N>, k: nat)
    requires IsCycle(w, c) && k < |c|
    ensures IsCycle(w, Rotate(c, k))
  {
    var r := Rotate(c, k);
    var n := |c|;
    forall i | 0 <= i < n
      ensures r[i] == if i < n - k then c[i + k] else c[i - (n - k)]
    {
    }
    forall i | 0 <= i < n - 1
      ensures Edge(w, r[i], r[i + 1])
    {
      if i < n - k - 1 {
        assert Edge(w, c[i + k], c[i + k + 1]);
      } else if i == n - k - 1 {
        assert Edge(w, c[n - 1], c[0]);
      } else {
        assert Edge(w, c[i - (n - k)], c[i - (n - k) + 1]);
      }
    }
    assert Edge(w, r[n - 1], r[0]) by {
      if k > 0 {
        assert Edge(w, c[k - 1], c[k]);
      }
    }
  }
}
