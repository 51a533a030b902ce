/** A trace's spans: self times, depths, and the slowest traces. */
module TraceForest {
  import opened Collections
  import opened FunctionalGraph
  import opened Grouping
  import opened Sorting
  import opened Percentiles

  /** A missing or empty parent id is None. */
  datatype Span = Span(id: string, parent: Option<string>, duration: real)

  function Ids(spans: seq<Span>): set<string> {
    set i | 0 <= i < |spans| :: spans[i].id
  }

  ghost predicate UniqueIds(spans: seq<Span>) {
    forall i, j :: 0 <= i < j < |spans| ==> spans[i].id != spans[j].id
  }

  /** The parent is one of the trace's spans. */
  predicate HasParent(ids: set<string>, s: Span) {
    s.parent.Some? && s.parent.value in ids
  }

  // ----- Children and self time -----

  function ChildrenOf(ids: set<string>, spans: seq<Span>, id: string): seq<Span> {
    if spans == [] then []
    else
      var n := |spans| - 1;
      var before := ChildrenOf(ids, spans[..n], id);
      if HasParent(ids, spans[n]) && spans[n].parent.value == id then before + [spans[n]] else before
  }

  function Lookup(children: map<string, seq<Span>>, id: string): seq<Span> {
    if id in children then children[id] else []
  }

  method BuildChildren(spans: seq<Span>) returns (children: map<string, seq<Span>>)
    ensures forall id :: Lookup(children, id) == ChildrenOf(Ids(spans), spans, id)
  {
    var byId := Ids(spans);
    children := map[];
    for i := 0 to |spans|
      invariant forall id :: Lookup(children, id) == ChildrenOf(byId, spans[..i], id)
    {
      assert spans[..i + 1][..i] == spans[..i];
      var n := spans[i];
      if n.parent.Some? && n.parent.value in byId {
        var p := n.parent.value;
        children := children[p := Lookup(children, p) + [n]];
      }
    }
    assert spans[..|spans|] == spans;
  }

  /** The children of a span of the trace are the spans that name it as parent; other ids have none. */
  lemma ChildrenMeaning(spans: seq<Span>, id: string)
    ensures ChildrenOf(Ids(spans), spans, id) == if id in Ids(spans) then Filter(spans, (s: Span) => s.parent == Some(id)) else []
  {
    ChildrenFilter(Ids(spans), spans, id);
  }

  lemma {:induction false} ChildrenFilter(ids: set<string>, spans: seq<Span>, id: string)
    ensures ChildrenOf(ids, spans, id) == if id in ids then Filter(spans, (s: Span) => s.parent == Some(id)) else []
  {
    if spans != [] {
      ChildrenFilter(ids, spans[..|spans| - 1], id);
    }
  }

  function Duration(s: Span): real { s.duration }

  function Total(spans: seq<Span>): real {
    RealSum(spans, Duration)
  }

  function SelfTime(s: Span, children: seq<Span>): real {
    var own := s.duration - Total(children);
    if own > 0.0 then own else 0.0
  }

  /** The self times of `some` of the spans, added up. */
  function SelfTotal(ids: set<string>, spans: seq<Span>, some: seq<Span>): real {
    if some == [] then 0.0
    else
      var n := |some| - 1;
      SelfTotal(ids, spans, some[..n]) + SelfTime(some[n], ChildrenOf(ids, spans, some[n].id))
  }

  /** What `some` of the spans have as children, added up. */
  function ChildTotal(ids: set<string>, spans: seq<Span>, some: seq<Span>): real {
    if some == [] then 0.0
    else
      var n := |some| - 1;
      ChildTotal(ids, spans, some[..n]) + Total(ChildrenOf(ids, spans, some[n].id))
  }

  function RootTotal(ids: set<string>, spans: seq<Span>): real {
    if spans == [] then 0.0
    else
      var n := |spans| - 1;
      RootTotal(ids, spans[..n]) + if HasParent(ids, spans[n]) then 0.0 else spans[n].duration
  }

  /** One more span adds its duration to the children of the one span that is its parent. */
  lemma ChildrenStep(ids: set<string>, spans: seq<Span>, c: Span, id: string)
    ensures Total(ChildrenOf(ids, spans + [c], id)) == Total(ChildrenOf(ids, spans, id))
      + if HasParent(ids, c) && c.parent.value == id then c.duration else 0.0
  {
    Snoc(spans, c);
    Snoc(ChildrenOf(ids, spans, id), c);
  }

  lemma IdsStep(some: seq<Span>)
    requires UniqueIds(some) && some != []
    ensures var n := |some| - 1;
      UniqueIds(some[..n]) && Ids(some) == Ids(some[..n]) + {some[n].id} && some[n].id !in Ids(some[..n])
  {
    assert some == some[..|some| - 1] + [some[|some| - 1]];
  }

  lemma {:induction false} ChildTotalStep(ids: set<string>, spans: seq<Span>, c: Span, some: seq<Span>)
    requires UniqueIds(some)
    ensures ChildTotal(ids, spans + [c], some) == ChildTotal(ids, spans, some)
      + if HasParent(ids, c) && c.parent.value in Ids(some) then c.duration else 0.0
  {
    if some != [] {
      var n := |some| - 1;
      IdsStep(some);
      ChildTotalStep(ids, spans, c, some[..n]);
      ChildrenStep(ids, spans, c, some[n].id);
    }
  }

  lemma {:induction false} ChildTotalNone(ids: set<string>, some: seq<Span>)
    ensures ChildTotal(ids, [], some) == 0.0
  {
    if some != [] {
      ChildTotalNone(ids, some[..|some| - 1]);
    }
  }

  /** Every span that is not a root is a child exactly once. */
  lemma {:induction false} ChildrenCountedOnce(all: seq<Span>, spans: seq<Span>)
    requires UniqueIds(all)
    ensures ChildTotal(Ids(all), spans, all) + RootTotal(Ids(all), spans) == Total(spans)
  {
    if spans == [] {
      ChildTotalNone(Ids(all), all);
    } else {
      var n := |spans| - 1;
      ChildrenCountedOnce(all, spans[..n]);
      assert spans == spans[..n] + [spans[n]];
      ChildTotalStep(Ids(all), spans[..n], spans[n], all);
    }
  }

  /** The children of the span last together no longer than the span. */
  predicate Covers(ids: set<string>, spans: seq<Span>, s: Span) {
    Total(ChildrenOf(ids, spans, s.id)) <= s.duration
  }

  ghost predicate AllCovered(ids: set<string>, spans: seq<Span>, some: seq<Span>) {
    forall i :: 0 <= i < |some| ==> Covers(ids, spans, some[i])
  }

  lemma AllCoveredStep(ids: set<string>, spans: seq<Span>, some: seq<Span>)
    requires some != []
    ensures var n := |some| - 1;
      AllCovered(ids, spans, some) == (AllCovered(ids, spans, some[..n]) && Covers(ids, spans, some[n]))
  {
    var n := |some| - 1;
    if AllCovered(ids, spans, some[..n]) && Covers(ids, spans, some[n]) {
      forall i | 0 <= i < |some| ensures Covers(ids, spans, some[i]) {
        if i < n {
          assert some[..n][i] == some[i];
        }
      }
    }
  }

  /** By how much the children of a span together outlast it. */
  function Excess(ids: set<string>, spans: seq<Span>, s: Span): real {
    if Covers(ids, spans, s) then 0.0 else Total(ChildrenOf(ids, spans, s.id)) - s.duration
  }

  /** The excesses of `some` of the spans, added up. */
  function Overshoot(ids: set<string>, spans: seq<Span>, some: seq<Span>): real {
    if some == [] then 0.0
    else
      var n := |some| - 1;
      Overshoot(ids, spans, some[..n]) + Excess(ids, spans, some[n])
  }

  /** A span's own share: with its children it makes up the duration, or it is zero and they make up more. */
  lemma SelfTimeMeaning(s: Span, children: seq<Span>)
    ensures Total(children) < s.duration ==> SelfTime(s, children) + Total(children) == s.duration
    ensures Total(children) >= s.duration ==> SelfTime(s, children) == 0.0
  {
  }

  lemma {:induction false} OvershootZeroIff(ids: set<string>, spans: seq<Span>, some: seq<Span>)
    ensures Overshoot(ids, spans, some) >= 0.0
    ensures Overshoot(ids, spans, some) == 0.0 <==> AllCovered(ids, spans, some)
  {
    if some != [] {
      OvershootZeroIff(ids, spans, some[..|some| - 1]);
      AllCoveredStep(ids, spans, some);
    }
  }

  lemma {:induction false} SelfTotalExact(ids: set<string>, spans: seq<Span>, some: seq<Span>)
    ensures SelfTotal(ids, spans, some) == Total(some) - ChildTotal(ids, spans, some) + Overshoot(ids, spans, some)
  {
    if some != [] {
      var n := |some| - 1;
      SelfTotalExact(ids, spans, some[..n]);
      SelfTimeMeaning(some[n], ChildrenOf(ids, spans, some[n].id));
    }
  }

  /**
   * Self times account for the roots' durations and for what children outlast their parents by; so they
   * never undercount, and are exact when, and only when, no span is outlasted by its children.
   */
  lemma SelfTimesAccountForRoots(spans: seq<Span>)
    requires UniqueIds(spans)
    ensures var ids := Ids(spans);
      && SelfTotal(ids, spans, spans) == RootTotal(ids, spans) + Overshoot(ids, spans, spans)
      && SelfTotal(ids, spans, spans) >= RootTotal(ids, spans)
      && (SelfTotal(ids, spans, spans) == RootTotal(ids, spans) <==> AllCovered(ids, spans, spans))
  {
    ChildrenCountedOnce(spans, spans);
    SelfTotalExact(Ids(spans), spans, spans);
    OvershootZeroIff(Ids(spans), spans, spans);
  }

  // ----- Depth -----

  /** The parent links that stay inside the trace; of equal ids the last span counts. */
  function ParentMap(ids: set<string>, spans: seq<Span>): map<string, string> {
    if spans == [] then map[]
    else
      var n := |spans| - 1;
      var before := ParentMap(ids, spans[..n]);
      if HasParent(ids, spans[n]) then before[spans[n].id := spans[n].parent.value] else before - {spans[n].id}
  }

  lemma {:induction false} ParentMapFacts(ids: set<string>, spans: seq<Span>)
    ensures ParentMap(ids, spans).Keys <= Ids(spans)
    ensures ParentMap(ids, spans).Values <= ids
  {
    if spans != [] {
      var n := |spans| - 1;
      ParentMapFacts(ids, spans[..n]);
      assert Ids(spans) == Ids(spans[..n]) + {spans[n].id};
    }
  }

  /** The node k links up from s, None once a link is missing. */
  function Ancestor(w: map<string, string>, s: string, k: nat): Option<string> {
    if k == 0 then Some(s)
    else
      match Ancestor(w, s, k - 1)
      case None => None
      case Some(a) => if a in w then Some(w[a]) else None
  }

  /** The k-th ancestor is a root. */
  ghost predicate RootAt(w: map<string, string>, s: string, k: nat) {
    Ancestor(w, s, k).Some? && Ancestor(w, s, k).value !in w
  }

  ghost predicate Grounded(w: map<string, string>, s: string) {
    exists k :: RootAt(w, s, k)
  }

  lemma {:induction false} AncestorUp(w: map<string, string>, s: string, k: nat)
    requires s in w
    ensures Ancestor(w, s, k + 1) == Ancestor(w, w[s], k)
  {
    if k > 0 {
      AncestorUp(w, s, k - 1);
    }
  }

  lemma RootUp(w: map<string, string>, s: string, k: nat)
    requires s in w && RootAt(w, s, k)
    ensures k > 0 && RootAt(w, w[s], k - 1)
  {
    AncestorUp(w, s, k - 1);
  }

  /** The recursion of the source, for a span whose links lead to a root. */
  function Depth(w: map<string, string>, s: string, ghost k: nat): nat
    requires RootAt(w, s, k)
    decreases k
  {
    if s in w then
      RootUp(w, s, k);
      1 + Depth(w, w[s], k - 1)
    else 0
  }

  /** Depth is the distance to the root. */
  lemma {:induction false} DepthIsDistance(w: map<string, string>, s: string, k: nat)
    requires RootAt(w, s, k)
    ensures Depth(w, s, k) == k
    decreases k
  {
    if s in w {
      RootUp(w, s, k);
      DepthIsDistance(w, w[s], k - 1);
    } else {
      RootEnds(w, s, k);
    }
  }

  lemma {:induction false} RootEnds(w: map<string, string>, s: string, k: nat)
    requires s !in w && Ancestor(w, s, k).Some?
    ensures k == 0
  {
    if k > 0 {
      RootEnds(w, s, k - 1);
      assert false;
    }
  }

  /** The first k nodes on the way up. */
  function WayUp(w: map<string, string>, s: string, k: nat): seq<string>
    requires k > 0 ==> Ancestor(w, s, k - 1).Some?
    ensures |WayUp(w, s, k)| == k
  {
    if k == 0 then [] else WayUp(w, s, k - 1) + [Ancestor(w, s, k - 1).value]
  }

  lemma {:induction false} WayUpNodes(w: map<string, string>, s: string, k: nat)
    requires k > 0 ==> Ancestor(w, s, k - 1).Some?
    ensures forall i :: 0 <= i < k ==> Ancestor(w, s, i) == Some(WayUp(w, s, k)[i])
    ensures forall i :: 0 <= i < k - 1 ==> Edge(w, WayUp(w, s, k)[i], WayUp(w, s, k)[i + 1])
  {
    if k > 0 {
      WayUpNodes(w, s, k - 1);
    }
  }

  /** A way up that meets a node again contains a cycle. */
  lemma {:induction false} RepeatIsCycle(w: map<string, string>, s: string, k: nat) returns (c: seq<string>)
    requires k > 0 ==> Ancestor(w, s, k - 1).Some?
    requires !Distinct(WayUp(w, s, k))
    ensures IsCycle(w, c)
    decreases k
  {
    var p := WayUp(w, s, k);
    var init := WayUp(w, s, k - 1);
    WayUpNodes(w, s, k);
    assert p == init + [p[k - 1]];
    if !Distinct(init) {
      c := RepeatIsCycle(w, s, k - 1);
    } else {
      var i :| 0 <= i < k - 1 && p[i] == p[k - 1];
      WayUpNodes(w, s, k - 1);
      assert Edge(w, p[k - 2], p[k - 1]);
      RepeatSlice(w, init, p[k - 1], i);
      c := init[i..];
    }
  }

  lemma RepeatSlice(w: map<string, string>, init: seq<string>, last: string, i: nat)
    requires i < |init| && Distinct(init) && init[i] == last
    requires forall j :: 0 <= j < |init| - 1 ==> Edge(w, init[j], init[j + 1])
    requires Edge(w, init[|init| - 1], last)
    ensures IsCycle(w, init[i..])
  {
    var c := init[i..];
    forall j | 0 <= j < |c| - 1 ensures Edge(w, c[j], c[j + 1]) {
      assert Edge(w, init[i + j], init[i + j + 1]);
    }
  }

  ghost predicate Acyclic(w: map<string, string>) {
    !exists c :: IsCycle(w, c)
  }

  lemma WayUpDistinct(w: map<string, string>, s: string, k: nat)
    requires Acyclic(w) && (k > 0 ==> Ancestor(w, s, k - 1).Some?)
    ensures Distinct(WayUp(w, s, k))
  {
    if !Distinct(WayUp(w, s, k)) {
      var c := RepeatIsCycle(w, s, k);
    }
  }

  lemma DistinctFits(p: seq<string>, nodes: set<string>)
    requires Distinct(p) && forall i :: 0 <= i < |p| ==> p[i] in nodes
    ensures |p| <= |nodes|
  {
    DistinctCardinality(p);
    assert Elems(p) <= nodes;
    SubsetSize(Elems(p), nodes);
  }

  /** Without a cycle every way up ends, after fewer links than there are linked nodes. */
  lemma {:induction false} AcyclicGrounds(w: map<string, string>, s: string, k: nat)
    requires Acyclic(w) && (forall i :: 0 <= i < k ==> !RootAt(w, s, i))
    ensures Ancestor(w, s, k).Some? && k <= |w|
  {
    if k > 0 {
      AcyclicGrounds(w, s, k - 1);
      WayUpDistinct(w, s, k);
      WayUpNodes(w, s, k);
      forall i | 0 <= i < k ensures WayUp(w, s, k)[i] in w.Keys {
        assert !RootAt(w, s, i);
      }
      DistinctFits(WayUp(w, s, k), w.Keys);
    }
  }

  lemma {:induction false} CycleStays(w: map<string, string>, c: seq<string>, k: nat)
    requires IsCycle(w, c)
    ensures Ancestor(w, c[0], k).Some? && Ancestor(w, c[0], k).value in c
    decreases k
  {
    if k > 0 {
      CycleStays(w, c, k - 1);
      var a := Ancestor(w, c[0], k - 1).value;
      var i :| 0 <= i < |c| && c[i] == a;
      if i < |c| - 1 {
        assert Edge(w, c[i], c[i + 1]);
      } else {
        assert Edge(w, c[i], c[0]);
      }
    }
  }

  /** The recursion ends on every span exactly when the parent links have no cycle. */
  lemma DepthTerminatesIff(w: map<string, string>)
    ensures (forall s :: Grounded(w, s)) <==> Acyclic(w)
  {
    if Acyclic(w) {
      forall s ensures Grounded(w, s) {
        if forall i :: 0 <= i < |w| + 1 ==> !RootAt(w, s, i) {
          AcyclicGrounds(w, s, |w| + 1);
        }
      }
    } else {
      var c :| IsCycle(w, c);
      forall k ensures !RootAt(w, c[0], k) {
        CycleStays(w, c, k);
        CycleLinked(w, c, Ancestor(w, c[0], k).value);
      }
      assert !Grounded(w, c[0]);
    }
  }

  lemma CycleLinked(w: map<string, string>, c: seq<string>, a: string)
    requires IsCycle(w, c) && a in c
    ensures a in w
  {
    var i :| 0 <= i < |c| && c[i] == a;
    if i < |c| - 1 {
      assert Edge(w, c[i], c[i + 1]);
    }
  }

  lemma {:induction false} IdsBound(spans: seq<Span>)
    ensures |Ids(spans)| <= |spans|
  {
    if spans != [] {
      var n := |spans| - 1;
      IdsBound(spans[..n]);
      assert Ids(spans) == Ids(spans[..n]) + {spans[n].id};
    } else {
      assert Ids(spans) == {};
    }
  }

  lemma WayUpInside(spans: seq<Span>, s: string, k: nat, j: nat)
    requires s in Ids(spans) && j <= k
    requires Ancestor(ParentMap(Ids(spans), spans), s, k).Some?
    ensures WayUp(ParentMap(Ids(spans), spans), s, k + 1)[j] in Ids(spans)
  {
    var w := ParentMap(Ids(spans), spans);
    var p := WayUp(w, s, k + 1);
    WayUpNodes(w, s, k + 1);
    ParentMapFacts(Ids(spans), spans);
    assert Ancestor(w, s, j) == Some(p[j]);
    if j > 0 {
      assert Edge(w, p[j - 1], p[j]);
      assert p[j] in w.Values;
    }
  }

  lemma DepthFits(spans: seq<Span>, s: string, k: nat)
    requires s in Ids(spans) && Acyclic(ParentMap(Ids(spans), spans))
    requires Ancestor(ParentMap(Ids(spans), spans), s, k).Some?
    ensures k < |Ids(spans)|
  {
    var w := ParentMap(Ids(spans), spans);
    WayUpDistinct(w, s, k + 1);
    var p := WayUp(w, s, k + 1);
    forall j | 0 <= j < |p| ensures p[j] in Ids(spans) {
      WayUpInside(spans, s, k, j);
    }
    DistinctFits(p, Ids(spans));
  }

  ghost predicate HasDepth(w: map<string, string>, s: string, k: nat) {
    RootAt(w, s, k) && Depth(w, s, k) == k
  }

  /** Span i has depth k: its own parent starts the way up, even if a later span has the same id. */
  ghost predicate SpanDepth(spans: seq<Span>, i: nat, k: nat)
    requires i < |spans|
  {
    var ids, s := Ids(spans), spans[i];
    if HasParent(ids, s) then k > 0 && HasDepth(ParentMap(ids, spans), s.parent.value, k - 1) else k == 0
  }

  /** The recursion of the source ends on span i. */
  ghost predicate DepthEnds(spans: seq<Span>, i: nat)
    requires i < |spans|
  {
    exists k :: SpanDepth(spans, i, k)
  }

  /** No later span has the id of span i. */
  ghost predicate IsLast(spans: seq<Span>, i: nat) {
    i < |spans| && forall j :: i < j < |spans| ==> spans[j].id != spans[i].id
  }

  lemma {:induction false} ParentOfLast(ids: set<string>, spans: seq<Span>, i: nat)
    requires IsLast(spans, i)
    ensures var w, s := ParentMap(ids, spans), spans[i];
      && (s.id in w <==> HasParent(ids, s))
      && (s.id in w ==> w[s.id] == s.parent.value)
  {
    var n := |spans| - 1;
    if i < n {
      assert spans[n].id != spans[i].id;
      ParentOfLast(ids, spans[..n], i);
    }
  }

  lemma {:induction false} LastWithId(spans: seq<Span>, id: string) returns (i: nat)
    requires id in Ids(spans)
    ensures IsLast(spans, i) && spans[i].id == id
  {
    var n := |spans| - 1;
    if spans[n].id == id {
      i := n;
    } else {
      i := LastWithId(spans[..n], id);
    }
  }

  /** An id that comes again leaves fewer ids than spans. */
  lemma RepeatedId(spans: seq<Span>, i: nat)
    requires i < |spans| && !IsLast(spans, i)
    ensures |Ids(spans)| < |spans|
  {
    var rest := spans[..i] + spans[i + 1..];
    var j :| i < j < |spans| && spans[j].id == spans[i].id;
    forall id | id in Ids(spans) ensures id in Ids(rest) {
      var k :| 0 <= k < |spans| && spans[k].id == id;
      var m := if k == i then j else k;
      assert rest[if m < i then m else m - 1] == spans[m];
    }
    SubsetSize(Ids(spans), Ids(rest));
    IdsBound(rest);
  }

  lemma DepthOnAcyclic(w: map<string, string>, s: string) returns (k: nat)
    requires Acyclic(w)
    ensures HasDepth(w, s, k)
  {
    DepthTerminatesIff(w);
    assert Grounded(w, s);
    k :| RootAt(w, s, k);
    DepthIsDistance(w, s, k);
  }

  /** On acyclic parent links every span has a depth, its distance to a root, and it is below the number of spans. */
  lemma DepthBelowSpanCount(spans: seq<Span>, i: nat)
    requires i < |spans| && Acyclic(ParentMap(Ids(spans), spans))
    ensures exists k: nat :: k < |spans| && SpanDepth(spans, i, k)
  {
    var ids, s := Ids(spans), spans[i];
    var w := ParentMap(ids, spans);
    if HasParent(ids, s) {
      var up := s.parent.value;
      var k := DepthOnAcyclic(w, up);
      DepthFits(spans, up, k);
      IdsBound(spans);
      if IsLast(spans, i) {
        ParentOfLast(ids, spans, i);
        AncestorUp(w, s.id, k);
        DepthFits(spans, s.id, k + 1);
      } else {
        RepeatedId(spans, i);
      }
      assert SpanDepth(spans, i, k + 1);
    } else {
      assert SpanDepth(spans, i, 0);
    }
  }

  /** A span on a cycle of parent links has no depth. */
  lemma NoDepthOnCycle(spans: seq<Span>, c: seq<string>, i: nat)
    requires IsCycle(ParentMap(Ids(spans), spans), c)
    requires IsLast(spans, i) && spans[i].id == c[0]
    ensures !DepthEnds(spans, i)
  {
    var w := ParentMap(Ids(spans), spans);
    CycleLinked(w, c, c[0]);
    ParentOfLast(Ids(spans), spans, i);
    if k: nat :| SpanDepth(spans, i, k) {
      AncestorUp(w, c[0], k - 1);
      CycleStays(w, c, k);
      CycleLinked(w, c, Ancestor(w, c[0], k).value);
      assert false;
    }
  }

  lemma CyclicSpan(spans: seq<Span>) returns (i: nat)
    requires !Acyclic(ParentMap(Ids(spans), spans))
    ensures i < |spans| && !DepthEnds(spans, i)
  {
    var w := ParentMap(Ids(spans), spans);
    var c :| IsCycle(w, c);
    CycleLinked(w, c, c[0]);
    ParentMapFacts(Ids(spans), spans);
    i := LastWithId(spans, c[0]);
    NoDepthOnCycle(spans, c, i);
  }

  /** The recursion ends on every span of a trace exactly when the trace's parent links have no cycle. */
  lemma SpanDepthsIff(spans: seq<Span>)
    ensures (forall i :: 0 <= i < |spans| ==> DepthEnds(spans, i)) <==> Acyclic(ParentMap(Ids(spans), spans))
  {
    if Acyclic(ParentMap(Ids(spans), spans)) {
      forall i | 0 <= i < |spans| ensures DepthEnds(spans, i) {
        DepthBelowSpanCount(spans, i);
      }
    } else {
      var i := CyclicSpan(spans);
    }
  }

  /** Two spans that name each other as parent. */
  function MutualParents(): seq<Span> {
    [Span("a", Some("b"), 1.0), Span("b", Some("a"), 1.0)]
  }

  /** Their ids are unique, and the recursion ends on neither. */
  lemma MutualParentsHaveNoDepth()
    ensures UniqueIds(MutualParents())
    ensures !DepthEnds(MutualParents(), 0) && !DepthEnds(MutualParents(), 1)
  {
    var spans := MutualParents();
    var ids := Ids(spans);
    assert spans[0].id == "a" && spans[1].id == "b";
    ParentOfLast(ids, spans, 0);
    ParentOfLast(ids, spans, 1);
    var w := ParentMap(ids, spans);
    assert Edge(w, "a", "b") && Edge(w, "b", "a");
    NoDepthOnCycle(spans, ["a", "b"], 0);
    NoDepthOnCycle(spans, ["b", "a"], 1);
  }

  // ----- Slow traces -----

  /** A span of some trace, as the search returns it. */
  datatype TopSpan = TopSpan(trace: Option<string>, duration: real)

  datatype SlowTrace = SlowTrace(trace: string, millis: int, slowest: TopSpan)

  function TraceKey(s: TopSpan): Option<string> {
    Some(s.trace.GetOr(""))
  }

  function KeepSlower(prev: Option<TopSpan>, s: TopSpan): Option<TopSpan> {
    if prev.None? || s.duration > prev.value.duration then Some(s) else prev
  }

  function Millis(t: SlowTrace): real { t.millis as real }

  /** Span i is the first of the spans that none outlasts. */
  ghost predicate IsSlowest(spans: seq<TopSpan>, i: int) {
    && 0 <= i < |spans|
    && (forall j :: 0 <= j < |spans| ==> spans[j].duration <= spans[i].duration)
    && forall j :: 0 <= j < i ==> spans[j].duration < spans[i].duration
  }

  lemma {:induction false} SlowestFold(spans: seq<TopSpan>) returns (i: int)
    requires spans != []
    ensures IsSlowest(spans, i) && Fold(KeepSlower, None, spans) == Some(spans[i])
  {
    var n := |spans| - 1;
    i := n;
    if n > 0 {
      var k := SlowestFold(spans[..n]);
      assert forall j :: 0 <= j < n ==> spans[..n][j] == spans[j];
      if spans[n].duration <= spans[k].duration {
        i := k;
      }
    }
  }

  function SlowestTable(spans: seq<TopSpan>): Table<string, Option<TopSpan>> {
    GroupBy(spans, TraceKey, None, KeepSlower)
  }

  function TraceRows(t: Table<string, Option<TopSpan>>): (rows: seq<SlowTrace>)
    requires t.Valid() && forall k :: k in t.rows ==> t.rows[k].Some?
    ensures |rows| == |t.order|
    ensures forall i :: 0 <= i < |rows| ==> rows[i].trace == t.order[i] && t.order[i] in t.rows
    ensures forall i :: 0 <= i < |rows| ==> rows[i].slowest == t.rows[rows[i].trace].value
    ensures forall i :: 0 <= i < |rows| ==> rows[i].millis == Round(rows[i].slowest.duration)
  {
    var es := t.Entries();
    seq(|es|, i requires 0 <= i < |es| =>
      assert es[i].0 in t.rows;
      SlowTrace(es[i].0, Round(es[i].1.value.duration), es[i].1.value))
  }

  lemma SlowestTableFacts(spans: seq<TopSpan>)
    ensures SlowestTable(spans).Valid()
    ensures forall k :: k in SlowestTable(spans).rows ==> SlowestTable(spans).rows[k].Some?
  {
    GroupByValid(spans, TraceKey, None, KeepSlower);
    forall k | k in SlowestTable(spans).rows ensures SlowestTable(spans).rows[k].Some? {
      GroupByMeaning(spans, TraceKey, None, KeepSlower, k);
      var i := SlowestFold(Of(spans, TraceKey, k));
    }
  }

  function TraceSummary(spans: seq<TopSpan>): seq<SlowTrace> {
    SlowestTableFacts(spans);
    TraceRows(SlowestTable(spans))
  }

  /** The spans of one trace; a missing trace id reads as "". */
  function SpansOf(spans: seq<TopSpan>, trace: string): seq<TopSpan> {
    Filter(spans, (s: TopSpan) => s.trace.GetOr("") == trace)
  }

  lemma SpansOfTrace(spans: seq<TopSpan>, trace: string)
    ensures Of(spans, TraceKey, trace) == SpansOf(spans, trace)
  {
    OfIsFilter(spans, TraceKey, trace, (s: TopSpan) => s.trace.GetOr("") == trace);
  }

  /** A row carries the first slowest span of its trace, and that span's rounded duration. */
  lemma TraceRowIsSlowest(spans: seq<TopSpan>, r: int)
    requires 0 <= r < |TraceSummary(spans)|
    ensures var row := TraceSummary(spans)[r];
      && row.millis == (row.slowest.duration + 0.5).Floor
      && exists i :: IsSlowest(SpansOf(spans, row.trace), i) && SpansOf(spans, row.trace)[i] == row.slowest
  {
    SlowestTableFacts(spans);
    var row := TraceSummary(spans)[r];
    GroupByMeaning(spans, TraceKey, None, KeepSlower, row.trace);
    SpansOfTrace(spans, row.trace);
    var i := SlowestFold(SpansOf(spans, row.trace));
    assert SpansOf(spans, row.trace)[i] == row.slowest;
  }

  /** Every span's trace has exactly one row. */
  lemma OneRowPerTrace(spans: seq<TopSpan>, s: TopSpan)
    requires s in spans
    ensures exists r :: 0 <= r < |TraceSummary(spans)| && TraceSummary(spans)[r].trace == s.trace.GetOr("")
    ensures forall q, r :: 0 <= q < r < |TraceSummary(spans)| ==> TraceSummary(spans)[q].trace != TraceSummary(spans)[r].trace
  {
    var k, t := s.trace.GetOr(""), SlowestTable(spans);
    SlowestTableFacts(spans);
    OfMembers(spans, TraceKey, k, s);
    GroupByMeaning(spans, TraceKey, None, KeepSlower, k);
    assert k in Elems(t.order);
    var r :| 0 <= r < |t.order| && t.order[r] == k;
    assert TraceSummary(spans)[r].trace == k;
  }

  method SlowTraces(spans: seq<TopSpan>, limit: nat) returns (top: seq<SlowTrace>)
    ensures top == Top(TraceSummary(spans), Millis, limit)
  {
    var byTrace := Empty<string, Option<TopSpan>>();
    for i := 0 to |spans|
      invariant byTrace == SlowestTable(spans[..i])
    {
      assert spans[..i + 1][..i] == spans[..i];
      var id := spans[i].trace.GetOr("");
      var prev := byTrace.Get(id, None);
      if prev.None? || spans[i].duration > prev.value.duration {
        byTrace := byTrace.Put(id, Some(spans[i]));
      } else {
        PutSame(byTrace, id, prev);
      }
    }
    assert spans[..|spans|] == spans;
    SlowestTableFacts(spans);
    top := Top(TraceRows(byTrace), Millis, limit);
  }

  /** The slowest traces are kept, in descending order of their shown durations, and no dropped one is slower. */
  lemma SlowTracesCut(spans: seq<TopSpan>, limit: nat) returns (dropped: seq<SlowTrace>)
    ensures var all, kept := TraceSummary(spans), Top(TraceSummary(spans), Millis, limit);
      && |kept| == (if |all| <= limit then |all| else limit)
      && multiset(all) == multiset(kept) + multiset(dropped)
      && (forall i, j :: 0 <= i < j < |kept| ==> kept[i].millis >= kept[j].millis)
      && (forall i, j :: 0 <= i < |kept| && 0 <= j < |dropped| ==> kept[i].millis >= dropped[j].millis)
  {
    var all, kept := TraceSummary(spans), Top(TraceSummary(spans), Millis, limit);
    dropped := TopIsBest(all, Millis, limit);
    forall i, j | 0 <= i < j < |kept| ensures kept[i].millis >= kept[j].millis {
      assert Millis(kept[i]) >= Millis(kept[j]);
    }
    forall i, j | 0 <= i < |kept| && 0 <= j < |dropped| ensures kept[i].millis >= dropped[j].millis {
      assert Millis(kept[i]) >= Millis(dropped[j]);
    }
  }

  lemma PutSame<K, V>(t: Table<K, Option<V>>, k: K, v: Option<V>)
    requires t.Get(k, None) == v && v.Some?
    ensures t.Put(k, v) == t
  {
    assert t.rows[k := v] == t.rows;
  }
}
