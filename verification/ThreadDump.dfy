/** The deadlock search of the thread-dump summary. */
module ThreadDump {
  import opened Collections
  import opened FunctionalGraph

  type Name = string

  /** The longest chain of threads the search follows. */
  const CHAIN_CAP := 20

  /** The states of java.lang.Thread.State. */
  datatype ThreadState = NEW | RUNNABLE | BLOCKED | WAITING | TIMED_WAITING | TERMINATED

  /** The fields of a dumped thread that the deadlock search and the counters read. */
  datatype Thread = Thread(name: Name, state: ThreadState, lockName: Option<string>, lockOwner: Option<Name>)

  /** A thread contributes a wait when it is blocked and names a non-empty lock owner. */
  predicate Waits(t: Thread) {
    t.state.BLOCKED? && t.lockOwner.Some? && t.lockOwner.value != ""
  }

  // ----- The wait map -----

  /** A later entry for the same thread name replaces the owner but keeps the position. */
  function WaitMap(threads: seq<Thread>): map<Name, Name> {
    if threads == [] then map[]
    else
      var t := threads[|threads| - 1];
      var w := WaitMap(threads[..|threads| - 1]);
      if Waits(t) then w[t.name := t.lockOwner.value] else w
  }

  function WaitOrder(threads: seq<Thread>): seq<Name> {
    if threads == [] then []
    else
      var t := threads[|threads| - 1];
      var o := WaitOrder(threads[..|threads| - 1]);
      if Waits(t) && t.name !in o then o + [t.name] else o
  }

  /** Entry i is of a thread named a that is blocked on a lock with a named owner. */
  ghost predicate BlockedOnOwner(threads: seq<Thread>, i: int, a: Name) {
    && 0 <= i < |threads|
    && threads[i].name == a && threads[i].state == BLOCKED
    && threads[i].lockOwner != None && threads[i].lockOwner != Some("")
  }

  /** Entry i is the last such entry for a, and the owner is b. */
  ghost predicate LastWait(threads: seq<Thread>, i: int, a: Name, b: Name) {
    && BlockedOnOwner(threads, i, a) && threads[i].lockOwner == Some(b)
    && forall j :: BlockedOnOwner(threads, j, a) ==> j <= i
  }

  /** Entry i is the first such entry for a. */
  ghost predicate FirstWait(threads: seq<Thread>, i: int, a: Name) {
    BlockedOnOwner(threads, i, a) && forall j :: BlockedOnOwner(threads, j, a) ==> i <= j
  }

  lemma BlockedStep(threads: seq<Thread>, i: int, a: Name)
    requires threads != []
    ensures var n := |threads| - 1;
      BlockedOnOwner(threads, i, a) <==> if i == n then Waits(threads[n]) && threads[n].name == a else BlockedOnOwner(threads[..n], i, a)
  {
  }

  /** a waits for b exactly when the last blocked entry of a that names an owner names b. */
  lemma {:induction false} WaitMapMeaning(threads: seq<Thread>, a: Name, b: Name)
    ensures Edge(WaitMap(threads), a, b) <==> exists i :: LastWait(threads, i, a, b)
  {
    if threads != [] {
      var n := |threads| - 1;
      var init := threads[..n];
      WaitMapMeaning(init, a, b);
      forall i ensures BlockedOnOwner(threads, i, a) <==>
        if i == n then Waits(threads[n]) && threads[n].name == a else BlockedOnOwner(init, i, a)
      {
        BlockedStep(threads, i, a);
      }
      if Waits(threads[n]) && threads[n].name == a {
        assert LastWait(threads, n, a, threads[n].lockOwner.value);
      } else {
        if i :| LastWait(init, i, a, b) {
          assert LastWait(threads, i, a, b);
        }
        if i :| LastWait(threads, i, a, b) {
          assert LastWait(init, i, a, b);
        }
      }
    }
  }

  lemma {:induction false} WaitOrderMeaning(threads: seq<Thread>)
    ensures Distinct(WaitOrder(threads))
    ensures Elems(WaitOrder(threads)) == WaitMap(threads).Keys
  {
    if threads != [] {
      WaitOrderMeaning(threads[..|threads| - 1]);
    }
  }

  /** The names come in the order of their first such entries. */
  ghost predicate InFirstOrder(threads: seq<Thread>, order: seq<Name>) {
    forall p, q, i, j :: 0 <= p < q < |order| && FirstWait(threads, i, order[p]) && FirstWait(threads, j, order[q]) ==> i < j
  }

  lemma {:induction false} OrderedNames(threads: seq<Thread>, a: Name)
    ensures a in WaitOrder(threads) <==> exists i :: FirstWait(threads, i, a)
  {
    if threads != [] {
      var n := |threads| - 1;
      var init := threads[..n];
      OrderedNames(init, a);
      forall i ensures BlockedOnOwner(threads, i, a) <==>
        if i == n then Waits(threads[n]) && threads[n].name == a else BlockedOnOwner(init, i, a)
      {
        BlockedStep(threads, i, a);
      }
      if i :| FirstWait(init, i, a) {
        assert FirstWait(threads, i, a);
      } else {
        forall i ensures !BlockedOnOwner(init, i, a) {
          NoFirstNone(init, i, a);
        }
        if Waits(threads[n]) && threads[n].name == a {
          assert FirstWait(threads, n, a);
        }
      }
    }
  }

  lemma {:induction false} NoFirstNone(threads: seq<Thread>, i: int, a: Name)
    requires !exists j :: FirstWait(threads, j, a)
    ensures !BlockedOnOwner(threads, i, a)
    decreases i
  {
    if BlockedOnOwner(threads, i, a) {
      if j :| BlockedOnOwner(threads, j, a) && j < i {
        NoFirstNone(threads, j, a);
      } else {
        assert FirstWait(threads, i, a);
      }
    }
  }

  lemma FirstStep(threads: seq<Thread>, i: int, a: Name)
    requires threads != [] && FirstWait(threads, i, a)
    ensures var n := |threads| - 1;
      FirstWait(threads[..n], i, a) || (i == n && a !in WaitOrder(threads[..n]))
  {
    var n := |threads| - 1;
    var init := threads[..n];
    forall j ensures BlockedOnOwner(init, j, a) ==> BlockedOnOwner(threads, j, a) {
    }
    OrderedNames(init, a);
    if i < n {
      assert BlockedOnOwner(init, i, a);
    }
  }

  /** The keys of the wait map come in the order of their first entries. */
  lemma {:induction false} KeysInFirstOrder(threads: seq<Thread>)
    ensures InFirstOrder(threads, WaitOrder(threads))
  {
    if threads != [] {
      var n := |threads| - 1;
      var init := threads[..n];
      var order := WaitOrder(threads);
      KeysInFirstOrder(init);
      forall p, q, i, j | 0 <= p < q < |order| && FirstWait(threads, i, order[p]) && FirstWait(threads, j, order[q])
        ensures i < j
      {
        var before := WaitOrder(init);
        FirstStep(threads, i, order[p]);
        FirstStep(threads, j, order[q]);
        OrderedNames(init, order[q]);
        assert order[p] == before[p] && order[p] in before;
        if q < |before| {
          assert order[q] == before[q];
        }
      }
    }
  }

  method BuildWaits(threads: seq<Thread>) returns (order: seq<Name>, waits: map<Name, Name>)
    ensures order == WaitOrder(threads) && waits == WaitMap(threads)
  {
    order, waits := [], map[];
    for i := 0 to |threads|
      invariant order == WaitOrder(threads[..i]) && waits == WaitMap(threads[..i])
      invariant Elems(order) == waits.Keys
    {
      var t := threads[i];
      assert threads[..i + 1][..i] == threads[..i];
      if t.state.BLOCKED? && t.lockOwner.Some? && t.lockOwner.value != "" {
        if t.name !in waits {
          order := order + [t.name];
        }
        waits := waits[t.name := t.lockOwner.value];
      }
    }
    assert threads[..|threads|] == threads;
  }

  // ----- Following one chain -----

  /** What the chain search reports once it has collected `chain`. */
  function Chase(w: map<Name, Name>, chain: seq<Name>): Option<seq<Name>>
    requires 0 < |chain| <= CHAIN_CAP
    decreases CHAIN_CAP - |chain|
  {
    var last := chain[|chain| - 1];
    if last !in w then None
    else
      var cur := w[last];
      if cur in chain then Some(chain[IndexOf(chain, cur)..])
      else if |chain| < CHAIN_CAP then Chase(w, chain + [cur])
      else None
  }

  function Report(w: map<Name, Name>, start: Name): Option<seq<Name>> {
    Chase(w, [start])
  }

  ghost predicate LeadsInto(w: map<Name, Name>, start: Name, tail: seq<Name>, c: seq<Name>) {
    IsLasso(w, tail, c) && |tail| + |c| <= CHAIN_CAP && (tail + c)[0] == start
  }

  lemma {:induction false} ChaseSound(w: map<Name, Name>, chain: seq<Name>) returns (tail: seq<Name>)
    requires |chain| <= CHAIN_CAP && IsPath(w, chain)
    requires Chase(w, chain).Some?
    ensures var c := Chase(w, chain).value;
      IsLasso(w, tail, c) && |tail| + |c| <= CHAIN_CAP && chain <= tail + c
    decreases CHAIN_CAP - |chain|
  {
    var cur := w[chain[|chain| - 1]];
    if cur in chain {
      var k := IndexOf(chain, cur);
      tail := chain[..k];
      assert tail + chain[k..] == chain;
      forall i | 0 <= i < |chain[k..]| - 1
        ensures Edge(w, chain[k..][i], chain[k..][i + 1])
      {
        assert Edge(w, chain[k + i], chain[k + i + 1]);
      }
    } else {
      var longer := chain + [cur];
      assert forall i :: 0 <= i < |chain| - 1 ==> Edge(w, chain[i], chain[i + 1]);
      tail := ChaseSound(w, longer);
    }
  }

  lemma {:induction false} ChaseComplete(w: map<Name, Name>, chain: seq<Name>, tail: seq<Name>, c: seq<Name>)
    requires IsLasso(w, tail, c) && |tail| + |c| <= CHAIN_CAP
    requires 0 < |chain| && chain <= tail + c
    ensures Chase(w, chain) == Some(c)
    decreases CHAIN_CAP - |chain|
  {
    var p := tail + c;
    var n := |chain|;
    assert chain[n - 1] == p[n - 1];
    if n < |p| {
      assert Edge(w, p[n - 1], p[n]);
      assert p[n] !in chain;
      ChaseComplete(w, chain + [p[n]], tail, c);
    } else {
      assert chain == p;
      assert p[|p| - 1] == c[|c| - 1] && c[0] == p[|tail|];
      assert IndexOf(p, c[0]) == |tail|;
      assert p[|tail|..] == c;
    }
  }

  /**
   * A start yields exactly the cycle it waits into, provided tail and cycle together
   * fit the cap; the cycle is listed from the thread where the tail enters it.
   */
  lemma ReportIff(w: map<Name, Name>, start: Name, c: seq<Name>)
    ensures Report(w, start) == Some(c) <==> exists tail :: LeadsInto(w, start, tail, c)
  {
    if Report(w, start) == Some(c) {
      var tail := ChaseSound(w, [start]);
      assert [start] <= tail + c;
      assert LeadsInto(w, start, tail, c);
    }
    if tail :| LeadsInto(w, start, tail, c) {
      assert [start] <= tail + c;
      ChaseComplete(w, [start], tail, c);
    }
  }

  /** Every thread of a short enough cycle reports that cycle, starting with itself. */
  lemma MemberReports(w: map<Name, Name>, c: seq<Name>, x: Name)
    requires IsCycle(w, c) && |c| <= CHAIN_CAP && x in c
    ensures Report(w, x).Some? && Elems(Report(w, x).value) == Elems(c)
    ensures IsCycle(w, Report(w, x).value) && Report(w, x).value[0] == x
  {
    var k :| 0 <= k < |c| && c[k] == x;
    var r := Rotate(c, k);
    RotatedCycle(w, c, k);
    RotateElems(c, k);
    assert [] + r == r;
    assert LeadsInto(w, x, [], r);
    ReportIff(w, x, r);
  }

  lemma ReportIsCycle(w: map<Name, Name>, s: Name)
    requires Report(w, s).Some?
    ensures IsCycle(w, Report(w, s).value) && |Report(w, s).value| <= CHAIN_CAP
  {
    var tail := ChaseSound(w, [s]);
  }

  /** Two short enough cycles that share a thread have the same threads. */
  lemma SharedMember(w: map<Name, Name>, c: seq<Name>, d: seq<Name>, x: Name)
    requires IsCycle(w, c) && |c| <= CHAIN_CAP && x in c
    requires IsCycle(w, d) && |d| <= CHAIN_CAP && x in d
    ensures Elems(c) == Elems(d)
  {
    MemberReports(w, c, x);
    MemberReports(w, d, x);
  }

  // ----- The whole search -----

  function Covered(ds: seq<seq<Name>>): set<Name> {
    set d, x | d in ds && x in d :: x
  }

  /** The reports made for the starts in `order`, skipping threads already reported. */
  function Deadlocks(w: map<Name, Name>, order: seq<Name>): seq<seq<Name>> {
    if order == [] then []
    else
      var s := order[|order| - 1];
      var ds := Deadlocks(w, order[..|order| - 1]);
      if s in Covered(ds) then ds
      else match Report(w, s)
        case None => ds
        case Some(c) => ds + [c]
  }

  method FindDeadlocks(order: seq<Name>, waits: map<Name, Name>) returns (deadlocks: seq<seq<Name>>)
    requires forall s :: s in order ==> s in waits
    ensures deadlocks == Deadlocks(waits, order)
  {
    deadlocks := [];
    var seen: set<Name> := {};
    for i := 0 to |order|
      invariant deadlocks == Deadlocks(waits, order[..i])
      invariant seen == Covered(deadlocks)
    {
      assert order[..i + 1][..i] == order[..i];
      var start := order[i];
      if start !in seen {
        var chain := [start];
        var cur := Some(waits[start]);
        while cur.Some? && cur.value !in chain && |chain| < CHAIN_CAP
          invariant 0 < |chain| <= CHAIN_CAP
          invariant cur == (var l := chain[|chain| - 1]; if l in waits then Some(waits[l]) else None)
          invariant Report(waits, start) == Chase(waits, chain)
          decreases CHAIN_CAP - |chain|
        {
          chain := chain + [cur.value];
          cur := if cur.value in waits then Some(waits[cur.value]) else None;
        }
        if cur.Some? && cur.value in chain {
          var cycle := chain[IndexOf(chain, cur.value)..];
          seen := seen + Elems(cycle);
          deadlocks := deadlocks + [cycle];
        }
      }
    }
    assert order[..|order|] == order;
  }

  /** Soundness: every report is a genuine cycle of at most CHAIN_CAP distinct threads. */
  lemma {:induction false} DeadlocksSound(w: map<Name, Name>, order: seq<Name>)
    ensures forall d :: d in Deadlocks(w, order) ==>
      && IsCycle(w, d) && |d| <= CHAIN_CAP
      && exists s :: s in order && Report(w, s) == Some(d)
  {
    if order != [] {
      var init := order[..|order| - 1];
      var s := order[|order| - 1];
      DeadlocksSound(w, init);
      if Report(w, s).Some? {
        ReportIsCycle(w, s);
      }
      forall d | d in Deadlocks(w, order)
        ensures IsCycle(w, d) && |d| <= CHAIN_CAP && exists s :: s in order && Report(w, s) == Some(d)
      {
        if d in Deadlocks(w, init) {
          var s' :| s' in init && Report(w, s') == Some(d);
          assert s' in order;
        } else {
          assert s in order;
        }
      }
    }
  }

  /** A report that has exactly the threads of c. */
  function Times(ds: seq<seq<Name>>, members: set<Name>): nat {
    if ds == [] then 0
    else Times(ds[..|ds| - 1], members) + if Elems(ds[|ds| - 1]) == members then 1 else 0
  }

  /** A thread outside the cycle whose waits lead into it, and cycle and way there fit the cap. */
  ghost predicate RunsInto(w: map<Name, Name>, s: Name, members: set<Name>) {
    s !in members && exists tail, d :: LeadsInto(w, s, tail, d) && Elems(d) == members
  }

  /** Those are the outside starts at which the search reports the cycle. */
  lemma RunsIntoIff(w: map<Name, Name>, s: Name, members: set<Name>)
    ensures RunsInto(w, s, members) <==> s !in members && Report(w, s).Some? && Elems(Report(w, s).value) == members
  {
    if RunsInto(w, s, members) {
      var tail, d :| LeadsInto(w, s, tail, d) && Elems(d) == members;
      ReportIff(w, s, d);
    }
    if Report(w, s).Some? {
      ReportIff(w, s, Report(w, s).value);
    }
  }

  /** How many of the threads in `order` run into the cycle from outside. */
  ghost function OutsideEntrants(w: map<Name, Name>, order: seq<Name>, members: set<Name>): nat {
    if order == [] then 0
    else
      var s := order[|order| - 1];
      OutsideEntrants(w, order[..|order| - 1], members) + if RunsInto(w, s, members) then 1 else 0
  }

  /** Some thread of the cycle comes in `order` before every outside thread that runs into it. */
  ghost predicate InsideFirst(w: map<Name, Name>, order: seq<Name>, members: set<Name>) {
    exists i :: 0 <= i < |order| && order[i] in members && OutsideEntrants(w, order[..i], members) == 0
  }

  lemma InsideFirstStep(w: map<Name, Name>, order: seq<Name>, members: set<Name>)
    requires order != []
    ensures var init := order[..|order| - 1];
      InsideFirst(w, order, members) <==>
        InsideFirst(w, init, members) || (order[|order| - 1] in members && OutsideEntrants(w, init, members) == 0)
  {
    var n := |order| - 1;
    var init := order[..n];
    assert forall i :: 0 <= i <= n ==> init[..i] == order[..i];
    if InsideFirst(w, init, members) {
      var i :| 0 <= i < |init| && init[i] in members && OutsideEntrants(w, init[..i], members) == 0;
      assert order[i] in members && OutsideEntrants(w, order[..i], members) == 0;
    }
    if InsideFirst(w, order, members) {
      var i :| 0 <= i < |order| && order[i] in members && OutsideEntrants(w, order[..i], members) == 0;
      if i < n {
        assert init[i] in members && OutsideEntrants(w, init[..i], members) == 0;
      }
    }
  }

  lemma {:induction false} TimesPositive(ds: seq<seq<Name>>, members: set<Name>)
    ensures Times(ds, members) > 0 <==> exists d :: d in ds && Elems(d) == members
  {
    if ds != [] {
      var n := |ds| - 1;
      TimesPositive(ds[..n], members);
      assert ds == ds[..n] + [ds[n]];
    }
  }

  /**
   * How often a cycle is reported: once for every outside thread whose chain runs
   * into it within the cap, and once more if one of its own threads is looked at
   * before all of those.
   */
  lemma {:induction false} ReportCount(w: map<Name, Name>, order: seq<Name>, c: seq<Name>)
    requires IsCycle(w, c) && |c| <= CHAIN_CAP
    ensures var members := Elems(c);
      Times(Deadlocks(w, order), members)
        == OutsideEntrants(w, order, members) + if InsideFirst(w, order, members) then 1 else 0
  {
    var members := Elems(c);
    if order != [] {
      var s := order[|order| - 1];
      var init := order[..|order| - 1];
      var ds := Deadlocks(w, init);
      ReportCount(w, init, c);
      InsideFirstStep(w, order, members);
      RunsIntoIff(w, s, members);
      DeadlocksSound(w, init);
      TimesPositive(ds, members);
      assert forall e :: e in ds && s in Elems(e) ==> s in Covered(ds);
      if s in members {
        MemberReports(w, c, s);
      }
      if s in Covered(ds) {
        var d :| d in ds && s in d;
        MemberReports(w, d, s);
        if s in members {
          SharedMember(w, c, d, s);
        } else {
          assert s in Elems(d);
        }
      } else if Report(w, s).Some? {
        var d := Report(w, s).value;
        assert Deadlocks(w, order) == ds + [d];
        assert (ds + [d])[..|ds|] == ds;
        if s in members {
          assert !exists e :: e in ds && Elems(e) == members;
        }
      }
    }
  }

  /** Completeness: every cycle of at most CHAIN_CAP threads is reported, and no longer one is. */
  lemma CycleReportedIff(w: map<Name, Name>, order: seq<Name>, c: seq<Name>)
    requires IsCycle(w, c)
    requires Elems(order) == w.Keys
    ensures (exists d :: d in Deadlocks(w, order) && Elems(d) == Elems(c)) <==> |c| <= CHAIN_CAP
  {
    DeadlocksSound(w, order);
    TimesPositive(Deadlocks(w, order), Elems(c));
    if d :| d in Deadlocks(w, order) && Elems(d) == Elems(c) {
      DistinctCardinality(c);
      DistinctCardinality(d);
    }
    if |c| <= CHAIN_CAP {
      ReportCount(w, order, c);
      SomeMemberInOrder(w, order, c);
    }
  }

  lemma SomeMemberInOrder(w: map<Name, Name>, order: seq<Name>, c: seq<Name>)
    requires IsCycle(w, c)
    requires Elems(order) == w.Keys
    ensures OutsideEntrants(w, order, Elems(c)) == 0 ==> InsideFirst(w, order, Elems(c))
  {
    var members := Elems(c);
    var last := c[|c| - 1];
    assert Edge(w, last, c[0]);
    assert last in Elems(order);
    var i :| 0 <= i < |order| && order[i] == last;
    OutsideEntrantsMonotone(w, order, members, i);
    assert last in members;
  }

  lemma {:induction false} OutsideEntrantsMonotone(w: map<Name, Name>, order: seq<Name>, members: set<Name>, i: nat)
    requires i <= |order|
    ensures OutsideEntrants(w, order[..i], members) <= OutsideEntrants(w, order, members)
  {
    if i < |order| {
      var init := order[..|order| - 1];
      OutsideEntrantsMonotone(w, init, members, i);
      assert init[..i] == order[..i];
    } else {
      assert order[..i] == order;
    }
  }

  /**
   * A reportable cycle is reported exactly once iff no outside thread runs into it
   * within the cap, or exactly one does and is looked at before the cycle's own threads.
   */
  lemma ExactlyOnceIff(w: map<Name, Name>, order: seq<Name>, c: seq<Name>)
    requires IsCycle(w, c) && |c| <= CHAIN_CAP
    requires Elems(order) == w.Keys
    ensures var members := Elems(c);
      Times(Deadlocks(w, order), members) == 1 <==>
        || OutsideEntrants(w, order, members) == 0
        || (OutsideEntrants(w, order, members) == 1 && !InsideFirst(w, order, members))
  {
    ReportCount(w, order, c);
    SomeMemberInOrder(w, order, c);
  }

  /** An outside thread that runs into the cycle passes one that waits directly into it. */
  lemma OutsideEntry(w: map<Name, Name>, s: Name, c: seq<Name>)
    requires RunsInto(w, s, Elems(c))
    ensures exists x :: x in w && x !in c && w[x] in c
  {
    var tail, d :| LeadsInto(w, s, tail, d) && Elems(d) == Elems(c);
    var p := tail + d;
    assert d[0] in Elems(d);
    var k := |tail| - 1;
    assert Edge(w, p[k], p[k + 1]);
    assert forall j :: 0 <= j < |d| ==> d[j] == p[|tail| + j];
    assert p[k] !in Elems(d);
    assert p[k] !in c && p[k + 1] in c;
  }

  lemma {:induction false} NoOutsideEntrants(w: map<Name, Name>, order: seq<Name>, c: seq<Name>)
    requires forall x :: x in w && x !in c ==> w[x] !in c
    ensures OutsideEntrants(w, order, Elems(c)) == 0
  {
    if order != [] {
      NoOutsideEntrants(w, order[..|order| - 1], c);
      var s := order[|order| - 1];
      if RunsInto(w, s, Elems(c)) {
        OutsideEntry(w, s, c);
      }
    }
  }

  /** A cycle that no outside thread waits into is reported exactly once. */
  lemma UndisturbedCycleOnce(w: map<Name, Name>, order: seq<Name>, c: seq<Name>)
    requires IsCycle(w, c) && |c| <= CHAIN_CAP
    requires Elems(order) == w.Keys
    requires forall x :: x in w && x !in c ==> w[x] !in c
    ensures Times(Deadlocks(w, order), Elems(c)) == 1
  {
    NoOutsideEntrants(w, order, c);
    ExactlyOnceIff(w, order, c);
  }

  /** With A and B blocked on each other and C waiting for A, the pair is reported twice. */
  lemma ReportedTwice()
    ensures var w := map["A" := "B", "B" := "A", "C" := "A"];
      Deadlocks(w, ["A", "B", "C"]) == [["A", "B"], ["A", "B"]]
  {
    var w := map["A" := "B", "B" := "A", "C" := "A"];
    assert LeadsInto(w, "A", [], ["A", "B"]) by { assert [] + ["A", "B"] == ["A", "B"]; }
    assert LeadsInto(w, "C", ["C"], ["A", "B"]) by { assert ["C"] + ["A", "B"] == ["C", "A", "B"]; }
    ReportIff(w, "A", ["A", "B"]);
    ReportIff(w, "C", ["A", "B"]);
    assert Deadlocks(w, []) == [];
    assert ["A"][..0] == [];
    assert Deadlocks(w, ["A"]) == [["A", "B"]];
    assert ["A", "B"][..1] == ["A"];
    assert ["A", "B"] in [["A", "B"]] && "B" in ["A", "B"];
    assert "B" in Covered([["A", "B"]]);
    assert Deadlocks(w, ["A", "B"]) == [["A", "B"]];
    assert ["A", "B", "C"][..2] == ["A", "B"];
    assert "C" !in Covered([["A", "B"]]);
  }

  /** a's last blocked entry with a named owner names b. */
  ghost predicate WaitsFor(threads: seq<Thread>, a: Name, b: Name) {
    exists i :: LastWait(threads, i, a, b)
  }

  /** Distinct names, each waiting for the next and the last for the first. */
  ghost predicate WaitRing(threads: seq<Thread>, c: seq<Name>) {
    && c != [] && Distinct(c)
    && (forall i :: 0 <= i < |c| - 1 ==> WaitsFor(threads, c[i], c[i + 1]))
    && WaitsFor(threads, c[|c| - 1], c[0])
  }

  lemma RingIsCycle(threads: seq<Thread>, c: seq<Name>)
    ensures WaitRing(threads, c) <==> IsCycle(WaitMap(threads), c)
  {
    var w := WaitMap(threads);
    forall a, b ensures WaitsFor(threads, a, b) <==> Edge(w, a, b) {
      WaitMapMeaning(threads, a, b);
    }
    if WaitRing(threads, c) {
      forall i | 0 <= i < |c| - 1 ensures Edge(w, c[i], c[i + 1]) {
        assert WaitsFor(threads, c[i], c[i + 1]);
      }
    } else if IsCycle(w, c) {
      forall i | 0 <= i < |c| - 1 ensures WaitsFor(threads, c[i], c[i + 1]) {
        assert Edge(w, c[i], c[i + 1]);
      }
    }
  }

  /**
   * From the entries of the dump on: every report is a ring of waiting threads of at most 20 names,
   * and a ring is reported if and only if it has at most 20 names.
   */
  method FindThreadDeadlocks(threads: seq<Thread>) returns (deadlocks: seq<seq<Name>>)
    ensures deadlocks == Deadlocks(WaitMap(threads), WaitOrder(threads))
    ensures forall d :: d in deadlocks ==> WaitRing(threads, d) && |d| <= 20
    ensures forall c :: WaitRing(threads, c) ==> ((exists d :: d in deadlocks && Elems(d) == Elems(c)) <==> |c| <= 20)
  {
    var order, waits := BuildWaits(threads);
    WaitOrderMeaning(threads);
    assert forall s :: s in order ==> s in Elems(order);
    deadlocks := FindDeadlocks(order, waits);
    DeadlocksSound(waits, order);
    forall d | d in deadlocks ensures WaitRing(threads, d) && |d| <= 20 {
      RingIsCycle(threads, d);
    }
    forall c | WaitRing(threads, c)
      ensures (exists d :: d in deadlocks && Elems(d) == Elems(c)) <==> |c| <= 20
    {
      RingIsCycle(threads, c);
      CycleReportedIff(waits, order, c);
    }
  }

  /** Two threads blocked on each other's locks, and a third that just waits. */
  function MutuallyBlocked(): seq<Thread> {
    [Thread("A", BLOCKED, Some("l"), Some("B")), Thread("C", WAITING, Some("l"), Some("A")), Thread("B", BLOCKED, Some("m"), Some("A"))]
  }

  /** They are reported as one pair, the third is not. */
  lemma MutuallyBlockedReported()
    ensures WaitMap(MutuallyBlocked()) == map["A" := "B", "B" := "A"] && WaitOrder(MutuallyBlocked()) == ["A", "B"]
    ensures Deadlocks(WaitMap(MutuallyBlocked()), WaitOrder(MutuallyBlocked())) == [["A", "B"]]
  {
    var ts := MutuallyBlocked();
    assert ts[..2][..1] == [ts[0]] && ts[..2] == [ts[0], ts[1]] && [ts[0]][..0] == [];
    assert WaitMap(ts[..2]) == WaitMap(ts[..2][..1]) == map["A" := "B"];
    assert WaitOrder(ts[..2]) == WaitOrder(ts[..2][..1]) == ["A"];
    PairReported();
  }

  lemma PairReported()
    ensures Deadlocks(map["A" := "B", "B" := "A"], ["A", "B"]) == [["A", "B"]]
  {
    var w := map["A" := "B", "B" := "A"];
    assert LeadsInto(w, "A", [], ["A", "B"]) by { assert [] + ["A", "B"] == ["A", "B"]; }
    ReportIff(w, "A", ["A", "B"]);
    assert ["A", "B"][..1] == ["A"] && ["A"][..0] == [];
    assert Deadlocks(w, ["A"]) == [["A", "B"]];
    assert ["A", "B"] in [["A", "B"]] && "B" in ["A", "B"];
    assert "B" in Covered([["A", "B"]]);
  }
}
