/** What holds of the aggregator over every run of ingests and prunes. */
module RumRuns {
  import opened Collections
  import opened RollingWindow
  import opened RumAggregator

  /** One call from outside: a beacon (None when the input is no beacon) or an explicit prune. */
  datatype Call = Ingest(beacon: Option<Beacon>, now: int) | PruneAll(now: int)

  function Step(s: State, call: Call, retentionMs: int): State {
    match call
    case Ingest(beacon, now) => if beacon.Some? then IngestBeacon(s, beacon.value, now, retentionMs) else s
    case PruneAll(now) => PruneState(s, now, retentionMs)
  }

  function After(start: int, calls: seq<Call>, retentionMs: int): State {
    if calls == [] then EmptyState(start)
    else Step(After(start, calls[..|calls| - 1], retentionMs), calls[|calls| - 1], retentionMs)
  }

  /** A clock that starts at `start` and never runs backwards. */
  ghost predicate Timely(start: int, calls: seq<Call>) {
    && (forall i :: 0 <= i < |calls| ==> start <= calls[i].now)
    && (forall i, j :: 0 <= i < j < |calls| ==> calls[i].now <= calls[j].now)
  }

  // ----- Where a sample goes -----

  /** A push lands in exactly one window: the route's own, or the overflow bucket's for a new route past the cap. */
  lemma PushBucketEffect<K>(b: Buckets<K>, route: string, key: K, v: real, now: int)
    ensures WindowAt(PushBucket(b, route, key, v, now), Target(b, route), key) == PushTo(WindowAt(b, Target(b, route), key), v, now)
    ensures forall r, k :: r != Target(b, route) || k != key ==> WindowAt(PushBucket(b, route, key, v, now), r, k) == WindowAt(b, r, k)
    ensures PushBucket(b, route, key, v, now).Keys == b.Keys + {Target(b, route)}
    ensures Target(b, route) == if route in b || |b| < 200 then route else "(other)"
  {
  }

  /**
   * An accepted vital lands in its own route's window; for a new route past the cap it lands in the
   * overflow bucket's instead. No other window changes, and no route but that one appears.
   */
  lemma VitalLands(s: State, metric: Metric, v: real, route: string, now: int)
    requires Counts(s, Vital(Some(metric), Some(v)), route)
    ensures var t := AddEvent(s, Vital(Some(metric), Some(v)), route, now);
      var home := if route in s.vitals || |s.vitals| < 200 then route else "(other)";
      && WindowAt(t.vitals, home, metric) == Last(WindowAt(s.vitals, home, metric) + [Sample(now, v)], 2000)
      && t.vitals.Keys == s.vitals.Keys + {home}
      && (forall r, k :: r != home || k != metric ==> WindowAt(t.vitals, r, k) == WindowAt(s.vitals, r, k))
      && t.nav == s.nav && t.views == s.views && t.resources == s.resources && t.errors == s.errors
  {
    PushBucketEffect(s.vitals, route, metric, v, now);
  }

  // ----- Bounded memory -----

  ghost predicate RoutesBounded<K>(b: Buckets<K>) {
    |b| <= 200 || (|b| == 201 && "(other)" in b)
  }

  ghost predicate WindowsBounded<K(!new)>(b: Buckets<K>) {
    forall r, k :: |WindowAt(b, r, k)| <= 2000
  }

  ghost predicate ViewOk(v: ViewStats) {
    v.entries <= v.views && |v.durations| <= 2000
  }

  ghost predicate ResourceOk(r: ResourceStats) {
    r.errors <= r.count && |r.times| <= 2000 && |r.routes| <= 20
  }

  ghost predicate ErrorOk(e: ErrorStats) {
    1 <= e.count && |e.routes| <= 20
  }

  ghost predicate BucketsOk<K(!new)>(b: Buckets<K>) {
    RoutesBounded(b) && WindowsBounded(b)
  }

  ghost predicate ViewsOk(m: map<string, ViewStats>) {
    |m| <= 200 && forall r :: r in m ==> ViewOk(m[r])
  }

  ghost predicate ResourcesOk(m: map<string, ResourceStats>) {
    |m| <= 300 && forall r :: r in m ==> ResourceOk(m[r])
  }

  ghost predicate ErrorsOk(m: map<string, ErrorStats>) {
    |m| <= 200 && forall r :: r in m ==> ErrorOk(m[r])
  }

  /** Every table and every window is within its cap; entries <= views and errors <= count. */
  ghost predicate Bounded(s: State) {
    BucketsOk(s.vitals) && BucketsOk(s.nav) && ViewsOk(s.views) && ResourcesOk(s.resources) && ErrorsOk(s.errors)
  }

  lemma PutSize<V>(m: map<string, V>, k: string, v: V)
    ensures |m[k := v]| == if k in m then |m| else |m| + 1
  {
    assert m[k := v].Keys == m.Keys + {k};
  }

  lemma PushBucketOk<K(!new)>(b: Buckets<K>, route: string, key: K, v: real, now: int)
    requires BucketsOk(b)
    ensures BucketsOk(PushBucket(b, route, key, v, now))
  {
    var target := Target(b, route);
    var m := if target in b then b[target] else map[];
    PutSize(b, target, m[key := PushTo(WindowAt(b, target, key), v, now)]);
    PushBucketEffect(b, route, key, v, now);
  }

  lemma {:induction false} PushPhasesOk(b: Buckets<Phase>, route: string, phases: map<Phase, Number>, n: nat, now: int)
    requires n <= |NAV_PHASES| && BucketsOk(b)
    ensures BucketsOk(PushPhases(b, route, phases, n, now))
  {
    if n > 0 {
      PushPhasesOk(b, route, phases, n - 1, now);
      var phase := NAV_PHASES[n - 1];
      if phase in phases && InRange(phases[phase], true) {
        PushBucketOk(PushPhases(b, route, phases, n - 1, now), route, phase, phases[phase].value, now);
      }
    }
  }

  lemma VitalsAfterOk(b: Buckets<Metric>, body: Body, route: string, now: int)
    requires BucketsOk(b)
    ensures BucketsOk(VitalsAfter(b, body, route, now))
  {
    if body.Vital? && body.metric.Some? && InRange(body.value, false) {
      PushBucketOk(b, route, body.metric.value, body.value.value, now);
    }
  }

  lemma NavAfterOk(b: Buckets<Phase>, body: Body, route: string, now: int)
    requires BucketsOk(b)
    ensures BucketsOk(NavAfter(b, body, route, now))
  {
    if body.Nav? {
      PushPhasesOk(b, route, body.phases, |NAV_PHASES|, now);
    }
  }

  lemma ViewsAfterOk(m: map<string, ViewStats>, body: Body, route: string, now: int)
    requires ViewsOk(m)
    ensures ViewsOk(ViewsAfter(m, body, route, now))
  {
    if body.View? {
      var v := if route in m then m[route] else ViewStats(0, 0, []);
      assert ViewOk(v);
      PutSize(m, route, ViewAfter(v, body.entry, body.duration, now));
    }
  }

  lemma ResourcesAfterOk(m: map<string, ResourceStats>, body: Body, route: string, now: int)
    requires ResourcesOk(m)
    ensures ResourcesOk(ResourcesAfter(m, body, route, now))
  {
    if body.Resource? && body.key.Some? && InRange(body.time, false) {
      var r := if body.key.value in m then m[body.key.value] else ResourceStats(0, [], 0, {});
      assert ResourceOk(r);
      PutSize(m, body.key.value, ResourceAfter(r, body.time.value, body.status, route, now));
    }
  }

  lemma ErrorsAfterOk(m: map<string, ErrorStats>, body: Body, route: string, now: int)
    requires ErrorsOk(m)
    ensures ErrorsOk(ErrorsAfter(m, body, route, now))
  {
    if body.Error? && body.text.Some? {
      var sig := body.text.value.signature;
      var e := if sig in m then m[sig] else ErrorStats(0, now, now, {}, body.text.value.sample);
      assert |e.routes| <= MAX_ROUTES_PER_ENTRY;
      PutSize(m, sig, ErrorAfter(e, route, now));
    }
  }

  /** A state is bounded once its five tables are. */
  lemma Assemble(t: State, v: Buckets<Metric>, n: Buckets<Phase>, vs: map<string, ViewStats>,
      rs: map<string, ResourceStats>, es: map<string, ErrorStats>)
    requires t.vitals == v && t.nav == n && t.views == vs && t.resources == rs && t.errors == es
    requires BucketsOk(v) && BucketsOk(n) && ViewsOk(vs) && ResourcesOk(rs) && ErrorsOk(es)
    ensures Bounded(t)
  {
  }

  lemma AddEventBounded(s: State, body: Body, route: string, now: int)
    requires Bounded(s)
    ensures Bounded(AddEvent(s, body, route, now))
  {
    VitalsAfterOk(s.vitals, body, route, now);
    NavAfterOk(s.nav, body, route, now);
    ViewsAfterOk(s.views, body, route, now);
    ResourcesAfterOk(s.resources, body, route, now);
    ErrorsAfterOk(s.errors, body, route, now);
    Assemble(AddEvent(s, body, route, now), VitalsAfter(s.vitals, body, route, now), NavAfter(s.nav, body, route, now),
      ViewsAfter(s.views, body, route, now), ResourcesAfter(s.resources, body, route, now), ErrorsAfter(s.errors, body, route, now));
  }

  lemma {:induction false} AddItemsBounded(s: State, items: seq<Item>, now: int)
    requires Bounded(s)
    ensures Bounded(AddItems(s, items, now))
  {
    if items != [] {
      var n := |items| - 1;
      AddItemsBounded(s, items[..n], now);
      AddEventBounded(AddItems(s, items[..n], now), items[n].body, items[n].route, now);
    }
  }

  lemma SubmapSize<K, V, W>(m: map<K, V>, n: map<K, W>)
    requires m.Keys <= n.Keys
    ensures |m| <= |n|
  {
    SubsetSize(m.Keys, n.Keys);
  }

  lemma PruneBucketsOk<K(!new)>(b: Buckets<K>, cutoff: int)
    requires BucketsOk(b)
    ensures BucketsOk(PruneBuckets(b, cutoff))
  {
    var c := PruneBuckets(b, cutoff);
    assert c.Keys == b.Keys;
    SubmapSize(b, c);
    SubmapSize(c, b);
    PruneBucketsWindow(b, cutoff);
    forall r, k ensures |WindowAt(c, r, k)| <= MAX_SAMPLES_PER_KEY {
      KeepFromMembers(WindowAt(b, r, k), cutoff);
    }
  }

  lemma PruneResourcesOk(m: map<string, ResourceStats>, cutoff: int)
    requires ResourcesOk(m)
    ensures ResourcesOk(PruneResources(m, cutoff))
  {
    SubmapSize(PruneResources(m, cutoff), m);
    forall r | r in m ensures |KeepFrom(m[r].times, cutoff)| <= MAX_SAMPLES_PER_KEY {
      assert ResourceOk(m[r]);
      KeepFromMembers(m[r].times, cutoff);
    }
  }

  lemma PruneErrorsOk(m: map<string, ErrorStats>, cutoff: int)
    requires ErrorsOk(m)
    ensures ErrorsOk(PruneErrors(m, cutoff))
  {
    SubmapSize(PruneErrors(m, cutoff), m);
  }

  lemma PruneBounded(s: State, now: int, retentionMs: int)
    requires Bounded(s)
    ensures Bounded(PruneState(s, now, retentionMs))
  {
    var cutoff := now - retentionMs;
    PruneBucketsOk(s.vitals, cutoff);
    PruneBucketsOk(s.nav, cutoff);
    PruneResourcesOk(s.resources, cutoff);
    PruneErrorsOk(s.errors, cutoff);
    var v, n := PruneBuckets(s.vitals, cutoff), PruneBuckets(s.nav, cutoff);
    var rs, es := PruneResources(s.resources, cutoff), PruneErrors(s.errors, cutoff);
    Assemble(State(v, n, s.views, rs, es, s.devices, PruneSessions(s.sessions, cutoff), now), v, n, s.views, rs, es);
  }

  lemma NoteVisitorKeeps(s: State, b: Beacon, now: int)
    ensures var t := NoteVisitor(s, b, now);
      && t.vitals == s.vitals && t.nav == s.nav && t.views == s.views && t.resources == s.resources && t.errors == s.errors
      && t.lastPrune == s.lastPrune
  {
    if b.session.Some? && ValidSession(b.session.value) {
    } else {
      assert NoteVisitor(s, b, now).sessions == s.sessions;
    }
  }

  lemma NoteVisitorSessions(s: State, b: Beacon, now: int)
    ensures var t := NoteVisitor(s, b, now).sessions;
      forall k :: k in t ==> t[k] == now || (k in s.sessions && t[k] == s.sessions[k])
  {
  }

  lemma NoteVisitorBounded(s: State, b: Beacon, now: int)
    requires Bounded(s)
    ensures Bounded(NoteVisitor(s, b, now))
  {
    NoteVisitorKeeps(s, b, now);
    Assemble(NoteVisitor(s, b, now), s.vitals, s.nav, s.views, s.resources, s.errors);
  }

  lemma IngestBounded(s: State, b: Beacon, now: int, retentionMs: int)
    requires Bounded(s)
    ensures Bounded(IngestBeacon(s, b, now, retentionMs))
  {
    NoteVisitorBounded(s, b, now);
    AddItemsBounded(NoteVisitor(s, b, now), Items(b), now);
    PruneBounded(AfterItems(s, b, now), now, retentionMs);
  }

  lemma StepBounded(s: State, call: Call, retentionMs: int)
    requires Bounded(s)
    ensures Bounded(Step(s, call, retentionMs))
  {
    if call.PruneAll? {
      PruneBounded(s, call.now, retentionMs);
    } else if call.beacon.Some? {
      IngestBounded(s, call.beacon.value, call.now, retentionMs);
    }
  }

  /** In every reachable state each table and each window is within its cap. */
  lemma {:induction false} AlwaysBounded(start: int, calls: seq<Call>, retentionMs: int)
    ensures Bounded(After(start, calls, retentionMs))
  {
    if calls != [] {
      var n := |calls| - 1;
      AlwaysBounded(start, calls[..n], retentionMs);
      StepBounded(After(start, calls[..n], retentionMs), calls[n], retentionMs);
    }
  }

  // ----- A fixed bound on all samples -----

  function WindowSize(w: Window): int { |w| }

  ghost function RouteSize<K>(m: map<K, Window>): int {
    MapSum(m, WindowSize)
  }

  function ViewSize(v: ViewStats): int { |v.durations| }

  function ResourceSize(r: ResourceStats): int { |r.times| }

  ghost function TotalSamples(s: State): int {
    MapSum(s.vitals, RouteSize<Metric>) + MapSum(s.nav, RouteSize<Phase>) + MapSum(s.views, ViewSize) + MapSum(s.resources, ResourceSize)
  }

  lemma BucketsSize<K(!new)>(b: Buckets<K>, keys: set<K>, n: nat)
    requires BucketsOk(b) && |keys| == n && forall k: K :: k in keys
    ensures MapSum(b, RouteSize<K>) <= n * MAX_SAMPLES_PER_KEY * (MAX_ROUTES + 1)
  {
    var c := n * MAX_SAMPLES_PER_KEY;
    forall r | r in b ensures RouteSize(b[r]) <= c {
      forall k | k in b[r] ensures WindowSize(b[r][k]) <= MAX_SAMPLES_PER_KEY {
        assert b[r][k] == WindowAt(b, r, k);
      }
      MapSumBound(b[r], WindowSize, MAX_SAMPLES_PER_KEY);
      SubsetSize(b[r].Keys, keys);
      ScaleMonotone(MAX_SAMPLES_PER_KEY, |b[r]|, n);
    }
    MapSumBound(b, RouteSize<K>, c);
    ScaleMonotone(c, |b|, MAX_ROUTES + 1);
  }

  lemma ScaleMonotone(c: nat, x: int, y: int)
    requires x <= y
    ensures c * x <= c * y
  {
  }

  lemma VitalsSize(b: Buckets<Metric>)
    requires BucketsOk(b)
    ensures MapSum(b, RouteSize<Metric>) <= 5 * MAX_SAMPLES_PER_KEY * (MAX_ROUTES + 1)
  {
    var keys := {LCP, INP, CLS, FCP, TTFB};
    forall k: Metric ensures k in keys {
      match k { case LCP => case INP => case CLS => case FCP => case TTFB => }
    }
    BucketsSize(b, keys, 5);
  }

  lemma NavSize(b: Buckets<Phase>)
    requires BucketsOk(b)
    ensures MapSum(b, RouteSize<Phase>) <= 8 * MAX_SAMPLES_PER_KEY * (MAX_ROUTES + 1)
  {
    var keys := {Dns, Connect, Tls, Ttfb, Download, DomInteractive, DomContentLoaded, Load};
    forall k: Phase ensures k in keys {
      match k { case Dns => case Connect => case Tls => case Ttfb => case Download => case _ => }
    }
    BucketsSize(b, keys, 8);
  }

  lemma ViewsSize(m: map<string, ViewStats>)
    requires ViewsOk(m)
    ensures MapSum(m, ViewSize) <= MAX_SAMPLES_PER_KEY * MAX_ROUTES
  {
    forall r | r in m ensures ViewSize(m[r]) <= MAX_SAMPLES_PER_KEY {
      assert ViewOk(m[r]);
    }
    MapSumBound(m, ViewSize, MAX_SAMPLES_PER_KEY);
  }

  lemma ResourcesSize(m: map<string, ResourceStats>)
    requires ResourcesOk(m)
    ensures MapSum(m, ResourceSize) <= MAX_SAMPLES_PER_KEY * MAX_RESOURCES
  {
    forall r | r in m ensures ResourceSize(m[r]) <= MAX_SAMPLES_PER_KEY {
      assert ResourceOk(m[r]);
    }
    MapSumBound(m, ResourceSize, MAX_SAMPLES_PER_KEY);
  }

  /** All windows of a reachable state together hold at most 6 226 000 samples. */
  lemma TotalSamplesBounded(start: int, calls: seq<Call>, retentionMs: int)
    ensures TotalSamples(After(start, calls, retentionMs)) <= 6226000
  {
    var s := After(start, calls, retentionMs);
    AlwaysBounded(start, calls, retentionMs);
    VitalsSize(s.vitals);
    NavSize(s.nav);
    ViewsSize(s.views);
    ResourcesSize(s.resources);
  }

  // ----- Freshness -----

  ghost predicate FreshWindow(w: Window, from: int) {
    forall x :: x in w ==> x.t >= from
  }

  ghost predicate FreshBuckets<K(!new)>(b: Buckets<K>, from: int) {
    forall r, k :: FreshWindow(WindowAt(b, r, k), from)
  }

  ghost predicate FreshResources(m: map<string, ResourceStats>, from: int) {
    forall r :: r in m ==> FreshWindow(m[r].times, from)
  }

  ghost predicate FreshSessions(m: map<string, int>, from: int) {
    forall k :: k in m ==> m[k] >= from
  }

  ghost predicate FreshErrors(m: map<string, ErrorStats>, from: int) {
    forall k :: k in m ==> m[k].last >= from
  }

  /** No vital, navigation or resource sample, session or error entry is older than `from`. */
  ghost predicate Fresh(s: State, from: int) {
    && FreshBuckets(s.vitals, from) && FreshBuckets(s.nav, from)
    && FreshResources(s.resources, from) && FreshSessions(s.sessions, from) && FreshErrors(s.errors, from)
  }

  lemma PushFresh(w: Window, v: real, now: int, from: int)
    requires FreshWindow(w, from) && now >= from
    ensures FreshWindow(PushTo(w, v, now), from)
  {
  }

  lemma PushBucketFresh<K(!new)>(b: Buckets<K>, route: string, key: K, v: real, now: int, from: int)
    requires FreshBuckets(b, from) && now >= from
    ensures FreshBuckets(PushBucket(b, route, key, v, now), from)
  {
    PushBucketEffect(b, route, key, v, now);
    PushFresh(WindowAt(b, Target(b, route), key), v, now, from);
  }

  lemma {:induction false} PushPhasesFresh(b: Buckets<Phase>, route: string, phases: map<Phase, Number>, n: nat, now: int, from: int)
    requires n <= |NAV_PHASES| && FreshBuckets(b, from) && now >= from
    ensures FreshBuckets(PushPhases(b, route, phases, n, now), from)
  {
    if n > 0 {
      PushPhasesFresh(b, route, phases, n - 1, now, from);
      var phase := NAV_PHASES[n - 1];
      if phase in phases && InRange(phases[phase], true) {
        PushBucketFresh(PushPhases(b, route, phases, n - 1, now), route, phase, phases[phase].value, now, from);
      }
    }
  }

  lemma VitalsAfterFresh(b: Buckets<Metric>, body: Body, route: string, now: int, from: int)
    requires FreshBuckets(b, from) && now >= from
    ensures FreshBuckets(VitalsAfter(b, body, route, now), from)
  {
    if body.Vital? && body.metric.Some? && InRange(body.value, false) {
      PushBucketFresh(b, route, body.metric.value, body.value.value, now, from);
    }
  }

  lemma NavAfterFresh(b: Buckets<Phase>, body: Body, route: string, now: int, from: int)
    requires FreshBuckets(b, from) && now >= from
    ensures FreshBuckets(NavAfter(b, body, route, now), from)
  {
    if body.Nav? {
      PushPhasesFresh(b, route, body.phases, |NAV_PHASES|, now, from);
    }
  }

  lemma ResourcesAfterFresh(m: map<string, ResourceStats>, body: Body, route: string, now: int, from: int)
    requires FreshResources(m, from) && now >= from
    ensures FreshResources(ResourcesAfter(m, body, route, now), from)
  {
    if body.Resource? && body.key.Some? && InRange(body.time, false) {
      var times := if body.key.value in m then m[body.key.value].times else [];
      PushFresh(times, body.time.value, now, from);
    }
  }

  lemma AssembleFresh(t: State, v: Buckets<Metric>, n: Buckets<Phase>, rs: map<string, ResourceStats>,
      ss: map<string, int>, es: map<string, ErrorStats>, from: int)
    requires t.vitals == v && t.nav == n && t.resources == rs && t.sessions == ss && t.errors == es
    requires FreshBuckets(v, from) && FreshBuckets(n, from) && FreshResources(rs, from) && FreshSessions(ss, from) && FreshErrors(es, from)
    ensures Fresh(t, from)
  {
  }

  lemma ErrorsAfterFresh(m: map<string, ErrorStats>, body: Body, route: string, now: int, from: int)
    requires FreshErrors(m, from) && now >= from
    ensures FreshErrors(ErrorsAfter(m, body, route, now), from)
  {
  }

  lemma AddEventFresh(s: State, body: Body, route: string, now: int, from: int)
    requires Fresh(s, from) && now >= from
    ensures Fresh(AddEvent(s, body, route, now), from)
  {
    VitalsAfterFresh(s.vitals, body, route, now, from);
    NavAfterFresh(s.nav, body, route, now, from);
    ResourcesAfterFresh(s.resources, body, route, now, from);
    ErrorsAfterFresh(s.errors, body, route, now, from);
    AssembleFresh(AddEvent(s, body, route, now), VitalsAfter(s.vitals, body, route, now), NavAfter(s.nav, body, route, now),
      ResourcesAfter(s.resources, body, route, now), s.sessions, ErrorsAfter(s.errors, body, route, now), from);
  }

  lemma {:induction false} AddItemsFresh(s: State, items: seq<Item>, now: int, from: int)
    requires Fresh(s, from) && now >= from
    ensures Fresh(AddItems(s, items, now), from)
  {
    if items != [] {
      var n := |items| - 1;
      AddItemsFresh(s, items[..n], now, from);
      AddEventFresh(AddItems(s, items[..n], now), items[n].body, items[n].route, now, from);
    }
  }

  lemma PruneBucketsWindow<K>(b: Buckets<K>, cutoff: int)
    ensures forall r, k :: WindowAt(PruneBuckets(b, cutoff), r, k) == KeepFrom(WindowAt(b, r, k), cutoff)
  {
  }

  lemma KeepFromFresh(cutoff: int)
    ensures forall w: Window :: FreshWindow(KeepFrom(w, cutoff), cutoff)
  {
    forall w: Window ensures FreshWindow(KeepFrom(w, cutoff), cutoff) {
      KeepFromMembers(w, cutoff);
    }
  }

  lemma PruneBucketsFresh<K(!new)>(b: Buckets<K>, cutoff: int)
    ensures FreshBuckets(PruneBuckets(b, cutoff), cutoff)
  {
    KeepFromFresh(cutoff);
    PruneBucketsWindow(b, cutoff);
  }

  lemma PruneResourcesFresh(m: map<string, ResourceStats>, cutoff: int)
    ensures FreshResources(PruneResources(m, cutoff), cutoff)
  {
    KeepFromFresh(cutoff);
  }

  lemma PruneFresh(s: State, now: int, retentionMs: int)
    ensures Fresh(PruneState(s, now, retentionMs), now - retentionMs)
  {
    var cutoff := now - retentionMs;
    PruneBucketsFresh(s.vitals, cutoff);
    PruneBucketsFresh(s.nav, cutoff);
    PruneResourcesFresh(s.resources, cutoff);
    AssembleFresh(PruneState(s, now, retentionMs), PruneBuckets(s.vitals, cutoff), PruneBuckets(s.nav, cutoff),
      PruneResources(s.resources, cutoff), PruneSessions(s.sessions, cutoff), PruneErrors(s.errors, cutoff), cutoff);
  }

  lemma NoteVisitorFresh(s: State, b: Beacon, now: int, from: int)
    requires Fresh(s, from) && now >= from
    ensures Fresh(NoteVisitor(s, b, now), from)
  {
    var t := NoteVisitor(s, b, now);
    NoteVisitorSessions(s, b, now);
    NoteVisitorKeeps(s, b, now);
    AssembleFresh(t, s.vitals, s.nav, s.resources, t.sessions, s.errors, from);
  }

  lemma {:induction false} AddItemsLastPrune(s: State, items: seq<Item>, now: int)
    ensures AddItems(s, items, now).lastPrune == s.lastPrune
  {
    if items != [] {
      var n := |items| - 1;
      AddItemsLastPrune(s, items[..n], now);
    }
  }

  lemma StepLastPrune(s: State, call: Call, retentionMs: int)
    ensures var t := Step(s, call, retentionMs);
      t.lastPrune == s.lastPrune || t.lastPrune == call.now
  {
    if call.Ingest? && call.beacon.Some? {
      var b := call.beacon.value;
      AddItemsLastPrune(NoteVisitor(s, b, call.now), Items(b), call.now);
    }
  }

  lemma FreshWeaker(s: State, from: int, earlier: int)
    requires Fresh(s, from) && earlier <= from
    ensures Fresh(s, earlier)
  {
    assert forall w: Window :: FreshWindow(w, from) ==> FreshWindow(w, earlier);
  }

  // ----- Conservation -----

  predicate IsView(body: Body) { body.View? }

  predicate IsResource(body: Body) { body.Resource? }

  function ViewCount(v: ViewStats): int { v.views }

  function RequestCount(r: ResourceStats): int { r.count }

  function AcceptedBy(s: State, call: Call, which: Body -> bool): nat {
    if call.Ingest? && call.beacon.Some? then
      var b := call.beacon.value;
      Accepted(NoteVisitor(s, b, call.now), Items(b), call.now, which)
    else 0
  }

  function AcceptedOver(start: int, calls: seq<Call>, retentionMs: int, which: Body -> bool): nat {
    if calls == [] then 0
    else
      var n := |calls| - 1;
      AcceptedOver(start, calls[..n], retentionMs, which) + AcceptedBy(After(start, calls[..n], retentionMs), calls[n], which)
  }

  lemma ViewsAfterCounts(m: map<string, ViewStats>, body: Body, route: string, now: int)
    ensures MapSum(ViewsAfter(m, body, route, now), ViewCount)
      == MapSum(m, ViewCount) + if body.View? && HasRoom(m, route, MAX_ROUTES) then 1 else 0
  {
    if body.View? {
      var v := if route in m then m[route] else ViewStats(0, 0, []);
      MapSumUpdate(m, ViewCount, route, ViewAfter(v, body.entry, body.duration, now));
    }
  }

  lemma ResourcesAfterCounts(m: map<string, ResourceStats>, body: Body, route: string, now: int)
    ensures MapSum(ResourcesAfter(m, body, route, now), RequestCount) == MapSum(m, RequestCount)
      + if body.Resource? && body.key.Some? && InRange(body.time, false) && HasRoom(m, body.key.value, MAX_RESOURCES) then 1 else 0
  {
    if body.Resource? && body.key.Some? && InRange(body.time, false) {
      var r := if body.key.value in m then m[body.key.value] else ResourceStats(0, [], 0, {});
      MapSumUpdate(m, RequestCount, body.key.value, ResourceAfter(r, body.time.value, body.status, route, now));
    }
  }

  lemma AddEventCounts(s: State, body: Body, route: string, now: int)
    ensures var t := AddEvent(s, body, route, now);
      && MapSum(t.views, ViewCount) == MapSum(s.views, ViewCount) + (if IsView(body) && Counts(s, body, route) then 1 else 0)
      && MapSum(t.resources, RequestCount)
           == MapSum(s.resources, RequestCount) + (if IsResource(body) && Counts(s, body, route) then 1 else 0)
  {
    ViewsAfterCounts(s.views, body, route, now);
    ResourcesAfterCounts(s.resources, body, route, now);
  }

  lemma {:induction false} AddItemsCounts(s: State, items: seq<Item>, now: int)
    ensures var t := AddItems(s, items, now);
      && MapSum(t.views, ViewCount) == MapSum(s.views, ViewCount) + Accepted(s, items, now, IsView)
      && MapSum(t.resources, RequestCount) == MapSum(s.resources, RequestCount) + Accepted(s, items, now, IsResource)
  {
    if items != [] {
      var n := |items| - 1;
      AddItemsCounts(s, items[..n], now);
      AddEventCounts(AddItems(s, items[..n], now), items[n].body, items[n].route, now);
    }
  }

  lemma PruneCounts(s: State, now: int, retentionMs: int)
    ensures var t := PruneState(s, now, retentionMs);
      t.views == s.views && MapSum(t.resources, RequestCount) == MapSum(s.resources, RequestCount)
  {
    MapSumPointwise(PruneResources(s.resources, now - retentionMs), s.resources, RequestCount, RequestCount);
  }

  lemma IngestCounts(s: State, b: Beacon, now: int, retentionMs: int)
    ensures var t := IngestBeacon(s, b, now, retentionMs);
      && MapSum(t.views, ViewCount) == MapSum(s.views, ViewCount) + Accepted(NoteVisitor(s, b, now), Items(b), now, IsView)
      && MapSum(t.resources, RequestCount)
           == MapSum(s.resources, RequestCount) + Accepted(NoteVisitor(s, b, now), Items(b), now, IsResource)
  {
    NoteVisitorKeeps(s, b, now);
    AddItemsCounts(NoteVisitor(s, b, now), Items(b), now);
    PruneCounts(AfterItems(s, b, now), now, retentionMs);
  }

  lemma StepCounts(s: State, call: Call, retentionMs: int)
    ensures var t := Step(s, call, retentionMs);
      && MapSum(t.views, ViewCount) == MapSum(s.views, ViewCount) + AcceptedBy(s, call, IsView)
      && MapSum(t.resources, RequestCount) == MapSum(s.resources, RequestCount) + AcceptedBy(s, call, IsResource)
  {
    if call.PruneAll? {
      PruneCounts(s, call.now, retentionMs);
    } else if call.beacon.Some? {
      IngestCounts(s, call.beacon.value, call.now, retentionMs);
    }
  }

  /** Over any run the stored view and resource counts are exactly the accepted view and resource events. */
  lemma {:induction false} CountsConserved(start: int, calls: seq<Call>, retentionMs: int)
    ensures var s := After(start, calls, retentionMs);
      && MapSum(s.views, ViewCount) == AcceptedOver(start, calls, retentionMs, IsView)
      && MapSum(s.resources, RequestCount) == AcceptedOver(start, calls, retentionMs, IsResource)
  {
    if calls != [] {
      var n := |calls| - 1;
      CountsConserved(start, calls[..n], retentionMs);
      StepCounts(After(start, calls[..n], retentionMs), calls[n], retentionMs);
    }
  }

  // ----- Every window, from the whole history -----

  /** The windows an aggregator keeps: of a route's metric or phase, of a resource, of a route's views. */
  datatype Place =
    | VitalAt(route: string, metric: Metric)
    | NavAt(route: string, phase: Phase)
    | ResourceAt(url: string)
    | ViewAt(route: string)

  function WindowOf(s: State, p: Place): Window {
    match p
    case VitalAt(r, k) => WindowAt(s.vitals, r, k)
    case NavAt(r, k) => WindowAt(s.nav, r, k)
    case ResourceAt(u) => if u in s.resources then s.resources[u].times else []
    case ViewAt(r) => if r in s.views then s.views[r].durations else []
  }

  /** The value that an event sends to the window at p, if it sends one there. */
  function Sent(s: State, body: Body, route: string, p: Place): Number {
    match p
    case VitalAt(r, k) =>
      if body.Vital? && body.metric == Some(k) && AtMostTenMinutes(body.value) && Target(s.vitals, route) == r
      then body.value else None
    case NavAt(r, k) =>
      if body.Nav? && k in body.phases && UnderTenMinutes(body.phases[k]) && Target(s.nav, route) == r
      then body.phases[k] else None
    case ResourceAt(u) =>
      if body.Resource? && body.key == Some(u) && AtMostTenMinutes(body.time) && (u in s.resources || |s.resources| < 300)
      then body.time else None
    case ViewAt(r) =>
      if body.View? && route == r && (r in s.views || |s.views| < 200) && UnderTenMinutes(body.duration)
      then body.duration else None
  }

  predicate AtMostTenMinutes(v: Number) { v.Some? && 0.0 <= v.value <= 600000.0 }

  predicate UnderTenMinutes(v: Number) { v.Some? && 0.0 <= v.value < 600000.0 }

  function EventOps(s: State, body: Body, route: string, now: int, p: Place): seq<WindowOp> {
    var v := Sent(s, body, route, p);
    if v.Some? then [Push(v.value, now)] else []
  }

  function ItemsOps(s: State, items: seq<Item>, now: int, p: Place): seq<WindowOp> {
    if items == [] then []
    else
      var n := |items| - 1;
      ItemsOps(s, items[..n], now, p) + EventOps(AddItems(s, items[..n], now), items[n].body, items[n].route, now, p)
  }

  /** A prune reaches every window but those of the views. */
  function PruneOps(cutoff: int, p: Place): seq<WindowOp> {
    if p.ViewAt? then [] else [Prune(cutoff)]
  }

  function IngestOps(s: State, b: Beacon, now: int, retentionMs: int, p: Place): seq<WindowOp> {
    ItemsOps(NoteVisitor(s, b, now), Items(b), now, p)
      + if PruneDue(AfterItems(s, b, now), now) then PruneOps(now - retentionMs, p) else []
  }

  function CallOps(s: State, call: Call, retentionMs: int, p: Place): seq<WindowOp> {
    match call
    case PruneAll(now) => PruneOps(now - retentionMs, p)
    case Ingest(beacon, now) => if beacon.None? then [] else IngestOps(s, beacon.value, now, retentionMs, p)
  }

  /** All that ever happened to the window at p. */
  function History(start: int, calls: seq<Call>, retentionMs: int, p: Place): seq<WindowOp> {
    if calls == [] then []
    else
      var n := |calls| - 1;
      History(start, calls[..n], retentionMs, p) + CallOps(After(start, calls[..n], retentionMs), calls[n], retentionMs, p)
  }

  lemma RunSnoc(h: seq<WindowOp>, op: WindowOp)
    ensures Run(h + [op]) == Apply(Run(h), op)
  {
    assert (h + [op])[..|h|] == h;
  }

  // ----- One event -----

  function Received(w: Window, v: Number, now: int): Window {
    if v.Some? then PushTo(w, v.value, now) else w
  }

  function Rank(k: Phase): (n: nat)
    ensures n < |NAV_PHASES| && NAV_PHASES[n] == k
  {
    match k
    case Dns => 0
    case Connect => 1
    case Tls => 2
    case Ttfb => 3
    case Download => 4
    case DomInteractive => 5
    case DomContentLoaded => 6
    case Load => 7
  }

  lemma RankOf(n: nat)
    requires n < |NAV_PHASES|
    ensures Rank(NAV_PHASES[n]) == n
  {
    assert n == 0 || n == 1 || n == 2 || n == 3 || n == 4 || n == 5 || n == 6 || n == 7;
  }

  /** The target stays the same while one event's phases are pushed. */
  lemma {:induction false} TargetKept(b: Buckets<Phase>, route: string, phases: map<Phase, Number>, n: nat, now: int)
    requires n <= |NAV_PHASES|
    ensures Target(PushPhases(b, route, phases, n, now), route) == Target(b, route)
  {
    if n > 0 {
      var phase := NAV_PHASES[n - 1];
      var before := PushPhases(b, route, phases, n - 1, now);
      TargetKept(b, route, phases, n - 1, now);
      if phase in phases && InRange(phases[phase], true) {
        TargetAfterPush(before, route, phase, phases[phase].value, now);
      }
    }
  }

  lemma TargetAfterPush<K>(b: Buckets<K>, route: string, key: K, v: real, now: int)
    ensures Target(PushBucket(b, route, key, v, now), route) == Target(b, route)
  {
    var c := PushBucket(b, route, key, v, now);
    PushBucketEffect(b, route, key, v, now);
    assert route in c <==> route in b || Target(b, route) == route;
    assert route !in b && |b| >= MAX_ROUTES ==> |c| >= MAX_ROUTES by {
      SubsetSize(b.Keys, c.Keys);
    }
  }

  lemma WindowAfterPush<K>(b: Buckets<K>, route: string, key: K, v: real, now: int, r: string, k: K)
    ensures WindowAt(PushBucket(b, route, key, v, now), r, k)
      == Received(WindowAt(b, r, k), if r == Target(b, route) && k == key then Some(v) else None, now)
  {
    PushBucketEffect(b, route, key, v, now);
  }

  /** What the n-th turn of the phase loop sends to the window of (r, k). */
  function TurnSent(b: Buckets<Phase>, route: string, phases: map<Phase, Number>, n: nat, r: string, k: Phase): Number
    requires 0 < n <= |NAV_PHASES|
  {
    if NAV_PHASES[n - 1] == k && k in phases && InRange(phases[k], true) && Target(b, route) == r then phases[k] else None
  }

  lemma PhaseStep(b: Buckets<Phase>, route: string, phases: map<Phase, Number>, n: nat, now: int, r: string, k: Phase)
    requires 0 < n <= |NAV_PHASES|
    ensures WindowAt(PushPhases(b, route, phases, n, now), r, k)
      == Received(WindowAt(PushPhases(b, route, phases, n - 1, now), r, k), TurnSent(b, route, phases, n, r, k), now)
  {
    var before, phase := PushPhases(b, route, phases, n - 1, now), NAV_PHASES[n - 1];
    TargetKept(b, route, phases, n - 1, now);
    PhaseWindow(before, route, phases, phase, now, r, k);
  }

  lemma PhaseWindow(before: Buckets<Phase>, route: string, phases: map<Phase, Number>, phase: Phase, now: int, r: string, k: Phase)
    ensures var accepted := phase in phases && InRange(phases[phase], true);
      WindowAt(if accepted then PushBucket(before, route, phase, phases[phase].value, now) else before, r, k)
        == Received(WindowAt(before, r, k), if accepted && phase == k && Target(before, route) == r then phases[k] else None, now)
  {
    if phase in phases && InRange(phases[phase], true) {
      WindowAfterPush(before, route, phase, phases[phase].value, now, r, k);
    }
  }

  /** What the first n turns of the phase loop send to the window of (r, k). */
  function TurnsSent(b: Buckets<Phase>, route: string, phases: map<Phase, Number>, n: nat, r: string, k: Phase): Number {
    if Rank(k) < n && k in phases && InRange(phases[k], true) && Target(b, route) == r then phases[k] else None
  }

  lemma TurnsStep(b: Buckets<Phase>, route: string, phases: map<Phase, Number>, n: nat, r: string, k: Phase)
    requires 0 < n <= |NAV_PHASES|
    ensures var before, turn := TurnsSent(b, route, phases, n - 1, r, k), TurnSent(b, route, phases, n, r, k);
      && TurnsSent(b, route, phases, n, r, k) == (if turn.Some? then turn else before)
      && (turn.Some? ==> before.None?)
  {
    RankOf(n - 1);
  }

  /** The loop over the phases pushes each phase's value once, to one route. */
  lemma {:induction false} PhasesWindow(b: Buckets<Phase>, route: string, phases: map<Phase, Number>, n: nat, now: int,
      r: string, k: Phase)
    requires n <= |NAV_PHASES|
    ensures WindowAt(PushPhases(b, route, phases, n, now), r, k)
      == Received(WindowAt(b, r, k), TurnsSent(b, route, phases, n, r, k), now)
  {
    if n > 0 {
      PhasesWindow(b, route, phases, n - 1, now, r, k);
      PhaseStep(b, route, phases, n, now, r, k);
      TurnsStep(b, route, phases, n, r, k);
    }
  }

  lemma NavWindow(b: Buckets<Phase>, body: Body, route: string, now: int, r: string, k: Phase)
    ensures WindowAt(NavAfter(b, body, route, now), r, k)
      == Received(WindowAt(b, r, k),
        if body.Nav? && k in body.phases && InRange(body.phases[k], true) && Target(b, route) == r then body.phases[k] else None, now)
  {
    if body.Nav? {
      PhasesWindow(b, route, body.phases, |NAV_PHASES|, now, r, k);
    }
  }

  lemma VitalWindow(b: Buckets<Metric>, body: Body, route: string, now: int, r: string, k: Metric)
    ensures WindowAt(VitalsAfter(b, body, route, now), r, k)
      == Received(WindowAt(b, r, k),
        if body.Vital? && body.metric == Some(k) && InRange(body.value, false) && Target(b, route) == r then body.value else None, now)
  {
    if body.Vital? && body.metric.Some? && InRange(body.value, false) {
      PushBucketEffect(b, route, body.metric.value, body.value.value, now);
    }
  }

  /** An event pushes what it sends, and touches no other window. */
  lemma EventWindow(s: State, body: Body, route: string, now: int, p: Place)
    ensures WindowOf(AddEvent(s, body, route, now), p) == Received(WindowOf(s, p), Sent(s, body, route, p), now)
  {
    match p
    case VitalAt(r, k) => VitalWindow(s.vitals, body, route, now, r, k);
    case NavAt(r, k) => NavWindow(s.nav, body, route, now, r, k);
    case ResourceAt(_) =>
    case ViewAt(_) =>
  }

  lemma PrunedWindow(s: State, now: int, retentionMs: int, p: Place)
    ensures WindowOf(PruneState(s, now, retentionMs), p)
      == if p.ViewAt? then WindowOf(s, p) else KeepFrom(WindowOf(s, p), now - retentionMs)
  {
    PruneBucketsWindow(s.vitals, now - retentionMs);
    PruneBucketsWindow(s.nav, now - retentionMs);
  }

  // ----- When nothing is stale -----

  /** The event is accepted and leaves something stamped with its time, other than a view's duration. */
  predicate Stamps(s: State, body: Body, route: string) {
    match body
    case Nav(phases) => exists k :: k in phases && InRange(phases[k], true)
    case View(_, _) => false
    case _ => Counts(s, body, route)
  }

  predicate ItemsStamp(s: State, items: seq<Item>, now: int) {
    items != [] &&
    var n := |items| - 1;
    ItemsStamp(s, items[..n], now) || Stamps(AddItems(s, items[..n], now), items[n].body, items[n].route)
  }

  predicate NamesSession(b: Beacon) {
    b.session.Some? && ValidSession(b.session.value)
  }

  predicate LeavesStamp(s: State, b: Beacon, now: int) {
    NamesSession(b) || ItemsStamp(NoteVisitor(s, b, now), Items(b), now)
  }

  /** The call is a beacon from before the cutoff of the last prune that leaves a stamp and does not prune. */
  predicate LeavesStale(s: State, call: Call, retentionMs: int) {
    && call.Ingest? && call.beacon.Some?
    && call.now < s.lastPrune - retentionMs && !PruneDue(s, call.now)
    && LeavesStamp(s, call.beacon.value, call.now)
  }

  predicate EndsAt(w: Window, now: int) {
    w != [] && w[|w| - 1].t == now
  }

  ghost predicate StampedWindow(s: State, now: int) {
    exists p: Place :: !p.ViewAt? && EndsAt(WindowOf(s, p), now)
  }

  ghost predicate StampedEntry(s: State, now: int) {
    (exists k :: k in s.sessions && s.sessions[k] == now) || (exists k :: k in s.errors && s.errors[k].last == now)
  }

  lemma ReceivedEnds(w: Window, v: Number, now: int)
    ensures EndsAt(w, now) || v.Some? ==> EndsAt(Received(w, v, now), now)
  {
  }

  lemma ErrorStamps(s: State, body: Body, route: string, now: int)
    requires body.Error? && Counts(s, body, route)
    ensures StampedEntry(AddEvent(s, body, route, now), now)
  {
    var es := ErrorsAfter(s.errors, body, route, now);
    assert es[body.text.value.signature].last == now;
  }

  /** The window, other than a view's, to which an event sends a sample. */
  lemma StampedPlace(s: State, body: Body, route: string) returns (p: Place)
    requires Stamps(s, body, route) && !body.Error?
    ensures !p.ViewAt? && Sent(s, body, route, p).Some?
  {
    match body
    case Vital(metric, _) => p := VitalAt(Target(s.vitals, route), metric.value);
    case Nav(phases) =>
      var k :| k in phases && InRange(phases[k], true);
      p := NavAt(Target(s.nav, route), k);
    case Resource(key, _, _) => p := ResourceAt(key.value);
  }

  lemma EventStamps(s: State, body: Body, route: string, now: int)
    requires Stamps(s, body, route)
    ensures var t := AddEvent(s, body, route, now); StampedWindow(t, now) || StampedEntry(t, now)
  {
    if body.Error? {
      ErrorStamps(s, body, route, now);
    } else {
      var p := StampedPlace(s, body, route);
      SentStamps(s, body, route, now, p);
    }
  }

  lemma SentStamps(s: State, body: Body, route: string, now: int, p: Place)
    requires !p.ViewAt? && Sent(s, body, route, p).Some?
    ensures StampedWindow(AddEvent(s, body, route, now), now)
  {
    EventWindow(s, body, route, now, p);
    ReceivedEnds(WindowOf(s, p), Sent(s, body, route, p), now);
  }

  /** What is stamped with the time of a beacon stays so while its events are added. */
  lemma StampsStay(s: State, body: Body, route: string, now: int)
    requires StampedWindow(s, now) || StampedEntry(s, now)
    ensures var t := AddEvent(s, body, route, now); StampedWindow(t, now) || StampedEntry(t, now)
  {
    var t := AddEvent(s, body, route, now);
    if StampedWindow(s, now) {
      var p: Place :| !p.ViewAt? && EndsAt(WindowOf(s, p), now);
      EventWindow(s, body, route, now, p);
      ReceivedEnds(WindowOf(s, p), Sent(s, body, route, p), now);
    } else if k :| k in s.errors && s.errors[k].last == now {
      assert k in t.errors && t.errors[k].last == now;
    }
  }

  lemma {:induction false} NoPhase(b: Buckets<Phase>, route: string, phases: map<Phase, Number>, n: nat, now: int)
    requires n <= |NAV_PHASES| && !exists k :: k in phases && InRange(phases[k], true)
    ensures PushPhases(b, route, phases, n, now) == b
  {
    if n > 0 {
      NoPhase(b, route, phases, n - 1, now);
    }
  }

  lemma UnstampedFresh(s: State, body: Body, route: string, now: int, from: int)
    requires Fresh(s, from) && !Stamps(s, body, route)
    ensures Fresh(AddEvent(s, body, route, now), from)
  {
    if body.Nav? {
      NoPhase(s.nav, route, body.phases, |NAV_PHASES|, now);
    }
    AssembleFresh(AddEvent(s, body, route, now), s.vitals, s.nav, s.resources, s.sessions, s.errors, from);
  }

  lemma {:induction false} ItemsFreshIff(s: State, items: seq<Item>, now: int, from: int)
    ensures var t := AddItems(s, items, now);
      && (StampedEntry(s, now) || ItemsStamp(s, items, now) ==> StampedWindow(t, now) || StampedEntry(t, now))
      && (Fresh(s, from) && !ItemsStamp(s, items, now) ==> Fresh(t, from))
  {
    if items != [] {
      var n := |items| - 1;
      var before := AddItems(s, items[..n], now);
      ItemsFreshIff(s, items[..n], now, from);
      if StampedWindow(before, now) || StampedEntry(before, now) {
        StampsStay(before, items[n].body, items[n].route, now);
      } else if Stamps(before, items[n].body, items[n].route) {
        EventStamps(before, items[n].body, items[n].route, now);
      }
      if Fresh(before, from) && !Stamps(before, items[n].body, items[n].route) {
        UnstampedFresh(before, items[n].body, items[n].route, now, from);
      }
    }
  }

  lemma StampedStale(s: State, now: int, from: int)
    requires now < from && (StampedWindow(s, now) || StampedEntry(s, now))
    ensures !Fresh(s, from)
  {
    if StampedWindow(s, now) {
      var p: Place :| !p.ViewAt? && EndsAt(WindowOf(s, p), now);
      var w := WindowOf(s, p);
      assert w[|w| - 1] in w;
      assert !FreshWindow(w, from);
    }
  }

  lemma StampedBeacon(s: State, b: Beacon, now: int, from: int)
    requires now < from && LeavesStamp(s, b, now)
    ensures !Fresh(AfterItems(s, b, now), from)
  {
    var noted := NoteVisitor(s, b, now);
    if NamesSession(b) {
      assert b.session.value in noted.sessions && noted.sessions[b.session.value] == now;
    }
    ItemsFreshIff(noted, Items(b), now, from);
    StampedStale(AfterItems(s, b, now), now, from);
  }

  lemma UnstampedBeacon(s: State, b: Beacon, now: int, from: int)
    requires Fresh(s, from) && !LeavesStamp(s, b, now)
    ensures Fresh(AfterItems(s, b, now), from)
  {
    var noted := NoteVisitor(s, b, now);
    NoteVisitorKeeps(s, b, now);
    AssembleFresh(noted, s.vitals, s.nav, s.resources, s.sessions, s.errors, from);
    ItemsFreshIff(noted, Items(b), now, from);
  }

  /** A beacon that does not prune keeps everything from `from` on exactly when it is from then on itself or leaves no stamp. */
  lemma BeaconFreshIff(s: State, b: Beacon, now: int, from: int)
    requires Fresh(s, from)
    ensures Fresh(AfterItems(s, b, now), from) <==> now >= from || !LeavesStamp(s, b, now)
  {
    if now >= from {
      NoteVisitorFresh(s, b, now, from);
      AddItemsFresh(NoteVisitor(s, b, now), Items(b), now, from);
    } else if LeavesStamp(s, b, now) {
      StampedBeacon(s, b, now, from);
    } else {
      UnstampedBeacon(s, b, now, from);
    }
  }

  ghost predicate FreshSincePrune(s: State, retentionMs: int) {
    Fresh(s, s.lastPrune - retentionMs)
  }

  lemma AfterItemsLastPrune(s: State, b: Beacon, now: int)
    ensures AfterItems(s, b, now).lastPrune == s.lastPrune
  {
    NoteVisitorKeeps(s, b, now);
    AddItemsLastPrune(NoteVisitor(s, b, now), Items(b), now);
  }

  /** A call keeps everything younger than the retention, counted from the last prune, exactly when it leaves nothing stale. */
  lemma StepFreshIff(s: State, call: Call, retentionMs: int)
    requires FreshSincePrune(s, retentionMs)
    ensures FreshSincePrune(Step(s, call, retentionMs), retentionMs) <==> !LeavesStale(s, call, retentionMs)
  {
    match call
    case PruneAll(now) => PruneFresh(s, now, retentionMs);
    case Ingest(beacon, now) =>
      if beacon.Some? {
        AfterItemsLastPrune(s, beacon.value, now);
        if PruneDue(s, now) {
          PruneFresh(AfterItems(s, beacon.value, now), now, retentionMs);
        } else {
          BeaconFreshIff(s, beacon.value, now, s.lastPrune - retentionMs);
        }
      }
  }

  /** No call of the run leaves anything stale. */
  ghost predicate NoneStale(start: int, calls: seq<Call>, retentionMs: int) {
    forall i :: 0 <= i < |calls| ==> !LeavesStale(After(start, calls[..i], retentionMs), calls[i], retentionMs)
  }

  lemma AfterPrefix(start: int, calls: seq<Call>, retentionMs: int, i: nat)
    requires i < |calls|
    ensures After(start, calls[..i + 1], retentionMs) == Step(After(start, calls[..i], retentionMs), calls[i], retentionMs)
  {
    assert calls[..i + 1][..i] == calls[..i];
  }

  lemma {:induction false} FreshPrefix(start: int, calls: seq<Call>, retentionMs: int, k: nat)
    requires NoneStale(start, calls, retentionMs) && k <= |calls|
    ensures FreshSincePrune(After(start, calls[..k], retentionMs), retentionMs)
  {
    if k > 0 {
      FreshPrefix(start, calls, retentionMs, k - 1);
      AfterPrefix(start, calls, retentionMs, k - 1);
      StepFreshIff(After(start, calls[..k - 1], retentionMs), calls[k - 1], retentionMs);
    }
  }

  /** Nothing is ever older than the retention counted from the last prune, exactly when no call leaves anything stale. */
  lemma AlwaysFreshIff(start: int, calls: seq<Call>, retentionMs: int)
    ensures (forall k :: 0 <= k <= |calls| ==> FreshSincePrune(After(start, calls[..k], retentionMs), retentionMs))
      <==> NoneStale(start, calls, retentionMs)
  {
    if NoneStale(start, calls, retentionMs) {
      forall k | 0 <= k <= |calls| ensures FreshSincePrune(After(start, calls[..k], retentionMs), retentionMs) {
        FreshPrefix(start, calls, retentionMs, k);
      }
    } else {
      var i :| 0 <= i < |calls| && LeavesStale(After(start, calls[..i], retentionMs), calls[i], retentionMs);
      AfterPrefix(start, calls, retentionMs, i);
      if FreshSincePrune(After(start, calls[..i], retentionMs), retentionMs) {
        StepFreshIff(After(start, calls[..i], retentionMs), calls[i], retentionMs);
      }
    }
  }

  /** The last prune was made at the start or by one of the calls. */
  lemma {:induction false} LastPruneMade(start: int, calls: seq<Call>, retentionMs: int)
    ensures var t := After(start, calls, retentionMs).lastPrune;
      t == start || exists i :: 0 <= i < |calls| && calls[i].now == t
  {
    if calls != [] {
      var n := |calls| - 1;
      LastPruneMade(start, calls[..n], retentionMs);
      StepLastPrune(After(start, calls[..n], retentionMs), calls[n], retentionMs);
      var t := After(start, calls[..n], retentionMs).lastPrune;
      if i :| 0 <= i < n && calls[..n][i].now == t {
        assert calls[i].now == t;
      }
    }
  }

  /** A nondecreasing clock and a retention that is not negative leave nothing stale. */
  lemma TimelyNoneStale(start: int, calls: seq<Call>, retentionMs: int)
    requires retentionMs >= 0 && Timely(start, calls)
    ensures NoneStale(start, calls, retentionMs)
  {
    forall i | 0 <= i < |calls| ensures !LeavesStale(After(start, calls[..i], retentionMs), calls[i], retentionMs) {
      LastPruneMade(start, calls[..i], retentionMs);
      var t := After(start, calls[..i], retentionMs).lastPrune;
      if j :| 0 <= j < i && calls[..i][j].now == t {
        assert calls[j].now <= calls[i].now;
      }
    }
  }

  lemma PrunedLately(s: State, call: Call, retentionMs: int)
    requires call.Ingest? && call.beacon.Some?
    ensures call.now - Step(s, call, retentionMs).lastPrune <= PRUNE_INTERVAL_MS
  {
    AfterItemsLastPrune(s, call.beacon.value, call.now);
  }

  /** Pruning is lazy, yet right after a well-formed ingest nothing is more than a minute past its retention. */
  lemma NothingStaleAfterIngest(start: int, calls: seq<Call>, retentionMs: int)
    requires NoneStale(start, calls, retentionMs)
    requires calls != [] && calls[|calls| - 1].Ingest? && calls[|calls| - 1].beacon.Some?
    ensures Fresh(After(start, calls, retentionMs), calls[|calls| - 1].now - retentionMs - 60000)
  {
    var n := |calls| - 1;
    FreshPrefix(start, calls, retentionMs, n + 1);
    assert calls[..n + 1] == calls;
    PrunedLately(After(start, calls[..n], retentionMs), calls[n], retentionMs);
    var s := After(start, calls, retentionMs);
    FreshWeaker(s, s.lastPrune - retentionMs, calls[n].now - retentionMs - PRUNE_INTERVAL_MS);
  }

  /** A beacon that names a session, at a time to which the clock has stepped back. */
  function SteppedBack(start: int, retentionMs: int): Call {
    Ingest(Some(Beacon(Desktop, Some("abcd"), None, [])), start - retentionMs - 1)
  }

  lemma SteppedBackIsStale(start: int, retentionMs: int)
    requires retentionMs >= 0
    ensures !FreshSincePrune(Step(EmptyState(start), SteppedBack(start, retentionMs), retentionMs), retentionMs)
  {
    var call := SteppedBack(start, retentionMs);
    assert NamesSession(call.beacon.value);
    StepFreshIff(EmptyState(start), call, retentionMs);
  }

  // ----- Many events -----

  lemma EventRun(s: State, body: Body, route: string, now: int, p: Place, h: seq<WindowOp>)
    requires WindowOf(s, p) == Run(h)
    ensures WindowOf(AddEvent(s, body, route, now), p) == Run(h + EventOps(s, body, route, now, p))
  {
    EventWindow(s, body, route, now, p);
    var v := Sent(s, body, route, p);
    if v.Some? {
      RunSnoc(h, Push(v.value, now));
    } else {
      assert h + [] == h;
    }
  }

  lemma {:induction false} ItemsRun(s: State, items: seq<Item>, now: int, p: Place, h: seq<WindowOp>)
    requires WindowOf(s, p) == Run(h)
    ensures WindowOf(AddItems(s, items, now), p) == Run(h + ItemsOps(s, items, now, p))
  {
    if items == [] {
      assert h + [] == h;
    } else {
      var n := |items| - 1;
      ItemsRun(s, items[..n], now, p, h);
      var before := AddItems(s, items[..n], now);
      var more := ItemsOps(s, items[..n], now, p);
      EventRun(before, items[n].body, items[n].route, now, p, h + more);
      ConcatAssoc(h, more, EventOps(before, items[n].body, items[n].route, now, p));
    }
  }

  lemma PruneRun(s: State, now: int, retentionMs: int, p: Place, h: seq<WindowOp>)
    requires WindowOf(s, p) == Run(h)
    ensures WindowOf(PruneState(s, now, retentionMs), p) == Run(h + PruneOps(now - retentionMs, p))
  {
    PrunedWindow(s, now, retentionMs, p);
    if p.ViewAt? {
      assert h + [] == h;
    } else {
      RunSnoc(h, Prune(now - retentionMs));
    }
  }

  lemma ItemsThenPrune(noted: State, items: seq<Item>, now: int, retentionMs: int, p: Place, h: seq<WindowOp>)
    requires WindowOf(noted, p) == Run(h)
    ensures var t, ops := AddItems(noted, items, now), ItemsOps(noted, items, now, p);
      && WindowOf(t, p) == Run(h + (ops + []))
      && WindowOf(PruneState(t, now, retentionMs), p) == Run(h + (ops + PruneOps(now - retentionMs, p)))
  {
    var t, ops := AddItems(noted, items, now), ItemsOps(noted, items, now, p);
    ItemsRun(noted, items, now, p, h);
    PruneRun(t, now, retentionMs, p, h + ops);
    ConcatAssoc(h, ops, PruneOps(now - retentionMs, p));
    assert ops + [] == ops;
  }

  lemma IngestRun(s: State, b: Beacon, now: int, retentionMs: int, p: Place, h: seq<WindowOp>)
    requires WindowOf(s, p) == Run(h)
    ensures WindowOf(IngestBeacon(s, b, now, retentionMs), p) == Run(h + IngestOps(s, b, now, retentionMs, p))
  {
    NoteVisitorKeeps(s, b, now);
    assert WindowOf(NoteVisitor(s, b, now), p) == WindowOf(s, p);
    ItemsThenPrune(NoteVisitor(s, b, now), Items(b), now, retentionMs, p, h);
  }

  lemma CallRun(s: State, call: Call, retentionMs: int, p: Place, h: seq<WindowOp>)
    requires WindowOf(s, p) == Run(h)
    ensures WindowOf(Step(s, call, retentionMs), p) == Run(h + CallOps(s, call, retentionMs, p))
  {
    match call
    case PruneAll(now) => PruneRun(s, now, retentionMs, p, h);
    case Ingest(beacon, now) =>
      if beacon.Some? {
        IngestRun(s, beacon.value, now, retentionMs, p, h);
      } else {
        NoOps(h);
      }
  }

  lemma NoOps(h: seq<WindowOp>)
    ensures h + [] == h
  {
  }

  // ----- Many calls -----

  lemma {:induction false} ItemsOpsStamps(s: State, items: seq<Item>, now: int, p: Place)
    ensures forall op :: op in ItemsOps(s, items, now, p) ==> op.Push? && op.t == now
  {
    if items != [] {
      ItemsOpsStamps(s, items[..|items| - 1], now, p);
    }
  }

  lemma CallOpsStamps(s: State, call: Call, retentionMs: int, p: Place)
    requires retentionMs >= 0 || p.ViewAt?
    ensures var ops := CallOps(s, call, retentionMs, p);
      && WellTimed(ops)
      && (forall op :: op in ops ==> Stamp(op) <= call.now)
      && (forall op :: op in ops && op.Push? ==> Stamp(op) == call.now)
  {
    if call.Ingest? && call.beacon.Some? {
      var b := call.beacon.value;
      ItemsOpsStamps(NoteVisitor(s, b, call.now), Items(b), call.now, p);
    }
  }

  lemma WellTimedConcat(a: seq<WindowOp>, b: seq<WindowOp>, now: int)
    requires WellTimed(a) && WellTimed(b)
    requires forall op :: op in a ==> Stamp(op) <= now
    requires forall op :: op in b && op.Push? ==> Stamp(op) == now
    ensures WellTimed(a + b)
  {
    var c := a + b;
    forall i, j | 0 <= i < j < |c| && c[j].Push?
      ensures Stamp(c[i]) <= Stamp(c[j])
    {
      if j < |a| {
        assert Stamp(a[i]) <= Stamp(a[j]);
      } else if i >= |a| {
        assert Stamp(b[i - |a|]) <= Stamp(b[j - |a|]);
      } else {
        assert c[i] in a && c[j] in b;
      }
    }
  }

  /** In any run, at any clock, each window is the run of its own history. */
  lemma {:induction false} WindowIsRun(start: int, calls: seq<Call>, retentionMs: int, p: Place)
    ensures WindowOf(After(start, calls, retentionMs), p) == Run(History(start, calls, retentionMs, p))
  {
    if calls != [] {
      var n := |calls| - 1;
      WindowIsRun(start, calls[..n], retentionMs, p);
      CallRun(After(start, calls[..n], retentionMs), calls[n], retentionMs, p, History(start, calls[..n], retentionMs, p));
    }
  }

  lemma {:induction false} HistoryWellTimed(start: int, calls: seq<Call>, retentionMs: int, p: Place)
    requires Timely(start, calls) && (retentionMs >= 0 || p.ViewAt?)
    ensures var h := History(start, calls, retentionMs, p);
      WellTimed(h) && forall op :: op in h ==> calls != [] && Stamp(op) <= calls[|calls| - 1].now
  {
    if calls != [] {
      var n := |calls| - 1;
      var init := calls[..n];
      HistoryWellTimed(start, init, retentionMs, p);
      assert init != [] ==> init[n - 1] == calls[n - 1];
      var s := After(start, init, retentionMs);
      CallOpsStamps(s, calls[n], retentionMs, p);
      WellTimedConcat(History(start, init, retentionMs, p), CallOps(s, calls[n], retentionMs, p), calls[n].now);
    }
  }

  /**
   * In any reachable state of the aggregator a window whose history is undisturbed is the last
   * 2000 of all samples ever sent to it that the largest prune cutoff keeps.
   */
  lemma WindowsRefine(start: int, calls: seq<Call>, retentionMs: int, p: Place)
    requires Undisturbed(History(start, calls, retentionMs, p))
    ensures var h := History(start, calls, retentionMs, p);
      WindowOf(After(start, calls, retentionMs), p) == Last(Retained(Pushed(h), LargestCutoff(h)), 2000)
  {
    WindowIsRun(start, calls, retentionMs, p);
    UndisturbedRefined(History(start, calls, retentionMs, p));
  }

  /** Under a nondecreasing clock and a retention that is not negative every history is undisturbed. */
  lemma TimelyUndisturbed(start: int, calls: seq<Call>, retentionMs: int, p: Place)
    requires retentionMs >= 0 && Timely(start, calls)
    ensures Undisturbed(History(start, calls, retentionMs, p))
  {
    HistoryWellTimed(start, calls, retentionMs, p);
    WellTimedUndisturbed(History(start, calls, retentionMs, p));
  }

  // ----- View durations -----

  lemma {:induction false} ViewHistoryPushes(start: int, calls: seq<Call>, retentionMs: int, r: string)
    ensures forall op :: op in History(start, calls, retentionMs, ViewAt(r)) ==> op.Push?
  {
    if calls != [] {
      var n := |calls| - 1;
      ViewHistoryPushes(start, calls[..n], retentionMs, r);
      ViewCallPushes(After(start, calls[..n], retentionMs), calls[n], retentionMs, r);
    }
  }

  lemma ViewCallPushes(s: State, call: Call, retentionMs: int, r: string)
    ensures forall op :: op in CallOps(s, call, retentionMs, ViewAt(r)) ==> op.Push?
  {
    if call.Ingest? && call.beacon.Some? {
      ItemsOpsStamps(NoteVisitor(s, call.beacon.value, call.now), Items(call.beacon.value), call.now, ViewAt(r));
    }
  }

  /** View durations are never pruned, at any clock: their window is simply the last samples ever sent to it. */
  lemma ViewDurationsNeverPruned(start: int, calls: seq<Call>, retentionMs: int, r: string)
    ensures WindowOf(After(start, calls, retentionMs), ViewAt(r))
      == Last(Pushed(History(start, calls, retentionMs, ViewAt(r))), 2000)
  {
    WindowIsRun(start, calls, retentionMs, ViewAt(r));
    ViewHistoryPushes(start, calls, retentionMs, r);
    PushesOnly(History(start, calls, retentionMs, ViewAt(r)));
  }

  /** Under a nondecreasing clock a route's durations are all recent exactly when the oldest that the cap has left is. */
  lemma ViewsFreshIff(start: int, calls: seq<Call>, retentionMs: int, r: string, from: int)
    requires Timely(start, calls)
    ensures var sent := Pushed(History(start, calls, retentionMs, ViewAt(r)));
      FreshWindow(WindowOf(After(start, calls, retentionMs), ViewAt(r)), from) <==> sent == [] || sent[CapPoint(sent)].t >= from
  {
    ViewDurationsNeverPruned(start, calls, retentionMs, r);
    HistoryWellTimed(start, calls, retentionMs, ViewAt(r));
    PushedFacts(History(start, calls, retentionMs, ViewAt(r)));
    LastFresh(Pushed(History(start, calls, retentionMs, ViewAt(r))), from);
  }

  lemma LastFresh(s: seq<Sample>, from: int)
    requires Chronological(s)
    ensures FreshWindow(Last(s, MAX_SAMPLES_PER_KEY), from) <==> s == [] || s[CapPoint(s)].t >= from
  {
    var d := CapPoint(s);
    var w := Last(s, MAX_SAMPLES_PER_KEY);
    assert w == s[d..];
    if s != [] {
      assert w[0] == s[d] && w[0] in w;
    }
  }

  function ViewBeacon(d: real): Beacon {
    Beacon(Desktop, None, None, [Event(None, View(true, Some(d)))])
  }

  function EmptyBeacon(now: int): Call {
    Ingest(Some(Beacon(Desktop, None, None, [])), now)
  }

  /** A view that lasted d, at the start, and an empty beacon when its duration is past the retention. */
  function ViewThenPrune(start: int, d: real, retentionMs: int): seq<Call> {
    [Ingest(Some(ViewBeacon(d)), start), EmptyBeacon(start + retentionMs + PRUNE_INTERVAL_MS + 1)]
  }

  lemma AfterTwo(start: int, a: Call, b: Call, retentionMs: int)
    ensures After(start, [a, b], retentionMs) == Step(Step(EmptyState(start), a, retentionMs), b, retentionMs)
  {
    assert [a, b][..1] == [a] && [a][..0] == [];
    assert After(start, [a], retentionMs) == Step(After(start, [], retentionMs), a, retentionMs);
  }

  function ViewPlace(d: real): Place {
    ViewAt(ItemOf(ViewBeacon(d), ViewBeacon(d).events[0]).route)
  }

  lemma FirstView(start: int, d: real, retentionMs: int)
    requires InRange(Some(d), true)
    ensures var s := Step(EmptyState(start), Ingest(Some(ViewBeacon(d)), start), retentionMs);
      s.lastPrune == start && WindowOf(s, ViewPlace(d)) == [Sample(start, d)]
  {
    var b := ViewBeacon(d);
    var item := ItemOf(b, b.events[0]);
    var noted := NoteVisitor(EmptyState(start), b, start);
    assert Items(b) == [item] && [item][..0] == [];
    assert AddItems(noted, [item], start) == AddEvent(noted, item.body, item.route, start);
    EventWindow(noted, item.body, item.route, start, ViewPlace(d));
  }

  lemma EmptyBeaconPrunes(s: State, now: int, retentionMs: int, p: Place)
    requires PruneDue(s, now) && p.ViewAt?
    ensures var t := Step(s, EmptyBeacon(now), retentionMs);
      t.lastPrune == now && WindowOf(t, p) == WindowOf(s, p)
  {
    var b := EmptyBeacon(now).beacon.value;
    NoteVisitorKeeps(s, b, now);
    assert Items(b) == [];
    PrunedWindow(NoteVisitor(s, b, now), now, retentionMs, p);
  }

  lemma PrunedAfter(start: int, a: Call, now: int, retentionMs: int, p: Place)
    requires p.ViewAt? && PruneDue(Step(EmptyState(start), a, retentionMs), now)
    ensures var s := After(start, [a, EmptyBeacon(now)], retentionMs);
      s.lastPrune == now && WindowOf(s, p) == WindowOf(Step(EmptyState(start), a, retentionMs), p)
  {
    AfterTwo(start, a, EmptyBeacon(now), retentionMs);
    EmptyBeaconPrunes(Step(EmptyState(start), a, retentionMs), now, retentionMs, p);
  }

  lemma ViewThenPruneTimely(start: int, d: real, retentionMs: int)
    requires retentionMs >= 0
    ensures Timely(start, ViewThenPrune(start, d, retentionMs))
  {
  }

  /** The prune takes place and the duration, older than the retention, stays. */
  lemma OldDurationStays(start: int, d: real, retentionMs: int)
    requires retentionMs >= 0 && InRange(Some(d), true)
    ensures Timely(start, ViewThenPrune(start, d, retentionMs))
    ensures var s := After(start, ViewThenPrune(start, d, retentionMs), retentionMs);
      && s.lastPrune == start + retentionMs + 60001
      && WindowOf(s, ViewPlace(d)) == [Sample(start, d)] && !FreshWindow(WindowOf(s, ViewPlace(d)), s.lastPrune - retentionMs)
  {
    var now := start + retentionMs + PRUNE_INTERVAL_MS + 1;
    var a: Call := Ingest(Some(ViewBeacon(d)), start);
    ViewThenPruneTimely(start, d, retentionMs);
    FirstView(start, d, retentionMs);
    PrunedAfter(start, a, now, retentionMs, ViewPlace(d));
    assert ViewThenPrune(start, d, retentionMs) == [a, EmptyBeacon(now)];
    assert Sample(start, d) in [Sample(start, d)];
  }
}
