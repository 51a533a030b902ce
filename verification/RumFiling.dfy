/** Under which route a beacon's events are filed, told from the beacon's own fields. */
module RumFiling {
  import opened Collections
  import opened RollingWindow
  import opened Routes
  import opened RumAggregator
  import opened RumRuns

  /** An event with a route of its own belongs to it, one without to the beacon's route; both are normalised. */
  predicate ResolvesTo(b: Beacon, e: Event, r: string) {
    match e.route
    case Some(own) => NormalizeRoute(Some(own)) == r
    case None => NormalizeRoute(Some(NormalizeRoute(b.route))) == r
  }

  /** No more than 200 events of a beacon are looked at. */
  function Seen(b: Beacon): nat {
    if |b.events| < 200 then |b.events| else 200
  }

  // ----- Views -----

  predicate IsViewOf(b: Beacon, e: Event, r: string) {
    e.body.View? && ResolvesTo(b, e, r)
  }

  /** How many of the first n events are views of r. */
  function ViewEvents(b: Beacon, n: nat, r: string): nat
    requires n <= |b.events|
  {
    if n == 0 then 0 else ViewEvents(b, n - 1, r) + if IsViewOf(b, b.events[n - 1], r) then 1 else 0
  }

  /** And how many of those are marked as the entry to the site. */
  function EntryEvents(b: Beacon, n: nat, r: string): nat
    requires n <= |b.events|
  {
    if n == 0 then 0
    else
      var e := b.events[n - 1];
      EntryEvents(b, n - 1, r) + if IsViewOf(b, e, r) && e.body.entry then 1 else 0
  }

  function ViewsAt(m: map<string, ViewStats>, r: string): (nat, nat) {
    if r in m then (m[r].views, m[r].entries) else (0, 0)
  }

  /** r's counters have grown by its views; a route that is not there has no views, or the table has no room for it. */
  ghost predicate ViewsGrown(m: map<string, ViewStats>, t: map<string, ViewStats>, r: string, views: nat, entries: nat) {
    && (r in t ==> ViewsAt(t, r) == (ViewsAt(m, r).0 + views, ViewsAt(m, r).1 + entries))
    && (r !in t ==> r !in m && (views == 0 || |t| >= 200))
    && (views == 0 ==> entries == 0)
  }

  lemma ViewStep(m: map<string, ViewStats>, t: map<string, ViewStats>, r: string, views: nat, entries: nat, body: Body, route: string, now: int)
    requires ViewsGrown(m, t, r, views, entries)
    ensures ViewsGrown(m, ViewsAfter(t, body, route, now), r,
      views + (if body.View? && route == r then 1 else 0), entries + (if body.View? && route == r && body.entry then 1 else 0))
  {
    if body.View? && HasRoom(t, route, MAX_ROUTES) {
      var v := if route in t then t[route] else ViewStats(0, 0, []);
      PutSize(t, route, ViewAfter(v, body.entry, body.duration, now));
    }
  }

  lemma ItemMeaning(b: Beacon, i: nat)
    requires i < Seen(b)
    ensures i < |Items(b)| && Items(b)[i].body == b.events[i].body
    ensures ResolvesTo(b, b.events[i], Items(b)[i].route)
    ensures forall r :: ResolvesTo(b, b.events[i], r) ==> r == Items(b)[i].route
  {
  }

  lemma ViewsOfItem(m: map<string, ViewStats>, t: State, b: Beacon, i: nat, item: Item, now: int, r: string)
    requires i < Seen(b) && item.body == b.events[i].body && (item.route == r <==> ResolvesTo(b, b.events[i], r))
    requires ViewsGrown(m, t.views, r, ViewEvents(b, i, r), EntryEvents(b, i, r))
    ensures ViewsGrown(m, AddEvent(t, item.body, item.route, now).views, r, ViewEvents(b, i + 1, r), EntryEvents(b, i + 1, r))
  {
    ViewStep(m, t.views, r, ViewEvents(b, i, r), EntryEvents(b, i, r), item.body, item.route, now);
  }

  lemma {:induction false} ViewsOfItems(m: map<string, ViewStats>, s: State, b: Beacon, now: int, n: nat, r: string)
    requires n <= Seen(b) && m == s.views
    ensures n <= |Items(b)|
    ensures ViewsGrown(m, AddItems(s, Items(b)[..n], now).views, r, ViewEvents(b, n, r), EntryEvents(b, n, r))
  {
    if n > 0 {
      var items := Items(b);
      ViewsOfItems(m, s, b, now, n - 1, r);
      ItemsStep(s, items, n - 1, now, AnyBody);
      ItemMeaning(b, n - 1);
      ViewsOfItem(m, AddItems(s, items[..n - 1], now), b, n - 1, items[n - 1], now, r);
    }
  }

  /** An ingest adds to a route's view counters exactly the beacon's view events that resolve to that route. */
  lemma ViewsFiled(s: State, b: Beacon, now: int, retentionMs: int, r: string)
    ensures ViewsGrown(s.views, IngestBeacon(s, b, now, retentionMs).views, r, ViewEvents(b, Seen(b), r), EntryEvents(b, Seen(b), r))
  {
    NoteVisitorKeeps(s, b, now);
    ViewsOfItems(s.views, NoteVisitor(s, b, now), b, now, Seen(b), r);
    assert Items(b)[..Seen(b)] == Items(b);
  }

  // ----- Vitals -----

  /** The event is a value of the vital k for r, from zero to ten minutes. */
  predicate IsVitalOf(b: Beacon, e: Event, r: string, k: Metric) {
    && e.body.Vital? && e.body.metric == Some(k) && e.body.value.Some? && 0.0 <= e.body.value.value <= 600000.0
    && ResolvesTo(b, e, r)
  }

  /** The samples that the first n events make of the vital k for r. */
  function VitalSamples(b: Beacon, n: nat, r: string, k: Metric, now: int): seq<Sample>
    requires n <= |b.events|
  {
    if n == 0 then []
    else
      var e := b.events[n - 1];
      VitalSamples(b, n - 1, r, k, now) + if IsVitalOf(b, e, r, k) then [Sample(now, e.body.value.value)] else []
  }

  /** r's window has received the samples; a route that is not there has none, or the table has no room for it. */
  ghost predicate VitalsGrown(v: Buckets<Metric>, t: Buckets<Metric>, r: string, k: Metric, samples: seq<Sample>) {
    && (r in t ==> WindowAt(t, r, k) == Last(WindowAt(v, r, k) + samples, 2000))
    && (r !in t ==> r !in v && (samples == [] || |t| >= 200))
    && (r in v ==> r in t)
  }

  lemma LastTwice<T>(w: seq<T>, x: T, n: nat)
    requires n > 0
    ensures Last(Last(w, n) + [x], n) == Last(w + [x], n)
  {
  }

  /** The sample, if any, that an event of a resolved route makes for the vital k of r. */
  function VitalSample(body: Body, route: string, r: string, k: Metric, now: int): seq<Sample> {
    if body.Vital? && body.metric == Some(k) && InRange(body.value, false) && route == r then [Sample(now, body.value.value)] else []
  }

  lemma PushGrown(v: Buckets<Metric>, t: Buckets<Metric>, r: string, k: Metric, samples: seq<Sample>, route: string, key: Metric, x: real, now: int)
    requires r != "(other)" && VitalsGrown(v, t, r, k, samples)
    ensures VitalsGrown(v, PushBucket(t, route, key, x, now), r, k, samples + if route == r && key == k then [Sample(now, x)] else [])
  {
    PushBucketEffect(t, route, key, x, now);
    if route == r && key == k {
      LastTwice(WindowAt(v, r, k) + samples, Sample(now, x), 2000);
      ConcatAssoc(WindowAt(v, r, k), samples, [Sample(now, x)]);
    } else {
      assert samples + [] == samples;
    }
    SubsetSize(t.Keys, PushBucket(t, route, key, x, now).Keys);
  }

  lemma VitalStep(v: Buckets<Metric>, t: Buckets<Metric>, r: string, k: Metric, samples: seq<Sample>, body: Body, route: string, now: int)
    requires r != "(other)" && VitalsGrown(v, t, r, k, samples)
    ensures VitalsGrown(v, VitalsAfter(t, body, route, now), r, k, samples + VitalSample(body, route, r, k, now))
  {
    if body.Vital? && body.metric.Some? && InRange(body.value, false) {
      PushGrown(v, t, r, k, samples, route, body.metric.value, body.value.value, now);
    } else {
      assert samples + [] == samples;
    }
  }

  lemma VitalOfItem(v: Buckets<Metric>, t: State, b: Beacon, i: nat, item: Item, now: int, r: string, k: Metric)
    requires i < Seen(b) && item.body == b.events[i].body && (item.route == r <==> ResolvesTo(b, b.events[i], r))
    requires r != "(other)" && |WindowAt(v, r, k)| <= 2000
    requires VitalsGrown(v, t.vitals, r, k, VitalSamples(b, i, r, k, now))
    ensures VitalsGrown(v, AddEvent(t, item.body, item.route, now).vitals, r, k, VitalSamples(b, i + 1, r, k, now))
  {
    VitalStep(v, t.vitals, r, k, VitalSamples(b, i, r, k, now), item.body, item.route, now);
  }

  lemma {:induction false} VitalsOfItems(v: Buckets<Metric>, s: State, b: Beacon, now: int, n: nat, r: string, k: Metric)
    requires n <= Seen(b) && v == s.vitals
    requires r != "(other)" && |WindowAt(v, r, k)| <= 2000
    ensures n <= |Items(b)|
    ensures VitalsGrown(v, AddItems(s, Items(b)[..n], now).vitals, r, k, VitalSamples(b, n, r, k, now))
  {
    if n == 0 {
      assert WindowAt(v, r, k) + [] == WindowAt(v, r, k);
    } else {
      var items := Items(b);
      VitalsOfItems(v, s, b, now, n - 1, r, k);
      ItemsStep(s, items, n - 1, now, AnyBody);
      ItemMeaning(b, n - 1);
      VitalOfItem(v, AddItems(s, items[..n - 1], now), b, n - 1, items[n - 1], now, r, k);
    }
  }

  /**
   * An ingest sends to a route's window of a vital exactly the beacon's values of that vital that resolve
   * to that route, in order and stamped with the time; a prune may follow.
   */
  lemma VitalsFiled(s: State, b: Beacon, now: int, retentionMs: int, r: string, k: Metric)
    requires r != "(other)" && |WindowAt(s.vitals, r, k)| <= 2000
    ensures var t := AfterItems(s, b, now);
      && VitalsGrown(s.vitals, t.vitals, r, k, VitalSamples(b, Seen(b), r, k, now))
      && WindowAt(IngestBeacon(s, b, now, retentionMs).vitals, r, k)
        == if now - s.lastPrune > 60000 then KeepFrom(WindowAt(t.vitals, r, k), now - retentionMs) else WindowAt(t.vitals, r, k)
  {
    NoteVisitorKeeps(s, b, now);
    VitalsOfItems(s.vitals, NoteVisitor(s, b, now), b, now, Seen(b), r, k);
    assert Items(b)[..Seen(b)] == Items(b);
    AfterItemsLastPrune(s, b, now);
    PrunedWindow(AfterItems(s, b, now), now, retentionMs, VitalAt(r, k));
  }

  // ----- Navigation phases -----

  /** The event carries a value of the phase k for r, from zero to under ten minutes. */
  predicate IsPhaseOf(b: Beacon, e: Event, r: string, k: Phase) {
    e.body.Nav? && k in e.body.phases && UnderTenMinutes(e.body.phases[k]) && ResolvesTo(b, e, r)
  }

  function PhaseSamples(b: Beacon, n: nat, r: string, k: Phase, now: int): seq<Sample>
    requires n <= |b.events|
  {
    if n == 0 then []
    else
      var e := b.events[n - 1];
      PhaseSamples(b, n - 1, r, k, now) + if IsPhaseOf(b, e, r, k) then [Sample(now, e.body.phases[k].value)] else []
  }

  ghost predicate PhasesGrown(v: Buckets<Phase>, t: Buckets<Phase>, r: string, k: Phase, samples: seq<Sample>) {
    r in t && WindowAt(t, r, k) == Last(WindowAt(v, r, k) + samples, 2000)
  }

  lemma {:induction false} PhasesKeepRoutes(b: Buckets<Phase>, route: string, phases: map<Phase, Number>, n: nat, now: int)
    requires n <= |NAV_PHASES|
    ensures b.Keys <= PushPhases(b, route, phases, n, now).Keys
  {
    if n > 0 {
      PhasesKeepRoutes(b, route, phases, n - 1, now);
      var phase := NAV_PHASES[n - 1];
      if phase in phases && InRange(phases[phase], true) {
        PushBucketEffect(PushPhases(b, route, phases, n - 1, now), route, phase, phases[phase].value, now);
      }
    }
  }

  lemma KnownTarget<K>(t: Buckets<K>, route: string, r: string)
    requires r in t && r != "(other)"
    ensures Target(t, route) == r <==> route == r
  {
  }

  lemma PhaseStepAt(v: Buckets<Phase>, t: Buckets<Phase>, r: string, k: Phase, samples: seq<Sample>, b: Beacon, e: Event, route: string, now: int)
    requires r != "(other)" && PhasesGrown(v, t, r, k, samples) && (route == r <==> ResolvesTo(b, e, r))
    ensures PhasesGrown(v, NavAfter(t, e.body, route, now), r, k,
      samples + if IsPhaseOf(b, e, r, k) then [Sample(now, e.body.phases[k].value)] else [])
  {
    NavWindow(t, e.body, route, now, r, k);
    KnownTarget(t, route, r);
    if e.body.Nav? {
      PhasesKeepRoutes(t, route, e.body.phases, |NAV_PHASES|, now);
    }
    if IsPhaseOf(b, e, r, k) {
      LastTwice(WindowAt(v, r, k) + samples, Sample(now, e.body.phases[k].value), 2000);
      ConcatAssoc(WindowAt(v, r, k), samples, [Sample(now, e.body.phases[k].value)]);
    } else {
      assert samples + [] == samples;
    }
  }

  lemma PhasesOfItem(v: Buckets<Phase>, t: State, b: Beacon, i: nat, item: Item, now: int, r: string, k: Phase)
    requires i < Seen(b) && item.body == b.events[i].body && (item.route == r <==> ResolvesTo(b, b.events[i], r))
    requires r != "(other)" && PhasesGrown(v, t.nav, r, k, PhaseSamples(b, i, r, k, now))
    ensures PhasesGrown(v, AddEvent(t, item.body, item.route, now).nav, r, k, PhaseSamples(b, i + 1, r, k, now))
  {
    PhaseStepAt(v, t.nav, r, k, PhaseSamples(b, i, r, k, now), b, b.events[i], item.route, now);
  }

  lemma {:induction false} PhasesOfItems(v: Buckets<Phase>, s: State, b: Beacon, now: int, n: nat, r: string, k: Phase)
    requires n <= Seen(b) && v == s.nav && r in v && r != "(other)" && |WindowAt(v, r, k)| <= 2000
    ensures n <= |Items(b)|
    ensures PhasesGrown(v, AddItems(s, Items(b)[..n], now).nav, r, k, PhaseSamples(b, n, r, k, now))
  {
    if n == 0 {
      assert WindowAt(v, r, k) + [] == WindowAt(v, r, k);
    } else {
      var items := Items(b);
      PhasesOfItems(v, s, b, now, n - 1, r, k);
      ItemsStep(s, items, n - 1, now, AnyBody);
      ItemMeaning(b, n - 1);
      PhasesOfItem(v, AddItems(s, items[..n - 1], now), b, n - 1, items[n - 1], now, r, k);
    }
  }

  /** Before any prune an ingest sends to a known route's window of a phase exactly the beacon's values of it for that route. */
  lemma PhasesFiled(s: State, b: Beacon, now: int, r: string, k: Phase)
    requires r in s.nav && r != "(other)" && |WindowAt(s.nav, r, k)| <= 2000
    ensures WindowAt(AfterItems(s, b, now).nav, r, k) == Last(WindowAt(s.nav, r, k) + PhaseSamples(b, Seen(b), r, k, now), 2000)
  {
    NoteVisitorKeeps(s, b, now);
    PhasesOfItems(s.nav, NoteVisitor(s, b, now), b, now, Seen(b), r, k);
    assert Items(b)[..Seen(b)] == Items(b);
  }

  // ----- Resources -----

  /** The event is a request of u that took from zero to ten minutes. */
  predicate IsRequestOf(e: Event, u: string) {
    e.body.Resource? && e.body.key == Some(u) && AtMostTenMinutes(e.body.time)
  }

  function Requests(b: Beacon, n: nat, u: string): nat
    requires n <= |b.events|
  {
    if n == 0 then 0 else Requests(b, n - 1, u) + if IsRequestOf(b.events[n - 1], u) then 1 else 0
  }

  /** And how many of those came back with a status of 400 or more. */
  function FailedRequests(b: Beacon, n: nat, u: string): nat
    requires n <= |b.events|
  {
    if n == 0 then 0
    else
      var e := b.events[n - 1];
      FailedRequests(b, n - 1, u) + if IsRequestOf(e, u) && e.body.status.Some? && e.body.status.value >= 400.0 then 1 else 0
  }

  function RequestsAt(m: map<string, ResourceStats>, u: string): (nat, nat) {
    if u in m then (m[u].count, m[u].errors) else (0, 0)
  }

  ghost predicate RequestsGrown(m: map<string, ResourceStats>, t: map<string, ResourceStats>, u: string, count: nat, failed: nat) {
    && (u in t ==> RequestsAt(t, u) == (RequestsAt(m, u).0 + count, RequestsAt(m, u).1 + failed))
    && (u !in t ==> u !in m && (count == 0 || |t| >= 300))
    && (count == 0 ==> failed == 0)
  }

  lemma RequestStep(m: map<string, ResourceStats>, t: map<string, ResourceStats>, u: string, count: nat, failed: nat, e: Event, route: string, now: int)
    requires RequestsGrown(m, t, u, count, failed)
    ensures RequestsGrown(m, ResourcesAfter(t, e.body, route, now), u, count + (if IsRequestOf(e, u) then 1 else 0),
      failed + (if IsRequestOf(e, u) && e.body.status.Some? && e.body.status.value >= 400.0 then 1 else 0))
  {
    if e.body.Resource? && e.body.key.Some? && InRange(e.body.time, false) && HasRoom(t, e.body.key.value, MAX_RESOURCES) {
      var r := if e.body.key.value in t then t[e.body.key.value] else ResourceStats(0, [], 0, {});
      PutSize(t, e.body.key.value, ResourceAfter(r, e.body.time.value, e.body.status, route, now));
    }
  }

  lemma RequestsOfItem(m: map<string, ResourceStats>, t: State, b: Beacon, i: nat, item: Item, now: int, u: string)
    requires i < Seen(b) && item.body == b.events[i].body
    requires RequestsGrown(m, t.resources, u, Requests(b, i, u), FailedRequests(b, i, u))
    ensures RequestsGrown(m, AddEvent(t, item.body, item.route, now).resources, u, Requests(b, i + 1, u), FailedRequests(b, i + 1, u))
  {
    RequestStep(m, t.resources, u, Requests(b, i, u), FailedRequests(b, i, u), b.events[i], item.route, now);
  }

  lemma {:induction false} RequestsOfItems(m: map<string, ResourceStats>, s: State, b: Beacon, now: int, n: nat, u: string)
    requires n <= Seen(b) && m == s.resources
    ensures n <= |Items(b)|
    ensures RequestsGrown(m, AddItems(s, Items(b)[..n], now).resources, u, Requests(b, n, u), FailedRequests(b, n, u))
  {
    if n > 0 {
      var items := Items(b);
      RequestsOfItems(m, s, b, now, n - 1, u);
      ItemsStep(s, items, n - 1, now, AnyBody);
      ItemMeaning(b, n - 1);
      RequestsOfItem(m, AddItems(s, items[..n - 1], now), b, n - 1, items[n - 1], now, u);
    }
  }

  /** Pruning keeps the counters. */
  lemma PrunedRequests(m: map<string, ResourceStats>, t: map<string, ResourceStats>, u: string, count: nat, failed: nat, cutoff: int)
    requires RequestsGrown(m, t, u, count, failed)
    ensures RequestsGrown(m, PruneResources(t, cutoff), u, count, failed)
  {
    assert PruneResources(t, cutoff).Keys == t.Keys;
    SubmapSize(t, PruneResources(t, cutoff));
  }

  lemma IngestedResources(s: State, b: Beacon, now: int, retentionMs: int)
    ensures var m, t := AfterItems(s, b, now).resources, IngestBeacon(s, b, now, retentionMs).resources;
      t == m || t == PruneResources(m, now - retentionMs)
  {
  }

  lemma RequestsNoted(s: State, b: Beacon, now: int, u: string)
    ensures RequestsGrown(s.resources, AfterItems(s, b, now).resources, u, Requests(b, Seen(b), u), FailedRequests(b, Seen(b), u))
  {
    NoteVisitorKeeps(s, b, now);
    RequestsOfItems(s.resources, NoteVisitor(s, b, now), b, now, Seen(b), u);
    assert Items(b)[..Seen(b)] == Items(b);
  }

  /** An ingest adds to a resource's counters exactly the beacon's requests of it, and those that failed. */
  lemma RequestsFiled(s: State, b: Beacon, now: int, retentionMs: int, u: string)
    ensures RequestsGrown(s.resources, IngestBeacon(s, b, now, retentionMs).resources, u, Requests(b, Seen(b), u), FailedRequests(b, Seen(b), u))
  {
    RequestsNoted(s, b, now, u);
    IngestedResources(s, b, now, retentionMs);
    PrunedRequests(s.resources, AfterItems(s, b, now).resources, u, Requests(b, Seen(b), u), FailedRequests(b, Seen(b), u), now - retentionMs);
  }

  // ----- Errors -----

  predicate IsErrorOf(e: Event, sig: string) {
    e.body.Error? && e.body.text.Some? && e.body.text.value.signature == sig
  }

  function ErrorEvents(b: Beacon, n: nat, sig: string): nat
    requires n <= |b.events|
  {
    if n == 0 then 0 else ErrorEvents(b, n - 1, sig) + if IsErrorOf(b.events[n - 1], sig) then 1 else 0
  }

  /** The entry counts on; its first sighting and sample stay, its last sighting is now if it was seen. */
  ghost predicate ErrorsGrown(m: map<string, ErrorStats>, t: map<string, ErrorStats>, sig: string, count: nat, now: int) {
    && (sig in t ==>
          && t[sig].count == count + (if sig in m then m[sig].count else 0)
          && t[sig].last == (if count > 0 then now else if sig in m then m[sig].last else now)
          && t[sig].first == (if sig in m then m[sig].first else now)
          && (sig in m ==> t[sig].sample == m[sig].sample))
    && (sig !in t ==> sig !in m && (count == 0 || |t| >= 200))
    && (sig in t ==> sig in m || count > 0)
  }

  lemma ErrorStep(m: map<string, ErrorStats>, t: map<string, ErrorStats>, sig: string, count: nat, e: Event, route: string, now: int)
    requires ErrorsGrown(m, t, sig, count, now)
    ensures ErrorsGrown(m, ErrorsAfter(t, e.body, route, now), sig, count + (if IsErrorOf(e, sig) then 1 else 0), now)
  {
    if e.body.Error? && e.body.text.Some? && HasRoom(t, e.body.text.value.signature, MAX_ERRORS) {
      var g := e.body.text.value.signature;
      var x := if g in t then t[g] else ErrorStats(0, now, now, {}, e.body.text.value.sample);
      PutSize(t, g, ErrorAfter(x, route, now));
    }
  }

  lemma ErrorsOfItem(m: map<string, ErrorStats>, t: State, b: Beacon, i: nat, item: Item, now: int, sig: string)
    requires i < Seen(b) && item.body == b.events[i].body
    requires ErrorsGrown(m, t.errors, sig, ErrorEvents(b, i, sig), now)
    ensures ErrorsGrown(m, AddEvent(t, item.body, item.route, now).errors, sig, ErrorEvents(b, i + 1, sig), now)
  {
    ErrorStep(m, t.errors, sig, ErrorEvents(b, i, sig), b.events[i], item.route, now);
  }

  lemma {:induction false} ErrorsOfItems(m: map<string, ErrorStats>, s: State, b: Beacon, now: int, n: nat, sig: string)
    requires n <= Seen(b) && m == s.errors
    ensures n <= |Items(b)|
    ensures ErrorsGrown(m, AddItems(s, Items(b)[..n], now).errors, sig, ErrorEvents(b, n, sig), now)
  {
    if n > 0 {
      var items := Items(b);
      ErrorsOfItems(m, s, b, now, n - 1, sig);
      ItemsStep(s, items, n - 1, now, AnyBody);
      ItemMeaning(b, n - 1);
      ErrorsOfItem(m, AddItems(s, items[..n - 1], now), b, n - 1, items[n - 1], now, sig);
    }
  }

  /** Before any prune an ingest adds to an error's entry exactly the beacon's errors of that signature. */
  lemma ErrorsFiled(s: State, b: Beacon, now: int, sig: string)
    ensures ErrorsGrown(s.errors, AfterItems(s, b, now).errors, sig, ErrorEvents(b, Seen(b), sig), now)
  {
    NoteVisitorKeeps(s, b, now);
    ErrorsOfItems(s.errors, NoteVisitor(s, b, now), b, now, Seen(b), sig);
    assert Items(b)[..Seen(b)] == Items(b);
  }

  // ----- The visitor -----

  /** A session name of 4 to 64 letters, digits, underscores and dashes. */
  predicate NamedSession(x: string) {
    4 <= |x| <= 64
    && forall c :: c in x ==> 'a' <= c <= 'z' || 'A' <= c <= 'Z' || '0' <= c <= '9' || c == '_' || c == '-'
  }

  lemma SessionNames(x: string)
    ensures ValidSession(x) <==> NamedSession(x)
  {
    assert forall i :: 0 <= i < |x| ==> x[i] in x;
  }

  lemma {:induction false} VisitorKept(s: State, items: seq<Item>, now: int)
    ensures AddItems(s, items, now).devices == s.devices && AddItems(s, items, now).sessions == s.sessions
  {
    if items != [] {
      VisitorKept(s, items[..|items| - 1], now);
    }
  }

  function DeviceCount(m: map<Device, nat>, d: Device): nat {
    if d in m then m[d] else 0
  }

  /** An ingest counts the beacon's device once. */
  lemma DeviceFiled(s: State, b: Beacon, now: int, retentionMs: int, d: Device)
    ensures DeviceCount(IngestBeacon(s, b, now, retentionMs).devices, d) == DeviceCount(s.devices, d) + if d == b.device then 1 else 0
  {
    VisitorKept(NoteVisitor(s, b, now), Items(b), now);
    NotedDevice(s, b, now, d);
  }

  lemma NotedDevice(s: State, b: Beacon, now: int, d: Device)
    ensures DeviceCount(NoteVisitor(s, b, now).devices, d) == DeviceCount(s.devices, d) + if d == b.device then 1 else 0
  {
    NotedDevices(s, b, now);
    OneMoreOf(s.devices, b.device, d);
  }

  lemma NotedDevices(s: State, b: Beacon, now: int)
    ensures NoteVisitor(s, b, now).devices == s.devices[b.device := DeviceCount(s.devices, b.device) + 1]
  {
  }

  lemma OneMoreOf(m: map<Device, nat>, d: Device, e: Device)
    ensures DeviceCount(m[d := DeviceCount(m, d) + 1], e) == DeviceCount(m, e) + if e == d then 1 else 0
  {
  }

  /** Before any prune it stamps the session of a proper name, and no other. */
  lemma SessionFiled(s: State, b: Beacon, now: int, x: string)
    ensures var u, named := AfterItems(s, b, now).sessions, b.session == Some(x) && NamedSession(x);
      (x in u <==> x in s.sessions || named) && (x in u ==> u[x] == if named then now else s.sessions[x])
  {
    VisitorKept(NoteVisitor(s, b, now), Items(b), now);
    SessionNames(x);
    NotedSession(s, b, now, x);
  }

  lemma NotedSession(s: State, b: Beacon, now: int, x: string)
    ensures var u, named := NoteVisitor(s, b, now).sessions, b.session == Some(x) && ValidSession(x);
      (x in u <==> x in s.sessions || named) && (x in u ==> u[x] == if named then now else s.sessions[x])
  {
  }

  // ----- The number that an ingest returns -----

  /** The event left something: a value in range, a navigation, or an entry that is there after the ingest. */
  ghost predicate LeftIn(t: State, b: Beacon, e: Event) {
    match e.body
    case Vital(metric, value) => metric.Some? && AtMostTenMinutes(value)
    case View(_, _) => exists r :: r in t.views && ResolvesTo(b, e, r)
    case Resource(key, time, _) => key.Some? && AtMostTenMinutes(time) && key.value in t.resources
    case Error(text) => text.Some? && text.value.signature in t.errors
    case Nav(_) => true
    case Unknown => false
  }

  ghost function LeftEvents(t: State, b: Beacon, n: nat): nat
    requires n <= |b.events|
  {
    if n == 0 then 0 else LeftEvents(t, b, n - 1) + if LeftIn(t, b, b.events[n - 1]) then 1 else 0
  }

  /** A table only gains keys, and a full one gains none. */
  ghost predicate Settles<V, W>(m: map<string, V>, t: map<string, W>, cap: nat) {
    m.Keys <= t.Keys && (|m| >= cap ==> t.Keys == m.Keys)
  }

  lemma SettlesTwice<V>(m: map<string, V>, t: map<string, V>, u: map<string, V>, cap: nat)
    requires Settles(m, t, cap) && Settles(t, u, cap)
    ensures Settles(m, u, cap)
  {
    SubmapSize(m, t);
  }

  ghost predicate AllSettle(s: State, t: State) {
    Settles(s.views, t.views, 200) && Settles(s.resources, t.resources, 300) && Settles(s.errors, t.errors, 200)
  }

  lemma EventSettles(s: State, body: Body, route: string, now: int)
    ensures AllSettle(s, AddEvent(s, body, route, now))
  {
  }

  lemma {:induction false} ItemsSettle(s: State, items: seq<Item>, now: int, m: nat, n: nat)
    requires m <= n <= |items|
    ensures AllSettle(AddItems(s, items[..m], now), AddItems(s, items[..n], now))
    decreases n
  {
    if m < n {
      var u, w := AddItems(s, items[..m], now), AddItems(s, items[..n - 1], now);
      ItemsSettle(s, items, now, m, n - 1);
      ItemsStep(s, items, n - 1, now, AnyBody);
      EventSettles(w, items[n - 1].body, items[n - 1].route, now);
      AllSettleTwice(u, w, AddItems(s, items[..n], now));
    } else {
      assert items[..m] == items[..n];
    }
  }

  lemma AllSettleTwice(u: State, w: State, x: State)
    requires AllSettle(u, w) && AllSettle(w, x)
    ensures AllSettle(u, x)
  {
    SettlesTwice(u.views, w.views, x.views, 200);
    SettlesTwice(u.resources, w.resources, x.resources, 300);
    SettlesTwice(u.errors, w.errors, x.errors, 200);
  }

  /** Whether an event is counted can be told from what is there in the end. */
  lemma CountedIff(u: State, t: State, b: Beacon, e: Event, item: Item, now: int)
    requires item.body == e.body && ResolvesTo(b, e, item.route)
    requires AllSettle(u, t) && AllSettle(AddEvent(u, item.body, item.route, now), t)
    ensures Counts(u, item.body, item.route) <==> LeftIn(t, b, e)
  {
    match item.body
    case View(_, _) => assert forall r :: ResolvesTo(b, e, r) ==> r == item.route;
    case _ =>
  }

  lemma {:induction false} AcceptedUpTo(s: State, b: Beacon, now: int, n: nat, t: State)
    requires n <= Seen(b) && t == AddItems(s, Items(b), now)
    ensures n <= |Items(b)| && Accepted(s, Items(b)[..n], now, AnyBody) == LeftEvents(t, b, n)
  {
    if n > 0 {
      var items := Items(b);
      AcceptedUpTo(s, b, now, n - 1, t);
      ItemMeaning(b, n - 1);
      CountedAt(s, b, now, items, n - 1, t);
    }
  }

  lemma SettledAround(s: State, items: seq<Item>, now: int, i: nat, t: State)
    requires i < |items| && t == AddItems(s, items, now)
    ensures var u := AddItems(s, items[..i], now);
      AllSettle(u, t) && AllSettle(AddEvent(u, items[i].body, items[i].route, now), t)
  {
    ItemsStep(s, items, i, now, AnyBody);
    assert items[..|items|] == items;
    ItemsSettle(s, items, now, i, |items|);
    ItemsSettle(s, items, now, i + 1, |items|);
  }

  lemma CountedAt(s: State, b: Beacon, now: int, items: seq<Item>, i: nat, t: State)
    requires i < Seen(b) && i < |items| && t == AddItems(s, items, now)
    requires items[i].body == b.events[i].body && ResolvesTo(b, b.events[i], items[i].route)
    ensures Accepted(s, items[..i + 1], now, AnyBody)
      == Accepted(s, items[..i], now, AnyBody) + if LeftIn(t, b, b.events[i]) then 1 else 0
  {
    ItemsStep(s, items, i, now, AnyBody);
    SettledAround(s, items, now, i, t);
    CountedIff(AddItems(s, items[..i], now), t, b, b.events[i], items[i], now);
  }

  /** The number an ingest returns is the number of the events looked at that left something. */
  lemma AcceptedMeaning(s: State, b: Beacon, now: int)
    ensures Accepted(NoteVisitor(s, b, now), Items(b), now, AnyBody) == LeftEvents(AfterItems(s, b, now), b, Seen(b))
  {
    AcceptedUpTo(NoteVisitor(s, b, now), b, now, Seen(b), AfterItems(s, b, now));
    assert Items(b)[..Seen(b)] == Items(b);
  }

  // ----- An input -----

  lemma OneEvent(s: State, b: Beacon, now: int)
    requires |b.events| == 1
    ensures ResolvesTo(b, b.events[0], ItemOf(b, b.events[0]).route)
    ensures AfterItems(s, b, now) == AddEvent(NoteVisitor(s, b, now), b.events[0].body, ItemOf(b, b.events[0]).route, now)
  {
    var item, noted := ItemOf(b, b.events[0]), NoteVisitor(s, b, now);
    assert Items(b) == [item] && [item][..0] == [];
    assert AddItems(noted, [item], now) == AddEvent(noted, item.body, item.route, now);
  }

  lemma PlainRoute(x: string)
    requires x != "" && |x| <= 200 && '/' !in x && '?' !in x && '#' !in x
    ensures NormalizeRoute(Some(x)) == x
  {
    OneSegment(x);
    NormalizeRouteFixes(x);
  }

  /** A beacon of one page that carries a vital of another. */
  function TwoPages(home: string, cart: string, x: real): Beacon {
    Beacon(Desktop, None, Some(home), [Event(Some(cart), Vital(Some(LCP), Some(x)))])
  }

  /** The value is filed under the event's own route, and nothing under the beacon's. */
  lemma FiledUnderOwnRoute(x: real, now: int)
    requires 0.0 <= x <= 600000.0
    ensures var t := AfterItems(EmptyState(now), TwoPages("home", "cart", x), now).vitals;
      WindowAt(t, "cart", LCP) == [Sample(now, x)] && "home" !in t
  {
    var b := TwoPages("home", "cart", x);
    PlainRoute("cart");
    OneEvent(EmptyState(now), b, now);
    NoteVisitorKeeps(EmptyState(now), b, now);
    PushBucketEffect<Metric>(map[], "cart", LCP, x, now);
  }
}
