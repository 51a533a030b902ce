/** The in-memory aggregator that a probe keeps for browser beacons. */
module RumAggregator {
  import opened Collections
  import opened RollingWindow
  import opened Routes

  /** The web vitals on the allow-list. */
  datatype Metric = LCP | INP | CLS | FCP | TTFB

  datatype Phase = Dns | Connect | Tls | Ttfb | Download | DomInteractive | DomContentLoaded | Load

  datatype Device = Mobile | Desktop | Tablet | UnknownDevice

  const NAV_PHASES := [Dns, Connect, Tls, Ttfb, Download, DomInteractive, DomContentLoaded, Load]
  const MAX_ROUTES := 200
  const MAX_RESOURCES := 300
  const MAX_ERRORS := 200
  const MAX_EVENTS := 200
  const MAX_ROUTES_PER_ENTRY := 20
  const PRUNE_INTERVAL_MS := 60000
  const OTHER := "(other)"

  /** A converted number; None when it is not finite. */
  type Number = Option<real>

  datatype Body =
      // the metric is None when the name is not on the allow-list
    | Vital(metric: Option<Metric>, value: Number)
    | View(entry: bool, duration: Number)
      // `key` is the normalised URL, None when the event carries no string
    | Resource(key: Option<string>, time: Number, status: Number)
      // signature and sample are the redacted texts, None when there is no message
    | Error(text: Option<ErrorText>)
    | Nav(phases: map<Phase, Number>)
    | Unknown

  datatype ErrorText = ErrorText(signature: string, sample: string)

  datatype Event = Event(route: Option<string>, body: Body)

  /** A device class outside the known ones is UnknownDevice. */
  datatype Beacon = Beacon(device: Device, session: Option<string>, route: Option<string>, events: seq<Event>)

  type Buckets<K> = map<string, map<K, Window>>

  datatype ViewStats = ViewStats(views: nat, entries: nat, durations: Window)
  datatype ResourceStats = ResourceStats(count: nat, times: Window, errors: nat, routes: set<string>)
  datatype ErrorStats = ErrorStats(count: nat, first: int, last: int, routes: set<string>, sample: string)

  datatype State = State(
    vitals: Buckets<Metric>,
    nav: Buckets<Phase>,
    views: map<string, ViewStats>,
    resources: map<string, ResourceStats>,
    errors: map<string, ErrorStats>,
    devices: map<Device, nat>,
    sessions: map<string, int>,
    lastPrune: int)

  // ----- One event -----

  /** Where a sample for `route` goes: a new route past the cap shares the overflow bucket. */
  function Target<K>(b: Buckets<K>, route: string): string {
    if route in b || |b| < MAX_ROUTES then route else OTHER
  }

  function WindowAt<K>(b: Buckets<K>, route: string, key: K): Window {
    if route in b && key in b[route] then b[route][key] else []
  }

  function PushBucket<K>(b: Buckets<K>, route: string, key: K, v: real, now: int): Buckets<K> {
    var target := Target(b, route);
    var m := if target in b then b[target] else map[];
    b[target := m[key := PushTo(WindowAt(b, target, key), v, now)]]
  }

  predicate InRange(v: Number, strict: bool) {
    v.Some? && 0.0 <= v.value && (if strict then v.value < 600000.0 else v.value <= 600000.0)
  }

  function PushPhases(b: Buckets<Phase>, route: string, phases: map<Phase, Number>, n: nat, now: int): Buckets<Phase>
    requires n <= |NAV_PHASES|
  {
    if n == 0 then b
    else
      var before := PushPhases(b, route, phases, n - 1, now);
      var phase := NAV_PHASES[n - 1];
      if phase in phases && InRange(phases[phase], true) then PushBucket(before, route, phase, phases[phase].value, now)
      else before
  }

  function AddRoute(routes: set<string>, route: string): set<string> {
    if |routes| < MAX_ROUTES_PER_ENTRY then routes + {route} else routes
  }

  function ViewAfter(v: ViewStats, entry: bool, duration: Number, now: int): ViewStats {
    ViewStats(v.views + 1, v.entries + (if entry then 1 else 0),
      if InRange(duration, true) then PushTo(v.durations, duration.value, now) else v.durations)
  }

  predicate FailedStatus(status: Number) {
    status.Some? && status.value >= 400.0
  }

  function ResourceAfter(r: ResourceStats, duration: real, status: Number, route: string, now: int): ResourceStats {
    ResourceStats(r.count + 1, PushTo(r.times, duration, now), r.errors + (if FailedStatus(status) then 1 else 0),
      AddRoute(r.routes, route))
  }

  function ErrorAfter(e: ErrorStats, route: string, now: int): ErrorStats {
    ErrorStats(e.count + 1, e.first, now, AddRoute(e.routes, route), e.sample)
  }

  predicate HasRoom<V>(m: map<string, V>, key: string, cap: nat) {
    key in m || |m| < cap
  }

  function VitalsAfter(b: Buckets<Metric>, body: Body, route: string, now: int): Buckets<Metric> {
    if body.Vital? && body.metric.Some? && InRange(body.value, false)
    then PushBucket(b, route, body.metric.value, body.value.value, now)
    else b
  }

  function NavAfter(b: Buckets<Phase>, body: Body, route: string, now: int): Buckets<Phase> {
    if body.Nav? then PushPhases(b, route, body.phases, |NAV_PHASES|, now) else b
  }

  function ViewsAfter(m: map<string, ViewStats>, body: Body, route: string, now: int): map<string, ViewStats> {
    if body.View? && HasRoom(m, route, MAX_ROUTES) then
      var v := if route in m then m[route] else ViewStats(0, 0, []);
      m[route := ViewAfter(v, body.entry, body.duration, now)]
    else m
  }

  function ResourcesAfter(m: map<string, ResourceStats>, body: Body, route: string, now: int): map<string, ResourceStats> {
    if body.Resource? && body.key.Some? && InRange(body.time, false) && HasRoom(m, body.key.value, MAX_RESOURCES) then
      var r := if body.key.value in m then m[body.key.value] else ResourceStats(0, [], 0, {});
      m[body.key.value := ResourceAfter(r, body.time.value, body.status, route, now)]
    else m
  }

  function ErrorsAfter(m: map<string, ErrorStats>, body: Body, route: string, now: int): map<string, ErrorStats> {
    if body.Error? && body.text.Some? && HasRoom(m, body.text.value.signature, MAX_ERRORS) then
      var sig := body.text.value.signature;
      var e := if sig in m then m[sig] else ErrorStats(0, now, now, {}, body.text.value.sample);
      m[sig := ErrorAfter(e, route, now)]
    else m
  }

  /** Whether `ingest` counts the event. */
  predicate Counts(s: State, body: Body, route: string) {
    match body
    case Vital(metric, value) => metric.Some? && InRange(value, false)
    case View(_, _) => HasRoom(s.views, route, MAX_ROUTES)
    case Resource(key, time, _) => key.Some? && InRange(time, false) && HasRoom(s.resources, key.value, MAX_RESOURCES)
    case Error(text) => text.Some? && HasRoom(s.errors, text.value.signature, MAX_ERRORS)
    case Nav(_) => true
    case Unknown => false
  }

  function AddEvent(s: State, body: Body, route: string, now: int): State {
    State(VitalsAfter(s.vitals, body, route, now), NavAfter(s.nav, body, route, now), ViewsAfter(s.views, body, route, now),
      ResourcesAfter(s.resources, body, route, now), ErrorsAfter(s.errors, body, route, now),
      s.devices, s.sessions, s.lastPrune)
  }

  /** An event that is not counted leaves the state as it is. */
  lemma UncountedChangesNothing(s: State, body: Body, route: string, now: int)
    requires !Counts(s, body, route)
    ensures AddEvent(s, body, route, now) == s
  {
  }

  // ----- One beacon -----

  /** An event with its route resolved. */
  datatype Item = Item(route: string, body: Body)

  /** The items of a beacon: only the first MAX_EVENTS events are looked at. */
  function Items(b: Beacon): seq<Item> {
    var n := if |b.events| <= MAX_EVENTS then |b.events| else MAX_EVENTS;
    seq(n, i requires 0 <= i < n => ItemOf(b, b.events[i]))
  }

  /** An event without a route of its own belongs to the beacon's route. */
  function ItemOf(b: Beacon, e: Event): Item {
    Item(NormalizeRoute(if e.route.Some? then e.route else Some(NormalizeRoute(b.route))), e.body)
  }

  function AddItems(s: State, items: seq<Item>, now: int): State {
    if items == [] then s
    else
      var n := |items| - 1;
      AddEvent(AddItems(s, items[..n], now), items[n].body, items[n].route, now)
  }

  /** How many of the items selected by `which` are counted. */
  function Accepted(s: State, items: seq<Item>, now: int, which: Body -> bool): nat {
    if items == [] then 0
    else
      var n := |items| - 1;
      var before := AddItems(s, items[..n], now);
      Accepted(s, items[..n], now, which)
        + if which(items[n].body) && Counts(before, items[n].body, items[n].route) then 1 else 0
  }

  lemma ItemsStep(s: State, items: seq<Item>, i: nat, now: int, which: Body -> bool)
    requires i < |items|
    ensures AddItems(s, items[..i + 1], now) == AddEvent(AddItems(s, items[..i], now), items[i].body, items[i].route, now)
    ensures Accepted(s, items[..i + 1], now, which) == Accepted(s, items[..i], now, which)
      + if which(items[i].body) && Counts(AddItems(s, items[..i], now), items[i].body, items[i].route) then 1 else 0
  {
    assert items[..i + 1][..i] == items[..i];
  }

  predicate AnyBody(body: Body) { true }

  predicate IsSessionChar(c: char) {
    'A' <= c <= 'Z' || 'a' <= c <= 'z' || '0' <= c <= '9' || c == '_' || c == '-'
  }

  predicate ValidSession(session: string) {
    4 <= |session| <= 64 && forall i :: 0 <= i < |session| ==> IsSessionChar(session[i])
  }

  function NoteVisitor(s: State, b: Beacon, now: int): State {
    var counted := s.(devices := s.devices[b.device := (if b.device in s.devices then s.devices[b.device] else 0) + 1]);
    if b.session.Some? && ValidSession(b.session.value)
    then counted.(sessions := s.sessions[b.session.value := now])
    else counted
  }

  function AfterItems(s: State, b: Beacon, now: int): State {
    AddItems(NoteVisitor(s, b, now), Items(b), now)
  }

  predicate PruneDue(s: State, now: int) {
    now - s.lastPrune > PRUNE_INTERVAL_MS
  }

  function IngestBeacon(s: State, b: Beacon, now: int, retentionMs: int): State {
    var t := AfterItems(s, b, now);
    if PruneDue(t, now) then PruneState(t, now, retentionMs) else t
  }

  // ----- Pruning -----

  function PruneBuckets<K>(b: Buckets<K>, cutoff: int): Buckets<K> {
    map r | r in b :: map k | k in b[r] :: KeepFrom(b[r][k], cutoff)
  }

  function PruneResources(m: map<string, ResourceStats>, cutoff: int): map<string, ResourceStats> {
    map r | r in m :: m[r].(times := KeepFrom(m[r].times, cutoff))
  }

  function PruneSessions(m: map<string, int>, cutoff: int): map<string, int> {
    map k | k in m && m[k] >= cutoff :: m[k]
  }

  function PruneErrors(m: map<string, ErrorStats>, cutoff: int): map<string, ErrorStats> {
    map k | k in m && m[k].last >= cutoff :: m[k]
  }

  /** Views, their durations and the device counts are never pruned. */
  function PruneState(s: State, now: int, retentionMs: int): State {
    var cutoff := now - retentionMs;
    State(PruneBuckets(s.vitals, cutoff), PruneBuckets(s.nav, cutoff), s.views, PruneResources(s.resources, cutoff),
      PruneErrors(s.errors, cutoff), s.devices, PruneSessions(s.sessions, cutoff), now)
  }

  /** Visits every window of one route. */
  method FilterWindows<K(==)>(m: map<K, Window>, cutoff: int) returns (r: map<K, Window>)
    ensures r == map k | k in m :: KeepFrom(m[k], cutoff)
  {
    r := m;
    var todo := m.Keys;
    while todo != {}
      invariant todo <= m.Keys && r.Keys == m.Keys
      invariant forall k :: k in m ==> r[k] == if k in todo then m[k] else KeepFrom(m[k], cutoff)
      decreases |todo|
    {
      var k :| k in todo;
      r := r[k := KeepFrom(r[k], cutoff)];
      todo := todo - {k};
    }
  }

  /** Visits every route. */
  method FilterBuckets<K(==)>(b: Buckets<K>, cutoff: int) returns (r: Buckets<K>)
    ensures r == PruneBuckets(b, cutoff)
  {
    r := b;
    var todo := b.Keys;
    ghost var expected := PruneBuckets(b, cutoff);
    while todo != {}
      invariant todo <= b.Keys && r.Keys == b.Keys
      invariant forall k :: k in b ==> r[k] == if k in todo then b[k] else expected[k]
      decreases |todo|
    {
      var route :| route in todo;
      var m := FilterWindows(r[route], cutoff);
      r := r[route := m];
      todo := todo - {route};
    }
  }

  method FilterResources(m: map<string, ResourceStats>, cutoff: int) returns (r: map<string, ResourceStats>)
    ensures r == PruneResources(m, cutoff)
  {
    r := m;
    var todo := m.Keys;
    ghost var expected := PruneResources(m, cutoff);
    while todo != {}
      invariant todo <= m.Keys && r.Keys == m.Keys
      invariant forall k :: k in m ==> r[k] == if k in todo then m[k] else expected[k]
      decreases |todo|
    {
      var k :| k in todo;
      r := r[k := r[k].(times := KeepFrom(r[k].times, cutoff))];
      todo := todo - {k};
    }
  }

  method DropOldSessions(m: map<string, int>, cutoff: int) returns (r: map<string, int>)
    ensures r == PruneSessions(m, cutoff)
  {
    r := m;
    var todo := m.Keys;
    while todo != {}
      invariant todo <= m.Keys
      invariant r == map k | k in m && (k in todo || m[k] >= cutoff) :: m[k]
      decreases |todo|
    {
      var k :| k in todo;
      if m[k] < cutoff {
        r := r - {k};
      }
      todo := todo - {k};
    }
  }

  method DropOldErrors(m: map<string, ErrorStats>, cutoff: int) returns (r: map<string, ErrorStats>)
    ensures r == PruneErrors(m, cutoff)
  {
    r := m;
    var todo := m.Keys;
    while todo != {}
      invariant todo <= m.Keys
      invariant r == map k | k in m && (k in todo || m[k].last >= cutoff) :: m[k]
      decreases |todo|
    {
      var k :| k in todo;
      if m[k].last < cutoff {
        r := r - {k};
      }
      todo := todo - {k};
    }
  }

  ghost predicate BothPruned(v: Buckets<Metric>, n: Buckets<Phase>, v': Buckets<Metric>, n': Buckets<Phase>, cutoff: int) {
    v' == PruneBuckets(v, cutoff) && n' == PruneBuckets(n, cutoff)
  }

  ghost predicate RestPruned(r: map<string, ResourceStats>, m: map<string, int>, e: map<string, ErrorStats>,
      r': map<string, ResourceStats>, m': map<string, int>, e': map<string, ErrorStats>, cutoff: int) {
    r' == PruneResources(r, cutoff) && m' == PruneSessions(m, cutoff) && e' == PruneErrors(e, cutoff)
  }

  lemma AssemblePruned(s: State, t: State, now: int, retentionMs: int)
    requires BothPruned(s.vitals, s.nav, t.vitals, t.nav, now - retentionMs)
    requires RestPruned(s.resources, s.sessions, s.errors, t.resources, t.sessions, t.errors, now - retentionMs)
    requires t.views == s.views && t.devices == s.devices && t.lastPrune == now
    ensures t == PruneState(s, now, retentionMs)
  {
  }

  /** Sessions and errors go exactly when they are too old; what stays is as it was, and nothing else but windows changes. */
  lemma PruneMeaning(s: State, now: int, retentionMs: int)
    ensures var t, cutoff := PruneState(s, now, retentionMs), now - retentionMs;
      && t.views == s.views && t.devices == s.devices && t.lastPrune == now
      && t.vitals.Keys == s.vitals.Keys && t.nav.Keys == s.nav.Keys && t.resources.Keys == s.resources.Keys
      && (forall k :: k in t.resources ==> t.resources[k] == s.resources[k].(times := t.resources[k].times))
      && (forall k :: k in t.sessions <==> k in s.sessions && s.sessions[k] >= cutoff)
      && (forall k :: k in t.sessions ==> t.sessions[k] == s.sessions[k])
      && (forall k :: k in t.errors <==> k in s.errors && s.errors[k].last >= cutoff)
      && (forall k :: k in t.errors ==> t.errors[k] == s.errors[k])
  {
  }

  function EmptyState(now: int): State {
    State(map[], map[], map[], map[], map[], map[], map[], now)
  }

  // ----- The aggregator object -----

  class RumAggregator {
    var vitals: Buckets<Metric>
    var nav: Buckets<Phase>
    var views: map<string, ViewStats>
    var resources: map<string, ResourceStats>
    var errors: map<string, ErrorStats>
    var devices: map<Device, nat>
    var sessions: map<string, int>
    var lastPrune: int
    const retentionMs: int

    function Snapshot(): State
      reads this
    {
      State(vitals, nav, views, resources, errors, devices, sessions, lastPrune)
    }

    constructor (retentionMs: int, now: int)
      ensures Snapshot() == EmptyState(now) && this.retentionMs == retentionMs
    {
      vitals, nav, views, resources, errors := map[], map[], map[], map[], map[];
      devices, sessions := map[], map[];
      lastPrune := now;
      this.retentionMs := retentionMs;
    }

    /** Validates and ingests one beacon; None stands for input that is no beacon at all. */
    method Ingest(raw: Option<Beacon>, now: int) returns (accepted: nat)
      modifies this
      ensures raw.None? ==> accepted == 0 && Snapshot() == old(Snapshot())
      ensures raw.Some? ==>
        && Snapshot() == IngestBeacon(old(Snapshot()), raw.value, now, retentionMs)
        && accepted == Accepted(NoteVisitor(old(Snapshot()), raw.value, now), Items(raw.value), now, AnyBody)
    {
      accepted := 0;
      if raw.None? {
        return;
      }
      Note(raw.value, now);
      accepted := IngestEvents(raw.value, now);
      if now - lastPrune > PRUNE_INTERVAL_MS {
        Prune(now);
      }
    }

    /** Counts the device and stamps the session of a beacon. */
    method Note(b: Beacon, now: int)
      modifies `devices, `sessions
      ensures Snapshot() == NoteVisitor(old(Snapshot()), b, now)
    {
      devices := devices[b.device := (if b.device in devices then devices[b.device] else 0) + 1];
      if b.session.Some? && ValidSession(b.session.value) {
        sessions := sessions[b.session.value := now];
      }
    }

    /** The event loop of an ingest. */
    method IngestEvents(b: Beacon, now: int) returns (accepted: nat)
      modifies this
      ensures Snapshot() == AddItems(old(Snapshot()), Items(b), now)
      ensures accepted == Accepted(old(Snapshot()), Items(b), now, AnyBody)
    {
      accepted := 0;
      ghost var s, items := Snapshot(), Items(b);
      var i := 0;
      while i < |b.events| && i < MAX_EVENTS
        invariant 0 <= i <= |items|
        invariant Snapshot() == AddItems(s, items[..i], now)
        invariant accepted == Accepted(s, items[..i], now, AnyBody)
      {
        ItemsStep(s, items, i, now, AnyBody);
        var item := ItemOf(b, b.events[i]);
        var counted := Handle(item.body, item.route, now);
        if counted {
          accepted := accepted + 1;
        }
        i := i + 1;
      }
      assert items[..i] == items;
    }

    /** One turn of the event loop; an event that is not counted changes nothing. */
    method Handle(body: Body, route: string, now: int) returns (counted: bool)
      modifies this
      ensures counted <==> Counts(old(Snapshot()), body, route)
      ensures Snapshot() == AddEvent(old(Snapshot()), body, route, now)
      ensures !counted ==> Snapshot() == old(Snapshot())
    {
      match body
      case Vital(metric, value) => counted := HandleVital(metric, value, route, now);
      case View(entry, duration) => counted := HandleView(entry, duration, route, now);
      case Resource(key, time, status) => counted := HandleResource(key, time, status, route, now);
      case Error(text) => counted := HandleError(text, route, now);
      case Nav(phases) =>
        HandleNav(phases, route, now);
        counted := true;
      case Unknown => counted := false;
    }

    method HandleVital(metric: Option<Metric>, value: Number, route: string, now: int) returns (counted: bool)
      modifies `vitals
      ensures counted <==> metric.Some? && InRange(value, false)
      ensures vitals == VitalsAfter(old(vitals), Vital(metric, value), route, now)
    {
      counted := metric.Some? && InRange(value, false);
      if counted {
        vitals := PushBucket(vitals, route, metric.value, value.value, now);
      }
    }

    method HandleView(entry: bool, duration: Number, route: string, now: int) returns (counted: bool)
      modifies `views
      ensures counted <==> HasRoom(old(views), route, MAX_ROUTES)
      ensures views == ViewsAfter(old(views), View(entry, duration), route, now)
    {
      var v := if route in views then views[route] else ViewStats(0, 0, []);
      if route !in views && |views| >= MAX_ROUTES {
        return false;
      }
      v := v.(views := v.views + 1);
      if entry {
        v := v.(entries := v.entries + 1);
      }
      if InRange(duration, true) {
        v := v.(durations := PushTo(v.durations, duration.value, now));
      }
      views := views[route := v];
      counted := true;
    }

    method HandleResource(key: Option<string>, time: Number, status: Number, route: string, now: int) returns (counted: bool)
      modifies `resources
      ensures counted <==> key.Some? && InRange(time, false) && HasRoom(old(resources), key.value, MAX_RESOURCES)
      ensures resources == ResourcesAfter(old(resources), Resource(key, time, status), route, now)
    {
      if key.None? || !InRange(time, false) {
        return false;
      }
      var r := if key.value in resources then resources[key.value] else ResourceStats(0, [], 0, {});
      if key.value !in resources && |resources| >= MAX_RESOURCES {
        return false;
      }
      r := r.(count := r.count + 1, times := PushTo(r.times, time.value, now));
      if FailedStatus(status) {
        r := r.(errors := r.errors + 1);
      }
      if |r.routes| < MAX_ROUTES_PER_ENTRY {
        r := r.(routes := r.routes + {route});
      }
      resources := resources[key.value := r];
      counted := true;
    }

    method HandleError(text: Option<ErrorText>, route: string, now: int) returns (counted: bool)
      modifies `errors
      ensures counted <==> text.Some? && HasRoom(old(errors), text.value.signature, MAX_ERRORS)
      ensures errors == ErrorsAfter(old(errors), Error(text), route, now)
    {
      if text.None? {
        return false;
      }
      var sig := text.value.signature;
      var e := if sig in errors then errors[sig] else ErrorStats(0, now, now, {}, text.value.sample);
      if sig !in errors && |errors| >= MAX_ERRORS {
        return false;
      }
      e := e.(count := e.count + 1, last := now);
      if |e.routes| < MAX_ROUTES_PER_ENTRY {
        e := e.(routes := e.routes + {route});
      }
      errors := errors[sig := e];
      counted := true;
    }

    method HandleNav(phases: map<Phase, Number>, route: string, now: int)
      modifies `nav
      ensures nav == NavAfter(old(nav), Nav(phases), route, now)
    {
      for n := 0 to |NAV_PHASES|
        invariant nav == PushPhases(old(nav), route, phases, n, now)
      {
        var phase := NAV_PHASES[n];
        if phase in phases && InRange(phases[phase], true) {
          nav := PushBucket(nav, route, phase, phases[phase].value, now);
        }
      }
    }

    /** The windows of the vitals and of the navigation phases. */
    method PruneBoth(cutoff: int)
      modifies `vitals, `nav
      ensures BothPruned(old(vitals), old(nav), vitals, nav, cutoff)
    {
      vitals := FilterBuckets(vitals, cutoff);
      nav := FilterBuckets(nav, cutoff);
    }

    /** The resources' windows, the sessions and the errors. */
    method PruneRest(cutoff: int)
      modifies `resources, `sessions, `errors
      ensures RestPruned(old(resources), old(sessions), old(errors), resources, sessions, errors, cutoff)
    {
      resources := FilterResources(resources, cutoff);
      sessions := DropOldSessions(sessions, cutoff);
      errors := DropOldErrors(errors, cutoff);
    }

    method Prune(now: int)
      modifies this
      ensures Snapshot() == PruneState(old(Snapshot()), now, retentionMs)
    {
      ghost var s := Snapshot();
      PruneBoth(now - retentionMs);
      PruneRest(now - retentionMs);
      lastPrune := now;
      AssemblePruned(s, Snapshot(), now, retentionMs);
    }
  }
}
