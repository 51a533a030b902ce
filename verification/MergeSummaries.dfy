/** The hub's merge of the RUM summaries of several probe replicas. */
module MergeSummaries {
  import opened Collections
  import opened Grouping
  import opened Percentiles

  // ----- One replica's summary -----

  /** An entry of the nested vitals or navigation record: route, metric, figures. */
  datatype MetricRow = MetricRow(route: string, metric: string, figures: Summary)

  datatype ViewRow = ViewRow(route: string, views: nat, entries: nat, avgMs: Option<real>)

  datatype ResourceRow = ResourceRow(url: string, count: nat, p50: real, p95: real, errors: nat, routes: seq<string>)

  /** Times are instants; the source compares ISO timestamps of one format. */
  datatype ErrorRow = ErrorRow(signature: string, sample: string, count: nat, firstSeen: int, lastSeen: int, routes: seq<string>)

  datatype DeviceRow = DeviceRow(device: string, count: nat)

  datatype RumSummary = RumSummary(
    available: bool,
    since: Option<int>,
    vitals: seq<MetricRow>,
    nav: seq<MetricRow>,
    views: seq<ViewRow>,
    resources: seq<ResourceRow>,
    errors: seq<ErrorRow>,
    devices: seq<DeviceRow>,
    sessions: Option<nat>
  )

  // ----- The rows of all replicas, one after the other -----

  function Flatten<S, T>(list: seq<S>, part: S -> seq<T>): seq<T> {
    if list == [] then [] else Flatten(list[..|list| - 1], part) + part(list[|list| - 1])
  }

  function Vitals(s: RumSummary): seq<MetricRow> { s.vitals }
  function Nav(s: RumSummary): seq<MetricRow> { s.nav }
  function Views(s: RumSummary): seq<ViewRow> { s.views }
  function Resources(s: RumSummary): seq<ResourceRow> { s.resources }
  function Errors(s: RumSummary): seq<ErrorRow> { s.errors }
  function Devices(s: RumSummary): seq<DeviceRow> { s.devices }

  // ----- What each map accumulates -----

  function MetricKey(r: MetricRow): Option<(string, string)> { Some((r.route, r.metric)) }
  function ViewKey(r: ViewRow): Option<string> { Some(r.route) }
  function ResourceKey(r: ResourceRow): Option<string> { Some(r.url) }
  function ErrorKey(r: ErrorRow): Option<string> { Some(r.signature) }
  function DeviceKey(r: DeviceRow): Option<string> { Some(r.device) }

  function AddFigures(list: seq<Summary>, r: MetricRow): seq<Summary> { list + [r.figures] }

  datatype ViewEntry = ViewEntry(views: nat, entries: nat, durations: seq<real>)

  function AddView(e: ViewEntry, r: ViewRow): ViewEntry {
    ViewEntry(e.views + r.views, e.entries + r.entries, if r.avgMs.Some? then e.durations + [r.avgMs.value] else e.durations)
  }

  datatype ResourceEntry = ResourceEntry(count: nat, p50: seq<real>, p95: seq<real>, errors: nat, routes: set<string>)

  function AddResource(e: ResourceEntry, r: ResourceRow): ResourceEntry {
    ResourceEntry(e.count + r.count, e.p50 + [r.p50], e.p95 + [r.p95], e.errors + r.errors, e.routes + Elems(r.routes))
  }

  /** Appends what is not there yet, as building a Set from both lists does. */
  function Union(a: seq<string>, b: seq<string>): seq<string> {
    if b == [] then a
    else
      var u := Union(a, b[..|b| - 1]);
      if b[|b| - 1] in u then u else u + [b[|b| - 1]]
  }

  function AddError(e: Option<ErrorRow>, r: ErrorRow): Option<ErrorRow> {
    match e
    case None => Some(r)
    case Some(x) =>
      Some(ErrorRow(x.signature, x.sample, x.count + r.count,
        if r.firstSeen < x.firstSeen then r.firstSeen else x.firstSeen,
        if r.lastSeen > x.lastSeen then r.lastSeen else x.lastSeen,
        Union(Union([], x.routes), r.routes)))
  }

  function AddDevice(n: nat, r: DeviceRow): nat { n + r.count }

  function AddSessions(n: nat, s: RumSummary): nat { n + s.sessions.GetOr(0) }

  function AddAvailable(b: bool, s: RumSummary): bool { b || s.available }

  function AddSince(t: Option<int>, s: RumSummary): Option<int> {
    if s.since.Some? && (t.None? || s.since.value < t.value) then s.since else t
  }

  const NO_VIEWS := ViewEntry(0, 0, [])
  const NO_RESOURCE := ResourceEntry(0, [], [], 0, {})

  datatype Merged = Merged(
    available: bool,
    since: Option<int>,
    vitals: Table<(string, string), seq<Summary>>,
    nav: Table<(string, string), seq<Summary>>,
    views: Table<string, ViewEntry>,
    resources: Table<string, ResourceEntry>,
    errors: Table<string, Option<ErrorRow>>,
    devices: Table<string, nat>,
    sessions: nat
  )

  function Metrics(rows: seq<MetricRow>): Table<(string, string), seq<Summary>> { GroupBy(rows, MetricKey, [], AddFigures) }

  function ViewTable(rows: seq<ViewRow>): Table<string, ViewEntry> { GroupBy(rows, ViewKey, NO_VIEWS, AddView) }

  function ResourceTable(rows: seq<ResourceRow>): Table<string, ResourceEntry> {
    GroupBy(rows, ResourceKey, NO_RESOURCE, AddResource)
  }

  function ErrorTable(rows: seq<ErrorRow>): Table<string, Option<ErrorRow>> { GroupBy(rows, ErrorKey, None, AddError) }

  function DeviceTable(rows: seq<DeviceRow>): Table<string, nat> { GroupBy(rows, DeviceKey, 0, AddDevice) }

  function Merge(list: seq<RumSummary>): Merged {
    Merged(Fold(AddAvailable, false, list), Fold(AddSince, None, list),
      Metrics(Flatten(list, Vitals)), Metrics(Flatten(list, Nav)), ViewTable(Flatten(list, Views)),
      ResourceTable(Flatten(list, Resources)), ErrorTable(Flatten(list, Errors)), DeviceTable(Flatten(list, Devices)),
      Fold(AddSessions, 0, list))
  }

  // ----- The loops -----

  /** "For each replica, for each of its rows": the rows are taken up one after the other. */
  method Accumulate<T, K(==), V>(list: seq<RumSummary>, part: RumSummary -> seq<T>, key: T -> Option<K>, init: V, step: (V, T) -> V)
    returns (t: Table<K, V>)
    ensures t == GroupBy(Flatten(list, part), key, init, step)
  {
    t := Empty();
    for i := 0 to |list|
      invariant t == GroupBy(Flatten(list[..i], part), key, init, step)
    {
      assert list[..i + 1][..i] == list[..i];
      var rows := part(list[i]);
      ghost var before := Flatten(list[..i], part);
      assert before + rows[..0] == before;
      for j := 0 to |rows|
        invariant t == GroupBy(before + rows[..j], key, init, step)
      {
        NextRow(before, rows, j);
        t := Add(t, rows[j], key, init, step);
      }
      assert rows[..|rows|] == rows;
    }
    assert list[..|list|] == list;
  }

  lemma NextRow<T>(before: seq<T>, rows: seq<T>, j: nat)
    requires j < |rows|
    ensures var all := before + rows[..j + 1];
      all != [] && all[..|all| - 1] == before + rows[..j] && all[|all| - 1] == rows[j]
  {
  }

  method MergeAll(list: seq<RumSummary>) returns (m: Merged)
    ensures m == Merge(list)
  {
    var vitals := Accumulate(list, Vitals, MetricKey, [], AddFigures);
    var nav := Accumulate(list, Nav, MetricKey, [], AddFigures);
    var views := Accumulate(list, Views, ViewKey, NO_VIEWS, AddView);
    var resources := Accumulate(list, Resources, ResourceKey, NO_RESOURCE, AddResource);
    var errors := Accumulate(list, Errors, ErrorKey, None, AddError);
    var devices := Accumulate(list, Devices, DeviceKey, 0, AddDevice);
    var available, since, sessions := false, None, 0;
    for i := 0 to |list|
      invariant available == Fold(AddAvailable, false, list[..i])
      invariant since == Fold(AddSince, None, list[..i])
      invariant sessions == Fold(AddSessions, 0, list[..i])
    {
      assert list[..i + 1][..i] == list[..i];
      available := available || list[i].available;
      since := AddSince(since, list[i]);
      sessions := sessions + list[i].sessions.GetOr(0);
    }
    assert list[..|list|] == list;
    m := Merged(available, since, vitals, nav, views, resources, errors, devices, sessions);
  }

  // ----- What each entry means -----

  function ViewsOf(r: ViewRow): int { r.views }
  function EntriesOf(r: ViewRow): int { r.entries }
  function DurationOf(r: ViewRow): seq<real> { if r.avgMs.Some? then [r.avgMs.value] else [] }
  function CountOf(r: ResourceRow): int { r.count }
  function FailuresOf(r: ResourceRow): int { r.errors }
  function P50Of(r: ResourceRow): seq<real> { [r.p50] }
  function P95Of(r: ResourceRow): seq<real> { [r.p95] }
  function RoutesOf(r: ResourceRow): seq<string> { r.routes }
  function ErrorCountOf(r: ErrorRow): int { r.count }
  function ErrorRoutesOf(r: ErrorRow): seq<string> { r.routes }
  function DeviceCountOf(r: DeviceRow): int { r.count }
  function SessionsOf(s: RumSummary): int { s.sessions.GetOr(0) }
  function FiguresOf(r: MetricRow): seq<Summary> { [r.figures] }
  function SinceOf(s: RumSummary): seq<int> { if s.since.Some? then [s.since.value] else [] }

  ghost predicate ViewMeaning(g: seq<ViewRow>, e: ViewEntry) {
    e.views == Sum(g, ViewsOf) && e.entries == Sum(g, EntriesOf) && e.durations == Flatten(g, DurationOf)
  }

  lemma {:induction false} ViewFold(g: seq<ViewRow>)
    ensures ViewMeaning(g, Fold(AddView, NO_VIEWS, g))
  {
    if g != [] {
      ViewFold(g[..|g| - 1]);
    }
  }

  ghost predicate ResourceMeaning(g: seq<ResourceRow>, e: ResourceEntry) {
    && e.count == Sum(g, CountOf)
    && e.errors == Sum(g, FailuresOf)
    && e.p50 == Flatten(g, P50Of)
    && e.p95 == Flatten(g, P95Of)
    && e.routes == Elems(Flatten(g, RoutesOf))
  }

  lemma ElemsConcat<T>(a: seq<T>, b: seq<T>)
    ensures Elems(a + b) == Elems(a) + Elems(b)
  {
  }

  lemma {:induction false} ResourceFold(g: seq<ResourceRow>)
    ensures ResourceMeaning(g, Fold(AddResource, NO_RESOURCE, g))
  {
    if g == [] {
      assert Elems<string>([]) == {};
    } else {
      var n := |g| - 1;
      ResourceFold(g[..n]);
      ElemsConcat(Flatten(g[..n], RoutesOf), g[n].routes);
    }
  }

  /** t is the least of the given instants. */
  ghost predicate IsLeast(s: seq<int>, t: int) {
    t in s && forall u :: u in s ==> t <= u
  }

  ghost predicate IsGreatest(s: seq<int>, t: int) {
    t in s && forall u :: u in s ==> u <= t
  }

  function FirstSeenOf(r: ErrorRow): seq<int> { [r.firstSeen] }
  function LastSeenOf(r: ErrorRow): seq<int> { [r.lastSeen] }

  ghost predicate ErrorMeaning(g: seq<ErrorRow>, e: ErrorRow) {
    && g != []
    && e.signature == g[0].signature
    && e.sample == g[0].sample
    && e.count == Sum(g, ErrorCountOf)
    && IsLeast(Flatten(g, FirstSeenOf), e.firstSeen)
    && IsGreatest(Flatten(g, LastSeenOf), e.lastSeen)
    && Elems(e.routes) == Elems(Flatten(g, ErrorRoutesOf))
  }

  lemma {:induction false} UnionElems(a: seq<string>, b: seq<string>)
    ensures Elems(Union(a, b)) == Elems(a) + Elems(b)
  {
    if b == [] {
      assert Elems<string>([]) == {};
    } else {
      var n := |b| - 1;
      UnionElems(a, b[..n]);
      assert b == b[..n] + [b[n]];
      assert Elems(b) == Elems(b[..n]) + {b[n]};
      var u := Union(a, b[..n]);
      if b[n] in u {
        assert b[n] in Elems(u);
      } else {
        assert Elems(u + [b[n]]) == Elems(u) + {b[n]};
      }
    }
  }

  lemma LeastStep(s: seq<int>, t: int, u: int)
    requires IsLeast(s, t)
    ensures IsLeast(s + [u], if u < t then u else t)
  {
  }

  lemma GreatestStep(s: seq<int>, t: int, u: int)
    requires IsGreatest(s, t)
    ensures IsGreatest(s + [u], if u > t then u else t)
  {
  }

  lemma ErrorStep(g: seq<ErrorRow>, e: ErrorRow, r: ErrorRow)
    requires ErrorMeaning(g, e)
    ensures ErrorMeaning(g + [r], AddError(Some(e), r).value)
  {
    Snoc(g, r);
    LeastStep(Flatten(g, FirstSeenOf), e.firstSeen, r.firstSeen);
    GreatestStep(Flatten(g, LastSeenOf), e.lastSeen, r.lastSeen);
    UnionElems([], e.routes);
    UnionElems(Union([], e.routes), r.routes);
    ElemsConcat(Flatten(g, ErrorRoutesOf), r.routes);
    assert Elems<string>([]) == {};
  }

  lemma ErrorStart(r: ErrorRow)
    ensures ErrorMeaning([r], r)
  {
    Snoc([], r);
    assert [] + [r] == [r];
    FlattenOne(r, FirstSeenOf);
    FlattenOne(r, LastSeenOf);
    FlattenOne(r, ErrorRoutesOf);
  }

  lemma FlattenOne<S, T>(r: S, part: S -> seq<T>)
    ensures Flatten([r], part) == part(r)
  {
    assert [r][..0] == [];
    assert [] + part(r) == part(r);
  }

  lemma {:induction false} ErrorFold(g: seq<ErrorRow>)
    requires g != []
    ensures Fold(AddError, None, g).Some? && ErrorMeaning(g, Fold(AddError, None, g).value)
  {
    var n := |g| - 1;
    assert g == g[..n] + [g[n]];
    if n == 0 {
      assert g[..0] == [];
      ErrorStart(g[0]);
    } else {
      ErrorFold(g[..n]);
      ErrorStep(g[..n], Fold(AddError, None, g[..n]).value, g[n]);
    }
  }

  lemma {:induction false} DeviceFold(g: seq<DeviceRow>)
    ensures Fold(AddDevice, 0, g) == Sum(g, DeviceCountOf)
  {
    if g != [] {
      DeviceFold(g[..|g| - 1]);
    }
  }

  lemma {:induction false} FiguresFold(g: seq<MetricRow>)
    ensures Fold(AddFigures, [], g) == Flatten(g, FiguresOf)
  {
    if g != [] {
      FiguresFold(g[..|g| - 1]);
    }
  }

  lemma {:induction false} SessionFold(list: seq<RumSummary>)
    ensures Fold(AddSessions, 0, list) == Sum(list, SessionsOf)
  {
    if list != [] {
      SessionFold(list[..|list| - 1]);
    }
  }

  lemma {:induction false} SinceFold(list: seq<RumSummary>)
    ensures var t, all := Fold(AddSince, None, list), Flatten(list, SinceOf);
      if all == [] then t == None else t.Some? && IsLeast(all, t.value)
  {
    if list != [] {
      var n := |list| - 1;
      SinceFold(list[..n]);
      var t, before := Fold(AddSince, None, list[..n]), Flatten(list[..n], SinceOf);
      if list[n].since.Some? && t.Some? {
        LeastStep(before, t.value, list[n].since.value);
      }
    }
  }

  lemma {:induction false} AvailableFold(list: seq<RumSummary>)
    ensures Fold(AddAvailable, false, list) <==> exists s :: s in list && s.available
  {
    if list != [] {
      var n := |list| - 1;
      AvailableFold(list[..n]);
      assert list == list[..n] + [list[n]];
    }
  }

  // ----- Main results -----

  /** What the replicas say about one route, resource, error signature, device or metric, one replica after the other. */
  function ViewGroup(list: seq<RumSummary>, route: string): seq<ViewRow> {
    Filter(Flatten(list, (s: RumSummary) => s.views), (r: ViewRow) => r.route == route)
  }

  function ResourceGroup(list: seq<RumSummary>, url: string): seq<ResourceRow> {
    Filter(Flatten(list, (s: RumSummary) => s.resources), (r: ResourceRow) => r.url == url)
  }

  function ErrorGroup(list: seq<RumSummary>, signature: string): seq<ErrorRow> {
    Filter(Flatten(list, (s: RumSummary) => s.errors), (r: ErrorRow) => r.signature == signature)
  }

  function DeviceGroup(list: seq<RumSummary>, device: string): seq<DeviceRow> {
    Filter(Flatten(list, (s: RumSummary) => s.devices), (r: DeviceRow) => r.device == device)
  }

  function VitalGroup(list: seq<RumSummary>, route: string, metric: string): seq<MetricRow> {
    Filter(Flatten(list, (s: RumSummary) => s.vitals), (r: MetricRow) => r.route == route && r.metric == metric)
  }

  function NavGroup(list: seq<RumSummary>, route: string, metric: string): seq<MetricRow> {
    Filter(Flatten(list, (s: RumSummary) => s.nav), (r: MetricRow) => r.route == route && r.metric == metric)
  }

  lemma {:induction false} FlattenSame<S, T>(list: seq<S>, f: S -> seq<T>, g: S -> seq<T>)
    requires forall s :: f(s) == g(s)
    ensures Flatten(list, f) == Flatten(list, g)
  {
    if list != [] {
      FlattenSame(list[..|list| - 1], f, g);
    }
  }

  /** The rows that the table gathers under a key are those of the replicas that carry the key. */
  lemma ViewGroupIs(list: seq<RumSummary>, route: string)
    ensures Of(Flatten(list, Views), ViewKey, route) == ViewGroup(list, route)
  {
    FlattenSame(list, Views, (s: RumSummary) => s.views);
    OfIsFilter(Flatten(list, Views), ViewKey, route, (r: ViewRow) => r.route == route);
  }

  lemma ResourceGroupIs(list: seq<RumSummary>, url: string)
    ensures Of(Flatten(list, Resources), ResourceKey, url) == ResourceGroup(list, url)
  {
    FlattenSame(list, Resources, (s: RumSummary) => s.resources);
    OfIsFilter(Flatten(list, Resources), ResourceKey, url, (r: ResourceRow) => r.url == url);
  }

  lemma ErrorGroupIs(list: seq<RumSummary>, signature: string)
    ensures Of(Flatten(list, Errors), ErrorKey, signature) == ErrorGroup(list, signature)
  {
    FlattenSame(list, Errors, (s: RumSummary) => s.errors);
    OfIsFilter(Flatten(list, Errors), ErrorKey, signature, (r: ErrorRow) => r.signature == signature);
  }

  lemma DeviceGroupIs(list: seq<RumSummary>, device: string)
    ensures Of(Flatten(list, Devices), DeviceKey, device) == DeviceGroup(list, device)
  {
    FlattenSame(list, Devices, (s: RumSummary) => s.devices);
    OfIsFilter(Flatten(list, Devices), DeviceKey, device, (r: DeviceRow) => r.device == device);
  }

  lemma MetricGroupsAre(list: seq<RumSummary>, route: string, metric: string)
    ensures Of(Flatten(list, Vitals), MetricKey, (route, metric)) == VitalGroup(list, route, metric)
    ensures Of(Flatten(list, Nav), MetricKey, (route, metric)) == NavGroup(list, route, metric)
  {
    FlattenSame(list, Vitals, (s: RumSummary) => s.vitals);
    OfIsFilter(Flatten(list, Vitals), MetricKey, (route, metric), (r: MetricRow) => r.route == route && r.metric == metric);
    FlattenSame(list, Nav, (s: RumSummary) => s.nav);
    OfIsFilter(Flatten(list, Nav), MetricKey, (route, metric), (r: MetricRow) => r.route == route && r.metric == metric);
  }

  /** Each route's views and entries are the sums over the replicas, and its durations the replicas' durations. */
  lemma ViewsConserved(list: seq<RumSummary>, route: string)
    ensures ViewMeaning(ViewGroup(list, route), Merge(list).views.Get(route, ViewEntry(0, 0, [])))
  {
    GroupByMeaning(Flatten(list, Views), ViewKey, NO_VIEWS, AddView, route);
    ViewGroupIs(list, route);
    ViewFold(ViewGroup(list, route));
  }

  /** Each resource's counts and errors are summed and its routes united. */
  lemma ResourcesConserved(list: seq<RumSummary>, url: string)
    ensures ResourceMeaning(ResourceGroup(list, url), Merge(list).resources.Get(url, ResourceEntry(0, [], [], 0, {})))
  {
    GroupByMeaning(Flatten(list, Resources), ResourceKey, NO_RESOURCE, AddResource, url);
    ResourceGroupIs(list, url);
    ResourceFold(ResourceGroup(list, url));
  }

  /** A known error sums its counts, spans from the least first to the greatest last sighting, and unites its routes. */
  lemma ErrorsConserved(list: seq<RumSummary>, signature: string)
    ensures var g, e := ErrorGroup(list, signature), Merge(list).errors.Get(signature, None);
      (e.Some? <==> g != []) && (e.Some? ==> ErrorMeaning(g, e.value) && e.value.signature == signature)
  {
    var g := ErrorGroup(list, signature);
    GroupByMeaning(Flatten(list, Errors), ErrorKey, None, AddError, signature);
    ErrorGroupIs(list, signature);
    if g != [] {
      ErrorFold(g);
      OfMembers(Flatten(list, Errors), ErrorKey, signature, g[0]);
    }
  }

  lemma DevicesConserved(list: seq<RumSummary>, device: string)
    ensures Merge(list).devices.Get(device, 0) == Sum(DeviceGroup(list, device), DeviceCountOf)
    ensures Merge(list).sessions == Sum(list, SessionsOf)
  {
    GroupByMeaning(Flatten(list, Devices), DeviceKey, 0, AddDevice, device);
    DeviceGroupIs(list, device);
    DeviceFold(DeviceGroup(list, device));
    SessionFold(list);
  }

  /** The figures merged for a metric are exactly the replicas' figures for it. */
  lemma FiguresCollected(list: seq<RumSummary>, route: string, metric: string)
    ensures Merge(list).vitals.Get((route, metric), []) == Flatten(VitalGroup(list, route, metric), FiguresOf)
    ensures Merge(list).nav.Get((route, metric), []) == Flatten(NavGroup(list, route, metric), FiguresOf)
  {
    MetricGroupsAre(list, route, metric);
    GroupByMeaning(Flatten(list, Vitals), MetricKey, [], AddFigures, (route, metric));
    FiguresFold(VitalGroup(list, route, metric));
    GroupByMeaning(Flatten(list, Nav), MetricKey, [], AddFigures, (route, metric));
    FiguresFold(NavGroup(list, route, metric));
  }

  /** The merge is available if a replica is, and starts at the least of their starts. */
  lemma WholeMeaning(list: seq<RumSummary>)
    ensures Merge(list).available <==> exists s :: s in list && s.available
    ensures var t, all := Merge(list).since, Flatten(list, SinceOf);
      if all == [] then t == None else t.Some? && IsLeast(all, t.value)
  {
    AvailableFold(list);
    SinceFold(list);
  }

  // ----- Totals over all keys -----

  function EntryViews(e: ViewEntry): int { e.views }
  function EntryEntries(e: ViewEntry): int { e.entries }
  function EntryCount(e: ResourceEntry): int { e.count }
  function EntryFailures(e: ResourceEntry): int { e.errors }
  function EntryErrors(e: Option<ErrorRow>): int { if e.Some? then e.value.count else 0 }

  lemma {:induction false} AllKeyed<T, K>(s: seq<T>, key: T -> Option<K>, g: T -> int)
    requires forall x :: x in s ==> key(x).Some?
    ensures Sum(s, Keyed(key, g)) == Sum(s, g)
  {
    if s != [] {
      AllKeyed(s[..|s| - 1], key, g);
    }
  }

  lemma {:induction false} SumFlatten<S, T>(list: seq<S>, part: S -> seq<T>, g: T -> int)
    ensures Sum(Flatten(list, part), g) == Sum(list, SumPart(part, g))
  {
    if list != [] {
      var n := |list| - 1;
      SumFlatten(list[..n], part, g);
      SumConcat(Flatten(list[..n], part), part(list[n]), g);
    }
  }

  function SumPart<S, T>(part: S -> seq<T>, g: T -> int): S -> int {
    s => Sum(part(s), g)
  }

  /** Nothing is lost or counted twice: each total after the merge is the sum of the replicas' totals. */
  lemma TotalsConserved(list: seq<RumSummary>)
    ensures MapSum(Merge(list).views.rows, EntryViews) == Sum(list, SumPart(Views, ViewsOf))
    ensures MapSum(Merge(list).views.rows, EntryEntries) == Sum(list, SumPart(Views, EntriesOf))
    ensures MapSum(Merge(list).resources.rows, EntryCount) == Sum(list, SumPart(Resources, CountOf))
    ensures MapSum(Merge(list).resources.rows, EntryFailures) == Sum(list, SumPart(Resources, FailuresOf))
    ensures MapSum(Merge(list).errors.rows, EntryErrors) == Sum(list, SumPart(Errors, ErrorCountOf))
    ensures MapSum(Merge(list).devices.rows, Whole) == Sum(list, SumPart(Devices, DeviceCountOf))
  {
    TableTotal(list, Views, ViewKey, NO_VIEWS, AddView, EntryViews, ViewsOf);
    TableTotal(list, Views, ViewKey, NO_VIEWS, AddView, EntryEntries, EntriesOf);
    TableTotal(list, Resources, ResourceKey, NO_RESOURCE, AddResource, EntryCount, CountOf);
    TableTotal(list, Resources, ResourceKey, NO_RESOURCE, AddResource, EntryFailures, FailuresOf);
    TableTotal(list, Errors, ErrorKey, None, AddError, EntryErrors, ErrorCountOf);
    TableTotal(list, Devices, DeviceKey, 0, AddDevice, Whole, DeviceCountOf);
  }

  lemma TableTotal<T(!new), K, V(!new)>(list: seq<RumSummary>, part: RumSummary -> seq<T>, key: T -> Option<K>, init: V,
      step: (V, T) -> V, f: V -> int, g: T -> int)
    requires Additive(init, step, f, g) && forall x :: key(x).Some?
    ensures MapSum(GroupBy(Flatten(list, part), key, init, step).rows, f) == Sum(list, SumPart(part, g))
  {
    GroupTotal(Flatten(list, part), key, init, step, f, g);
    AllKeyed(Flatten(list, part), key, g);
    SumFlatten(list, part, g);
  }

  // ----- Order of the replicas -----

  lemma {:induction false} FlattenConcat<S, T>(a: seq<S>, b: seq<S>, part: S -> seq<T>)
    ensures Flatten(a + b, part) == Flatten(a, part) + Flatten(b, part)
  {
    if b == [] {
      assert a + b == a;
    } else {
      var n := |b| - 1;
      FlattenConcat(a, b[..n], part);
      assert (a + b)[..|a + b| - 1] == a + b[..n];
    }
  }

  lemma {:induction false} FlattenPermuted<S, T>(a: seq<S>, b: seq<S>, part: S -> seq<T>)
    requires multiset(a) == multiset(b)
    ensures multiset(Flatten(a, part)) == multiset(Flatten(b, part))
    decreases |b|
  {
    if b == [] {
      assert |multiset(a)| == 0;
    } else {
      var n := |b| - 1;
      var x := b[n];
      assert b == b[..n] + [x];
      assert x in multiset(b);
      var i := RemoveFirst(a, x);
      FlattenPermuted(a[..i] + a[i + 1..], b[..n], part);
      FlattenConcat(a[..i] + [x], a[i + 1..], part);
      FlattenConcat(a[..i], [x], part);
      FlattenConcat(a[..i], a[i + 1..], part);
      FlattenOne(x, part);
    }
  }

  lemma GroupPermuted<T, K>(a: seq<RumSummary>, b: seq<RumSummary>, part: RumSummary -> seq<T>, key: T -> Option<K>, k: K)
    requires multiset(a) == multiset(b)
    ensures multiset(Of(Flatten(a, part), key, k)) == multiset(Of(Flatten(b, part), key, k))
  {
    FlattenPermuted(a, b, part);
    OfPermuted(Flatten(a, part), Flatten(b, part), key, k);
  }

  lemma PermutedElems<T>(a: seq<T>, b: seq<T>)
    requires multiset(a) == multiset(b)
    ensures Elems(a) == Elems(b) && |a| == |b|
  {
    assert forall x :: x in a <==> x in multiset(a);
    assert forall x :: x in b <==> x in multiset(b);
    assert |multiset(a)| == |a|;
  }

  /** The mean shown as a route's average duration. */
  function Average(durations: seq<real>): Option<int> {
    if durations == [] then None else Some(Round(RealSum(durations, Identity) / (|durations| as real)))
  }

  /** It is the mean, to the nearest integer. */
  lemma AverageMeaning(durations: seq<real>)
    ensures Average(durations).None? <==> durations == []
    ensures durations != [] ==>
      var n, m, sum := |durations| as real, Average(durations).value as real, RealSum(durations, (x: real) => x);
      (m - 0.5) * n <= sum < (m + 0.5) * n
  {
    if durations != [] {
      var mean := RealSum(durations, Identity) / (|durations| as real);
      SameSum(durations);
      assert Round(mean) as real <= mean + 0.5 < Round(mean) as real + 1.0;
      QuotientBounds(Round(mean) as real - 0.5, RealSum(durations, Identity), Round(mean) as real + 0.5, |durations| as real);
    }
  }

  lemma {:induction false} SameSum(s: seq<real>)
    ensures RealSum(s, Identity) == RealSum(s, (x: real) => x)
  {
    if s != [] {
      SameSum(s[..|s| - 1]);
    }
  }

  function Largest(s: seq<real>): real
    requires s != []
  {
    var n := |s| - 1;
    if n == 0 then s[0]
    else
      var m := Largest(s[..n]);
      if m >= s[n] then m else s[n]
  }

  lemma {:induction false} LargestIsMax(s: seq<real>)
    requires s != []
    ensures Largest(s) in s && forall x :: x in s ==> x <= Largest(s)
  {
    var n := |s| - 1;
    assert s == s[..n] + [s[n]];
    if n > 0 {
      LargestIsMax(s[..n]);
    }
  }

  lemma LargestPermuted(a: seq<real>, b: seq<real>)
    requires a != [] && multiset(a) == multiset(b)
    ensures b != [] && Largest(a) == Largest(b)
  {
    PermutedElems(a, b);
    LargestIsMax(a);
    LargestIsMax(b);
    assert Largest(a) in Elems(b) && Largest(b) in Elems(a);
  }

  ghost predicate SameViews(e: ViewEntry, f: ViewEntry) {
    e.views == f.views && e.entries == f.entries && Average(e.durations) == Average(f.durations)
  }

  /** The figures shown for a resource. */
  ghost predicate SameResource(e: ResourceEntry, f: ResourceEntry) {
    && e.count == f.count
    && e.errors == f.errors
    && e.routes == f.routes
    && (e.p50 == [] <==> f.p50 == []) && (e.p50 != [] ==> Largest(e.p50) == Largest(f.p50))
    && (e.p95 == [] <==> f.p95 == []) && (e.p95 != [] ==> Largest(e.p95) == Largest(f.p95))
  }

  /** All but the sample, which the first replica to report the error provides. */
  ghost predicate SameError(e: Option<ErrorRow>, f: Option<ErrorRow>) {
    && (e.None? <==> f.None?)
    && (e.Some? ==>
          && e.value.signature == f.value.signature
          && e.value.count == f.value.count
          && e.value.firstSeen == f.value.firstSeen
          && e.value.lastSeen == f.value.lastSeen
          && Elems(e.value.routes) == Elems(f.value.routes))
  }

  lemma ViewsPermuted(a: seq<RumSummary>, b: seq<RumSummary>, route: string)
    requires multiset(a) == multiset(b)
    ensures SameViews(Merge(a).views.Get(route, NO_VIEWS), Merge(b).views.Get(route, NO_VIEWS))
  {
    var g, h := ViewGroup(a, route), ViewGroup(b, route);
    ViewGroupIs(a, route);
    ViewGroupIs(b, route);
    ViewsConserved(a, route);
    ViewsConserved(b, route);
    GroupPermuted(a, b, Views, ViewKey, route);
    SumPermuted(g, h, ViewsOf);
    SumPermuted(g, h, EntriesOf);
    FlattenPermuted(g, h, DurationOf);
    RealSumPermuted(Flatten(g, DurationOf), Flatten(h, DurationOf), Identity);
    PermutedElems(Flatten(g, DurationOf), Flatten(h, DurationOf));
  }

  lemma ResourcePermuted(g: seq<ResourceRow>, h: seq<ResourceRow>, e: ResourceEntry, f: ResourceEntry)
    requires multiset(g) == multiset(h) && ResourceMeaning(g, e) && ResourceMeaning(h, f)
    ensures SameResource(e, f)
  {
    SumPermuted(g, h, CountOf);
    SumPermuted(g, h, FailuresOf);
    FlattenPermuted(g, h, P50Of);
    FlattenPermuted(g, h, P95Of);
    FlattenPermuted(g, h, RoutesOf);
    PermutedElems(Flatten(g, RoutesOf), Flatten(h, RoutesOf));
    PermutedElems(e.p50, f.p50);
    PermutedElems(e.p95, f.p95);
    if e.p50 != [] {
      LargestPermuted(e.p50, f.p50);
    }
    if e.p95 != [] {
      LargestPermuted(e.p95, f.p95);
    }
  }

  lemma ErrorPermuted(g: seq<ErrorRow>, h: seq<ErrorRow>, e: ErrorRow, f: ErrorRow)
    requires multiset(g) == multiset(h) && ErrorMeaning(g, e) && ErrorMeaning(h, f)
    ensures e.count == f.count && e.firstSeen == f.firstSeen && e.lastSeen == f.lastSeen
    ensures Elems(e.routes) == Elems(f.routes)
  {
    SumPermuted(g, h, ErrorCountOf);
    FlattenPermuted(g, h, FirstSeenOf);
    FlattenPermuted(g, h, LastSeenOf);
    FlattenPermuted(g, h, ErrorRoutesOf);
    PermutedElems(Flatten(g, ErrorRoutesOf), Flatten(h, ErrorRoutesOf));
    LeastPermuted(Flatten(g, FirstSeenOf), Flatten(h, FirstSeenOf), e.firstSeen, f.firstSeen);
    GreatestPermuted(Flatten(g, LastSeenOf), Flatten(h, LastSeenOf), e.lastSeen, f.lastSeen);
  }

  lemma LeastPermuted(a: seq<int>, b: seq<int>, t: int, u: int)
    requires multiset(a) == multiset(b) && IsLeast(a, t) && IsLeast(b, u)
    ensures t == u
  {
    PermutedElems(a, b);
    assert t in Elems(b) && u in Elems(a);
  }

  lemma GreatestPermuted(a: seq<int>, b: seq<int>, t: int, u: int)
    requires multiset(a) == multiset(b) && IsGreatest(a, t) && IsGreatest(b, u)
    ensures t == u
  {
    PermutedElems(a, b);
    assert t in Elems(b) && u in Elems(a);
  }

  /** The order of the replicas changes no per-key value (an error's sample aside). */
  lemma OrderOfReplicas(a: seq<RumSummary>, b: seq<RumSummary>, key: string)
    requires multiset(a) == multiset(b)
    ensures SameViews(Merge(a).views.Get(key, NO_VIEWS), Merge(b).views.Get(key, NO_VIEWS))
    ensures SameResource(Merge(a).resources.Get(key, NO_RESOURCE), Merge(b).resources.Get(key, NO_RESOURCE))
    ensures SameError(Merge(a).errors.Get(key, None), Merge(b).errors.Get(key, None))
    ensures Merge(a).devices.Get(key, 0) == Merge(b).devices.Get(key, 0)
    ensures Merge(a).sessions == Merge(b).sessions
    ensures Merge(a).since == Merge(b).since && Merge(a).available == Merge(b).available
  {
    ViewsPermuted(a, b, key);
    ResourcesConserved(a, key);
    ResourcesConserved(b, key);
    ResourceGroupIs(a, key);
    ResourceGroupIs(b, key);
    GroupPermuted(a, b, Resources, ResourceKey, key);
    ResourcePermuted(ResourceGroup(a, key), ResourceGroup(b, key),
                     Merge(a).resources.Get(key, NO_RESOURCE), Merge(b).resources.Get(key, NO_RESOURCE));
    ErrorsPermuted(a, b, key);
    DevicesConserved(a, key);
    DevicesConserved(b, key);
    DeviceGroupIs(a, key);
    DeviceGroupIs(b, key);
    GroupPermuted(a, b, Devices, DeviceKey, key);
    SumPermuted(DeviceGroup(a, key), DeviceGroup(b, key), DeviceCountOf);
    SumPermuted(a, b, SessionsOf);
    WholePermuted(a, b);
  }

  lemma ErrorsPermuted(a: seq<RumSummary>, b: seq<RumSummary>, signature: string)
    requires multiset(a) == multiset(b)
    ensures SameError(Merge(a).errors.Get(signature, None), Merge(b).errors.Get(signature, None))
  {
    ErrorsConserved(a, signature);
    ErrorsConserved(b, signature);
    ErrorGroupIs(a, signature);
    ErrorGroupIs(b, signature);
    var g, h := ErrorGroup(a, signature), ErrorGroup(b, signature);
    GroupPermuted(a, b, Errors, ErrorKey, signature);
    PermutedElems(g, h);
    if g != [] {
      ErrorPermuted(g, h, Merge(a).errors.Get(signature, None).value, Merge(b).errors.Get(signature, None).value);
    }
  }

  lemma WholePermuted(a: seq<RumSummary>, b: seq<RumSummary>)
    requires multiset(a) == multiset(b)
    ensures Merge(a).since == Merge(b).since && Merge(a).available == Merge(b).available
  {
    SinceFold(a);
    SinceFold(b);
    FlattenPermuted(a, b, SinceOf);
    var s, t := Flatten(a, SinceOf), Flatten(b, SinceOf);
    PermutedElems(s, t);
    if s != [] {
      LeastPermuted(s, t, Merge(a).since.value, Merge(b).since.value);
    }
    AvailableFold(a);
    AvailableFold(b);
    PermutedElems(a, b);
    assert forall x :: x in a <==> x in Elems(a);
    assert forall x :: x in b <==> x in Elems(b);
  }

  /** Nor does it change the merged percentiles of any route and metric. */
  lemma FiguresPermuted(a: seq<RumSummary>, b: seq<RumSummary>, route: string, metric: string)
    requires multiset(a) == multiset(b)
    ensures var p, q := Merge(a).vitals.Get((route, metric), []), Merge(b).vitals.Get((route, metric), []);
      |p| == |q| && (p != [] ==> MergePct(p) == MergePct(q))
    ensures var p, q := Merge(a).nav.Get((route, metric), []), Merge(b).nav.Get((route, metric), []);
      |p| == |q| && (p != [] ==> MergePct(p) == MergePct(q))
  {
    FiguresCollected(a, route, metric);
    FiguresCollected(b, route, metric);
    MetricGroupsAre(a, route, metric);
    MetricGroupsAre(b, route, metric);
    GroupPermuted(a, b, Vitals, MetricKey, (route, metric));
    GroupPermuted(a, b, Nav, MetricKey, (route, metric));
    PartPermuted(VitalGroup(a, route, metric), VitalGroup(b, route, metric));
    PartPermuted(NavGroup(a, route, metric), NavGroup(b, route, metric));
  }

  lemma PartPermuted(g: seq<MetricRow>, h: seq<MetricRow>)
    requires multiset(g) == multiset(h)
    ensures var p, q := Flatten(g, FiguresOf), Flatten(h, FiguresOf);
      |p| == |q| && (p != [] ==> MergePct(p) == MergePct(q))
  {
    FlattenPermuted(g, h, FiguresOf);
    var p, q := Flatten(g, FiguresOf), Flatten(h, FiguresOf);
    PermutedElems(p, q);
    if p != [] {
      MergePermuted(p, q);
    }
  }
}
