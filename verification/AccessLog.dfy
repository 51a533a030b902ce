/** The access-log summariser: one pass over the records, against independent filter-and-count. */
module AccessLog {
  import opened Collections
  import opened Grouping
  import opened Percentiles
  import opened Routes
  import opened Sorting
  import opened Text

  datatype AccessRecord = AccessRecord(
    time: Option<string>,
    path: Option<string>,
    status: Option<int>,
    requestMs: Option<real>,
    upstreamMs: Option<real>,
    upstream: Option<string>
  )

  // ----- What a record is grouped by -----

  function StatusOf(r: AccessRecord): int { r.status.GetOr(0) }

  /** The hundred a status falls into, rounding down. */
  function ClassOf(status: int): int { status / 100 }

  function StatusKey(r: AccessRecord): Option<int> { Some(StatusOf(r)) }

  function ClassKey(r: AccessRecord): Option<int> { Some(ClassOf(StatusOf(r))) }

  function PathKey(r: AccessRecord): Option<string> { Some(NormalizePath(r.path.GetOr("/"))) }

  /** The first address of the upstream list; none when the record has no upstream. */
  function UpstreamKey(r: AccessRecord): Option<string> {
    if r.upstream.Some? && r.upstream.value != "" && r.upstream.value != "-" then
      Some(Trim(Before(r.upstream.value, ',')))
    else None
  }

  // ----- The rows kept for each group -----

  datatype PathEntry = PathEntry(count: nat, times: seq<real>, errors: nat)

  datatype UpstreamEntry = UpstreamEntry(count: nat, times: seq<real>, upstreamTimes: seq<real>, errors5xx: nat, timeouts504: nat)

  function Push(times: seq<real>, t: Option<real>): seq<real> {
    if t.Some? then times + [t.value] else times
  }

  function AddToPath(e: PathEntry, r: AccessRecord): PathEntry {
    PathEntry(e.count + 1, Push(e.times, r.requestMs), if StatusOf(r) >= 500 then e.errors + 1 else e.errors)
  }

  function AddToUpstream(e: UpstreamEntry, r: AccessRecord): UpstreamEntry {
    UpstreamEntry(e.count + 1, Push(e.times, r.requestMs), Push(e.upstreamTimes, r.upstreamMs),
      if StatusOf(r) >= 500 then e.errors5xx + 1 else e.errors5xx,
      if StatusOf(r) == 504 then e.timeouts504 + 1 else e.timeouts504)
  }

  const NO_PATH := PathEntry(0, [], 0)
  const NO_UPSTREAM := UpstreamEntry(0, [], [], 0, 0)

  // ----- Independent filters -----

  function CountIf(s: seq<AccessRecord>, p: AccessRecord -> bool): nat {
    if s == [] then 0
    else
      var before := CountIf(s[..|s| - 1], p);
      if p(s[|s| - 1]) then before + 1 else before
  }

  /** The values of a field on the records that have it, in order. */
  function Present(s: seq<AccessRecord>, field: AccessRecord -> Option<real>): seq<real> {
    if s == [] then [] else Push(Present(s[..|s| - 1], field), field(s[|s| - 1]))
  }

  predicate IsServerError(r: AccessRecord) { StatusOf(r) >= 500 }
  predicate IsTimeout(r: AccessRecord) { StatusOf(r) == 504 }
  predicate IsAbandoned(r: AccessRecord) { StatusOf(r) == 499 }
  function RequestMs(r: AccessRecord): Option<real> { r.requestMs }
  function UpstreamMs(r: AccessRecord): Option<real> { r.upstreamMs }

  /** How much longer the client waited than the upstream took. */
  function Gap(r: AccessRecord): Option<real> {
    if r.requestMs.Some? && r.upstreamMs.Some? then
      var d := r.requestMs.value - r.upstreamMs.value;
      Some(if d > 0.0 then d else 0.0)
    else None
  }

  function Pct(values: seq<real>, p: int): Option<int> {
    if values == [] then None else Some(Round(Percentile(SortBy(values, Identity), p)))
  }

  /** The independent reading of one path's row. */
  function PathMeaning(s: seq<AccessRecord>): PathEntry {
    PathEntry(|s|, Present(s, RequestMs), CountIf(s, IsServerError))
  }

  function UpstreamMeaning(s: seq<AccessRecord>): UpstreamEntry {
    UpstreamEntry(|s|, Present(s, RequestMs), Present(s, UpstreamMs), CountIf(s, IsServerError), CountIf(s, IsTimeout))
  }

  lemma {:induction false} PathFold(s: seq<AccessRecord>)
    ensures Fold(AddToPath, NO_PATH, s) == PathMeaning(s)
  {
    if s != [] {
      PathFold(s[..|s| - 1]);
    }
  }

  lemma {:induction false} UpstreamFold(s: seq<AccessRecord>)
    ensures Fold(AddToUpstream, NO_UPSTREAM, s) == UpstreamMeaning(s)
  {
    if s != [] {
      UpstreamFold(s[..|s| - 1]);
    }
  }

  // ----- Suspicious paths -----

  datatype Suspicion<R> = Suspicion(count: nat, reason: R)

  /** The key and the first matching reason of a record; `probe` stands for the list of patterns. */
  function SuspectKey<R>(probe: string -> Option<R>): AccessRecord -> Option<string> {
    (r: AccessRecord) => if probe(r.path.GetOr("")).Some? then PathKey(r) else None
  }

  function AddSuspect<R>(probe: string -> Option<R>): (Option<Suspicion<R>>, AccessRecord) -> Option<Suspicion<R>> {
    (e: Option<Suspicion<R>>, r: AccessRecord) =>
      match probe(r.path.GetOr(""))
      case None => e
      case Some(reason) => Some(if e.None? then Suspicion(1, reason) else Suspicion(e.value.count + 1, e.value.reason))
  }

  /** A suspicious path counts its suspicious records and keeps the reason of the first. */
  lemma {:induction false} SuspectFold<R>(s: seq<AccessRecord>, probe: string -> Option<R>)
    requires forall i :: 0 <= i < |s| ==> probe(s[i].path.GetOr("")).Some?
    ensures var e := Fold(AddSuspect(probe), None, s);
      if s == [] then e == None else e == Some(Suspicion(|s|, probe(s[0].path.GetOr("")).value))
  {
    if s != [] {
      var n := |s| - 1;
      assert forall i :: 0 <= i < n ==> s[..n][i] == s[i];
      SuspectFold(s[..n], probe);
      assert probe(s[n].path.GetOr("")).Some?;
    }
  }

  // ----- The summary -----

  datatype Tables<R> = Tables(
    lines: nat,
    from: Option<string>,
    to: Option<string>,
    byStatusClass: Table<int, nat>,
    byStatus: Table<int, nat>,
    paths: Table<string, PathEntry>,
    upstreams: Table<string, UpstreamEntry>,
    suspicious: Table<string, Option<Suspicion<R>>>,
    gaps: seq<real>,
    clientAbandoned499: nat
  )

  predicate HasTime(r: AccessRecord) { r.time.Some? && r.time.value != "" }

  function FirstTime(s: seq<AccessRecord>): Option<string> {
    if s == [] then None
    else
      var before := FirstTime(s[..|s| - 1]);
      if before.None? && HasTime(s[|s| - 1]) then s[|s| - 1].time else before
  }

  function LastTime(s: seq<AccessRecord>): Option<string> {
    if s == [] then None else if HasTime(s[|s| - 1]) then s[|s| - 1].time else LastTime(s[..|s| - 1])
  }

  function Summary<R>(s: seq<AccessRecord>, probe: string -> Option<R>): Tables<R> {
    Tables(|s|, FirstTime(s), LastTime(s),
      GroupBy(s, ClassKey, 0, AddCount),
      GroupBy(s, StatusKey, 0, AddCount),
      GroupBy(s, PathKey, NO_PATH, AddToPath),
      GroupBy(s, UpstreamKey, NO_UPSTREAM, AddToUpstream),
      GroupBy(s, SuspectKey(probe), None, AddSuspect(probe)),
      Present(s, Gap),
      CountIf(s, IsAbandoned))
  }

  /** What one record does to the summary. */
  function Note<R>(t: Tables<R>, r: AccessRecord, probe: string -> Option<R>): Tables<R> {
    Tables(t.lines + 1,
      if t.from.None? && HasTime(r) then r.time else t.from,
      if HasTime(r) then r.time else t.to,
      Add(t.byStatusClass, r, ClassKey, 0, AddCount),
      Add(t.byStatus, r, StatusKey, 0, AddCount),
      Add(t.paths, r, PathKey, NO_PATH, AddToPath),
      Add(t.upstreams, r, UpstreamKey, NO_UPSTREAM, AddToUpstream),
      Add(t.suspicious, r, SuspectKey(probe), None, AddSuspect(probe)),
      Push(t.gaps, Gap(r)),
      if IsAbandoned(r) then t.clientAbandoned499 + 1 else t.clientAbandoned499)
  }

  lemma SummaryTake<R>(s: seq<AccessRecord>, i: nat, probe: string -> Option<R>)
    requires i < |s|
    ensures Summary(s[..i + 1], probe) == Note(Summary(s[..i], probe), s[i], probe)
  {
    GroupByTake(s, i, ClassKey, 0, AddCount);
    GroupByTake(s, i, StatusKey, 0, AddCount);
    GroupByTake(s, i, PathKey, NO_PATH, AddToPath);
    GroupByTake(s, i, UpstreamKey, NO_UPSTREAM, AddToUpstream);
    GroupByTake(s, i, SuspectKey(probe), None, AddSuspect(probe));
    assert s[..i + 1][..i] == s[..i];
  }

  method Summarize<R>(records: seq<AccessRecord>, probe: string -> Option<R>) returns (t: Tables<R>)
    ensures t == Summary(records, probe)
  {
    var byStatusClass, byStatus := Empty<int, nat>(), Empty<int, nat>();
    var paths, upstreams := Empty<string, PathEntry>(), Empty<string, UpstreamEntry>();
    var suspicious := Empty<string, Option<Suspicion<R>>>();
    var gaps: seq<real> := [];
    var clientAbandoned499: nat := 0;
    var from, to: Option<string> := None, None;
    for i := 0 to |records|
      invariant Tables(i, from, to, byStatusClass, byStatus, paths, upstreams, suspicious, gaps, clientAbandoned499)
        == Summary(records[..i], probe)
    {
      SummaryTake(records, i, probe);
      var r := records[i];
      if HasTime(r) {
        if from.None? {
          from := r.time;
        }
        to := r.time;
      }
      byStatusClass := Add(byStatusClass, r, ClassKey, 0, AddCount);
      byStatus := Add(byStatus, r, StatusKey, 0, AddCount);
      if StatusOf(r) == 499 {
        clientAbandoned499 := clientAbandoned499 + 1;
      }
      paths := Add(paths, r, PathKey, NO_PATH, AddToPath);
      upstreams := Add(upstreams, r, UpstreamKey, NO_UPSTREAM, AddToUpstream);
      gaps := Push(gaps, Gap(r));
      suspicious := Add(suspicious, r, SuspectKey(probe), None, AddSuspect(probe));
    }
    assert records[..|records|] == records;
    t := Tables(|records|, from, to, byStatusClass, byStatus, paths, upstreams, suspicious, gaps, clientAbandoned499);
  }

  // ----- What the summary says -----

  /** Status, path and first upstream address of a record, from its fields; a missing status reads as 0, a missing path as "/". */
  predicate InClassOf(r: AccessRecord, cls: int) { 100 * cls <= r.status.GetOr(0) < 100 * cls + 100 }

  predicate HasStatus(r: AccessRecord, status: int) { r.status.GetOr(0) == status }

  predicate OnPath(r: AccessRecord, path: string) { NormalizePath(r.path.GetOr("/")) == path }

  predicate FromUpstream(r: AccessRecord, upstream: string) {
    match r.upstream
    case None => false
    case Some(list) => list != "" && list != "-" && Trim(Before(list, ',')) == upstream
  }

  predicate Fails(r: AccessRecord) { r.status.GetOr(0) >= 500 }

  /** The entry of the records g of one path. */
  ghost predicate PathEntryOf(g: seq<AccessRecord>, e: PathEntry) {
    && e.count == |g| && e.errors == |Filter(g, Fails)|
    && e.times == Present(g, (r: AccessRecord) => r.requestMs)
  }

  /** The entry of the records g of one upstream. */
  ghost predicate UpstreamEntryOf(g: seq<AccessRecord>, e: UpstreamEntry) {
    && e.count == |g| && e.errors5xx == |Filter(g, Fails)|
    && e.timeouts504 == |Filter(g, (r: AccessRecord) => HasStatus(r, 504))|
    && e.times == Present(g, (r: AccessRecord) => r.requestMs)
    && e.upstreamTimes == Present(g, (r: AccessRecord) => r.upstreamMs)
  }

  lemma {:induction false} CountIfIsFilter(s: seq<AccessRecord>, p: AccessRecord -> bool, q: AccessRecord -> bool)
    requires forall r :: p(r) <==> q(r)
    ensures CountIf(s, p) == |Filter(s, q)|
  {
    if s != [] {
      CountIfIsFilter(s[..|s| - 1], p, q);
    }
  }

  lemma {:induction false} PresentSame(s: seq<AccessRecord>, f: AccessRecord -> Option<real>, g: AccessRecord -> Option<real>)
    requires forall r :: f(r) == g(r)
    ensures Present(s, f) == Present(s, g)
  {
    if s != [] {
      PresentSame(s[..|s| - 1], f, g);
    }
  }

  /** The values of a field come from the records that have it, one each and in their order. */
  lemma {:induction false} PresentMeaning(a: seq<AccessRecord>, b: seq<AccessRecord>, r: AccessRecord, field: AccessRecord -> Option<real>)
    ensures Present([r], field) == if field(r).Some? then [field(r).value] else []
    ensures Present(a + b, field) == Present(a, field) + Present(b, field)
  {
    assert [r][..0] == [];
    if b == [] {
      assert a + b == a;
    } else {
      var n := |b| - 1;
      PresentMeaning(a, b[..n], r, field);
      assert (a + b)[..|a + b| - 1] == a + b[..n];
    }
  }

  lemma StatusCounters(s: seq<AccessRecord>, cls: int, status: int)
    ensures GroupBy(s, ClassKey, 0, AddCount).Get(cls, 0) == |Filter(s, (r: AccessRecord) => InClassOf(r, cls))|
    ensures GroupBy(s, StatusKey, 0, AddCount).Get(status, 0) == |Filter(s, (r: AccessRecord) => HasStatus(r, status))|
  {
    GroupByMeaning(s, ClassKey, 0, AddCount, cls);
    CountFold(Of(s, ClassKey, cls));
    OfIsFilter(s, ClassKey, cls, (r: AccessRecord) => InClassOf(r, cls));
    GroupByMeaning(s, StatusKey, 0, AddCount, status);
    CountFold(Of(s, StatusKey, status));
    OfIsFilter(s, StatusKey, status, (r: AccessRecord) => HasStatus(r, status));
  }

  lemma PathCounters(s: seq<AccessRecord>, path: string)
    ensures PathEntryOf(Filter(s, (r: AccessRecord) => OnPath(r, path)), GroupBy(s, PathKey, NO_PATH, AddToPath).Get(path, NO_PATH))
  {
    var g := Of(s, PathKey, path);
    GroupByMeaning(s, PathKey, NO_PATH, AddToPath, path);
    PathFold(g);
    OfIsFilter(s, PathKey, path, (r: AccessRecord) => OnPath(r, path));
    CountIfIsFilter(g, IsServerError, Fails);
    PresentSame(g, RequestMs, (r: AccessRecord) => r.requestMs);
  }

  lemma UpstreamCounters(s: seq<AccessRecord>, upstream: string)
    ensures UpstreamEntryOf(Filter(s, (r: AccessRecord) => FromUpstream(r, upstream)),
      GroupBy(s, UpstreamKey, NO_UPSTREAM, AddToUpstream).Get(upstream, NO_UPSTREAM))
  {
    var g := Of(s, UpstreamKey, upstream);
    GroupByMeaning(s, UpstreamKey, NO_UPSTREAM, AddToUpstream, upstream);
    UpstreamFold(g);
    OfIsFilter(s, UpstreamKey, upstream, (r: AccessRecord) => FromUpstream(r, upstream));
    CountIfIsFilter(g, IsServerError, Fails);
    CountIfIsFilter(g, IsTimeout, (r: AccessRecord) => HasStatus(r, 504));
    PresentSame(g, RequestMs, (r: AccessRecord) => r.requestMs);
    PresentSame(g, UpstreamMs, (r: AccessRecord) => r.upstreamMs);
  }

  /** Every counter of the one-pass summary is an independent filter-and-count over the records' fields. */
  lemma OnePassIsFilterAndCount<R>(s: seq<AccessRecord>, probe: string -> Option<R>, cls: int, status: int, path: string,
      upstream: string)
    ensures var t := Summary(s, probe);
      && t.lines == |s|
      && t.byStatusClass.Get(cls, 0) == |Filter(s, (r: AccessRecord) => InClassOf(r, cls))|
      && t.byStatus.Get(status, 0) == |Filter(s, (r: AccessRecord) => HasStatus(r, status))|
      && PathEntryOf(Filter(s, (r: AccessRecord) => OnPath(r, path)), t.paths.Get(path, PathEntry(0, [], 0)))
      && UpstreamEntryOf(Filter(s, (r: AccessRecord) => FromUpstream(r, upstream)),
           t.upstreams.Get(upstream, UpstreamEntry(0, [], [], 0, 0)))
      && t.clientAbandoned499 == |Filter(s, (r: AccessRecord) => HasStatus(r, 499))|
  {
    StatusCounters(s, cls, status);
    PathCounters(s, path);
    UpstreamCounters(s, upstream);
    CountIfIsFilter(s, IsAbandoned, (r: AccessRecord) => HasStatus(r, 499));
  }

  // ----- The time lost between client and upstream -----

  /** How much longer a request took than its upstream, never less than nothing. */
  ghost predicate IsGap(r: AccessRecord, gap: real) {
    && r.requestMs.Some? && r.upstreamMs.Some?
    && gap >= 0.0 && gap >= r.requestMs.value - r.upstreamMs.value
    && (gap == 0.0 || gap == r.requestMs.value - r.upstreamMs.value)
  }

  predicate TimedTwice(r: AccessRecord) { r.requestMs.Some? && r.upstreamMs.Some? }

  /** There is one gap for each record with both times, in their order. */
  lemma {:induction false} GapsMeaning<R>(s: seq<AccessRecord>, probe: string -> Option<R>)
    ensures var gaps, timed := Summary(s, probe).gaps, Filter(s, TimedTwice);
      |gaps| == |timed| && forall i :: 0 <= i < |gaps| ==> IsGap(timed[i], gaps[i])
  {
    if s != [] {
      GapsMeaning(s[..|s| - 1], probe);
    }
  }

  // ----- Suspicious paths -----

  /** The record's path matches some pattern, and is counted under `path`. */
  predicate Matches<R>(r: AccessRecord, probe: string -> Option<R>, path: string) {
    probe(r.path.GetOr("")).Some? && OnPath(r, path)
  }

  ghost predicate FirstHit<R>(probe: string -> Option<R>, hits: seq<AccessRecord>, e: Option<Suspicion<R>>) {
    && hits != []
    && e.Some?
    && e.value.count == |hits|
    && probe(hits[0].path.GetOr("")) == Some(e.value.reason)
  }

  lemma {:induction false} HitsMatch<R>(s: seq<AccessRecord>, probe: string -> Option<R>, path: string)
    ensures forall i :: 0 <= i < |Of(s, SuspectKey(probe), path)| ==>
      probe(Of(s, SuspectKey(probe), path)[i].path.GetOr("")).Some?
  {
    var hits := Of(s, SuspectKey(probe), path);
    forall i | 0 <= i < |hits| ensures probe(hits[i].path.GetOr("")).Some? {
      OfMembers(s, SuspectKey(probe), path, hits[i]);
    }
  }

  /** A path is listed as suspicious when some record of it matches; it counts those records and keeps the first reason. */
  lemma {:induction false} SuspectMeaning<R>(s: seq<AccessRecord>, probe: string -> Option<R>, path: string)
    ensures var t, hits := Summary(s, probe).suspicious, Filter(s, (r: AccessRecord) => Matches(r, probe, path));
      && (path in t.rows <==> hits != [])
      && (path in t.rows ==> FirstHit(probe, hits, t.rows[path]))
      && |hits| <= |Filter(s, (r: AccessRecord) => OnPath(r, path))|
  {
    HitsMatch(s, probe, path);
    SuspectFold(Of(s, SuspectKey(probe), path), probe);
    GroupByMeaning(s, SuspectKey(probe), None, AddSuspect(probe), path);
    OfIsFilter(s, SuspectKey(probe), path, (r: AccessRecord) => Matches(r, probe, path));
    OfIsFilter(s, PathKey, path, (r: AccessRecord) => OnPath(r, path));
    HitsAreRecords(s, probe, path);
  }

  lemma {:induction false} HitsAreRecords<R>(s: seq<AccessRecord>, probe: string -> Option<R>, path: string)
    ensures |Of(s, SuspectKey(probe), path)| <= |Of(s, PathKey, path)|
  {
    if s != [] {
      HitsAreRecords(s[..|s| - 1], probe, path);
    }
  }

  function PathCount(e: PathEntry): int { e.count }
  function PathErrors(e: PathEntry): int { e.errors }
  function ErrorUnit(r: AccessRecord): int { if IsServerError(r) then 1 else 0 }

  lemma {:induction false} SumOfOnes(s: seq<AccessRecord>, key: AccessRecord -> Option<string>)
    requires forall r :: key(r).Some?
    ensures Sum(s, Keyed(key, One)) == |s|
    ensures Sum(s, Keyed(key, ErrorUnit)) == CountIf(s, IsServerError)
  {
    if s != [] {
      SumOfOnes(s[..|s| - 1], key);
      assert key(s[|s| - 1]).Some?;
    }
  }

  /** The paths together hold every line, and every response of 500 and above as an error. */
  lemma PathTotals<R>(s: seq<AccessRecord>, probe: string -> Option<R>)
    ensures var t := Summary(s, probe);
      && MapSum(t.paths.rows, PathCount) == t.lines
      && MapSum(t.paths.rows, PathErrors) == CountIf(s, IsServerError)
  {
    GroupTotal(s, PathKey, NO_PATH, AddToPath, PathCount, One);
    GroupTotal(s, PathKey, NO_PATH, AddToPath, PathErrors, ErrorUnit);
    SumOfOnes(s, PathKey);
  }

  /** The statuses of one class. */
  ghost function InClass(counts: map<int, nat>, cls: int): map<int, nat> {
    map st | st in counts && ClassOf(st) == cls :: counts[st]
  }

  lemma InClassPut(counts: map<int, nat>, st: int, n: nat, cls: int)
    ensures InClass(counts[st := n], cls)
      == if ClassOf(st) == cls then InClass(counts, cls)[st := n] else InClass(counts, cls)
  {
  }

  lemma ClassStep(counts: Table<int, nat>, st: int, cls: int)
    ensures var n: nat := counts.Get(st, 0) + 1;
      && MapSum(counts.rows[st := n], Whole) == MapSum(counts.rows, Whole) + 1
      && MapSum(InClass(counts.rows[st := n], cls), Whole)
        == MapSum(InClass(counts.rows, cls), Whole) + if ClassOf(st) == cls then 1 else 0
  {
    var n: nat := counts.Get(st, 0) + 1;
    InClassPut(counts.rows, st, n, cls);
    MapSumUpdate(counts.rows, Whole, st, n);
    MapSumUpdate(InClass(counts.rows, cls), Whole, st, n);
  }

  /** A class counts what its statuses count together, and the statuses together count every line. */
  lemma {:induction false} ClassIsSumOfStatuses(s: seq<AccessRecord>, cls: int)
    ensures var byClass, byStatus := GroupBy(s, ClassKey, 0, AddCount), GroupBy(s, StatusKey, 0, AddCount);
      && byClass.Get(cls, 0) == MapSum(InClass(byStatus.rows, cls), Whole)
      && MapSum(byStatus.rows, Whole) == |s|
  {
    if s == [] {
      assert InClass(map[], cls) == map[];
    } else {
      var n := |s| - 1;
      ClassIsSumOfStatuses(s[..n], cls);
      ClassStep(GroupBy(s[..n], StatusKey, 0, AddCount), StatusOf(s[n]), cls);
    }
  }

  lemma {:induction false} CountIfBounds(s: seq<AccessRecord>)
    ensures CountIf(s, IsTimeout) <= CountIf(s, IsServerError) <= |s|
    ensures CountIf(s, IsAbandoned) == |Of(s, StatusKey, 499)|
  {
    if s != [] {
      CountIfBounds(s[..|s| - 1]);
    }
  }

  lemma EntriesNest(s: seq<AccessRecord>, upstream: string, path: string)
    ensures var u := GroupBy(s, UpstreamKey, NO_UPSTREAM, AddToUpstream).Get(upstream, NO_UPSTREAM);
      u.timeouts504 <= u.errors5xx <= u.count
    ensures var e := GroupBy(s, PathKey, NO_PATH, AddToPath).Get(path, NO_PATH);
      e.errors <= e.count
  {
    GroupByMeaning(s, UpstreamKey, NO_UPSTREAM, AddToUpstream, upstream);
    UpstreamFold(Of(s, UpstreamKey, upstream));
    CountIfBounds(Of(s, UpstreamKey, upstream));
    GroupByMeaning(s, PathKey, NO_PATH, AddToPath, path);
    PathFold(Of(s, PathKey, path));
    CountIfBounds(Of(s, PathKey, path));
  }

  /** Timeouts are server errors and server errors are requests; the abandoned count is the 499 status count. */
  lemma CountersNest<R>(s: seq<AccessRecord>, probe: string -> Option<R>, upstream: string, path: string)
    ensures var t := Summary(s, probe);
      var u := t.upstreams.Get(upstream, NO_UPSTREAM);
      && u.timeouts504 <= u.errors5xx <= u.count
      && t.paths.Get(path, NO_PATH).errors <= t.paths.Get(path, NO_PATH).count
      && t.clientAbandoned499 == t.byStatus.Get(499, 0)
  {
    EntriesNest(s, upstream, path);
    OnePassIsFilterAndCount(s, probe, 0, 499, path, upstream);
  }

  predicate Timed(r: AccessRecord) { r.time != None && r.time != Some("") }

  ghost predicate FirstTimed(s: seq<AccessRecord>, i: int) {
    0 <= i < |s| && Timed(s[i]) && forall j :: 0 <= j < i ==> !Timed(s[j])
  }

  ghost predicate LastTimed(s: seq<AccessRecord>, i: int) {
    0 <= i < |s| && Timed(s[i]) && forall j :: i < j < |s| ==> !Timed(s[j])
  }

  /** Without any time the window is empty. */
  lemma {:induction false} NoTimes(s: seq<AccessRecord>)
    requires forall j :: 0 <= j < |s| ==> !Timed(s[j])
    ensures FirstTime(s) == None && LastTime(s) == None
  {
    if s != [] {
      assert !Timed(s[|s| - 1]);
      NoTimes(s[..|s| - 1]);
    }
  }

  lemma {:induction false} WindowStartsAt(s: seq<AccessRecord>, i: int)
    requires FirstTimed(s, i)
    ensures FirstTime(s) == s[i].time
  {
    var n := |s| - 1;
    if i < n {
      WindowStartsAt(s[..n], i);
    } else {
      NoTimes(s[..n]);
    }
  }

  lemma {:induction false} WindowEndsAt(s: seq<AccessRecord>, i: int)
    requires LastTimed(s, i)
    ensures LastTime(s) == s[i].time
  {
    var n := |s| - 1;
    if i < n {
      assert !Timed(s[n]);
      WindowEndsAt(s[..n], i);
    }
  }

  /** The window starts at the first record that carries a time. */
  lemma WindowStart<R>(s: seq<AccessRecord>, probe: string -> Option<R>, i: int)
    requires FirstTimed(s, i)
    ensures Summary(s, probe).from == s[i].time
  {
    WindowStartsAt(s, i);
  }

  /** The window ends at the last one. */
  lemma WindowEnd<R>(s: seq<AccessRecord>, probe: string -> Option<R>, i: int)
    requires LastTimed(s, i)
    ensures Summary(s, probe).to == s[i].time
  {
    WindowEndsAt(s, i);
  }

  // ----- The report -----

  /** A figure is shown when there is a value, and then it is a rounded nearest rank; the figures are ordered. */
  lemma {:induction false} PctMeaning(values: seq<real>, p: int, q: int)
    requires 1 <= p <= q <= 100
    ensures Pct(values, p).None? <==> values == []
    ensures values != [] ==> exists v :: IsNearestRank(values, p, v) && Pct(values, p) == Some(Round(v))
    ensures values != [] ==> Pct(values, p).value <= Pct(values, q).value
  {
    if values != [] {
      var sorted := SortBy(values, Identity);
      SortByCorrect(values, Identity);
      PercentileIsNearestRank(values, p);
      PercentileMonotone(sorted, p, q);
      RoundMonotone(Percentile(sorted, p), Percentile(sorted, q));
    }
  }

  datatype PathRow = PathRow(path: string, count: nat, p50Ms: Option<int>, p95Ms: Option<int>, errors: nat)

  function RowOf(e: (string, PathEntry)): PathRow {
    PathRow(e.0, e.1.count, Pct(e.1.times, 50), Pct(e.1.times, 95), e.1.errors)
  }

  function RowCount(r: PathRow): real { r.count as real }
  function RowUnits(r: PathRow): int { r.count }

  function PathRows(t: Table<string, PathEntry>): (rows: seq<PathRow>)
    requires t.Valid()
    ensures |rows| == |t.order|
    ensures forall i :: 0 <= i < |rows| ==> rows[i] == RowOf(t.Entries()[i])
  {
    var es := t.Entries();
    seq(|es|, i requires 0 <= i < |es| => RowOf(es[i]))
  }

  /** The figure shown for some times: none without any, else the rounded nearest rank. */
  ghost predicate ShowsFigure(times: seq<real>, p: int, shown: Option<int>) {
    if times == [] then shown == None else exists v :: IsNearestRank(times, p, v) && shown == Some((v + 0.5).Floor)
  }

  /** Row r reports the entry of its path. */
  ghost predicate ReportsPath(rows: map<string, PathEntry>, r: PathRow) {
    && r.path in rows && r.count == rows[r.path].count && r.errors == rows[r.path].errors
    && ShowsFigure(rows[r.path].times, 50, r.p50Ms) && ShowsFigure(rows[r.path].times, 95, r.p95Ms)
  }

  lemma RowReports(t: Table<string, PathEntry>, i: nat)
    requires t.Valid() && i < |PathRows(t)|
    ensures ReportsPath(t.rows, PathRows(t)[i])
  {
    var times := t.Entries()[i].1.times;
    PctMeaning(times, 50, 95);
    PctMeaning(times, 95, 95);
  }

  lemma KeptReport(t: Table<string, PathEntry>, kept: seq<PathRow>, dropped: seq<PathRow>)
    requires t.Valid() && multiset(PathRows(t)) == multiset(kept) + multiset(dropped)
    ensures forall r :: r in kept ==> ReportsPath(t.rows, r)
  {
    forall r | r in kept ensures ReportsPath(t.rows, r) {
      assert r in multiset(PathRows(t));
      var i :| 0 <= i < |PathRows(t)| && PathRows(t)[i] == r;
      RowReports(t, i);
    }
  }

  const TOP_PATHS := 30

  function TopPaths(t: Table<string, PathEntry>): seq<PathRow>
    requires t.Valid()
  {
    Top(PathRows(t), RowCount, TOP_PATHS)
  }

  /**
   * The report keeps at most 30 paths, the busiest first; a path it drops is no busier than a
   * path it keeps, and kept and dropped paths together account for every line.
   */
  lemma TopPathsCut<R>(s: seq<AccessRecord>, probe: string -> Option<R>) returns (dropped: seq<PathRow>)
    ensures var paths := Summary(s, probe).paths;
      && paths.Valid()
      && var kept := TopPaths(paths);
      && |kept| == (if |paths.order| <= 30 then |paths.order| else 30)
      && (forall r :: r in kept ==> ReportsPath(paths.rows, r))
      && multiset(PathRows(paths)) == multiset(kept) + multiset(dropped)
      && (forall i, j :: 0 <= i < j < |kept| ==> kept[i].count >= kept[j].count)
      && (forall i, j :: 0 <= i < |kept| && 0 <= j < |dropped| ==> kept[i].count >= dropped[j].count)
      && Sum(kept, RowUnits) + Sum(dropped, RowUnits) == |s|
  {
    var paths := Summary(s, probe).paths;
    GroupByValid(s, PathKey, NO_PATH, AddToPath);
    var rows := PathRows(paths);
    dropped := TopIsBest(rows, RowCount, TOP_PATHS);
    var kept := TopPaths(paths);
    forall i, j | 0 <= i < j < |kept| ensures kept[i].count >= kept[j].count {
      assert RowCount(kept[i]) >= RowCount(kept[j]);
    }
    forall i, j | 0 <= i < |kept| && 0 <= j < |dropped| ensures kept[i].count >= dropped[j].count {
      assert RowCount(kept[i]) >= RowCount(dropped[j]);
    }
    KeptReport(paths, kept, dropped);
    SumPermuted(rows, kept + dropped, RowUnits);
    SumConcat(kept, dropped, RowUnits);
    RowsSum(paths.Entries(), rows, PathCount, RowUnits);
    EntriesSum(paths, PathCount);
    PathTotals(s, probe);
  }
}
