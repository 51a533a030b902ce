/** The scan of text records for sensitive values, over abstract left-to-right matchers. */
module SensitiveScan {
  import opened Collections
  import opened Grouping
  import opened Sorting

  /** A match of record text from index up to, but not including, end. */
  datatype Match = Match(index: nat, end: nat)

  datatype Confidence = High | Medium | Low

  /** `find(record, from)` is the pattern's next match at or after `from`; `valid` is the optional validator. */
  datatype Detector = Detector(
    kind: string,
    confidence: Confidence,
    find: (string, nat) -> Option<Match>,
    valid: (string, Match) -> bool)

  /** What the findings keep: the sample stands for the masked first hit. */
  datatype Finding = Finding(count: nat, confidence: Confidence, sample: Hit, locations: seq<nat>)

  datatype Hit = Hit(record: nat, match_: Match)

  /** A match found from `from` on lies at or after it, inside the record. */
  ghost predicate InBounds(det: Detector, record: string) {
    && (forall i: nat :: i > |record| ==> det.find(record, i) == None)
    && (forall i: nat :: det.find(record, i).Some? ==>
          i <= det.find(record, i).value.index <= det.find(record, i).value.end <= |record|)
  }

  /** A matcher finds the leftmost match: starting at that match itself finds it again. */
  ghost predicate LeftToRight(det: Detector, record: string) {
    && InBounds(det, record)
    && (forall i: nat {:trigger EmptyReject(det, record, i)} :: det.find(record, i).Some? ==>
          det.find(record, det.find(record, i).value.index) == det.find(record, i))
  }

  /** The scan looks at a match that is empty and that the validator rejects. */
  predicate EmptyReject(det: Detector, record: string, from: nat) {
    var m := det.find(record, from);
    m.Some? && m.value.index == m.value.end && !det.valid(record, m.value)
  }

  /** Where matching resumes: an empty match is stepped over, but only when it is counted. */
  function Resume(det: Detector, record: string, m: Match): nat {
    if det.valid(record, m) && m.index == m.end then m.end + 1 else m.end
  }

  // ----- When the matching loop ends -----

  /** The place after k turns of the loop, None once it has ended. */
  function Turns(det: Detector, record: string, k: nat): Option<nat> {
    if k == 0 then Some(0)
    else
      match Turns(det, record, k - 1)
      case None => None
      case Some(i) =>
        match det.find(record, i)
        case None => None
        case Some(m) => Some(Resume(det, record, m))
  }

  lemma {:induction false} EmptyRejectSpins(det: Detector, record: string, k: nat, extra: nat)
    requires LeftToRight(det, record)
    requires Turns(det, record, k).Some? && EmptyReject(det, record, Turns(det, record, k).value)
    ensures var m := det.find(record, Turns(det, record, k).value).value;
      Turns(det, record, k + 1 + extra) == Some(m.end)
  {
    if extra > 0 {
      EmptyRejectSpins(det, record, k, extra - 1);
    }
  }

  lemma {:induction false} TurnsEnd(det: Detector, record: string, k: nat, j: nat)
    requires k <= j && Turns(det, record, k).None?
    ensures Turns(det, record, j).None?
  {
    if k < j {
      TurnsEnd(det, record, k, j - 1);
    }
  }

  lemma {:induction false} TurnsAdvance(det: Detector, record: string, k: nat)
    requires LeftToRight(det, record)
    requires forall j: nat :: j < k ==> !RejectsEmptyAt(det, record, j)
    ensures Turns(det, record, k).Some? ==> Turns(det, record, k).value >= k
  {
    if k > 0 {
      TurnsAdvance(det, record, k - 1);
      assert !RejectsEmptyAt(det, record, k - 1);
    }
  }

  /** Once it meets a rejected empty match the loop never ends. */
  lemma SpinsForever(det: Detector, record: string, k: nat, j: nat)
    requires LeftToRight(det, record)
    requires Turns(det, record, k).Some? && EmptyReject(det, record, Turns(det, record, k).value)
    ensures Turns(det, record, j).Some?
  {
    if j > k {
      EmptyRejectSpins(det, record, k, j - k - 1);
    } else if Turns(det, record, j).None? {
      TurnsEnd(det, record, j, k);
    }
  }

  /** After the k-th turn the loop looks at an empty match that is rejected. */
  ghost predicate RejectsEmptyAt(det: Detector, record: string, k: nat) {
    Turns(det, record, k).Some? && EmptyReject(det, record, Turns(det, record, k).value)
  }

  ghost predicate EndsBy(det: Detector, record: string, k: nat) {
    Turns(det, record, k).None?
  }

  /** The loop over one record ends exactly when it never meets an empty match that is rejected. */
  lemma LoopEndsIff(det: Detector, record: string)
    requires LeftToRight(det, record)
    ensures (exists k :: EndsBy(det, record, k)) <==> !exists k :: RejectsEmptyAt(det, record, k)
  {
    if k :| RejectsEmptyAt(det, record, k) {
      forall j ensures !EndsBy(det, record, j) {
        SpinsForever(det, record, k, j);
      }
    } else {
      var n := |record| + 1;
      forall j: nat ensures !RejectsEmptyAt(det, record, j) {
      }
      TurnsAdvance(det, record, n);
      assert EndsBy(det, record, n + 1);
    }
  }

  /** A matcher that finds an empty match everywhere, with a validator that rejects everything. */
  function EmptyMatcher(): Detector {
    Detector("", Low, (record: string, i: nat) => if i <= |record| then Some(Match(i, i)) else None, (_, _) => false)
  }

  /** On such a matcher the loop over the record "a" never ends. */
  lemma RejectedEmptyMatchSpins()
    ensures LeftToRight(EmptyMatcher(), "a") && RejectsEmptyAt(EmptyMatcher(), "a", 0)
    ensures forall k :: !EndsBy(EmptyMatcher(), "a", k)
  {
    var det := EmptyMatcher();
    assert RejectsEmptyAt(det, "a", 0);
    LoopEndsIff(det, "a");
  }

  // ----- The hits in one record -----

  /** The loop looks for a match from place i on at some turn. */
  ghost predicate Visits(det: Detector, record: string, i: nat) {
    exists k: nat :: Turns(det, record, k) == Some(i)
  }

  /** The loop never looks at an empty match that is rejected. */
  ghost predicate Productive(det: Detector, record: string) {
    InBounds(det, record) && forall i: nat :: Visits(det, record, i) ==> !EmptyReject(det, record, i)
  }

  /** For a left-to-right matcher these are exactly the records whose scan ends. */
  lemma ProductiveIffEnds(det: Detector, record: string)
    requires LeftToRight(det, record)
    ensures Productive(det, record) <==> exists k :: EndsBy(det, record, k)
  {
    LoopEndsIff(det, record);
    if Productive(det, record) {
      forall k: nat ensures !RejectsEmptyAt(det, record, k) {
        if Turns(det, record, k).Some? {
          assert Visits(det, record, Turns(det, record, k).value);
        }
      }
    }
    if !exists k :: RejectsEmptyAt(det, record, k) {
      forall i: nat | Visits(det, record, i) ensures !EmptyReject(det, record, i) {
        var k: nat :| Turns(det, record, k) == Some(i);
        assert !RejectsEmptyAt(det, record, k);
      }
    }
  }

  lemma VisitsStart(det: Detector, record: string)
    ensures Visits(det, record, 0)
  {
    assert Turns(det, record, 0) == Some(0);
  }

  lemma VisitsNext(det: Detector, record: string, i: nat, m: Match)
    requires Visits(det, record, i) && det.find(record, i) == Some(m)
    ensures Visits(det, record, Resume(det, record, m))
  {
    var k: nat :| Turns(det, record, k) == Some(i);
    assert Turns(det, record, k + 1) == Some(Resume(det, record, m));
  }

  /** The validated matches from place `from` on. */
  function Hits(det: Detector, record: string, from: nat): seq<Match>
    requires Productive(det, record) && Visits(det, record, from)
    decreases |record| + 1 - from
  {
    match det.find(record, from)
    case None => []
    case Some(m) =>
      assert !EmptyReject(det, record, from);
      VisitsNext(det, record, from, m);
      var rest := Hits(det, record, Resume(det, record, m));
      if det.valid(record, m) then [m] + rest else rest
  }

  function RecordHits(det: Detector, record: string): seq<Match>
    requires Productive(det, record)
  {
    VisitsStart(det, record);
    Hits(det, record, 0)
  }

  /** One counted match: `index` is the record's position, from zero. */
  function AddHit(f: Option<Finding>, det: Detector, index: nat, m: Match, maxLocations: int): Finding {
    var g := f.GetOr(Finding(0, det.confidence, Hit(index, m), []));
    var isNew := |g.locations| < maxLocations && (g.locations == [] || g.locations[|g.locations| - 1] != index + 1);
    Finding(g.count + 1, g.confidence, g.sample, if isNew then g.locations + [index + 1] else g.locations)
  }

  function AddHits(f: Option<Finding>, det: Detector, index: nat, hits: seq<Match>, maxLocations: int): Option<Finding>
    decreases |hits|
  {
    if hits == [] then f
    else AddHits(Some(AddHit(f, det, index, hits[0], maxLocations)), det, index, hits[1..], maxLocations)
  }

  /** What remains to be added from place `from` on. */
  function AddRest(f: Option<Finding>, det: Detector, record: string, index: nat, from: nat, maxLocations: int): Option<Finding>
    requires Productive(det, record) && Visits(det, record, from)
  {
    AddHits(f, det, index, Hits(det, record, from), maxLocations)
  }

  lemma AddRestStep(f: Option<Finding>, det: Detector, record: string, index: nat, from: nat, m: Match, maxLocations: int)
    requires Productive(det, record) && Visits(det, record, from) && det.find(record, from) == Some(m)
    ensures from < Resume(det, record, m) && from <= |record| && Visits(det, record, Resume(det, record, m))
    ensures AddRest(f, det, record, index, from, maxLocations) == AddRest(
      if det.valid(record, m) then Some(AddHit(f, det, index, m, maxLocations)) else f,
      det, record, index, Resume(det, record, m), maxLocations)
  {
    assert !EmptyReject(det, record, from);
    VisitsNext(det, record, from, m);
    var rest := Hits(det, record, Resume(det, record, m));
    assert ([m] + rest)[1..] == rest;
  }

  lemma AddRestEnd(f: Option<Finding>, det: Detector, record: string, index: nat, from: nat, maxLocations: int)
    requires Productive(det, record) && Visits(det, record, from) && det.find(record, from) == None
    ensures AddRest(f, det, record, index, from, maxLocations) == f
  {
  }

  /** All matches from place `from` on, each sought at the end of the one before, or one place past an empty one. */
  ghost predicate MatchesFrom(det: Detector, record: string, from: nat, matches: seq<Match>)
    decreases |matches|
  {
    if matches == [] then det.find(record, from) == None
    else
      var m := matches[0];
      && det.find(record, from) == Some(m)
      && MatchesFrom(det, record, if m.index == m.end then m.end + 1 else m.end, matches[1..])
  }

  lemma FilterCons<T>(x: T, s: seq<T>, p: T -> bool)
    ensures Filter([x] + s, p) == (if p(x) then [x] else []) + Filter(s, p)
  {
    FilterConcat([x], s, p);
    assert [x][..0] == [];
  }

  lemma {:induction false} HitsFrom(det: Detector, record: string, from: nat) returns (matches: seq<Match>)
    requires Productive(det, record) && Visits(det, record, from)
    ensures MatchesFrom(det, record, from, matches)
    ensures Hits(det, record, from) == Filter(matches, (m: Match) => det.valid(record, m))
    decreases |record| + 1 - from
  {
    matches := [];
    if det.find(record, from).Some? {
      var m := det.find(record, from).value;
      AddRestStep(None, det, record, 0, from, m, 0);
      assert !EmptyReject(det, record, from);
      var rest := HitsFrom(det, record, Resume(det, record, m));
      matches := [m] + rest;
      assert matches[1..] == rest;
      FilterCons(m, rest, (x: Match) => det.valid(record, x));
    }
  }

  /** The hits of a record are the validated ones among all its matches, in their order. */
  lemma RecordHitsMeaning(det: Detector, record: string)
    requires Productive(det, record)
    ensures exists matches ::
      MatchesFrom(det, record, 0, matches) && RecordHits(det, record) == Filter(matches, (m: Match) => det.valid(record, m))
  {
    VisitsStart(det, record);
    var matches := HitsFrom(det, record, 0);
  }

  /** The matching loop over one record. */
  method ScanRecord(det: Detector, record: string, index: nat, maxLocations: int, f: Option<Finding>) returns (g: Option<Finding>)
    requires Productive(det, record)
    ensures g == AddHits(f, det, index, RecordHits(det, record), maxLocations)
  {
    g := f;
    VisitsStart(det, record);
    ghost var all := AddRest(f, det, record, index, 0, maxLocations);
    var lastIndex := 0;
    var m := det.find(record, lastIndex);
    while m.Some?
      invariant m == det.find(record, lastIndex) && Visits(det, record, lastIndex)
      invariant AddRest(g, det, record, index, lastIndex, maxLocations) == all
      decreases |record| + 1 - lastIndex
    {
      var value := m.value;
      AddRestStep(g, det, record, index, lastIndex, value, maxLocations);
      lastIndex := value.end;
      if det.valid(record, value) {
        g := Some(AddHit(g, det, index, value, maxLocations));
        if value.index == lastIndex {
          lastIndex := lastIndex + 1;
        }
      }
      m := det.find(record, lastIndex);
    }
    AddRestEnd(g, det, record, index, lastIndex, maxLocations);
  }

  // ----- All records -----

  ghost predicate AllProductive(det: Detector, records: seq<string>) {
    forall r :: r in records ==> Productive(det, r)
  }

  function FindingOf(det: Detector, records: seq<string>, maxLocations: int): Option<Finding>
    requires AllProductive(det, records)
  {
    if records == [] then None
    else
      var n := |records| - 1;
      AddHits(FindingOf(det, records[..n], maxLocations), det, n, RecordHits(det, records[n]), maxLocations)
  }

  function TotalHits(det: Detector, records: seq<string>): nat
    requires AllProductive(det, records)
  {
    if records == [] then 0
    else
      var n := |records| - 1;
      TotalHits(det, records[..n]) + |RecordHits(det, records[n])|
  }

  /** The numbers, from one, of the records with a hit. */
  function HitRecords(det: Detector, records: seq<string>): seq<nat>
    requires AllProductive(det, records)
  {
    if records == [] then []
    else
      var n := |records| - 1;
      HitRecords(det, records[..n]) + if RecordHits(det, records[n]) != [] then [n + 1] else []
  }

  ghost predicate HasHit(det: Detector, records: seq<string>, x: int)
    requires AllProductive(det, records)
  {
    1 <= x <= |records| && RecordHits(det, records[x - 1]) != []
  }

  /** The record numbers come in increasing order, and they are all those with a hit. */
  lemma {:induction false} HitRecordsMeaning(det: Detector, records: seq<string>)
    requires AllProductive(det, records)
    ensures var h := HitRecords(det, records);
      && (forall i, j :: 0 <= i < j < |h| ==> h[i] < h[j])
      && (forall x :: x in h <==> HasHit(det, records, x))
  {
    if records != [] {
      var n := |records| - 1;
      var init := records[..n];
      HitRecordsMeaning(det, init);
      var before := HitRecords(det, init);
      assert forall x :: HasHit(det, init, x) <==> x <= n && HasHit(det, records, x);
      assert forall i :: 0 <= i < |before| ==> before[i] in before;
      assert HasHit(det, records, n + 1) <==> RecordHits(det, records[n]) != [];
    }
  }

  function Take<T>(s: seq<T>, limit: int): seq<T> {
    if limit <= 0 then [] else if |s| <= limit then s else s[..limit]
  }

  lemma TakeSnoc<T>(s: seq<T>, x: T, limit: int)
    ensures Take(s + [x], limit) == Take(s, limit) + if |Take(s, limit)| < limit then [x] else []
  {
  }

  function LocationsOf(f: Option<Finding>): seq<nat> {
    if f.Some? then f.value.locations else []
  }

  function CountOf(f: Option<Finding>): nat {
    if f.Some? then f.value.count else 0
  }

  predicate Lists(f: Option<Finding>, n: nat) {
    LocationsOf(f) != [] && LocationsOf(f)[|LocationsOf(f)| - 1] == n
  }

  /** The hits of one record add their number to the count, and the record's number to the locations at most once. */
  lemma {:induction false} AddHitsEffect(f: Option<Finding>, det: Detector, index: nat, hits: seq<Match>, maxLocations: int)
    ensures var g := AddHits(f, det, index, hits, maxLocations);
      && CountOf(g) == CountOf(f) + |hits|
      && (g.None? <==> f.None? && hits == [])
      && LocationsOf(g) == LocationsOf(f)
           + (if hits != [] && |LocationsOf(f)| < maxLocations && !Lists(f, index + 1) then [index + 1] else [])
      && (f.Some? ==> g.value.sample == f.value.sample && g.value.confidence == f.value.confidence)
      && (f.None? && hits != [] ==> g.value.sample == Hit(index, hits[0]) && g.value.confidence == det.confidence)
    decreases |hits|
  {
    if hits != [] {
      AddHitsEffect(Some(AddHit(f, det, index, hits[0], maxLocations)), det, index, hits[1..], maxLocations);
    }
  }

  lemma HitBound(det: Detector, records: seq<string>, i: nat)
    requires AllProductive(det, records) && i < |HitRecords(det, records)|
    ensures HitRecords(det, records)[i] <= |records|
  {
    HitRecordsMeaning(det, records);
    assert HitRecords(det, records)[i] in HitRecords(det, records);
    assert HasHit(det, records, HitRecords(det, records)[i]);
  }

  lemma TakeLast<T>(s: seq<T>, limit: int)
    requires Take(s, limit) != []
    ensures |Take(s, limit)| <= |s| && Take(s, limit)[|Take(s, limit)| - 1] == s[|Take(s, limit)| - 1]
  {
  }

  lemma NotYetListed(det: Detector, records: seq<string>, maxLocations: int)
    requires AllProductive(det, records)
    requires LocationsOf(FindingOf(det, records, maxLocations)) == Take(HitRecords(det, records), maxLocations)
    ensures !Lists(FindingOf(det, records, maxLocations), |records| + 1)
  {
    var h := HitRecords(det, records);
    var t := Take(h, maxLocations);
    if t != [] {
      TakeLast(h, maxLocations);
      HitBound(det, records, |t| - 1);
    }
  }

  /** The first validated match of the first record that has one. */
  ghost predicate IsFirstHit(det: Detector, records: seq<string>, hit: Hit)
    requires AllProductive(det, records)
  {
    var h := HitRecords(det, records);
    h != [] && HasHit(det, records, h[0]) && hit == Hit(h[0] - 1, RecordHits(det, records[h[0] - 1])[0])
  }

  lemma FirstHitKept(det: Detector, records: seq<string>, hit: Hit)
    requires AllProductive(det, records) && records != [] && IsFirstHit(det, records[..|records| - 1], hit)
    ensures IsFirstHit(det, records, hit)
  {
    var x := HitRecords(det, records[..|records| - 1])[0];
    assert HitRecords(det, records)[0] == x;
    assert records[..|records| - 1][x - 1] == records[x - 1];
  }

  /**
   * A finding exists iff some record has a validated match; its count is the number of
   * them over all records, its locations are the first maxLocations distinct record
   * numbers with one, in increasing order, and its sample is the first of them all.
   */
  lemma {:induction false} FindingMeaning(det: Detector, records: seq<string>, maxLocations: int)
    requires AllProductive(det, records)
    ensures var f := FindingOf(det, records, maxLocations);
      && (f.None? <==> TotalHits(det, records) == 0)
      && CountOf(f) == TotalHits(det, records)
      && LocationsOf(f) == Take(HitRecords(det, records), maxLocations)
      && (f.None? <==> HitRecords(det, records) == [])
      && (f.Some? ==> f.value.confidence == det.confidence && IsFirstHit(det, records, f.value.sample))
  {
    if records != [] {
      var n := |records| - 1;
      var init := records[..n];
      FindingMeaning(det, init, maxLocations);
      NotYetListed(det, init, maxLocations);
      AddHitsEffect(FindingOf(det, init, maxLocations), det, n, RecordHits(det, records[n]), maxLocations);
      TakeSnoc(HitRecords(det, init), n + 1, maxLocations);
      if FindingOf(det, init, maxLocations).Some? {
        FirstHitKept(det, records, FindingOf(det, init, maxLocations).value.sample);
      }
    }
  }

  // ----- The scan -----

  ghost predicate DistinctKinds(detectors: seq<Detector>) {
    forall i, j :: 0 <= i < j < |detectors| ==> detectors[i].kind != detectors[j].kind
  }

  function Lookup(byKind: map<string, Finding>, kind: string): Option<Finding> {
    if kind in byKind then Some(byKind[kind]) else None
  }

  function Kinds(detectors: seq<Detector>): set<string> {
    set i | 0 <= i < |detectors| :: detectors[i].kind
  }

  ghost predicate Scannable(detectors: seq<Detector>, records: seq<string>) {
    DistinctKinds(detectors) && forall i :: 0 <= i < |detectors| ==> AllProductive(detectors[i], records)
  }

  /** The finding that a detector would get alone, none if its kind is excluded. */
  function Expected(det: Detector, records: seq<string>, exclude: set<string>, maxLocations: int): Option<Finding>
    requires AllProductive(det, records)
  {
    if det.kind in exclude then None else FindingOf(det, records, maxLocations)
  }

  lemma ExpectedStep(det: Detector, records: seq<string>, n: nat, exclude: set<string>, maxLocations: int)
    requires AllProductive(det, records) && n < |records|
    ensures Productive(det, records[n])
    ensures Expected(det, records[..n + 1], exclude, maxLocations)
      == if det.kind in exclude then None
         else AddHits(Expected(det, records[..n], exclude, maxLocations), det, n, RecordHits(det, records[n]), maxLocations)
  {
    assert records[n] in records;
    assert records[..n + 1][..n] == records[..n];
  }

  // ----- The order of discovery -----

  /** The number of the first record with a hit, zero if there is none. */
  ghost function FirstRecord(det: Detector, records: seq<string>): nat {
    if AllProductive(det, records) && HitRecords(det, records) != [] then HitRecords(det, records)[0] else 0
  }

  /** Detector i finds its first hit before detector j does. */
  ghost predicate Earlier(detectors: seq<Detector>, records: seq<string>, i: nat, j: nat)
    requires i < |detectors| && j < |detectors|
  {
    var x, y := FirstRecord(detectors[i], records), FirstRecord(detectors[j], records);
    x < y || (x == y && i < j)
  }

  ghost predicate EarlierKind(detectors: seq<Detector>, records: seq<string>, a: string, b: string) {
    forall i, j :: 0 <= i < |detectors| && 0 <= j < |detectors| && detectors[i].kind == a && detectors[j].kind == b
      ==> Earlier(detectors, records, i, j)
  }

  ghost predicate InDiscoveryOrder(detectors: seq<Detector>, records: seq<string>, order: seq<string>) {
    forall p, q :: 0 <= p < q < |order| ==> EarlierKind(detectors, records, order[p], order[q])
  }

  lemma FirstRecordIn(det: Detector, records: seq<string>, n: nat)
    requires AllProductive(det, records) && n <= |records| && HitRecords(det, records[..n]) != []
    ensures 1 <= FirstRecord(det, records) <= n
  {
    var x := HitRecords(det, records[..n])[0];
    HitRecordsMeaning(det, records[..n]);
    assert x in HitRecords(det, records[..n]);
    assert HasHit(det, records[..n], x);
    assert HasHit(det, records, x);
    HitRecordsMeaning(det, records);
    var h := HitRecords(det, records);
    assert x in h && h[0] in h;
    assert HasHit(det, records, h[0]);
  }

  lemma FirstRecordNow(det: Detector, records: seq<string>, n: nat)
    requires AllProductive(det, records) && n < |records|
    requires HitRecords(det, records[..n]) == [] && HitRecords(det, records[..n + 1]) != []
    ensures FirstRecord(det, records) == n + 1
  {
    FirstRecordIn(det, records, n + 1);
    var x := FirstRecord(det, records);
    HitRecordsMeaning(det, records);
    HitRecordsMeaning(det, records[..n]);
    assert x in HitRecords(det, records);
    assert HasHit(det, records, x) && !HasHit(det, records[..n], x);
  }

  // ----- The double loop -----

  /** Each kind's row after n records, for the first j detectors after one more. */
  ghost predicate RowsUpto(rows: map<string, Finding>, detectors: seq<Detector>, records: seq<string>, n: nat, j: nat,
      exclude: set<string>, maxLocations: int)
    requires Scannable(detectors, records) && n <= |records| && (j > 0 ==> n < |records|)
  {
    forall i :: 0 <= i < |detectors| ==>
      Lookup(rows, detectors[i].kind) == Expected(detectors[i], records[..if i < j then n + 1 else n], exclude, maxLocations)
  }

  lemma RowsStep(rows: map<string, Finding>, after: map<string, Finding>, detectors: seq<Detector>, records: seq<string>,
      n: nat, j: nat, exclude: set<string>, maxLocations: int)
    requires Scannable(detectors, records) && n < |records| && j < |detectors|
    requires RowsUpto(rows, detectors, records, n, j, exclude, maxLocations)
    requires Lookup(after, detectors[j].kind) == Expected(detectors[j], records[..n + 1], exclude, maxLocations)
    requires forall k :: k != detectors[j].kind ==> Lookup(after, k) == Lookup(rows, k)
    ensures RowsUpto(after, detectors, records, n, j + 1, exclude, maxLocations)
  {
    forall i | 0 <= i < |detectors|
      ensures Lookup(after, detectors[i].kind)
        == Expected(detectors[i], records[..if i < j + 1 then n + 1 else n], exclude, maxLocations)
    {
      if i != j {
        assert detectors[i].kind != detectors[j].kind;
        assert Lookup(after, detectors[i].kind) == Lookup(rows, detectors[i].kind);
      }
    }
  }

  lemma RowsNext(rows: map<string, Finding>, detectors: seq<Detector>, records: seq<string>, n: nat, exclude: set<string>, maxLocations: int)
    requires Scannable(detectors, records) && n < |records|
    requires RowsUpto(rows, detectors, records, n, |detectors|, exclude, maxLocations)
    ensures RowsUpto(rows, detectors, records, n + 1, 0, exclude, maxLocations)
  {
  }

  /** The table after n records, and the first j detectors on the next one. */
  ghost predicate Upto(t: Table<string, Finding>, detectors: seq<Detector>, records: seq<string>, n: nat, j: nat,
      exclude: set<string>, maxLocations: int)
    requires Scannable(detectors, records) && n <= |records| && (j > 0 ==> n < |records|)
  {
    && t.Valid() && t.rows.Keys <= Kinds(detectors) && InDiscoveryOrder(detectors, records, t.order)
    && RowsUpto(t.rows, detectors, records, n, j, exclude, maxLocations)
  }

  lemma FirstRecordSoFar(det: Detector, records: seq<string>, n: nat, exclude: set<string>, maxLocations: int)
    requires AllProductive(det, records) && n <= |records|
    ensures Expected(det, records[..n], exclude, maxLocations).Some? ==> FirstRecord(det, records) <= n
    ensures n < |records| && Expected(det, records[..n], exclude, maxLocations).None? ==>
      Expected(det, records[..n + 1], exclude, maxLocations).Some? ==> FirstRecord(det, records) == n + 1
  {
    FindingMeaning(det, records[..n], maxLocations);
    if det.kind !in exclude && HitRecords(det, records[..n]) != [] {
      FirstRecordIn(det, records, n);
    } else if n < |records| {
      FindingMeaning(det, records[..n + 1], maxLocations);
      if Expected(det, records[..n + 1], exclude, maxLocations).Some? {
        FirstRecordNow(det, records, n);
      }
    }
  }

  /** A kind found for the first time comes after one found so far. */
  lemma FoundEarlier(rows: map<string, Finding>, detectors: seq<Detector>, records: seq<string>, n: nat, j: nat,
      exclude: set<string>, maxLocations: int, i: nat)
    requires Scannable(detectors, records) && n < |records| && j < |detectors| && i < |detectors|
    requires RowsUpto(rows, detectors, records, n, j, exclude, maxLocations)
    requires detectors[i].kind in rows && detectors[j].kind !in rows
    requires Expected(detectors[j], records[..n + 1], exclude, maxLocations).Some?
    ensures Earlier(detectors, records, i, j)
  {
    var m := if i < j then n + 1 else n;
    assert Lookup(rows, detectors[i].kind) == Expected(detectors[i], records[..m], exclude, maxLocations);
    assert Lookup(rows, detectors[j].kind) == Expected(detectors[j], records[..n], exclude, maxLocations);
    FirstRecordSoFar(detectors[i], records, m, exclude, maxLocations);
    FirstRecordSoFar(detectors[j], records, n, exclude, maxLocations);
  }

  lemma AppendInOrder(detectors: seq<Detector>, records: seq<string>, order: seq<string>, j: nat)
    requires DistinctKinds(detectors) && j < |detectors| && InDiscoveryOrder(detectors, records, order)
    requires forall i :: 0 <= i < |detectors| && detectors[i].kind in order ==> Earlier(detectors, records, i, j)
    ensures InDiscoveryOrder(detectors, records, order + [detectors[j].kind])
  {
    forall p | 0 <= p < |order| ensures EarlierKind(detectors, records, order[p], detectors[j].kind) {
      forall i, l | 0 <= i < |detectors| && 0 <= l < |detectors| && detectors[i].kind == order[p] && detectors[l].kind == detectors[j].kind
        ensures Earlier(detectors, records, i, l)
      {
        assert l == j;
      }
    }
  }

  lemma NewKindLast(t: Table<string, Finding>, detectors: seq<Detector>, records: seq<string>, n: nat, j: nat,
      exclude: set<string>, maxLocations: int)
    requires Scannable(detectors, records) && n < |records| && j < |detectors| && Upto(t, detectors, records, n, j, exclude, maxLocations)
    requires detectors[j].kind !in t.rows && Expected(detectors[j], records[..n + 1], exclude, maxLocations).Some?
    ensures InDiscoveryOrder(detectors, records, t.order + [detectors[j].kind])
  {
    forall i | 0 <= i < |detectors| && detectors[i].kind in t.order ensures Earlier(detectors, records, i, j) {
      assert detectors[i].kind in Elems(t.order);
      FoundEarlier(t.rows, detectors, records, n, j, exclude, maxLocations, i);
    }
    AppendInOrder(detectors, records, t.order, j);
  }

  /** Detector j on record n. */
  method ScanWith(detectors: seq<Detector>, records: seq<string>, n: nat, j: nat, exclude: set<string>, maxLocations: int,
      byKind: Table<string, Finding>)
    returns (after: Table<string, Finding>)
    requires Scannable(detectors, records) && n < |records| && j < |detectors|
    requires Upto(byKind, detectors, records, n, j, exclude, maxLocations)
    ensures Upto(after, detectors, records, n, j + 1, exclude, maxLocations)
  {
    after := byKind;
    var det := detectors[j];
    ghost var before := Lookup(byKind.rows, det.kind);
    ExpectedStep(det, records, n, exclude, maxLocations);
    assert before == Expected(det, records[..n], exclude, maxLocations);
    if det.kind !in exclude {
      var f := ScanRecord(det, records[n], n, maxLocations, Lookup(byKind.rows, det.kind));
      AddHitsEffect(before, det, n, RecordHits(det, records[n]), maxLocations);
      if f.Some? {
        after := byKind.Put(det.kind, f.value);
        PutFound(byKind, f.value, detectors, records, n, j, exclude, maxLocations);
      }
    }
    RowsStep(byKind.rows, after.rows, detectors, records, n, j, exclude, maxLocations);
  }

  lemma PutFound(t: Table<string, Finding>, f: Finding, detectors: seq<Detector>, records: seq<string>, n: nat, j: nat,
      exclude: set<string>, maxLocations: int)
    requires Scannable(detectors, records) && n < |records| && j < |detectors| && Upto(t, detectors, records, n, j, exclude, maxLocations)
    requires Expected(detectors[j], records[..n + 1], exclude, maxLocations) == Some(f)
    ensures var after := t.Put(detectors[j].kind, f);
      after.Valid() && after.rows.Keys <= Kinds(detectors) && InDiscoveryOrder(detectors, records, after.order)
  {
    PutValid(t, detectors[j].kind, f);
    if detectors[j].kind !in t.rows {
      NewKindLast(t, detectors, records, n, j, exclude, maxLocations);
    }
  }

  // ----- The report -----

  function Level(c: Confidence): int {
    match c
    case High => 0
    case Medium => 1
    case Low => 2
  }

  /** The comparator: more confidence first, then more hits. */
  function Compare(f: Finding, g: Finding): int {
    if Level(f.confidence) != Level(g.confidence) then Level(f.confidence) - Level(g.confidence) else g.count - f.count
  }

  /** A number that orders rows as the comparator does. */
  function Rank(row: (string, Finding)): real {
    Level(row.1.confidence) as real + 1.0 / (row.1.count as real + 1.0)
  }

  lemma ReciprocalOrder(m: nat, n: nat)
    ensures 0.0 < 1.0 / (m as real + 1.0) <= 1.0
    ensures m < n <==> 1.0 / (n as real + 1.0) < 1.0 / (m as real + 1.0)
  {
    var x, y := m as real + 1.0, n as real + 1.0;
    assert 1.0 / x * x == 1.0 && 1.0 / y * y == 1.0;
    Reciprocals(x, y);
    Reciprocals(1.0, x);
  }

  lemma Reciprocals(x: real, y: real)
    requires 0.0 < x && 0.0 < y
    ensures x < y <==> 1.0 / y < 1.0 / x
  {
    assert 1.0 / x - 1.0 / y == (y - x) / (x * y);
  }

  /** More confidence, and at equal confidence more hits. */
  predicate Outranks(f: Finding, g: Finding) {
    || (f.confidence == High && g.confidence != High)
    || (f.confidence == Medium && g.confidence == Low)
    || (f.confidence == g.confidence && f.count > g.count)
  }

  /** Equal confidence and equally many hits. */
  predicate Ties(f: Finding, g: Finding) {
    f.confidence == g.confidence && f.count == g.count
  }

  /** Both the comparator and the sort key put the more confident finding first, then the one with more hits. */
  lemma RankCompares(a: (string, Finding), b: (string, Finding))
    ensures Outranks(a.1, b.1) <==> Compare(a.1, b.1) < 0
    ensures Outranks(a.1, b.1) <==> Rank(a) < Rank(b)
    ensures Ties(a.1, b.1) <==> Compare(a.1, b.1) == 0
    ensures Ties(a.1, b.1) <==> Rank(a) == Rank(b)
  {
    ReciprocalOrder(a.1.count, b.1.count);
    ReciprocalOrder(b.1.count, a.1.count);
  }

  /** Row a comes before row b: it outranks it, or they tie and its kind was discovered earlier. */
  ghost predicate RowBefore(detectors: seq<Detector>, records: seq<string>, a: (string, Finding), b: (string, Finding)) {
    Outranks(a.1, b.1) || (Ties(a.1, b.1) && EarlierKind(detectors, records, a.0, b.0))
  }

  /** Every kind has the row that its detector would give alone, no other row is there, and the rows come in order. */
  ghost predicate Reports(found: seq<(string, Finding)>, detectors: seq<Detector>, records: seq<string>,
      exclude: set<string>, maxLocations: int)
    requires Scannable(detectors, records)
  {
    && (forall i, f :: 0 <= i < |detectors| ==>
          ((detectors[i].kind, f) in found <==> Expected(detectors[i], records, exclude, maxLocations) == Some(f)))
    && (forall row :: row in found ==> row.0 in Kinds(detectors))
    && (forall p, q :: 0 <= p < q < |found| ==> RowBefore(detectors, records, found[p], found[q]))
  }

  lemma EntryIff(t: Table<string, Finding>, row: (string, Finding))
    requires t.Valid()
    ensures row in t.Entries() <==> Lookup(t.rows, row.0) == Some(row.1)
  {
    var es := t.Entries();
    if Lookup(t.rows, row.0) == Some(row.1) {
      assert row.0 in Elems(t.order);
      var p :| 0 <= p < |t.order| && t.order[p] == row.0;
      assert es[p] == row;
    }
  }

  lemma SortedEntries(t: Table<string, Finding>, row: (string, Finding))
    requires t.Valid()
    ensures row in SortBy(t.Entries(), Rank) <==> Lookup(t.rows, row.0) == Some(row.1)
  {
    var es := t.Entries();
    SortByCorrect(es, Rank);
    EntryIff(t, row);
    assert row in es <==> row in multiset(es);
    assert row in SortBy(es, Rank) <==> row in multiset(SortBy(es, Rank));
  }

  lemma SortedInOrder(es: seq<(string, Finding)>, detectors: seq<Detector>, records: seq<string>)
    requires forall p, q :: 0 <= p < q < |es| ==> EarlierKind(detectors, records, es[p].0, es[q].0)
    ensures var found := SortBy(es, Rank);
      forall p, q :: 0 <= p < q < |found| ==> RowBefore(detectors, records, found[p], found[q])
  {
    var found := SortBy(es, Rank);
    SortByOrders(es, Rank, (a: (string, Finding), b: (string, Finding)) => EarlierKind(detectors, records, a.0, b.0));
    forall p, q | 0 <= p < q < |found| ensures RowBefore(detectors, records, found[p], found[q]) {
      RankCompares(found[p], found[q]);
    }
  }

  lemma SortedReports(t: Table<string, Finding>, detectors: seq<Detector>, records: seq<string>, exclude: set<string>, maxLocations: int)
    requires Scannable(detectors, records) && Upto(t, detectors, records, |records|, 0, exclude, maxLocations)
    ensures Reports(SortBy(t.Entries(), Rank), detectors, records, exclude, maxLocations)
  {
    assert records[..|records|] == records;
    SortedInOrder(t.Entries(), detectors, records);
    forall row ensures row in SortBy(t.Entries(), Rank) <==> Lookup(t.rows, row.0) == Some(row.1) {
      SortedEntries(t, row);
    }
    forall i, f | 0 <= i < |detectors|
      ensures (detectors[i].kind, f) in SortBy(t.Entries(), Rank) <==> Expected(detectors[i], records, exclude, maxLocations) == Some(f)
    {
      assert Lookup(t.rows, detectors[i].kind) == Expected(detectors[i], records, exclude, maxLocations);
    }
  }

  /** Of two rows that a report may hold, only one can come before the other. */
  lemma RowBeforeAsymmetric(detectors: seq<Detector>, records: seq<string>, a: (string, Finding), b: (string, Finding))
    requires a.0 in Kinds(detectors) && b.0 in Kinds(detectors)
    ensures !(RowBefore(detectors, records, a, b) && RowBefore(detectors, records, b, a))
  {
    var i :| 0 <= i < |detectors| && detectors[i].kind == a.0;
    var j :| 0 <= j < |detectors| && detectors[j].kind == b.0;
    assert EarlierKind(detectors, records, a.0, b.0) ==> Earlier(detectors, records, i, j);
    assert EarlierKind(detectors, records, b.0, a.0) ==> Earlier(detectors, records, j, i);
  }

  lemma SameRows(a: seq<(string, Finding)>, b: seq<(string, Finding)>, detectors: seq<Detector>, records: seq<string>,
      exclude: set<string>, maxLocations: int)
    requires Scannable(detectors, records)
    requires Reports(a, detectors, records, exclude, maxLocations) && Reports(b, detectors, records, exclude, maxLocations)
    ensures forall row :: row in a ==> row in b
  {
    forall row | row in a ensures row in b {
      var i :| 0 <= i < |detectors| && detectors[i].kind == row.0;
      assert row == (detectors[i].kind, row.1);
      assert Expected(detectors[i], records, exclude, maxLocations) == Some(row.1);
    }
  }

  /** There is just one such report. */
  lemma ReportUnique(a: seq<(string, Finding)>, b: seq<(string, Finding)>, detectors: seq<Detector>, records: seq<string>,
      exclude: set<string>, maxLocations: int)
    requires Scannable(detectors, records)
    requires Reports(a, detectors, records, exclude, maxLocations) && Reports(b, detectors, records, exclude, maxLocations)
    ensures a == b
  {
    SameRows(a, b, detectors, records, exclude, maxLocations);
    SameRows(b, a, detectors, records, exclude, maxLocations);
    forall x, y | x in a && y in a
      ensures !(RowBefore(detectors, records, x, y) && RowBefore(detectors, records, y, x))
    {
      RowBeforeAsymmetric(detectors, records, x, y);
    }
    OneOrder(a, b, (x, y) => RowBefore(detectors, records, x, y));
  }

  /** The double loop computes every kind's finding independently of the others, and reports them in order. */
  method ScanForSensitiveData(records: seq<string>, detectors: seq<Detector>, exclude: set<string>, maxLocations: int)
    returns (found: seq<(string, Finding)>)
    requires Scannable(detectors, records)
    ensures Reports(found, detectors, records, exclude, maxLocations)
  {
    var byKind := Empty<string, Finding>();
    for n := 0 to |records|
      invariant Upto(byKind, detectors, records, n, 0, exclude, maxLocations)
    {
      for j := 0 to |detectors|
        invariant Upto(byKind, detectors, records, n, j, exclude, maxLocations)
      {
        byKind := ScanWith(detectors, records, n, j, exclude, maxLocations, byKind);
      }
      RowsNext(byKind.rows, detectors, records, n, exclude, maxLocations);
    }
    SortedReports(byKind, detectors, records, exclude, maxLocations);
    found := SortBy(byKind.Entries(), Rank);
  }
}
