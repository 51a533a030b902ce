/** The browser client's event buffer, as steps over arbitrary interleavings of callbacks. */
module RumClient {
  import opened Collections
  import opened Text

  datatype Event =
    | View(route: string, durationMs: Option<int>, entry: bool)
    | Resource(url: string, route: string)
    | ErrorReport(message: string, route: string)
    | Navigation(route: string)

  /** What the buffer holds: an event as pushed, or a drained metric value. */
  datatype Item =
    | Pushed(event: Event)
    | Vital(key: string, name: string, value: real, route: string)

  /** The latest value of one metric: its route is the one of its first callback. */
  datatype Entry = Entry(key: string, value: real, route: string, sent: Option<real>)

  /** A flushed buffer; the consent gate discards it when it is not delivered. */
  datatype Batch = Batch(route: string, items: seq<Item>, delivered: bool)

  datatype Client = Client(buffer: seq<Item>, latest: seq<Entry>, route: string, flushed: seq<Batch>)

  function KeyOf(name: string, id: string): string {
    name + ":" + id
  }

  /** A metric name holds no colon, so the key gives the name back. */
  lemma NameOfKey(name: string, id: string)
    requires ':' !in name
    ensures Before(KeyOf(name, id), ':') == name
  {
    assert KeyOf(name, id) == name + ([':'] + id);
    BeforeConcat(name, [':'] + id, ':');
  }

  // ----- The latest values, in the order of their first callbacks -----

  function Record(latest: seq<Entry>, key: string, value: real, route: string): seq<Entry> {
    if latest == [] then [Entry(key, value, route, None)]
    else if latest[0].key == key then [latest[0].(value := value)] + latest[1..]
    else [latest[0]] + Record(latest[1..], key, value, route)
  }

  function Find(latest: seq<Entry>, key: string): Option<Entry> {
    if latest == [] then None
    else if latest[0].key == key then Some(latest[0])
    else Find(latest[1..], key)
  }

  predicate Unsent(e: Entry) {
    e.sent != Some(e.value)
  }

  function DrainedItem(e: Entry): Item {
    Vital(e.key, Before(e.key, ':'), e.value, e.route)
  }

  function Drained(latest: seq<Entry>): seq<Item> {
    if latest == [] then []
    else (if Unsent(latest[0]) then [DrainedItem(latest[0])] else []) + Drained(latest[1..])
  }

  function MarkedSent(e: Entry): Entry {
    e.(sent := Some(e.value))
  }

  function AllSent(latest: seq<Entry>): seq<Entry> {
    seq(|latest|, i requires 0 <= i < |latest| => MarkedSent(latest[i]))
  }

  /** The first i values are marked as sent. */
  function SentUpTo(latest: seq<Entry>, i: nat): seq<Entry>
    requires i <= |latest|
  {
    seq(|latest|, j requires 0 <= j < |latest| => if j < i then MarkedSent(latest[j]) else latest[j])
  }

  lemma SentStep(latest: seq<Entry>, i: nat)
    requires i < |latest|
    ensures |SentUpTo(latest, i)| == |latest| && SentUpTo(latest, i)[i] == latest[i]
    ensures SentUpTo(latest, i + 1) == SentUpTo(latest, i)[i := MarkedSent(latest[i])]
    ensures !Unsent(latest[i]) ==> SentUpTo(latest, i + 1) == SentUpTo(latest, i)
  {
  }

  // ----- Steps -----

  /** `allow` is what the consent gate answers, true when there is none. */
  function Flush(c: Client, allow: bool): Client {
    var all := c.buffer + Drained(c.latest);
    Client([], AllSent(c.latest), c.route, if all == [] then c.flushed else c.flushed + [Batch(c.route, all, allow)])
  }

  function Push(c: Client, e: Event, batchSize: int, allow: bool): Client {
    var d := c.(buffer := c.buffer + [Pushed(e)]);
    if |d.buffer| >= batchSize then Flush(d, allow) else d
  }

  datatype Step =
    | DoPush(event: Event, allow: bool)
    | DoVital(key: string, value: real)
    | DoFlush(allow: bool)
    | DoRoute(route: string, durationMs: int, allow: bool)

  function RouteView(route: string, durationMs: int): Event {
    View(route, Some(durationMs), false)
  }

  function Apply(c: Client, s: Step, batchSize: int, sampled: bool): Client {
    match s
    case DoPush(e, allow) => if sampled then Push(c, e, batchSize, allow) else c
    case DoVital(key, value) => c.(latest := Record(c.latest, key, value, c.route))
    case DoFlush(allow) => if sampled then Flush(c, allow) else c
    case DoRoute(route, durationMs, allow) =>
      var d := c.(route := route);
      if sampled then Push(d, RouteView(route, durationMs), batchSize, allow) else d
  }

  function Run(route: string, steps: seq<Step>, batchSize: int, sampled: bool): Client {
    if steps == [] then Client([], [], route, [])
    else Apply(Run(route, steps[..|steps| - 1], batchSize, sampled), steps[|steps| - 1], batchSize, sampled)
  }

  /** What the buffer holds once the entries from i on are drained into it. */
  function DrainedFrom(buffer: seq<Item>, entries: seq<Entry>, i: nat): seq<Item>
    requires i <= |entries|
    decreases |entries| - i
  {
    if i == |entries| then buffer
    else DrainedFrom(if Unsent(entries[i]) then buffer + [DrainedItem(entries[i])] else buffer, entries, i + 1)
  }

  lemma {:induction false} DrainedFromMeaning(buffer: seq<Item>, entries: seq<Entry>, i: nat)
    requires i <= |entries|
    ensures DrainedFrom(buffer, entries, i) == buffer + Drained(entries[i..])
    decreases |entries| - i
  {
    if i < |entries| {
      var more := if Unsent(entries[i]) then [DrainedItem(entries[i])] else [];
      DrainedFromMeaning(buffer + more, entries, i + 1);
      assert entries[i..][1..] == entries[i + 1..];
      ConcatAssoc(buffer, more, Drained(entries[i + 1..]));
      assert buffer + [] == buffer;
    }
  }

  lemma DrainBounds(before: seq<Item>, entries: seq<Entry>)
    ensures DrainedFrom(before, entries, 0) == before + Drained(entries)
    ensures SentUpTo(entries, 0) == entries && SentUpTo(entries, |entries|) == AllSent(entries)
  {
    DrainedFromMeaning(before, entries, 0);
    assert entries[0..] == entries;
  }

  /** Walks the table in order, buffering each value that has not been sent and marking it as sent. */
  method DrainEntries(before: seq<Item>, entries: seq<Entry>) returns (buffer: seq<Item>, latest: seq<Entry>)
    ensures buffer == before + Drained(entries)
    ensures latest == AllSent(entries)
  {
    buffer, latest := before, entries;
    DrainBounds(before, entries);
    ghost var result := DrainedFrom(before, entries, 0);
    for i := 0 to |entries|
      invariant latest == SentUpTo(entries, i)
      invariant DrainedFrom(buffer, entries, i) == result
    {
      SentStep(entries, i);
      var v := latest[i];
      if v.sent != Some(v.value) {
        buffer := buffer + [DrainedItem(v)];
        latest := latest[i := MarkedSent(v)];
      }
    }
  }

  // ----- The client object -----

  class RumClient {
    var buffer: seq<Item>
    var latest: seq<Entry>
    var currentRoute: string
    var flushed: seq<Batch>
    const sampled: bool
    const batchSize: int

    function Snapshot(): Client
      reads this
    {
      Client(buffer, latest, currentRoute, flushed)
    }

    constructor (route: string, sampled: bool, batchSize: int)
      ensures Snapshot() == Client([], [], route, []) && this.sampled == sampled && this.batchSize == batchSize
    {
      buffer, latest, currentRoute, flushed := [], [], route, [];
      this.sampled, this.batchSize := sampled, batchSize;
    }

    method DrainVitals()
      modifies `buffer, `latest
      ensures buffer == old(buffer) + Drained(old(latest))
      ensures latest == AllSent(old(latest))
    {
      buffer, latest := DrainEntries(buffer, latest);
    }

    method FlushNow(allow: bool)
      modifies this
      ensures Snapshot() == if sampled then Flush(old(Snapshot()), allow) else old(Snapshot())
    {
      if !sampled {
        return;
      }
      DrainVitals();
      if buffer == [] {
        return;
      }
      flushed := flushed + [Batch(currentRoute, buffer, allow)];
      buffer := [];
    }

    method PushEvent(e: Event, allow: bool)
      modifies this
      ensures Snapshot() == Apply(old(Snapshot()), DoPush(e, allow), batchSize, sampled)
    {
      if !sampled {
        return;
      }
      buffer := buffer + [Pushed(e)];
      if |buffer| >= batchSize {
        FlushNow(allow);
      }
    }

    method OnVital(name: string, id: string, value: real)
      modifies `latest
      ensures Snapshot() == Apply(old(Snapshot()), DoVital(KeyOf(name, id), value), batchSize, sampled)
    {
      latest := Record(latest, KeyOf(name, id), value, currentRoute);
    }

    method RouteChanged(route: string, durationMs: int, allow: bool)
      modifies this
      ensures Snapshot() == Apply(old(Snapshot()), DoRoute(route, durationMs, allow), batchSize, sampled)
    {
      currentRoute := route;
      PushEvent(RouteView(route, durationMs), allow);
    }
  }

  // ----- Everything that ever entered the buffer -----

  function Contents(batches: seq<Batch>): seq<Item> {
    if batches == [] then [] else Contents(batches[..|batches| - 1]) + batches[|batches| - 1].items
  }

  function AllItems(c: Client): seq<Item> {
    Contents(c.flushed) + c.buffer
  }

  lemma FlushItems(c: Client, allow: bool)
    ensures AllItems(Flush(c, allow)) == AllItems(c) + Drained(c.latest)
  {
    var all := c.buffer + Drained(c.latest);
    ConcatAssoc(Contents(c.flushed), c.buffer, Drained(c.latest));
    if all != [] {
      Snoc(c.flushed, Batch(c.route, all, allow));
      assert Contents(Flush(c, allow).flushed) == Contents(c.flushed) + all;
    }
    assert AllItems(Flush(c, allow)) == Contents(Flush(c, allow).flushed);
  }

  lemma PushItems(c: Client, e: Event, batchSize: int, allow: bool)
    ensures var d, p := c.(buffer := c.buffer + [Pushed(e)]), Push(c, e, batchSize, allow);
      && AllItems(d) == AllItems(c) + [Pushed(e)]
      && (|d.buffer| >= batchSize ==> AllItems(p) == AllItems(c) + [Pushed(e)] + Drained(c.latest))
  {
    ConcatAssoc(Contents(c.flushed), c.buffer, [Pushed(e)]);
    FlushItems(c.(buffer := c.buffer + [Pushed(e)]), allow);
  }

  /** The pushed events among the items, in order. */
  function Events(items: seq<Item>): seq<Event> {
    if items == [] then []
    else Events(items[..|items| - 1]) + if items[|items| - 1].Pushed? then [items[|items| - 1].event] else []
  }

  lemma {:induction false} EventsConcat(a: seq<Item>, b: seq<Item>)
    ensures Events(a + b) == Events(a) + Events(b)
  {
    if b == [] {
      assert a + b == a;
    } else {
      var n := |b| - 1;
      EventsConcat(a, b[..n]);
      assert (a + b)[..|a + b| - 1] == a + b[..n];
    }
  }

  lemma {:induction false} DrainedHasNoEvents(latest: seq<Entry>)
    ensures Events(Drained(latest)) == []
  {
    if latest != [] {
      DrainedHasNoEvents(latest[1..]);
      var first := if Unsent(latest[0]) then [DrainedItem(latest[0])] else [];
      EventsConcat(first, Drained(latest[1..]));
    }
  }

  /** The events that the steps push, in order. */
  function PushedBy(steps: seq<Step>): seq<Event> {
    if steps == [] then []
    else
      var s := steps[|steps| - 1];
      PushedBy(steps[..|steps| - 1]) +
        match s
        case DoPush(e, _) => [e]
        case DoRoute(route, durationMs, _) => [View(route, Some(durationMs), false)]
        case _ => []
  }

  lemma FlushEvents(c: Client, allow: bool)
    ensures Events(AllItems(Flush(c, allow))) == Events(AllItems(c))
  {
    FlushItems(c, allow);
    EventsConcat(AllItems(c), Drained(c.latest));
    DrainedHasNoEvents(c.latest);
  }

  lemma PushEvents(c: Client, e: Event, batchSize: int, allow: bool)
    ensures Events(AllItems(Push(c, e, batchSize, allow))) == Events(AllItems(c)) + [e]
  {
    var d := c.(buffer := c.buffer + [Pushed(e)]);
    PushItems(c, e, batchSize, allow);
    EventsConcat(AllItems(c), [Pushed(e)]);
    assert Events([Pushed(e)]) == [e] by { assert [Pushed(e)][..0] == []; }
    FlushEvents(d, allow);
  }

  /**
   * In a sampled session the flushed batches followed by the buffer, metric values
   * aside, are exactly the pushed events in order.
   */
  lemma {:induction false} EventsConserved(route: string, steps: seq<Step>, batchSize: int)
    ensures Events(AllItems(Run(route, steps, batchSize, true))) == PushedBy(steps)
  {
    if steps != [] {
      var n := |steps| - 1;
      var c := Run(route, steps[..n], batchSize, true);
      EventsConserved(route, steps[..n], batchSize);
      match steps[n]
      case DoPush(e, allow) => PushEvents(c, e, batchSize, allow);
      case DoRoute(to, durationMs, allow) => PushEvents(c.(route := to), RouteView(to, durationMs), batchSize, allow);
      case DoFlush(allow) => FlushEvents(c, allow);
      case DoVital(_, _) =>
    }
  }

  /** Outside a sampled session nothing is buffered and nothing is sent. */
  lemma {:induction false} UnsampledSilent(route: string, steps: seq<Step>, batchSize: int)
    ensures var c := Run(route, steps, batchSize, false);
      c.buffer == [] && c.flushed == []
  {
    if steps != [] {
      UnsampledSilent(route, steps[..|steps| - 1], batchSize);
    }
  }

  /** Between steps the buffer is below a positive batch size, and empty when it is not positive. */
  lemma {:induction false} BufferBounded(route: string, steps: seq<Step>, batchSize: int, sampled: bool)
    ensures |Run(route, steps, batchSize, sampled).buffer| < if batchSize > 0 then batchSize else 1
  {
    if steps != [] {
      BufferBounded(route, steps[..|steps| - 1], batchSize, sampled);
    }
  }

  predicate Allows(s: Step) {
    match s
    case DoVital(_, _) => true
    case DoPush(_, allow) => allow
    case DoFlush(allow) => allow
    case DoRoute(_, _, allow) => allow
  }

  ghost predicate AllSound(f: seq<Batch>) {
    forall i :: 0 <= i < |f| ==> f[i].items != [] && f[i].delivered
  }

  /** Without a consent gate every flushed batch is delivered, and none is empty. */
  lemma {:induction false} AllDelivered(route: string, steps: seq<Step>, batchSize: int, sampled: bool)
    requires forall i :: 0 <= i < |steps| ==> Allows(steps[i])
    ensures AllSound(Run(route, steps, batchSize, sampled).flushed)
  {
    if steps != [] {
      var n := |steps| - 1;
      var c := Run(route, steps[..n], batchSize, sampled);
      AllDelivered(route, steps[..n], batchSize, sampled);
      assert Allows(steps[n]);
      match steps[n]
      case DoPush(e, allow) => FlushSound(c.(buffer := c.buffer + [Pushed(e)]));
      case DoRoute(to, durationMs, allow) => FlushSound(c.(route := to, buffer := c.buffer + [Pushed(RouteView(to, durationMs))]));
      case DoFlush(allow) => FlushSound(c);
      case DoVital(_, _) =>
    }
  }

  lemma FlushSound(c: Client)
    requires AllSound(c.flushed)
    ensures AllSound(Flush(c, true).flushed)
  {
  }

  // ----- One metric over a whole run -----

  ghost predicate DistinctKeys(latest: seq<Entry>) {
    forall i, j :: 0 <= i < j < |latest| ==> latest[i].key != latest[j].key
  }

  /** The items that carry values of the metric k, in order. */
  function VitalsOf(items: seq<Item>, k: string): seq<Item> {
    if items == [] then []
    else
      var x := items[|items| - 1];
      var before := VitalsOf(items[..|items| - 1], k);
      if x.Vital? && x.key == k then before + [x] else before
  }

  lemma {:induction false} VitalsConcat(a: seq<Item>, b: seq<Item>, k: string)
    ensures VitalsOf(a + b, k) == VitalsOf(a, k) + VitalsOf(b, k)
  {
    if b == [] {
      assert a + b == a;
    } else {
      var n := |b| - 1;
      VitalsConcat(a, b[..n], k);
      assert (a + b)[..|a + b| - 1] == a + b[..n];
    }
  }

  lemma {:induction false} FindKey(latest: seq<Entry>, k: string)
    ensures Find(latest, k).Some? ==> Find(latest, k).value.key == k
    ensures Find(latest, k).None? <==> forall i :: 0 <= i < |latest| ==> latest[i].key != k
  {
    if latest != [] {
      FindKey(latest[1..], k);
    }
  }

  lemma VitalsOfOne(x: Item, k: string)
    ensures VitalsOf([x], k) == if x.Vital? && x.key == k then [x] else []
  {
    assert [x][..0] == [];
  }

  /** A drain yields one value of the metric, if its latest value has not been sent. */
  lemma {:induction false} DrainedVital(latest: seq<Entry>, k: string)
    requires DistinctKeys(latest)
    ensures VitalsOf(Drained(latest), k) ==
      match Find(latest, k)
      case None => []
      case Some(e) => if Unsent(e) then [DrainedItem(e)] else []
  {
    if latest != [] {
      var e, rest := latest[0], latest[1..];
      var first := if Unsent(e) then [DrainedItem(e)] else [];
      DrainedVital(rest, k);
      VitalsConcat(first, Drained(rest), k);
      VitalsOfOne(DrainedItem(e), k);
      FindKey(rest, k);
    }
  }

  lemma {:induction false} FindAllSent(latest: seq<Entry>, k: string)
    ensures Find(AllSent(latest), k) ==
      match Find(latest, k)
      case None => None
      case Some(e) => Some(e.(sent := Some(e.value)))
  {
    if latest != [] {
      FindAllSent(latest[1..], k);
      assert AllSent(latest)[1..] == AllSent(latest[1..]);
    }
  }

  lemma {:induction false} FindRecord(latest: seq<Entry>, key: string, value: real, route: string, k: string)
    ensures Find(Record(latest, key, value, route), k) ==
      if k != key then Find(latest, k)
      else match Find(latest, k)
        case None => Some(Entry(k, value, route, None))
        case Some(e) => Some(e.(value := value))
  {
    if latest != [] {
      FindRecord(latest[1..], key, value, route, k);
      var r := Record(latest, key, value, route);
      assert r[1..] == if latest[0].key == key then latest[1..] else Record(latest[1..], key, value, route);
    }
  }

  /** Recording replaces the value of the first entry with the key, or adds an entry at the end. */
  lemma {:induction false} RecordShape(latest: seq<Entry>, key: string, value: real, route: string) returns (i: nat)
    ensures i <= |latest| && forall j :: 0 <= j < i ==> latest[j].key != key
    ensures var r := Record(latest, key, value, route);
      if i < |latest| then latest[i].key == key && r == latest[i := latest[i].(value := value)]
      else r == latest + [Entry(key, value, route, None)]
  {
    if latest == [] || latest[0].key == key {
      i := 0;
    } else {
      var k := RecordShape(latest[1..], key, value, route);
      i := k + 1;
    }
  }

  lemma RecordKeys(latest: seq<Entry>, key: string, value: real, route: string)
    requires DistinctKeys(latest)
    ensures DistinctKeys(Record(latest, key, value, route))
  {
    var i := RecordShape(latest, key, value, route);
  }

  predicate Differ(a: Item, b: Item) {
    a.Vital? && b.Vital? && a.value != b.value
  }

  ghost predicate NoRepeats(v: seq<Item>) {
    forall i, j :: 0 <= i && j == i + 1 < |v| ==> Differ(v[i], v[j])
  }

  /** The value of the last item, as the entry remembers it. */
  function LastValue(v: seq<Item>): Option<real> {
    if v == [] || !v[|v| - 1].Vital? then None else Some(v[|v| - 1].value)
  }

  /** All items are values of the metric k under one route. */
  ghost predicate Carries(v: seq<Item>, k: string, route: string) {
    forall i :: 0 <= i < |v| ==> v[i].Vital? && v[i].key == k && v[i].name == Before(k, ':') && v[i].route == route
  }

  /** What the entry of a metric says about its values drained so far. */
  ghost predicate Consistent(latest: seq<Entry>, v: seq<Item>, k: string) {
    match Find(latest, k)
    case None => v == []
    case Some(e) =>
      && e.sent == LastValue(v)
      && NoRepeats(v)
      && Carries(v, k, e.route)
  }

  ghost predicate Tracked(c: Client, k: string) {
    DistinctKeys(c.latest) && Consistent(c.latest, VitalsOf(AllItems(c), k), k)
  }

  lemma AllSentKeys(latest: seq<Entry>)
    requires DistinctKeys(latest)
    ensures DistinctKeys(AllSent(latest))
  {
    assert forall i :: 0 <= i < |latest| ==> AllSent(latest)[i].key == latest[i].key;
  }

  lemma DrainConsistent(latest: seq<Entry>, v: seq<Item>, k: string)
    requires DistinctKeys(latest) && Consistent(latest, v, k)
    ensures var w := v + VitalsOf(Drained(latest), k);
      Consistent(AllSent(latest), w, k) && (Find(latest, k).Some? ==> LastValue(w) == Some(Find(latest, k).value.value))
  {
    DrainedVital(latest, k);
    FindAllSent(latest, k);
    FindKey(latest, k);
    if Find(latest, k).Some? && Unsent(Find(latest, k).value) {
      DrainUnsent(Find(latest, k).value, v, k);
    } else {
      assert v + [] == v;
    }
  }

  lemma DrainUnsent(e: Entry, v: seq<Item>, k: string)
    requires e.key == k && Unsent(e) && e.sent == LastValue(v) && NoRepeats(v) && Carries(v, k, e.route)
    ensures var w := v + [DrainedItem(e)];
      LastValue(w) == Some(e.value) && NoRepeats(w) && Carries(w, k, e.route)
  {
    var x := DrainedItem(e);
    NoRepeatsSnoc(v, x);
    CarriesSnoc(v, x, k, x.route);
  }

  lemma CarriesSnoc(v: seq<Item>, x: Item, k: string, route: string)
    requires Carries(v, k, route) && Carries([x], k, route)
    ensures Carries(v + [x], k, route)
  {
    assert [x][0] == x;
  }

  lemma NoRepeatsSnoc(v: seq<Item>, x: Item)
    requires NoRepeats(v) && (v == [] || Differ(v[|v| - 1], x))
    ensures NoRepeats(v + [x])
  {
    var w := v + [x];
    forall i, j | 0 <= i && j == i + 1 < |w| ensures Differ(w[i], w[j]) {
      if j < |v| {
        assert Differ(v[i], v[j]);
      }
    }
  }

  lemma FlushTracked(c: Client, allow: bool, k: string)
    requires Tracked(c, k)
    ensures Tracked(Flush(c, allow), k)
    ensures Find(c.latest, k).Some? ==> LastValue(VitalsOf(AllItems(Flush(c, allow)), k)) == Some(Find(c.latest, k).value.value)
  {
    FlushItems(c, allow);
    VitalsConcat(AllItems(c), Drained(c.latest), k);
    DrainConsistent(c.latest, VitalsOf(AllItems(c), k), k);
    AllSentKeys(c.latest);
  }

  lemma PushTracked(c: Client, e: Event, batchSize: int, allow: bool, k: string)
    requires Tracked(c, k)
    ensures Tracked(Push(c, e, batchSize, allow), k)
  {
    var d := c.(buffer := c.buffer + [Pushed(e)]);
    PushItems(c, e, batchSize, allow);
    VitalsConcat(AllItems(c), [Pushed(e)], k);
    VitalsOfOne(Pushed(e), k);
    assert VitalsOf(AllItems(d), k) == VitalsOf(AllItems(c), k);
    FlushTracked(d, allow, k);
  }

  lemma VitalTracked(c: Client, key: string, value: real, k: string)
    requires Tracked(c, k)
    ensures Tracked(c.(latest := Record(c.latest, key, value, c.route)), k)
  {
    RecordKeys(c.latest, key, value, c.route);
    FindRecord(c.latest, key, value, c.route, k);
    assert AllItems(c.(latest := Record(c.latest, key, value, c.route))) == AllItems(c);
  }

  lemma RouteTracked(c: Client, route: string, k: string)
    requires Tracked(c, k)
    ensures Tracked(c.(route := route), k)
  {
    assert AllItems(c.(route := route)) == AllItems(c);
  }

  lemma StepTracked(c: Client, s: Step, batchSize: int, k: string)
    requires Tracked(c, k)
    ensures Tracked(Apply(c, s, batchSize, true), k)
  {
    if s.DoPush? {
      PushTracked(c, s.event, batchSize, s.allow, k);
    } else if s.DoFlush? {
      FlushTracked(c, s.allow, k);
    } else if s.DoVital? {
      VitalTracked(c, s.key, s.value, k);
    } else {
      RouteTracked(c, s.route, k);
      PushTracked(c.(route := s.route), RouteView(s.route, s.durationMs), batchSize, s.allow, k);
    }
  }

  lemma {:induction false} AlwaysTracked(route: string, steps: seq<Step>, batchSize: int, k: string)
    ensures Tracked(Run(route, steps, batchSize, true), k)
  {
    if steps != [] {
      var n := |steps| - 1;
      AlwaysTracked(route, steps[..n], batchSize, k);
      StepTracked(Run(route, steps[..n], batchSize, true), steps[n], batchSize, k);
    }
  }

  /** The value of the metric's last callback. */
  function LatestValue(steps: seq<Step>, k: string): Option<real> {
    if steps == [] then None
    else
      var s := steps[|steps| - 1];
      if s.DoVital? && s.key == k then Some(s.value) else LatestValue(steps[..|steps| - 1], k)
  }

  /** The route the page was on. */
  function RouteAfter(route: string, steps: seq<Step>): string {
    if steps == [] then route
    else
      var s := steps[|steps| - 1];
      if s.DoRoute? then s.route else RouteAfter(route, steps[..|steps| - 1])
  }

  /** The route the page was on at the metric's first callback. */
  function FirstRoute(route: string, steps: seq<Step>, k: string): Option<string> {
    if steps == [] then None
    else
      var s, init := steps[|steps| - 1], steps[..|steps| - 1];
      var before := FirstRoute(route, init, k);
      if before.None? && s.DoVital? && s.key == k then Some(RouteAfter(route, init)) else before
  }

  lemma {:induction false} CurrentRoute(route: string, steps: seq<Step>, batchSize: int, sampled: bool)
    ensures Run(route, steps, batchSize, sampled).route == RouteAfter(route, steps)
  {
    if steps != [] {
      CurrentRoute(route, steps[..|steps| - 1], batchSize, sampled);
    }
  }

  lemma StepEntry(c: Client, s: Step, batchSize: int, k: string)
    ensures var e, f := Find(c.latest, k), Find(Apply(c, s, batchSize, true).latest, k);
      if s.DoVital? && s.key == k then
        f == if e.None? then Some(Entry(k, s.value, c.route, None)) else Some(e.value.(value := s.value))
      else
        (f.None? <==> e.None?) && (f.Some? ==> f.value.value == e.value.value && f.value.route == e.value.route)
  {
    FindAllSent(c.latest, k);
    if s.DoVital? {
      FindRecord(c.latest, s.key, s.value, c.route, k);
    }
  }

  /** The entry holds the last callback's value and the first callback's route. */
  lemma {:induction false} EntryMeaning(route: string, steps: seq<Step>, batchSize: int, k: string)
    ensures var e := Find(Run(route, steps, batchSize, true).latest, k);
      && (e.None? <==> LatestValue(steps, k).None?)
      && (e.Some? ==> LatestValue(steps, k) == Some(e.value.value) && FirstRoute(route, steps, k) == Some(e.value.route))
      && (e.None? ==> FirstRoute(route, steps, k).None?)
  {
    if steps != [] {
      var n := |steps| - 1;
      EntryMeaning(route, steps[..n], batchSize, k);
      CurrentRoute(route, steps[..n], batchSize, true);
      StepEntry(Run(route, steps[..n], batchSize, true), steps[n], batchSize, k);
    }
  }

  // ----- Flushes, and what the consent gate lets through -----

  /** What the gate answers at the flush that a step causes, None if it causes none. */
  function FlushGate(c: Client, s: Step, batchSize: int): Option<bool> {
    match s
    case DoFlush(allow) => Some(allow)
    case DoPush(_, allow) => if |c.buffer| + 1 >= batchSize then Some(allow) else None
    case DoRoute(_, _, allow) => if |c.buffer| + 1 >= batchSize then Some(allow) else None
    case DoVital(_, _) => None
  }

  /** The gate's answer at the last of the steps. */
  function GateNow(route: string, steps: seq<Step>, batchSize: int): Option<bool>
    requires steps != []
  {
    FlushGate(Run(route, steps[..|steps| - 1], batchSize, true), steps[|steps| - 1], batchSize)
  }

  /** The last step flushes, by itself or because it fills the batch. */
  predicate Flushing(route: string, steps: seq<Step>, batchSize: int) {
    steps != [] && GateNow(route, steps, batchSize).Some?
  }

  /** The batches d are the batches c and one more, not empty, with this route and this answer of the gate. */
  predicate HandsOver(c: seq<Batch>, d: seq<Batch>, route: string, delivered: bool) {
    d != [] && d[..|d| - 1] == c
    && d[|d| - 1].route == route && d[|d| - 1].delivered == delivered && d[|d| - 1].items != []
  }

  /** A step that does not flush hands over nothing; one that does hands over at most one batch, under the route the page is on. */
  lemma BatchMeaning(route: string, steps: seq<Step>, batchSize: int)
    requires steps != []
    ensures var c, d := Run(route, steps[..|steps| - 1], batchSize, true).flushed, Run(route, steps, batchSize, true).flushed;
      var gate := GateNow(route, steps, batchSize);
      d == c || (gate.Some? && HandsOver(c, d, RouteAfter(route, steps), gate.value))
  {
    CurrentRoute(route, steps, batchSize, true);
  }

  /** The value the metric had at the last flush. */
  function LastDrained(route: string, steps: seq<Step>, batchSize: int, k: string): Option<real> {
    if steps == [] then None
    else
      var init := steps[..|steps| - 1];
      if GateNow(route, steps, batchSize).Some? then LatestValue(init, k) else LastDrained(route, init, batchSize, k)
  }

  /** The last step is a flush that finds a value of the metric other than the one it last drained. */
  predicate Drains(route: string, steps: seq<Step>, batchSize: int, k: string) {
    && Flushing(route, steps, batchSize)
    && LatestValue(steps[..|steps| - 1], k) != LastDrained(route, steps[..|steps| - 1], batchSize, k)
  }

  /** What the gate answered at the flush that last drained the metric. */
  function DrainGate(route: string, steps: seq<Step>, batchSize: int, k: string): Option<bool> {
    if steps == [] then None
    else if Drains(route, steps, batchSize, k) then GateNow(route, steps, batchSize)
    else DrainGate(route, steps[..|steps| - 1], batchSize, k)
  }

  /** The value the metric had when it was last drained at an open gate. */
  function OpenValue(route: string, steps: seq<Step>, batchSize: int, k: string): Option<real> {
    if steps == [] then None
    else
      var init := steps[..|steps| - 1];
      if Drains(route, steps, batchSize, k) && GateNow(route, steps, batchSize) == Some(true) then LatestValue(init, k)
      else OpenValue(route, init, batchSize, k)
  }

  /** The items that were sent. */
  function DeliveredItems(batches: seq<Batch>): seq<Item> {
    if batches == [] then []
    else
      var n := |batches| - 1;
      var before := DeliveredItems(batches[..n]);
      if batches[n].delivered then before + batches[n].items else before
  }

  /** The last batch that carries a value of the metric. */
  function LastCarrier(batches: seq<Batch>, k: string): Option<Batch> {
    if batches == [] then None
    else
      var n := |batches| - 1;
      if VitalsOf(batches[n].items, k) != [] then Some(batches[n]) else LastCarrier(batches[..n], k)
  }

  ghost predicate Carried(b: Option<Batch>, k: string, gate: Option<bool>, drained: Option<real>) {
    match b
    case None => gate.None?
    case Some(batch) => gate == Some(batch.delivered) && LastValue(VitalsOf(batch.items, k)) == drained
  }

  ghost predicate Remembers(latest: seq<Entry>, k: string, value: Option<real>, drained: Option<real>) {
    match Find(latest, k)
    case None => value.None? && drained.None?
    case Some(e) => value == Some(e.value) && drained == e.sent
  }

  /** How the client's state reflects the metric's value, its last drain and the gate's answers. */
  ghost predicate Gated(c: Client, k: string, value: Option<real>, drained: Option<real>, gate: Option<bool>, open: Option<real>) {
    && DistinctKeys(c.latest)
    && VitalsOf(c.buffer, k) == []
    && Remembers(c.latest, k, value, drained)
    && (gate.None? <==> drained.None?)
    && (gate.None? ==> open.None?)
    && (gate == Some(true) ==> open == drained)
    && LastValue(VitalsOf(DeliveredItems(c.flushed), k)) == open
    && Carried(LastCarrier(c.flushed, k), k, gate, drained)
  }

  /** What a flush takes of the metric. */
  function Taken(latest: seq<Entry>, k: string): seq<Item> {
    match Find(latest, k)
    case None => []
    case Some(e) => if Unsent(e) then [DrainedItem(e)] else []
  }

  lemma FlushTakes(c: Client, k: string)
    requires DistinctKeys(c.latest)
    ensures VitalsOf(c.buffer + Drained(c.latest), k) == VitalsOf(c.buffer, k) + Taken(c.latest, k)
  {
    VitalsConcat(c.buffer, Drained(c.latest), k);
    DrainedVital(c.latest, k);
  }

  lemma BatchAdded(batches: seq<Batch>, b: Batch, k: string)
    ensures LastCarrier(batches + [b], k) == if VitalsOf(b.items, k) != [] then Some(b) else LastCarrier(batches, k)
    ensures VitalsOf(DeliveredItems(batches + [b]), k)
      == if b.delivered then VitalsOf(DeliveredItems(batches), k) + VitalsOf(b.items, k) else VitalsOf(DeliveredItems(batches), k)
  {
    Snoc(batches, b);
    VitalsConcat(DeliveredItems(batches), b.items, k);
  }

  lemma TakenIff(latest: seq<Entry>, k: string, value: Option<real>, drained: Option<real>)
    requires Remembers(latest, k, value, drained)
    ensures Taken(latest, k) == [] <==> value == drained
    ensures Taken(latest, k) != [] ==> value.Some? && |Taken(latest, k)| == 1 && LastValue(Taken(latest, k)) == value
    ensures Remembers(AllSent(latest), k, value, value)
  {
    FindAllSent(latest, k);
  }

  lemma LastOfMore(v: seq<Item>, w: seq<Item>)
    requires w != []
    ensures LastValue(v + w) == LastValue(w)
  {
  }

  /** What a flush hands over carries the metric exactly if its value is not the one drained last. */
  lemma FlushedBatch(c: Client, allow: bool, k: string, value: Option<real>, drained: Option<real>)
    requires DistinctKeys(c.latest) && VitalsOf(c.buffer, k) == [] && Remembers(c.latest, k, value, drained)
    ensures var f, b := Flush(c, allow), Batch(c.route, c.buffer + Drained(c.latest), allow);
      && DistinctKeys(f.latest) && VitalsOf(f.buffer, k) == [] && Remembers(f.latest, k, value, value)
      && f.flushed == (if b.items == [] then c.flushed else c.flushed + [b])
      && (VitalsOf(b.items, k) == [] <==> value == drained)
      && (value != drained ==> value.Some? && LastValue(VitalsOf(b.items, k)) == value)
  {
    FlushTakes(c, k);
    TakenIff(c.latest, k, value, drained);
    AllSentKeys(c.latest);
    assert VitalsOf(c.buffer + Drained(c.latest), k) == Taken(c.latest, k);
  }

  lemma FlushGated(c: Client, allow: bool, k: string, value: Option<real>, drained: Option<real>, gate: Option<bool>, open: Option<real>)
    requires Gated(c, k, value, drained, gate, open)
    ensures Gated(Flush(c, allow), k, value, value, if value != drained then Some(allow) else gate,
              if value != drained && allow then value else open)
  {
    var b := Batch(c.route, c.buffer + Drained(c.latest), allow);
    FlushedBatch(c, allow, k, value, drained);
    BatchAdded(c.flushed, b, k);
    if value != drained {
      LastOfMore(VitalsOf(DeliveredItems(c.flushed), k), VitalsOf(b.items, k));
    } else {
      assert VitalsOf(DeliveredItems(c.flushed), k) + [] == VitalsOf(DeliveredItems(c.flushed), k);
    }
  }

  lemma VitalGated(c: Client, key: string, v: real, k: string, value: Option<real>, drained: Option<real>, gate: Option<bool>, open: Option<real>)
    requires Gated(c, k, value, drained, gate, open)
    ensures Gated(c.(latest := Record(c.latest, key, v, c.route)), k, if key == k then Some(v) else value, drained, gate, open)
  {
    RecordKeys(c.latest, key, v, c.route);
    FindRecord(c.latest, key, v, c.route, k);
  }

  /** The client as the flush finds it: with the event that the step has pushed. */
  function Loaded(c: Client, s: Step): Client {
    match s
    case DoPush(e, _) => c.(buffer := c.buffer + [Pushed(e)])
    case DoRoute(to, durationMs, _) => c.(route := to, buffer := c.buffer + [Pushed(RouteView(to, durationMs))])
    case _ => c
  }

  lemma LoadedGated(c: Client, s: Step, k: string, value: Option<real>, drained: Option<real>, gate: Option<bool>, open: Option<real>)
    requires Gated(c, k, value, drained, gate, open)
    ensures Gated(Loaded(c, s), k, value, drained, gate, open)
  {
    if s.DoPush? {
      Snoc(c.buffer, Pushed(s.event));
    } else if s.DoRoute? {
      Snoc(c.buffer, Pushed(RouteView(s.route, s.durationMs)));
    }
  }

  lemma StepIsFlush(c: Client, s: Step, batchSize: int)
    ensures var gate := FlushGate(c, s, batchSize);
      && (gate.Some? ==> !s.DoVital? && Apply(c, s, batchSize, true) == Flush(Loaded(c, s), gate.value))
      && (gate.None? && !s.DoVital? ==> Apply(c, s, batchSize, true) == Loaded(c, s))
  {
  }

  lemma {:induction false} AlwaysGated(route: string, steps: seq<Step>, batchSize: int, k: string)
    ensures Gated(Run(route, steps, batchSize, true), k, LatestValue(steps, k), LastDrained(route, steps, batchSize, k),
              DrainGate(route, steps, batchSize, k), OpenValue(route, steps, batchSize, k))
  {
    if steps != [] {
      var n := |steps| - 1;
      var init, s := steps[..n], steps[n];
      var c := Run(route, init, batchSize, true);
      var value, drained := LatestValue(init, k), LastDrained(route, init, batchSize, k);
      var gate, open := DrainGate(route, init, batchSize, k), OpenValue(route, init, batchSize, k);
      AlwaysGated(route, init, batchSize, k);
      StepIsFlush(c, s, batchSize);
      if s.DoVital? {
        VitalGated(c, s.key, s.value, k, value, drained, gate, open);
      } else {
        LoadedGated(c, s, k, value, drained, gate, open);
        if FlushGate(c, s, batchSize).Some? {
          FlushGated(Loaded(c, s), FlushGate(c, s, batchSize).value, k, value, drained, gate, open);
        }
      }
    }
  }

  /** A flush is no callback, so it leaves the latest value alone and has drained it. */
  lemma FlushingDrains(route: string, steps: seq<Step>, batchSize: int, k: string)
    requires Flushing(route, steps, batchSize)
    ensures LastDrained(route, steps, batchSize, k) == LatestValue(steps, k)
  {
  }

  /**
   * Right after any flush of a sampled session, the last batch that carries a metric holds the
   * metric's latest value, and it was sent exactly if the gate was open at the flush that last
   * drained the metric.
   */
  lemma LatestValueSentIff(route: string, steps: seq<Step>, batchSize: int, k: string)
    requires Flushing(route, steps, batchSize) && LatestValue(steps, k).Some?
    ensures var b := LastCarrier(Run(route, steps, batchSize, true).flushed, k);
      && b.Some?
      && LastValue(VitalsOf(b.value.items, k)) == LatestValue(steps, k)
      && (b.value.delivered <==> DrainGate(route, steps, batchSize, k) == Some(true))
  {
    AlwaysGated(route, steps, batchSize, k);
    FlushingDrains(route, steps, batchSize, k);
  }

  /**
   * So the last value that was sent is the latest one unless the gate was closed at the flush that
   * last drained the metric, and even then it is if the metric is back at the value it had when it
   * was last drained at an open gate.
   */
  lemma LastSentIsLatestIff(route: string, steps: seq<Step>, batchSize: int, k: string)
    requires Flushing(route, steps, batchSize)
    ensures LastValue(VitalsOf(DeliveredItems(Run(route, steps, batchSize, true).flushed), k)) == LatestValue(steps, k) <==>
      || DrainGate(route, steps, batchSize, k) != Some(false)
      || OpenValue(route, steps, batchSize, k) == LatestValue(steps, k)
  {
    AlwaysGated(route, steps, batchSize, k);
    FlushingDrains(route, steps, batchSize, k);
  }

  /**
   * The values drained for a metric never repeat consecutively and all carry the route of
   * its first callback; right after any flush the last of them is its latest value.
   */
  lemma MetricHistory(route: string, steps: seq<Step>, batchSize: int, k: string)
    ensures var v := VitalsOf(AllItems(Run(route, steps, batchSize, true)), k);
      && NoRepeats(v)
      && (forall i :: 0 <= i < |v| ==> v[i].Vital? && FirstRoute(route, steps, k) == Some(v[i].route))
      && LastValue(v) == LastDrained(route, steps, batchSize, k)
      && (Flushing(route, steps, batchSize) ==> LastValue(v) == LatestValue(steps, k))
  {
    AlwaysTracked(route, steps, batchSize, k);
    EntryMeaning(route, steps, batchSize, k);
    AlwaysGated(route, steps, batchSize, k);
  }

  lemma LoadedItems(c: Client, s: Step, k: string)
    ensures VitalsOf(AllItems(Loaded(c, s)), k) == VitalsOf(AllItems(c), k)
  {
    if s.DoPush? {
      ConcatAssoc(Contents(c.flushed), c.buffer, [Pushed(s.event)]);
      Snoc(AllItems(c), Pushed(s.event));
    } else if s.DoRoute? {
      ConcatAssoc(Contents(c.flushed), c.buffer, [Pushed(RouteView(s.route, s.durationMs))]);
      Snoc(AllItems(c), Pushed(RouteView(s.route, s.durationMs)));
    }
  }

  lemma StepItems(c: Client, s: Step, batchSize: int, k: string)
    requires DistinctKeys(c.latest)
    ensures VitalsOf(AllItems(Apply(c, s, batchSize, true)), k)
      == VitalsOf(AllItems(c), k) + if FlushGate(c, s, batchSize).Some? then Taken(c.latest, k) else []
  {
    var d := Loaded(c, s);
    StepIsFlush(c, s, batchSize);
    LoadedItems(c, s, k);
    assert VitalsOf(AllItems(c), k) + [] == VitalsOf(AllItems(c), k);
    if FlushGate(c, s, batchSize).Some? {
      FlushItems(d, FlushGate(c, s, batchSize).value);
      VitalsConcat(AllItems(d), Drained(d.latest), k);
      DrainedVital(d.latest, k);
    } else if s.DoVital? {
      assert AllItems(Apply(c, s, batchSize, true)) == AllItems(c);
    }
  }

  /** A step adds an item for the metric exactly when it drains it, and then one item, the latest value. */
  lemma DrainAddsOne(route: string, steps: seq<Step>, batchSize: int, k: string)
    requires steps != []
    ensures var init := steps[..|steps| - 1];
      var v, w := VitalsOf(AllItems(Run(route, init, batchSize, true)), k), VitalsOf(AllItems(Run(route, steps, batchSize, true)), k);
      if Drains(route, steps, batchSize, k) then |w| == |v| + 1 && v <= w && LastValue(w) == LatestValue(steps, k) else w == v
  {
    var n := |steps| - 1;
    var c := Run(route, steps[..n], batchSize, true);
    AlwaysGated(route, steps[..n], batchSize, k);
    StepItems(c, steps[n], batchSize, k);
    TakenIff(c.latest, k, LatestValue(steps[..n], k), LastDrained(route, steps[..n], batchSize, k));
    if Drains(route, steps, batchSize, k) {
      LastOfMore(VitalsOf(AllItems(c), k), Taken(c.latest, k));
    }
  }

  /** The callbacks among the steps carry no other value of the metric. */
  ghost predicate KeepsValue(more: seq<Step>, k: string, value: Option<real>) {
    forall i :: 0 <= i < |more| && more[i].DoVital? && more[i].key == k ==> value == Some(more[i].value)
  }

  /** From `steps` to `later` nothing has happened to the metric. */
  ghost predicate Quiet(route: string, steps: seq<Step>, later: seq<Step>, batchSize: int, k: string) {
    && LatestValue(later, k) == LatestValue(steps, k) == LastDrained(route, later, batchSize, k)
    && DrainGate(route, later, batchSize, k) == DrainGate(route, steps, batchSize, k)
    && VitalsOf(AllItems(Run(route, later, batchSize, true)), k) == VitalsOf(AllItems(Run(route, steps, batchSize, true)), k)
  }

  lemma QuietStep(route: string, steps: seq<Step>, later: seq<Step>, s: Step, batchSize: int, k: string)
    requires Quiet(route, steps, later, batchSize, k)
    requires s.DoVital? && s.key == k ==> LatestValue(steps, k) == Some(s.value)
    ensures Quiet(route, steps, later + [s], batchSize, k)
  {
    Snoc(later, s);
    DrainAddsOne(route, later + [s], batchSize, k);
  }

  lemma {:induction false} StaysQuiet(route: string, steps: seq<Step>, more: seq<Step>, batchSize: int, k: string)
    requires Quiet(route, steps, steps, batchSize, k) && KeepsValue(more, k, LatestValue(steps, k))
    ensures Quiet(route, steps, steps + more, batchSize, k)
    decreases |more|
  {
    if more == [] {
      assert steps + more == steps;
    } else {
      var n := |more| - 1;
      StaysQuiet(route, steps, more[..n], batchSize, k);
      QuietStep(route, steps, steps + more[..n], more[n], batchSize, k);
      assert steps + more == (steps + more[..n]) + [more[n]];
    }
  }

  /**
   * Once drained, whether at an open or a closed gate, a value is not drained again until a callback
   * carries another one: whatever flushes follow, no item is added and the gate's verdict on it stands.
   */
  lemma NotDrainedAgain(route: string, steps: seq<Step>, more: seq<Step>, batchSize: int, k: string)
    requires LastDrained(route, steps, batchSize, k) == LatestValue(steps, k)
    requires KeepsValue(more, k, LatestValue(steps, k))
    ensures LatestValue(steps + more, k) == LatestValue(steps, k) == LastDrained(route, steps + more, batchSize, k)
    ensures DrainGate(route, steps + more, batchSize, k) == DrainGate(route, steps, batchSize, k)
    ensures VitalsOf(AllItems(Run(route, steps + more, batchSize, true)), k) == VitalsOf(AllItems(Run(route, steps, batchSize, true)), k)
  {
    StaysQuiet(route, steps, more, batchSize, k);
  }

  /** With the gate closed at the second of three drains and at the third, the third value can still be the last one sent. */
  lemma ReturnedValueWasSent(route: string, v: real, w: real, batchSize: int, k: string)
    requires v != w
    ensures var steps := [DoVital(k, v), DoFlush(true), DoVital(k, w), DoFlush(false), DoVital(k, v), DoFlush(false)];
      && Flushing(route, steps, batchSize)
      && DrainGate(route, steps, batchSize, k) == Some(false)
      && LastValue(VitalsOf(DeliveredItems(Run(route, steps, batchSize, true).flushed), k)) == LatestValue(steps, k)
  {
    var s1 := [DoVital(k, v)];
    var s2 := s1 + [DoFlush(true)];
    var s3 := s2 + [DoVital(k, w)];
    var s4 := s3 + [DoFlush(false)];
    var s5 := s4 + [DoVital(k, v)];
    var s6 := s5 + [DoFlush(false)];
    assert s6 == [DoVital(k, v), DoFlush(true), DoVital(k, w), DoFlush(false), DoVital(k, v), DoFlush(false)];
    VitalStep(route, [], batchSize, k, v);
    assert [] + [DoVital(k, v)] == s1;
    FlushStep(route, s1, batchSize, k, true);
    VitalStep(route, s2, batchSize, k, w);
    FlushStep(route, s3, batchSize, k, false);
    VitalStep(route, s4, batchSize, k, v);
    FlushStep(route, s5, batchSize, k, false);
    LastSentIsLatestIff(route, s6, batchSize, k);
  }

  lemma VitalStep(route: string, steps: seq<Step>, batchSize: int, k: string, v: real)
    ensures var t := steps + [DoVital(k, v)];
      && LatestValue(t, k) == Some(v)
      && LastDrained(route, t, batchSize, k) == LastDrained(route, steps, batchSize, k)
      && DrainGate(route, t, batchSize, k) == DrainGate(route, steps, batchSize, k)
      && OpenValue(route, t, batchSize, k) == OpenValue(route, steps, batchSize, k)
  {
    Snoc(steps, DoVital(k, v));
  }

  lemma FlushStep(route: string, steps: seq<Step>, batchSize: int, k: string, allow: bool)
    ensures var t := steps + [DoFlush(allow)];
      var changed := LatestValue(steps, k) != LastDrained(route, steps, batchSize, k);
      && Flushing(route, t, batchSize)
      && LatestValue(t, k) == LatestValue(steps, k) == LastDrained(route, t, batchSize, k)
      && DrainGate(route, t, batchSize, k) == (if changed then Some(allow) else DrainGate(route, steps, batchSize, k))
      && OpenValue(route, t, batchSize, k) == (if changed && allow then LatestValue(steps, k) else OpenValue(route, steps, batchSize, k))
  {
    Snoc(steps, DoFlush(allow));
  }

  /** An input on which a value is lost: drained at a closed gate, it is not sent by a later flush either. */
  lemma ClosedGateLosesValue(route: string, value: real, batchSize: int, k: string)
    ensures var steps := [DoVital(k, value), DoFlush(false), DoFlush(true)];
      && Flushing(route, steps, batchSize) && LatestValue(steps, k) == Some(value)
      && VitalsOf(DeliveredItems(Run(route, steps, batchSize, true).flushed), k) == []
  {
    var s1 := [DoVital(k, value)];
    var s2 := s1 + [DoFlush(false)];
    var s3 := s2 + [DoFlush(true)];
    assert s3 == [DoVital(k, value), DoFlush(false), DoFlush(true)];
    VitalStep(route, [], batchSize, k, value);
    assert [] + [DoVital(k, value)] == s1;
    FlushStep(route, s1, batchSize, k, false);
    FlushStep(route, s2, batchSize, k, true);
    AlwaysGated(route, s3, batchSize, k);
    DeliveredAreVitals(Run(route, s3, batchSize, true).flushed, k);
  }

  /** An item of the metric carries a value, so no last value means no items. */
  lemma {:induction false} VitalsAreVitals(items: seq<Item>, k: string)
    ensures forall i :: 0 <= i < |VitalsOf(items, k)| ==> VitalsOf(items, k)[i].Vital?
  {
    if items != [] {
      VitalsAreVitals(items[..|items| - 1], k);
    }
  }

  lemma DeliveredAreVitals(batches: seq<Batch>, k: string)
    ensures LastValue(VitalsOf(DeliveredItems(batches), k)).None? ==> VitalsOf(DeliveredItems(batches), k) == []
  {
    VitalsAreVitals(DeliveredItems(batches), k);
  }
}
