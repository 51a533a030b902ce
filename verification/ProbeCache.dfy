/** The hub's negative cache of unreachable probes, over overlapping asynchronous calls. */
module ProbeCache {
  import opened Collections

  type Base = string

  const NEGATIVE_CACHE_MS := 20000

  /**
   * How a fetch ends. HttpError is an error status whose body is JSON; whatever else goes wrong is a
   * Failure, an error page that is not JSON included, because the body is read before the status.
   */
  datatype Outcome = Success | HttpError | Failure

  /** A call is two steps, with any steps of other calls between them. */
  datatype Event =
    | Start(base: Base, now: int)
    | Finish(base: Base, outcome: Outcome, now: int)

  type Cache = map<Base, int>

  /** A stored time of zero reads as absent. */
  predicate Blocked(u: Cache, base: Base, now: int) {
    base in u && u[base] != 0 && u[base] > now
  }

  function AfterFinish(u: Cache, base: Base, outcome: Outcome, now: int): Cache {
    match outcome
    case Success => u - {base}
    case HttpError => u
    case Failure => u[base := now + NEGATIVE_CACHE_MS]
  }

  function AfterEvent(u: Cache, e: Event): Cache {
    if e.Finish? then AfterFinish(u, e.base, e.outcome, e.now) else u
  }

  function After(events: seq<Event>): Cache {
    if events == [] then map[] else AfterEvent(After(events[..|events| - 1]), events[|events| - 1])
  }

  class ProbeClient {
    var unreachableUntil: Cache

    constructor ()
      ensures unreachableUntil == map[]
    {
      unreachableUntil := map[];
    }

    /** Up to the fetch: fails fast while the base is believed unreachable. */
    method Begin(base: Base, now: int) returns (fetches: bool)
      ensures fetches <==> !Blocked(unreachableUntil, base, now)
    {
      if base in unreachableUntil {
        var until := unreachableUntil[base];
        if until != 0 && until > now {
          return false;
        }
      }
      fetches := true;
    }

    /** From the fetch on. */
    method Complete(base: Base, outcome: Outcome, now: int)
      modifies this
      ensures unreachableUntil == AfterFinish(old(unreachableUntil), base, outcome, now)
    {
      match outcome
      case Success => unreachableUntil := unreachableUntil - {base};
      case HttpError =>
      case Failure => unreachableUntil := unreachableUntil[base := now + NEGATIVE_CACHE_MS];
    }
  }

  // ----- Runs -----

  /** A clock that starts at or after zero and never runs backwards. */
  ghost predicate Timely(events: seq<Event>) {
    && (forall i :: 0 <= i < |events| ==> events[i].now >= 0)
    && (forall i, j :: 0 <= i < j < |events| ==> events[i].now <= events[j].now)
  }

  predicate FailsAt(e: Event, base: Base) {
    e.Finish? && e.base == base && e.outcome == Failure
  }

  predicate SucceedsAt(e: Event, base: Base) {
    e.Finish? && e.base == base && e.outcome == Success
  }

  /** Event i is a failure of the base with no success of it afterwards. */
  ghost predicate StandingFailure(events: seq<Event>, i: int, base: Base) {
    && 0 <= i < |events|
    && FailsAt(events[i], base)
    && forall j :: i < j < |events| ==> !SucceedsAt(events[j], base)
  }

  /** The cache remembers exactly the standing failures, by the latest of them. */
  lemma {:induction false} CacheMeaning(events: seq<Event>, base: Base)
    requires Timely(events)
    ensures base in After(events) <==> exists i :: StandingFailure(events, i, base)
    ensures base in After(events) ==> exists i :: StandingFailure(events, i, base) && After(events)[base] == events[i].now + 20000
    ensures forall i :: StandingFailure(events, i, base) ==> base in After(events) && events[i].now + 20000 <= After(events)[base]
  {
    if events != [] {
      var n := |events| - 1;
      var init, e := events[..n], events[n];
      CacheMeaning(init, base);
      if FailsAt(e, base) {
        assert StandingFailure(events, n, base);
      } else if !SucceedsAt(e, base) {
        forall i ensures StandingFailure(events, i, base) <==> StandingFailure(init, i, base) {
          StandingStep(events, i, base);
        }
      }
    }
  }

  lemma StandingStep(events: seq<Event>, i: int, base: Base)
    requires events != []
    requires !FailsAt(events[|events| - 1], base) && !SucceedsAt(events[|events| - 1], base)
    ensures StandingFailure(events, i, base) <==> StandingFailure(events[..|events| - 1], i, base)
  {
    var n := |events| - 1;
    var init := events[..n];
    if StandingFailure(init, i, base) {
      assert forall j :: i < j < n ==> events[j] == init[j];
    }
    if StandingFailure(events, i, base) {
      assert forall j :: i < j < n ==> init[j] == events[j];
    }
  }

  /**
   * A start is refused exactly when some failure of the same base finished less than
   * 20 seconds ago and no success of that base has finished since.
   */
  lemma {:induction false} BlockedIff(events: seq<Event>, base: Base, now: int)
    requires Timely(events)
    ensures Blocked(After(events), base, now) <==>
      exists i :: StandingFailure(events, i, base) && now < events[i].now + 20000
  {
    CacheMeaning(events, base);
    if i :| StandingFailure(events, i, base) && now < events[i].now + 20000 {
      assert events[i].now >= 0;
    }
  }

  /** No fetch starts within the back-off of a failure of its base unless a success came in between. */
  lemma NoFetchDuringBackOff(events: seq<Event>, i: nat, j: nat, base: Base)
    requires Timely(events) && i < j < |events|
    requires FailsAt(events[i], base)
    requires events[j].Start? && events[j].base == base
    requires !Blocked(After(events[..j]), base, events[j].now)
    ensures events[j].now >= events[i].now + 20000 || exists k :: i < k < j && SucceedsAt(events[k], base)
  {
    var before := events[..j];
    assert Timely(before);
    BlockedIff(before, base, events[j].now);
    if !exists k :: i < k < j && SucceedsAt(events[k], base) {
      assert StandingFailure(before, i, base);
    }
  }

  /** The events of one base. */
  function Only(events: seq<Event>, base: Base): seq<Event> {
    if events == [] then []
    else
      var e := events[|events| - 1];
      var before := Only(events[..|events| - 1], base);
      if e.base == base then before + [e] else before
  }

  /** Failures at other bases never block this one: only its own events decide. */
  lemma {:induction false} BasesIndependent(events: seq<Event>, base: Base, now: int)
    ensures Blocked(After(events), base, now) <==> Blocked(After(Only(events, base)), base, now)
    ensures (base in After(events) <==> base in After(Only(events, base)))
      && (base in After(events) ==> After(events)[base] == After(Only(events, base))[base])
  {
    if events != [] {
      var n := |events| - 1;
      BasesIndependent(events[..n], base, now);
      if events[n].base == base {
        Snoc(Only(events[..n], base), events[n]);
      }
    }
  }
}
