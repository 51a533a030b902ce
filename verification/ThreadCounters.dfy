/** The pool, state and lock counters of the thread-dump summary, and the findings drawn from them. */
module ThreadCounters {
  import opened Collections
  import opened Grouping
  import opened Numerals
  import opened Text
  import opened ThreadDump

  // ----- Pool names -----

  function DropDigits(s: string): string {
    if s != "" && IsDigit(s[|s| - 1]) then DropDigits(s[..|s| - 1]) else s
  }

  predicate IsNumberSeparator(c: char) { c == '-' || c == '_' || c == ' ' }

  /** Removes a number at the end, and one separator before it. */
  function DropNumber(s: string): string {
    var t := DropDigits(s);
    if |t| < |s| && t != "" && IsNumberSeparator(t[|t| - 1]) then t[..|t| - 1] else t
  }

  /** Removes everything from the first bracket whose line is the last one. */
  function DropBracket(s: string): string {
    if s == "" then ""
    else if s[0] == '[' && OneLine(s) then ""
    else [s[0]] + DropBracket(s[1..])
  }

  predicate OneLine(s: string) {
    forall i :: 0 <= i < |s| ==> !IsLineEnd(s[i])
  }

  function PoolName(name: string): string {
    DropBracket(DropNumber(name))
  }

  lemma {:induction false} DropDigitsOnly(base: string, digits: string)
    requires base == "" || !IsDigit(base[|base| - 1])
    requires forall i :: 0 <= i < |digits| ==> IsDigit(digits[i])
    ensures DropDigits(base + digits) == base
  {
    if digits == "" {
      assert base + digits == base;
    } else {
      var n := |digits| - 1;
      assert (base + digits)[..|base| + n] == base + digits[..n];
      DropDigitsOnly(base, digits[..n]);
    }
  }

  /** Workers that differ only in their number share a pool. */
  lemma NumberedWorkersShare(base: string, separator: char, m: nat, n: nat)
    requires separator == '-' || separator == '_' || separator == ' '
    ensures PoolName(base + [separator] + Decimal(m)) == PoolName(base + [separator] + Decimal(n)) == DropBracket(base)
  {
    WorkerPool(base, separator, m);
    WorkerPool(base, separator, n);
  }

  /** Exactly what is dropped at the end of a name: a number, and one dash, underscore or space before it. */
  lemma NumberDropped(base: string, digits: string)
    requires base == "" || !('0' <= base[|base| - 1] <= '9')
    requires forall i :: 0 <= i < |digits| ==> '0' <= digits[i] <= '9'
    ensures DropNumber(base + digits) ==
      if digits != "" && base != "" && base[|base| - 1] in "-_ " then base[..|base| - 1] else base
  {
    DropDigitsOnly(base, digits);
    assert forall c :: c in "-_ " <==> c == '-' || c == '_' || c == ' ';
  }

  /** A bracket after which the line never ends. */
  predicate OpensAt(s: string, k: nat) {
    k < |s| && s[k] == '[' && forall i :: k <= i < |s| ==> s[i] !in "\n\r\U{2028}\U{2029}"
  }

  lemma LineEnds(s: string)
    ensures OneLine(s) <==> forall i :: 0 <= i < |s| ==> s[i] !in "\n\r\U{2028}\U{2029}"
  {
    assert forall c :: c in "\n\r\U{2028}\U{2029}" <==> IsLineEnd(c);
  }

  lemma OpensLater(s: string, k: nat)
    requires s != ""
    ensures OpensAt(s[1..], k) <==> OpensAt(s, k + 1)
  {
    var t := s[1..];
    assert forall i :: k <= i < |t| ==> t[i] == s[i + 1];
    if OpensAt(t, k) {
      forall i | k + 1 <= i < |s| ensures s[i] !in "\n\r\U{2028}\U{2029}" {
        assert s[i] == t[i - 1];
      }
    }
  }

  /** Exactly what is dropped after it: everything from the first such bracket on. */
  lemma {:induction false} BracketDropped(s: string)
    ensures DropBracket(s) <= s
    ensures forall k :: 0 <= k < |DropBracket(s)| ==> !OpensAt(s, k)
    ensures DropBracket(s) == s || OpensAt(s, |DropBracket(s)|)
  {
    if s != "" {
      LineEnds(s);
      var t := s[1..];
      BracketDropped(t);
      assert s == [s[0]] + t;
      forall k: nat ensures OpensAt(t, k) <==> OpensAt(s, k + 1) {
        OpensLater(s, k);
      }
      if !(s[0] == '[' && OneLine(s)) {
        forall k | 0 <= k < |DropBracket(s)| ensures !OpensAt(s, k) {
          if k > 0 {
            assert OpensAt(t, k - 1) <==> OpensAt(s, k);
          }
        }
      }
    }
  }

  lemma WorkerPool(base: string, separator: char, n: nat)
    requires IsNumberSeparator(separator)
    ensures PoolName(base + [separator] + Decimal(n)) == DropBracket(base)
  {
    var stem := base + [separator];
    DecimalRoundTrip(n);
    DropDigitsOnly(stem, Decimal(n));
    assert stem[..|base|] == base;
  }

  // ----- Counters -----

  datatype Pool = Pool(total: nat, busy: nat)

  datatype Contention = Contention(count: nat, owner: Option<Name>)

  predicate IsBusy(t: Thread) { t.state.RUNNABLE? || t.state.BLOCKED? }

  function StateKey(t: Thread): Option<ThreadState> { Some(t.state) }

  function PoolKey(t: Thread): Option<string> { Some(PoolName(t.name)) }

  function LockKey(t: Thread): Option<string> {
    if t.state.BLOCKED? && t.lockName.Some? && t.lockName.value != "" then t.lockName else None
  }

  function AddToPool(p: Pool, t: Thread): Pool { Pool(p.total + 1, if IsBusy(t) then p.busy + 1 else p.busy) }

  /** The owner shown for a lock is the one named by the first thread blocked on it. */
  function AddBlocked(c: Option<Contention>, t: Thread): Option<Contention> {
    Some(if c.None? then Contention(1, t.lockOwner) else Contention(c.value.count + 1, c.value.owner))
  }

  datatype Counters = Counters(
    total: nat,
    byState: Table<ThreadState, nat>,
    pools: Table<string, Pool>,
    blockedOn: Table<string, Option<Contention>>
  )

  const NO_POOL := Pool(0, 0)

  function Count(threads: seq<Thread>): Counters {
    Counters(|threads|, GroupBy(threads, StateKey, 0, AddCount), GroupBy(threads, PoolKey, NO_POOL, AddToPool),
      GroupBy(threads, LockKey, None, AddBlocked))
  }

  method CountThreads(threads: seq<Thread>) returns (c: Counters)
    ensures c == Count(threads)
  {
    var byState, pools := Empty<ThreadState, nat>(), Empty<string, Pool>();
    var blockedOn := Empty<string, Option<Contention>>();
    for i := 0 to |threads|
      invariant Counters(i, byState, pools, blockedOn) == Count(threads[..i])
    {
      GroupByTake(threads, i, StateKey, 0, AddCount);
      GroupByTake(threads, i, PoolKey, NO_POOL, AddToPool);
      GroupByTake(threads, i, LockKey, None, AddBlocked);
      byState := Add(byState, threads[i], StateKey, 0, AddCount);
      pools := Add(pools, threads[i], PoolKey, NO_POOL, AddToPool);
      blockedOn := Add(blockedOn, threads[i], LockKey, None, AddBlocked);
    }
    assert threads[..|threads|] == threads;
    c := Counters(|threads|, byState, pools, blockedOn);
  }

  // ----- What they say -----

  function CountBusy(threads: seq<Thread>): nat {
    if threads == [] then 0
    else
      var before := CountBusy(threads[..|threads| - 1]);
      if IsBusy(threads[|threads| - 1]) then before + 1 else before
  }

  lemma {:induction false} PoolFold(g: seq<Thread>)
    ensures Fold(AddToPool, NO_POOL, g) == Pool(|g|, CountBusy(g)) && CountBusy(g) <= |g|
  {
    if g != [] {
      PoolFold(g[..|g| - 1]);
    }
  }

  lemma {:induction false} LockFold(g: seq<Thread>)
    ensures Fold(AddBlocked, None, g) == if g == [] then None else Some(Contention(|g|, g[0].lockOwner))
  {
    if g != [] {
      LockFold(g[..|g| - 1]);
    }
  }

  predicate InPool(t: Thread, pool: string) { DropBracket(DropNumber(t.name)) == pool }

  predicate BlockedOn(t: Thread, lock: string) { t.state == BLOCKED && t.lockName == Some(lock) && lock != "" }

  /** A pool's threads, and how many of them run or are blocked. */
  ghost predicate PoolMeaning(threads: seq<Thread>, pool: string, p: Pool) {
    var g := Filter(threads, (t: Thread) => InPool(t, pool));
    p.total == |g| && p.busy == |Filter(g, (t: Thread) => t.state == RUNNABLE || t.state == BLOCKED)|
  }

  /** The threads blocked on a lock, and the owner that the first of them names. */
  ghost predicate LockMeaning(threads: seq<Thread>, lock: string, c: Option<Contention>) {
    var g := Filter(threads, (t: Thread) => BlockedOn(t, lock));
    c == if g == [] then None else Some(Contention(|g|, g[0].lockOwner))
  }

  lemma {:induction false} BusyFilter(g: seq<Thread>)
    ensures CountBusy(g) == |Filter(g, (t: Thread) => t.state == RUNNABLE || t.state == BLOCKED)|
  {
    if g != [] {
      BusyFilter(g[..|g| - 1]);
    }
  }

  /** Each counter is an independent count over the threads of that state, pool or lock. */
  lemma CountersMeaning(threads: seq<Thread>, state: ThreadState, pool: string, lock: string)
    ensures var c := Count(threads);
      && c.byState.Get(state, 0) == |Filter(threads, (t: Thread) => t.state == state)|
      && PoolMeaning(threads, pool, c.pools.Get(pool, Pool(0, 0)))
      && LockMeaning(threads, lock, c.blockedOn.Get(lock, None))
  {
    GroupByMeaning(threads, StateKey, 0, AddCount, state);
    CountFold(Of(threads, StateKey, state));
    OfIsFilter(threads, StateKey, state, (t: Thread) => t.state == state);
    PoolCounter(threads, pool);
    LockCounter(threads, lock);
  }

  lemma PoolCounter(threads: seq<Thread>, pool: string)
    ensures PoolMeaning(threads, pool, Count(threads).pools.Get(pool, NO_POOL))
  {
    GroupByMeaning(threads, PoolKey, NO_POOL, AddToPool, pool);
    PoolFold(Of(threads, PoolKey, pool));
    OfIsFilter(threads, PoolKey, pool, (t: Thread) => InPool(t, pool));
    BusyFilter(Of(threads, PoolKey, pool));
  }

  lemma LockCounter(threads: seq<Thread>, lock: string)
    ensures LockMeaning(threads, lock, Count(threads).blockedOn.Get(lock, None))
  {
    GroupByMeaning(threads, LockKey, None, AddBlocked, lock);
    LockFold(Of(threads, LockKey, lock));
    OfIsFilter(threads, LockKey, lock, (t: Thread) => BlockedOn(t, lock));
  }

  function PoolTotal(p: Pool): int { p.total }
  function PoolBusy(p: Pool): int { p.busy }
  function BusyUnit(t: Thread): int { if IsBusy(t) then 1 else 0 }

  lemma {:induction false} Units(threads: seq<Thread>)
    ensures CountKeyed(threads, StateKey) == CountKeyed(threads, PoolKey) == |threads|
    ensures Sum(threads, Keyed(PoolKey, BusyUnit)) == CountBusy(threads)
    ensures CountBusy(threads) == |Of(threads, StateKey, RUNNABLE)| + |Of(threads, StateKey, BLOCKED)|
  {
    if threads != [] {
      var n := |threads| - 1;
      Units(threads[..n]);
      assert PoolKey(threads[n]).Some?;
    }
  }

  lemma StateCounter(threads: seq<Thread>, state: ThreadState)
    ensures Count(threads).byState.Get(state, 0) == |Of(threads, StateKey, state)|
  {
    GroupByMeaning(threads, StateKey, 0, AddCount, state);
    CountFold(Of(threads, StateKey, state));
  }

  /** States and pools each account for every thread, and the pools' busy threads are the runnable and blocked ones. */
  lemma CountersTotal(threads: seq<Thread>)
    ensures var c := Count(threads);
      && MapSum(c.byState.rows, Whole) == c.total == MapSum(c.pools.rows, PoolTotal)
      && MapSum(c.pools.rows, PoolBusy) == c.byState.Get(RUNNABLE, 0) + c.byState.Get(BLOCKED, 0)
  {
    GroupTotal(threads, StateKey, 0, AddCount, Whole, One);
    GroupTotal(threads, PoolKey, NO_POOL, AddToPool, PoolTotal, One);
    GroupTotal(threads, PoolKey, NO_POOL, AddToPool, PoolBusy, BusyUnit);
    KeyedOnes(threads, StateKey);
    KeyedOnes(threads, PoolKey);
    Units(threads);
    StateCounter(threads, RUNNABLE);
    StateCounter(threads, BLOCKED);
  }
}
