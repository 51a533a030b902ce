/** The bounded window of timed samples behind every RUM metric. */
module RollingWindow {
  import opened Collections
  import opened Percentiles

  const MAX_SAMPLES_PER_KEY := 2000

  datatype Sample = Sample(t: int, v: real)

  type Window = seq<Sample>

  function Last<T>(s: seq<T>, n: nat): seq<T> {
    if |s| <= n then s else s[|s| - n..]
  }

  /** The last n elements, in their order, or all of them if there are no more. */
  lemma LastExact<T>(s: seq<T>, n: nat)
    ensures var d := |s| - |Last(s, n)|;
      d >= 0 && Last(s, n) == s[d..] && (|Last(s, n)| == n || (d == 0 && |s| <= n))
  {
  }

  function KeepFrom(s: seq<Sample>, cutoff: int): seq<Sample> {
    if s == [] then []
    else KeepFrom(s[..|s| - 1], cutoff) + if s[|s| - 1].t >= cutoff then [s[|s| - 1]] else []
  }

  function PushTo(w: Window, v: real, t: int): Window {
    Last(w + [Sample(t, v)], MAX_SAMPLES_PER_KEY)
  }

  function Values(w: Window): seq<real> {
    seq(|w|, i requires 0 <= i < |w| => w[i].v)
  }

  class RollingSamples {
    var samples: Window

    constructor ()
      ensures samples == []
    {
      samples := [];
    }

    method Push(v: real, t: int)
      modifies this
      ensures samples == PushTo(old(samples), v, t)
    {
      samples := samples + [Sample(t, v)];
      if |samples| > MAX_SAMPLES_PER_KEY {
        samples := samples[|samples| - MAX_SAMPLES_PER_KEY..];
      }
    }

    method Prune(cutoff: int)
      modifies this
      ensures samples == KeepFrom(old(samples), cutoff)
    {
      var kept: seq<Sample> := [];
      for i := 0 to |samples|
        invariant samples == old(samples)
        invariant kept == KeepFrom(samples[..i], cutoff)
      {
        assert samples[..i + 1][..i] == samples[..i];
        if samples[i].t >= cutoff {
          kept := kept + [samples[i]];
        }
      }
      assert samples[..|samples|] == samples;
      samples := kept;
    }

    method Percentiles() returns (r: Summary)
      ensures r == Summarize(Values(samples)) && r.count == |samples| && Ordered(r)
      ensures samples != [] ==>
        && IsFigure(Values(samples), 50, r.p50) && IsFigure(Values(samples), 75, r.p75) && IsFigure(Values(samples), 95, r.p95)
    {
      r := Summarize(Values(samples));
      SummaryOrdered(Values(samples));
      if samples != [] {
        SummaryFigures(Values(samples));
      }
    }
  }

  // ----- Runs -----

  datatype WindowOp = Push(v: real, t: int) | Prune(cutoff: int)

  function Apply(w: Window, op: WindowOp): Window {
    match op
    case Push(v, t) => PushTo(w, v, t)
    case Prune(cutoff) => KeepFrom(w, cutoff)
  }

  function Run(ops: seq<WindowOp>): Window {
    if ops == [] then [] else Apply(Run(ops[..|ops| - 1]), ops[|ops| - 1])
  }

  /** Every sample ever pushed. */
  function Pushed(ops: seq<WindowOp>): seq<Sample> {
    if ops == [] then []
    else
      var op := ops[|ops| - 1];
      Pushed(ops[..|ops| - 1]) + if op.Push? then [Sample(op.t, op.v)] else []
  }

  /** The largest cutoff so far, if there was a prune at all. */
  function LargestCutoff(ops: seq<WindowOp>): Option<int> {
    if ops == [] then None
    else
      var op := ops[|ops| - 1];
      var m := LargestCutoff(ops[..|ops| - 1]);
      if op.Prune? && (m.None? || op.cutoff > m.value) then Some(op.cutoff) else m
  }

  function Retained(s: seq<Sample>, cutoff: Option<int>): seq<Sample> {
    if cutoff.None? then s else KeepFrom(s, cutoff.value)
  }

  /** The time an operation carries: that of the sample, or the cutoff. */
  function Stamp(op: WindowOp): int {
    match op
    case Push(_, t) => t
    case Prune(cutoff) => cutoff
  }

  /** A nondecreasing clock: a push is stamped no earlier than any push or cutoff before it. */
  ghost predicate WellTimed(ops: seq<WindowOp>) {
    forall i, j :: 0 <= i < j < |ops| && ops[j].Push? ==> Stamp(ops[i]) <= Stamp(ops[j])
  }

  ghost predicate Chronological(s: seq<Sample>) {
    forall i, j :: 0 <= i < j < |s| ==> s[i].t <= s[j].t
  }

  lemma {:induction false} PushedFacts(ops: seq<WindowOp>)
    requires WellTimed(ops)
    ensures Chronological(Pushed(ops))
    ensures forall s :: s in Pushed(ops) ==> exists i :: 0 <= i < |ops| && ops[i].Push? && ops[i].t == s.t
  {
    if ops != [] {
      var n := |ops| - 1;
      var init := ops[..n];
      PushedFacts(init);
      forall s | s in Pushed(ops)
        ensures exists i :: 0 <= i < |ops| && ops[i].Push? && ops[i].t == s.t
      {
        if s in Pushed(init) {
          var i :| 0 <= i < |init| && init[i].Push? && init[i].t == s.t;
          assert ops[i].Push?;
        } else {
          assert ops[n].Push?;
        }
      }
      if ops[n].Push? {
        forall s | s in Pushed(init) ensures s.t <= ops[n].t {
          var i :| 0 <= i < |init| && init[i].Push? && init[i].t == s.t;
          assert ops[i] == init[i];
        }
      }
    }
  }

  lemma {:induction false} LargestCutoffReached(ops: seq<WindowOp>)
    ensures LargestCutoff(ops).Some? ==> exists i :: 0 <= i < |ops| && ops[i] == Prune(LargestCutoff(ops).value)
  {
    if ops != [] {
      var n := |ops| - 1;
      LargestCutoffReached(ops[..n]);
      assert ops == ops[..n] + [ops[n]];
      assert ops[n].Prune? ==> ops[n] == Prune(ops[n].cutoff);
      if LargestCutoff(ops[..n]).Some? {
        var i :| 0 <= i < n && ops[..n][i] == Prune(LargestCutoff(ops[..n]).value);
        assert ops[i] == ops[..n][i];
      }
    }
  }

  /** k is where the samples of at least the cutoff begin. */
  ghost predicate SplitsAt(s: seq<Sample>, cutoff: int, k: nat) {
    && k <= |s|
    && (forall i :: 0 <= i < k ==> s[i].t < cutoff)
    && (forall i :: k <= i < |s| ==> s[i].t >= cutoff)
  }

  lemma {:induction false} KeepFromSuffix(s: seq<Sample>, cutoff: int, k: nat)
    requires SplitsAt(s, cutoff, k)
    ensures KeepFrom(s, cutoff) == s[k..]
  {
    if s != [] {
      var n := |s| - 1;
      if k <= n {
        KeepFromSuffix(s[..n], cutoff, k);
        assert s[k..] == s[..n][k..] + [s[n]];
      } else {
        KeepFromSuffix(s[..n], cutoff, n);
      }
    }
  }

  /** On a chronological sequence a cutoff drops a prefix and nothing else. */
  lemma {:induction false} KeepFromIsSuffix(s: seq<Sample>, cutoff: int) returns (k: nat)
    requires Chronological(s)
    ensures SplitsAt(s, cutoff, k) && KeepFrom(s, cutoff) == s[k..]
  {
    k := |s|;
    while k > 0 && s[k - 1].t >= cutoff
      invariant 0 <= k <= |s|
      invariant forall i :: k <= i < |s| ==> s[i].t >= cutoff
    {
      k := k - 1;
    }
    KeepFromSuffix(s, cutoff, k);
  }

  lemma SplitsAtDrop(s: seq<Sample>, cutoff: int, k: nat, d: nat)
    requires SplitsAt(s, cutoff, k) && d <= |s|
    ensures SplitsAt(s[d..], cutoff, if k <= d then 0 else k - d)
  {
  }

  lemma DropDrop<T>(s: seq<T>, i: nat, j: nat)
    requires i <= j <= |s|
    ensures s[i..][j - i..] == s[j..]
  {
  }

  lemma LastOfDrop<T>(s: seq<T>, k: nat, n: nat)
    requires k <= |s|
    ensures Last(s[k..], n) == s[if |s| - n <= k then k else |s| - n..]
  {
    if |s| - n > k {
      DropDrop(s, k, |s| - n);
    }
  }

  lemma KeepFromDrop(s: seq<Sample>, cutoff: int, k: nat, d: nat)
    requires SplitsAt(s, cutoff, k) && d <= |s|
    ensures KeepFrom(s[d..], cutoff) == s[if k <= d then d else k..]
  {
    SplitsAtDrop(s, cutoff, k, d);
    KeepFromSuffix(s[d..], cutoff, if k <= d then 0 else k - d);
    if k > d {
      DropDrop(s, d, k);
    }
  }

  lemma KeepFromLast(s: seq<Sample>, cutoff: int, n: nat)
    requires Chronological(s)
    ensures KeepFrom(Last(s, n), cutoff) == Last(KeepFrom(s, cutoff), n)
  {
    var k := KeepFromIsSuffix(s, cutoff);
    LastOfDrop(s, k, n);
    var d := if |s| <= n then 0 else |s| - n;
    assert Last(s, n) == s[d..];
    KeepFromDrop(s, cutoff, k, d);
  }

  lemma {:induction false} KeepFromTwice(s: seq<Sample>, c: int, d: int)
    ensures KeepFrom(KeepFrom(s, c), d) == KeepFrom(s, if c >= d then c else d)
  {
    if s != [] {
      var n := |s| - 1;
      KeepFromTwice(s[..n], c, d);
      var r := KeepFrom(s[..n], c);
      if s[n].t >= c {
        assert (r + [s[n]])[..|r|] == r;
      } else {
        assert KeepFrom(s, c) == r;
      }
    }
  }

  lemma {:induction false} KeepFromMembers(s: seq<Sample>, c: int)
    ensures forall x :: x in KeepFrom(s, c) <==> x in s && x.t >= c
    ensures |KeepFrom(s, c)| <= |s|
  {
    if s != [] {
      var n := |s| - 1;
      KeepFromMembers(s[..n], c);
      assert s == s[..n] + [s[n]];
    }
  }

  /** What is kept keeps its order: a cutoff acts on each part of the samples alone. */
  lemma {:induction false} KeepFromConcat(a: seq<Sample>, b: seq<Sample>, c: int)
    ensures KeepFrom(a + b, c) == KeepFrom(a, c) + KeepFrom(b, c)
  {
    if b == [] {
      assert a + b == a;
    } else {
      var n := |b| - 1;
      KeepFromConcat(a, b[..n], c);
      assert (a + b)[..|a + b| - 1] == a + b[..n];
    }
  }

  lemma PushRefines(h: seq<Sample>, m: Option<int>, x: Sample)
    requires m.Some? ==> x.t >= m.value
    ensures PushTo(Last(Retained(h, m), MAX_SAMPLES_PER_KEY), x.v, x.t) == Last(Retained(h + [x], m), MAX_SAMPLES_PER_KEY)
  {
    assert (h + [x])[..|h|] == h;
    var r := Retained(h, m);
    assert Retained(h + [x], m) == r + [x];
    if |r| > MAX_SAMPLES_PER_KEY {
      assert Last(r, MAX_SAMPLES_PER_KEY) + [x] == (r + [x])[|r| - MAX_SAMPLES_PER_KEY..];
    }
  }

  /**
   * The incremental splice-and-filter window refines the simple one: after any
   * interleaving of pushes and prunes under a nondecreasing clock it holds the last
   * 2000 samples of the whole push history that the largest cutoff keeps.
   */
  lemma {:induction false} WindowRefines(ops: seq<WindowOp>)
    requires WellTimed(ops)
    ensures Run(ops) == Last(Retained(Pushed(ops), LargestCutoff(ops)), 2000)
  {
    if ops != [] {
      var n := |ops| - 1;
      var init := ops[..n];
      assert WellTimed(init);
      WindowRefines(init);
      var h, m := Pushed(init), LargestCutoff(init);
      match ops[n]
      case Push(v, t) =>
        LargestCutoffReached(init);
        assert forall i :: 0 <= i < n ==> ops[i] == init[i] && Stamp(ops[i]) <= Stamp(ops[n]);
        PushRefines(h, m, Sample(t, v));
      case Prune(cutoff) =>
        PushedFacts(init);
        assert Pushed(ops) == h;
        PruneRefines(h, m, cutoff);
    }
  }

  lemma PruneRefines(h: seq<Sample>, m: Option<int>, cutoff: int)
    requires Chronological(h)
    ensures var m' := if m.None? || cutoff > m.value then Some(cutoff) else m;
      KeepFrom(Last(Retained(h, m), MAX_SAMPLES_PER_KEY), cutoff) == Last(Retained(h, m'), MAX_SAMPLES_PER_KEY)
  {
    RetainedChronological(h, m);
    KeepFromLast(Retained(h, m), cutoff, MAX_SAMPLES_PER_KEY);
    if m.Some? {
      KeepFromTwice(h, m.value, cutoff);
    }
  }

  lemma RetainedChronological(s: seq<Sample>, cutoff: Option<int>)
    requires Chronological(s)
    ensures Chronological(Retained(s, cutoff))
  {
    if cutoff.Some? {
      var k := KeepFromIsSuffix(s, cutoff.value);
    }
  }

  // ----- Which clock the refinement needs -----

  ghost predicate Refined(ops: seq<WindowOp>) {
    Run(ops) == Last(Retained(Pushed(ops), LargestCutoff(ops)), 2000)
  }

  /** A push stamped before a cutoff already in force. */
  predicate Late(before: seq<WindowOp>, op: WindowOp) {
    op.Push? && LargestCutoff(before).Some? && op.t < LargestCutoff(before).value
  }

  /** A cutoff that drops a sample the window holds but not one that the cap has already pushed out of it. */
  ghost predicate Straddles(r: seq<Sample>, cutoff: int) {
    exists i, j :: 0 <= i < |r| - MAX_SAMPLES_PER_KEY <= j < |r| && r[i].t >= cutoff && r[j].t < cutoff
  }

  ghost predicate Disturbs(before: seq<WindowOp>, op: WindowOp) {
    Late(before, op) || (op.Prune? && Straddles(Retained(Pushed(before), LargestCutoff(before)), op.cutoff))
  }

  /** No late push, and no prune that reaches past a newer sample to an older one it spares. */
  ghost predicate Undisturbed(ops: seq<WindowOp>) {
    forall i :: 0 <= i < |ops| ==> !Disturbs(ops[..i], ops[i])
  }

  lemma PushedSnoc(ops: seq<WindowOp>, op: WindowOp)
    ensures Run(ops + [op]) == Apply(Run(ops), op)
    ensures Pushed(ops + [op]) == if op.Push? then Pushed(ops) + [Sample(op.t, op.v)] else Pushed(ops)
    ensures op.Push? ==> LargestCutoff(ops + [op]) == LargestCutoff(ops)
  {
    Snoc(ops, op);
  }

  /** A late sample stays in the window although the cutoff in force excludes it: after any run, a clock that steps back that far breaks the refinement. */
  lemma ClockStepsBack(ops: seq<WindowOp>, v: real, t: int)
    requires Late(ops, Push(v, t))
    ensures var late := ops + [Push(v, t)];
      && Run(late) != [] && Run(late)[|Run(late)| - 1] == Sample(t, v)
      && Sample(t, v) !in Retained(Pushed(late), LargestCutoff(late))
      && !Refined(late)
  {
    var late, x := ops + [Push(v, t)], Sample(t, v);
    PushedSnoc(ops, Push(v, t));
    var h := Retained(Pushed(late), LargestCutoff(late));
    KeepFromMembers(Pushed(late), LargestCutoff(late).value);
    LastMembers(h, MAX_SAMPLES_PER_KEY);
    LastEnd(Run(ops), x, MAX_SAMPLES_PER_KEY);
    assert Run(late)[|Run(late)| - 1] in Run(late);
  }

  lemma LastMembers<T>(s: seq<T>, n: nat)
    ensures forall x :: x in Last(s, n) ==> x in s
  {
  }

  lemma LastEnd<T>(s: seq<T>, x: T, n: nat)
    requires n > 0
    ensures Last(s + [x], n) != [] && Last(s + [x], n)[|Last(s + [x], n)| - 1] == x
  {
  }

  lemma KeepFromShorter(s: seq<Sample>, c: int, j: nat)
    requires j < |s| && s[j].t < c
    ensures |KeepFrom(s, c)| < |s|
  {
    var a, b := s[..j], s[j + 1..];
    assert s == a + [s[j]] + b;
    KeepFromConcat(a + [s[j]], b, c);
    KeepFromMembers(a, c);
    KeepFromMembers(b, c);
    Snoc(a, s[j]);
    assert KeepFrom(a + [s[j]], c) == KeepFrom(a, c);
  }

  lemma LastOfSum<T>(a: seq<T>, b: seq<T>, n: nat)
    requires |b| <= n
    ensures (|b| == n || a == []) ==> Last(a + b, n) == b
    ensures |b| < n && a != [] ==> |Last(a + b, n)| > |b|
  {
  }

  /** The samples that the cap has pushed out, and those it has left. */
  function CapPoint(r: seq<Sample>): (d: nat)
    ensures d <= |r| && (r != [] ==> d < |r|)
  {
    if |r| <= MAX_SAMPLES_PER_KEY then 0 else |r| - MAX_SAMPLES_PER_KEY
  }

  lemma StraddlingDiffers(r: seq<Sample>, c: int)
    requires Straddles(r, c)
    ensures KeepFrom(Last(r, MAX_SAMPLES_PER_KEY), c) != Last(KeepFrom(r, c), MAX_SAMPLES_PER_KEY)
  {
    var d := CapPoint(r);
    var e, w := r[..d], r[d..];
    assert r == e + w && Last(r, MAX_SAMPLES_PER_KEY) == w;
    var i, j :| 0 <= i < |r| - MAX_SAMPLES_PER_KEY <= j < |r| && r[i].t >= c && r[j].t < c;
    KeepFromConcat(e, w, c);
    KeepFromMembers(e, c);
    assert e[i] in KeepFrom(e, c);
    KeepFromShorter(w, c, j - d);
    LastOfSum(KeepFrom(e, c), KeepFrom(w, c), MAX_SAMPLES_PER_KEY);
  }

  lemma HeldAllKept(e: seq<Sample>, w: seq<Sample>, c: int)
    requires |w| == MAX_SAMPLES_PER_KEY && forall j :: 0 <= j < |w| ==> w[j].t >= c
    ensures Last(KeepFrom(e + w, c), MAX_SAMPLES_PER_KEY) == KeepFrom(w, c)
  {
    KeepFromConcat(e, w, c);
    KeepFromSuffix(w, c, 0);
    LastOfSum(KeepFrom(e, c), w, MAX_SAMPLES_PER_KEY);
  }

  lemma EvictedAllDropped(e: seq<Sample>, w: seq<Sample>, c: int)
    requires |w| <= MAX_SAMPLES_PER_KEY && forall i :: 0 <= i < |e| ==> e[i].t < c
    ensures Last(KeepFrom(e + w, c), MAX_SAMPLES_PER_KEY) == KeepFrom(w, c)
  {
    KeepFromConcat(e, w, c);
    KeepFromSuffix(e, c, |e|);
    KeepFromMembers(w, c);
    LastOfSum(KeepFrom(e, c), KeepFrom(w, c), MAX_SAMPLES_PER_KEY);
  }

  lemma UnstraddledCommutes(r: seq<Sample>, c: int)
    requires !Straddles(r, c)
    ensures KeepFrom(Last(r, MAX_SAMPLES_PER_KEY), c) == Last(KeepFrom(r, c), MAX_SAMPLES_PER_KEY)
  {
    var d := CapPoint(r);
    var e, w := r[..d], r[d..];
    assert r == e + w;
    if i :| 0 <= i < d && r[i].t >= c {
      forall j | 0 <= j < |w| ensures w[j].t >= c {
        assert r[d + j] == w[j];
      }
      HeldAllKept(e, w, c);
    } else {
      EvictedAllDropped(e, w, c);
    }
  }

  /** One operation keeps a right window right exactly when it does not disturb it. */
  lemma RefinedStep(before: seq<WindowOp>, op: WindowOp)
    requires Refined(before)
    ensures Refined(before + [op]) <==> !Disturbs(before, op)
  {
    var h, m := Pushed(before), LargestCutoff(before);
    PushedSnoc(before, op);
    Snoc(before, op);
    match op
    case Push(v, t) =>
      if Late(before, op) {
        ClockStepsBack(before, v, t);
      } else {
        PushRefines(h, m, Sample(t, v));
      }
    case Prune(cutoff) =>
      if Straddles(Retained(h, m), cutoff) {
        StraddlingDiffers(Retained(h, m), cutoff);
      } else {
        UnstraddledCommutes(Retained(h, m), cutoff);
      }
      if m.Some? {
        KeepFromTwice(h, m.value, cutoff);
      }
  }

  lemma UndisturbedPrefix(ops: seq<WindowOp>, k: nat)
    requires Undisturbed(ops) && k <= |ops|
    ensures Undisturbed(ops[..k])
  {
    forall i | 0 <= i < k ensures !Disturbs(ops[..k][..i], ops[..k][i]) {
      assert ops[..k][..i] == ops[..i] && ops[..k][i] == ops[i];
    }
  }

  lemma {:induction false} UndisturbedRefined(ops: seq<WindowOp>)
    requires Undisturbed(ops)
    ensures Refined(ops)
  {
    if ops != [] {
      var n := |ops| - 1;
      UndisturbedPrefix(ops, n);
      UndisturbedRefined(ops[..n]);
      assert ops == ops[..n] + [ops[n]];
      RefinedStep(ops[..n], ops[n]);
    }
  }

  lemma RefinedUndisturbed(ops: seq<WindowOp>, i: nat)
    requires i < |ops| && Refined(ops[..i]) && Refined(ops[..i + 1])
    ensures !Disturbs(ops[..i], ops[i])
  {
    assert ops[..i + 1] == ops[..i] + [ops[i]];
    RefinedStep(ops[..i], ops[i]);
  }

  /**
   * The window is right all along exactly when no operation disturbs it: a nondecreasing clock
   * is sufficient, pushing nothing before a cutoff in force is necessary, and what lies between
   * is that no prune straddles the samples that the cap has pushed out.
   */
  lemma RefinedThroughoutIff(ops: seq<WindowOp>)
    ensures (forall k :: 0 <= k <= |ops| ==> Refined(ops[..k])) <==> Undisturbed(ops)
  {
    if forall k :: 0 <= k <= |ops| ==> Refined(ops[..k]) {
      forall i | 0 <= i < |ops| ensures !Disturbs(ops[..i], ops[i]) {
        RefinedUndisturbed(ops, i);
      }
    }
    if Undisturbed(ops) {
      forall k | 0 <= k <= |ops| ensures Refined(ops[..k]) {
        UndisturbedPrefix(ops, k);
        UndisturbedRefined(ops[..k]);
      }
    }
  }

  /** A nondecreasing clock disturbs nothing. */
  lemma WellTimedUndisturbed(ops: seq<WindowOp>)
    requires WellTimed(ops)
    ensures Undisturbed(ops)
  {
    forall k | 0 <= k <= |ops| ensures Refined(ops[..k]) {
      WindowRefines(ops[..k]);
    }
    RefinedThroughoutIff(ops);
  }

  lemma {:induction false} PushesOnly(ops: seq<WindowOp>)
    requires forall i :: 0 <= i < |ops| ==> ops[i].Push?
    ensures LargestCutoff(ops) == None && |Pushed(ops)| == |ops| && Run(ops) == Last(Pushed(ops), MAX_SAMPLES_PER_KEY)
    ensures forall i :: 0 <= i < |ops| ==> Pushed(ops)[i] == Sample(ops[i].t, ops[i].v)
  {
    if ops != [] {
      var n := |ops| - 1;
      PushesOnly(ops[..n]);
      PushRefines(Pushed(ops[..n]), None, Sample(ops[n].t, ops[n].v));
      assert forall i :: 0 <= i < n ==> ops[..n][i] == ops[i];
    }
  }

  /** One sample stamped ahead of the many that follow it. */
  function StampedAhead(): seq<WindowOp> {
    [Push(0.0, 100)] + seq(MAX_SAMPLES_PER_KEY, _ => Push(0.0, 50))
  }

  /** Such a sample is pushed out by the cap, before a cutoff that it alone would have survived. */
  lemma CapNeedsOrder()
    ensures Refined(StampedAhead()) && !Refined(StampedAhead() + [Prune(60)])
  {
    var ops := StampedAhead();
    PushesOnly(ops);
    var h := Pushed(ops);
    assert h[0].t >= 60 && h[1].t < 60;
    assert Straddles(h, 60);
    RefinedStep(ops, Prune(60));
  }
}
