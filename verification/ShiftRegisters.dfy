/** Shift registers in the abstract: iterating a linear map, and folding input into it. */
module ShiftRegisters {
  import opened Collections

  function Times<T>(f: T -> T, c: T, k: nat): T
    decreases k
  {
    if k == 0 then c else Times(f, f(c), k - 1)
  }

  /** k input bits in turn: `feed` takes in the lowest bit of the input, `shift` drops it. */
  function FeedBits<T>(feed: (T, T) -> T, shift: T -> T, c: T, bits: T, k: nat): T
    decreases k
  {
    if k == 0 then c else FeedBits(feed, shift, feed(c, bits), shift(bits), k - 1)
  }

  ghost predicate Linear<T(!new)>(f: T -> T, op: (T, T) -> T) {
    forall a, b :: f(op(a, b)) == op(f(a), f(b))
  }

  ghost predicate Injective<T(!new)>(f: T -> T) {
    forall a, b :: f(a) == f(b) ==> a == b
  }

  lemma {:induction false} TimesLinear<T(!new)>(f: T -> T, op: (T, T) -> T, a: T, b: T, k: nat)
    requires Linear(f, op)
    ensures Times(f, op(a, b), k) == op(Times(f, a, k), Times(f, b, k))
    decreases k
  {
    if k > 0 {
      TimesLinear(f, op, f(a), f(b), k - 1);
    }
  }

  lemma {:induction false} TimesInjective<T(!new)>(f: T -> T, a: T, b: T, k: nat)
    requires Injective(f) && Times(f, a, k) == Times(f, b, k)
    ensures a == b
    decreases k
  {
    if k > 0 {
      TimesInjective(f, f(a), f(b), k - 1);
    }
  }

  lemma {:induction false} TimesAdd<T>(f: T -> T, c: T, j: nat, k: nat)
    ensures Times(f, c, j + k) == Times(f, Times(f, c, j), k)
    decreases j
  {
    if j > 0 {
      TimesAdd(f, f(c), j - 1, k);
    }
  }

  /** Where f acts like g along g's orbit, iterating f is iterating g. */
  lemma {:induction false} TimesAgree<T>(f: T -> T, g: T -> T, a: T, k: nat)
    requires forall i :: 0 <= i < k ==> f(Times(g, a, i)) == g(Times(g, a, i))
    ensures Times(f, a, k) == Times(g, a, k)
    decreases k
  {
    if k > 0 {
      assert f(Times(g, a, 0)) == g(a);
      forall i | 0 <= i < k - 1 ensures f(Times(g, g(a), i)) == g(Times(g, g(a), i)) {
        assert f(Times(g, a, i + 1)) == g(Times(g, a, i + 1));
      }
      TimesAgree(f, g, g(a), k - 1);
    }
  }

  /** Feeding bits one by one is adding them all at once and then turning. */
  lemma {:induction false} FeedBitsTurns<T(!new)>(f: T -> T, feed: (T, T) -> T, shift: T -> T, op: (T, T) -> T, c: T, bits: T, k: nat)
    requires forall c, bits :: f(op(c, bits)) == op(feed(c, bits), shift(bits))
    ensures Times(f, op(c, bits), k) == op(FeedBits(feed, shift, c, bits, k), Times(shift, bits, k))
    decreases k
  {
    if k > 0 {
      FeedBitsTurns(f, feed, shift, op, feed(c, bits), shift(bits), k - 1);
    }
  }

  lemma {:induction false} FoldConcat<T, B>(step: (T, B) -> T, c: T, a: seq<B>, b: seq<B>)
    ensures Fold(step, c, a + b) == Fold(step, Fold(step, c, a), b)
    decreases |b|
  {
    if b == [] {
      assert a + b == a;
    } else {
      var n := |b| - 1;
      FoldConcat(step, c, a, b[..n]);
      assert (a + b)[..|a + b| - 1] == a + b[..n];
    }
  }

  /** Registers that differ stay different under the same input. */
  lemma {:induction false} FoldInjective<T(!new), B(!new)>(step: (T, B) -> T, c: T, d: T, input: seq<B>)
    requires forall c, d, b :: step(c, b) == step(d, b) ==> c == d
    requires Fold(step, c, input) == Fold(step, d, input)
    ensures c == d
    decreases |input|
  {
    if input != [] {
      FoldInjective(step, c, d, input[..|input| - 1]);
    }
  }

  /** The input as one register value: each further item is raised one place more. */
  function Packed<T, B>(op: (T, T) -> T, wide: B -> T, raise: T -> T, zero: T, w: seq<B>): T
    decreases |w|
  {
    if w == [] then zero else op(wide(w[0]), raise(Packed(op, wide, raise, zero, w[1..])))
  }

  /** Something added after n turns is something added, raised, before them. */
  lemma AddLater<T(!new)>(f: T -> T, op: (T, T) -> T, c: T, x: T, raised: T, n: nat, k: nat)
    requires Linear(f, op) && Times(f, raised, n) == x
    ensures Times(f, op(Times(f, c, n), x), k) == Times(f, op(c, raised), n + k)
  {
    TimesLinear(f, op, c, raised, n);
    TimesAdd(f, op(c, raised), n, k);
  }

  /** One item folded in, and then what the rest of the window adds. */
  lemma WindowStep<T(!new)>(f: T -> T, op: (T, T) -> T, c: T, x: T, state: T, r: T, raised: T, n: nat, k: nat)
    requires Linear(f, op) && state == Times(f, op(c, x), n) && Times(f, raised, n) == r
    requires op(op(c, x), raised) == op(c, op(x, raised))
    ensures Times(f, op(state, r), k) == Times(f, op(c, op(x, raised)), n + k)
  {
    AddLater(f, op, op(c, x), r, raised, n, k);
  }

  /** Turning n times undoes the raising, for the packed value of each proper suffix. */
  ghost predicate Raisable<T, B>(f: T -> T, op: (T, T) -> T, wide: B -> T, raise: T -> T, zero: T, n: nat, w: seq<B>)
    decreases |w|
  {
    w == [] || (
      && Times(f, raise(Packed(op, wide, raise, zero, w[1..])), n) == Packed(op, wide, raise, zero, w[1..])
      && Raisable(f, op, wide, raise, zero, n, w[1..]))
  }

  lemma FrontStep<T(!new), B>(step: (T, B) -> T, f: T -> T, op: (T, T) -> T, c: T, x: T, r: T, raised: T, n: nat, w: seq<B>)
    requires w != [] && Linear(f, op) && step(c, w[0]) == Times(f, op(c, x), n) && Times(f, raised, n) == r
    requires op(op(c, x), raised) == op(c, op(x, raised))
    requires Fold(step, step(c, w[0]), w[1..]) == Times(f, op(step(c, w[0]), r), n * |w[1..]|)
    ensures Fold(step, c, w) == Times(f, op(c, op(x, raised)), n * |w|)
  {
    FoldFront(step, c, w);
    WindowStep(f, op, c, x, step(c, w[0]), r, raised, n, n * |w[1..]|);
    OneMore(n, |w[1..]|);
  }

  /** Folding in a short window is adding its packed value and turning once for each of its bits. */
  lemma {:induction false} FoldWindow<T(!new), B(!new)>(step: (T, B) -> T, f: T -> T, op: (T, T) -> T, wide: B -> T, raise: T -> T, zero: T,
      n: nat, c: T, w: seq<B>)
    requires forall c, b :: step(c, b) == Times(f, op(c, wide(b)), n)
    requires Linear(f, op)
    requires forall c, b, r :: op(op(c, wide(b)), raise(r)) == op(c, op(wide(b), raise(r)))
    requires forall a :: op(a, zero) == a
    requires Raisable(f, op, wide, raise, zero, n, w)
    ensures Fold(step, c, w) == Times(f, op(c, Packed(op, wide, raise, zero, w)), n * |w|)
    decreases |w|
  {
    if w == [] {
      assert n * |w| == 0;
    } else {
      FoldWindow(step, f, op, wide, raise, zero, n, step(c, w[0]), w[1..]);
      var r := Packed(op, wide, raise, zero, w[1..]);
      FrontStep(step, f, op, c, wide(w[0]), r, raise(r), n, w);
    }
  }

  lemma FoldFront<T, B>(step: (T, B) -> T, c: T, w: seq<B>)
    requires w != []
    ensures Fold(step, c, w) == Fold(step, step(c, w[0]), w[1..])
  {
    var b := w[0];
    assert w == [b] + w[1..];
    FoldConcat(step, c, [b], w[1..]);
    assert [b][..0] == [];
    assert Fold(step, c, [b]) == step(c, b);
  }
}
