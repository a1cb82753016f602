/**
 Reasoning over runs of a transition relation: finite sequences of states joined by steps.
 */
module Runs {

  /** Each step leads from one state to the next. */
  ghost predicate Run<S(!new), E(!new)>(next: (S, E, S) -> bool, states: seq<S>, steps: seq<E>)
  {
    && |states| == |steps| + 1
    && (forall k :: 0 <= k < |steps| ==> next(states[k], steps[k], states[k + 1]))
  }

  /** What every step keeps holds of every state of a run. */
  lemma {:induction false} Always<S(!new), E(!new)>(next: (S, E, S) -> bool, inv: S -> bool, states: seq<S>,
      steps: seq<E>, n: nat)
    requires Run(next, states, steps) && inv(states[0]) && n <= |steps|
    requires forall s, e, s' :: inv(s) && next(s, e, s') ==> inv(s')
    ensures inv(states[n])
  {
    if n > 0 {
      Always(next, inv, states, steps, n - 1);
      assert next(states[n - 1], steps[n - 1], states[n]);
    }
  }

  /** What the steps from a up to b produce, in order. */
  ghost function Output<S(!new), E(!new), M(!new)>(f: (S, E) -> seq<M>, states: seq<S>, steps: seq<E>, a: nat,
      b: nat): seq<M>
    requires a <= b <= |steps| <= |states|
    decreases b
  {
    if a == b then [] else Output(f, states, steps, a, b - 1) + f(states[b - 1], steps[b - 1])
  }

  lemma {:induction false} OutputFrom<S(!new), E(!new), M(!new)>(f: (S, E) -> seq<M>, states: seq<S>, steps: seq<E>,
      a: nat, b: nat)
    requires a < b <= |steps| <= |states|
    ensures Output(f, states, steps, a, b) == f(states[a], steps[a]) + Output(f, states, steps, a + 1, b)
    decreases b
  {
    if a + 1 < b {
      OutputFrom(f, states, steps, a, b - 1);
      var rest := Output(f, states, steps, a + 1, b - 1);
      assert f(states[a], steps[a]) + rest + f(states[b - 1], steps[b - 1]) ==
             f(states[a], steps[a]) + (rest + f(states[b - 1], steps[b - 1]));
    }
  }

  /** What a run has produced was produced in one of its steps. */
  lemma {:induction false} ProducedAt<S(!new), E(!new), M(!new)>(f: (S, E) -> seq<M>, states: seq<S>, steps: seq<E>,
                                                                 a: nat, b: nat, x: M) returns (k: nat)
    requires a <= b <= |steps| <= |states| && x in Output(f, states, steps, a, b)
    ensures a <= k < b && x in f(states[k], steps[k])
    decreases b
  {
    if x in f(states[b - 1], steps[b - 1]) {
      k := b - 1;
    } else {
      k := ProducedAt(f, states, steps, a, b - 1, x);
    }
  }

  lemma {:induction false} ProducedIn<S(!new), E(!new), M(!new)>(f: (S, E) -> seq<M>, states: seq<S>, steps: seq<E>,
                                                                 a: nat, b: nat, k: nat, x: M)
    requires a <= k < b <= |steps| <= |states| && x in f(states[k], steps[k])
    ensures x in Output(f, states, steps, a, b)
    decreases b
  {
    if k < b - 1 {
      ProducedIn(f, states, steps, a, b - 1, k, x);
    }
  }

  /** What steps of one kind keep, of the state and of all that has been produced, holds throughout a
      stretch of such steps. */
  lemma {:induction false} Accumulates<S(!new), E(!new), M(!new)>(
      next: (S, E, S) -> bool, kind: (S, E) -> bool, f: (S, E) -> seq<M>, inv: (S, seq<M>) -> bool,
      states: seq<S>, steps: seq<E>, a: nat, b: nat, first: seq<M>)
    requires Run(next, states, steps) && a <= b <= |steps| && inv(states[a], first)
    requires forall k :: a <= k < b ==> kind(states[k], steps[k])
    requires forall s, e, s', out :: inv(s, out) && kind(s, e) && next(s, e, s') ==> inv(s', out + f(s, e))
    ensures inv(states[b], first + Output(f, states, steps, a, b))
    decreases b
  {
    if a == b {
      assert first + [] == first;
    } else {
      Accumulates(next, kind, f, inv, states, steps, a, b - 1, first);
      var s, e := states[b - 1], steps[b - 1];
      var out := Output(f, states, steps, a, b - 1);
      assert next(states[b - 1], steps[b - 1], states[b]);
      assert first + out + f(s, e) == first + (out + f(s, e));
    }
  }

  /** What steps of one kind keep holds throughout a stretch of such steps. */
  lemma {:induction false} Throughout<S(!new), E(!new)>(next: (S, E, S) -> bool, kind: (S, E) -> bool, inv: S -> bool,
                                                        states: seq<S>, steps: seq<E>, a: nat, b: nat)
    requires Run(next, states, steps) && a <= b <= |steps| && inv(states[a])
    requires forall k :: a <= k < b ==> kind(states[k], steps[k])
    requires forall s, e, s' :: inv(s) && kind(s, e) && next(s, e, s') ==> inv(s')
    ensures inv(states[b])
  {
    Accumulates(next, kind, (s: S, e: E) => [0][..0], (s: S, out: seq<int>) => inv(s), states, steps, a, b, []);
  }

  /** The total of `delta` over the steps from a up to b. */
  ghost function Total<S(!new), E(!new)>(delta: (S, E) -> int, states: seq<S>, steps: seq<E>, a: nat, b: nat): int
    requires a <= b <= |steps| <= |states|
    decreases b
  {
    if a == b then 0 else Total(delta, states, steps, a, b - 1) + delta(states[b - 1], steps[b - 1])
  }

  /** A quantity that each step changes by `delta` changes by the total. */
  lemma {:induction false} Tracks<S(!new), E(!new)>(next: (S, E, S) -> bool, delta: (S, E) -> int, inv: (S,
      int) -> bool,
                                                    states: seq<S>, steps: seq<E>, a: nat, b: nat, first: int)
    requires |states| == |steps| + 1 && a <= b <= |steps| && inv(states[a], first)
    requires forall k :: a <= k < b ==> next(states[k], steps[k], states[k + 1])
    requires forall s, e, s', x :: inv(s, x) && next(s, e, s') ==> inv(s', x + delta(s, e))
    ensures inv(states[b], first + Total(delta, states, steps, a, b))
    decreases b
  {
    if a < b {
      Tracks(next, delta, inv, states, steps, a, b - 1, first);
      assert next(states[b - 1], steps[b - 1], states[b]);
    }
  }

  /** Each step takes `intake` in at the back and lets `out` out at the front. */
  ghost predicate Balances<S(!new), E(!new), M(!new)>(next: (S, E, S) -> bool, inv: S -> bool, inside: S -> seq<M>,
                                                      intake: (S, E) -> seq<M>, out: (S, E) -> seq<M>)
  {
    forall s, e, s' :: inv(s) && next(s, e, s') ==> inv(s') && inside(s) + intake(s, e) == out(s, e) + inside(s')
  }

  /** What was inside and what came in is, in order, what went out and what is inside now. */
  lemma {:induction false} FirstInFirstOut<S(!new), E(!new), M(!new)>(next: (S, E, S) -> bool, inv: S -> bool,
      inside: S -> seq<M>,
                                                                      intake: (S, E) -> seq<M>, out: (S, E) -> seq<M>,
                                                                      states: seq<S>, steps: seq<E>, n: nat)
    requires Run(next, states, steps) && inv(states[0]) && n <= |steps|
    requires Balances(next, inv, inside, intake, out)
    ensures inv(states[n])
    ensures inside(states[0]) + Output(intake, states, steps, 0, n) == Output(out, states, steps, 0,
            n) + inside(states[n])
  {
    if n > 0 {
      var s, e, s' := states[n - 1], steps[n - 1], states[n];
      FirstInFirstOut(next, inv, inside, intake, out, states, steps, n - 1);
      assert next(states[n - 1], steps[n - 1], states[n]);
      Regroup(inside(states[0]), Output(intake, states, steps, 0, n - 1), Output(out, states, steps, 0, n - 1),
              inside(s), intake(s, e), out(s, e), inside(s'));
    }
  }

  lemma Regroup<M>(first: seq<M>, came: seq<M>, went: seq<M>, inside: seq<M>, intake: seq<M>, out: seq<M>, left: seq<M>)
    requires first + came == went + inside && inside + intake == out + left
    ensures first + (came + intake) == went + out + left
  {
    assert first + (came + intake) == first + came + intake;
    assert went + inside + intake == went + (inside + intake);
    assert went + (out + left) == went + out + left;
  }

  /** No step from a up to b is of the kind `clears`. */
  ghost predicate Unbroken<S(!new), E(!new)>(clears: (S, E) -> bool, states: seq<S>, steps: seq<E>, a: nat, b: nat)
    requires b <= |steps| <= |states|
  {
    forall k :: a <= k < b ==> !clears(states[k], steps[k])
  }

  /** Step k is of the kind `sets`, and no later one up to b is of the kind `clears`. */
  ghost predicate LastSet<S(!new), E(!new)>(sets: (S, E) -> bool, clears: (S, E) -> bool, states: seq<S>, steps: seq<E>,
                                            k: nat, b: nat)
    requires k < b <= |steps| <= |states|
  {
    sets(states[k], steps[k]) && Unbroken(clears, states, steps, k + 1, b)
  }

  /** What some steps set and others clear holds now exactly if it held at first and was not cleared
      since, or was set and not cleared after that. */
  lemma {:induction false} SetAndCleared<S(!new), E(!new)>(
      next: (S, E, S) -> bool, inv: S -> bool, holds: S -> bool, sets: (S, E) -> bool, clears: (S, E) -> bool,
      states: seq<S>, steps: seq<E>, a: nat, b: nat)
    requires Run(next, states, steps) && a <= b <= |steps| && inv(states[a])
    requires forall s, e, s' :: inv(s) && next(s, e, s') ==>
               inv(s') && (holds(s') <==> sets(s, e) || (holds(s) && !clears(s, e)))
    ensures inv(states[b])
    ensures holds(states[b]) <==>
            || (holds(states[a]) && Unbroken(clears, states, steps, a, b))
            || exists k :: a <= k < b && LastSet(sets, clears, states, steps, k, b)
    decreases b
  {
    if a < b {
      SetAndCleared(next, inv, holds, sets, clears, states, steps, a, b - 1);
      var s, e := states[b - 1], steps[b - 1];
      assert next(s, e, states[b]);
      if sets(s, e) {
        assert LastSet(sets, clears, states, steps, b - 1, b);
      }
      forall k | a <= k < b - 1
        ensures LastSet(sets, clears, states, steps, k, b) <==>
                LastSet(sets, clears, states, steps, k, b - 1) && !clears(s, e)
      {}
      var c := b - 1;
      if k :| a <= k < c && LastSet(sets, clears, states, steps, k, c) {
        assert !clears(s, e) ==> LastSet(sets, clears, states, steps, k, b);
      }
    }
  }

  /** What a step keeps exactly unless it is of a bad kind holds of every state up to the n-th exactly
      if no step before was bad. */
  lemma {:induction false} KeptUnless<S(!new), E(!new)>(next: (S, E, S) -> bool, bad: (S, E) -> bool, inv: S -> bool,
                                                        states: seq<S>, steps: seq<E>, n: nat)
    requires Run(next, states, steps) && inv(states[0]) && n <= |steps|
    requires forall s, e, s' :: inv(s) && next(s, e, s') ==> (inv(s') <==> !bad(s, e))
    ensures (forall k :: 0 <= k <= n ==> inv(states[k])) <==> Unbroken(bad, states, steps, 0, n)
  {
    if n > 0 {
      KeptUnless(next, bad, inv, states, steps, n - 1);
      assert next(states[n - 1], steps[n - 1], states[n]);
      assert Unbroken(bad, states, steps, 0, n) <==>
             Unbroken(bad, states, steps, 0, n - 1) && !bad(states[n - 1], steps[n - 1]);
    }
  }
}
