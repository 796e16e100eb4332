/** Runs of a state machine: what a sequence of steps leads to, and what holds at every point on the way. */
module Runs {

  function Run<S, T>(next: (S, T) -> S, s: S, steps: seq<T>): S
    decreases |steps|
  {
    if steps == [] then s else Run(next, next(s, steps[0]), steps[1..])
  }

  lemma {:induction false} RunAppend<S, T>(next: (S, T) -> S, s: S, a: seq<T>, b: seq<T>)
    ensures Run(next, s, a + b) == Run(next, Run(next, s, a), b)
    decreases |a|
  {
    if a == [] {
      assert a + b == b;
    } else {
      assert (a + b)[0] == a[0] && (a + b)[1..] == a[1..] + b;
      RunAppend(next, next(s, a[0]), a[1..], b);
    }
  }

  lemma RunOne<S, T>(next: (S, T) -> S, s: S, step: T)
    ensures Run(next, s, [step]) == next(s, step)
  {
    assert Run(next, next(s, step), []) == next(s, step);
  }

  lemma RunTwo<S, T>(next: (S, T) -> S, s: S, a: T, b: T)
    ensures Run(next, s, [a, b]) == next(next(s, a), b)
  {
    RunOne(next, s, a);
    RunAppend(next, s, [a], [b]);
    RunOne(next, next(s, a), b);
    assert [a] + [b] == [a, b];
  }

  lemma RunFour<S, T>(next: (S, T) -> S, s: S, a: T, b: T, c: T, d: T)
    ensures Run(next, s, [a, b, c, d]) == next(next(next(next(s, a), b), c), d)
  {
    RunTwo(next, s, a, b);
    RunAppend(next, s, [a, b], [c, d]);
    RunTwo(next, next(next(s, a), b), c, d);
    assert [a, b] + [c, d] == [a, b, c, d];
  }

  /** The last step of a prefix is taken where the prefix without it ends. */
  lemma RunPrefix<S, T>(next: (S, T) -> S, s: S, steps: seq<T>, k: nat)
    requires k < |steps|
    ensures Run(next, s, steps[..k + 1]) == next(Run(next, s, steps[..k]), steps[k])
  {
    assert steps[..k + 1] == steps[..k] + [steps[k]];
    RunAppend(next, s, steps[..k], [steps[k]]);
    RunOne(next, Run(next, s, steps[..k]), steps[k]);
  }

  /** The property holds after every prefix of the steps. */
  ghost predicate Always<S, T>(next: (S, T) -> S, s: S, steps: seq<T>, good: S -> bool) {
    forall k :: 0 <= k <= |steps| ==> good(Run(next, s, steps[..k]))
  }

  /** Every step meets its guard where it is taken. */
  ghost predicate Guarded<S, T>(next: (S, T) -> S, s: S, steps: seq<T>, guard: (S, T) -> bool) {
    forall k :: 0 <= k < |steps| ==> guard(Run(next, s, steps[..k]), steps[k])
  }

  /** If the guard says exactly which steps keep the property, a run keeps it throughout exactly when every step meets
      its guard. */
  lemma {:induction false} AlwaysIffGuarded<S(!new), T(!new)>(
      next: (S, T) -> S, s: S, steps: seq<T>, good: S -> bool, guard: (S, T) -> bool)
    requires good(s)
    requires forall s', t :: good(s') ==> (good(next(s', t)) <==> guard(s', t))
    ensures Always(next, s, steps, good) <==> Guarded(next, s, steps, guard)
    decreases |steps|
  {
    assert steps[..0] == [];
    if steps != [] {
      var n := |steps| - 1;
      var before := steps[..n];
      AlwaysIffGuarded(next, s, before, good, guard);
      assert forall k :: 0 <= k <= n ==> before[..k] == steps[..k];
      assert steps[..n + 1] == steps;
      RunPrefix(next, s, steps, n);
      assert before[..n] == before;
    }
  }

  /** The guards of a run, the first one apart. */
  lemma GuardedFront<S, T>(next: (S, T) -> S, s: S, steps: seq<T>, guard: (S, T) -> bool)
    requires steps != []
    ensures Guarded(next, s, steps, guard)
      <==> guard(s, steps[0]) && Guarded(next, next(s, steps[0]), steps[1..], guard)
  {
    var s', rest := next(s, steps[0]), steps[1..];
    assert steps[..0] == [];
    forall k | 0 <= k < |rest| ensures Run(next, s, steps[..k + 1]) == Run(next, s', rest[..k]) {
      assert steps[..k + 1] == [steps[0]] + rest[..k];
      assert steps[..k + 1][1..] == rest[..k];
    }
    if Guarded(next, s, steps, guard) {
      assert guard(Run(next, s, steps[..0]), steps[0]);
      forall k | 0 <= k < |rest| ensures guard(Run(next, s', rest[..k]), rest[k]) {
        assert guard(Run(next, s, steps[..k + 1]), steps[k + 1]);
      }
    }
    if guard(s, steps[0]) && Guarded(next, s', rest, guard) {
      forall k | 0 <= k < |steps| ensures guard(Run(next, s, steps[..k]), steps[k]) {
        if k > 0 { assert guard(Run(next, s', rest[..k - 1]), rest[k - 1]); }
      }
    }
  }
}
