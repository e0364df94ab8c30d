/** Transition systems and their runs. A machine says which steps are enabled in
    a state and where they lead; a run is any sequence of enabled steps. */
module Transition {

  datatype Machine<!S, !T> = Machine(enabled: (S, T) -> bool, next: (S, T) -> S)

  ghost predicate Runs<S, T>(m: Machine<S, T>, st: S, steps: seq<T>) {
    steps == [] ||
    (Runs(m, st, steps[..|steps| - 1]) && m.enabled(Exec(m, st, steps[..|steps| - 1]), steps[|steps| - 1]))
  }

  ghost function Exec<S, T>(m: Machine<S, T>, st: S, steps: seq<T>): S {
    if steps == [] then st else m.next(Exec(m, st, steps[..|steps| - 1]), steps[|steps| - 1])
  }

  lemma {:induction false} OneMore<S, T>(m: Machine<S, T>, st: S, steps: seq<T>, step: T)
    ensures Runs(m, st, steps + [step]) <==> Runs(m, st, steps) && m.enabled(Exec(m, st, steps), step)
    ensures Exec(m, st, steps + [step]) == m.next(Exec(m, st, steps), step)
  {
    assert (steps + [step])[..|steps + [step]| - 1] == steps;
  }

  lemma {:induction false} JustOne<S, T>(m: Machine<S, T>, st: S, step: T)
    ensures Runs(m, st, [step]) <==> m.enabled(st, step)
    ensures Exec(m, st, [step]) == m.next(st, step)
  {
    OneMore(m, st, [], step);
    assert [] + [step] == [step];
  }

  /** Running a then b is running b where a ends. */
  lemma {:induction false} Continue<S, T>(m: Machine<S, T>, st: S, a: seq<T>, b: seq<T>)
    ensures Runs(m, st, a + b) <==> Runs(m, st, a) && Runs(m, Exec(m, st, a), b)
    ensures Exec(m, st, a + b) == Exec(m, Exec(m, st, a), b)
    decreases |b|
  {
    if b == [] {
      assert a + b == a;
    } else {
      var n := |b| - 1;
      Continue(m, st, a, b[..n]);
      OneMore(m, st, a + b[..n], b[n]);
      assert a + b == (a + b[..n]) + [b[n]];
    }
  }

  lemma Prefix<S, T>(m: Machine<S, T>, st: S, steps: seq<T>, j: nat)
    requires Runs(m, st, steps) && j <= |steps|
    ensures Runs(m, st, steps[..j])
    ensures Exec(m, st, steps) == Exec(m, Exec(m, st, steps[..j]), steps[j..])
    ensures Runs(m, Exec(m, st, steps[..j]), steps[j..])
  {
    Continue(m, st, steps[..j], steps[j..]);
    assert steps == steps[..j] + steps[j..];
  }

  /** What every enabled step keeps holds at the end of every run. */
  lemma {:induction false} Invariant<S(!new), T(!new)>(m: Machine<S, T>, inv: S -> bool, st: S, steps: seq<T>)
    requires Runs(m, st, steps) && inv(st)
    requires forall s, t :: inv(s) && m.enabled(s, t) ==> inv(m.next(s, t))
    ensures inv(Exec(m, st, steps))
    decreases |steps|
  {
    if steps != [] { Invariant(m, inv, st, steps[..|steps| - 1]); }
  }
}
