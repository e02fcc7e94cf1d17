/** Option, and runs of a step machine: a machine is a partial function from a
    state and a step to the next state, and a run is a sequence of steps. */
module Machines {

  datatype Option<+T> = None | Some(value: T)

  /** The state after `steps`, or None when one of them is not enabled. */
  function Run<S, A>(next: (S, A) -> Option<S>, s: S, steps: seq<A>): Option<S> {
    if steps == [] then Some(s)
    else
      match next(s, steps[0])
      case None => None
      case Some(s') => Run(next, s', steps[1..])
  }

  ghost predicate Reaches<S, A(!new)>(next: (S, A) -> Option<S>, s: S, s': S) {
    exists steps :: Run(next, s, steps) == Some(s')
  }

  ghost predicate Preserves<S(!new), A(!new)>(next: (S, A) -> Option<S>, inv: S -> bool) {
    forall s, a :: inv(s) && next(s, a).Some? ==> inv(next(s, a).value)
  }

  /** What holds at the start and is kept by every step holds after every run. */
  lemma {:induction false} RunKeeps<S(!new), A(!new)>(next: (S, A) -> Option<S>, inv: S -> bool, s: S, steps: seq<A>)
    requires Preserves(next, inv)
    requires inv(s)
    ensures Run(next, s, steps).Some? ==> inv(Run(next, s, steps).value)
  {
    if steps != [] && next(s, steps[0]).Some? {
      RunKeeps(next, inv, next(s, steps[0]).value, steps[1..]);
    }
  }

  /** A run of `a + b` is a run of `a` followed by a run of `b`. */
  lemma {:induction false} RunAppend<S, A>(next: (S, A) -> Option<S>, s: S, a: seq<A>, b: seq<A>)
    requires Run(next, s, a).Some?
    ensures Run(next, s, a + b) == Run(next, Run(next, s, a).value, b)
  {
    if a == [] {
      assert a + b == b;
    } else {
      assert (a + b)[1..] == a[1..] + b;
      RunAppend(next, next(s, a[0]).value, a[1..], b);
    }
  }

  /** The last step of a run. */
  lemma RunLast<S, A>(next: (S, A) -> Option<S>, s: S, steps: seq<A>)
    requires steps != [] && Run(next, s, steps).Some?
    ensures
      var n := |steps| - 1;
      && Run(next, s, steps[..n]).Some?
      && Run(next, s, steps) == next(Run(next, s, steps[..n]).value, steps[n])
    decreases |steps|
  {
    var n := |steps| - 1;
    if n > 0 {
      RunLast(next, next(s, steps[0]).value, steps[1..]);
      assert steps[1..][..n - 1] == steps[..n][1..];
    }
  }

  lemma RunStep<S, A>(next: (S, A) -> Option<S>, s: S, a: A, rest: seq<A>)
    requires next(s, a).Some?
    ensures Run(next, s, [a] + rest) == Run(next, next(s, a).value, rest)
  {
    assert ([a] + rest)[1..] == rest;
  }

  lemma Reaches1<S, A(!new)>(next: (S, A) -> Option<S>, s: S, a: A)
    requires next(s, a).Some?
    ensures Reaches(next, s, next(s, a).value)
  {
    RunStep(next, s, a, []);
    assert Run(next, s, [a] + []) == Some(next(s, a).value);
  }

  lemma ReachesThen<S, A(!new)>(next: (S, A) -> Option<S>, s: S, s': S, s'': S)
    requires Reaches(next, s, s') && Reaches(next, s', s'')
    ensures Reaches(next, s, s'')
  {
    var a :| Run(next, s, a) == Some(s');
    var b :| Run(next, s', b) == Some(s'');
    RunAppend(next, s, a, b);
  }
}
