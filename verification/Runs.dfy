/** Runs of a step system, and how an object says that it is where its trace leads. */
module Runs {

  function Run<S, T>(next: (S, T) -> S, start: S, steps: seq<T>): S {
    if |steps| == 0 then start else next(Run(next, start, steps[..|steps| - 1]), steps[|steps| - 1])
  }

  /** The steps lead from one state to another; used through Arrives and Advance only. */
  ghost predicate Leads<S, T(!new)>(next: (S, T) -> S, start: S, steps: seq<T>, end: S) {
    forall taken :: taken == steps ==> Run(next, start, taken) == end
  }

  lemma Arrives<S, T(!new)>(next: (S, T) -> S, start: S, steps: seq<T>, end: S)
    ensures Leads(next, start, steps, end) <==> Run(next, start, steps) == end
  {
  }

  lemma Advance<S, T(!new)>(next: (S, T) -> S, start: S, steps: seq<T>, s: S, step: T)
    requires Leads(next, start, steps, s)
    ensures Leads(next, start, steps + [step], next(s, step))
  {
    assert (steps + [step])[..|steps|] == steps;
    assert Run(next, start, steps) == s;
  }

  lemma RunNext<S, T>(next: (S, T) -> S, start: S, steps: seq<T>, n: nat)
    requires n < |steps|
    ensures Run(next, start, steps[..n + 1]) == next(Run(next, start, steps[..n]), steps[n])
    ensures Run(next, start, steps[..0]) == start
  {
    assert steps[..n + 1][..n] == steps[..n];
  }

  lemma RunLastThree<S, T>(next: (S, T) -> S, start: S, steps: seq<T>, n: nat)
    requires |steps| == n + 3
    ensures Run(next, start, steps) == next(next(next(Run(next, start, steps[..n]), steps[n]), steps[n + 1]), steps[n + 2])
  {
    RunNext(next, start, steps, n);
    RunNext(next, start, steps, n + 1);
    RunNext(next, start, steps, n + 2);
    assert steps[..n + 3] == steps;
  }
}
