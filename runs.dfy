/**
 * A run of a loop recorded as the list of its states at the loop head, each
 * related to the next by one iteration.
 */
module Runs {
  /** Every element of `run` is related by `R` to the one after it. */
  ghost predicate Chain<T>(run: seq<T>, R: (T, T) -> bool)
  {
    forall k :: 0 <= k < |run| - 1 ==> R(run[k], run[k + 1])
  }

  /** A chain followed by a state related to its last element is a chain. */
  lemma ChainExtend<T>(run: seq<T>, q: T, R: (T, T) -> bool)
    requires |run| >= 1 && Chain(run, R) && R(run[|run| - 1], q)
    ensures Chain(run + [q], R)
  {
    var run' := run + [q];
    forall k | 0 <= k < |run'| - 1
      ensures R(run'[k], run'[k + 1])
    {
      if k < |run| - 1 {
        assert run'[k] == run[k] && run'[k + 1] == run[k + 1];
      }
    }
  }
}
