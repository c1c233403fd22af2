/** Histories: what was once true in a run of events. */
module Runs {

  /** Some event of the run met the description in the state it happened in. */
  ghost predicate Ever<S, E>(run: seq<E>, state: seq<E> -> S, description: (S, E, nat) -> bool, id: nat) {
    exists n :: 0 <= n < |run| && description(state(run[..n]), run[n], id)
  }

  lemma EverOneMore<S, E>(run: seq<E>, state: seq<E> -> S, description: (S, E, nat) -> bool, id: nat)
    requires run != []
    ensures var before, e := run[..|run| - 1], run[|run| - 1];
            Ever(run, state, description, id)
            <==> Ever(before, state, description, id) || description(state(before), e, id)
  {
    var before := run[..|run| - 1];
    assert run[..|run| - 1] == before;
    forall n | 0 <= n < |before| ensures before[..n] == run[..n] && before[n] == run[n] {}
  }
}
