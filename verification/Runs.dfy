/** Runs of a step relation: the states passed through, and the event between each two of them. */
module Runs {

  ghost predicate IsRun<S(!new), E(!new)>(states: seq<S>, events: seq<E>, next: (S, S, E) -> bool) {
    && |states| == |events| + 1
    && forall k :: 0 <= k < |events| ==> next(states[k], states[k + 1], events[k])
  }

  /** What holds at the start and is kept by every step holds throughout. */
  lemma {:induction false} Always<S(!new), E(!new)>(states: seq<S>, events: seq<E>, next: (S, S, E) -> bool, inv: S -> bool, k: int)
    requires IsRun(states, events, next) && inv(states[0]) && 0 <= k <= |events|
    requires forall s, s', e :: inv(s) && next(s, s', e) ==> inv(s')
    ensures inv(states[k])
    decreases k
  {
    if k > 0 {
      Always(states, events, next, inv, k - 1);
      assert next(states[k - 1], states[k], events[k - 1]);
    }
  }

  /** A view of the states runs by the relation that every step has on views. */
  lemma {:induction false} Viewed<S(!new), E(!new), V(!new)>(
      states: seq<S>, events: seq<E>, next: (S, S, E) -> bool, inv: S -> bool, view: S -> V, step: (V, V, E) -> bool, views: seq<V>)
    requires IsRun(states, events, next) && inv(states[0])
    requires forall s, s', e :: inv(s) && next(s, s', e) ==> inv(s')
    requires forall s, s', e :: inv(s) && next(s, s', e) ==> step(view(s), view(s'), e)
    requires |views| == |states| && forall k :: 0 <= k < |states| ==> views[k] == view(states[k])
    ensures IsRun(views, events, step)
  {
    forall k | 0 <= k < |events|
      ensures step(views[k], views[k + 1], events[k])
    {
      Always(states, events, next, inv, k);
      assert next(states[k], states[k + 1], events[k]);
    }
  }
}
