/** Runs of a state machine whose actions may be impossible in some states. */
module Runs {
  import opened Options

  /** The state after the actions, if all of them can happen in turn. */
  function Execute<S, A>(step: (S, A) -> Option<S>, s: S, actions: seq<A>): Option<S> {
    if actions == [] then Some(s)
    else
      var last := |actions| - 1;
      match Execute(step, s, actions[..last])
      case None => None
      case Some(m) => step(m, actions[last])
  }

  lemma {:induction false} ExecuteConcat<S, A>(step: (S, A) -> Option<S>, s: S, a: seq<A>, b: seq<A>)
    requires Execute(step, s, a).Some?
    ensures Execute(step, s, a + b) == Execute(step, Execute(step, s, a).value, b)
  {
    if b == [] {
      assert a + b == a;
    } else {
      ExecuteConcat(step, s, a, b[..|b| - 1]);
      assert (a + b)[..|a + b| - 1] == a + b[..|b| - 1];
    }
  }
}
