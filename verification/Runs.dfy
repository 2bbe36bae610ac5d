/** Runs of a state machine, given as the relation of states, steps and next states. */
module Runs {

  ghost predicate IsPath<S(!new), A(!new)>(goes: (S, A, S) -> bool, states: seq<S>, steps: seq<A>) {
    && |states| == |steps| + 1
    && forall i :: 0 <= i < |steps| ==> goes(states[i], steps[i], states[i + 1])
  }

  /** Some steps lead from s to t. */
  ghost predicate Leads<S(!new), A(!new)>(goes: (S, A, S) -> bool, s: S, t: S) {
    exists states, steps :: IsPath(goes, states, steps) && states[0] == s && states[|steps|] == t
  }

  lemma ExtendPath<S(!new), A(!new)>(goes: (S, A, S) -> bool, states: seq<S>, steps: seq<A>, step: A, t: S)
    requires IsPath(goes, states, steps) && goes(states[|steps|], step, t)
    ensures IsPath(goes, states + [t], steps + [step])
  {
    var longer, more := states + [t], steps + [step];
    forall i | 0 <= i < |more| ensures goes(longer[i], more[i], longer[i + 1]) {
      if i < |steps| { assert goes(states[i], steps[i], states[i + 1]); }
    }
  }

  lemma Stay<S(!new), A(!new)>(goes: (S, A, S) -> bool, s: S)
    ensures Leads(goes, s, s)
  {
    var none: seq<A> := [];
    assert IsPath(goes, [s], none) && [s][|none|] == s;
  }

  lemma GoOn<S(!new), A(!new)>(goes: (S, A, S) -> bool, s: S, t: S, step: A, u: S)
    requires Leads(goes, s, t) && goes(t, step, u)
    ensures Leads(goes, s, u)
  {
    var states, steps :| IsPath(goes, states, steps) && states[0] == s && states[|steps|] == t;
    ExtendPath(goes, states, steps, step, u);
    assert (states + [u])[|steps + [step]|] == u;
  }

  /** What every step keeps holds throughout a path if it holds at first. */
  lemma {:induction false} InvHolds<S(!new), A(!new)>(
    goes: (S, A, S) -> bool, inv: S -> bool, states: seq<S>, steps: seq<A>, i: nat)
    requires IsPath(goes, states, steps) && i < |states| && inv(states[0])
    requires forall s, step, t :: goes(s, step, t) && inv(s) ==> inv(t)
    ensures inv(states[i])
    decreases i
  {
    if i > 0 {
      InvHolds(goes, inv, states, steps, i - 1);
      assert goes(states[i - 1], steps[i - 1], states[i - 1 + 1]);
    }
  }

  /** A path through a given step. */
  ghost predicate Passes<S(!new), A(!new)>(
    goes: (S, A, S) -> bool, states: seq<S>, steps: seq<A>, j: nat, s: S, step: A)
  {
    IsPath(goes, states, steps) && j < |steps| && states[j] == s && steps[j] == step
  }

  lemma PassOn<S(!new), A(!new)>(
    goes: (S, A, S) -> bool, states: seq<S>, steps: seq<A>, j: nat, s: S, step: A, more: A, u: S)
    requires Passes(goes, states, steps, j, s, step) && goes(states[|steps|], more, u)
    ensures Passes(goes, states + [u], steps + [more], j, s, step)
  {
    ExtendPath(goes, states, steps, more, u);
  }

  /** Some path leads from r to t through the step at s. */
  ghost predicate LeadsThrough<S(!new), A(!new)>(goes: (S, A, S) -> bool, r: S, s: S, step: A, t: S) {
    exists states, steps, j :: Passes(goes, states, steps, j, s, step) && states[0] == r && states[|steps|] == t
  }

  lemma GoThrough<S(!new), A(!new)>(goes: (S, A, S) -> bool, r: S, s: S, step: A, t: S)
    requires Leads(goes, r, s) && goes(s, step, t)
    ensures LeadsThrough(goes, r, s, step, t)
  {
    var states, steps :| IsPath(goes, states, steps) && states[0] == r && states[|steps|] == s;
    ExtendPath(goes, states, steps, step, t);
    var longer, more := states + [t], steps + [step];
    assert Passes(goes, longer, more, |steps|, s, step) && longer[|more|] == t;
  }

  lemma GoOnThrough<S(!new), A(!new)>(goes: (S, A, S) -> bool, r: S, s: S, step: A, t: S, more: A, u: S)
    requires LeadsThrough(goes, r, s, step, t) && goes(t, more, u)
    ensures LeadsThrough(goes, r, s, step, u)
  {
    var states, steps, j :| Passes(goes, states, steps, j, s, step) && states[0] == r && states[|steps|] == t;
    PassOn(goes, states, steps, j, s, step, more, u);
    assert (states + [u])[|steps + [more]|] == u;
  }

  /** What every step keeps holds wherever steps lead. */
  lemma InvHoldsThere<S(!new), A(!new)>(goes: (S, A, S) -> bool, inv: S -> bool, s: S, t: S)
    requires Leads(goes, s, t) && inv(s)
    requires forall a, step, b :: goes(a, step, b) && inv(a) ==> inv(b)
    ensures inv(t)
  {
    var states, steps :| IsPath(goes, states, steps) && states[0] == s && states[|steps|] == t;
    InvHolds(goes, inv, states, steps, |steps|);
  }

  /** A preorder between each state and the next relates any earlier state to any later one. */
  lemma {:induction false} HoldsThroughout<T>(related: (T, T) -> bool, states: seq<T>, j: nat, k: nat)
    requires j <= k < |states|
    requires forall m :: 0 <= m < |states| - 1 ==> related(states[m], states[m + 1])
    requires forall a :: related(a, a)
    requires forall a, b, c :: related(a, b) && related(b, c) ==> related(a, c)
    ensures related(states[j], states[k])
    decreases k - j
  {
    if j < k {
      HoldsThroughout(related, states, j, k - 1);
      assert related(states[k - 1], states[k - 1 + 1]);
    }
  }
}
