/** Runs of a state machine: one state before each event and one after the last. */
module Runs {
  ghost predicate IsRun<S(!new), E(!new)>(step: (S, E, S) -> bool, events: seq<E>, states: seq<S>) {
    && |states| == |events| + 1
    && forall i {:trigger events[i]} :: 0 <= i < |events| ==> step(states[i], events[i], states[i + 1])
  }

  /** What every step keeps holds from where it first holds on. */
  lemma {:induction false} StaysTrue<S(!new), E(!new)>(step: (S, E, S) -> bool, inv: S -> bool, events: seq<E>,
                                                       states: seq<S>, from: nat, at: nat)
    requires IsRun(step, events, states) && from <= at < |states| && inv(states[from])
    requires forall s, e, t :: inv(s) && step(s, e, t) ==> inv(t)
    ensures inv(states[at])
    decreases at
  {
    if at > from {
      StaysTrue(step, inv, events, states, from, at - 1);
      assert step(states[at - 1], events[at - 1], states[at]);
    }
  }

  /** What a step establishes about the state it reaches, and every later step keeps, holds from
      that state on. */
  lemma {:induction false} HoldsSince<S(!new), E(!new)>(step: (S, E, S) -> bool, inv: S -> bool, starts: (S, E) -> bool,
                                                        holds: (S, S) -> bool, events: seq<E>, states: seq<S>,
                                                          since: nat, at: nat)
    requires IsRun(step, events, states) && since < at < |states| && starts(states[since], events[since])
    requires inv(states[0]) && forall s, e, t :: inv(s) && step(s, e, t) ==> inv(t)
    requires forall s, e, t :: inv(s) && step(s, e, t) && starts(s, e) ==> holds(t, t)
    requires forall origin, s, e, t :: holds(origin, s) && step(s, e, t) ==> holds(origin, t)
    ensures holds(states[since + 1], states[at])
  {
    StaysTrue(step, inv, events, states, 0, since);
    assert step(states[since], events[since], states[since + 1]);
    StaysTrue(step, s => holds(states[since + 1], s), events, states, since + 1, at);
  }

  /** A flag that starts as `first` and moves with every event as `moves` says. */
  predicate Tracked<S, E>(moves: (S, E, bool) -> bool, first: bool, events: seq<E>, states: seq<S>, at: nat)
    requires at <= |events| <= |states|
  {
    if at == 0 then first else moves(states[at - 1], events[at - 1], Tracked(moves, first, events, states, at - 1))
  }

  /** What every step keeps of states and the tracked flag together. */
  lemma {:induction false} TrackedHolds<S(!new), E(!new)>(step: (S, E, S) -> bool, inv: (S, bool) -> bool,
                                                          moves: (S, E, bool) -> bool, first: bool, events: seq<E>,
                                                          states: seq<S>, at: nat)
    requires IsRun(step, events, states) && at <= |events| && inv(states[0], first)
    requires forall s, e, t, flag :: inv(s, flag) && step(s, e, t) ==> inv(t, moves(s, e, flag))
    ensures inv(states[at], Tracked(moves, first, events, states, at))
    decreases at
  {
    if at > 0 {
      TrackedHolds(step, inv, moves, first, events, states, at - 1);
      assert step(states[at - 1], events[at - 1], states[at]);
    }
  }

  /** A property of states that every step moves as `moves` says is the flag tracked from the start. */
  lemma TrackedExactly<S(!new), E(!new)>(step: (S, E, S) -> bool, inv: S -> bool, flag: S -> bool,
                                         moves: (S, E, bool) -> bool, events: seq<E>, states: seq<S>, at: nat)
    requires IsRun(step, events, states) && at <= |events| && inv(states[0])
    requires forall s, e, t :: inv(s) && step(s, e, t) ==> inv(t) && (flag(t) <==> moves(s, e, flag(s)))
    ensures flag(states[at]) <==> Tracked(moves, flag(states[0]), events, states, at)
    ensures inv(states[at])
  {
    TrackedHolds(step, (s, f) => inv(s) && f == flag(s), moves, flag(states[0]), events, states, at);
  }

  /** A run goes on with one more step. */
  lemma RunExtends<S(!new), E(!new)>(step: (S, E, S) -> bool, events: seq<E>, states: seq<S>, e: E, t: S)
    requires IsRun(step, events, states) && step(states[|events|], e, t)
    ensures IsRun(step, events + [e], states + [t])
  {
    forall i | 0 <= i < |events + [e]| ensures step((states + [t])[i], (events + [e])[i], (states + [t])[i + 1]) {
      assert i < |events| ==> step(states[i], events[i], states[i + 1]);
    }
  }
}
