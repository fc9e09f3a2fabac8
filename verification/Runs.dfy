/** Behaviours of a transition system: finite sequences of states, each one
    step after the one before.  Every protocol of this project is stated over
    these. */
module Runs {

  /** `b` starts in an initial state and every state follows from the previous one. */
  ghost predicate IsRun<S(!new)>(init: S -> bool, next: (S, S) -> bool, b: seq<S>)
  {
    && 0 < |b|
    && init(b[0])
    && forall i :: 0 < i < |b| ==> next(b[i - 1], b[i])
  }

  /** A state some run ends in. */
  ghost predicate Reachable<S(!new)>(init: S -> bool, next: (S, S) -> bool, s: S)
  {
    exists b: seq<S> :: IsRun(init, next, b) && b[|b| - 1] == s
  }

  /** A run all of whose states satisfy an inductive invariant. */
  lemma {:induction false} InvariantHolds<S(!new)>(init: S -> bool, next: (S, S) -> bool, inv: S -> bool,
                                                   b: seq<S>, i: nat)
    requires IsRun(init, next, b) && i < |b|
    requires forall s :: init(s) ==> inv(s)
    requires forall s, t :: inv(s) && next(s, t) ==> inv(t)
    ensures inv(b[i])
  {
    if i == 0 {
    } else {
      InvariantHolds(init, next, inv, b, i - 1);
      assert next(b[i - 1], b[i]);
    }
  }

  /** A run along which a measure drops at every step is no longer than the
      measure it starts with. */
  lemma {:induction false} RunIsBounded<S(!new)>(init: S -> bool, next: (S, S) -> bool, inv: S -> bool, rank: S -> nat,
                                                 b: seq<S>, i: nat)
    requires IsRun(init, next, b) && i < |b|
    requires forall s :: init(s) ==> inv(s)
    requires forall s, t :: inv(s) && next(s, t) ==> inv(t)
    requires forall s, t :: inv(s) && next(s, t) ==> rank(t) < rank(s)
    ensures i + rank(b[i]) <= rank(b[0])
  {
    if i == 0 {
    } else {
      RunIsBounded(init, next, inv, rank, b, i - 1);
      InvariantHolds(init, next, inv, b, i - 1);
      assert next(b[i - 1], b[i]);
    }
  }

  /** A run can be prolonged by one step. */
  lemma OneMoreStep<S(!new)>(init: S -> bool, next: (S, S) -> bool, s: S, t: S)
    requires Reachable(init, next, s)
    requires next(s, t)
    ensures Reachable(init, next, t)
  {
    var b :| IsRun(init, next, b) && b[|b| - 1] == s;
    var c := b + [t];
    assert IsRun(init, next, c) by {
      forall i | 0 < i < |c| ensures next(c[i - 1], c[i]) {
        if i < |b| {
          assert c[i - 1] == b[i - 1] && c[i] == b[i];
        } else {
          assert c[i - 1] == s && c[i] == t;
        }
      }
    }
    assert c[|c| - 1] == t;
  }
}
