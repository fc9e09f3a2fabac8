/** What the parent's signal does in the drain half of the barrier: a parent that
    sleeps before the signal is sent is always woken by it, so that a run hangs
    exactly when the parent begins to wait with no signal left to come. */
module BarrierWakeup {
  import Runs
  import opened Barrier

  /** Past its decrement, with the signal not sent yet. */
  predicate StillToSignal(pc: WorkerPc) { pc.WTest? || pc.WLockSema? || pc.WSignalSema? }

  /** A signal is still to come: a worker has yet to decrement the counter, or the last
      one has yet to test it or to signal. */
  predicate SignalDue(s: State) {
    s.counter != 0 || exists i :: 0 <= i < |s.workers| && StillToSignal(s.workers[i])
  }

  predicate Sleeping(s: State) { s.parent.PAsleep? && s.asleep }

  /** The parent sleeps with the signal to come, or is awake after the last decrement. */
  predicate WillFinish(s: State) {
    if s.counter == 0 && (s.parent.PTest? || s.parent.PUnlockDrain? || s.parent.PDone?) then true
    else s.parent.PAsleep? && if s.asleep then SignalDue(s) else s.counter == 0
  }

  lemma WorkerKeepsWillFinish(n: nat, s: State, i: nat)
    requires Inv(n, s) && i < n && WorkerEnabled(s, i) && WillFinish(s)
    ensures WillFinish(WorkerApply(s, i))
  {
    var t := WorkerApply(s, i);
    assert WorkerInv(s, i);
    CounterIsBounded(n, s);
    if Sleeping(s) && s.counter == 0 {
      var k :| 0 <= k < |s.workers| && StillToSignal(s.workers[k]);
      assert k != i ==> t.workers[k] == s.workers[k];
      assert WorkerInv(s, k);
    }
    assert StillToSignal(t.workers[i]) && Sleeping(t) ==> SignalDue(t);
  }

  lemma ParentKeepsWillFinish(n: nat, s: State)
    requires Inv(n, s) && ParentEnabled(s) && WillFinish(s)
    ensures WillFinish(ParentApply(s))
  {
  }

  lemma NextKeepsWillFinish(n: nat, s: State, t: State)
    requires Inv(n, s) && Next(s, t) && WillFinish(s)
    ensures WillFinish(t)
  {
    var who :| Enabled(s, who) && t == Apply(s, who);
    match who {
      case Worker(i) => WorkerKeepsWillFinish(n, s, i);
      case Parent => ParentKeepsWillFinish(n, s);
    }
  }

  ghost predicate IsRun(n: nat, b: seq<State>) {
    Runs.IsRun(r => r == Init(n), (r, t) => Next(r, t), b)
  }

  lemma RunInv(n: nat, b: seq<State>, i: nat)
    requires IsRun(n, b) && i < |b|
    ensures Inv(n, b[i])
  {
    var init, next := (r: State) => r == Init(n), (r: State, t: State) => Next(r, t);
    InitInv(n);
    forall r, t | Inv(n, r) && Next(r, t) ensures Inv(n, t) { NextKeepsInv(n, r, t); }
    Runs.InvariantHolds(init, next, (r: State) => Inv(n, r), b, i);
  }

  lemma {:induction false} WillFinishLasts(n: nat, b: seq<State>, i: nat, j: nat)
    requires IsRun(n, b) && i <= j < |b| && WillFinish(b[i])
    ensures WillFinish(b[j])
  {
    hide Next, Inv, WillFinish, Init;
    if i < j {
      WillFinishLasts(n, b, i, j - 1);
      RunInv(n, b, j - 1);
      assert Next(b[j - 1], b[j]);
      NextKeepsWillFinish(n, b[j - 1], b[j]);
    }
  }

  /** A sleeping parent is woken: a run in which it once sleeps with the signal still to
      come, be it that workers have not departed or that the last one is about to
      signal, gets stuck only when all have finished. */
  lemma SleeperIsWoken(n: nat, b: seq<State>, i: nat)
    requires IsRun(n, b) && i < |b| && Stuck(b[|b| - 1])
    requires b[i].parent == PAsleep && b[i].asleep
    requires b[i].counter != 0 || exists k :: 0 <= k < |b[i].workers| && StillToSignal(b[i].workers[k])
    ensures Finished(b[|b| - 1])
  {
    hide Next, Inv, Init;
    WillFinishLasts(n, b, i, |b| - 1);
    RunInv(n, b, |b| - 1);
    StuckStates(n, b[|b| - 1]);
  }

  // ------------------------------------------------------------- when a run hangs

  /** The parent waits, or is about to, with nobody left to signal. */
  predicate Doomed(s: State) {
    (s.parent.PWait? || Sleeping(s)) && !SignalDue(s)
  }

  lemma NextKeepsDoomed(n: nat, s: State, t: State)
    requires Inv(n, s) && Next(s, t) && Doomed(s)
    ensures Doomed(t)
  {
    var who :| Enabled(s, who) && t == Apply(s, who);
    if who.Worker? {
      assert WorkerInv(s, who.i);
      CounterIsBounded(n, s);
      assert Counted(s.workers[who.i]) == 0;
      assert forall k :: 0 <= k < |t.workers| && k != who.i ==> t.workers[k] == s.workers[k];
    }
  }

  lemma {:induction false} DoomLasts(n: nat, b: seq<State>, i: nat, j: nat)
    requires IsRun(n, b) && i <= j < |b| && Doomed(b[i])
    ensures Doomed(b[j])
  {
    hide Next, Inv, Doomed, Init;
    if i < j {
      DoomLasts(n, b, i, j - 1);
      RunInv(n, b, j - 1);
      assert Next(b[j - 1], b[j]);
      NextKeepsDoomed(n, b[j - 1], b[j]);
    }
  }

  /** A parent that sleeps in vain did so before, or has just begun to. */
  lemma DoomStep(n: nat, s: State, t: State)
    requires Inv(n, s) && Next(s, t) && Sleeping(t) && !SignalDue(t)
    ensures (Sleeping(s) || s.parent.PWait?) && !SignalDue(s)
  {
    hide Inv;
    if Sleeping(s) && SignalDue(s) {
      NextKeepsWillFinish(n, s, t);
    }
  }

  /** The state in which it began to wait. */
  lemma {:induction false} DoomBegan(n: nat, b: seq<State>, j: nat) returns (i: nat)
    requires IsRun(n, b) && j < |b| && Sleeping(b[j]) && !SignalDue(b[j])
    ensures i < |b| && b[i].parent == PWait && !SignalDue(b[i])
  {
    hide Inv, Next, SignalDue;
    assert j > 0;
    RunInv(n, b, j - 1);
    assert Next(b[j - 1], b[j]);
    DoomStep(n, b[j - 1], b[j]);
    i := j - 1;
    if Sleeping(b[i]) {
      i := DoomBegan(n, b, i);
    }
  }

  /** Exactly when a run that cannot go on has hung: at some point the parent was about
      to wait although no worker was left to decrement, to test or to signal. */
  lemma HangsExactlyWhen(n: nat, b: seq<State>)
    requires IsRun(n, b) && Stuck(b[|b| - 1])
    ensures !Finished(b[|b| - 1]) <==> exists i :: 0 <= i < |b| && b[i].parent == PWait && !SignalDue(b[i])
  {
    hide Next, Inv, Init;
    var last := |b| - 1;
    RunInv(n, b, last);
    StuckStates(n, b[last]);
    if !Finished(b[last]) {
      var i := DoomBegan(n, b, last);
    } else if i :| 0 <= i < |b| && b[i].parent == PWait && !SignalDue(b[i]) {
      DoomLasts(n, b, i, last);
      assert false;
    }
  }
}
