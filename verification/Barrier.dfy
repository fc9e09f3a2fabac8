/** The gather / broadcast / drain barrier of the multi-thread and
    thread-priority tests.  Any number of workers raise a counter and wait on the
    gate; the parent polls the counter, broadcasts, and then waits for the counter
    to come down to zero, testing it outside the mutex that guards it.  One step
    of the model is one lock, unlock, wait, signal, broadcast or counter access. */
module Barrier {
  import Runs
  import opened Tally

  datatype Who = Worker(i: nat) | Parent
  datatype Lock = Free | HeldBy(who: Who)

  datatype WorkerPc =
    | WLockGate | WIncrement | WWaitGate | WAsleep | WUnlockGate // lock_inc_counter
    | WWork                                                      // the timed work
    | WLockAgain | WDecrement | WTest                            // lock_dec_counter
    | WLockSema | WSignalSema | WUnlockSema | WUnlockAgain | WDone

  datatype ParentPc =
    | PPoll | PLockSema | PTimedWait | PTimedAsleep | PUnlockSema // gather
    | PLockGate | PBroadcast | PUnlockGate                        // broadcast
    | PTest | PLockDrain | PWait | PAsleep | PUnlockDrain | PDone // drain

  datatype State = State(
    gate: Lock, gateWait: set<nat>, // tsyncers: mutex and the workers waiting on its condition
    sema: Lock, asleep: bool,       // parent_sema: mutex and whether the parent waits on its condition
    counter: int,
    workers: seq<WorkerPc>, parent: ParentPc)

  function Init(n: nat): State {
    State(Free, {}, Free, false, 0, seq(n, _ => WLockGate), PPoll)
  }

  predicate WorkerEnabled(s: State, i: nat)
    requires i < |s.workers|
  {
    match s.workers[i]
    case WLockGate => s.gate == Free
    case WAsleep => i !in s.gateWait && s.gate == Free
    case WLockAgain => s.gate == Free
    case WLockSema => s.sema == Free
    case WDone => false
    case _ => true
  }

  /** Worker `i` moves to `pc`. */
  function Goto(s: State, i: nat, pc: WorkerPc): State
    requires i < |s.workers|
  {
    s.(workers := s.workers[i := pc])
  }

  function WorkerApply(s: State, i: nat): State
    requires i < |s.workers| && WorkerEnabled(s, i)
  {
    match s.workers[i]
    case WLockGate => Goto(s, i, WIncrement).(gate := HeldBy(Worker(i)))
    case WIncrement => Goto(s, i, WWaitGate).(counter := s.counter + 1)
    case WWaitGate => Goto(s, i, WAsleep).(gate := Free, gateWait := s.gateWait + {i})
    case WAsleep => Goto(s, i, WUnlockGate).(gate := HeldBy(Worker(i)))
    case WUnlockGate => Goto(s, i, WWork).(gate := Free)
    case WWork => Goto(s, i, WLockAgain)
    case WLockAgain => Goto(s, i, WDecrement).(gate := HeldBy(Worker(i)))
    case WDecrement => Goto(s, i, WTest).(counter := s.counter - 1)
    case WTest => Goto(s, i, if s.counter == 0 then WLockSema else WUnlockAgain)
    case WLockSema => Goto(s, i, WSignalSema).(sema := HeldBy(Worker(i)))
    case WSignalSema => Goto(s, i, WUnlockSema).(asleep := false)
    case WUnlockSema => Goto(s, i, WUnlockAgain).(sema := Free)
    case WUnlockAgain => Goto(s, i, WDone).(gate := Free)
    case WDone => s
  }

  predicate ParentEnabled(s: State) {
    match s.parent
    case PLockSema => s.sema == Free
    case PTimedAsleep => s.sema == Free // the deadline has long passed
    case PLockGate => s.gate == Free
    case PLockDrain => s.sema == Free
    case PAsleep => !s.asleep && s.sema == Free
    case PDone => false
    case _ => true
  }

  function ParentApply(s: State): State
    requires ParentEnabled(s)
  {
    match s.parent
    case PPoll => s.(parent := if s.counter != |s.workers| then PLockSema else PLockGate)
    case PLockSema => s.(parent := PTimedWait, sema := HeldBy(Parent))
    case PTimedWait => s.(parent := PTimedAsleep, sema := Free, asleep := true)
    case PTimedAsleep => s.(parent := PUnlockSema, sema := HeldBy(Parent), asleep := false)
    case PUnlockSema => s.(parent := PPoll, sema := Free)
    case PLockGate => s.(parent := PBroadcast, gate := HeldBy(Parent))
    case PBroadcast => s.(parent := PUnlockGate, gateWait := {})
    case PUnlockGate => s.(parent := PTest, gate := Free)
    case PTest => s.(parent := if s.counter != 0 then PLockDrain else PDone)
    case PLockDrain => s.(parent := PWait, sema := HeldBy(Parent))
    case PWait => s.(parent := PAsleep, sema := Free, asleep := true)
    case PAsleep => s.(parent := PUnlockDrain, sema := HeldBy(Parent))
    case PUnlockDrain => s.(parent := PTest, sema := Free)
    case PDone => s
  }

  predicate Enabled(s: State, who: Who) {
    match who
    case Worker(i) => i < |s.workers| && WorkerEnabled(s, i)
    case Parent => ParentEnabled(s)
  }

  function Apply(s: State, who: Who): State
    requires Enabled(s, who)
  {
    match who
    case Worker(i) => WorkerApply(s, i)
    case Parent => ParentApply(s)
  }

  ghost predicate Next(s: State, t: State) {
    exists who :: Enabled(s, who) && t == Apply(s, who)
  }

  ghost predicate Reachable(n: nat, s: State) {
    Runs.Reachable(r => r == Init(n), (r, t) => Next(r, t), s)
  }

  ghost predicate Stuck(s: State) {
    forall who :: !Enabled(s, who)
  }

  predicate AllDone(s: State) {
    forall i :: 0 <= i < |s.workers| ==> s.workers[i] == WDone
  }

  predicate Finished(s: State) {
    s.parent == PDone && AllDone(s)
  }

  /** The parent went to sleep after the last worker's signal: nobody is left to wake it. */
  predicate MissedTheSignal(s: State) {
    s.parent == PAsleep && s.asleep && s.counter == 0 && AllDone(s)
  }

  // ------------------------------------------------------- the inductive invariant

  predicate WorkerHoldsGate(pc: WorkerPc) {
    || pc.WIncrement? || pc.WWaitGate? || pc.WUnlockGate? || pc.WDecrement? || pc.WTest?
    || pc.WLockSema? || pc.WSignalSema? || pc.WUnlockSema? || pc.WUnlockAgain?
  }

  predicate WorkerHoldsSema(pc: WorkerPc) { pc.WSignalSema? || pc.WUnlockSema? }

  predicate ParentHoldsGate(pc: ParentPc) { pc.PBroadcast? || pc.PUnlockGate? }

  predicate ParentHoldsSema(pc: ParentPc) { pc.PTimedWait? || pc.PUnlockSema? || pc.PWait? || pc.PUnlockDrain? }

  /** Between its increment and its decrement. */
  function Counted(pc: WorkerPc): nat {
    if pc.WWaitGate? || pc.WAsleep? || pc.WUnlockGate? || pc.WWork? || pc.WLockAgain? || pc.WDecrement? then 1 else 0
  }

  /** Not yet on the wait set of the gate. */
  predicate Arriving(pc: WorkerPc) { pc.WLockGate? || pc.WIncrement? || pc.WWaitGate? }

  /** About to notify the parent. */
  predicate Notifying(pc: WorkerPc) { pc.WLockSema? || pc.WSignalSema? || pc.WUnlockSema? }

  predicate BeforeBroadcast(pc: ParentPc) {
    || pc.PPoll? || pc.PLockSema? || pc.PTimedWait? || pc.PTimedAsleep? || pc.PUnlockSema?
    || pc.PLockGate? || pc.PBroadcast?
  }

  predicate WorkerInv(s: State, i: nat)
    requires i < |s.workers|
  {
    var pc := s.workers[i];
    && (s.gate == HeldBy(Worker(i)) <==> WorkerHoldsGate(pc))
    && (s.sema == HeldBy(Worker(i)) <==> WorkerHoldsSema(pc))
    && (i in s.gateWait ==> pc.WAsleep?)
    && (if BeforeBroadcast(s.parent) then Arriving(pc) || (pc.WAsleep? && i in s.gateWait)
        else !Arriving(pc) && i !in s.gateWait)
    && (Notifying(pc) ==> s.counter == 0)
  }

  predicate ParentInv(s: State) {
    && (s.gate == HeldBy(Parent) <==> ParentHoldsGate(s.parent))
    && (s.sema == HeldBy(Parent) <==> ParentHoldsSema(s.parent))
    && (s.asleep ==> s.parent.PTimedAsleep? || s.parent.PAsleep?)
    && (s.parent.PLockGate? || s.parent.PBroadcast? ==> s.counter == |s.workers|)
    && (s.parent.PDone? || s.parent.PUnlockDrain? || (s.parent.PAsleep? && !s.asleep) ==> s.counter == 0)
  }

  predicate Inv(n: nat, s: State) {
    && |s.workers| == n
    && s.counter == Total(s.workers, Counted)
    && ParentInv(s)
    && (s.gate.HeldBy? && s.gate.who.Worker? ==> s.gate.who.i < n)
    && (s.sema.HeldBy? && s.sema.who.Worker? ==> s.sema.who.i < n)
    && (forall i :: i in s.gateWait ==> i < n)
    && (forall i: nat :: i < n ==> WorkerInv(s, i))
  }

  lemma InitInv(n: nat)
    ensures Inv(n, Init(n))
  {
    TotalOfEquals(Init(n).workers, Counted, 0);
  }

  /** The counter is the number of workers between increment and decrement. */
  lemma CounterIsBounded(n: nat, s: State)
    requires Inv(n, s)
    ensures 0 <= s.counter <= n
    ensures s.counter == 0 <==> forall i :: 0 <= i < n ==> Counted(s.workers[i]) == 0
    ensures s.counter == n <==> forall i :: 0 <= i < n ==> Counted(s.workers[i]) == 1
  {
    TotalBounds(s.workers, Counted);
  }

  /** The step of worker `i` leaves what is known of worker `j` intact. */
  lemma OtherWorkerKeepsInv(n: nat, s: State, i: nat, j: nat)
    requires Inv(n, s) && i < n && j < n && i != j && WorkerEnabled(s, i)
    ensures WorkerInv(WorkerApply(s, i), j)
  {
    assert WorkerInv(s, i) && WorkerInv(s, j);
    assert WorkerApply(s, i).workers[j] == s.workers[j];
  }

  lemma MovingWorkerKeepsInv(n: nat, s: State, i: nat)
    requires Inv(n, s) && i < n && WorkerEnabled(s, i)
    ensures WorkerInv(WorkerApply(s, i), i)
  {
    assert WorkerInv(s, i);
  }

  lemma WorkerKeepsParentInv(n: nat, s: State, i: nat)
    requires Inv(n, s) && i < n && WorkerEnabled(s, i)
    ensures ParentInv(WorkerApply(s, i))
  {
    assert WorkerInv(s, i);
    CounterIsBounded(n, s);
    if s.workers[i].WIncrement? || s.workers[i].WDecrement? {
      assert Counted(s.workers[i]) == if s.workers[i].WDecrement? then 1 else 0;
    }
  }

  lemma WorkerKeepsCount(n: nat, s: State, i: nat)
    requires Inv(n, s) && i < n && WorkerEnabled(s, i)
    ensures WorkerApply(s, i).counter == Total(WorkerApply(s, i).workers, Counted)
  {
    TotalUpdate(s.workers, Counted, i, WorkerApply(s, i).workers[i]);
  }

  lemma WorkerKeepsInv(n: nat, s: State, i: nat)
    requires Inv(n, s) && i < n && WorkerEnabled(s, i)
    ensures Inv(n, WorkerApply(s, i))
  {
    forall j: nat | j < n ensures WorkerInv(WorkerApply(s, i), j) {
      if j == i {
        MovingWorkerKeepsInv(n, s, i);
      } else {
        OtherWorkerKeepsInv(n, s, i, j);
      }
    }
    WorkerKeepsParentInv(n, s, i);
    WorkerKeepsCount(n, s, i);
  }

  lemma ParentKeepsWorkerInv(n: nat, s: State, j: nat)
    requires Inv(n, s) && ParentEnabled(s) && j < n
    ensures WorkerInv(ParentApply(s), j)
  {
    assert WorkerInv(s, j);
    CounterIsBounded(n, s);
  }

  lemma ParentKeepsParentInv(n: nat, s: State)
    requires Inv(n, s) && ParentEnabled(s)
    ensures ParentInv(ParentApply(s))
  {
  }

  lemma ParentKeepsInv(n: nat, s: State)
    requires Inv(n, s) && ParentEnabled(s)
    ensures Inv(n, ParentApply(s))
  {
    forall j: nat | j < n ensures WorkerInv(ParentApply(s), j) {
      ParentKeepsWorkerInv(n, s, j);
    }
    ParentKeepsParentInv(n, s);
  }

  lemma NextKeepsInv(n: nat, s: State, t: State)
    requires Inv(n, s) && Next(s, t)
    ensures Inv(n, t)
  {
    var who :| Enabled(s, who) && t == Apply(s, who);
    match who {
      case Worker(i) => WorkerKeepsInv(n, s, i);
      case Parent => ParentKeepsInv(n, s);
    }
  }

  lemma ReachableInv(n: nat, s: State)
    requires Reachable(n, s)
    ensures Inv(n, s)
  {
    var init, next := (r: State) => r == Init(n), (r: State, t: State) => Next(r, t);
    var b: seq<State> :| Runs.IsRun(init, next, b) && b[|b| - 1] == s;
    InitInv(n);
    forall r, t | Inv(n, r) && Next(r, t) ensures Inv(n, t) { NextKeepsInv(n, r, t); }
    Runs.InvariantHolds(init, next, (r: State) => Inv(n, r), b, |b| - 1);
  }

  // ------------------------------------------------------------------ main results

  /** Release: when the parent broadcasts, the wait set is all the workers,
      including the one whose increment its unlocked read has just seen. */
  lemma BroadcastReachesEveryWorker(n: nat, s: State)
    requires Reachable(n, s) && s.parent.PBroadcast?
    ensures |s.workers| == n
    ensures forall i: nat :: i < n <==> i in s.gateWait
    ensures forall i: nat :: i < n ==> s.workers[i].WAsleep?
  {
    ReachableInv(n, s);
    CounterIsBounded(n, s);
    forall i: nat | i < n ensures i in s.gateWait && s.workers[i].WAsleep? {
      assert WorkerInv(s, i) && Counted(s.workers[i]) == 1;
    }
  }

  /** No worker starts its timed work before all have arrived, and once one has
      started none is left on the wait set. */
  lemma NobodyStartsEarly(n: nat, s: State, i: nat)
    requires Reachable(n, s) && i < |s.workers|
    requires !Arriving(s.workers[i]) && !s.workers[i].WAsleep?
    ensures s.gateWait == {}
    ensures |s.workers| == n && forall j :: 0 <= j < n ==> !Arriving(s.workers[j])
  {
    ReachableInv(n, s);
    assert WorkerInv(s, i);
    forall j: nat | j < n ensures !Arriving(s.workers[j]) && j !in s.gateWait { assert WorkerInv(s, j); }
  }

  /** Conservation: the counter is arrivals less departures, so it stays within
      [0, n]; the parent leaves the drain loop only after every worker has
      decremented, and then the counter is zero again. */
  lemma CounterIsConserved(n: nat, s: State)
    requires Reachable(n, s)
    ensures |s.workers| == n && s.counter == Total(s.workers, Counted)
    ensures 0 <= s.counter <= n
    ensures s.parent.PDone? ==>
              s.counter == 0 && forall i :: 0 <= i < n ==> !Arriving(s.workers[i]) && Counted(s.workers[i]) == 0
  {
    ReachableInv(n, s);
    CounterIsBounded(n, s);
    forall i: nat | i < n ensures BeforeBroadcast(s.parent) || !Arriving(s.workers[i]) { assert WorkerInv(s, i); }
  }

  /** A thread that holds a mutex can move, or waits for one whose holder can. */
  lemma HeldMutexMoves(n: nat, s: State)
    requires Inv(n, s) && (s.gate != Free || s.sema != Free)
    ensures !Stuck(s)
  {
    if s.sema != Free {
      var who := s.sema.who;
      if who.Worker? {
        assert WorkerInv(s, who.i);
      }
      assert Enabled(s, who);
    } else {
      var who := s.gate.who;
      if who.Worker? {
        assert WorkerInv(s, who.i);
      }
      assert Enabled(s, who);
    }
  }

  lemma StuckStates(n: nat, s: State)
    requires Inv(n, s) && Stuck(s)
    ensures Finished(s) || MissedTheSignal(s)
  {
    if s.gate != Free || s.sema != Free {
      HeldMutexMoves(n, s);
    }
    assert !Enabled(s, Parent);
    CounterIsBounded(n, s);
    forall i: nat | i < n ensures s.workers[i] == WDone {
      assert WorkerInv(s, i) && !Enabled(s, Worker(i));
    }
  }

  /** The stuck states, for every number of workers: a reachable state in which no
      thread can move is either fully finished, or has counter 0, every worker done
      and the parent asleep after missing the only signal. */
  lemma StuckExactlyWhen(n: nat, s: State)
    requires Reachable(n, s)
    ensures Stuck(s) <==> Finished(s) || MissedTheSignal(s)
  {
    ReachableInv(n, s);
    if Stuck(s) {
      StuckStates(n, s);
    }
  }

  // ----------------------------------------------------------------- bounded work

  function WorkerLeft(pc: WorkerPc): nat {
    match pc
    case WLockGate => 13
    case WIncrement => 12
    case WWaitGate => 11
    case WAsleep => 10
    case WUnlockGate => 9
    case WWork => 8
    case WLockAgain => 7
    case WDecrement => 6
    case WTest => 5
    case WLockSema => 4
    case WSignalSema => 3
    case WUnlockSema => 2
    case WUnlockAgain => 1
    case WDone => 0
  }

  predicate Polling(pc: ParentPc) {
    pc.PPoll? || pc.PLockSema? || pc.PTimedWait? || pc.PTimedAsleep? || pc.PUnlockSema?
  }

  function ParentLeft(s: State): nat {
    match s.parent
    case PLockGate => 9
    case PBroadcast => 8
    case PUnlockGate => 7
    case PTest => if s.counter == 0 then 1 else 6
    case PLockDrain => 5
    case PWait => 4
    case PAsleep => 3
    case PUnlockDrain => 2
    case PDone => 0
    case _ => 10
  }

  function Rank(s: State): nat {
    Total(s.workers, WorkerLeft) + ParentLeft(s)
  }

  /** A step inside the parent's gather loop, which moves no worker. */
  predicate IsPoll(s: State, t: State) {
    Polling(s.parent) && Polling(t.parent) && s.workers == t.workers
  }

  lemma WorkerMovesOn(s: State, i: nat)
    requires i < |s.workers| && WorkerEnabled(s, i)
    ensures var t := WorkerApply(s, i);
            t.workers == s.workers[i := t.workers[i]] && WorkerLeft(t.workers[i]) < WorkerLeft(s.workers[i])
  {
  }

  lemma WorkerStepDropsRank(n: nat, s: State, i: nat)
    requires Inv(n, s) && i < n && WorkerEnabled(s, i)
    ensures WorkerApply(s, i).workers != s.workers && Rank(WorkerApply(s, i)) < Rank(s)
  {
    assert |s.workers| == n;
    hide Total, Inv, ParentLeft;
    var t := WorkerApply(s, i);
    WorkerMovesOn(s, i);
    TotalUpdate(s.workers, WorkerLeft, i, t.workers[i]);
    WorkerKeepsParentLeft(n, s, i);
  }

  lemma WorkerKeepsParentLeft(n: nat, s: State, i: nat)
    requires Inv(n, s) && i < n && WorkerEnabled(s, i)
    ensures ParentLeft(WorkerApply(s, i)) <= ParentLeft(s)
  {
    assert WorkerInv(s, i);
    CounterIsBounded(n, s);
    assert s.workers[i].WDecrement? ==> Counted(s.workers[i]) == 1;
  }

  lemma ParentStepDropsRank(n: nat, s: State)
    requires Inv(n, s) && ParentEnabled(s)
    ensures if IsPoll(s, ParentApply(s)) then Rank(ParentApply(s)) == Rank(s) else Rank(ParentApply(s)) < Rank(s)
  {
  }

  lemma StepDropsRank(n: nat, s: State, t: State)
    requires Inv(n, s) && Next(s, t)
    ensures if IsPoll(s, t) then Rank(t) == Rank(s) else Rank(t) < Rank(s)
  {
    var who :| Enabled(s, who) && t == Apply(s, who);
    match who {
      case Worker(i) => WorkerStepDropsRank(n, s, i);
      case Parent => ParentStepDropsRank(n, s);
    }
  }

  /** Steps of a run outside the parent's gather loop. */
  function WorkSteps(b: seq<State>): nat {
    if |b| <= 1 then 0
    else WorkSteps(b[..|b| - 1]) + if IsPoll(b[|b| - 2], b[|b| - 1]) then 0 else 1
  }

  /** However the threads are interleaved, at most 13*n + 10 steps of a run lie
      outside the parent's gather loop: the only way to run forever is to poll. */
  lemma {:induction false} WorkStepsAreBounded(n: nat, b: seq<State>)
    requires Runs.IsRun(r => r == Init(n), (r, t) => Next(r, t), b)
    ensures Inv(n, b[|b| - 1])
    ensures WorkSteps(b) + Rank(b[|b| - 1]) <= 13 * n + 10
  {
    var last := |b| - 1;
    if last == 0 {
      InitInv(n);
      TotalOfEquals(Init(n).workers, WorkerLeft, 13);
    } else {
      assert b[..last][last - 1] == b[last - 1];
      WorkStepsAreBounded(n, b[..last]);
      var s, t := b[last - 1], b[last];
      assert Next(s, t);
      NextKeepsInv(n, s, t);
      StepDropsRank(n, s, t);
    }
  }
}
