/** The counter latch of CompilationTest: the main thread counts every worker up
    before it starts it, workers count themselves down, and the main thread waits
    until the count is zero, testing it inside the monitor that guards it.  One
    step is one monitor entry, exit, wait, notify or counter access; spurious
    wakeups are allowed. */
module JavaLatch {
  import Runs
  import opened Tally

  datatype Who = Worker(i: nat) | Main | Spurious
  datatype Lock = Free | HeldBy(who: Who)

  datatype WorkerPc = JNew | JRun | JEnter | JGuard | JDecrement | JZero | JNotify | JExit | JDone
  datatype MainPc =
    | MLoop | MIncrement | MExitIncrement | MStart // count up and start the next worker
    | MEnterWait | MTest | MWait | MAsleep | MExitWait | MDone

  datatype State = State(monitor: Lock, waiting: bool, counter: int, started: nat, workers: seq<WorkerPc>, main: MainPc)

  function NextWorker(started: nat, n: nat): MainPc {
    if started < n then MLoop else MEnterWait
  }

  function Init(n: nat): State {
    State(Free, false, 0, 0, seq(n, _ => JNew), NextWorker(0, n))
  }

  predicate WorkerEnabled(s: State, i: nat)
    requires i < |s.workers|
  {
    match s.workers[i]
    case JNew => false
    case JEnter => s.monitor == Free
    case JDone => false
    case _ => true
  }

  function Goto(s: State, i: nat, pc: WorkerPc): State
    requires i < |s.workers|
  {
    s.(workers := s.workers[i := pc])
  }

  function WorkerApply(s: State, i: nat): State
    requires i < |s.workers| && WorkerEnabled(s, i)
  {
    match s.workers[i]
    case JNew => s
    case JRun => Goto(s, i, JEnter)
    case JEnter => Goto(s, i, JGuard).(monitor := HeldBy(Worker(i)))
    case JGuard => Goto(s, i, if s.counter > 0 then JDecrement else JExit)
    case JDecrement => Goto(s, i, JZero).(counter := s.counter - 1)
    case JZero => Goto(s, i, if s.counter == 0 then JNotify else JExit)
    case JNotify => Goto(s, i, JExit).(waiting := false)
    case JExit => Goto(s, i, JDone).(monitor := Free)
    case JDone => s
  }

  predicate MainEnabled(s: State) {
    match s.main
    case MLoop => s.monitor == Free
    case MStart => s.started < |s.workers|
    case MEnterWait => s.monitor == Free
    case MAsleep => !s.waiting && s.monitor == Free
    case MDone => false
    case _ => true
  }

  function MainApply(s: State): State
    requires MainEnabled(s)
  {
    match s.main
    case MLoop => s.(main := MIncrement, monitor := HeldBy(Main))
    case MIncrement => s.(main := MExitIncrement, counter := s.counter + 1)
    case MExitIncrement => s.(main := MStart, monitor := Free)
    case MStart =>
      Goto(s, s.started, JRun).(started := s.started + 1, main := NextWorker(s.started + 1, |s.workers|))
    case MEnterWait => s.(main := MTest, monitor := HeldBy(Main))
    case MTest => s.(main := if s.counter > 0 then MWait else MExitWait)
    case MWait => s.(main := MAsleep, monitor := Free, waiting := true)
    case MAsleep => s.(main := MTest, monitor := HeldBy(Main))
    case MExitWait => s.(main := MDone, monitor := Free)
    case MDone => s
  }

  predicate Enabled(s: State, who: Who) {
    match who
    case Worker(i) => i < |s.workers| && WorkerEnabled(s, i)
    case Main => MainEnabled(s)
    case Spurious => s.waiting
  }

  function Apply(s: State, who: Who): State
    requires Enabled(s, who)
  {
    match who
    case Worker(i) => WorkerApply(s, i)
    case Main => MainApply(s)
    case Spurious => s.(waiting := false)
  }

  ghost predicate Next(s: State, t: State) {
    exists who :: Enabled(s, who) && t == Apply(s, who)
  }

  ghost predicate Reachable(n: nat, s: State) {
    Runs.Reachable(r => r == Init(n), (r, t) => Next(r, t), s)
  }

  /** No thread can move of its own accord. */
  ghost predicate Stuck(s: State) {
    forall who :: who != Spurious ==> !Enabled(s, who)
  }

  predicate Finished(s: State) {
    s.main == MDone && forall i :: 0 <= i < |s.workers| ==> s.workers[i] == JDone
  }

  // ------------------------------------------------------- the inductive invariant

  predicate WorkerHolds(pc: WorkerPc) { pc.JGuard? || pc.JDecrement? || pc.JZero? || pc.JNotify? || pc.JExit? }

  predicate MainHolds(pc: MainPc) {
    pc.MIncrement? || pc.MExitIncrement? || pc.MTest? || pc.MWait? || pc.MExitWait?
  }

  /** Started and not yet counted down. */
  function Pending(pc: WorkerPc): nat {
    if pc.JRun? || pc.JEnter? || pc.JGuard? || pc.JDecrement? then 1 else 0
  }

  /** Counted up and not yet started. */
  function InHand(pc: MainPc): nat {
    if pc.MExitIncrement? || pc.MStart? then 1 else 0
  }

  predicate Starting(pc: MainPc) { pc.MLoop? || pc.MIncrement? || pc.MExitIncrement? || pc.MStart? }

  predicate WorkerInv(s: State, i: nat)
    requires i < |s.workers|
  {
    && (s.monitor == HeldBy(Worker(i)) <==> WorkerHolds(s.workers[i]))
    && (s.workers[i].JNew? <==> s.started <= i)
    && (s.workers[i].JNotify? ==> s.counter == 0)
  }

  predicate AboutToNotify(s: State) {
    && s.monitor.HeldBy? && s.monitor.who.Worker? && s.monitor.who.i < |s.workers|
    && (s.workers[s.monitor.who.i].JZero? || s.workers[s.monitor.who.i].JNotify?)
  }

  predicate MainInv(s: State) {
    && (s.monitor == HeldBy(Main) <==> MainHolds(s.main))
    && (Starting(s.main) <==> s.started < |s.workers|)
    && s.started <= |s.workers|
    && (s.waiting ==> s.main.MAsleep? && (s.counter > 0 || AboutToNotify(s)))
    && (s.main.MWait? ==> s.counter > 0)
    && (s.main.MExitWait? || s.main.MDone? ==> s.counter == 0)
  }

  predicate Inv(n: nat, s: State) {
    && |s.workers| == n
    && s.counter == Total(s.workers, Pending) + InHand(s.main)
    && MainInv(s)
    && s.monitor != HeldBy(Spurious)
    && (s.monitor.HeldBy? && s.monitor.who.Worker? ==> s.monitor.who.i < n)
    && (forall i: nat :: i < n ==> WorkerInv(s, i))
  }

  lemma InitInv(n: nat)
    ensures Inv(n, Init(n))
  {
    TotalOfEquals(Init(n).workers, Pending, 0);
  }

  lemma PendingBounds(n: nat, s: State)
    requires Inv(n, s)
    ensures InHand(s.main) <= s.counter <= n + InHand(s.main)
    ensures s.counter == InHand(s.main) <==> forall i :: 0 <= i < n ==> Pending(s.workers[i]) == 0
  {
    TotalBounds(s.workers, Pending);
  }

  lemma WorkerKeepsInv(n: nat, s: State, i: nat)
    requires Inv(n, s) && i < n && WorkerEnabled(s, i)
    ensures Inv(n, WorkerApply(s, i))
  {
    var t := WorkerApply(s, i);
    TotalUpdate(s.workers, Pending, i, t.workers[i]);
    assert WorkerInv(s, i);
    PendingBounds(n, s);
    assert WorkerHolds(s.workers[i]) && Pending(s.workers[i]) == 1 ==> s.counter > 0;
    forall j: nat | j < n ensures WorkerInv(t, j) {
      assert WorkerInv(s, j);
    }
  }

  lemma MainKeepsInv(n: nat, s: State)
    requires Inv(n, s) && MainEnabled(s)
    ensures Inv(n, MainApply(s))
  {
    var t := MainApply(s);
    if s.main.MStart? {
      TotalUpdate(s.workers, Pending, s.started, JRun);
      assert WorkerInv(s, s.started);
    }
    PendingBounds(n, s);
    forall j: nat | j < n ensures WorkerInv(t, j) {
      assert WorkerInv(s, j);
    }
  }

  lemma NextKeepsInv(n: nat, s: State, t: State)
    requires Inv(n, s) && Next(s, t)
    ensures Inv(n, t)
  {
    var who :| Enabled(s, who) && t == Apply(s, who);
    match who {
      case Worker(i) => WorkerKeepsInv(n, s, i);
      case Main => MainKeepsInv(n, s);
      case Spurious =>
        forall j: nat | j < n ensures WorkerInv(t, j) { assert WorkerInv(s, j); }
    }
  }

  lemma ReachableInv(n: nat, s: State)
    requires Reachable(n, s)
    ensures Inv(n, s)
  {
    var init, next := (r: State) => r == Init(n), (r: State, t: State) => Next(r, t);
    var b: seq<State> :| Runs.IsRun(init, next, b) && b[|b| - 1] == s;
    InitInv(n);
    forall r, t | Inv(n, r) && Next(r, t) ensures Inv(n, t) { NextKeepsInv(n, r, t); }
    Runs.InvariantHolds(init, next, (r: State) => Inv(n, r), b, |b| - 1);
  }

  // ------------------------------------------------------------------ main results

  /** The latch returns only when every worker was started and has counted itself
      down, the counter never goes negative, and the guard of the decrement never
      finds a zero counter. */
  lemma LatchWaitsForEveryWorker(n: nat, s: State)
    requires Reachable(n, s)
    ensures |s.workers| == n && 0 <= s.counter <= n
    ensures s.main.MDone? ==> s.started == n && s.counter == 0
    ensures s.main.MDone? ==> forall i :: 0 <= i < n ==> !s.workers[i].JNew? && Pending(s.workers[i]) == 0
    ensures forall i :: 0 <= i < n && s.workers[i].JGuard? ==> s.counter > 0
  {
    ReachableInv(n, s);
    PendingBounds(n, s);
    CounterAtMost(n, s);
    forall i: nat | i < n ensures s.workers[i].JNew? <==> s.started <= i { assert WorkerInv(s, i); }
  }

  /** A counted-up worker in the main thread's hand is one not yet started. */
  lemma CounterAtMost(n: nat, s: State)
    requires Inv(n, s)
    ensures s.counter <= n
  {
    TotalBounds(s.workers, Pending);
    if InHand(s.main) == 1 {
      assert WorkerInv(s, s.started) && Pending(s.workers[s.started]) == 0;
    }
  }

  /** No lost notification: a reachable state in which no thread can move of its
      own accord is the finished one. */
  lemma StuckExactlyWhenFinished(n: nat, s: State)
    requires Reachable(n, s)
    ensures Stuck(s) <==> Finished(s)
  {
    ReachableInv(n, s);
    if Stuck(s) {
      if s.monitor.HeldBy? {
        if s.monitor.who.Worker? {
          assert WorkerInv(s, s.monitor.who.i);
        }
        assert Enabled(s, s.monitor.who);
      }
      assert !Enabled(s, Main);
      PendingBounds(n, s);
      forall i: nat | i < n ensures s.workers[i] == JDone {
        assert WorkerInv(s, i) && !Enabled(s, Worker(i));
      }
    }
  }

  // ----------------------------------------------------------------- bounded work

  function WorkerLeft(pc: WorkerPc): nat {
    match pc
    case JNew => 8
    case JRun => 7
    case JEnter => 6
    case JGuard => 5
    case JDecrement => 4
    case JZero => 3
    case JNotify => 2
    case JExit => 1
    case JDone => 0
  }

  /** Steps the main thread can still take if nothing wakes it in vain. */
  function MainLeft(s: State): int {
    var toStart := 4 * (|s.workers| - s.started);
    match s.main
    case MLoop => 6 + toStart
    case MIncrement => 5 + toStart
    case MExitIncrement => 4 + toStart
    case MStart => 3 + toStart
    case MEnterWait => 6
    case MTest => if s.counter > 0 then 5 else 2
    case MWait => 4
    case MAsleep => if !s.waiting && s.counter > 0 then 6 else 3
    case MExitWait => 1
    case MDone => 0
  }

  function Left(s: State): int {
    Total(s.workers, WorkerLeft) + MainLeft(s)
  }

  predicate IsSpurious(s: State, t: State) {
    s.waiting && t == s.(waiting := false)
  }

  lemma WorkerMovesOn(s: State, i: nat)
    requires i < |s.workers| && WorkerEnabled(s, i)
    ensures var t := WorkerApply(s, i);
            t.workers == s.workers[i := t.workers[i]] && WorkerLeft(t.workers[i]) < WorkerLeft(s.workers[i])
  {
  }

  /** No worker's step gives the main thread more to do. */
  lemma WorkerKeepsMainLeft(n: nat, s: State, i: nat)
    requires Inv(n, s) && i < n && WorkerEnabled(s, i)
    ensures MainLeft(WorkerApply(s, i)) <= MainLeft(s)
  {
    assert WorkerInv(s, i);
  }

  lemma WorkerStepDrops(n: nat, s: State, i: nat)
    requires Inv(n, s) && i < n && WorkerEnabled(s, i)
    ensures Left(WorkerApply(s, i)) < Left(s) && !IsSpurious(s, WorkerApply(s, i))
  {
    assert |s.workers| == n;
    WorkerKeepsMainLeft(n, s, i);
    WorkerMovesOn(s, i);
    hide Inv, MainLeft, Total, WorkerApply;
    TotalUpdate(s.workers, WorkerLeft, i, WorkerApply(s, i).workers[i]);
  }

  lemma MainStepDrops(n: nat, s: State)
    requires Inv(n, s) && MainEnabled(s)
    ensures Left(MainApply(s)) < Left(s) && !IsSpurious(s, MainApply(s))
  {
    hide Total;
    if s.main.MStart? {
      assert WorkerInv(s, s.started);
      TotalUpdate(s.workers, WorkerLeft, s.started, JRun);
    }
  }

  lemma SpuriousStepCosts(n: nat, s: State)
    requires Inv(n, s) && s.waiting
    ensures Left(s.(waiting := false)) <= Left(s) + 3
  {
    hide Total;
  }

  lemma StepDrops(n: nat, s: State, t: State)
    requires Inv(n, s) && Next(s, t)
    ensures if IsSpurious(s, t) then Left(t) <= Left(s) + 3 else Left(t) < Left(s)
  {
    var who :| Enabled(s, who) && t == Apply(s, who);
    match who {
      case Worker(i) => WorkerStepDrops(n, s, i);
      case Main => MainStepDrops(n, s);
      case Spurious => SpuriousStepCosts(n, s);
    }
  }

  lemma LeftIsNat(n: nat, s: State)
    requires Inv(n, s)
    ensures 0 <= Left(s)
  {
  }

  function SpuriousSteps(b: seq<State>): nat {
    if |b| <= 1 then 0
    else SpuriousSteps(b[..|b| - 1]) + if IsSpurious(b[|b| - 2], b[|b| - 1]) then 1 else 0
  }

  lemma {:induction false} StepsUseUpLeft(n: nat, b: seq<State>)
    requires Runs.IsRun(r => r == Init(n), (r, t) => Next(r, t), b)
    ensures Inv(n, b[|b| - 1])
    ensures |b| - 1 + Left(b[|b| - 1]) <= 12 * n + 6 + 4 * SpuriousSteps(b)
  {
    var last := |b| - 1;
    if last == 0 {
      InitInv(n);
      TotalOfEquals(Init(n).workers, WorkerLeft, 8);
    } else {
      hide Inv, Left, Next, IsSpurious;
      assert b[..last][last - 1] == b[last - 1];
      StepsUseUpLeft(n, b[..last]);
      NextKeepsInv(n, b[last - 1], b[last]);
      StepDrops(n, b[last - 1], b[last]);
    }
  }

  /** Termination: a run takes at most 12*n + 6 steps and four more for every spurious
      wakeup, the wakeup itself and the re-test it causes. */
  lemma StepsAreBounded(n: nat, b: seq<State>)
    requires Runs.IsRun(r => r == Init(n), (r, t) => Next(r, t), b)
    ensures |b| - 1 <= 12 * n + 6 + 4 * SpuriousSteps(b)
  {
    StepsUseUpLeft(n, b);
    LeftIsNat(n, b[|b| - 1]);
  }
}
