/** The drain half of the barrier really can miss its signal: for every positive
    number of workers there is a schedule that ends with the parent asleep and
    nobody left to wake it. */
module BarrierLostSignal {
  import Runs
  import opened Barrier

  lemma StartIsReachable(n: nat)
    ensures Reachable(n, Init(n))
  {
    assert Runs.IsRun(r => r == Init(n), (r, t) => Next(r, t), [Init(n)]);
  }

  /** One more step of a reachable state. */
  lemma Advance(n: nat, s: State, who: Who) returns (t: State)
    requires Reachable(n, s) && Enabled(s, who)
    ensures t == Apply(s, who) && Reachable(n, t)
  {
    t := Apply(s, who);
    assert Next(s, t);
    Runs.OneMoreStep(r => r == Init(n), (r, u) => Next(r, u), s, t);
  }

  function UpTo(k: nat): (r: set<nat>)
    ensures forall i: nat :: i in r <==> i < k
  {
    if k == 0 then {} else UpTo(k - 1) + {k - 1}
  }

  /** The first `k` workers wait on the gate, the others have not moved. */
  function Gathered(n: nat, k: nat): State
    requires k <= n
  {
    Init(n).(gateWait := UpTo(k), counter := k,
             workers := seq(n, i => if i < k then WAsleep else WLockGate))
  }

  lemma {:induction false} WorkersGather(n: nat, k: nat)
    requires k <= n
    ensures Reachable(n, Gathered(n, k))
  {
    if k == 0 {
      StartIsReachable(n);
      assert Gathered(n, 0) == Init(n);
    } else {
      WorkersGather(n, k - 1);
      var i := k - 1;
      var s := Advance(n, Gathered(n, i), Worker(i));
      s := Advance(n, s, Worker(i));
      s := Advance(n, s, Worker(i));
      assert s.workers == Gathered(n, k).workers;
      assert s.gateWait == Gathered(n, k).gateWait;
    }
  }

  /** The parent has broadcast and has just seen a non-zero counter; the first `k`
      workers have come and gone, the others are woken but have not moved. */
  function Draining(n: nat, k: nat): State
    requires k <= n
  {
    State(Free, {}, Free, false, n - k, seq(n, i => if i < k then WDone else WAsleep), PLockDrain)
  }

  lemma ParentSeesTheFullCounter(n: nat)
    requires 0 < n
    ensures Reachable(n, Draining(n, 0))
  {
    WorkersGather(n, n);
    var s := Advance(n, Gathered(n, n), Parent);
    s := Advance(n, s, Parent);
    s := Advance(n, s, Parent);
    s := Advance(n, s, Parent);
    s := Advance(n, s, Parent);
    assert s.workers == Draining(n, 0).workers;
  }

  /** Worker `k` reacquires the gate and is about to take its decrement. */
  lemma WorkerWorks(n: nat, k: nat) returns (s: State)
    requires k < n && Reachable(n, Draining(n, k))
    ensures Reachable(n, s)
    ensures s == Draining(n, k).(gate := HeldBy(Worker(k)), workers := Draining(n, k).workers[k := WDecrement])
  {
    s := Advance(n, Draining(n, k), Worker(k));
    s := Advance(n, s, Worker(k));
    s := Advance(n, s, Worker(k));
    s := Advance(n, s, Worker(k));
    assert s.workers == Draining(n, k).workers[k := WDecrement];
  }

  /** Worker `k` decrements the counter, and signals if it is the last. */
  lemma WorkerLeaves(n: nat, k: nat)
    requires k < n && Reachable(n, Draining(n, k))
    ensures Reachable(n, Draining(n, k + 1))
  {
    var s := WorkerWorks(n, k);
    s := Advance(n, s, Worker(k));
    s := Advance(n, s, Worker(k));
    if k + 1 == n {
      s := Advance(n, s, Worker(k));
      s := Advance(n, s, Worker(k));
      s := Advance(n, s, Worker(k));
    }
    s := Advance(n, s, Worker(k));
    assert s.workers == Draining(n, k + 1).workers;
  }

  lemma {:induction false} WorkersDrain(n: nat, k: nat)
    requires 0 < n && k <= n
    ensures Reachable(n, Draining(n, k))
  {
    if k == 0 {
      ParentSeesTheFullCounter(n);
    } else {
      WorkersDrain(n, k - 1);
      WorkerLeaves(n, k - 1);
    }
  }

  /** The last signal is sent between the parent's test and its wait. */
  lemma SignalCanBeMissed(n: nat) returns (s: State)
    requires 0 < n
    ensures Reachable(n, s) && Stuck(s) && MissedTheSignal(s)
  {
    WorkersDrain(n, n);
    s := Advance(n, Draining(n, n), Parent);
    s := Advance(n, s, Parent);
    StuckExactlyWhen(n, s);
  }

  /** The barrier can hang exactly when it has a worker at all. */
  lemma CanHangExactlyWhen(n: nat)
    ensures (exists s :: Reachable(n, s) && Stuck(s) && !Finished(s)) <==> 0 < n
  {
    if 0 < n {
      var s := SignalCanBeMissed(n);
      assert Reachable(n, s) && Stuck(s) && !Finished(s);
    } else {
      forall s | Reachable(n, s) && Stuck(s) ensures Finished(s) { EmptyBarrierFinishes(s); }
    }
  }

  /** Without workers the counter is never raised and the parent never waits. */
  lemma EmptyBarrierFinishes(s: State)
    requires Reachable(0, s) && Stuck(s)
    ensures Finished(s)
  {
    var init, next := (r: State) => r == Init(0), (r: State, t: State) => Next(r, t);
    var inv := (r: State) => Inv(0, r) && !r.parent.PLockDrain? && !r.parent.PWait? && !r.parent.PAsleep?;
    var b: seq<State> :| Runs.IsRun(init, next, b) && b[|b| - 1] == s;
    InitInv(0);
    forall r, t | inv(r) && next(r, t) ensures inv(t) {
      NextKeepsInv(0, r, t);
      CounterIsBounded(0, r);
      var who :| Enabled(r, who) && t == Apply(r, who);
    }
    Runs.InvariantHolds(init, next, inv, b, |b| - 1);
    StuckExactlyWhen(0, s);
  }
}
