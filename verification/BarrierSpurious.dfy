/** The barrier if waits may wake spuriously: its gate wait has no predicate, so that a
    worker can pass before the broadcast, and the parent can be left polling for a
    count that is never reached. */
module BarrierSpurious {
  import Runs
  import opened Barrier

  /** A step, or a waiter waking with no signal sent. */
  ghost predicate NextOrSpurious(s: State, t: State) {
    || Next(s, t)
    || (exists i :: i in s.gateWait && t == s.(gateWait := s.gateWait - {i}))
    || (s.asleep && t == s.(asleep := false))
  }

  /** A run leads from s to t. */
  ghost predicate Leads(s: State, t: State) {
    Runs.Reachable(r => r == s, (r, u) => NextOrSpurious(r, u), t)
  }

  ghost predicate SpuriouslyReachable(n: nat, s: State) {
    Leads(Init(n), s)
  }

  lemma LeadsToItself(s: State)
    ensures Leads(s, s)
  {
    assert Runs.IsRun(r => r == s, (r, u) => NextOrSpurious(r, u), [s]);
  }

  lemma Prolong(s: State, t: State, u: State)
    requires Leads(s, t) && NextOrSpurious(t, u)
    ensures Leads(s, u)
  {
    Runs.OneMoreStep(r => r == s, (r, v) => NextOrSpurious(r, v), t, u);
  }

  lemma Advance(s: State, t: State, who: Who) returns (u: State)
    requires Leads(s, t) && Enabled(t, who)
    ensures u == Apply(t, who) && Leads(s, u)
  {
    u := Apply(t, who);
    assert Next(t, u);
    Prolong(s, t, u);
  }

  // ------------------------------------------------------- one worker on its own

  /** The first k workers have come and gone, the others have not moved. */
  function Solo(n: nat, k: nat): State
    requires k <= n
  {
    Init(n).(workers := seq(n, i => if i < k then WDone else WLockGate))
  }

  /** Worker k has woken before any broadcast and is at its timed work. */
  function Early(n: nat, k: nat): State
    requires k < n
  {
    Solo(n, k).(counter := 1, workers := Solo(n, k).workers[k := WWork])
  }

  lemma WorkerStartsEarly(n: nat, k: nat)
    requires k < n && SpuriouslyReachable(n, Solo(n, k))
    ensures SpuriouslyReachable(n, Early(n, k))
  {
    var s := Advance(Init(n), Solo(n, k), Worker(k));
    s := Advance(Init(n), s, Worker(k));
    s := Advance(Init(n), s, Worker(k));
    assert k in s.gateWait;
    var woken := s.(gateWait := s.gateWait - {k});
    Prolong(Init(n), s, woken);
    s := Advance(Init(n), woken, Worker(k));
    s := Advance(Init(n), s, Worker(k));
    assert s.workers == Early(n, k).workers;
    assert s.gateWait == {};
  }

  /** It decrements, finds itself the last and signals a parent that does not wait. */
  lemma WorkerFinishesAlone(n: nat, k: nat)
    requires k < n && SpuriouslyReachable(n, Early(n, k))
    ensures SpuriouslyReachable(n, Solo(n, k + 1))
  {
    var s := Advance(Init(n), Early(n, k), Worker(k));
    s := Advance(Init(n), s, Worker(k));
    s := Advance(Init(n), s, Worker(k));
    s := Advance(Init(n), s, Worker(k));
    s := Signals(n, k, s);
    assert s.workers == Solo(n, k + 1).workers;
  }

  lemma Signals(n: nat, k: nat, r: State) returns (s: State)
    requires k < n && SpuriouslyReachable(n, r)
    requires r == Solo(n, k).(gate := HeldBy(Worker(k)), workers := Solo(n, k).workers[k := WLockSema])
    ensures SpuriouslyReachable(n, s) && s == Solo(n, k).(workers := Solo(n, k).workers[k := WDone])
  {
    s := Advance(Init(n), r, Worker(k));
    s := Advance(Init(n), s, Worker(k));
    s := Advance(Init(n), s, Worker(k));
    s := Advance(Init(n), s, Worker(k));
    assert s.workers == Solo(n, k).workers[k := WDone];
  }

  lemma {:induction false} WorkersComeAndGo(n: nat, k: nat)
    requires k <= n
    ensures SpuriouslyReachable(n, Solo(n, k))
  {
    if k == 0 {
      LeadsToItself(Init(n));
      assert Solo(n, 0).workers == Init(n).workers;
    } else {
      WorkersComeAndGo(n, k - 1);
      WorkerStartsEarly(n, k - 1);
      WorkerFinishesAlone(n, k - 1);
    }
  }

  /** A worker is at its timed work while another has not arrived. */
  predicate StartedEarly(s: State) {
    exists i, j :: 0 <= i < |s.workers| && 0 <= j < |s.workers| && s.workers[i].WWork? && s.workers[j].WLockGate?
  }

  lemma StepsKeepSize(n: nat, s: State)
    requires SpuriouslyReachable(n, s)
    ensures |s.workers| == n
  {
    var init, next := (r: State) => r == Init(n), (r: State, u: State) => NextOrSpurious(r, u);
    var b: seq<State> :| Runs.IsRun(init, next, b) && b[|b| - 1] == s;
    Runs.InvariantHolds(init, next, (r: State) => |r.workers| == n, b, |b| - 1);
  }

  /** With spurious wakeups a worker can start before another has arrived exactly when
      there are two. */
  lemma EarlyStartExactlyWhen(n: nat)
    ensures (exists s :: SpuriouslyReachable(n, s) && StartedEarly(s)) <==> 2 <= n
  {
    if 2 <= n {
      WorkersComeAndGo(n, 0);
      WorkerStartsEarly(n, 0);
      var s := Early(n, 0);
      assert s.workers[0].WWork? && s.workers[1].WLockGate?;
    } else {
      forall s | SpuriouslyReachable(n, s) ensures !StartedEarly(s) { StepsKeepSize(n, s); }
    }
  }

  // ----------------------------------------------------------- a parent left behind

  /** Every worker has come and gone and the parent still waits for all to arrive. */
  predicate Abandoned(s: State) {
    0 < |s.workers| && AllDone(s) && s.counter == 0 && Polling(s.parent)
  }

  lemma AbandonedForGood(s: State, t: State)
    requires Abandoned(s) && NextOrSpurious(s, t)
    ensures Abandoned(t)
  {
    if Next(s, t) {
      var who :| Enabled(s, who) && t == Apply(s, who);
      assert who == Parent;
    }
  }

  /** However it goes on, the parent never leaves its gather loop. */
  ghost predicate Hopeless(s: State) {
    forall t :: Leads(s, t) ==> Polling(t.parent)
  }

  lemma AbandonedIsHopeless(s: State)
    requires Abandoned(s)
    ensures Hopeless(s)
  {
    forall t | Leads(s, t) ensures Polling(t.parent) {
      var init, next := (r: State) => r == s, (r: State, u: State) => NextOrSpurious(r, u);
      var b: seq<State> :| Runs.IsRun(init, next, b) && b[|b| - 1] == t;
      forall r, u | Abandoned(r) && NextOrSpurious(r, u) ensures Abandoned(u) { AbandonedForGood(r, u); }
      Runs.InvariantHolds(init, next, (r: State) => Abandoned(r), b, |b| - 1);
    }
  }

  /** Without workers the mutex of the gather loop is the parent's alone. */
  predicate Lonely(s: State) {
    s.workers == [] && s.counter == 0 && s.sema == if ParentHoldsSema(s.parent) then HeldBy(Parent) else Free
  }

  lemma LonelyParent(s: State)
    requires SpuriouslyReachable(0, s)
    ensures Lonely(s)
  {
    var init, next := (r: State) => r == Init(0), (r: State, u: State) => NextOrSpurious(r, u);
    var b: seq<State> :| Runs.IsRun(init, next, b) && b[|b| - 1] == s;
    Runs.InvariantHolds(init, next, (r: State) => Lonely(r), b, |b| - 1);
  }

  function StepsToPoll(pc: ParentPc): nat {
    match pc
    case PLockSema => 4
    case PTimedWait => 3
    case PTimedAsleep => 2
    case PUnlockSema => 1
    case _ => 0
  }

  lemma {:induction false} LonelyParentLeaves(s: State, t: State)
    requires Leads(s, t) && Lonely(t)
    ensures !Hopeless(s)
    decreases StepsToPoll(t.parent)
  {
    if !Polling(t.parent) {
      assert !Hopeless(s);
    } else {
      var u := Advance(s, t, Parent);
      if t.parent.PPoll? {
        assert u.parent.PLockGate?;
      } else {
        LonelyParentLeaves(s, u);
      }
    }
  }

  /** With spurious wakeups the parent can be left polling for ever exactly when the
      barrier has a worker. */
  lemma CanPollForeverExactlyWhen(n: nat)
    ensures (exists s :: SpuriouslyReachable(n, s) && Hopeless(s)) <==> 0 < n
  {
    if 0 < n {
      WorkersComeAndGo(n, n);
      assert Abandoned(Solo(n, n));
      AbandonedIsHopeless(Solo(n, n));
    } else {
      forall s | SpuriouslyReachable(0, s) ensures !Hopeless(s) {
        LonelyParent(s);
        LeadsToItself(s);
        LonelyParentLeaves(s, s);
      }
    }
  }
}
