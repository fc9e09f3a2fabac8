/** What the handoff's guarantees rest on: at least one sub iteration per major
    iteration (or a single major iteration), and no spurious wakeups.  Both
    conditions are exact. */
module HandoffLimits {
  import Runs
  import opened Handoff

  ghost predicate DeadlockFree(c: Config) {
    forall s :: Reachable(c, s) && Stuck(c, s) ==> Finished(s)
  }

  lemma StartIsReachable(c: Config)
    ensures Reachable(c, Init(c))
  {
    assert Runs.IsRun(r => r == Init(c), (r, t) => Next(c, r, t), [Init(c)]);
  }

  /** One more step of a reachable state. */
  lemma Advance(c: Config, s: State, x: Step) returns (t: State)
    requires Reachable(c, s) && Enabled(c, s, x)
    ensures t == Apply(c, s, x) && Reachable(c, t)
  {
    t := Apply(c, s, x);
    assert Next(c, s, t);
    Runs.OneMoreStep(r => r == Init(c), (r, u) => Next(c, r, u), s, t);
  }

  // -------------------------------------------------- no sub iterations: the receiver laps

  /** With no sub iterations the receiver can run `k` iterations before the sender moves. */
  function Lapped(c: Config, k: nat): State
    requires 0 < k <= c.major
  {
    Init(c).(sh := Init(c).sh.(flag := true),
             rcv := ReceiverState(if k < c.major then RLockWn else RDone, k, 0))
  }

  lemma {:induction false} ReceiverLaps(c: Config, k: nat)
    requires c.sub == 0 && 0 < k <= c.major
    ensures Reachable(c, Lapped(c, k))
  {
    var s := Init(c);
    if k == 1 {
      StartIsReachable(c);
    } else {
      ReceiverLaps(c, k - 1);
      s := Lapped(c, k - 1);
    }
    var go := Step(Receiver, {}, 0);
    s := Advance(c, s, go);
    s := Advance(c, s, go);
    s := Advance(c, s, go);
    s := Advance(c, s, go);
    s := Advance(c, s, go);
    s := Advance(c, s, go);
    assert s == Lapped(c, k);
  }

  lemma SenderConsumesTheLastAnnouncement(c: Config) returns (s: State)
    requires c.sub == 0 && 2 <= c.major
    ensures Reachable(c, s)
    ensures s.sh == Shared(Free, HeldBy(Sender), {}, {}, false) && s.snd == SenderState(SStartClock, 0, 0, 0, 0)
    ensures s.rcv.pc.RDone? && s.rec == Init(c).rec
  {
    ReceiverLaps(c, c.major);
    var go := Step(Sender, {}, 0);
    s := Advance(c, Lapped(c, c.major), go);
    s := Advance(c, s, go);
    s := Advance(c, s, go);
    s := Advance(c, s, go);
    s := Advance(c, s, go);
  }

  /** The sender then passes one iteration and is back at its first lock. */
  lemma SenderPassesOnce(c: Config) returns (s: State)
    requires c.sub == 0 && 2 <= c.major
    ensures Reachable(c, s)
    ensures s.sh == Shared(Free, Free, {}, {}, false) && s.snd.pc.SLockReady? && s.rcv.pc.RDone?
  {
    var go := Step(Sender, {}, 0);
    s := SenderConsumesTheLastAnnouncement(c);
    s := Advance(c, s, go);
    s := Advance(c, s, go);
    s := Advance(c, s, go);
    s := Advance(c, s, go);
    s := Advance(c, s, go);
  }

  /** Without sub iterations two or more major iterations can deadlock: the
      receiver announces twice before the sender looks, and the sender then waits
      for an announcement that is never made. */
  lemma LappingDeadlocks(c: Config)
    requires c.sub == 0 && 2 <= c.major
    ensures !DeadlockFree(c)
  {
    var s := SenderPassesOnce(c);
    var go := Step(Sender, {}, 0);
    s := Advance(c, s, go);
    s := Advance(c, s, go);
    s := Advance(c, s, go);
    assert Stuck(c, s) && !Finished(s);
  }

  /** The invariant of a single major iteration without sub iterations. */
  predicate SinglePass(c: Config, s: State) {
    && Locks(c, s)
    && s.snd.sub == 0
    && |s.rec.senderStart| == |s.rec.receiverEnd| == |s.rec.startWrites| == |s.rec.endWrites| == 1
    && (s.rcv.pc.RLockWn? || s.rcv.pc.RLockReady? || s.rcv.pc.RSetFlag? || s.rcv.pc.RSignalReady?
        || s.rcv.pc.RUnlockReady? || s.rcv.pc.RUnlockWn? || s.rcv.pc.RDone?)
    && s.rcv.major == (if s.rcv.pc.RDone? then 1 else 0)
    && s.snd.major == (if s.snd.pc.SDone? then 1 else 0)
    && !s.snd.pc.SSignal? && !s.snd.pc.SWaitWn? && !s.snd.pc.SWnAsleep?
    && var told := s.rcv.pc.RSignalReady? || s.rcv.pc.RUnlockReady? || s.rcv.pc.RUnlockWn? || s.rcv.pc.RDone?;
       var waiting := s.snd.pc.SLockReady? || s.snd.pc.STestFlag? || s.snd.pc.SWaitReady? || s.snd.pc.SReadyAsleep?
                      || s.snd.pc.SClearFlag?;
       && (s.sh.flag <==> told && waiting)
       && (s.snd.pc.SReadyAsleep? ==> (Sender in s.sh.readyWait ==> !s.sh.flag || s.rcv.pc.RSignalReady?))
       && (s.snd.pc.SWaitReady? ==> !s.sh.flag)
       && (s.snd.pc.SClearFlag? || !waiting ==> told)
  }

  lemma SenderKeepsSinglePass(c: Config, s: State, x: Step)
    requires c.major == 1 && c.sub == 0 && SinglePass(c, s) && SenderEnabled(c, s, x)
    ensures SinglePass(c, SenderApply(c, s, x))
  {
  }

  lemma ReceiverKeepsSinglePass(c: Config, s: State, x: Step)
    requires c.major == 1 && c.sub == 0 && SinglePass(c, s) && ReceiverEnabled(c, s, x)
    ensures SinglePass(c, ReceiverApply(c, s, x))
  {
  }

  lemma SinglePassIsKept(c: Config, s: State, t: State)
    requires c.major == 1 && c.sub == 0 && SinglePass(c, s) && Next(c, s, t)
    ensures SinglePass(c, t)
  {
    var x :| Enabled(c, s, x) && t == Apply(c, s, x);
    if x.who == Sender {
      SenderKeepsSinglePass(c, s, x);
    } else {
      ReceiverKeepsSinglePass(c, s, x);
    }
  }

  lemma SinglePassIsFree(c: Config, s: State)
    requires c.major == 1 && c.sub == 0 && SinglePass(c, s) && !Finished(s)
    ensures !Stuck(c, s)
  {
    var snd, rcv := Step(Sender, {}, s.rec.now), Step(Receiver, s.sh.readyWait, s.rec.now);
    assert Enabled(c, s, snd) || Enabled(c, s, rcv);
  }

  /** Exactly when the handoff cannot deadlock. */
  lemma DeadlockFreeExactlyWhen(c: Config)
    ensures DeadlockFree(c) <==> 1 <= c.sub || c.major <= 1
  {
    if 1 <= c.sub {
      forall s | Reachable(c, s) && Stuck(c, s) ensures Finished(s) { StuckOnlyWhenFinished(c, s); }
    } else if 2 <= c.major {
      LappingDeadlocks(c);
    } else {
      forall s | Reachable(c, s) && Stuck(c, s) ensures Finished(s) { FewIterationsFinish(c, s); }
    }
  }

  lemma FewIterationsFinish(c: Config, s: State)
    requires c.sub == 0 && c.major <= 1 && Reachable(c, s) && Stuck(c, s)
    ensures Finished(s)
  {
    var init, next := (r: State) => r == Init(c), (r: State, t: State) => Next(c, r, t);
    var b: seq<State> :| Runs.IsRun(init, next, b) && b[|b| - 1] == s;
    if c.major == 0 {
      Runs.InvariantHolds(init, next, (r: State) => Finished(r), b, |b| - 1);
    } else {
      forall r, t | SinglePass(c, r) && Next(c, r, t) ensures SinglePass(c, t) { SinglePassIsKept(c, r, t); }
      Runs.InvariantHolds(init, next, (r: State) => SinglePass(c, r), b, |b| - 1);
      if !Finished(s) {
        SinglePassIsFree(c, s);
      }
    }
  }

  // --------------------------------------------------------------- spurious wakeups

  /** A step, or a waiter waking with no signal sent. */
  ghost predicate NextOrSpurious(c: Config, s: State, t: State) {
    || Next(c, s, t)
    || (exists who :: who in s.sh.wnWait && t == s.(sh := s.sh.(wnWait := s.sh.wnWait - {who})))
    || (exists who :: who in s.sh.readyWait && t == s.(sh := s.sh.(readyWait := s.sh.readyWait - {who})))
  }

  ghost predicate SpuriouslyReachable(c: Config, s: State) {
    Runs.Reachable(r => r == Init(c), (r, t) => NextOrSpurious(c, r, t), s)
  }

  /** No deadlock, whatever waiters wake of their own accord. */
  ghost predicate RobustlyDeadlockFree(c: Config) {
    forall s :: SpuriouslyReachable(c, s) && Stuck(c, s) ==> Finished(s)
  }

  lemma ProlongSpuriously(c: Config, s: State, t: State)
    requires SpuriouslyReachable(c, s) && NextOrSpurious(c, s, t)
    ensures SpuriouslyReachable(c, t)
  {
    Runs.OneMoreStep(r => r == Init(c), (r, u) => NextOrSpurious(c, r, u), s, t);
  }

  lemma AdvanceSpuriously(c: Config, s: State, x: Step) returns (t: State)
    requires SpuriouslyReachable(c, s) && Enabled(c, s, x)
    ensures t == Apply(c, s, x) && SpuriouslyReachable(c, t)
  {
    t := Apply(c, s, x);
    ProlongSpuriously(c, s, t);
  }

  lemma StartIsSpuriouslyReachable(c: Config)
    ensures SpuriouslyReachable(c, Init(c))
  {
    assert Runs.IsRun(r => r == Init(c), (r, t) => NextOrSpurious(c, r, t), [Init(c)]);
  }

  /** The receiver has run alone to the start of major iteration k. */
  function Alone(c: Config, k: nat): State
    requires k <= c.major && 0 < c.major
  {
    Init(c).(sh := Init(c).sh.(flag := 0 < k),
             rcv := ReceiverState(if k < c.major then RLockWn else RDone, k, 0),
             rec := Init(c).rec.(signals := k * c.sub))
  }

  /** Within it, it is about to make its wait number j. */
  function AloneInside(c: Config, k: nat, j: nat): State
    requires k < c.major
  {
    Init(c).(sh := Shared(Free, HeldBy(Receiver), {}, {}, true),
             rcv := ReceiverState(RWaitWn, k, j),
             rec := Init(c).rec.(signals := k * c.sub + j))
  }

  /** The receiver's wait wakes before any signal, and its answer goes to nobody. */
  lemma AnswerNothing(c: Config, k: nat, j: nat) returns (s: State)
    requires k < c.major && j < c.sub && SpuriouslyReachable(c, AloneInside(c, k, j))
    ensures SpuriouslyReachable(c, s)
    ensures s == AloneInside(c, k, j + 1).(
                   rcv := ReceiverState(if j + 1 < c.sub then RWaitWn else RUnlockWn, k, j + 1))
  {
    var go := Step(Receiver, {}, 0);
    s := AdvanceSpuriously(c, AloneInside(c, k, j), go);
    var woken := s.(sh := s.sh.(wnWait := s.sh.wnWait - {Receiver}));
    ProlongSpuriously(c, s, woken);
    s := AdvanceSpuriously(c, woken, go);
    s := AdvanceSpuriously(c, s, go);
  }

  lemma Announce(c: Config, k: nat)
    requires k < c.major && 0 < c.sub && SpuriouslyReachable(c, Alone(c, k))
    ensures SpuriouslyReachable(c, AloneInside(c, k, 0))
  {
    var go := Step(Receiver, {}, 0);
    var s := AdvanceSpuriously(c, Alone(c, k), go);
    s := AdvanceSpuriously(c, s, go);
    s := AdvanceSpuriously(c, s, go);
    s := AdvanceSpuriously(c, s, go);
    s := AdvanceSpuriously(c, s, go);
    assert s == AloneInside(c, k, 0);
  }

  lemma {:induction false} AnswerOnAndOn(c: Config, k: nat, j: nat)
    requires k < c.major && j < c.sub && SpuriouslyReachable(c, Alone(c, k))
    ensures SpuriouslyReachable(c, AloneInside(c, k, j))
  {
    if j == 0 {
      Announce(c, k);
    } else {
      AnswerOnAndOn(c, k, j - 1);
      var s := AnswerNothing(c, k, j - 1);
    }
  }

  lemma {:induction false} ReceiverFinishesAlone(c: Config, k: nat)
    requires k <= c.major && 0 < c.major && 0 < c.sub
    ensures SpuriouslyReachable(c, Alone(c, k))
  {
    if k == 0 {
      StartIsSpuriouslyReachable(c);
      assert Alone(c, 0) == Init(c);
    } else {
      ReceiverFinishesAlone(c, k - 1);
      AnswerOnAndOn(c, k - 1, c.sub - 1);
      var s := AnswerNothing(c, k - 1, c.sub - 1);
      s := AdvanceSpuriously(c, s, Step(Receiver, {}, 0));
      assert k * c.sub == (k - 1) * c.sub + c.sub;
      assert s == Alone(c, k);
    }
  }

  lemma SenderConsumesAnAnnouncement(c: Config) returns (s: State)
    requires 0 < c.major && 0 < c.sub
    ensures SpuriouslyReachable(c, s)
    ensures s == Alone(c, c.major).(sh := Shared(Free, Free, {}, {}, false), snd := SenderState(SLockWn, 0, 0, 0, 0))
  {
    ReceiverFinishesAlone(c, c.major);
    var go := Step(Sender, {}, 0);
    s := AdvanceSpuriously(c, Alone(c, c.major), go);
    s := AdvanceSpuriously(c, s, go);
    s := AdvanceSpuriously(c, s, go);
    s := AdvanceSpuriously(c, s, go);
  }

  /** Spurious wakeups deadlock every run that makes a round trip: the receiver
      answers signals that were not sent and finishes, its answers are lost, and the
      sender waits forever for the first. */
  lemma SpuriousWakeupsDeadlock(c: Config) returns (s: State)
    requires 0 < c.major && 0 < c.sub
    ensures SpuriouslyReachable(c, s)
    ensures Stuck(c, s) && s.rcv.pc.RDone? && s.snd.pc.SWnAsleep? && s.sh.wnWait == {Sender}
  {
    s := SenderConsumesAnAnnouncement(c);
    var go := Step(Sender, {}, 0);
    s := AdvanceSpuriously(c, s, go);
    s := AdvanceSpuriously(c, s, go);
    s := AdvanceSpuriously(c, s, go);
    s := AdvanceSpuriously(c, s, go);
  }

  lemma {:induction false} ReachableSpuriously(c: Config, b: seq<State>)
    requires IsRun(c, b)
    ensures SpuriouslyReachable(c, b[|b| - 1])
  {
    var n := |b| - 1;
    if n == 0 {
      StartIsSpuriouslyReachable(c);
    } else {
      ReachableSpuriously(c, b[..n]);
      assert Next(c, b[n - 1], b[n]);
      ProlongSpuriously(c, b[n - 1], b[n]);
    }
  }

  lemma SpuriousKeepsSinglePass(c: Config, s: State, t: State)
    requires c.major == 1 && c.sub == 0 && SinglePass(c, s) && NextOrSpurious(c, s, t)
    ensures SinglePass(c, t)
  {
    if Next(c, s, t) {
      SinglePassIsKept(c, s, t);
    }
  }

  lemma FewIterationsAreRobust(c: Config, s: State)
    requires c.major == 0 || (c.major == 1 && c.sub == 0)
    requires SpuriouslyReachable(c, s) && Stuck(c, s)
    ensures Finished(s)
  {
    var init, next := (r: State) => r == Init(c), (r: State, t: State) => NextOrSpurious(c, r, t);
    var b: seq<State> :| Runs.IsRun(init, next, b) && b[|b| - 1] == s;
    if c.major == 0 {
      Runs.InvariantHolds(init, next, (r: State) => Finished(r), b, |b| - 1);
    } else {
      forall r, t | SinglePass(c, r) && NextOrSpurious(c, r, t) ensures SinglePass(c, t) {
        SpuriousKeepsSinglePass(c, r, t);
      }
      Runs.InvariantHolds(init, next, (r: State) => SinglePass(c, r), b, |b| - 1);
      if !Finished(s) {
        SinglePassIsFree(c, s);
      }
    }
  }

  /** With spurious wakeups the handoff is safe only where it hands nothing over. */
  lemma RobustExactlyWhen(c: Config)
    ensures RobustlyDeadlockFree(c) <==> c.major == 0 || (c.major == 1 && c.sub == 0)
  {
    if c.major == 0 || (c.major == 1 && c.sub == 0) {
      forall s | SpuriouslyReachable(c, s) && Stuck(c, s) ensures Finished(s) { FewIterationsAreRobust(c, s); }
    } else if c.sub == 0 {
      LappingDeadlocks(c);
      var s :| Reachable(c, s) && Stuck(c, s) && !Finished(s);
      var b: seq<State> :| Runs.IsRun(r => r == Init(c), (r, t) => Next(c, r, t), b) && b[|b| - 1] == s;
      ReachableSpuriously(c, b);
    } else {
      var s := SpuriousWakeupsDeadlock(c);
    }
  }
}
