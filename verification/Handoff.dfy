/** The event-dispatch handoff: a sender and a receiver thread pass control to
    each other through one condition variable on which both wait in turn, with
    no predicate around the waits.  One step of the model is one lock, unlock,
    wait, signal, flag access, clock reading or array write.  (The C++ sender keeps
    the difference of the two recorded times instead of both.) */
module Handoff {
  import Runs

  datatype Tid = Sender | Receiver
  datatype Owner = Free | HeldBy(who: Tid)

  datatype SenderPc =
    | SLockReady | STestFlag | SWaitReady | SReadyAsleep | SClearFlag | SUnlockReady
    | SLockWn | SStartClock | SSignal | SWaitWn | SWnAsleep
    | SEndClock | SUnlockWn | SStoreEnd | SStoreStart | SDone

  datatype ReceiverPc =
    | RLockWn | RLockReady | RSetFlag | RSignalReady | RUnlockReady
    | RWaitWn | RWnAsleep | RSignal | RUnlockWn | RDone

  /** Major and sub iterations of a run, and whether the sender unlocks before it
      reads its end clock (the C++ sender does, the C sender does not). */
  datatype Config = Config(major: nat, sub: nat, unlockFirst: bool)

  /** What both threads see: the two mutexes, their wait sets and the flag. */
  datatype Shared = Shared(readyLock: Owner, wnLock: Owner, readyWait: set<Tid>, wnWait: set<Tid>, flag: bool)

  datatype SenderState = SenderState(pc: SenderPc, major: nat, sub: nat, startTime: int, endTime: int)

  datatype ReceiverState = ReceiverState(pc: ReceiverPc, major: nat, sub: nat)

  /** The monotonic clock, the readings of the start and of the end clock in the
      order they were made, the two result arrays, how often each of their slots was
      written, and the signals sent so far on the shared condition. */
  datatype Record = Record(now: int, starts: seq<int>, ends: seq<int>,
                           senderStart: seq<int>, receiverEnd: seq<int>,
                           startWrites: seq<nat>, endWrites: seq<nat>, signals: nat)

  datatype State = State(sh: Shared, snd: SenderState, rcv: ReceiverState, rec: Record)

  /** Who moves, whom a signal wakes and what a clock reading returns. */
  datatype Step = Step(who: Tid, woken: set<Tid>, clock: int)

  // ---------------------------------------------------------------- the steps

  function Init(c: Config): State {
    State(Shared(Free, Free, {}, {}, false),
          SenderState(if 0 < c.major then SLockReady else SDone, 0, 0, 0, 0),
          ReceiverState(if 0 < c.major then RLockWn else RDone, 0, 0),
          Record(0, [], [], seq(c.major, _ => 0), seq(c.major, _ => 0), seq(c.major, _ => 0), seq(c.major, _ => 0), 0))
  }

  /** A signal wakes at least one waiter when there is one. */
  predicate MayWake(waiting: set<Tid>, woken: set<Tid>) {
    woken <= waiting && (waiting != {} ==> woken != {})
  }

  /** Where the sender goes when it has made its round trips. */
  function Closing(c: Config): SenderPc {
    if c.unlockFirst then SUnlockWn else SEndClock
  }

  predicate SenderEnabled(c: Config, s: State, x: Step) {
    match s.snd.pc
    case SLockReady => s.sh.readyLock == Free
    case SReadyAsleep => Sender !in s.sh.readyWait && s.sh.readyLock == Free
    case SLockWn => s.sh.wnLock == Free
    case SStartClock => s.rec.now <= x.clock
    case SSignal => MayWake(s.sh.wnWait, x.woken)
    case SWnAsleep => Sender !in s.sh.wnWait && s.sh.wnLock == Free
    case SEndClock => s.rec.now <= x.clock
    case SStoreEnd => s.snd.major < |s.rec.receiverEnd| && s.snd.major < |s.rec.endWrites|
    case SStoreStart => s.snd.major < |s.rec.senderStart| && s.snd.major < |s.rec.startWrites|
    case SDone => false
    case _ => true
  }

  function SenderApply(c: Config, s: State, x: Step): State
    requires SenderEnabled(c, s, x)
  {
    match s.snd.pc
    case SLockReady =>
      s.(sh := s.sh.(readyLock := HeldBy(Sender)), snd := s.snd.(pc := STestFlag))
    case STestFlag =>
      s.(snd := s.snd.(pc := if s.sh.flag then SClearFlag else SWaitReady))
    case SWaitReady =>
      s.(sh := s.sh.(readyLock := Free, readyWait := s.sh.readyWait + {Sender}), snd := s.snd.(pc := SReadyAsleep))
    case SReadyAsleep =>
      s.(sh := s.sh.(readyLock := HeldBy(Sender)), snd := s.snd.(pc := STestFlag))
    case SClearFlag =>
      s.(sh := s.sh.(flag := false), snd := s.snd.(pc := SUnlockReady))
    case SUnlockReady =>
      s.(sh := s.sh.(readyLock := Free), snd := s.snd.(pc := SLockWn))
    case SLockWn =>
      s.(sh := s.sh.(wnLock := HeldBy(Sender)), snd := s.snd.(pc := SStartClock))
    case SStartClock =>
      s.(rec := s.rec.(now := x.clock, starts := s.rec.starts + [x.clock]),
         snd := s.snd.(startTime := x.clock, pc := if 0 < c.sub then SSignal else Closing(c)))
    case SSignal =>
      s.(sh := s.sh.(wnWait := s.sh.wnWait - x.woken),
         rec := s.rec.(signals := s.rec.signals + 1),
         snd := s.snd.(pc := SWaitWn))
    case SWaitWn =>
      s.(sh := s.sh.(wnLock := Free, wnWait := s.sh.wnWait + {Sender}), snd := s.snd.(pc := SWnAsleep))
    case SWnAsleep =>
      s.(sh := s.sh.(wnLock := HeldBy(Sender)),
         snd := s.snd.(sub := s.snd.sub + 1, pc := if s.snd.sub + 1 < c.sub then SSignal else Closing(c)))
    case SEndClock =>
      s.(rec := s.rec.(now := x.clock, ends := s.rec.ends + [x.clock]),
         snd := s.snd.(endTime := x.clock, pc := if c.unlockFirst then SStoreEnd else SUnlockWn))
    case SUnlockWn =>
      s.(sh := s.sh.(wnLock := Free), snd := s.snd.(pc := if c.unlockFirst then SEndClock else SStoreEnd))
    case SStoreEnd =>
      var k := s.snd.major;
      s.(rec := s.rec.(receiverEnd := s.rec.receiverEnd[k := s.snd.endTime],
                       endWrites := s.rec.endWrites[k := s.rec.endWrites[k] + 1]),
         snd := s.snd.(pc := SStoreStart))
    case SStoreStart =>
      var k := s.snd.major;
      s.(rec := s.rec.(senderStart := s.rec.senderStart[k := s.snd.startTime],
                       startWrites := s.rec.startWrites[k := s.rec.startWrites[k] + 1]),
         snd := s.snd.(major := k + 1, sub := 0, pc := if k + 1 < c.major then SLockReady else SDone))
    case SDone => s
  }

  predicate ReceiverEnabled(c: Config, s: State, x: Step) {
    match s.rcv.pc
    case RLockWn => s.sh.wnLock == Free
    case RLockReady => s.sh.readyLock == Free
    case RSignalReady => MayWake(s.sh.readyWait, x.woken)
    case RWnAsleep => Receiver !in s.sh.wnWait && s.sh.wnLock == Free
    case RSignal => MayWake(s.sh.wnWait, x.woken)
    case RDone => false
    case _ => true
  }

  function ReceiverApply(c: Config, s: State, x: Step): State
    requires ReceiverEnabled(c, s, x)
  {
    match s.rcv.pc
    case RLockWn =>
      s.(sh := s.sh.(wnLock := HeldBy(Receiver)), rcv := s.rcv.(pc := RLockReady))
    case RLockReady =>
      s.(sh := s.sh.(readyLock := HeldBy(Receiver)), rcv := s.rcv.(pc := RSetFlag))
    case RSetFlag =>
      s.(sh := s.sh.(flag := true), rcv := s.rcv.(pc := RSignalReady))
    case RSignalReady =>
      s.(sh := s.sh.(readyWait := s.sh.readyWait - x.woken), rcv := s.rcv.(pc := RUnlockReady))
    case RUnlockReady =>
      s.(sh := s.sh.(readyLock := Free), rcv := s.rcv.(pc := if 0 < c.sub then RWaitWn else RUnlockWn))
    case RWaitWn =>
      s.(sh := s.sh.(wnLock := Free, wnWait := s.sh.wnWait + {Receiver}), rcv := s.rcv.(pc := RWnAsleep))
    case RWnAsleep =>
      s.(sh := s.sh.(wnLock := HeldBy(Receiver)), rcv := s.rcv.(pc := RSignal))
    case RSignal =>
      s.(sh := s.sh.(wnWait := s.sh.wnWait - x.woken),
         rec := s.rec.(signals := s.rec.signals + 1),
         rcv := s.rcv.(sub := s.rcv.sub + 1, pc := if s.rcv.sub + 1 < c.sub then RWaitWn else RUnlockWn))
    case RUnlockWn =>
      s.(sh := s.sh.(wnLock := Free),
         rcv := s.rcv.(major := s.rcv.major + 1, sub := 0, pc := if s.rcv.major + 1 < c.major then RLockWn else RDone))
    case RDone => s
  }

  predicate Enabled(c: Config, s: State, x: Step) {
    if x.who == Sender then SenderEnabled(c, s, x) else ReceiverEnabled(c, s, x)
  }

  function Apply(c: Config, s: State, x: Step): State
    requires Enabled(c, s, x)
  {
    if x.who == Sender then SenderApply(c, s, x) else ReceiverApply(c, s, x)
  }

  ghost predicate Next(c: Config, s: State, t: State) {
    exists x :: Enabled(c, s, x) && t == Apply(c, s, x)
  }

  ghost predicate IsRun(c: Config, b: seq<State>) {
    Runs.IsRun(s => s == Init(c), (s, t) => Next(c, s, t), b)
  }

  ghost predicate Reachable(c: Config, s: State) {
    Runs.Reachable(r => r == Init(c), (r, t) => Next(c, r, t), s)
  }

  /** No thread can move. */
  ghost predicate Stuck(c: Config, s: State) {
    forall x :: !Enabled(c, s, x)
  }

  predicate Finished(s: State) {
    s.snd.pc.SDone? && s.rcv.pc.RDone?
  }

  // ------------------------------------------------------- the inductive invariant

  predicate SenderHoldsReady(s: State) {
    s.snd.pc.STestFlag? || s.snd.pc.SWaitReady? || s.snd.pc.SClearFlag? || s.snd.pc.SUnlockReady?
  }

  predicate SenderHoldsWn(c: Config, s: State) {
    || s.snd.pc.SStartClock? || s.snd.pc.SSignal? || s.snd.pc.SWaitWn? || s.snd.pc.SUnlockWn?
    || (s.snd.pc.SEndClock? && !c.unlockFirst)
  }

  predicate ReceiverHoldsReady(s: State) {
    s.rcv.pc.RSetFlag? || s.rcv.pc.RSignalReady? || s.rcv.pc.RUnlockReady?
  }

  predicate ReceiverHoldsWn(s: State) {
    || s.rcv.pc.RLockReady? || s.rcv.pc.RSetFlag? || s.rcv.pc.RSignalReady? || s.rcv.pc.RUnlockReady?
    || s.rcv.pc.RWaitWn? || s.rcv.pc.RSignal? || s.rcv.pc.RUnlockWn?
  }

  /** Mutex ownership and wait-set membership can be read off the program counters. */
  predicate Locks(c: Config, s: State) {
    && (s.sh.readyLock == HeldBy(Sender) <==> SenderHoldsReady(s))
    && (s.sh.readyLock == HeldBy(Receiver) <==> ReceiverHoldsReady(s))
    && (s.sh.wnLock == HeldBy(Sender) <==> SenderHoldsWn(c, s))
    && (s.sh.wnLock == HeldBy(Receiver) <==> ReceiverHoldsWn(s))
    && s.sh.readyWait <= {Sender}
    && (Sender in s.sh.readyWait ==> s.snd.pc.SReadyAsleep?)
    && (Sender in s.sh.wnWait ==> s.snd.pc.SWnAsleep?)
    && (Receiver in s.sh.wnWait ==> s.rcv.pc.RWnAsleep?)
  }

  /** The receiver has begun an iteration whose announcement the sender has not consumed. */
  predicate Announcing(s: State) {
    && s.rcv.sub == 0
    && (|| s.rcv.pc.RLockWn? || s.rcv.pc.RLockReady? || s.rcv.pc.RSetFlag? || s.rcv.pc.RSignalReady?
        || s.rcv.pc.RUnlockReady? || s.rcv.pc.RWaitWn? || s.rcv.pc.RWnAsleep?)
    && (s.sh.flag <==> (s.rcv.pc.RSignalReady? || s.rcv.pc.RUnlockReady? || s.rcv.pc.RWaitWn? || s.rcv.pc.RWnAsleep?))
    && (s.rcv.pc.RWnAsleep? ==> Receiver in s.sh.wnWait)
  }

  /** The receiver has left iteration si while the sender is still closing it. */
  predicate Ahead(c: Config, s: State) {
    && s.rcv.major == s.snd.major + 1
    && if s.rcv.major == c.major then s.rcv.pc.RDone? && s.rcv.sub == 0 && !s.sh.flag else Announcing(s)
  }

  predicate BothInside(c: Config, s: State) {
    s.rcv.major == s.snd.major && !s.sh.flag
  }

  /** The receiver is about to wait on the shared condition, or waits. */
  predicate ReceiverWaits(s: State) {
    s.rcv.pc.RWaitWn? || (s.rcv.pc.RWnAsleep? && Receiver in s.sh.wnWait)
  }

  /** Where the two threads can be relative to each other. */
  predicate Joint(c: Config, s: State) {
    match s.snd.pc
    case SDone =>
      s.snd.major == c.major && s.rcv.major == c.major && s.rcv.pc.RDone? && s.snd.sub == 0 && s.rcv.sub == 0
    case SUnlockReady => BothInside(c, s) && s.snd.sub == s.rcv.sub == 0 && ReceiverWaits(s)
    case SLockWn => BothInside(c, s) && s.snd.sub == s.rcv.sub == 0 && ReceiverWaits(s)
    case SStartClock =>
      BothInside(c, s) && s.snd.sub == s.rcv.sub == 0 && s.rcv.pc.RWnAsleep? && Receiver in s.sh.wnWait
    case SSignal =>
      BothInside(c, s) && s.snd.sub == s.rcv.sub < c.sub && s.rcv.pc.RWnAsleep? && Receiver in s.sh.wnWait
    case SWaitWn =>
      BothInside(c, s) && s.snd.sub == s.rcv.sub < c.sub && s.rcv.pc.RWnAsleep? && Receiver !in s.sh.wnWait
    case SWnAsleep =>
      && s.snd.sub < c.sub
      && (if Sender in s.sh.wnWait then
            && BothInside(c, s) && s.rcv.sub == s.snd.sub && Receiver !in s.sh.wnWait
            && (s.rcv.pc.RWnAsleep? || s.rcv.pc.RSignal?)
          else
            || (BothInside(c, s) && s.rcv.sub == s.snd.sub + 1 < c.sub && ReceiverWaits(s))
            || (BothInside(c, s) && s.rcv.sub == s.snd.sub + 1 == c.sub && s.rcv.pc.RUnlockWn?)
            || (s.snd.sub + 1 == c.sub && Ahead(c, s)))
    case SEndClock => s.snd.sub == c.sub && Ahead(c, s)
    case SUnlockWn => s.snd.sub == c.sub && Ahead(c, s)
    case SStoreEnd => s.snd.sub == c.sub && Ahead(c, s)
    case SStoreStart => s.snd.sub == c.sub && Ahead(c, s)
    case _ =>
      && s.rcv.major == s.snd.major && s.snd.sub == 0 && Announcing(s)
      && (s.snd.pc.SClearFlag? ==> s.sh.flag)
      && (s.snd.pc.SWaitReady? ==> !s.sh.flag)
      && (s.snd.pc.SReadyAsleep? ==> (Sender in s.sh.readyWait <==> !s.sh.flag || s.rcv.pc.RSignalReady?))
  }

  predicate SignalSent(s: State) { s.snd.pc.SWaitWn? || s.snd.pc.SWnAsleep? }

  function SentBySender(c: Config, s: State): nat {
    s.snd.major * c.sub + s.snd.sub + (if SignalSent(s) then 1 else 0)
  }

  function SentByReceiver(c: Config, s: State): nat {
    s.rcv.major * c.sub + s.rcv.sub
  }

  /** Between its start clock and the end of a major iteration. */
  predicate StartRead(s: State) {
    || s.snd.pc.SSignal? || s.snd.pc.SWaitWn? || s.snd.pc.SWnAsleep? || s.snd.pc.SEndClock?
    || s.snd.pc.SUnlockWn? || s.snd.pc.SStoreEnd? || s.snd.pc.SStoreStart?
  }

  predicate EndRead(c: Config, s: State) {
    (s.snd.pc.SUnlockWn? && !c.unlockFirst) || s.snd.pc.SStoreEnd? || s.snd.pc.SStoreStart?
  }

  /** Which slots were written how often. */
  predicate Slots(c: Config, s: State) {
    && |s.rec.senderStart| == |s.rec.receiverEnd| == |s.rec.startWrites| == |s.rec.endWrites| == c.major
    && (forall k :: 0 <= k < c.major ==> s.rec.startWrites[k] == if k < s.snd.major then 1 else 0)
    && (forall k :: 0 <= k < c.major ==>
          s.rec.endWrites[k] == if k < s.snd.major || (k == s.snd.major && s.snd.pc.SStoreStart?) then 1 else 0)
  }

  /** Start and end readings alternate and never run backwards. */
  predicate Alternate(starts: seq<int>, ends: seq<int>, now: int) {
    && |ends| <= |starts| <= |ends| + 1
    && (forall k :: 0 <= k < |ends| ==> starts[k] <= ends[k] <= now)
    && (forall k :: 0 <= k < |starts| ==> starts[k] <= now)
    && (forall k :: 0 < k < |starts| ==> ends[k - 1] <= starts[k])
  }

  /** Which readings were made, and that slot k of each array holds the reading of
      major iteration k. */
  predicate Readings(c: Config, s: State) {
    && Alternate(s.rec.starts, s.rec.ends, s.rec.now)
    && |s.rec.starts| == s.snd.major + (if StartRead(s) then 1 else 0)
    && |s.rec.ends| == s.snd.major + (if EndRead(c, s) then 1 else 0)
    && |s.rec.senderStart| == |s.rec.receiverEnd| == c.major
    && (StartRead(s) ==> s.snd.startTime == s.rec.starts[s.snd.major])
    && (EndRead(c, s) ==> s.snd.endTime == s.rec.ends[s.snd.major])
    && (forall k :: 0 <= k < s.snd.major && k < c.major ==> s.rec.senderStart[k] == s.rec.starts[k])
    && (forall k :: 0 <= k < c.major && (k < s.snd.major || (k == s.snd.major && s.snd.pc.SStoreStart?)) ==>
          s.rec.receiverEnd[k] == s.rec.ends[k])
  }

  predicate Control(c: Config, s: State) {
    && s.snd.major <= c.major && s.rcv.major <= c.major
    && (!s.snd.pc.SDone? ==> s.snd.major < c.major)
    && (!s.rcv.pc.RDone? ==> s.rcv.major < c.major)
    && Locks(c, s)
    && Joint(c, s)
  }

  predicate Inv(c: Config, s: State) {
    && Control(c, s)
    && s.rec.signals == SentBySender(c, s) + SentByReceiver(c, s)
    && Slots(c, s)
    && Readings(c, s)
  }

  lemma InitInv(c: Config)
    ensures Inv(c, Init(c))
  {
  }

  /** Whenever a thread is about to signal the shared condition, the wait set is
      exactly the other thread: the signal can neither be lost nor be taken by
      anyone else. */
  lemma SignalFindsTheOtherThread(c: Config, s: State)
    requires Control(c, s)
    ensures s.snd.pc.SSignal? ==> s.sh.wnWait == {Receiver}
    ensures s.rcv.pc.RSignal? ==> s.sh.wnWait == {Sender}
  {
    if s.snd.pc.SSignal? {
      forall t ensures t in s.sh.wnWait <==> t in {Receiver} { assert t == Sender || t == Receiver; }
    }
    if s.rcv.pc.RSignal? {
      forall t ensures t in s.sh.wnWait <==> t in {Sender} { assert t == Sender || t == Receiver; }
    }
  }

  /** The sender's half of the protocol up to the shared mutex. */
  predicate BeforeSignalling(s: State) {
    || s.snd.pc.SLockReady? || s.snd.pc.STestFlag? || s.snd.pc.SWaitReady? || s.snd.pc.SReadyAsleep?
    || s.snd.pc.SClearFlag? || s.snd.pc.SUnlockReady? || s.snd.pc.SLockWn?
  }

  lemma SenderConsumes(c: Config, s: State, x: Step)
    requires 1 <= c.sub && Control(c, s) && SenderEnabled(c, s, x) && BeforeSignalling(s)
    ensures Control(c, SenderApply(c, s, x))
  {
  }

  lemma SenderTrips(c: Config, s: State, x: Step)
    requires 1 <= c.sub && Control(c, s) && SenderEnabled(c, s, x) && !BeforeSignalling(s)
    ensures Control(c, SenderApply(c, s, x))
  {
    if s.snd.pc.SSignal? {
      SignalFindsTheOtherThread(c, s);
    }
  }

  lemma SenderKeepsControl(c: Config, s: State, x: Step)
    requires 1 <= c.sub && Control(c, s) && SenderEnabled(c, s, x)
    ensures Control(c, SenderApply(c, s, x))
  {
    hide Control;
    if BeforeSignalling(s) {
      SenderConsumes(c, s, x);
    } else {
      SenderTrips(c, s, x);
    }
  }

  lemma ReceiverKeepsControl(c: Config, s: State, x: Step)
    requires 1 <= c.sub && Control(c, s) && ReceiverEnabled(c, s, x)
    ensures Control(c, ReceiverApply(c, s, x))
  {
    match s.rcv.pc {
      case RLockWn =>
      case RLockReady =>
      case RSetFlag =>
      case RSignalReady =>
      case RUnlockReady =>
      case RWaitWn =>
      case RWnAsleep =>
      case RSignal =>
        SignalFindsTheOtherThread(c, s);
      case RUnlockWn =>
    }
  }

  lemma SenderKeepsSlots(c: Config, s: State, x: Step)
    requires Slots(c, s) && SenderEnabled(c, s, x)
    ensures Slots(c, SenderApply(c, s, x))
  {
  }

  lemma StartReadNext(starts: seq<int>, ends: seq<int>, now: int, t: int)
    requires Alternate(starts, ends, now) && |starts| == |ends| && now <= t
    ensures Alternate(starts + [t], ends, t)
  {
  }

  lemma EndReadNext(starts: seq<int>, ends: seq<int>, now: int, t: int)
    requires Alternate(starts, ends, now) && |starts| == |ends| + 1 && now <= t
    ensures Alternate(starts, ends + [t], t)
  {
  }

  lemma SenderKeepsReadings(c: Config, s: State, x: Step)
    requires Readings(c, s) && SenderEnabled(c, s, x)
    ensures Readings(c, SenderApply(c, s, x))
  {
    hide Alternate;
    if s.snd.pc.SStartClock? {
      StartReadNext(s.rec.starts, s.rec.ends, s.rec.now, x.clock);
    } else if s.snd.pc.SEndClock? {
      EndReadNext(s.rec.starts, s.rec.ends, s.rec.now, x.clock);
    }
  }

  lemma OneRowMore(rows: int, width: int)
    ensures (rows + 1) * width == rows * width + width
  {
  }

  lemma SenderCountsSignals(c: Config, s: State, x: Step)
    requires 1 <= c.sub && Control(c, s) && SenderEnabled(c, s, x)
    ensures SentBySender(c, SenderApply(c, s, x)) == SentBySender(c, s) + (if s.snd.pc.SSignal? then 1 else 0)
  {
    assert s.snd.pc.SStoreStart? ==> s.snd.sub == c.sub;
    hide Control;
    OneRowMore(s.snd.major, c.sub);
  }

  lemma ReceiverCountsSignals(c: Config, s: State, x: Step)
    requires 1 <= c.sub && Control(c, s) && ReceiverEnabled(c, s, x)
    ensures SentByReceiver(c, ReceiverApply(c, s, x)) == SentByReceiver(c, s) + (if s.rcv.pc.RSignal? then 1 else 0)
  {
    assert s.rcv.pc.RUnlockWn? ==> s.rcv.sub == c.sub;
    hide Control;
    OneRowMore(s.rcv.major, c.sub);
  }

  lemma ReceiverKeepsSlots(c: Config, s: State, x: Step)
    requires Slots(c, s) && Readings(c, s) && ReceiverEnabled(c, s, x)
    ensures Slots(c, ReceiverApply(c, s, x)) && Readings(c, ReceiverApply(c, s, x))
  {
    hide Alternate;
  }

  lemma SenderKeepsInv(c: Config, s: State, x: Step)
    requires 1 <= c.sub && Inv(c, s) && SenderEnabled(c, s, x)
    ensures Inv(c, SenderApply(c, s, x))
  {
    hide Control, Slots, Readings, SentBySender;
    SenderKeepsControl(c, s, x);
    SenderKeepsSlots(c, s, x);
    SenderKeepsReadings(c, s, x);
    SenderCountsSignals(c, s, x);
    assert SentByReceiver(c, SenderApply(c, s, x)) == SentByReceiver(c, s);
  }

  lemma ReceiverKeepsInv(c: Config, s: State, x: Step)
    requires 1 <= c.sub && Inv(c, s) && ReceiverEnabled(c, s, x)
    ensures Inv(c, ReceiverApply(c, s, x))
  {
    hide Control, Slots, Readings, SentByReceiver;
    ReceiverKeepsControl(c, s, x);
    ReceiverKeepsSlots(c, s, x);
    ReceiverCountsSignals(c, s, x);
    assert SentBySender(c, ReceiverApply(c, s, x)) == SentBySender(c, s);
  }

  lemma NextKeepsInv(c: Config, s: State, t: State)
    requires 1 <= c.sub && Inv(c, s) && Next(c, s, t)
    ensures Inv(c, t)
  {
    var x :| Enabled(c, s, x) && t == Apply(c, s, x);
    if x.who == Sender {
      SenderKeepsInv(c, s, x);
    } else {
      ReceiverKeepsInv(c, s, x);
    }
  }

  /** Every state of every run satisfies the invariant. */
  lemma RunKeepsInv(c: Config, b: seq<State>, i: nat)
    requires 1 <= c.sub && IsRun(c, b) && i < |b|
    ensures Inv(c, b[i])
  {
    InitInv(c);
    forall s, t | Inv(c, s) && Next(c, s, t) ensures Inv(c, t) {
      NextKeepsInv(c, s, t);
    }
    Runs.InvariantHolds(s => s == Init(c), (s, t) => Next(c, s, t), s => Inv(c, s), b, i);
  }

  lemma ReachableInv(c: Config, s: State)
    requires 1 <= c.sub && Reachable(c, s)
    ensures Inv(c, s)
  {
    var b: seq<State> :|
      Runs.IsRun(r => r == Init(c), (r, t) => Next(c, r, t), b) && b[|b| - 1] == s;
    assert IsRun(c, b);
    RunKeepsInv(c, b, |b| - 1);
  }

  // ------------------------------------------------------------------ main results

  /** In a state that satisfies the invariant, some thread can move unless both
      have finished. */
  lemma SomeThreadCanMove(c: Config, s: State)
    requires Inv(c, s) && !Finished(s)
    ensures exists x :: Enabled(c, s, x)
  {
    var wn, ready := s.sh.wnWait, s.sh.readyWait;
    var snd, rcv := Step(Sender, wn, s.rec.now), Step(Receiver, wn, s.rec.now);
    var announce := Step(Receiver, ready, s.rec.now);
    assert Enabled(c, s, snd) || Enabled(c, s, rcv) || Enabled(c, s, announce);
  }

  /** Deadlock freedom: a reachable state is stuck exactly when both threads have
      run to their end. */
  lemma StuckOnlyWhenFinished(c: Config, s: State)
    requires 1 <= c.sub && Reachable(c, s)
    ensures Stuck(c, s) <==> Finished(s)
  {
    ReachableInv(c, s);
    if !Finished(s) {
      SomeThreadCanMove(c, s);
    }
  }

  /** No handoff signal is lost and no announcement is overwritten: at a signal on
      the shared condition the wait set is exactly the other thread, the flag is
      down whenever the receiver raises it, and each critical section is held by
      one thread. */
  lemma NoSignalIsLost(c: Config, s: State)
    requires 1 <= c.sub && Reachable(c, s)
    ensures s.snd.pc.SSignal? ==> s.sh.wnWait == {Receiver}
    ensures s.rcv.pc.RSignal? ==> s.sh.wnWait == {Sender}
    ensures s.rcv.pc.RSetFlag? ==> !s.sh.flag
    ensures s.snd.pc.SClearFlag? ==> s.sh.flag
    ensures !(SenderHoldsWn(c, s) && ReceiverHoldsWn(s)) && !(SenderHoldsReady(s) && ReceiverHoldsReady(s))
  {
    ReachableInv(c, s);
    SignalFindsTheOtherThread(c, s);
  }

  /** How far the receiver can be ahead of the sender. */
  lemma Lead(c: Config, s: State)
    requires Control(c, s)
    ensures || (s.rcv.major == s.snd.major && s.snd.sub <= s.rcv.sub <= s.snd.sub + 1)
            || (s.rcv.major == s.snd.major + 1 && s.rcv.sub == 0 && s.snd.sub <= c.sub <= s.snd.sub + 1)
    ensures s.snd.pc.SStartClock? ==> s.rcv.major == s.snd.major && s.snd.sub == s.rcv.sub == 0
    ensures s.snd.pc.SEndClock? ==> s.rcv.major == s.snd.major + 1 && s.rcv.sub == 0 && s.snd.sub == c.sub
  {
  }

  /** Completed round trips differ by at most one, and the receiver is never more
      than one major iteration ahead nor ever behind. */
  lemma RoundTripsAgree(c: Config, s: State)
    requires 1 <= c.sub && Reachable(c, s)
    ensures var sender, receiver := s.snd.major * c.sub + s.snd.sub, s.rcv.major * c.sub + s.rcv.sub;
            sender <= receiver <= sender + 1
    ensures s.snd.major <= s.rcv.major <= s.snd.major + 1
  {
    ReachableInv(c, s);
    Lead(c, s);
    hide *;
    OneRowMore(s.snd.major, c.sub);
  }

  /** A recorded interval covers exactly `sub` round trips: when the sender reads
      its start clock 2*sub signals were sent per finished major iteration, and
      when it reads its end clock exactly 2*sub more were sent. */
  lemma IntervalCoversItsRoundTrips(c: Config, s: State)
    requires 1 <= c.sub && Reachable(c, s)
    ensures s.snd.pc.SStartClock? ==> s.rec.signals == 2 * (s.snd.major * c.sub)
    ensures s.snd.pc.SEndClock? ==> s.rec.signals == 2 * (s.snd.major * c.sub) + 2 * c.sub
  {
    ReachableInv(c, s);
    Lead(c, s);
    hide Reachable, Control, Slots, Readings;
    OneRowMore(s.snd.major, c.sub);
  }

  /** Slot k of each array holds the reading that iteration k made, from the moment it
      is written, and the recorded intervals neither run backwards nor overlap. */
  lemma SlotsHoldTheirReadings(c: Config, s: State)
    requires 1 <= c.sub && Reachable(c, s)
    ensures Alternate(s.rec.starts, s.rec.ends, s.rec.now)
    ensures s.snd.major <= c.major == |s.rec.senderStart| == |s.rec.receiverEnd|
    ensures s.snd.major <= |s.rec.ends| <= |s.rec.starts|
    ensures s.rec.senderStart[..s.snd.major] == s.rec.starts[..s.snd.major]
    ensures s.rec.receiverEnd[..s.snd.major] == s.rec.ends[..s.snd.major]
    ensures forall k :: 0 <= k < s.snd.major ==> s.rec.senderStart[k] <= s.rec.receiverEnd[k]
    ensures forall k :: 0 < k < s.snd.major ==> s.rec.receiverEnd[k - 1] <= s.rec.senderStart[k]
  {
    ReachableInv(c, s);
  }

  // ------------------------------------------------------------------- termination

  /** Steps the sender can still take in this major iteration. */
  function SenderLeft(c: Config, s: State): int {
    var trips := 3 * (c.sub - s.snd.sub);
    match s.snd.pc
    case SLockReady => 12 + trips
    case STestFlag => if s.sh.flag then 8 + trips else 11 + trips
    case SWaitReady => 10 + trips
    case SReadyAsleep => 9 + trips
    case SClearFlag => 7 + trips
    case SUnlockReady => 6 + trips
    case SLockWn => 5 + trips
    case SStartClock => 4 + trips
    case SSignal => 3 + trips
    case SWaitWn => 2 + trips
    case SWnAsleep => 1 + trips
    case SEndClock => if c.unlockFirst then 2 else 3
    case SUnlockWn => if c.unlockFirst then 3 else 2
    case SStoreEnd => 1
    case SStoreStart => 0
    case SDone => 0
  }

  /** Steps the receiver can still take in this major iteration. */
  function ReceiverLeft(c: Config, s: State): int {
    var trips := 3 * (c.sub - s.rcv.sub);
    match s.rcv.pc
    case RLockWn => 5 + trips
    case RLockReady => 4 + trips
    case RSetFlag => 3 + trips
    case RSignalReady => 2 + trips
    case RUnlockReady => 1 + trips
    case RWaitWn => trips
    case RWnAsleep => trips - 1
    case RSignal => trips - 2
    case RUnlockWn => 0
    case RDone => 0
  }

  function Left(c: Config, s: State): int {
    (c.major - s.snd.major) * (13 + 3 * c.sub) + SenderLeft(c, s)
    + (c.major - s.rcv.major) * (6 + 3 * c.sub) + ReceiverLeft(c, s)
  }

  function Rank(c: Config, s: State): nat {
    if Left(c, s) < 0 then 0 else Left(c, s)
  }

  lemma SenderStepDrops(c: Config, s: State, x: Step)
    requires 1 <= c.sub && Control(c, s) && SenderEnabled(c, s, x)
    ensures Left(c, SenderApply(c, s, x)) < Left(c, s)
  {
    OneRowMore(c.major - s.snd.major - 1, 13 + 3 * c.sub);
  }

  lemma ReceiverStepDrops(c: Config, s: State, x: Step)
    requires 1 <= c.sub && Control(c, s) && ReceiverEnabled(c, s, x)
    ensures Left(c, ReceiverApply(c, s, x)) < Left(c, s)
  {
    OneRowMore(c.major - s.rcv.major - 1, 6 + 3 * c.sub);
  }

  lemma PartsAreNat(c: Config, s: State)
    requires 1 <= c.sub && Control(c, s)
    ensures 0 <= SenderLeft(c, s) && 0 <= ReceiverLeft(c, s)
    ensures 0 <= c.major - s.snd.major && 0 <= c.major - s.rcv.major
  {
  }

  lemma ProductIsNat(a: nat, b: nat)
    ensures 0 <= a * b
  {
  }

  lemma LeftIsNat(c: Config, s: State)
    requires 1 <= c.sub && Control(c, s)
    ensures 0 <= Left(c, s)
  {
    PartsAreNat(c, s);
    hide Control, SenderLeft, ReceiverLeft;
    ProductIsNat(c.major - s.snd.major, 13 + 3 * c.sub);
    ProductIsNat(c.major - s.rcv.major, 6 + 3 * c.sub);
  }

  lemma StepDropsRank(c: Config, s: State, t: State)
    requires 1 <= c.sub && Inv(c, s) && Next(c, s, t)
    ensures Rank(c, t) < Rank(c, s)
  {
    var x :| Enabled(c, s, x) && t == Apply(c, s, x);
    NextKeepsInv(c, s, t);
    assert Control(c, s) && Control(c, t);
    hide Inv, Control, Left;
    LeftIsNat(c, s);
    LeftIsNat(c, t);
    if x.who == Sender {
      SenderStepDrops(c, s, x);
    } else {
      ReceiverStepDrops(c, s, x);
    }
  }

  /** The outcome the benchmark expects: both threads finished, exactly
      2*major*sub signals sent on the shared condition, every slot of both arrays
      written exactly once and holding its iteration's clock reading, and intervals
      that neither run backwards nor overlap. */
  ghost predicate Complete(c: Config, s: State) {
    && Finished(s)
    && s.rec.signals == 2 * (c.major * c.sub)
    && s.rec.startWrites == seq(c.major, _ => 1)
    && s.rec.endWrites == seq(c.major, _ => 1)
    && s.rec.senderStart == s.rec.starts && s.rec.receiverEnd == s.rec.ends
    && |s.rec.starts| == |s.rec.ends| == c.major
    && Alternate(s.rec.starts, s.rec.ends, s.rec.now)
  }

  lemma FinishedIsComplete(c: Config, s: State)
    requires Inv(c, s) && Finished(s)
    ensures Complete(c, s)
  {
  }

  /** A run that cannot be continued has the expected outcome. */
  lemma MaximalRunsComplete(c: Config, b: seq<State>)
    requires 1 <= c.sub && IsRun(c, b) && Stuck(c, b[|b| - 1])
    ensures Complete(c, b[|b| - 1])
  {
    var last := b[|b| - 1];
    RunKeepsInv(c, b, |b| - 1);
    if !Finished(last) {
      SomeThreadCanMove(c, last);
    }
    FinishedIsComplete(c, last);
  }

  /** Termination: however the two threads are interleaved, no run takes more than
      (19 + 6*sub)*major + 6*sub + 17 steps. */
  lemma RunsTerminate(c: Config, b: seq<State>)
    requires 1 <= c.sub && IsRun(c, b)
    ensures |b| - 1 <= c.major * (19 + 6 * c.sub) + 6 * c.sub + 17
  {
    InitInv(c);
    forall s, t | Inv(c, s) && Next(c, s, t) ensures Inv(c, t) && Rank(c, t) < Rank(c, s) {
      NextKeepsInv(c, s, t);
      StepDropsRank(c, s, t);
    }
    Runs.RunIsBounded(s => s == Init(c), (s, t) => Next(c, s, t), s => Inv(c, s), s => Rank(c, s), b, |b| - 1);
    InitialRank(c);
  }

  lemma InitialParts(c: Config)
    ensures SenderLeft(c, Init(c)) <= 12 + 3 * c.sub && ReceiverLeft(c, Init(c)) <= 5 + 3 * c.sub
    ensures Init(c).snd.major == 0 && Init(c).rcv.major == 0
  {
  }

  lemma TwoRows(rows: nat, a: nat, b: nat)
    ensures rows * a + rows * b == rows * (a + b) >= 0
  {
  }

  lemma InitialRank(c: Config)
    ensures Rank(c, Init(c)) <= c.major * (19 + 6 * c.sub) + 6 * c.sub + 17
  {
    InitialParts(c);
    hide Init, SenderLeft, ReceiverLeft;
    TwoRows(c.major, 13 + 3 * c.sub, 6 + 3 * c.sub);
    assert (13 + 3 * c.sub) + (6 + 3 * c.sub) == 19 + 6 * c.sub;
  }
}
