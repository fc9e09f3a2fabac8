/** How long the echo test can stay with a message: every step of either process moves
    at least one byte or turns a page, so that every message completes, however the
    bytes are cut up and whoever runs first. */
module EchoProgress {
  import Runs
  import opened Powers
  import opened Echo

  function MessageSize(k: Config, m: nat): nat
    requires 0 < k.iters
  {
    DEF_NETIO_SZ * Pow2(m / k.iters)
  }

  /** The steps one side can take for the first n messages: a send and a receive for
      every byte, and one more to go on to the next message. */
  function SideSteps(k: Config, n: nat): nat
    requires 0 < k.iters
  {
    if n == 0 then 0 else SideSteps(k, n - 1) + 2 * MessageSize(k, n - 1) + 1
  }

  /** How far a side is with its current message. */
  function ClientDone(c: Client): nat {
    match c.pc
    case CSend(sent) => sent
    case CRecv(got) => c.size + got
    case CNext => 2 * c.size
    case CStop => 2 * c.size + 1
    case CClose => 2 * c.size + 2
    case CClosed => 2 * c.size + 3
  }

  function ServerDone(s: Server): nat {
    match s.pc
    case SRecv(got) => got
    case SSend(sent) => s.size + sent
    case SNext => 2 * s.size
    case SExit => 2 * s.size + 1
  }

  function ClientMessage(k: Config, t: State): nat { Message(k, t.c.block, t.c.round) }

  function ServerMessage(k: Config, t: State): nat { Message(k, t.s.block, t.s.round) }

  function Progress(k: Config, t: State): nat
    requires 0 < k.iters
  {
    SideSteps(k, ClientMessage(k, t)) + ClientDone(t.c) + SideSteps(k, ServerMessage(k, t)) + ServerDone(t.s)
  }

  lemma SizesOfMessages(k: Config, t: State)
    requires 0 < k.iters && Inv(k, t)
    ensures MessageSize(k, ClientMessage(k, t)) == t.c.size
    ensures MessageSize(k, ServerMessage(k, t)) == t.s.size
  {
    BlockOfMessage(k, t.c.block, t.c.round);
    BlockOfMessage(k, t.s.block, t.s.round);
  }

  lemma OneMoreMessage(k: Config, n: nat)
    requires 0 < k.iters
    ensures SideSteps(k, n + 1) == SideSteps(k, n) + 2 * MessageSize(k, n) + 1
  {
  }

  lemma ClientAdvances(k: Config, t: State, x: Step)
    requires 0 < k.iters && Inv(k, t) && x.ClientStep? && Enabled(k, t, x)
    ensures Progress(k, t) < Progress(k, ClientApply(k, t, x))
  {
    hide SideSteps, MessageSize, Message, Pow2, FreshMessage, Phase;
    SizesOfMessages(k, t);
    NextMessage(k, t.c.block, t.c.round);
    OneMoreMessage(k, ClientMessage(k, t));
  }

  /** A server step moves on within its message, or from its end to the next one. */
  lemma ServerMovesOn(k: Config, t: State, x: Step)
    requires 0 < k.iters && Inv(k, t) && x.ServerStep? && Enabled(k, t, x)
    ensures var u := ServerApply(k, t, x);
            && u.c == t.c
            && if t.s.pc.SNext? then ServerMessage(k, u) == ServerMessage(k, t) + 1
               else ServerMessage(k, u) == ServerMessage(k, t) && ServerDone(t.s) < ServerDone(u.s)
  {
    ServerInside(k, t);
    hide Message, Pow2, FreshMessage, Phase;
    NextMessage(k, t.s.block, t.s.round);
  }

  lemma ServerAdvances(k: Config, t: State, x: Step)
    requires 0 < k.iters && Inv(k, t) && x.ServerStep? && Enabled(k, t, x)
    ensures Progress(k, t) < Progress(k, ServerApply(k, t, x))
  {
    ServerMovesOn(k, t, x);
    hide SideSteps, MessageSize, Message, Inv, Enabled, ServerApply;
    SizesOfMessages(k, t);
    OneMoreMessage(k, ServerMessage(k, t));
  }

  lemma ClientInside(k: Config, t: State)
    requires Inv(k, t)
    ensures ClientDone(t.c) <= 2 * t.c.size + 3
  {
    hide FreshMessage, Pow2;
  }

  lemma ServerInside(k: Config, t: State)
    requires Inv(k, t)
    ensures ServerDone(t.s) <= 2 * t.s.size + 1
    ensures t.s.pc.SRecv? ==> t.s.pc.got <= t.s.size
  {
    hide FreshMessage;
  }

  lemma ServerAtMostOneAhead(k: Config, t: State)
    requires 0 < k.iters && Inv(k, t) && !t.s.pc.SExit?
    ensures ServerMessage(k, t) <= ClientMessage(k, t) + 1
  {
    NextMessage(k, t.c.block, t.c.round);
    NextMessage(k, t.s.block, t.s.round);
    hide Message, FreshMessage, Pow2, Following, Echoing, Uploading;
  }

  /** A run takes at most as many steps as its two processes have made progress. */
  lemma {:induction false} StepsAreProgress(k: Config, b: seq<State>)
    requires 0 < k.iters && Runs.IsRun(r => IsInit(k, r), (r, u) => Next(k, r, u), b)
    ensures Inv(k, b[|b| - 1]) && |b| - 1 <= Progress(k, b[|b| - 1])
  {
    var last := |b| - 1;
    if last == 0 {
      InitInv(k, b[0]);
    } else {
      hide Inv, Progress, Next;
      StepsAreProgress(k, b[..last]);
      assert b[..last][last - 1] == b[last - 1];
      NextAdvances(k, b[last - 1], b[last]);
    }
  }

  lemma NextAdvances(k: Config, t: State, u: State)
    requires 0 < k.iters && Inv(k, t) && Next(k, t, u)
    ensures Inv(k, u) && Progress(k, t) < Progress(k, u)
  {
    NextKeepsInv(k, t, u);
    hide Inv, Progress;
    var x :| Enabled(k, t, x) && u == Apply(k, t, x);
    if x.ClientStep? {
      ClientAdvances(k, t, x);
    } else {
      ServerAdvances(k, t, x);
    }
  }

  /** However long the run, its steps are bounded by the messages it has reached. */
  lemma StepsAreBounded(k: Config, b: seq<State>)
    requires 0 < k.iters && Runs.IsRun(r => IsInit(k, r), (r, u) => Next(k, r, u), b)
    ensures var t := b[|b| - 1];
            |b| - 1 <= SideSteps(k, ClientMessage(k, t) + 1) + SideSteps(k, ServerMessage(k, t) + 1) + 2
  {
    var t := b[|b| - 1];
    StepsAreProgress(k, b);
    ClientInside(k, t);
    ServerInside(k, t);
    SizesOfMessages(k, t);
    OneMoreMessage(k, ClientMessage(k, t));
    OneMoreMessage(k, ServerMessage(k, t));
    hide SideSteps, ClientDone, ServerDone, MessageSize, Message, Inv;
  }

  lemma {:induction false} MoreMessagesMoreSteps(k: Config, m: nat, n: nat)
    requires 0 < k.iters && m <= n
    ensures SideSteps(k, m) <= SideSteps(k, n)
  {
    if m < n {
      MoreMessagesMoreSteps(k, m, n - 1);
    }
  }

  /** Every message completes: a run longer than the steps that messages 0 to m can
      take has left message m behind, or the server has left. */
  lemma EveryMessageCompletes(k: Config, b: seq<State>, m: nat)
    requires 0 < k.iters && Runs.IsRun(r => IsInit(k, r), (r, u) => Next(k, r, u), b)
    requires |b| - 1 > SideSteps(k, m + 1) + SideSteps(k, m + 2) + 2
    ensures b[|b| - 1].s.pc.SExit? || m < ClientMessage(k, b[|b| - 1])
  {
    hide SideSteps, Message, Inv, Next;
    var t := b[|b| - 1];
    StepsAreBounded(k, b);
    StepsAreProgress(k, b);
    if !t.s.pc.SExit? && ClientMessage(k, t) <= m {
      ServerAtMostOneAhead(k, t);
      MoreMessagesMoreSteps(k, ClientMessage(k, t) + 1, m + 1);
      MoreMessagesMoreSteps(k, ServerMessage(k, t) + 1, m + 2);
      assert false;
    }
  }
}
