/** The network echo test: client and server each double their own message size
    every `iters` messages and never exchange it.  Two processes over two FIFO byte
    channels of bounded capacity; a send or receive call moves an arbitrary
    positive number of the bytes it still can. */
module Echo {
  import Runs
  import opened Powers

  const DEF_NETIO_SZ := 512

  /** Messages per size, and the capacity of each channel. */
  datatype Config = Config(iters: nat, cap: nat)

  datatype ClientPc = CSend(sent: nat) | CRecv(got: nat) | CNext | CStop | CClose | CClosed
  datatype ServerPc = SRecv(got: nat) | SSend(sent: nat) | SNext | SExit

  datatype Client = Client(pc: ClientPc, size: nat, block: nat, round: nat, buf: string)
  datatype Server = Server(pc: ServerPc, size: nat, block: nat, round: nat, buf: string)

  /** `up` carries client to server; `alive` is the stay_alive flag. */
  datatype State = State(c: Client, s: Server, up: string, down: string, alive: bool, closed: bool)

  /** How many bytes a call moves, and whether the client ends its test here. */
  datatype Step = ClientStep(n: nat, stop: bool) | ServerStep(n: nat)

  /** msg_alloc_init: letters in order, ended by a zero byte. */
  function FreshMessage(size: nat): (m: string)
    ensures |m| == size
  {
    seq(size, i requires 0 <= i < size => if i < size - 1 then 'a' + ((i % 26) as char) else '\0')
  }

  /** The server's first buffer holds 30 messages of whatever malloc left there. */
  predicate IsInit(k: Config, t: State) {
    && t.c == Client(CSend(0), DEF_NETIO_SZ, 0, 0, FreshMessage(DEF_NETIO_SZ))
    && |t.s.buf| == 30 * DEF_NETIO_SZ
    && t.s == Server(SRecv(0), DEF_NETIO_SZ, 0, 0, t.s.buf)
    && t.up == t.down == [] && t.alive && !t.closed
  }

  /** A receive call's effect on the buffer it fills. */
  function Fill(buf: string, at: nat, chunk: string): (r: string)
    requires at + |chunk| <= |buf|
    ensures |r| == |buf|
  {
    buf[..at] + chunk + buf[at + |chunk|..]
  }

  predicate Enabled(k: Config, t: State, x: Step) {
    if x.ClientStep? then
      match t.c.pc
      case CSend(sent) => 1 <= x.n && sent + x.n <= t.c.size <= |t.c.buf| && |t.up| + x.n <= k.cap
      case CRecv(got) => 1 <= x.n <= |t.down| && got + x.n <= t.c.size <= |t.c.buf|
      case CClosed => false
      case _ => true
    else
      match t.s.pc
      case SRecv(got) =>
        || (1 <= x.n <= |t.up| && got + x.n <= t.s.size <= |t.s.buf|)
        || (x.n == 0 && t.up == [] && t.closed)
      case SSend(sent) => 1 <= x.n && sent + x.n <= t.s.size <= |t.s.buf| && |t.down| + x.n <= k.cap
      case SNext => true
      case SExit => false
  }

  function ClientApply(k: Config, t: State, x: Step): State
    requires x.ClientStep? && Enabled(k, t, x)
  {
    var c := t.c;
    match c.pc
    case CSend(sent) =>
      t.(up := t.up + c.buf[sent..sent + x.n],
         c := c.(pc := if sent + x.n == c.size then CRecv(0) else CSend(sent + x.n)))
    case CRecv(got) =>
      t.(down := t.down[x.n..],
         c := c.(buf := Fill(c.buf, got, t.down[..x.n]),
                 pc := if got + x.n == c.size then CNext else CRecv(got + x.n)))
    case CNext =>
      if c.round + 1 < k.iters then t.(c := c.(pc := CSend(0), round := c.round + 1))
      else if x.stop then t.(c := c.(pc := CStop))
      else t.(c := Client(CSend(0), 2 * c.size, c.block + 1, 0, FreshMessage(2 * c.size)))
    case CStop => t.(alive := false, c := c.(pc := CClose))
    case CClose => t.(closed := true, c := c.(pc := CClosed))
    case CClosed => t
  }

  function ServerApply(k: Config, t: State, x: Step): State
    requires x.ServerStep? && Enabled(k, t, x)
  {
    var s := t.s;
    match s.pc
    case SRecv(got) =>
      if x.n == 0 then t.(s := s.(pc := SExit))
      else t.(up := t.up[x.n..],
              s := s.(buf := Fill(s.buf, got, t.up[..x.n]),
                      pc := if got + x.n == s.size then SSend(0) else SRecv(got + x.n)))
    case SSend(sent) =>
      t.(down := t.down + s.buf[sent..sent + x.n],
         s := s.(pc := if sent + x.n == s.size then SNext else SSend(sent + x.n)))
    case SNext =>
      if s.round + 1 < k.iters then t.(s := s.(pc := SRecv(0), round := s.round + 1))
      else t.(s := Server(if t.alive then SRecv(0) else SExit, 2 * s.size, s.block + 1, 0, seq(2 * s.size, _ => '\0')))
    case SExit => t
  }

  function Apply(k: Config, t: State, x: Step): State
    requires Enabled(k, t, x)
  {
    if x.ClientStep? then ClientApply(k, t, x) else ServerApply(k, t, x)
  }

  ghost predicate Next(k: Config, t: State, u: State) {
    exists x :: Enabled(k, t, x) && u == Apply(k, t, x)
  }

  ghost predicate Reachable(k: Config, t: State) {
    Runs.Reachable(r => IsInit(k, r), (r, u) => Next(k, r, u), t)
  }

  predicate Finished(t: State) { t.c.pc == CClosed && t.s.pc == SExit }

  // ------------------------------------------------------- the inductive invariant

  /** Both ends are working on the same message. */
  predicate Same(t: State) { t.c.block == t.s.block && t.c.round == t.s.round }

  /** The message after (block, round). */
  function Following(k: Config, block: nat, round: nat): (nat, nat) {
    if round + 1 < k.iters then (block, round + 1) else (block + 1, 0)
  }

  predicate ClientAhead(k: Config, t: State) { (t.c.block, t.c.round) == Following(k, t.s.block, t.s.round) }
  predicate ServerAhead(k: Config, t: State) { (t.s.block, t.s.round) == Following(k, t.c.block, t.c.round) }

  /** Each side's size is a function of the doublings it has made, and its buffer holds a message. */
  predicate Sizes(k: Config, t: State) {
    && t.c.round < k.iters && t.s.round < k.iters
    && t.c.size == DEF_NETIO_SZ * Pow2(t.c.block) && t.s.size == DEF_NETIO_SZ * Pow2(t.s.block)
    && t.c.buf == FreshMessage(t.c.size)
    && t.s.size <= |t.s.buf|
  }

  /** What the server has of the current message, and what is still on its way. */
  predicate Uploading(t: State, sent: nat) {
    && t.s.pc.SRecv? && t.s.pc.got <= sent <= |t.c.buf| <= |t.s.buf| && t.s.pc.got < t.s.size
    && t.up == t.c.buf[t.s.pc.got..sent] && t.s.buf[..t.s.pc.got] == t.c.buf[..t.s.pc.got]
  }

  /** The server holds the whole message and has sent back `sent` bytes of it. */
  predicate Echoing(t: State, got: nat, sent: nat) {
    && |t.c.buf| <= |t.s.buf| && t.s.buf[..|t.c.buf|] == t.c.buf
    && got <= sent <= |t.c.buf| && t.up == [] && t.down == t.c.buf[got..sent]
  }

  predicate Phase(k: Config, t: State) {
    match t.c.pc
    case CSend(sent) =>
      && sent < t.c.size && t.down == []
      && (|| (Same(t) && Uploading(t, sent))
          || (ClientAhead(k, t) && t.s.pc == SNext && sent <= |t.c.buf| && t.up == t.c.buf[..sent]))
    case CRecv(got) =>
      && got < t.c.size
      && (|| (got == 0 && t.down == [] && Same(t) && Uploading(t, t.c.size))
          || (got == 0 && t.down == [] && ClientAhead(k, t) && t.s.pc == SNext && t.up == t.c.buf)
          || (Same(t) && t.s.pc.SSend? && t.s.pc.sent < t.s.size && Echoing(t, got, t.s.pc.sent))
          || (Same(t) && t.s.pc == SNext && Echoing(t, got, t.c.size))
          || (ServerAhead(k, t) && t.s.pc == SRecv(0) && got <= |t.c.buf| && t.up == [] && t.down == t.c.buf[got..]))
    case _ =>
      && t.up == t.down == []
      && ((Same(t) && t.s.pc == SNext) || (ServerAhead(k, t) && t.s.pc == SRecv(0))
          || (t.s.pc == SExit && !t.alive))
  }

  predicate Inv(k: Config, t: State) {
    && Sizes(k, t) && Phase(k, t)
    && |t.up| <= k.cap && |t.down| <= k.cap
    && (t.alive <==> !t.c.pc.CClose? && !t.c.pc.CClosed?)
    && (t.closed <==> t.c.pc.CClosed?)
  }

  lemma InitInv(k: Config, t: State)
    requires 1 <= k.iters && IsInit(k, t)
    ensures Inv(k, t)
  {
    assert Pow2(0) == 1;
  }

  lemma JoinSlices(buf: string, from: nat, mid: nat, to: nat)
    requires from <= mid <= to <= |buf|
    ensures buf[from..mid] + buf[mid..to] == buf[from..to]
  {
  }

  lemma ClientSendKeepsInv(k: Config, t: State, x: Step)
    requires Inv(k, t) && x.ClientStep? && t.c.pc.CSend? && Enabled(k, t, x)
    ensures Inv(k, ClientApply(k, t, x))
  {
    hide Pow2, FreshMessage;
    var sent := t.c.pc.sent;
    JoinSlices(t.c.buf, if t.s.pc.SRecv? then t.s.pc.got else 0, sent, sent + x.n);
    assert t.c.buf[..t.c.size] == t.c.buf;
  }

  /** Receiving bytes one already has changes nothing. */
  lemma FillSame(buf: string, at: nat, chunk: string)
    requires at + |chunk| <= |buf| && chunk == buf[at..at + |chunk|]
    ensures Fill(buf, at, chunk) == buf
  {
  }

  lemma SplitSlice(buf: string, from: nat, to: nat, n: nat)
    requires from + n <= to <= |buf|
    ensures buf[from..to][..n] == buf[from..from + n] && buf[from..to][n..] == buf[from + n..to]
  {
  }

  lemma ClientRecvKeepsInv(k: Config, t: State, x: Step)
    requires Inv(k, t) && x.ClientStep? && t.c.pc.CRecv? && Enabled(k, t, x)
    ensures Inv(k, ClientApply(k, t, x))
  {
    var got := t.c.pc.got;
    var sent := if t.s.pc.SSend? then t.s.pc.sent else t.c.size;
    assert t.down == t.c.buf[got..sent];
    SplitSlice(t.c.buf, got, sent, x.n);
    FillSame(t.c.buf, got, t.down[..x.n]);
  }

  lemma ClientNextKeepsInv(k: Config, t: State, x: Step)
    requires Inv(k, t) && x.ClientStep? && !t.c.pc.CSend? && !t.c.pc.CRecv? && Enabled(k, t, x)
    ensures Inv(k, ClientApply(k, t, x))
  {
  }

  /** Receiving the next bytes of a message whose start one has. */
  lemma FillNext(buf: string, message: string, got: nat, sent: nat, n: nat)
    requires got + n <= sent <= |message| <= |buf| && buf[..got] == message[..got]
    ensures Fill(buf, got, message[got..sent][..n])[..got + n] == message[..got + n]
  {
    SplitSlice(message, got, sent, n);
    var r := Fill(buf, got, message[got..got + n]);
    assert r[..got + n] == buf[..got] + message[got..got + n];
    JoinSlices(message, 0, got, got + n);
  }

  lemma ServerRecvKeepsInv(k: Config, t: State, x: Step)
    requires Inv(k, t) && x.ServerStep? && t.s.pc.SRecv? && Enabled(k, t, x)
    ensures Inv(k, ServerApply(k, t, x))
  {
    hide Pow2, FreshMessage, Fill;
    if x.n > 0 {
      var got := t.s.pc.got;
      var sent := if t.c.pc.CSend? then t.c.pc.sent else t.c.size;
      assert t.up == t.c.buf[got..sent];
      SplitSlice(t.c.buf, got, sent, x.n);
      FillNext(t.s.buf, t.c.buf, got, sent, x.n);
    }
  }

  lemma SliceOfPrefix(buf: string, message: string, from: nat, to: nat)
    requires |message| <= |buf| && buf[..|message|] == message && from <= to <= |message|
    ensures buf[from..to] == message[from..to]
  {
    assert forall i :: 0 <= i < |message| ==> buf[i] == buf[..|message|][i];
  }

  lemma ServerSendKeepsInv(k: Config, t: State, x: Step)
    requires Inv(k, t) && x.ServerStep? && t.s.pc.SSend? && Enabled(k, t, x)
    ensures Inv(k, ServerApply(k, t, x))
  {
    var sent := t.s.pc.sent;
    assert t.c.pc.CRecv? && Same(t) && Echoing(t, t.c.pc.got, sent);
    var got := t.c.pc.got;
    hide Pow2, FreshMessage;
    SliceOfPrefix(t.s.buf, t.c.buf, sent, sent + x.n);
    JoinSlices(t.c.buf, got, sent, sent + x.n);
  }

  lemma ServerNextKeepsInv(k: Config, t: State, x: Step)
    requires Inv(k, t) && x.ServerStep? && t.s.pc.SNext? && Enabled(k, t, x)
    ensures Inv(k, ServerApply(k, t, x))
  {
    hide FreshMessage;
  }

  lemma NextKeepsInv(k: Config, t: State, u: State)
    requires Inv(k, t) && Next(k, t, u)
    ensures Inv(k, u)
  {
    var x :| Enabled(k, t, x) && u == Apply(k, t, x);
    if x.ClientStep? {
      match t.c.pc {
        case CSend(_) => ClientSendKeepsInv(k, t, x);
        case CRecv(_) => ClientRecvKeepsInv(k, t, x);
        case _ => ClientNextKeepsInv(k, t, x);
      }
    } else {
      match t.s.pc {
        case SRecv(_) => ServerRecvKeepsInv(k, t, x);
        case SSend(_) => ServerSendKeepsInv(k, t, x);
        case SNext => ServerNextKeepsInv(k, t, x);
      }
    }
  }

  lemma ReachableInv(k: Config, t: State)
    requires 1 <= k.iters && Reachable(k, t)
    ensures Inv(k, t)
  {
    var init, next := (r: State) => IsInit(k, r), (r: State, u: State) => Next(k, r, u);
    var b: seq<State> :| Runs.IsRun(init, next, b) && b[|b| - 1] == t;
    forall r | IsInit(k, r) ensures Inv(k, r) { InitInv(k, r); }
    forall r, u | Inv(k, r) && Next(k, r, u) ensures Inv(k, u) { NextKeepsInv(k, r, u); }
    Runs.InvariantHolds(init, next, (r: State) => Inv(k, r), b, |b| - 1);
  }

  // ------------------------------------------------------------------ main results

  /** The number of a message, counting from zero. */
  function Message(k: Config, block: nat, round: nat): nat {
    block * k.iters + round
  }

  lemma BlockOfMessage(k: Config, block: nat, round: nat)
    requires 0 < k.iters && round < k.iters
    ensures Message(k, block, round) / k.iters == block
  {
    QuotientOf(block, round, k.iters, Message(k, block, round) / k.iters, Message(k, block, round) % k.iters);
  }

  lemma QuotientOf(block: int, round: int, iters: nat, q: int, rest: int)
    requires block * iters + round == q * iters + rest && 0 <= round < iters && 0 <= rest < iters
    ensures q == block
  {
    assert (block - q) * iters == rest - round;
    assert (q - block) * iters == round - rest;
    if q < block {
      AtLeastOnce(block - q, iters);
    } else if block < q {
      AtLeastOnce(q - block, iters);
    }
  }

  lemma NextMessage(k: Config, block: nat, round: nat)
    requires round < k.iters
    ensures var (block', round') := Following(k, block, round);
            Message(k, block', round') == Message(k, block, round) + 1
  {
    assert (block + 1) * k.iters == block * k.iters + k.iters;
  }

  /** Framing agreement: message m is 512 * 2^(m / iters) bytes on both sides, and
      the two sides are never more than one message apart. */
  lemma SidesAgreeOnSize(k: Config, t: State)
    requires 1 <= k.iters && Reachable(k, t)
    ensures var mc, ms := Message(k, t.c.block, t.c.round), Message(k, t.s.block, t.s.round);
            && t.c.size == 512 * Pow2(mc / k.iters)
            && t.s.size == 512 * Pow2(ms / k.iters)
            && (!t.s.pc.SExit? ==> mc - 1 <= ms <= mc + 1)
            && (t.c.pc.CSend? ==> ms <= mc)
            && (t.s.pc.SSend? || (t.s.pc.SRecv? && 0 < t.s.pc.got) ==> ms == mc)
  {
    ReachableInv(k, t);
    BlockOfMessage(k, t.c.block, t.c.round);
    BlockOfMessage(k, t.s.block, t.s.round);
    NextMessage(k, t.c.block, t.c.round);
    NextMessage(k, t.s.block, t.s.round);
    hide Reachable, Message, FreshMessage, Pow2, Following, Echoing, Uploading;
  }

  /** At most one direction carries bytes; the client's buffer is the message it
      sent at every moment, also halfway through receiving the echo; and what the
      server sends back is that message. */
  lemma EchoIsFaithful(k: Config, t: State)
    requires 1 <= k.iters && Reachable(k, t)
    ensures t.up == [] || t.down == []
    ensures t.c.buf == FreshMessage(t.c.size)
    ensures t.s.pc.SSend? ==> t.s.size <= |t.s.buf| && t.s.buf[..t.s.size] == FreshMessage(t.s.size)
    ensures t.c.pc.CNext? ==> t.up == t.down == []
  {
    ReachableInv(k, t);
  }

  /** Whatever the chunking and however small the channels, some process can move
      until the client has closed and the server has left. */
  lemma SomeProcessCanMove(k: Config, t: State)
    requires 1 <= k.iters && 1 <= k.cap && Reachable(k, t)
    ensures (exists x :: Enabled(k, t, x)) <==> !Finished(t)
  {
    ReachableInv(k, t);
    if !Finished(t) {
      assert Enabled(k, t, ClientStep(1, true)) || Enabled(k, t, ServerStep(1)) || Enabled(k, t, ServerStep(0));
    }
  }

  /** The server leaves only after the client has ended its test. */
  lemma ServerOutlastsClient(k: Config, t: State)
    requires 1 <= k.iters && Reachable(k, t) && t.s.pc.SExit?
    ensures t.c.pc.CClose? || t.c.pc.CClosed?
  {
    ReachableInv(k, t);
  }
}
