/**
 * The socket of the port service: construction-time validation, the
 * control-packet matcher used by the handshake, and one iteration of each
 * steady-state pump. Channels become sequences: the inbound queue is the
 * packets delivered and not yet taken, the application output is every
 * byte written to the application connection.
 */
module ServiceSocket {
  import opened Wrappers
  import opened Rdtp

  /** `New`'s argument; the application and network connections are reduced to "present or nil". */
  datatype Config = Config(
    localAddr: Option<Addr>,
    remoteAddr: Option<Addr>,
    hasApplication: bool,
    hasNetwork: bool)

  datatype Socket = Socket(
    lAddr: Addr,
    rAddr: Addr,
    txBytes: U32,
    rxBytes: U32,
    inbound: seq<Packet>,
    appOut: seq<Byte>,
    shutdownSignalled: bool)

  const InvalidLocal := "invalid local address"
  const NilRemote := "remote address cannot be nil"
  const NilApplication := "connection to application layer cannot be nil"
  const NilNetwork := "connection to network layer cannot be nil"

  predicate LocalValid(c: Config, parsesAsIP: string -> bool)
  {
    c.localAddr.Some? && parsesAsIP(c.localAddr.value.host)
  }

  /**
   * The constructor. `parsesAsIP` stands for `net.ParseIP(h) != nil`. The
   * remote check parses the LOCAL host again, exactly as the code does, so
   * once the local check has passed it only rejects a nil remote address.
   */
  function New(c: Config, parsesAsIP: string -> bool): (r: Result<Socket, string>)
    ensures r.Success? <==>
      LocalValid(c, parsesAsIP) && c.remoteAddr.Some? && c.hasApplication && c.hasNetwork
    ensures r == Failure(InvalidLocal) <==> !LocalValid(c, parsesAsIP)
    ensures r == Failure(NilRemote) <==> LocalValid(c, parsesAsIP) && c.remoteAddr.None?
    ensures r == Failure(NilApplication) <==>
      LocalValid(c, parsesAsIP) && c.remoteAddr.Some? && !c.hasApplication
    ensures r == Failure(NilNetwork) <==>
      LocalValid(c, parsesAsIP) && c.remoteAddr.Some? && c.hasApplication && !c.hasNetwork
    ensures r.Success? ==>
      && r.value.lAddr == c.localAddr.value && r.value.rAddr == c.remoteAddr.value
      && r.value.txBytes == 0 && r.value.rxBytes == 0
      && r.value.inbound == [] && r.value.appOut == [] && !r.value.shutdownSignalled
  {
    if c.localAddr.None? || !parsesAsIP(c.localAddr.value.host) then Failure(InvalidLocal)
    else if c.remoteAddr.None? || !parsesAsIP(c.localAddr.value.host) then Failure(NilRemote)
    else if !c.hasApplication then Failure(NilApplication)
    else if !c.hasNetwork then Failure(NilNetwork)
    else Success(Socket(c.localAddr.value, c.remoteAddr.value, 0, 0, [], [], false))
  }

  /**
   * The remote host is never parsed: a configuration whose remote host is
   * not an IP address is accepted when everything else is present.
   */
  lemma NewAcceptsUnparsableRemoteHost(c: Config, parsesAsIP: string -> bool)
    requires LocalValid(c, parsesAsIP)
    requires c.remoteAddr.Some? && !parsesAsIP(c.remoteAddr.value.host)
    requires c.hasApplication && c.hasNetwork
    ensures New(c, parsesAsIP).Success?
    ensures New(c, parsesAsIP).value.rAddr == c.remoteAddr.value
  {
  }

  /** The identity key: local address string, one space, remote address string. */
  function Id(s: Socket): string
  {
    SocketId(s.lAddr, s.rAddr)
  }

  /** The network layer pushes a packet onto the inbound queue. */
  function Deliver(s: Socket, p: Packet): (r: Socket)
    ensures r.inbound == s.inbound + [p]
    ensures r == s.(inbound := r.inbound)
  {
    s.(inbound := s.inbound + [p])
  }

  /** The flags in the order `WaitForControlPacket` compares them. */
  datatype Flag = SYN | ACK | FIN | ERR

  /** Position of a flag in the comparison order. */
  function Rank(f: Flag): nat
  {
    match f
    case SYN => 0
    case ACK => 1
    case FIN => 2
    case ERR => 3
  }

  function FlagOf(fl: Flags, f: Flag): bool
  {
    match f
    case SYN => fl.syn
    case ACK => fl.ack
    case FIN => fl.fin
    case ERR => fl.err
  }

  function FlagName(f: Flag): string
  {
    match f
    case SYN => "SYN"
    case ACK => "ACK"
    case FIN => "FIN"
    case ERR => "ERR"
  }

  datatype WaitError = FlagMismatch(flag: Flag, expected: bool, got: bool) | TimedOut

  function BoolString(b: bool): string
  {
    if b then "true" else "false"
  }

  /** The error text `WaitForControlPacket` returns. */
  function Message(e: WaitError): string
  {
    match e
    case TimedOut => "operation timed out"
    case FlagMismatch(f, want, got) =>
      "expected a packet with " + FlagName(f) + "[" + BoolString(want)
      + "] but got one with " + FlagName(f) + "[" + BoolString(got) + "]"
  }

  /**
   * The error text identifies the error: the timeout text differs from
   * every mismatch text, and a mismatch text names its flag, the wanted
   * value and the received value.
   */
  lemma MessageIdentifiesError(e1: WaitError, e2: WaitError)
    requires Message(e1) == Message(e2)
    ensures e1 == e2
  {
    var m := Message(e1);
    FirstChar(e1);
    FirstChar(e2);
    assert e1.TimedOut? == e2.TimedOut?;
    if e1.FlagMismatch? {
      MismatchLayout(e1);
      MismatchLayout(e2);
      assert FlagName(e1.flag) == m[23..26] == FlagName(e2.flag);
      assert e1.flag == e2.flag;
      assert BoolString(e1.expected)[0] == m[27] == BoolString(e2.expected)[0];
      assert e1.expected == e2.expected;
      var k := 27 + |BoolString(e1.expected)| + 19 + 3 + 1;
      assert BoolString(e1.got)[0] == m[k] == BoolString(e2.got)[0];
      assert e1.got == e2.got;
    }
  }

  /** A timeout text starts with 'o', a mismatch text with 'e'. */
  lemma FirstChar(e: WaitError)
    ensures |Message(e)| > 0
    ensures Message(e)[0] == (if e.TimedOut? then 'o' else 'e')
  {
  }

  /** Where the flag name and the two values sit in a mismatch text. */
  lemma MismatchLayout(e: WaitError)
    requires e.FlagMismatch?
    ensures |Message(e)| > 27 + |BoolString(e.expected)| + 19 + 3 + 1
    ensures Message(e)[23..26] == FlagName(e.flag)
    ensures Message(e)[27] == BoolString(e.expected)[0]
    ensures Message(e)[27 + |BoolString(e.expected)| + 19 + 3 + 1] == BoolString(e.got)[0]
  {
    var want, got := BoolString(e.expected), BoolString(e.got);
    var name := FlagName(e.flag);
    assert |name| == 3;
    assert Message(e) == "expected a packet with " + name + "[" + want + "] but got one with " + name + "[" + got + "]";
  }

  datatype WaitResult = WaitResult(sock: Socket, err: Option<WaitError>)

  /**
   * Takes the next inbound packet and compares its flags with the wanted
   * ones in the order SYN, ACK, FIN, ERR, reporting the first difference.
   * The packet is consumed either way. An empty queue stands for the
   * timeout elapsing before any packet arrives.
   */
  function WaitForControlPacket(s: Socket, want: Flags): (r: WaitResult)
    ensures |s.inbound| == 0 ==> r == WaitResult(s, Some(TimedOut))
    ensures |s.inbound| > 0 ==> r.sock == s.(inbound := s.inbound[1..])
    ensures |s.inbound| > 0 ==> (r.err.None? <==> s.inbound[0].flags == want)
    ensures |s.inbound| > 0 && r.err.Some? ==>
      && r.err.value.FlagMismatch?
      && r.err.value.expected == FlagOf(want, r.err.value.flag)
      && r.err.value.got == FlagOf(s.inbound[0].flags, r.err.value.flag)
      && r.err.value.expected != r.err.value.got
      && forall g :: Rank(g) < Rank(r.err.value.flag) ==>
           FlagOf(want, g) == FlagOf(s.inbound[0].flags, g)
  {
    if |s.inbound| == 0 then WaitResult(s, Some(TimedOut))
    else
      var p := s.inbound[0];
      var rest := s.(inbound := s.inbound[1..]);
      if want.syn != p.flags.syn then WaitResult(rest, Some(FlagMismatch(SYN, want.syn, p.flags.syn)))
      else if want.ack != p.flags.ack then WaitResult(rest, Some(FlagMismatch(ACK, want.ack, p.flags.ack)))
      else if want.fin != p.flags.fin then WaitResult(rest, Some(FlagMismatch(FIN, want.fin, p.flags.fin)))
      else if want.err != p.flags.err then WaitResult(rest, Some(FlagMismatch(ERR, want.err, p.flags.err)))
      else WaitResult(rest, None)
  }

  /**
   * With nothing else queued, a delivered packet is the one judged: the
   * wait succeeds exactly when its flags are the wanted ones and leaves the
   * queue empty.
   */
  lemma DeliverThenWait(s: Socket, p: Packet, want: Flags)
    requires s.inbound == []
    ensures WaitForControlPacket(Deliver(s, p), want).sock == s
    ensures WaitForControlPacket(Deliver(s, p), want).err.None? <==> p.flags == want
  {
  }

  /**
   * One iteration of the receive pump: take the head packet, count its
   * length field and write its payload to the application. With nothing
   * queued the pump is blocked and no step happens.
   */
  function ReceiveStep(s: Socket): (r: Option<Socket>)
    ensures r.None? <==> |s.inbound| == 0
    ensures r.Some? ==>
      && r.value.inbound == s.inbound[1..]
      && r.value.rxBytes == (s.rxBytes + s.inbound[0].length) % TwoTo32
      && r.value.appOut == s.appOut + s.inbound[0].payload
      && r.value == s.(inbound := r.value.inbound, rxBytes := r.value.rxBytes, appOut := r.value.appOut)
  {
    if |s.inbound| == 0 then None
    else
      var p := s.inbound[0];
      Some(s.(inbound := s.inbound[1..],
              rxBytes := AddU32(s.rxBytes, p.length),
              appOut := s.appOut + p.payload))
  }

  /**
   * The receive pump run until the queue is empty: the application gets
   * every payload in queue order and the counter grows by the total
   * length, modulo 2^32.
   */
  function ReceiveAll(s: Socket): (r: Socket)
    ensures r.inbound == []
    ensures r.appOut == s.appOut + Payloads(s.inbound)
    ensures r.rxBytes == AddU32(s.rxBytes, TotalLength(s.inbound))
    ensures r == s.(inbound := [], rxBytes := r.rxBytes, appOut := r.appOut)
    decreases |s.inbound|
  {
    match ReceiveStep(s)
    case None => s
    case Some(next) =>
      var r := ReceiveAll(next);
      CountFirstThenRest(s.rxBytes, next.rxBytes, s.inbound);
      r
  }

  /** What the application read returned: some bytes, end of input, or another error. */
  datatype ReadResult = Data(bytes: seq<Byte>) | Eof | ReadFailed(msg: string)

  /** What `PackAndForwardMessage` returned: bytes consumed and the error, if any. */
  datatype PackResult = PackResult(consumed: nat, err: Option<string>)

  /** The pump goes on, stops after signalling shutdown, or stops on a packetizer error. */
  datatype TransmitStep = Continue(sock: Socket) | ShutDown(sock: Socket) | Stopped(sock: Socket)

  /**
   * One iteration of the transmit pump. `packetize` is the packet
   * factory's `PackAndForwardMessage`, called with the bytes just read.
   */
  function Transmit(s: Socket, read: ReadResult, packetize: seq<Byte> -> PackResult): (r: TransmitStep)
    ensures read.ReadFailed? ==> r == Continue(s)
    ensures read.Eof? ==> r == ShutDown(s.(shutdownSignalled := true))
    ensures read.Data? && packetize(read.bytes).err.Some? ==> r == Stopped(s)
    ensures read.Data? && packetize(read.bytes).err.None? ==>
      r == Continue(s.(txBytes := (s.txBytes + packetize(read.bytes).consumed) % TwoTo32))
  {
    match read
    case ReadFailed(_) => Continue(s)
    case Eof => ShutDown(s.(shutdownSignalled := true))
    case Data(bytes) =>
      var pr := packetize(bytes);
      if pr.err.Some? then Stopped(s)
      else Continue(s.(txBytes := AddU32(s.txBytes, pr.consumed)))
  }

  /**
   * What the environment answered in one iteration of the transmit pump:
   * the application read, and the packetizer as it behaves at that moment.
   * Each iteration carries its own packetizer, because the factory keeps a
   * sequence number and the network may fail on one call and not the next.
   */
  datatype Iteration = Iteration(read: ReadResult, packetize: seq<Byte> -> PackResult)

  /** An iteration after which the transmit pump returns: end of input, or data the packetizer fails on. */
  predicate StopsPump(it: Iteration)
  {
    it.read.Eof? || (it.read.Data? && it.packetize(it.read.bytes).err.Some?)
  }

  /** Bytes the packetizer accepted in one iteration: zero unless the read gave data and packetizing succeeded. */
  function Accepted(it: Iteration): nat
  {
    if it.read.Data? && it.packetize(it.read.bytes).err.None? then it.packetize(it.read.bytes).consumed else 0
  }

  /** The index of the first iteration that stops the pump, or `|its|` when none does. */
  function FirstStop(its: seq<Iteration>): (k: nat)
    ensures k <= |its|
    ensures forall i :: 0 <= i < k ==> !StopsPump(its[i])
    ensures k < |its| ==> StopsPump(its[k])
  {
    if |its| == 0 || StopsPump(its[0]) then 0
    else 1 + FirstStop(its[1..])
  }

  /** The bytes accepted over all of `its`. */
  function SumAccepted(its: seq<Iteration>): nat
  {
    if |its| == 0 then 0 else Accepted(its[0]) + SumAccepted(its[1..])
  }

  /** The bytes accepted in the first `k` iterations are the head's plus those of the next `k - 1`. */
  lemma SumAcceptedPrefix(its: seq<Iteration>, k: nat)
    requires 0 < k <= |its|
    ensures SumAccepted(its[..k]) == Accepted(its[0]) + SumAccepted(its[1..][..k - 1])
  {
    assert its[..k][1..] == its[1..][..k - 1];
  }

  /**
   * The transmit pump run over the iterations `its` until it stops or they
   * run out. It shuts down exactly when an end of input comes before any
   * packetizer failure, stops exactly when a failure comes first, and the
   * counter has grown by the bytes accepted before that point, modulo
   * 2^32. Failed reads are skipped.
   */
  function TransmitRun(s: Socket, its: seq<Iteration>): (r: TransmitStep)
    ensures |its| == 0 ==> r == Continue(s)
    ensures r.ShutDown? <==> FirstStop(its) < |its| && its[FirstStop(its)].read.Eof?
    ensures r.Stopped? <==> FirstStop(its) < |its| && its[FirstStop(its)].read.Data?
    ensures r.sock.txBytes == AddU32(s.txBytes, SumAccepted(its[..FirstStop(its)]))
    ensures r.sock == s.(txBytes := r.sock.txBytes, shutdownSignalled := s.shutdownSignalled || r.ShutDown?)
    decreases |its|
  {
    if |its| == 0 then Continue(s)
    else
      match Transmit(s, its[0].read, its[0].packetize)
      case ShutDown(next) => ShutDown(next)
      case Stopped(next) => Stopped(next)
      case Continue(next) =>
        var r := TransmitRun(next, its[1..]);
        var k := FirstStop(its);
        SumAcceptedPrefix(its, k);
        AddU32Twice(s.txBytes, Accepted(its[0]), SumAccepted(its[1..][..k - 1]));
        r
  }
}
