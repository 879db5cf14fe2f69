/**
 * The simpler socket, which owns an air traffic controller. Its receiver
 * acknowledges in the controller; its sender hands the application's bytes
 * to a packet factory whose sink is the controller's `Send`. The factory
 * itself is opaque: each call is represented by the packets it handed to
 * its sink and the result it returned.
 */
module SimpleSocket {
  import opened Wrappers
  import opened Rdtp
  import Atc

  datatype Socket = Socket(
    lAddr: Addr,
    rAddr: Addr,
    txBytes: U32,
    rxBytes: U32,
    atc: Atc.Controller,
    inQueue: seq<Packet>,
    appOut: seq<Byte>)

  /** The socket's controller keeps every entry under its own packet's sequence number. */
  predicate Valid(s: Socket)
  {
    Atc.Valid(s.atc)
  }

  /** The identity key: local address string, one space, remote address string. */
  function Id(s: Socket): string
  {
    SocketId(s.lAddr, s.rAddr)
  }

  /**
   * The constructor. `factoryInit` is what `pckfactory.New` returned; its
   * error is wrapped, anything else yields a socket with a fresh controller.
   */
  function NewSocket(lAddr: Addr, rAddr: Addr, factoryInit: Outcome<string>): (r: Result<Socket, string>)
    ensures r.Failure? <==> factoryInit.Fail?
    ensures r.Failure? ==> r.error == "could not initialize new packetfactory: " + factoryInit.error
    ensures r.Success? ==>
      && r.value.lAddr == lAddr && r.value.rAddr == rAddr
      && r.value.txBytes == 0 && r.value.rxBytes == 0
      && |r.value.atc.inFlight| == 0
      && r.value.inQueue == [] && r.value.appOut == []
    ensures r.Success? ==> Valid(r.value)
  {
    match factoryInit
    case Fail(e) => Failure("could not initialize new packetfactory: " + e)
    case Pass => Success(Socket(lAddr, rAddr, 0, 0, Atc.NewAirTrafficCtrl(), [], []))
  }

  /** The controller after a sink call, the packets forwarded, and the sink's result. */
  datatype SinkResult = SinkResult(ctrl: Atc.Controller, forwarded: seq<Packet>, err: Option<string>)

  /**
   * The factory's sink: sends through the controller and reports success
   * whatever the controller said.
   */
  function Sink(c: Atc.Controller, p: Packet, forward: Atc.Forward): (r: SinkResult)
    ensures r.err.None?
    ensures p.seqNo in r.ctrl.inFlight && r.ctrl.inFlight[p.seqNo] == p
    ensures forall n :: n in c.inFlight && n != p.seqNo ==> n in r.ctrl.inFlight && r.ctrl.inFlight[n] == c.inFlight[n]
    ensures r.ctrl.inFlight.Keys == c.inFlight.Keys + {p.seqNo}
    ensures r.forwarded == [p]
    ensures Atc.Valid(c) ==> Atc.Valid(r.ctrl)
  {
    var sent := Atc.Send(c, p, forward);
    SinkResult(sent.ctrl, sent.forwarded, None)
  }

  /** Sequence numbers carried by `ps`. */
  function SeqNos(ps: seq<Packet>): set<U32>
  {
    set i | 0 <= i < |ps| :: ps[i].seqNo
  }

  /** `ps[i]` is the last packet of `ps` with its sequence number. */
  predicate LastWithSeqNo(ps: seq<Packet>, i: int)
    requires 0 <= i < |ps|
  {
    forall j :: i < j < |ps| ==> ps[j].seqNo != ps[i].seqNo
  }

  /** Splitting off the first packet splits off its sequence number. */
  lemma SeqNosSplit(ps: seq<Packet>)
    requires |ps| > 0
    ensures SeqNos(ps) == {ps[0].seqNo} + SeqNos(ps[1..])
  {
    forall n | n in SeqNos(ps) ensures n in {ps[0].seqNo} + SeqNos(ps[1..]) {
      var i :| 0 <= i < |ps| && ps[i].seqNo == n;
      if i > 0 {
        assert ps[1..][i - 1].seqNo == n;
      }
    }
  }

  /** The last packet per sequence number is still the last one in the tail, or is the head. */
  lemma LastWithSeqNoSplit(ps: seq<Packet>)
    requires |ps| > 0
    ensures LastWithSeqNo(ps, 0) ==> ps[0].seqNo !in SeqNos(ps[1..])
    ensures forall i :: 0 < i < |ps| && LastWithSeqNo(ps, i) ==> LastWithSeqNo(ps[1..], i - 1)
  {
    assert forall j :: 0 <= j < |ps[1..]| ==> ps[1..][j] == ps[j + 1];
  }

  /**
   * The step of `SinkAll`: registering the head packet and then, by the
   * tail's own contract, the tail gives the whole list's contract.
   */
  lemma {:induction false} SinkAllStep(c: Atc.Controller, ps: seq<Packet>, mid: Atc.Controller, last: Atc.Controller)
    requires |ps| > 0
    requires ps[0].seqNo in mid.inFlight && mid.inFlight[ps[0].seqNo] == ps[0]
    requires forall n :: n in c.inFlight && n != ps[0].seqNo ==> n in mid.inFlight && mid.inFlight[n] == c.inFlight[n]
    requires mid.inFlight.Keys == c.inFlight.Keys + {ps[0].seqNo}
    requires Atc.Valid(c) ==> Atc.Valid(mid)
    requires last.inFlight.Keys == mid.inFlight.Keys + SeqNos(ps[1..])
    requires forall i :: 0 <= i < |ps| - 1 && LastWithSeqNo(ps[1..], i) ==>
      ps[1..][i].seqNo in last.inFlight && last.inFlight[ps[1..][i].seqNo] == ps[1..][i]
    requires forall n :: n in mid.inFlight && n !in SeqNos(ps[1..]) ==> n in last.inFlight && last.inFlight[n] == mid.inFlight[n]
    requires Atc.Valid(mid) ==> Atc.Valid(last)
    ensures last.inFlight.Keys == c.inFlight.Keys + SeqNos(ps)
    ensures forall i :: 0 <= i < |ps| && LastWithSeqNo(ps, i) ==>
      ps[i].seqNo in last.inFlight && last.inFlight[ps[i].seqNo] == ps[i]
    ensures forall n :: n in c.inFlight && n !in SeqNos(ps) ==> n in last.inFlight && last.inFlight[n] == c.inFlight[n]
    ensures Atc.Valid(c) ==> Atc.Valid(last)
  {
    SeqNosSplit(ps);
    LastWithSeqNoSplit(ps);
    forall i | 0 <= i < |ps| && LastWithSeqNo(ps, i)
      ensures ps[i].seqNo in last.inFlight && last.inFlight[ps[i].seqNo] == ps[i]
    {
      if i > 0 {
        assert LastWithSeqNo(ps[1..], i - 1);
        assert ps[1..][i - 1] == ps[i];
      }
    }
  }

  /**
   * Every packet one factory call handed to its sink, in order. Each one
   * is registered; a later packet with the same sequence number replaces
   * an earlier one, and other entries keep their packet.
   */
  function SinkAll(c: Atc.Controller, ps: seq<Packet>, forward: Atc.Forward): (r: SinkResult)
    ensures r.err.None?
    ensures r.forwarded == ps
    ensures r.ctrl.ackWaitMillis == c.ackWaitMillis
    ensures r.ctrl.inFlight.Keys == c.inFlight.Keys + SeqNos(ps)
    ensures forall i :: 0 <= i < |ps| ==> ps[i].seqNo in r.ctrl.inFlight
    ensures forall i :: 0 <= i < |ps| && LastWithSeqNo(ps, i) ==> r.ctrl.inFlight[ps[i].seqNo] == ps[i]
    ensures forall n :: n in c.inFlight && n !in SeqNos(ps) ==> r.ctrl.inFlight[n] == c.inFlight[n]
    ensures Atc.Valid(c) ==> Atc.Valid(r.ctrl)
    decreases |ps|
  {
    if |ps| == 0 then SinkResult(c, [], None)
    else
      var first := Sink(c, ps[0], forward);
      var rest := SinkAll(first.ctrl, ps[1..], forward);
      assert ps == [ps[0]] + ps[1..];
      SinkAllStep(c, ps, first.ctrl, rest.ctrl);
      SinkResult(rest.ctrl, [ps[0]] + rest.forwarded, None)
  }

  /**
   * One iteration of the receiver: take the next packet from `In`, forget
   * the in-flight packet its acknowledgement number names, count its
   * length field and write its payload to the application. With nothing
   * queued the receiver is blocked and no step happens.
   */
  function ReceiverStep(s: Socket): (r: Option<Socket>)
    ensures r.None? <==> |s.inQueue| == 0
    ensures r.Some? ==>
      && r.value.inQueue == s.inQueue[1..]
      && r.value.atc.inFlight.Keys == s.atc.inFlight.Keys - {s.inQueue[0].ackNo}
      && (forall n :: n in r.value.atc.inFlight ==> r.value.atc.inFlight[n] == s.atc.inFlight[n])
      && r.value.rxBytes == (s.rxBytes + s.inQueue[0].length) % TwoTo32
      && r.value.appOut == s.appOut + s.inQueue[0].payload
      && r.value == s.(inQueue := r.value.inQueue, atc := r.value.atc,
                       rxBytes := r.value.rxBytes, appOut := r.value.appOut)
    ensures r.Some? && Valid(s) ==> Valid(r.value)
  {
    if |s.inQueue| == 0 then None
    else
      var p := s.inQueue[0];
      AddU32Twice(s.rxBytes, 0, p.length);
      Some(s.(inQueue := s.inQueue[1..],
              atc := Atc.Ack(s.atc, p.ackNo),
              rxBytes := AddU32(s.rxBytes, p.length),
              appOut := s.appOut + p.payload))
  }

  /** Acknowledgement numbers carried by `ps`. */
  function AckNos(ps: seq<Packet>): set<U32>
  {
    set i | 0 <= i < |ps| :: ps[i].ackNo
  }

  /** Splitting off the first packet splits off its acknowledgement number. */
  lemma AckNosSplit(ps: seq<Packet>)
    requires |ps| > 0
    ensures AckNos(ps) == {ps[0].ackNo} + AckNos(ps[1..])
  {
    forall n | n in AckNos(ps) ensures n in {ps[0].ackNo} + AckNos(ps[1..]) {
      var i :| 0 <= i < |ps| && ps[i].ackNo == n;
      if i > 0 {
        assert ps[1..][i - 1].ackNo == n;
      }
    }
  }

  /**
   * The receiver run until `In` is empty: every acknowledged sequence
   * number has left the in-flight map and nothing else has, the payloads
   * reach the application in queue order, and the counter grows by the
   * total length modulo 2^32.
   */
  function ReceiveAll(s: Socket): (r: Socket)
    ensures r.inQueue == []
    ensures r.atc.inFlight.Keys == s.atc.inFlight.Keys - AckNos(s.inQueue)
    ensures forall n :: n in r.atc.inFlight ==> r.atc.inFlight[n] == s.atc.inFlight[n]
    ensures r.appOut == s.appOut + Payloads(s.inQueue)
    ensures r.rxBytes == AddU32(s.rxBytes, TotalLength(s.inQueue))
    ensures r == s.(inQueue := [], atc := r.atc, rxBytes := r.rxBytes, appOut := r.appOut)
    ensures Valid(s) ==> Valid(r)
    decreases |s.inQueue|
  {
    match ReceiverStep(s)
    case None => s
    case Some(next) =>
      var r := ReceiveAll(next);
      CountFirstThenRest(s.rxBytes, next.rxBytes, s.inQueue);
      AckNosSplit(s.inQueue);
      r
  }

  /** What the application read returned: some bytes, or an error (end of input included). */
  datatype ReadResult = Data(bytes: seq<Byte>) | ReadFailed(msg: string)

  /** One factory `Send`: the packets handed to the sink, bytes consumed, the error if any. */
  datatype FactoryRun = FactoryRun(emitted: seq<Packet>, consumed: nat, err: Option<string>)

  /** The sender goes on, or has returned. */
  datatype SenderStep = Continue(sock: Socket) | Stopped(sock: Socket)

  /**
   * One iteration of the sender. `factory` is the packet factory's `Send`,
   * called with the bytes just read; the packets it emitted went through
   * the sink into the controller before it returned, so they stay
   * registered even when the factory then fails.
   */
  function Sender(s: Socket, read: ReadResult, factory: seq<Byte> -> FactoryRun, forward: Atc.Forward): (r: SenderStep)
    ensures read.ReadFailed? ==> r == Stopped(s)
    ensures read.Data? ==>
      var run := factory(read.bytes);
      && r.sock.atc == SinkAll(s.atc, run.emitted, forward).ctrl
      && (r.Stopped? <==> run.err.Some?)
      && r.sock.txBytes == (if run.err.Some? then s.txBytes else (s.txBytes + run.consumed) % TwoTo32)
      && r.sock == s.(atc := r.sock.atc, txBytes := r.sock.txBytes)
    ensures Valid(s) ==> Valid(r.sock)
  {
    match read
    case ReadFailed(_) => Stopped(s)
    case Data(bytes) =>
      var run := factory(bytes);
      var registered := s.(atc := SinkAll(s.atc, run.emitted, forward).ctrl);
      if run.err.Some? then Stopped(registered)
      else
        AddU32Twice(s.txBytes, 0, run.consumed);
        Continue(registered.(txBytes := AddU32(s.txBytes, run.consumed)))
  }

  /**
   * The composed machine: a packet the sender registered is forgotten as
   * soon as the receiver takes an inbound packet acknowledging its
   * sequence number, with nothing else queued ahead of it.
   */
  lemma SentThenAcked(s: Socket, read: ReadResult, factory: seq<Byte> -> FactoryRun,
                      forward: Atc.Forward, i: nat, reply: Packet)
    requires read.Data? && i < |factory(read.bytes).emitted|
    requires s.inQueue == []
    requires reply.ackNo == factory(read.bytes).emitted[i].seqNo
    ensures factory(read.bytes).emitted[i].seqNo in Sender(s, read, factory, forward).sock.atc.inFlight
    ensures
      var after := Sender(s, read, factory, forward).sock;
      var next := ReceiverStep(after.(inQueue := [reply]));
      && next.Some?
      && reply.ackNo !in next.value.atc.inFlight
      && next.value.inQueue == []
  {
  }
}
