/**
 * The "air traffic controller": the map of packets sent but not yet
 * acknowledged, keyed by sequence number. The mutex is dropped (each
 * operation is one atomic transition) and so is the acknowledgement wait,
 * which is stored but never consulted: no retransmission happens here.
 */
module Atc {
  import opened Wrappers
  import opened Rdtp

  /** The one-second default acknowledgement wait, in milliseconds. */
  const DefaultAckWaitMillis: nat := 1000

  datatype Controller = Controller(ackWaitMillis: nat, inFlight: map<U32, Packet>)

  /** Every entry is filed under its own packet's sequence number. */
  predicate Valid(c: Controller)
  {
    forall n :: n in c.inFlight ==> c.inFlight[n].seqNo == n
  }

  /** The configured forward function: success, or an error message. */
  type Forward = Packet -> Outcome<string>

  /**
   * The controller after a `Send`, the packets handed to the forward
   * function during the call, in call order, and the error returned.
   */
  datatype SendResult = SendResult(ctrl: Controller, forwarded: seq<Packet>, err: Option<string>)

  /** A new controller: default wait, nothing in flight. */
  function NewAirTrafficCtrl(): (c: Controller)
    ensures |c.inFlight| == 0
    ensures c.ackWaitMillis == DefaultAckWaitMillis
    ensures Valid(c)
  {
    Controller(DefaultAckWaitMillis, map[])
  }

  /**
   * Registers `p` under its sequence number, then forwards it. A failed
   * forward is reported but the registration stays.
   */
  function Send(c: Controller, p: Packet, forward: Forward): (r: SendResult)
    ensures p.seqNo in r.ctrl.inFlight && r.ctrl.inFlight[p.seqNo] == p
    ensures r.ctrl.inFlight.Keys == c.inFlight.Keys + {p.seqNo}
    ensures forall n :: n in c.inFlight && n != p.seqNo ==> r.ctrl.inFlight[n] == c.inFlight[n]
    ensures r.ctrl.ackWaitMillis == c.ackWaitMillis
    ensures r.forwarded == [p]
    ensures r.err.None? <==> forward(p).Pass?
    ensures forward(p).Fail? ==> r.err == Some("could not send packet: " + forward(p).error)
    ensures Valid(c) ==> Valid(r.ctrl)
  {
    var registered := c.(inFlight := c.inFlight[p.seqNo := p]);
    match forward(p)
    case Pass => SendResult(registered, [p], None)
    case Fail(e) => SendResult(registered, [p], Some("could not send packet: " + e))
  }

  /** Forgets the packet sent under `num`, if there is one; never fails. */
  function Ack(c: Controller, num: U32): (r: Controller)
    ensures num !in r.inFlight
    ensures r.inFlight.Keys == c.inFlight.Keys - {num}
    ensures forall n :: n in r.inFlight ==> r.inFlight[n] == c.inFlight[n]
    ensures r.ackWaitMillis == c.ackWaitMillis
    ensures Valid(c) ==> Valid(r)
  {
    c.(inFlight := c.inFlight - {num})
  }

  /** Acknowledging a sequence number that is not in flight changes nothing. */
  lemma AckAbsentIsNoOp(c: Controller, num: U32)
    requires num !in c.inFlight
    ensures Ack(c, num) == c
  {
  }

  /** Acknowledging twice is acknowledging once. */
  lemma AckIdempotent(c: Controller, num: U32)
    ensures Ack(Ack(c, num), num) == Ack(c, num)
  {
  }

  /**
   * Acknowledging a sent packet's sequence number leaves no entry for it,
   * whether the forward succeeded or not, and leaves the map as if only
   * the acknowledgement had happened: the registration is undone exactly.
   */
  lemma SendThenAck(c: Controller, p: Packet, forward: Forward)
    ensures p.seqNo !in Ack(Send(c, p, forward).ctrl, p.seqNo).inFlight
    ensures Ack(Send(c, p, forward).ctrl, p.seqNo) == Ack(c, p.seqNo)
    ensures p.seqNo !in c.inFlight ==> Ack(Send(c, p, forward).ctrl, p.seqNo) == c
  {
  }

  /** A call the controller receives: `Send` of a packet or `Ack` of a sequence number. */
  datatype Event = SendEvent(p: Packet) | AckEvent(num: U32)

  /** The sequence number an event is about. */
  function Subject(e: Event): U32
  {
    match e
    case SendEvent(p) => p.seqNo
    case AckEvent(num) => num
  }

  /** The controller after the calls `events`, in order, whatever each forward returned. */
  function Run(c: Controller, events: seq<Event>, forward: Forward): Controller
    decreases |events|
  {
    if |events| == 0 then c
    else
      var before := Run(c, events[..|events| - 1], forward);
      match events[|events| - 1]
      case SendEvent(p) => Send(before, p, forward).ctrl
      case AckEvent(num) => Ack(before, num)
  }

  /** The last event of `events` about sequence number `n`, if any. */
  function LastAbout(events: seq<Event>, n: U32): Option<Event>
    decreases |events|
  {
    if |events| == 0 then None
    else if Subject(events[|events| - 1]) == n then Some(events[|events| - 1])
    else LastAbout(events[..|events| - 1], n)
  }

  /**
   * After any history of calls, `n` is in flight exactly when the last call
   * about `n` was a `Send`, and then it holds that call's packet; with no
   * call about `n` its entry is as before. Forward failures make no
   * difference, since a registration is never rolled back.
   */
  lemma {:induction false} InFlightIffLastSend(c: Controller, events: seq<Event>, forward: Forward, n: U32)
    ensures LastAbout(events, n).None? ==>
      (n in Run(c, events, forward).inFlight <==> n in c.inFlight)
      && (n in c.inFlight ==> Run(c, events, forward).inFlight[n] == c.inFlight[n])
    ensures LastAbout(events, n).Some? ==>
      (n in Run(c, events, forward).inFlight <==> LastAbout(events, n).value.SendEvent?)
    ensures LastAbout(events, n).Some? && LastAbout(events, n).value.SendEvent? ==>
      Run(c, events, forward).inFlight[n] == LastAbout(events, n).value.p
    decreases |events|
  {
    if |events| > 0 {
      InFlightIffLastSend(c, events[..|events| - 1], forward, n);
    }
  }

  /** Any history of calls from a valid controller leaves it valid. */
  lemma {:induction false} RunKeepsValid(c: Controller, events: seq<Event>, forward: Forward)
    requires Valid(c)
    ensures Valid(Run(c, events, forward))
    decreases |events|
  {
    if |events| > 0 {
      RunKeepsValid(c, events[..|events| - 1], forward);
    }
  }
}
