# rdtp core, modelled in Dafny

A model of three small sequential pieces of the rdtp reliable transport (a
minimal TCP-like protocol over raw IP):

- the **air traffic controller** (`atc/atc.go`): the map from 32-bit
  sequence number to the packet sent under it and not yet acknowledged,
  with `Send` (register, then forward) and `Ack` (delete);
- the **port-service socket** (`service/ports/socket/socket.go`): the
  validation order of `New`, the socket identity, `WaitForControlPacket`'s
  flag matching, and one iteration of the `receive` and `transmit` pumps;
- the **simple socket** (`socket/socket.go`): one iteration of `receiver`
  (acknowledge in the controller, count, write) and of `sender` (read,
  packetize, count), and the packet-factory sink that swallows the
  controller's error.

Every operation is a pure function on immutable values. A channel is a
sequence (`inbound` / `inQueue` hold the packets delivered and not yet
taken); the application connection's output is the sequence of bytes
written to it; `uint32` counters are integers in `[0, 2^32)` and every
`+= uint32(n)` is written out as an addition modulo 2^32. Packets keep only
the fields the core reads: sequence number, acknowledgement number, the
length field, the four flags and the payload.

Foreign calls become parameters: `net.ParseIP(h) != nil` is a predicate
`parsesAsIP`; the controller's forward function is a function from packet to
success-or-error; application reads are a `ReadResult` value; the packet
factories are functions from the bytes read to what the factory returned
(and, for the simple socket, the packets it handed to its sink). A timeout
is an empty inbound queue.

Files: `wrappers.dfy` (Option/Result/Outcome), `rdtp.dfy` (integers,
packets, addresses, socket identity), `atc.dfy`, `service_socket.dfy`,
`simple_socket.dfy`.

Source behaviour the model keeps deliberately:

- `Atc.Send` keeps the registration when forwarding fails: the entry is
  written at `atc/atc.go:40` before the forward call at `atc/atc.go:42`,
  and the error return at `atc/atc.go:43` does not remove it.
- `ServiceSocket.New` parses the local host a second time in the remote
  check (`service/ports/socket/socket.go:63`), so a remote address whose
  host is not an IP is accepted.
- The port-service `receive` pump (`service/ports/socket/socket.go:182-184`)
  acknowledges nothing; only the simple socket's `receiver`
  (`socket/socket.go:89`) calls `Ack`.
- There is no retransmission: `ackWait` is set at `atc/atc.go:29` and never
  read.
- `socket/socket.go:34-36` passes `NewAirTrafficCtrl` a closure without an
  error result, which does not match the forward signature in
  `atc/atc.go:27`; the model keeps the forward function general (success or
  error), which covers a forward that always succeeds.
- Each iteration of the transmit pump gets its own packetizer answer: the
  factory behind `PackAndForwardMessage` (`service/ports/socket/socket.go:205`)
  keeps state and sends through the network (`service/ports/socket/socket.go:73-77`),
  so the same bytes may be accepted once and refused the next time.

## Model

| member | source | states |
|---|---|---|
| Atc.NewAirTrafficCtrl | atc/atc.go:27-32 | a new controller has nothing in flight, the one-second default acknowledgement wait, and satisfies the invariant that every entry is filed under its own packet's sequence number |
| Atc.Send | atc/atc.go:36-47 | after `Send(p)` the map sends `p.seqNo` to `p` (replacing any earlier packet), other entries keep their packet, the forward function is called exactly once with `p`, an error (prefixed "could not send packet: ") is returned iff forwarding failed, with the entry registered either way, and the invariant is preserved |
| Atc.Ack | atc/atc.go:50-55 | `Ack(n)` removes exactly the key `n`, leaves every other entry's packet unchanged and preserves the invariant |
| Atc.AckAbsentIsNoOp | atc/atc.go:54 | acknowledging a sequence number that is not in flight leaves the controller unchanged (silent no-op) |
| Atc.AckIdempotent | atc/atc.go:50-55 | acknowledging twice equals acknowledging once |
| Atc.SendThenAck | atc/atc.go:36-55 | `Send(p)` then `Ack(p.seqNo)` leaves no entry for `p.seqNo`, equals `Ack` alone, and restores the original controller when `p.seqNo` was not in flight, whatever the forward returned |
| Atc.InFlightIffLastSend | atc/atc.go:36-55 | after any history of `Send` and `Ack` calls, a sequence number is in flight iff the last call about it was a `Send`, and then it holds that call's packet; with no call about it the entry is as before; forward failures make no difference |
| Atc.RunKeepsValid | atc/atc.go:40-54 | every history of `Send` and `Ack` calls keeps every entry filed under its own packet's sequence number |
| Rdtp.SocketId | socket/socket.go:66-68 | the identity is the local address string, then one space, then the remote address string; both sockets' `Id` functions (`ServiceSocket.Id`, `SimpleSocket.Id`) are defined as this |
| Rdtp.SocketIdInjective | service/ports/socket/socket.go:95-97 | when hosts contain no space, equal identities mean equal local and equal remote addresses |
| ServiceSocket.New | service/ports/socket/socket.go:59-92 | `New` succeeds iff all four checks pass; checks run in the order local, remote, application, network and the first failing one's message is returned; "invalid local address" iff the local address is nil or its host does not parse; "remote address cannot be nil" iff the local check passed and the remote is nil; a successful socket has the given addresses, zero counters and empty queues |
| ServiceSocket.NewAcceptsUnparsableRemoteHost | service/ports/socket/socket.go:63-65 | a remote address whose host does not parse as an IP is accepted, because the remote check parses the local host |
| ServiceSocket.Deliver | service/ports/socket/socket.go:147-150 | delivering appends exactly the one packet to the end of the inbound queue and changes nothing else |
| ServiceSocket.WaitForControlPacket | service/ports/socket/socket.go:119-140 | with an empty queue it times out and changes nothing; otherwise it consumes exactly the head packet, succeeds iff its four flags equal the wanted ones, and on mismatch names the first differing flag in the order SYN, ACK, FIN, ERR with the wanted and the received value |
| ServiceSocket.MessageIdentifiesError | service/ports/socket/socket.go:123-137 | the error texts are the Go strings and identify the error: different errors (timeout, or a mismatch with its flag, wanted and received value) never share a text |
| ServiceSocket.DeliverThenWait | service/ports/socket/socket.go:119-150 | a packet delivered to an empty queue is the one the next wait judges: success iff its flags are the wanted ones, and the queue is empty afterwards |
| ServiceSocket.ReceiveStep | service/ports/socket/socket.go:182-184 | one receive step pops the head packet, adds its length field to `rxBytes` modulo 2^32, appends its payload to the application output and changes nothing else; with an empty queue no step happens |
| ServiceSocket.ReceiveAll | service/ports/socket/socket.go:176-187 | draining the queue writes all payloads in queue order and adds the total length modulo 2^32 |
| ServiceSocket.Transmit | service/ports/socket/socket.go:196-211 | a non-EOF read error changes nothing and continues; EOF signals shutdown and stops; a packetizer error stops with `txBytes` unchanged; success adds the consumed count to `txBytes` modulo 2^32 |
| ServiceSocket.TransmitRun | service/ports/socket/socket.go:189-214 | over a sequence of iterations, each with its own read result and packetizer answer, the pump shuts down iff an EOF comes before any packetizer failure, stops iff a failure comes first, and `txBytes` grows by exactly the bytes accepted before that point, modulo 2^32 |
| SimpleSocket.NewSocket | socket/socket.go:32-63 | a factory construction error is returned wrapped as "could not initialize new packetfactory: ..."; otherwise the socket has the given addresses, zero counters, empty queues and an empty in-flight map satisfying the controller invariant |
| SimpleSocket.Sink | socket/socket.go:41-44 | the factory sink always returns nil, yet the packet is registered in the controller even when forwarding failed; the controller invariant is preserved |
| SimpleSocket.SinkAll | socket/socket.go:41-45 | the packets one factory call hands to the sink are all forwarded in order and registered, the last packet per sequence number winning, with every other entry unchanged, no error reported and the controller invariant preserved |
| SimpleSocket.ReceiverStep | socket/socket.go:87-91 | one receiver step pops the head packet, removes exactly the entry keyed by its `ackNo` from the in-flight map, adds its length field to `rxBytes` modulo 2^32, appends its payload and preserves the controller invariant |
| SimpleSocket.ReceiveAll | socket/socket.go:85-93 | draining `In` removes exactly the acknowledged sequence numbers from the in-flight map, writes the payloads in queue order, adds the total length modulo 2^32 and preserves the controller invariant |
| SimpleSocket.Sender | socket/socket.go:95-108 | a read error stops with nothing changed; otherwise the emitted packets are registered, a factory error stops with `txBytes` unchanged, success adds the consumed count modulo 2^32, and the controller invariant is preserved |
| SimpleSocket.SentThenAcked | socket/socket.go:85-106 | a packet the sender registered is removed from the in-flight map by the receiver step that takes an inbound packet acknowledging its sequence number |

## Left out

- Goroutines, channels' blocking behaviour, `Run`'s select loop, the `done` branch of the receive and transmit pumps, and `Close` (send-then-close on the shutdown channel, closing the application connection): concurrency and lifecycle plumbing. Only single pump iterations (and their repetition) over sequences are modelled; shutdown is a flag set by the transmit step.
- The inbound channel's capacity of 100 (`service/ports/socket/socket.go:89`) and a blocked `Deliver` on a full channel: blocking is not modelled, `Deliver` appends.
- `signal.Notify` and OS signals; `time.After` (a timeout is an empty queue); the controller's mutex (each operation is atomic).
- Retransmission timers: none exist in the code, and the acknowledgement wait is never read.
- `net.ParseIP`, `network.Network.Send`, `netwk.Network.Send`, the `toNetwork` closure that stamps source and destination IPs, and the `net.Conn` Read/Write/Close calls: foreign calls, replaced by parameters as described above. Errors of `Write` are ignored by the code and are not modelled.
- The packet codec, checksum and the packet factories (`packet`, `factory`, `pckfactory`), `SendControlPacket` (which only delegates to the factory): not part of this model; the factories are opaque parameters.
- The 1500-byte read buffer: a read result may carry any number of bytes.
- The address string form: `rdtp.Addr` and its `String` method are not part of this model. The model assumes the canonical `host:port` form, with the port in decimal.
- `LocalAddr`/`RemoteAddr` accessors: plain field reads.
- Logging of the packetizer error.
