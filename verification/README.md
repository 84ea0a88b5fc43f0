# Verification model of the CAN crate

A Dafny model of the crate's four hardest parts, with proofs about it:

- **ISO-TP** (`src/isotp/mod.rs`, section 9.6 of ISO 15765-2:2016): a sender and a receiver as step machines joined by two
  FIFO queues. `IsoTp` holds the machines; `IsoTpConn` the imperative `send` and `recv`, each proved to do exactly what its
  machine does, over a bus that may refuse a frame; the other `IsoTp*` modules the properties of whole transfers,
  `IsoTpLossMany` those of several transfers over a lossy bus.
- **End-to-end protection** (`src/safety/mod.rs`, `src/crc.rs`): the CRC loops over `bv16`, the header, and the
  protector and receiver classes (`Crc16`, `Safety`). `LinearRegister` and `ErrorPatterns` prove what any linear feedback
  register detects, `CrcRegister` and `CrcPeriod` instantiate them for polynomial 0x1021, `Detection` carries the result to
  `unwrap`. `FlipPatterns` shows that every flip pattern comes from a frame, so each failure has an input, and `WireErrors`
  restates flips and bursts in the order in which the bits travel.
- **Queueing** (`src/bus.rs`, `src/virtual_bus/mod.rs`, `src/adapt.rs`): `SubQueue` (policies and rate limit), `RecvLoop`
  (`FrameReceiver::recv` and its wake-ups), `Subscriber`, `VirtualBus` and `BusCounters` (concurrent sends, subscriptions,
  closes and receivers), `BusLifecycle` (whole calls, and what each leaves), `BusInner` (the broadcast loop over the
  subscriber list) and `BusRefinement` (the locked section of `send` on the objects is the machine's steps), `AdaptQueue`
  (the adapter pipeline).
  Tasks interleave between locked sections, atomic accesses and operations on a `Notify`; `notify_one` wakes a waiter or
  stores one permit, `notify_waiters` only wakes.
- **Codecs** (`src/dbc/mod.rs`, `src/recorder/mod.rs`): bit-walking signal extraction against integer slices (`Bits`, `Dbc`)
  and the candump printer and parser (`Text`, `Recorder`). `Candump` says what the format is without saying how it is read
  or printed; `RecorderFormat` proves the two agree with it on every text.

`IsoTp` and `Frames` (`src/frame.rs`) are the data models the rest builds on, `Relay`, `Subsequences` and `Wrappers` hold what
several parts share. `dafny verify dfyconfig.toml` checks the project; with
`--resource-limit 2000000 --verification-time-limit 0 --warn-contradictory-assumptions` it does so under a stricter limit.

Where code and documentation differ, the model follows the code:

- `rate_limit_per_sec` is documented as a maximum per second, within any one-second window, and commented as a sliding window
  (src/relay.rs:159, src/bus.rs:68). The window tumbles. The limit is kept in an interval of whole seconds, whatever is
  pushed and popped, exactly when the interval begins no later than the subscription, or just as its first second ends, or
  later than that with a limit of one frame (`SubQueue.LimitHoldsIff`). An interval that begins inside the first second can
  see (T + 1) * limit frames in T seconds, a later one (T + 1) * limit - 1; both are reached under every policy.
- The Hamming distance claim (src/safety/mod.rs:41-43) holds for the bits the CRC protects, bytes 4 to the end. Bytes 0-3 are
  rebuilt by the receiver from its own configuration and never looked at: up to three flips are rejected exactly when one of
  them is not there (`FlipPatterns.UpToThreeRejectedIff`). The distance is not more than 4
  (`FlipPatterns.FourFlipsAccepted`), and in longer frames two flips 32767 bits of the code word apart cancel
  (`FlipPatterns.TwoFlipsAccepted`).
- A burst of 16 bits on the wire is always noticed within the counter, the CRC field or the payload. Across a boundary of the CRC
  field it is not, because the field is sent low byte first and between the bytes it covers:
  `WireErrors.WireBurstRejectedIff` says which pass, `WireErrors.BurstCanPass` gives one.
- The replay protection (`unwrap` rejects counters that do not advance) fails for a replay of two frames in order:
  `Safety.ReplayAcceptedIff`, `Safety.ReplayCanPass`.
- `pop` and `recv` promise to return once the queue is closed and drained. A close that falls between the load of `closed` and
  the registration of the waiter is missed; `AdaptQueue.StuckMeansFinished` and `RecvLoop.ReturnsOnClosedIff` say exactly
  when.
- ISO-TP has no mark that tells one transfer from the next. Over a lossy bus a receiver can return the head of any segmented
  payload with the tail of any second one at least as long, although no wait ends while a frame for it is queued
  (`IsoTpLossMany.MixtureIsReceived`). It cannot if no `send` starts before the connection is quiet: both queues empty, no flow
  control owed and no message still to be returned (`IsoTpLossMany.QuietSendsAreSafe`).
- Arithmetic that overflows is a failure, as in a build with overflow checks (`Dbc`).

## Model

| member | source | states |
|---|---|---|
| IsoTpConn.Connection.WaitFc | src/isotp/mod.rs:338-356 | On an empty inbox reports the timeout, or Closed when the subscription has ended; otherwise takes exactly one frame and refuses it unless it has at least 3 bytes and the first is 0x30 to 0x3F. |
| IsoTpConn.Connection.WaitClear | src/isotp/mod.rs:278-281 | One awaited flow control leaves the call where the waiting sender machine is left: finished with its error, which is ReceiverOverflow only on a first byte of 0x32, or sending with that flow control and a cleared block count. |
| IsoTpConn.Connection.ClearWait | src/isotp/mod.rs:286-297 | The WAIT loop ends with a flow control whose low digit is neither 1 nor 2, or with the machine's error, after exactly the frames the machine would have read; without a 1 it reads none. |
| IsoTpConn.Connection.SendCf | src/isotp/mod.rs:299-311 | One Consecutive Frame moves the call to the machine's next state, or the bus refuses it and the call ends as the machine does. |
| IsoTpConn.Connection.EndSentBlock | src/isotp/mod.rs:325-332 | At a block boundary, and only there, the next flow control is awaited and adopted and the count cleared, as in the machine. |
| IsoTpConn.Connection.SendBlocks | src/isotp/mod.rs:283-335 | The whole sending loop, the error of a refused frame included, has the machine's result, leaves unread what it leaves unread, and puts on the bus what it puts on the bus. |
| IsoTpConn.Connection.SendMultiFrame | src/isotp/mod.rs:261-336 | A segmented send, from First Frame to result, is the sender machine's run on the inbox and the bus, whichever frame the bus refuses. |
| IsoTpConn.Connection.SendSingleFrame | src/isotp/mod.rs:252-259 | Puts exactly one frame on the bus, the length nibble and the payload, and reads nothing; a bus that refuses it gives SendFailed and nothing sent. |
| IsoTpConn.Connection.Send | src/isotp/mod.rs:133-146 | `send` on any payload, including the two refused kinds, is the sender machine's run on the inbox, over a bus that takes any number of frames before it refuses one. |
| IsoTpConn.Connection.NextCf | src/isotp/mod.rs:193-211 | Reads one frame and applies the three checks in the machine's order, with the machine's error; a frame that passes begins with 0x20 plus the number modulo 16. |
| IsoTpConn.Connection.EndTakenBlock | src/isotp/mod.rs:224-236 | Exactly when a block is full and bytes are missing, one flow control is sent and the count cleared, or the bus refuses it and the call fails, as in the machine. |
| IsoTpConn.Connection.Collect | src/isotp/mod.rs:189-239 | The reassembly loop, with its two counters, the flow controls it owes and a bus that may refuse one, is the receiver machine's run. |
| IsoTpConn.Connection.TakeFirstFrame | src/isotp/mod.rs:160-245 | What follows a first frame of any kind, each of its errors and a refused first flow control, is the receiver machine's run from there. |
| IsoTpConn.Connection.Recv | src/isotp/mod.rs:151-246 | `recv` on any sequence of incoming frames is the receiver machine's run: result, frames left unread, frames sent, over a bus that may refuse a flow control. |
| IsoTpDelivery.Diamond | src/isotp/mod.rs:151-336 | When both parties can step, either order leads to the same state. |
| IsoTpDelivery.RunsConverge | src/isotp/mod.rs:151-336 | If one run reaches a stuck state, every other run can be completed to it, in the same total number of steps. |
| IsoTpDelivery.OneCf | src/isotp/mod.rs:192-236 | One Consecutive Frame sent and taken keeps both parties in step: same byte position, same sequence number, and the same view of whether a flow control is owed. |
| IsoTpDelivery.DeliveryUnderEveryInterleaving | src/isotp/mod.rs:133-336 | For every list of payloads (valid or refused), every receiver configuration and every interleaving: no run exceeds one fixed length, no shorter run is stuck, and the run ends with exactly the valid payloads received in order, every send answered and both queues empty. |
| IsoTpOccupancy.SenderKeepsJoint | src/isotp/mod.rs:286-333 | A sender step keeps the joint invariant: bytes received, in flight and unsent make up the payload, and both block counters agree on when a flow control is owed. |
| IsoTpOccupancy.ReceiverKeepsJoint | src/isotp/mod.rs:189-239 | A receiver step keeps it too. |
| IsoTpOccupancy.JointAlways | src/isotp/mod.rs:151-336 | The joint invariant holds in every reachable state of a transfer. |
| IsoTpOccupancy.OccupancyBound | src/isotp/mod.rs:219-236 | At most one flow control is pending, and no more frames are in flight than one block, or the whole transfer when blocks are unlimited. |
| IsoTpOccupancy.KeptIsPushed | src/bus.rs:84-91 | The bounded queue of the next rows is a subscription with default options: capacity and drop-newest rule are those of its push. |
| IsoTpOccupancy.BoundedRunIsRun | src/bus.rs:84-91 | With queues of 64 slots that drop the newest frame, runs that fit behave exactly as over unbounded queues. |
| IsoTpOccupancy.FloodFromStart | src/bus.rs:84-91 | Otherwise there is a schedule on which a frame is dropped. |
| IsoTpOccupancy.NoFrameIsDroppedIff | src/virtual_bus/mod.rs:177-179 | The default 64-slot queues never change a run if and only if the block size is 1 to 64 or the transfer has at most 64 Consecutive Frames. |
| IsoTpLoss.SenderSafe | src/isotp/mod.rs:299-311 | Each frame sent is the next segment of the payload, numbered modulo 256. |
| IsoTpLoss.ReceiverSafe | src/isotp/mod.rs:190-239 | A receiver that missed a segment can only fall further behind the byte count, even when sequence numbers line up again after 16 losses. |
| IsoTpLoss.NothingButThePayload | src/isotp/mod.rs:151-336 | For a connection that sends one payload: whatever frames are lost, in either direction, whenever and with whatever error either call is given up (a timeout, a closed or a failing bus), and however often `recv` is called, no call returns anything but the payload sent, and at most one returns it. |
| IsoTpLossMany.QuietSendsAreSafe | src/isotp/mod.rs:133-336 | For any list of payloads: if no `send` starts before both queues are empty and the receiver neither owes a flow control nor holds a complete message, though it may still be collecting an abandoned one, the payloads received under any loss are some of those sent, each at most once and in order. |
| IsoTpLossMany.MixtureIsReceived | src/isotp/mod.rs:189-239 | Without that: for every payload p of 8 to 4095 bytes, every q at least as long and every block size, a run on which `recv` returns the first 6 bytes of p followed by those of q from byte 6 to the length of p; the first `send` gives up before the flow control reaches it. |
| IsoTpScript.RunKeepsRules | src/isotp/mod.rs:278-335 | From any point of a transfer, every later event is the one due and the result is the one due, by the rules below. |
| IsoTpScript.RunReadsInOrder | src/isotp/mod.rs:338-345 | The sender consumes incoming frames in order, each at most once. |
| IsoTpScript.SenderObeysAnyPeer | src/isotp/mod.rs:261-356 | For every payload, every sequence of incoming frames and every bus, byte by byte: an empty or too long payload is refused; up to 7 bytes are one frame, the length and the payload; otherwise frame 0 is 0x1L, the low length byte and 6 bytes, frame k is 0x20 plus k mod 16 and the next 7 bytes; a frame goes out exactly when the last flow control is 0x30 to 0x3F, its low digit is neither 1 nor 2 and its block is not used up, one is awaited exactly when there was none, it says 1, or its block is used up; and the result is what the end of that history calls for. The frames read, the frames left and the room on the bus add up. |
| IsoTpScript.FlowStatus | src/isotp/mod.rs:278-308 | A waiting sender, by the first byte of the flow control: 0x32 ends the call with ReceiverOverflow, 0x31 sends nothing and waits again, any other 0x3x lets the next Consecutive Frame out. |
| IsoTpAnswers.ReceiverObeysAnyPeer | src/isotp/mod.rs:151-246 | For every sequence of incoming frames, every block size and every bus, byte by byte: 0x30, block size, STmin is sent exactly after the First Frame and after each full block with bytes missing; and the result is a message, an error that names what is wrong with the last frame read, silence while a frame is due, or the bus's refusal of a flow control that is due. |
| IsoTpAnswers.CfCount | src/isotp/mod.rs:219-236 | On a Consecutive Frame a flow control falls due exactly when the number of frames since the First Frame is a multiple of a non-zero block size. |
| IsoTpRoundTrip.FollowSender | src/isotp/mod.rs:189-336 | A receiver at the sender's position reassembles whatever the sender goes on to send. |
| IsoTpRoundTrip.RecvUndoesSend | src/isotp/mod.rs:133-336 | If `send` ends with Ok against any script of flow controls, `recv` of the frames it sent returns the payload and leaves what follows unread, for any receiver block size, as long as the bus takes the receiver's flow controls. |
| IsoTpReassembly.TakesNext | src/isotp/mod.rs:198-217 | One frame on a collecting receiver: refused unless its first byte is 0x20 plus the next number modulo 16; otherwise its bytes are kept up to the announced length. |
| IsoTpReassembly.Collecting | src/isotp/mod.rs:192-239 | From any point of the loop, the result and the frames consumed are what the definition of a message says. |
| IsoTpReassembly.RecvAcceptsIff | src/isotp/mod.rs:151-246 | Against any sequence of incoming frames: `recv` returns m exactly when the frames it consumed are a well-formed message with content m (independently defined: single, or First Frame and numbered Consecutive Frames reaching the announced length with the last one), and if any first frames form a message, those are the ones consumed, unless the bus refused a flow control and `recv` says so. |
| Crc16.Crc16Cont | src/safety/mod.rs:294-307 | The nested loop computes the residue of the bit stream, continued from any start value. |
| Crc16.Crc16CcittFalse | src/crc.rs:13-27 | The residue of the bit stream in a register that starts as sixteen ones: 0xFFFF for no bytes, and 0x29B1 for the bytes of "123456789". |
| Crc16.OfTurn | src/crc.rs:19-23 | One turn of the inner loop on the machine word is one shift of the abstract feedback register. |
| Crc16.ByteStep | src/crc.rs:17-24 | Adding a byte to the high half and turning eight times feeds its eight bits, most significant first. |
| Crc16.CrcIsResidue | src/crc.rs:13-27 | The CRC of any bytes from any start is the register's residue of their bit stream. |
| Crc16.CrcContinues | src/safety/mod.rs:286-287 | Computing over the header and continuing over the payload is computing over both. |
| CrcRegister.Lawful | src/crc.rs:15-26 | The 16-bit register with polynomial 0x1021 satisfies the laws of a linear feedback register: XOR linearity and an injective shift among them. |
| CrcRegister.PolynomialIsEven | src/crc.rs:14 | The polynomial has an even number of terms, so a shift keeps parity. |
| LinearRegister.Register.ResidueLinear | src/crc.rs:16-25 | The residue of two streams XORed is the XOR of their residues, for any such register. |
| LinearRegister.Register.PowInjective | src/crc.rs:19-23 | Any number of shifts is injective. |
| ErrorPatterns.OddWeightDetected | src/crc.rs:15-26 | With an even polynomial, any odd number of flips leaves a non-zero residue. |
| ErrorPatterns.TwoFlips | src/crc.rs:15-26 | Two flips cancel exactly when shifting the register by their distance brings the high bit back. |
| ErrorPatterns.BurstDetected | src/crc.rs:15-26 | A non-zero change within one register width leaves a non-zero residue. |
| ErrorPatterns.PrimeDividesPeriod | src/crc.rs:19-23 | If q * p is a period and q is not, every period is a multiple of the prime p. |
| CrcPeriod.IsFrobenius | src/crc.rs:14-23 | Squaring of polynomials is compatible with the reduction, so powers can be computed by repeated squaring. |
| CrcPeriod.PeriodIs | src/crc.rs:19-23 | The register step returns to its start after d steps if and only if d is a multiple of 32767. |
| Safety.CopyInto | src/safety/mod.rs:280-282 | Copies the bytes to their place and leaves every other byte of the header alone. |
| Safety.BuildHeader | src/safety/mod.rs:278-291 | Fills the array byte by byte as documented: both identifiers, the counter and the CRC of bytes 0-7 and the payload, each low byte first, the CRC being the residue from sixteen ones. |
| Safety.Protector.Protect | src/safety/mod.rs:167-175 | Returns that header for the counter it found, then the payload, and leaves the counter one further, modulo 2^32. |
| Safety.Receiver.Unwrap | src/safety/mod.rs:220-264 | Check by check as documented: under 10 bytes HeaderTooShort, another CRC than that of the header with the frame's counter CrcMismatch, a counter that does not follow SequenceGap; with the counter each error carries and the state it leaves, for data of any length. |
| Safety.HeaderIff | src/safety/mod.rs:8-16 | Ten bytes are the documented header of a counter and a payload if and only if they are the one that is built. |
| Safety.ProtectedFields | src/safety/mod.rs:278-291 | A protected frame reads back as its counter and payload and passes the check of its own configuration. |
| Safety.StreamIsChecked | src/safety/mod.rs:220-264 | For one protector's frames in any order, lost or repeated, mixed with any refused data: a frame yields its payload if it is the first genuine one or directly follows the previous genuine one, and SequenceGap otherwise, across the 32-bit wrap; junk is HeaderTooShort under 10 bytes, CrcMismatch from there on, and changes nothing. |
| Safety.ReplayAcceptedIff | src/safety/mod.rs:249-260 | A frame received before is accepted again exactly when its counter follows that of the genuine frame received last; directly after itself it never is. |
| Safety.ReplayCanPass | src/safety/mod.rs:249-260 | Frames 0, 1, 0, 1: the second copy of frame 1 is accepted. |
| Detection.AcceptedIffZero | src/safety/mod.rs:234-246 | `unwrap` accepts the CRC exactly when the code word (counter, payload and CRC, in the order fed) has residue zero. |
| Detection.AcceptedIffFlipsCancel | src/safety/mod.rs:234-246 | A damaged frame is accepted exactly when the damage alone has residue zero. |
| Detection.OddFlipsRejected | src/safety/mod.rs:234-246 | Any odd number of bit flips from byte 4 on, in a frame of any length, is a CrcMismatch that leaves the state alone. |
| Detection.TwoFlipsRejectedIff | src/safety/mod.rs:41-43 | Two flips are rejected if and only if their distance in the code word is not a multiple of 32767 bits. |
| Detection.HammingDistanceAtLeastFour | src/safety/mod.rs:41-43 | One to three flips in a code word of at most 32767 bits are always rejected. |
| Detection.FourFlipsCanCancel | src/safety/mod.rs:41-43 | Four flips of the code word in the pattern of the polynomial are accepted wherever they start. |
| Detection.BurstRejected | src/safety/mod.rs:234-246 | Any non-zero change within 16 consecutive bits of the code word, at any alignment and any payload length, is rejected. |
| Detection.ForeignFrameAcceptedIff | src/safety/mod.rs:235-246 | Exactly which frames of another configuration pass: those whose change of data identifier, shifted by 16, equals the change of source identifier. |
| Detection.WrongIdentifierRejected | src/safety/mod.rs:235-246 | A frame from a configuration that differs in exactly one of the two identifiers is always rejected. |
| FlipPatterns.PatternExists | src/safety/mod.rs:234-246 | Every pattern of flips of the code word is that of some received frame of the same length. |
| FlipPatterns.FourFlipsAccepted | src/safety/mod.rs:41-43 | Every protected frame has, for every start, an accepted changed frame with exactly the four flips of the polynomial. |
| FlipPatterns.TwoFlipsAccepted | src/safety/mod.rs:41-43 | Every frame long enough has, for every two positions a multiple of 32767 apart, an accepted changed frame with exactly those flips. |
| FlipPatterns.IdentifiersAreNotRead | src/safety/mod.rs:230-246 | Frames that differ only in bytes 0-3 get the same answer and leave the same state. |
| FlipPatterns.UpToThreeRejectedIff | src/safety/mod.rs:41-43 | The documented claim, exactly: with a code word of at most 32767 bits and at most three flips in it, a frame is rejected if and only if it changed anywhere but in bytes 0-3. |
| WireErrors.SingleFlipRejectedIff | src/safety/mod.rs:234-246 | A single flipped bit of the frame is rejected if and only if it is not in bytes 0-3. |
| WireErrors.TwoWireFlipsRejectedIff | src/safety/mod.rs:8-16 | Two flips given by their wire positions: rejected if and only if their places in the code word are not a multiple of 32767 apart. |
| WireErrors.WireBurstInOnePiece | src/safety/mod.rs:8-16 | A burst of up to 16 wire bits that touches at most one of counter, CRC field and payload is rejected if and only if something from byte 4 on changed. |
| WireErrors.WireBurstRejectedIff | src/safety/mod.rs:8-16 | Every burst of up to 16 wire bits, those across a boundary of the CRC field included: which ones are missed, from the changed bytes and the payload length. |
| WireErrors.BurstCanPass | src/safety/mod.rs:8-16 | In every protected frame without payload, a 16-bit burst in bytes 7 and 8 that is accepted. |
| AdaptQueue.Queue.TryPush | src/adapt.rs:161-193 | The locked section of `push`, policy by policy: DropOldest leaves the last messages there is room for, DropNewest the first, Block all of them or the queue as it was; and whether the message was stored, discarded or must wait. |
| AdaptQueue.Queue.TryPop | src/adapt.rs:199-206 | The locked section of `pop`: the front message and the rest. |
| AdaptQueue.StepKeepsInv | src/adapt.rs:161-219 | Every step of producer or forwarder keeps the invariant on messages and on owed notifications. |
| AdaptQueue.NoLostWakeUp | src/adapt.rs:161-213 | A sleeping forwarder with messages queued, or a sleeping producer with room, is owed a notification by a task that is awake; both never sleep at once. |
| AdaptQueue.DeliveredInOrder | src/adapt.rs:293-320 | Messages reach the caller with strictly increasing `seq`, message k is the k-th frame, and a `seq` below the last delivered is missing exactly when the queue dropped it, never under Block. |
| AdaptQueue.BlockLosesNothing | src/adapt.rs:180-192 | Under Block, delivered, carried, queued and pending messages together are the frames taken, in order. |
| AdaptQueue.OldestAreDropped | src/adapt.rs:170-179 | In every run under DropOldest the queue, with the message on its way in, holds exactly the newest frames taken, and every dropped message is older than all of them. |
| AdaptQueue.StoredIsKept | src/adapt.rs:162-193 | From any point of any run under DropNewest or Block, what has been stored so far stays delivered, carried or queued, in its order. |
| AdaptQueue.NoneMeansDrained | src/adapt.rs:195-212 | `pop` returns None only when the queue is closed and empty: all frames were taken, and exactly those not dropped have been delivered. |
| AdaptQueue.EveryStepProgresses | src/adapt.rs:161-320 | Every step decreases a measure, so every run ends. |
| AdaptQueue.StuckMeansFinished | src/adapt.rs:195-219 | When nothing can move, every frame was delivered or dropped and the producer has finished; the forwarder has returned unless `close` notified between its load of the flag and its wait. |
| AdaptQueue.CloseCanBeMissed | src/adapt.rs:207-218 | A run on which that happens. |
| SubQueue.SubInner.Push | src/bus.rs:67-109 | Accepted exactly when the limit of the second that runs, or of the one that begins now, is not used up and a DropNewest queue is not full; then the frame goes to the end, and a full DropOldest queue gives up its front; window and count move accordingly. |
| SubQueue.SubInner.Pop | src/bus.rs:112-114 | The front frame and the rest of the queue; nothing else changes. |
| SubQueue.RateBound | src/bus.rs:69-80 | For every history of pushes and pops with a clock that never goes back, at most (T + 1) * limit frames are accepted in any T seconds. |
| SubQueue.RateBoundIsReached | src/bus.rs:69-80 | Under every policy, every interval of T seconds that begins inside the first second after subscribing has a history that meets the bound. |
| SubQueue.RateBoundLater | src/bus.rs:69-80 | From one second after subscribing on, at most (T + 1) * limit - 1 frames are accepted in any T seconds. |
| SubQueue.LaterBoundIsReached | src/bus.rs:69-80 | Every interval that begins later than one second after subscribing has a history that meets that bound, under every policy. |
| SubQueue.LimitHoldsIff | src/relay.rs:159-164 | Every history keeps to T * limit frames in the T seconds from `a` if and only if `a` is no later than the subscription, exactly one second after it, or later than that with limit 1. |
| RecvLoop.StepKeepsInv | src/bus.rs:82-109 | Every push, close or receiver step keeps the wake-up invariant. |
| RecvLoop.QueuedFrameIsReceived | src/bus.rs:151-165 | In every reachable state with a frame queued, a receiver inside `recv` is awake and four of its own steps return the front frame. |
| RecvLoop.NoneMeansDrained | src/bus.rs:157-161 | `recv` returns None only when the queue is closed and empty. |
| RecvLoop.SleepsOnClosedIff | src/bus.rs:122-125 | With all closes completed, a sleeping receiver's queue is closed exactly when a notification came between its load of the flag and its registration. |
| RecvLoop.ReturnsOnClosedIff | src/bus.rs:151-165 | With all closes completed, a receiver inside `recv` on a closed queue returns within five of its own steps if and only if no notification was missed or a permit is stored; otherwise it never returns by itself. |
| RecvLoop.CloseCanBeMissed | src/bus.rs:158-163 | A run on which that happens. |
| Subscriber.PushCases | src/bus.rs:67-109 | A push is refused exactly when the window is full or a DropNewest queue is; it evicts exactly when a DropOldest queue is full; otherwise the frame goes to the end. |
| Subscriber.VisitRefines | src/bus.rs:82-109 | One offered frame keeps order, completeness and capacity as each policy promises. |
| Subscriber.VisitCounts | src/virtual_bus/mod.rs:62-75 | One turn of the broadcast loop moves accepted frames, offers and accepted bytes by exactly what it counts. |
| Frames.MatchesIff | src/frame.rs:197-199 | A frame passes a filter if and only if their ids agree in every binary digit where the mask has a one. |
| Frames.EmptyAndFullMask | src/frame.rs:184-199 | Mask 0 passes every frame, mask 0xFFFFFFFF exactly the filter's own id. |
| Frames.ValidIff | src/frame.rs:261-360 | A frame is valid if and only if it is well-formed by the rules of its format, and an error names the first rule it breaks. |
| BusInner.VirtualSub.Matches | src/virtual_bus/mod.rs:38-43 | True exactly when there are no filters or the frame's id has the digits of one of them wherever its mask has a one. |
| BusInner.BusInner.Broadcast | src/virtual_bus/mod.rs:62-75 | The loop gives every subscriber its own turn, whatever its history, and returns the summed counts. |
| BusInner.TallyCountsMatches | src/virtual_bus/mod.rs:62-75 | Delivered plus dropped is the number of subscribers whose filters pass. |
| BusInner.BusInner.Gc | src/virtual_bus/mod.rs:78-81 | The open subscribers remain, in their order. |
| BusInner.OpenKeepsDistinct | src/virtual_bus/mod.rs:78-81 | None of the remaining is closed, no open one is lost, and none is doubled. |
| BusRefinement.GcIsLive | src/virtual_bus/mod.rs:78-81 | The `gc` loop on the objects keeps the subscribers the machine keeps. |
| BusRefinement.BroadcastIsTurns | src/virtual_bus/mod.rs:62-75 | One machine step per subscriber leads to the summed counts and to the queue each turn computes, filters kept. |
| BusRefinement.BroadcastRefines | src/virtual_bus/mod.rs:62-75 | On objects that mirror the machine, the broadcast loop returns the counts the machine reaches by one step per subscriber, and leaves objects that mirror the machine. |
| BusRefinement.BeginBroadcasts | src/virtual_bus/mod.rs:150-152 | Taking the lock in a reachable state starts such a broadcast, to the open subscribers, all different. |
| BusRefinement.LockedSection | src/virtual_bus/mod.rs:150-153 | The locked section of `send` from any orderly state: `gc` and `broadcast` on objects that mirror the registered subscribers end with the machine's counts and mirror its list and queues after taking the lock and making every turn. |
| VirtualBus.BeginKeepsOrder | src/virtual_bus/mod.rs:150-151 | Taking the lock and removing closed subscribers keeps the invariant: nobody removed was owed the new frame. |
| VirtualBus.VisitKeepsOrder | src/virtual_bus/mod.rs:65-73 | One turn of the loop keeps it, with receivers and closes running beside it. |
| VirtualBus.StepKeepsOrder | src/virtual_bus/mod.rs:134-214 | Every step of every send, subscribe, close and receiver keeps the subscriber list, the lock and each subscriber's history in order. |
| VirtualBus.EverySubscriberIsServed | src/virtual_bus/mod.rs:134-214 | In every reachable state, what a subscriber received plus what is queued is a subsequence of the valid matching frames broadcast while it was registered; all of them under Block without a rate limit; under DropOldest without one the queue is their suffix; the dropping policies stay within capacity. |
| BusLifecycle.OptionsAreKept | src/virtual_bus/mod.rs:168-192 | In every reachable state each subscriber has the filters, policy, rate limit and depth that some `subscribe` of the run asked for, 64 slots where it asked for none. |
| BusLifecycle.SubscribeRuns | src/virtual_bus/mod.rs:168-192 | A call of `subscribe` beside which nothing happens registers an empty open queue with exactly those options; on a closed bus it changes nothing. |
| BusLifecycle.SendRuns | src/virtual_bus/mod.rs:134-162 | A call of `send` beside which nothing happens runs through: a well-formed frame on an open bus is broadcast once to the open subscribers; otherwise one error is counted and nothing else changes. |
| BusLifecycle.CloseRuns | src/virtual_bus/mod.rs:196-214 | A call of `close` beside which nothing happens closes every subscriber there has been and forgets them; a second one does nothing. |
| BusLifecycle.CloseClosesAll | src/virtual_bus/mod.rs:206-212 | In every run, once `close` has held the lock every subscriber registered so far is closed and none is on the list. |
| BusLifecycle.ClosedReceiverLeaves | src/bus.rs:167-170 | A receiver that closes keeps what is queued; in every run from there no broadcast that begins offers it a frame. |
| BusLifecycle.ClosedBusIsQuiet | src/virtual_bus/mod.rs:135-176 | After the flag is set at most the sends already past it are broadcast, and at most the subscriptions already past it registered. |
| BusCounters.StepKeepsDeliveries | src/virtual_bus/mod.rs:152-158 | Every step keeps the delivery counters and the debts of unfinished sends in balance with the subscribers. |
| BusCounters.StepKeepsSends | src/virtual_bus/mod.rs:135-148 | Every step keeps the send counters in balance with the broadcasts. |
| BusCounters.CountersAddUp | src/virtual_bus/mod.rs:134-161 | In every reachable state: deliver_count plus debts is everything received, queued or evicted by all subscribers ever registered; with drop_count it is the number of matching offers; bytes_delivered is the weighted sum; sends begun are errors, broadcasts or still before the lock. |
| BusCounters.CountersWhenIdle | src/virtual_bus/mod.rs:246-255 | Once no send is under way the counters are exact, and delivered plus dropped is computed from the broadcast history and the registration spans alone. |
| Bits.ShiftIsDivision | src/dbc/mod.rs:352-359 | Shifting is division by a power of two and keeping low bits is the remainder. |
| Dbc.LeBits | src/dbc/mod.rs:353-356 | Bit 8b + k of the little-endian number is bit k of byte b, and zero past the end. |
| Dbc.PaddedBits | src/dbc/mod.rs:363-376 | The bit the sawtooth walk finds is the bit at its MSB-first position, and zero past the end. |
| Dbc.ExtractLe | src/dbc/mod.rs:350-360 | The Intel loop returns the low `length` bits of the number shifted by `start`, or fails when they do not fit 64 bits. |
| Dbc.ExtractBe | src/dbc/mod.rs:361-379 | The Motorola walk returns the number read off most significant bit first, or fails when it does not fit. |
| Dbc.ExtractRaw | src/dbc/mod.rs:346-382 | For all data, starts and lengths: (LE integer div 2^start) mod 2^length, and the MSB-first slice at 8*(start/8)+7-(start%8) with zeros after the data; digit by digit, the bit of the data each format puts there; a failure exactly when a digit from 64 on is set. |
| Dbc.SignExtend | src/dbc/mod.rs:331-341 | Returns the two's complement reading, and fails exactly for length 0, lengths above 64, and lengths 63 and 64 with the sign bit set. |
| Dbc.OneReading | src/dbc/mod.rs:331-341 | That reading is unique. |
| Dbc.DecodeSignal | src/dbc/mod.rs:321-343 | The physical value is factor times the unsigned or two's complement slice plus offset, whenever the two steps do not fail. |
| Text.PrintedValue | src/recorder/mod.rs:150 | Printed digits have the value printed. |
| Text.FixedValue | src/recorder/mod.rs:149 | Zero-padded digits have the value printed and the width asked for. |
| Text.HexRoundTrip | src/recorder/mod.rs:163 | Decoding encoded bytes gives the bytes. |
| Text.UnhexIff | src/recorder/mod.rs:211-216 | Decoding accepts exactly two hexadecimal digits for each byte, in either case, and gives those bytes. |
| Text.UnsignedIff | src/recorder/mod.rs:180-184 | A number is parsed exactly when it is digits of the radix, after a plus sign or not, whose value does not exceed the limit. |
| Text.FieldsIff | src/recorder/mod.rs:119 | The fields of a line are its words: separated, preceded and followed by characters of the White_Space property, and nothing else. |
| Text.FieldsSplit | src/recorder/mod.rs:119 | A space between two texts separates their fields. |
| Recorder.Find | src/recorder/mod.rs:178 | The first position of a character, or proof that there is none. |
| Recorder.TimestampOf | src/recorder/mod.rs:176-195 | The method with the padding loop accepts exactly the timestamps of the format, each with its value: whole seconds within 64 bits, or seconds and a fraction of which six places count and missing ones are zeros. |
| Recorder.TimestampRoundTrip | src/recorder/mod.rs:147-149 | A printed timestamp reads back floored to microseconds, over the whole u64 range of seconds. |
| Recorder.FdRoundTrip | src/recorder/mod.rs:200-222 | A printed FD frame reads back in normal form. |
| Recorder.ClassicRoundTrip | src/recorder/mod.rs:223-238 | A printed classic frame reads back in normal form. |
| RecorderFormat.DecimalTimestamp | src/recorder/mod.rs:182-193 | Decimal seconds w and a fraction f read as w seconds and the value of the first k = min(|f|, 6) digits of f times 10^(9 - k) nanoseconds. |
| RecorderFormat.FrameMeans | src/recorder/mod.rs:197-243 | A text is read as a frame if and only if it is `ID#DATA` or `ID##FLAGSDATA` for it, character by character, digits in either case; otherwise the error names what is wrong. |
| RecorderFormat.LineMeans | src/recorder/mod.rs:118-142 | A line is read with its values if and only if it is three words, a timestamp in parentheses, any name and a frame text; otherwise the error names what is wrong. |
| RecorderFormat.LinePrinted | src/recorder/mod.rs:146-174 | What is printed, character by character: shortest decimal seconds, six digits of microseconds, the name, the shortest upper-case identifier, one or two hashes, flags 00 or 01, upper-case data. |
| Recorder.RoundTrip | src/recorder/mod.rs:118-174 | For every interface text, timestamp and frame: the printed line reads back as the floored timestamp and the frame in normal form if the interface is one word, and is refused for its field count otherwise. |
| Recorder.Reprint | src/recorder/mod.rs:118-174 | Printing what was read gives the identical line. |
| Recorder.LosslessIff | src/recorder/mod.rs:216-237 | Nothing is lost exactly when the timestamp is in whole microseconds and the frame has no flag the format cannot carry. |

## Left out

- Sockets, `libc`, the binaries, JSON, base64, HMAC and Docker support: foreign calls or plumbing.
- Wall-clock time: STmin delays, replay pacing and deadlines. An ISO-TP timeout is a step that may happen at any wait; the rate
  limiter takes its clock readings as parameters.
- `record`, `replay`, DBC text parsing, OBD-II, J1939, UDS, the mock bus, `to_message` and `from_message`: easy members or
  string slicing with little structure.
- IsoTpRoundTrip.RecvUndoesSend: the receiver's own flow controls are taken by its bus; a refused one ends `recv` with an error,
  as `IsoTpReassembly.RecvAcceptsIff` says.
- IsoTpConn.Connection.Recv: its inbox is finite and an empty one is the timeout, so termination is measured by the input; a
  peer that sends one-byte Consecutive Frames for ever is not modelled.
- IsoTpLossMany.QuietSendsAreSafe: its condition is sufficient for all losses at once; that some overlapping transfers are
  harmless for the losses a given run has is not settled.
- IsoTpDelivery.DeliveryUnderEveryInterleaving: the two queues are unbounded and lossless and the bus takes every frame; the
  64-slot queues are the subject of `NoFrameIsDroppedIff`, losses and failing sends that of `NothingButThePayload`.
- Detection.HammingDistanceAtLeastFour: says nothing about frames changed only in bytes 0-3, which `unwrap` does not read;
  `FlipPatterns.UpToThreeRejectedIff` covers them.
- Safety.StreamIsChecked: frames a whole multiple of 2^32 calls apart carry the same counter; the distance is taken modulo 2^32.
- AdaptQueue.StuckMeansFinished: the caller's channel always accepts; a caller that drops its receiver ends the forwarder early
  and is not modelled.
- RecvLoop.QueuedFrameIsReceived: one task calls `recv`; with several, stored permits coalesce and the property is not claimed.
- BusCounters.CountersAddUp: the counters are unbounded; the wrap of the 64-bit atomics is not modelled.
- VirtualBus.EverySubscriberIsServed: says nothing about whether a subscriber ends up closed. `subscribe` tests `closed` before
  it takes the lock, so one that overlaps `close` can stay open; the machine allows that run.
- `close_with_drain`, loaned frames and health reporting of the virtual bus.
- Dbc.DecodeSignal: factor and offset are real numbers; rounding of `f64` is not modelled.
- RecorderFormat.LineMeans: like `Recorder.RoundTrip`, for texts as sequences of characters; see there.
- Recorder.RoundTrip: texts are sequences of characters. Byte slicing inside a non-ASCII field, which can stop the original
  program, is not modelled; printed lines have only ASCII outside the interface name, which is never sliced.
