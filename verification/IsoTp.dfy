/** ISO 15765-2 segmentation, flow control and reassembly (src/isotp/mod.rs).

    The two ends of a connection are step machines.  A step either emits at most one protocol data
    unit (PDU) or consumes one; between two steps the peer, the bus or a timeout may act.  The machines are pure
    functions so that the joint protocol and the imperative methods of `IsoTpConn` share one definition. */
module IsoTp {
  import opened Wrappers
  import Frames

  type byte = Frames.Octet
  type Pdu = seq<byte>

  const TYPE_SF: byte := 0x00
  const TYPE_FF: byte := 0x10
  const TYPE_CF: byte := 0x20
  const TYPE_FC: byte := 0x30

  const FC_CTS: byte := 0
  const FC_WAIT: byte := 1
  const FC_OVERFLOW: byte := 2

  datatype Error =
    | EmptyPayload | PayloadTooLarge | Timeout | Closed | SendFailed
    | EmptyFrame | InvalidSfLength | FfTooShort | ExpectedCf | SnMismatch | UnexpectedType
    | MalformedFc | ReceiverOverflow

  type SendResult = Result<(), Error>
  type RecvResult = Result<seq<byte>, Error>

  /** The receiver's pacing parameters. */
  datatype Config = Config(blockSize: byte, stMin: byte)

  /** `b & 0xF0`. */
  function HighNibble(b: byte): byte { b / 16 * 16 }

  /** `b & 0x0F`. */
  function LowNibble(b: byte): byte { b % 16 }

  function Min(a: nat, b: nat): nat { if a <= b then a else b }

  // ---------------------------------------------------------------------------
  // PDUs
  // ---------------------------------------------------------------------------

  function SingleFrame(payload: seq<byte>): Pdu
    requires |payload| <= 7
  {
    [TYPE_SF + |payload|] + payload
  }

  function FirstFrame(payload: seq<byte>): Pdu {
    [TYPE_FF + |payload| / 256 % 16, |payload| % 256] + payload[..Min(|payload|, 6)]
  }

  function ConsecutiveFrame(sn: byte, chunk: seq<byte>): Pdu {
    [TYPE_CF + LowNibble(sn)] + chunk
  }

  function FlowControl(cfg: Config): Pdu {
    [TYPE_FC + FC_CTS, cfg.blockSize, cfg.stMin]
  }

  predicate IsFlowControl(f: Pdu) { |f| >= 3 && HighNibble(f[0]) == TYPE_FC }

  predicate IsWait(fc: Pdu) { |fc| > 0 && LowNibble(fc[0]) == FC_WAIT }

  predicate IsOverflow(fc: Pdu) { |fc| > 0 && LowNibble(fc[0]) == FC_OVERFLOW }

  // ---------------------------------------------------------------------------
  // Sender
  // ---------------------------------------------------------------------------

  /** `AwaitFc` stands for the three call sites of `wait_fc`: after the First Frame, inside the WAIT loop and at a
      block boundary.  All three adopt the flow control, clear the block count and continue at the loop head. */
  datatype SenderPc = Start | Sending | AwaitFc | Finished(result: SendResult)

  datatype Sender = Sender(pc: SenderPc, rest: seq<byte>, sn: byte, blockCount: nat, fc: Pdu)
  {
    /** The flow control in force is readable whenever the loop is running. */
    predicate Valid() { pc.Sending? ==> IsFlowControl(fc) && !IsOverflow(fc) }

    predicate Emits() { pc.Start? || pc.Sending? }
  }

  function StartSend(payload: seq<byte>): Sender { Sender(Start, payload, 1, 0, []) }

  /** One step of a sender that is not waiting: the new state and the PDUs put on the bus (none or one). */
  function SenderEmit(s: Sender): (r: (Sender, seq<Pdu>))
    requires s.Valid() && s.Emits()
    ensures r.0.Valid()
  {
    if s.pc.Start? then
      if |s.rest| == 0 then (s.(pc := Finished(Err(EmptyPayload))), [])
      else if |s.rest| > 4095 then (s.(pc := Finished(Err(PayloadTooLarge))), [])
      else if |s.rest| <= 7 then (s.(pc := Finished(Ok(())), rest := []), [SingleFrame(s.rest)])
      else (s.(pc := AwaitFc, rest := s.rest[6..]), [FirstFrame(s.rest)])
    else if s.rest == [] then (s.(pc := Finished(Ok(()))), [])
    else if IsWait(s.fc) then (s.(pc := AwaitFc), [])
    else
      var n := Min(|s.rest|, 7);
      var rest, count, bs := s.rest[n..], s.blockCount + 1, s.fc[1];
      var pc := if bs > 0 && count >= bs && rest != [] then AwaitFc else Sending;
      (Sender(pc, rest, (s.sn + 1) % 256, count, s.fc), [ConsecutiveFrame(s.sn, s.rest[..n])])
  }

  /** A waiting sender receives `f`. */
  function SenderAdopt(s: Sender, f: Pdu): (r: Sender)
    requires s.pc.AwaitFc?
    ensures r.Valid()
  {
    if !IsFlowControl(f) then s.(pc := Finished(Err(MalformedFc)))
    else if IsOverflow(f) then s.(pc := Finished(Err(ReceiverOverflow)))
    else s.(pc := Sending, fc := f, blockCount := 0)
  }

  // ---------------------------------------------------------------------------
  // Receiver
  // ---------------------------------------------------------------------------

  datatype ReceiverPc = AwaitFirst | Collecting | OwesFc | Received(result: RecvResult)

  datatype Receiver = Receiver(pc: ReceiverPc, buf: seq<byte>, len: nat, sn: byte, cfInBlock: byte)
  {
    predicate Takes() { pc.AwaitFirst? || pc.Collecting? }

    predicate Valid() { pc.Collecting? ==> |buf| < len }
  }

  const START_RECV := Receiver(AwaitFirst, [], 0, 1, 0)

  /** A waiting receiver consumes `f`. */
  function ReceiverTake(cfg: Config, r: Receiver, f: Pdu): (r': Receiver)
    requires r.Valid() && r.Takes()
    ensures r'.Valid()
  {
    if r.pc.AwaitFirst? then TakeFirst(r, f) else TakeCf(cfg, r, f)
  }

  function TakeFirst(r: Receiver, f: Pdu): (r': Receiver)
    requires r.pc.AwaitFirst?
    ensures r'.Valid()
  {
    if |f| == 0 then r.(pc := Received(Err(EmptyFrame)))
    else if HighNibble(f[0]) == TYPE_SF then
      var len := LowNibble(f[0]);
      if len == 0 || len > 7 || len > |f| - 1 then r.(pc := Received(Err(InvalidSfLength)))
      else r.(pc := Received(Ok(f[1..1 + len])))
    else if HighNibble(f[0]) == TYPE_FF then
      if |f| < 2 then r.(pc := Received(Err(FfTooShort)))
      else Receiver(OwesFc, f[2..], LowNibble(f[0]) * 256 + f[1], 1, 0)
    else r.(pc := Received(Err(UnexpectedType)))
  }

  function TakeCf(cfg: Config, r: Receiver, f: Pdu): (r': Receiver)
    requires r.Valid() && r.pc.Collecting?
    ensures r'.Valid()
  {
    if |f| == 0 then r.(pc := Received(Err(EmptyFrame)))
    else if HighNibble(f[0]) != TYPE_CF then r.(pc := Received(Err(ExpectedCf)))
    else if LowNibble(f[0]) != LowNibble(r.sn) then r.(pc := Received(Err(SnMismatch)))
    else
      var chunk := f[1..];
      var buf := r.buf + chunk[..Min(|chunk|, r.len - |r.buf|)];
      var count := (r.cfInBlock + 1) % 256;
      var pc :=
        if |buf| >= r.len then Received(Ok(buf))
        else if cfg.blockSize != 0 && count == cfg.blockSize then OwesFc
        else Collecting;
      Receiver(pc, buf, r.len, (r.sn + 1) % 256, count)
  }

  /** The receiver has put the flow control it owed on the bus. */
  function ReceiverSentFc(r: Receiver): (r': Receiver)
    requires r.pc.OwesFc?
    ensures r'.Valid()
  {
    r.(pc := if |r.buf| < r.len then Collecting else Received(Ok(r.buf)), cfInBlock := 0)
  }

  // ---------------------------------------------------------------------------
  // Sequence numbers
  // ---------------------------------------------------------------------------

  /** Counting modulo 256 does not disturb counting modulo 16. */
  lemma NibbleOfByte(n: nat)
    ensures n % 256 % 16 == n % 16
  {
    Remainder16(n, 16 * (n / 256) + n % 256 / 16, n % 256 % 16);
  }

  lemma Remainder16(n: nat, q: nat, r: nat)
    requires n == 16 * q + r && r < 16
    ensures n % 16 == r
  {
  }

  lemma NextByte(n: nat)
    ensures (n % 256 + 1) % 256 == (n + 1) % 256
  {
    if n % 256 == 255 {
      assert n + 1 == 256 * (n / 256 + 1);
    }
  }
}
