/** `IsoTpConn` as an object: `send` and `recv` with their loops, each proved to do exactly what its step machine does.

    The bus is seen from one connection: `inbox` holds the frames its subscription will hand out, `history` what it put
    on the bus and took from it, in order.  A wait on an empty inbox is the timeout, or the end of the subscription. */
module IsoTpConn {
  import opened Wrappers
  import opened IsoTp

  datatype Event = Sent(frame: Pdu) | Got(frame: Pdu)

  /** The bus below the connection: whether the subscription is over once its frames are read, and how many more frames
      the bus takes before a send fails, if it ever does. */
  datatype Link = Link(ended: bool, room: Option<nat>)
  {
    /** What a wait that no frame ends reports. */
    function Silence(): Error { if ended then Closed else Timeout }

    predicate Full() { room == Some(0) }

    /** After a frame was taken. */
    function Less(): Link { if room.Some? && room.value > 0 then this.(room := Some(room.value - 1)) else this }
  }

  datatype Outcome<T> = Outcome(result: Result<T, Error>, unread: seq<Pdu>, trace: seq<Event>, link: Link)

  function After<T>(trace: seq<Event>, o: Outcome<T>): Outcome<T> { o.(trace := trace + o.trace) }

  function SentAll(frames: seq<Pdu>): seq<Event> { seq(|frames|, i requires 0 <= i < |frames| => Sent(frames[i])) }

  function Rank(pc: SenderPc): nat {
    match pc case Start => 3 case Sending => 2 case AwaitFc => 1 case Finished(_) => 0
  }

  /** The sender machine against a script of incoming frames. */
  function RunSender(s: Sender, script: seq<Pdu>, link: Link): Outcome<()>
    requires s.Valid()
    decreases |script|, |s.rest|, Rank(s.pc)
  {
    match s.pc
    case Finished(result) => Outcome(result, script, [], link)
    case AwaitFc =>
      if script == [] then Outcome(Err(link.Silence()), [], [], link)
      else After([Got(script[0])], RunSender(SenderAdopt(s, script[0]), script[1..], link))
    case _ =>
      var (s', out) := SenderEmit(s);
      if out == [] then RunSender(s', script, link)
      else if link.Full() then Outcome(Err(SendFailed), script, [], link)
      else After(SentAll(out), RunSender(s', script, link.Less()))
  }

  /** The receiver machine against a script of incoming frames. */
  function RunReceiver(cfg: Config, r: Receiver, script: seq<Pdu>, link: Link): Outcome<seq<byte>>
    requires r.Valid()
    decreases |script|, if r.pc.OwesFc? then 1 else 0
  {
    match r.pc
    case Received(result) => Outcome(result, script, [], link)
    case OwesFc =>
      if link.Full() then Outcome(Err(SendFailed), script, [], link)
      else After([Sent(FlowControl(cfg))], RunReceiver(cfg, ReceiverSentFc(r), script, link.Less()))
    case _ =>
      if script == [] then Outcome(Err(link.Silence()), [], [], link)
      else After([Got(script[0])], RunReceiver(cfg, ReceiverTake(cfg, r, script[0]), script[1..], link))
  }

  lemma SingleFrameRun(p: seq<byte>, script: seq<Pdu>, link: Link)
    requires 1 <= |p| <= 7
    ensures RunSender(StartSend(p), script, link)
            == if link.Full() then Outcome(Err(SendFailed), script, [], link)
               else Outcome(Ok(()), script, [Sent(SingleFrame(p))], link.Less())
  {
    assert SentAll([SingleFrame(p)]) == [Sent(SingleFrame(p))];
  }

  lemma AllSent(h: seq<Event>, s: Sender, script: seq<Pdu>, link: Link)
    requires s.Valid() && s.pc.Sending? && s.rest == []
    ensures After(h, RunSender(s, script, link)) == Outcome(Ok(()), script, h, link)
  {
    assert h + [] == h;
  }

  class Connection {
    const cfg: Config
    var link: Link
    var inbox: seq<Pdu>
    var history: seq<Event>

    constructor (cfg: Config, link: Link)
      ensures this.cfg == cfg && this.link == link && inbox == [] && history == []
    {
      this.cfg, this.link := cfg, link;
      inbox, history := [], [];
    }

    /** `bus.send`. */
    method Transmit(frame: Pdu) returns (sent: SendResult)
      modifies this`history, this`link
      ensures if old(link).Full() then sent == Err(SendFailed) && history == old(history) && link == old(link)
              else sent == Ok(()) && history == old(history) + [Sent(frame)] && link == old(link).Less()
    {
      if link.Full() {
        return Err(SendFailed);
      }
      link := link.Less();
      history := history + [Sent(frame)];
      return Ok(());
    }

    method Next() returns (f: Result<Pdu, Error>)
      modifies this
      ensures link == old(link)
      ensures if old(inbox) == [] then f == Err(link.Silence()) && inbox == [] && history == old(history)
              else f == Ok(old(inbox)[0]) && inbox == old(inbox)[1..] && history == old(history) + [Got(old(inbox)[0])]
    {
      if inbox == [] {
        return Err(link.Silence());
      }
      history := history + [Got(inbox[0])];
      f := Ok(inbox[0]);
      inbox := inbox[1..];
    }

    method WaitFc() returns (fc: Result<Pdu, Error>)
      modifies this
      ensures link == old(link)
      ensures if old(inbox) == [] then fc == Err(link.Silence()) && inbox == [] && history == old(history)
              else
                && inbox == old(inbox)[1..] && history == old(history) + [Got(old(inbox)[0])]
                && fc == if IsFlowControl(old(inbox)[0]) then Ok(old(inbox)[0]) else Err(MalformedFc)
      ensures fc.Ok? ==> |fc.value| >= 3 && 0x30 <= fc.value[0] < 0x40
      ensures fc == Err(MalformedFc) ==> var f := old(inbox)[0]; |f| < 3 || f[0] / 16 != 3
    {
      var f := Next();
      if f.Err? {
        return f;
      }
      if |f.value| < 3 || HighNibble(f.value[0]) != TYPE_FC {
        return Err(MalformedFc);
      }
      return f;
    }

    /** `wait_fc` followed by the overflow test, as at each of its three call sites: `s` is the waiting sender,
        `goal` the outcome the whole call must have. */
    method WaitClear(ghost s: Sender, ghost goal: Outcome<()>) returns (fc: Result<Pdu, Error>)
      requires s.pc.AwaitFc? && goal == After(history, RunSender(s, inbox, link))
      modifies this
      ensures fc.Err? ==> goal == Outcome(Err(fc.error), inbox, history, link)
      ensures fc.Ok? ==>
                && IsFlowControl(fc.value) && !IsOverflow(fc.value)
                && goal == After(history, RunSender(s.(pc := Sending, fc := fc.value, blockCount := 0), inbox, link))
      ensures fc.Ok? ==> |inbox| < |old(inbox)| && fc.value[0] % 16 != 2
      ensures fc == Err(ReceiverOverflow) ==> old(inbox) != [] && old(inbox)[0] != [] && old(inbox)[0][0] == 0x32
    {
      fc := WaitFc();
      if fc.Ok? && LowNibble(fc.value[0]) == FC_OVERFLOW {
        return Err(ReceiverOverflow);
      }
    }

    /** Send one Consecutive Frame; `s` is the sender at the loop head. */
    method SendCf(sn: byte, chunk: seq<byte>, ghost s: Sender, ghost goal: Outcome<()>) returns (sent: SendResult)
      requires s.Valid() && s.pc.Sending? && s.rest != [] && !IsWait(s.fc)
      requires sn == s.sn && chunk == s.rest[..Min(|s.rest|, 7)]
      requires goal == After(history, RunSender(s, inbox, link))
      modifies this`history, this`link
      ensures sent.Err? ==> goal == Outcome(Err(sent.error), inbox, history, link)
      ensures var rest, count := s.rest[Min(|s.rest|, 7)..], s.blockCount + 1;
              sent.Ok? ==> goal == After(history, RunSender(
                Sender(if s.fc[1] > 0 && count >= s.fc[1] && rest != [] then AwaitFc else Sending,
                       rest, (s.sn + 1) % 256, count, s.fc), inbox, link))
    {
      assert SentAll([ConsecutiveFrame(sn, chunk)]) == [Sent(ConsecutiveFrame(sn, chunk))];
      sent := Transmit(ConsecutiveFrame(sn, chunk));
      assert old(history) + [] == old(history);
    }

    /** The WAIT loop at the head of the send loop. */
    method ClearWait(fc0: Pdu, rest: seq<byte>, sn: byte, blockCount0: nat, ghost goal: Outcome<()>)
      returns (fc: Result<Pdu, Error>, blockCount: nat)
      requires rest != [] && IsFlowControl(fc0) && !IsOverflow(fc0)
      requires goal == After(history, RunSender(Sender(Sending, rest, sn, blockCount0, fc0), inbox, link))
      modifies this
      ensures fc.Err? ==> goal == Outcome(Err(fc.error), inbox, history, link)
      ensures fc.Ok? ==>
                && IsFlowControl(fc.value) && !IsOverflow(fc.value) && !IsWait(fc.value)
                && goal == After(history, RunSender(Sender(Sending, rest, sn, blockCount, fc.value), inbox, link))
                && fc.value[0] % 16 !in {1, 2}
      ensures fc0[0] % 16 != 1 ==> fc == Ok(fc0) && blockCount == blockCount0 && inbox == old(inbox)
    {
      fc, blockCount := Ok(fc0), blockCount0;
      while LowNibble(fc.value[0]) == FC_WAIT
        invariant fc.Ok? && IsFlowControl(fc.value) && !IsOverflow(fc.value)
        invariant fc0[0] % 16 != 1 ==> fc == Ok(fc0) && blockCount == blockCount0 && inbox == old(inbox)
        invariant goal == After(history, RunSender(Sender(Sending, rest, sn, blockCount, fc.value), inbox, link))
        decreases |inbox|
      {
        ghost var s := Sender(AwaitFc, rest, sn, blockCount, fc.value);
        assert goal == After(history, RunSender(s, inbox, link));
        fc := WaitClear(s, goal);
        if fc.Err? {
          return;
        }
        blockCount := 0;
      }
    }

    /** At the end of a block the sender waits for the next flow control. */
    method EndSentBlock(fc0: Pdu, rest: seq<byte>, sn: byte, blockCount: nat, ghost goal: Outcome<()>)
      returns (fc: Result<Pdu, Error>, count: nat)
      requires IsFlowControl(fc0) && !IsOverflow(fc0)
      requires var pc := if fc0[1] > 0 && blockCount >= fc0[1] && rest != [] then AwaitFc else Sending;
               goal == After(history, RunSender(Sender(pc, rest, sn, blockCount, fc0), inbox, link))
      modifies this
      ensures fc.Err? ==> goal == Outcome(Err(fc.error), inbox, history, link)
      ensures fc.Ok? ==>
                && IsFlowControl(fc.value) && !IsOverflow(fc.value)
                && goal == After(history, RunSender(Sender(Sending, rest, sn, count, fc.value), inbox, link))
    {
      fc, count := Ok(fc0), blockCount;
      var bs := fc0[1];
      if bs > 0 && blockCount >= bs && rest != [] {
        fc := WaitClear(Sender(AwaitFc, rest, sn, blockCount, fc0), goal);
        count := 0;
      }
    }

    /** One Consecutive Frame and, at the end of a block, the wait for the next flow control. */
    method SendChunk(fc0: Pdu, rest: seq<byte>, chunkLen: nat, sn: byte, blockCount: nat, ghost goal: Outcome<()>)
      returns (fc: Result<Pdu, Error>, count: nat)
      requires rest != [] && chunkLen == Min(|rest|, 7) && IsFlowControl(fc0) && !IsOverflow(fc0) && !IsWait(fc0)
      requires goal == After(history, RunSender(Sender(Sending, rest, sn, blockCount, fc0), inbox, link))
      modifies this
      ensures fc.Err? ==> goal == Outcome(Err(fc.error), inbox, history, link)
      ensures fc.Ok? ==>
                && IsFlowControl(fc.value) && !IsOverflow(fc.value)
                && var s := Sender(Sending, rest[chunkLen..], (sn + 1) % 256, count, fc.value);
                   goal == After(history, RunSender(s, inbox, link))
    {
      var sent := SendCf(sn, rest[..chunkLen], Sender(Sending, rest, sn, blockCount, fc0), goal);
      if sent.Err? {
        return Err(sent.error), blockCount;
      }
      fc, count := EndSentBlock(fc0, rest[chunkLen..], (sn + 1) % 256, blockCount + 1, goal);
    }

    /** The send loop after the first flow control. */
    method SendBlocks(rest0: seq<byte>, fc0: Pdu, ghost goal: Outcome<()>) returns (result: SendResult)
      requires IsFlowControl(fc0) && !IsOverflow(fc0)
      requires goal == After(history, RunSender(Sender(Sending, rest0, 1, 0, fc0), inbox, link))
      modifies this
      ensures goal == Outcome(result, inbox, history, link)
    {
      var rest, fc := rest0, fc0;
      var sn: byte, blockCount: nat := 1, 0;
      while rest != []
        invariant IsFlowControl(fc) && !IsOverflow(fc)
        invariant goal == After(history, RunSender(Sender(Sending, rest, sn, blockCount, fc), inbox, link))
        decreases |rest|
      {
        var cleared, count := ClearWait(fc, rest, sn, blockCount, goal);
        if cleared.Err? {
          return Err(cleared.error);
        }
        fc, blockCount := cleared.value, count;
        var chunkLen := Min(|rest|, 7);
        var next, newCount := SendChunk(fc, rest, chunkLen, sn, blockCount, goal);
        if next.Err? {
          return Err(next.error);
        }
        rest := rest[chunkLen..];
        sn := (sn + 1) % 256;
        fc, blockCount := next.value, newCount;
      }
      AllSent(history, Sender(Sending, rest, sn, blockCount, fc), inbox, link);
      return Ok(());
    }

    method SendMultiFrame(payload: seq<byte>) returns (result: SendResult)
      requires 8 <= |payload| <= 4095
      modifies this
      ensures var o := RunSender(StartSend(payload), old(inbox), old(link));
              result == o.result && inbox == o.unread && history == old(history) + o.trace && link == o.link
    {
      ghost var goal := After(history, RunSender(StartSend(payload), inbox, link));
      var sent := Transmit(FirstFrame(payload));
      if sent.Err? {
        return sent;
      }
      assert SentAll([FirstFrame(payload)]) == [Sent(FirstFrame(payload))];
      var rest := payload[6..];
      var fc := WaitClear(StartSend(payload).(pc := AwaitFc, rest := rest), goal);
      if fc.Err? {
        return Err(fc.error);
      }
      result := SendBlocks(rest, fc.value, goal);
    }

    method SendSingleFrame(payload: seq<byte>) returns (result: SendResult)
      requires 1 <= |payload| <= 7
      modifies this`history, this`link
      ensures if old(link).Full() then result == Err(SendFailed) && history == old(history) && link == old(link)
              else
                && result == Ok(()) && history == old(history) + [Sent([|payload|] + payload)]
                && link == old(link).Less()
    {
      result := Transmit(SingleFrame(payload));
    }

    method Send(payload: seq<byte>) returns (result: SendResult)
      modifies this
      ensures var o := RunSender(StartSend(payload), old(inbox), old(link));
              result == o.result && inbox == o.unread && history == old(history) + o.trace && link == o.link
    {
      if payload == [] {
        return Err(EmptyPayload);
      }
      if |payload| > 4095 {
        return Err(PayloadTooLarge);
      }
      if |payload| <= 7 {
        SingleFrameRun(payload, inbox, link);
        result := SendSingleFrame(payload);
      } else {
        result := SendMultiFrame(payload);
      }
    }

    /** The receiver at the head of its loop. */
    static function Head(buf: seq<byte>, len: nat, sn: byte, cfInBlock: byte): Receiver {
      Receiver(if |buf| < len then Collecting else Received(Ok(buf)), buf, len, sn, cfInBlock)
    }

    /** The checks on one Consecutive Frame. */
    static predicate IsCf(cf: Pdu, sn: byte) {
      |cf| > 0 && HighNibble(cf[0]) == TYPE_CF && LowNibble(cf[0]) == LowNibble(sn)
    }

    /** Wait for the Consecutive Frame numbered `sn`; `r` is the collecting receiver. */
    method NextCf(sn: byte, ghost r: Receiver, ghost goal: Outcome<seq<byte>>) returns (cf: Result<Pdu, Error>)
      requires r.Valid() && r.pc.Collecting? && r.sn == sn
      requires goal == After(history, RunReceiver(cfg, r, inbox, link))
      modifies this
      ensures cf.Err? ==> goal == Outcome(Err(cf.error), inbox, history, link)
      ensures cf.Ok? ==>
                && |inbox| < |old(inbox)| && IsCf(cf.value, sn) && cf.value[0] == 0x20 + sn % 16
                && goal == After(history, RunReceiver(cfg, TakeCf(cfg, r, cf.value), inbox, link))
    {
      cf := Next();
      if cf.Err? {
        return;
      }
      if |cf.value| == 0 {
        return Err(EmptyFrame);
      }
      if HighNibble(cf.value[0]) != TYPE_CF {
        return Err(ExpectedCf);
      }
      if LowNibble(cf.value[0]) != LowNibble(sn) {
        return Err(SnMismatch);
      }
    }

    lemma HeadAfterCf(buf: seq<byte>, len: nat, sn: byte, cfInBlock: byte, cf: Pdu)
      requires |buf| < len && IsCf(cf, sn)
      ensures var chunk := cf[1..];
              var buf' := buf + chunk[..Min(|chunk|, len - |buf|)];
              var head := Head(buf', len, (sn + 1) % 256, (cfInBlock + 1) % 256);
              TakeCf(cfg, Head(buf, len, sn, cfInBlock), cf) ==
                if cfg.blockSize != 0 && head.cfInBlock == cfg.blockSize && |buf'| < len then head.(pc := OwesFc)
                else head
    {
    }

    /** At the end of a block the receiver sends the flow control it owes. */
    method EndTakenBlock(buf: seq<byte>, len: nat, sn: byte, cfInBlock: byte, ghost goal: Outcome<seq<byte>>)
      returns (count: Result<byte, Error>)
      requires var head, due := Head(buf, len, sn, cfInBlock),
                                cfg.blockSize != 0 && cfInBlock == cfg.blockSize && |buf| < len;
               goal == After(history, RunReceiver(cfg, if due then head.(pc := OwesFc) else head, inbox, link))
      modifies this`history, this`link
      ensures count.Err? ==> goal == Outcome(Err(count.error), inbox, history, link)
      ensures count.Ok? ==> goal == After(history, RunReceiver(cfg, Head(buf, len, sn, count.value), inbox, link))
    {
      count := Ok(cfInBlock);
      if cfg.blockSize != 0 && cfInBlock == cfg.blockSize && |buf| < len {
        var sent := Transmit(FlowControl(cfg));
        assert old(history) + [] == old(history);
        count := if sent.Err? then Err(sent.error) else Ok(0);
      }
    }

    /** Collect Consecutive Frames after the First Frame. */
    method Collect(buf0: seq<byte>, len: nat, ghost goal: Outcome<seq<byte>>) returns (result: RecvResult)
      requires goal == After(history, RunReceiver(cfg, Head(buf0, len, 1, 0), inbox, link))
      modifies this
      ensures goal == Outcome(result, inbox, history, link)
    {
      var buf := buf0;
      var sn: byte, cfInBlock: byte := 1, 0;
      while |buf| < len
        invariant goal == After(history, RunReceiver(cfg, Head(buf, len, sn, cfInBlock), inbox, link))
        decreases |inbox|
      {
        var cf := NextCf(sn, Head(buf, len, sn, cfInBlock), goal);
        if cf.Err? {
          return Err(cf.error);
        }
        HeadAfterCf(buf, len, sn, cfInBlock, cf.value);
        sn := (sn + 1) % 256;
        var chunk := cf.value[1..];
        buf := buf + chunk[..Min(|chunk|, len - |buf|)];
        cfInBlock := (cfInBlock + 1) % 256;
        var count := EndTakenBlock(buf, len, sn, cfInBlock, goal);
        if count.Err? {
          return Err(count.error);
        }
        cfInBlock := count.value;
      }
      return Ok(buf);
    }

    /** The three kinds of first frame. */
    method TakeFirstFrame(f: Pdu, ghost goal: Outcome<seq<byte>>) returns (result: RecvResult)
      requires goal == After(history, RunReceiver(cfg, TakeFirst(START_RECV, f), inbox, link))
      modifies this
      ensures goal == Outcome(result, inbox, history, link)
    {
      if |f| == 0 {
        return Err(EmptyFrame);
      }
      if HighNibble(f[0]) == TYPE_SF {
        var len := LowNibble(f[0]);
        if len == 0 || len > 7 || len > |f| - 1 {
          return Err(InvalidSfLength);
        }
        return Ok(f[1..1 + len]);
      } else if HighNibble(f[0]) == TYPE_FF {
        if |f| < 2 {
          return Err(FfTooShort);
        }
        var len := LowNibble(f[0]) * 256 + f[1];
        var sent := Transmit(FlowControl(cfg));
        if sent.Err? {
          return Err(sent.error);
        }
        result := Collect(f[2..], len, goal);
      } else {
        return Err(UnexpectedType);
      }
    }

    method Recv() returns (result: RecvResult)
      modifies this
      ensures var o := RunReceiver(cfg, START_RECV, old(inbox), old(link));
              result == o.result && inbox == o.unread && history == old(history) + o.trace && link == o.link
    {
      ghost var goal := After(history, RunReceiver(cfg, START_RECV, inbox, link));
      var first := Next();
      if first.Err? {
        return Err(first.error);
      }
      result := TakeFirstFrame(first.value, goal);
    }
  }
}
