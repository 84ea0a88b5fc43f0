/** Delivery over lossless FIFO queues, for every list of payloads and every interleaving.

    Both ends are deterministic and each queue has one writer and one reader, so an emit of one end commutes with a
    step of the other. One well-behaved schedule that delivers everything therefore settles all of them: whatever is
    scheduled next, the same final world stays reachable, one step nearer. */
module IsoTpDelivery {
  import opened Wrappers
  import opened IsoTp

  datatype Actor = SenderSide | ReceiverSide

  /** The two ends, the queues between them, the payloads still to send, and the results of `send` and `recv` so far. */
  datatype World = World(s: Option<Sender>, r: Receiver, fwd: seq<Pdu>, bwd: seq<Pdu>,
                         todo: seq<seq<byte>>, sent: seq<SendResult>, got: seq<RecvResult>)
  {
    predicate Valid() { (s.Some? ==> s.value.Valid()) && r.Valid() }
  }

  function Init(payloads: seq<seq<byte>>): World {
    World(None, START_RECV, [], [], payloads, [], [])
  }

  /** The sending task: start the next `send`, run it, record its result. */
  function SenderStep(w: World): (r: Option<World>)
    requires w.Valid()
    ensures r.Some? ==> r.value.Valid()
  {
    match w.s
    case None =>
      if w.todo == [] then None else Some(w.(s := Some(StartSend(w.todo[0])), todo := w.todo[1..]))
    case Some(s) =>
      if s.pc.Finished? then Some(w.(s := None, sent := w.sent + [s.pc.result]))
      else if s.pc.AwaitFc? then
        if w.bwd == [] then None else Some(w.(s := Some(SenderAdopt(s, w.bwd[0])), bwd := w.bwd[1..]))
      else
        var (s', out) := SenderEmit(s);
        Some(w.(s := Some(s'), fwd := w.fwd + out))
  }

  /** The receiving task: call `recv` in a loop and record its results. */
  function ReceiverStep(cfg: Config, w: World): (r: Option<World>)
    requires w.Valid()
    ensures r.Some? ==> r.value.Valid()
  {
    match w.r.pc
    case Received(result) => Some(w.(r := START_RECV, got := w.got + [result]))
    case OwesFc => Some(w.(r := ReceiverSentFc(w.r), bwd := w.bwd + [FlowControl(cfg)]))
    case _ =>
      if w.fwd == [] then None else Some(w.(r := ReceiverTake(cfg, w.r, w.fwd[0]), fwd := w.fwd[1..]))
  }

  function Step(cfg: Config, w: World, a: Actor): (r: Option<World>)
    requires w.Valid()
    ensures r.Some? ==> r.value.Valid()
  {
    if a.SenderSide? then SenderStep(w) else ReceiverStep(cfg, w)
  }

  /** The world after a schedule, if every scheduled step was enabled. */
  function Run(cfg: Config, w: World, schedule: seq<Actor>): (r: Option<World>)
    requires w.Valid()
    ensures r.Some? ==> r.value.Valid()
    decreases |schedule|
  {
    if schedule == [] then Some(w)
    else
      match Step(cfg, w, schedule[0])
      case None => None
      case Some(w') => Run(cfg, w', schedule[1..])
  }

  predicate Stuck(cfg: Config, w: World)
    requires w.Valid()
  {
    SenderStep(w).None? && ReceiverStep(cfg, w).None?
  }

  // ---------------------------------------------------------------------------
  // Confluence
  // ---------------------------------------------------------------------------

  lemma Diamond(cfg: Config, w: World)
    requires w.Valid()
    requires SenderStep(w).Some? && ReceiverStep(cfg, w).Some?
    ensures var bySender, byReceiver := SenderStep(w).value, ReceiverStep(cfg, w).value;
            && SenderStep(byReceiver).Some?
            && ReceiverStep(cfg, bySender) == SenderStep(byReceiver)
  {
    var x := ReceiverStep(cfg, SenderStep(w).value);
    var y := SenderStep(ReceiverStep(cfg, w).value);
    assert x.Some? && y.Some?;
    assert x.value.fwd == y.value.fwd;
    assert x.value.bwd == y.value.bwd;
  }

  /** If some schedule leads from `w` to a stuck world, then after any enabled step the same world is reachable by a
      schedule one step shorter. */
  lemma {:induction false} StepNearer(cfg: Config, w: World, a: Actor, schedule: seq<Actor>, end: World)
    returns (shorter: seq<Actor>)
    requires w.Valid() && end.Valid() && Stuck(cfg, end)
    requires Run(cfg, w, schedule) == Some(end)
    requires Step(cfg, w, a).Some?
    ensures |shorter| == |schedule| - 1
    ensures Run(cfg, Step(cfg, w, a).value, shorter) == Some(end)
    decreases |schedule|
  {
    if schedule[0] == a {
      return schedule[1..];
    }
    Diamond(cfg, w);
    var w1 := Step(cfg, w, schedule[0]).value;
    var tail := StepNearer(cfg, w1, a, schedule[1..], end);
    shorter := [schedule[0]] + tail;
    assert shorter[1..] == tail;
  }

  lemma {:induction false} RunsConverge(cfg: Config, w: World, good: seq<Actor>, end: World, other: seq<Actor>)
    returns (rest: seq<Actor>)
    requires w.Valid() && end.Valid() && Stuck(cfg, end)
    requires Run(cfg, w, good) == Some(end)
    requires Run(cfg, w, other).Some?
    ensures |other| + |rest| == |good|
    ensures Run(cfg, Run(cfg, w, other).value, rest) == Some(end)
    decreases |other|
  {
    if other == [] {
      return good;
    }
    var nearer := StepNearer(cfg, w, other[0], good, end);
    rest := RunsConverge(cfg, Step(cfg, w, other[0]).value, nearer, end, other[1..]);
  }

  // ---------------------------------------------------------------------------
  // One well-behaved schedule
  // ---------------------------------------------------------------------------

  /** Both ends have handled the First Frame and `done` bytes; the queues are empty and the blocks agree. */
  ghost predicate InStep(cfg: Config, w: World, payload: seq<byte>, done: nat) {
    && w.Valid()
    && 8 <= |payload| <= 4095 && done < |payload|
    && w.fwd == [] && w.bwd == []
    && w.s.Some?
    && var s := w.s.value;
    && s.pc == Sending && s.rest == payload[done..] && s.fc == FlowControl(cfg)
    && w.r.pc == Collecting && w.r.buf == payload[..done] && w.r.len == |payload| && w.r.sn == s.sn
    && (cfg.blockSize > 0 ==> w.r.cfInBlock == s.blockCount < cfg.blockSize)
  }

  function Finish(w: World, payload: seq<byte>): World {
    w.(s := None, r := START_RECV, fwd := [], bwd := [], sent := w.sent + [Ok(())], got := w.got + [Ok(payload)])
  }

  /** Put one step in front of a schedule. */
  lemma {:induction false} Before(cfg: Config, w: World, a: Actor, tail: seq<Actor>, end: World)
    returns (schedule: seq<Actor>)
    requires w.Valid() && Step(cfg, w, a).Some?
    requires Run(cfg, Step(cfg, w, a).value, tail) == Some(end)
    ensures schedule == [a] + tail
    ensures Run(cfg, w, schedule) == Some(end)
  {
    schedule := [a] + tail;
    assert schedule[1..] == tail;
  }

  /** From `InStep`, alternate Consecutive Frames and flow controls to the end of the transfer, then follow `tail`. */
  lemma {:induction false} ScheduleBlocks(cfg: Config, w: World, payload: seq<byte>, done: nat,
                                          tail: seq<Actor>, end: World)
    returns (schedule: seq<Actor>)
    requires InStep(cfg, w, payload, done)
    requires Run(cfg, Finish(w, payload), tail) == Some(end)
    ensures Run(cfg, w, schedule) == Some(end)
    decreases |payload| - done
  {
    var s := w.s.value;
    var next := done + Min(|payload| - done, 7);
    var w1 := SenderStep(w).value;
    var w2 := ReceiverStep(cfg, w1).value;
    OneCf(cfg, w, payload, done, w1, w2);
    if next == |payload| {
      assert payload[..next] == payload;
      var w3 := SenderStep(w2).value;
      var w4 := SenderStep(w3).value;
      assert ReceiverStep(cfg, w4).value == Finish(w, payload);
      schedule := Before(cfg, w4, ReceiverSide, tail, end);
      schedule := Before(cfg, w3, SenderSide, schedule, end);
      schedule := Before(cfg, w2, SenderSide, schedule, end);
    } else if cfg.blockSize > 0 && s.blockCount + 1 == cfg.blockSize {
      var w3 := ReceiverStep(cfg, w2).value;
      var w4 := SenderStep(w3).value;
      assert Finish(w4, payload) == Finish(w, payload);
      schedule := ScheduleBlocks(cfg, w4, payload, next, tail, end);
      schedule := Before(cfg, w3, SenderSide, schedule, end);
      schedule := Before(cfg, w2, ReceiverSide, schedule, end);
    } else {
      assert Finish(w2, payload) == Finish(w, payload);
      schedule := ScheduleBlocks(cfg, w2, payload, next, tail, end);
    }
    schedule := Before(cfg, w1, ReceiverSide, schedule, end);
    schedule := Before(cfg, w, SenderSide, schedule, end);
  }

  lemma OneCf(cfg: Config, w: World, payload: seq<byte>, done: nat, w1: World, w2: World)
    requires InStep(cfg, w, payload, done)
    requires SenderStep(w) == Some(w1) && w1.Valid()
    requires ReceiverStep(cfg, w1) == Some(w2)
    ensures var next := done + Min(|payload| - done, 7);
            && w2 == w.(s := w2.s, r := w2.r)
            && w2.s.Some? && w2.s.value.rest == payload[next..] && w2.s.value.fc == FlowControl(cfg)
            && w2.s.value.blockCount == w.s.value.blockCount + 1
            && w2.s.value.sn == w2.r.sn
            && w2.r.buf == payload[..next] && w2.r.len == |payload|
            && w2.r.cfInBlock == (w.r.cfInBlock + 1) % 256
            && var boundary := cfg.blockSize > 0 && w.s.value.blockCount + 1 == cfg.blockSize;
            && w2.s.value.pc == (if boundary && next < |payload| then AwaitFc else Sending)
            && w2.r.pc == if next == |payload| then Received(Ok(payload[..next]))
                          else if boundary then OwesFc
                          else Collecting
  {
    var s := w.s.value;
    var n := Min(|payload| - done, 7);
    var chunk := s.rest[..n];
    var cf := ConsecutiveFrame(s.sn, chunk);
    assert w1.fwd == [cf];
    assert cf[1..] == chunk && chunk[..n] == chunk;
    assert payload[..done] + chunk == payload[..done + n];
    assert s.rest[n..] == payload[done + n..];
    assert cf[0] == TYPE_CF + s.sn % 16;
  }

  /** `send` of a payload of 1 to 7 bytes: one frame, no flow control. */
  lemma {:induction false} ScheduleSingleFrame(cfg: Config, w: World, p: seq<byte>, tail: seq<Actor>, end: World)
    returns (schedule: seq<Actor>)
    requires 1 <= |p| <= 7
    requires AtRest(w.(s := None)) && w.s == Some(StartSend(p))
    requires Run(cfg, Finish(w, p), tail) == Some(end)
    ensures Run(cfg, w, schedule) == Some(end)
  {
    var f := SingleFrame(p);
    assert f[1..1 + |p|] == p;
    var w1 := SenderStep(w).value;
    assert w1.fwd == [f];
    var w2 := SenderStep(w1).value;
    var w3 := ReceiverStep(cfg, w2).value;
    assert w3.r.pc == Received(Ok(p));
    assert ReceiverStep(cfg, w3).value == Finish(w, p);
    schedule := Before(cfg, w3, ReceiverSide, tail, end);
    schedule := Before(cfg, w2, ReceiverSide, schedule, end);
    schedule := Before(cfg, w1, SenderSide, schedule, end);
    schedule := Before(cfg, w, SenderSide, schedule, end);
  }

  lemma FirstFrameTaken(p: seq<byte>)
    requires 8 <= |p| <= 4095
    ensures TakeFirst(START_RECV, FirstFrame(p)) == Receiver(OwesFc, p[..6], |p|, 1, 0)
  {
    assert FirstFrame(p)[2..] == p[..6];
  }

  /** `send` of a longer payload: First Frame, flow control, then the blocks. */
  lemma {:induction false} ScheduleMultiFrame(cfg: Config, w: World, p: seq<byte>, tail: seq<Actor>, end: World)
    returns (schedule: seq<Actor>)
    requires 8 <= |p| <= 4095
    requires AtRest(w.(s := None)) && w.s == Some(StartSend(p))
    requires Run(cfg, Finish(w, p), tail) == Some(end)
    ensures Run(cfg, w, schedule) == Some(end)
  {
    FirstFrameTaken(p);
    var w1 := SenderStep(w).value;
    assert w1.fwd == [FirstFrame(p)];
    var w2 := ReceiverStep(cfg, w1).value;
    assert w2.fwd == [];
    var w3 := ReceiverStep(cfg, w2).value;
    assert w3.bwd == [FlowControl(cfg)];
    var w4 := SenderStep(w3).value;
    assert InStep(cfg, w4, p, 6);
    schedule := ScheduleBlocks(cfg, w4, p, 6, tail, end);
    schedule := Before(cfg, w3, SenderSide, schedule, end);
    schedule := Before(cfg, w2, ReceiverSide, schedule, end);
    schedule := Before(cfg, w1, ReceiverSide, schedule, end);
    schedule := Before(cfg, w, SenderSide, schedule, end);
  }

  /** One whole `send`, from rest to rest. */
  lemma {:induction false} ScheduleTransfer(cfg: Config, w: World, tail: seq<Actor>, end: World)
    returns (schedule: seq<Actor>)
    requires AtRest(w) && w.todo != []
    requires Run(cfg, AfterTransfer(w), tail) == Some(end)
    ensures Run(cfg, w, schedule) == Some(end)
  {
    var p := w.todo[0];
    var w1 := SenderStep(w).value;
    if SendAnswer(p).Ok? {
      assert Finish(w1, p) == AfterTransfer(w);
      if |p| <= 7 {
        schedule := ScheduleSingleFrame(cfg, w1, p, tail, end);
      } else {
        schedule := ScheduleMultiFrame(cfg, w1, p, tail, end);
      }
    } else {
      var w2 := SenderStep(w1).value;
      assert w2.fwd == [];
      assert SenderStep(w2).value == AfterTransfer(w);
      schedule := Before(cfg, w2, SenderSide, tail, end);
      schedule := Before(cfg, w1, SenderSide, schedule, end);
    }
    schedule := Before(cfg, w, SenderSide, schedule, end);
  }

  predicate AtRest(w: World) { w.s == None && w.r == START_RECV && w.fwd == [] && w.bwd == [] }

  /** What `send` answers over a lossless link. */
  function SendAnswer(payload: seq<byte>): SendResult {
    if payload == [] then Err(EmptyPayload)
    else if |payload| > 4095 then Err(PayloadTooLarge)
    else Ok(())
  }

  function SendAnswers(payloads: seq<seq<byte>>): seq<SendResult> {
    if payloads == [] then [] else [SendAnswer(payloads[0])] + SendAnswers(payloads[1..])
  }

  function Delivery(payload: seq<byte>): seq<RecvResult> {
    if SendAnswer(payload).Ok? then [Ok(payload)] else []
  }

  /** The payloads the receiver must hand out: all of them but the refused ones, in order. */
  function Deliveries(payloads: seq<seq<byte>>): seq<RecvResult> {
    if payloads == [] then [] else Delivery(payloads[0]) + Deliveries(payloads[1..])
  }

  function AfterTransfer(w: World): World
    requires w.todo != []
  {
    w.(todo := w.todo[1..], sent := w.sent + [SendAnswer(w.todo[0])], got := w.got + Delivery(w.todo[0]))
  }

  lemma {:induction false} ScheduleAll(cfg: Config, w: World)
    returns (schedule: seq<Actor>, end: World)
    requires w.Valid() && AtRest(w)
    ensures end == w.(todo := [], sent := w.sent + SendAnswers(w.todo), got := w.got + Deliveries(w.todo))
    ensures Run(cfg, w, schedule) == Some(end)
    decreases |w.todo|
  {
    if w.todo == [] {
      return [], w;
    }
    schedule, end := ScheduleAll(cfg, AfterTransfer(w));
    assert w.sent + ([SendAnswer(w.todo[0])] + SendAnswers(w.todo[1..]))
           == w.sent + [SendAnswer(w.todo[0])] + SendAnswers(w.todo[1..]);
    assert w.got + (Delivery(w.todo[0]) + Deliveries(w.todo[1..]))
           == w.got + Delivery(w.todo[0]) + Deliveries(w.todo[1..]);
    schedule := ScheduleTransfer(cfg, w, schedule, end);
  }

  // ---------------------------------------------------------------------------
  // Main results
  // ---------------------------------------------------------------------------

  /** Delivery and back-to-back transfers.  For any payload list and any receiver configuration there is one run length:
      no schedule runs longer, a shorter one always leaves a step enabled, and a schedule of that length ends with every
      valid payload received intact and in order, every `send` answered, and no PDU left in either queue. */
  lemma {:induction false} DeliveryUnderEveryInterleaving(cfg: Config, payloads: seq<seq<byte>>)
    returns (length: nat)
    ensures forall schedule ::
              var w := Run(cfg, Init(payloads), schedule);
              w.Some? ==>
                && |schedule| <= length
                && (Stuck(cfg, w.value) <==> |schedule| == length)
                && (|schedule| == length ==>
                      w.value == World(None, START_RECV, [], [], [], SendAnswers(payloads), Deliveries(payloads)))
  {
    var w0 := Init(payloads);
    var good, end := ScheduleAll(cfg, w0);
    length := |good|;
    forall schedule | Run(cfg, w0, schedule).Some?
      ensures && |schedule| <= length
              && (Stuck(cfg, Run(cfg, w0, schedule).value) <==> |schedule| == length)
              && (|schedule| == length ==> Run(cfg, w0, schedule) == Some(end))
    {
      var rest := RunsConverge(cfg, w0, good, end, schedule);
      if rest != [] {
        assert Step(cfg, Run(cfg, w0, schedule).value, rest[0]).Some?;
      }
    }
  }
}
