/** The joint invariant of one transfer, and what it says about the bus's 64-slot drop-newest queues.

    Sender and receiver count blocks and bytes independently. `Joint` is what every interleaving keeps: the bytes of
    the receiver, of the frames in flight and of the sender add up to the payload, the sequence numbers line up, and
    the two block counters differ by exactly the frames in flight, so both agree on when the next flow control is
    owed. */
module IsoTpOccupancy {
  import opened Wrappers
  import opened IsoTp
  import opened IsoTpDelivery
  import Relay
  import SubQueue

  /** Slots in a subscriber queue of the virtual bus. */
  const QUEUE_SLOTS := SubQueue.DEFAULT_DEPTH

  /** The payload bytes of the Consecutive Frames in flight. */
  function Carried(frames: seq<Pdu>): seq<byte> {
    if frames == [] then []
    else Carried(frames[..|frames| - 1]) + (var f := frames[|frames| - 1]; if f == [] then [] else f[1..])
  }

  function Unsent(w: World): seq<byte> { if w.s.Some? then w.s.value.rest else [] }

  /** Consecutive Frames numbered from `sn` on; all full but possibly the last of the transfer. */
  ghost predicate Numbered(frames: seq<Pdu>, sn: byte, last: bool) {
    forall k :: 0 <= k < |frames| ==>
      && 2 <= |frames[k]| <= 8
      && frames[k][0] == TYPE_CF + (sn + k) % 16
      && (|frames[k]| == 8 || (last && k == |frames| - 1))
  }

  /** Received, in flight and unsent bytes make up the payload. */
  ghost predicate Pipeline(buf: seq<byte>, sn: byte, frames: seq<Pdu>, rest: seq<byte>, p: seq<byte>) {
    buf + Carried(frames) + rest == p && Numbered(frames, sn, rest == [])
  }

  ghost predicate NotStarted(p: seq<byte>, w: World) {
    && w.r == START_RECV && w.fwd == [] && w.bwd == []
    && ((w.s == None && w.todo == [p]) || (w.s == Some(StartSend(p)) && w.todo == []))
  }

  ghost predicate SenderDone(w: World) {
    w.todo == [] && (w.s.Some? ==> w.s.value.pc == Finished(Ok(())) && w.s.value.rest == [])
  }

  ghost predicate ReceiverDone(p: seq<byte>, w: World) {
    w.fwd == [] && w.bwd == [] && (w.r == START_RECV || w.r.pc == Received(Ok(p)))
  }

  ghost predicate SingleFrameSent(p: seq<byte>, w: World) {
    && |p| <= 7 && SenderDone(w)
    && (ReceiverDone(p, w) || (w.r == START_RECV && w.bwd == [] && w.fwd == [SingleFrame(p)]))
  }

  ghost predicate FirstFrameSent(p: seq<byte>, w: World) {
    && |p| >= 8 && w.todo == [] && w.s == Some(StartSend(p).(pc := AwaitFc, rest := p[6..]))
    && w.r == START_RECV && w.bwd == [] && w.fwd == [FirstFrame(p)]
  }

  /** The receiver is in the middle of the message. */
  ghost predicate Transferring(cfg: Config, p: seq<byte>, w: World) {
    Pipeline(w.r.buf, w.r.sn, w.fwd, Unsent(w), p) && Counters(cfg, p, w)
  }

  /** Program counters, sequence numbers and block counters agree. */
  ghost predicate Counters(cfg: Config, p: seq<byte>, w: World) {
    && |p| >= 8 && w.todo == []
    && w.r.len == |p| && |w.r.buf| >= 6
    && (w.s.Some? && Unsent(w) != [] ==> w.s.value.sn == (w.r.sn + |w.fwd|) % 256)
    && (cfg.blockSize > 0 ==> w.r.cfInBlock + |w.fwd| <= cfg.blockSize)
    && ( || (SenderDone(w) && w.r.pc.Collecting? && w.fwd != [] && w.bwd == [])
         || InBlock(cfg, w)
         || AtBoundary(cfg, w))
  }

  /** The sender may send: no flow control is in flight and none is owed. */
  ghost predicate InBlock(cfg: Config, w: World) {
    && w.s.Some? && w.bwd == [] && w.r.pc.Collecting?
    && var s := w.s.value;
    && s.pc.Sending? && s.fc == FlowControl(cfg)
    && (s.rest == [] ==> w.fwd != [])
    && (cfg.blockSize > 0 ==>
          s.blockCount == w.r.cfInBlock + |w.fwd| && (s.rest != [] ==> s.blockCount < cfg.blockSize))
  }

  /** The sender waits: the rest of the block, or the debt, or the flow control itself is on its way. */
  ghost predicate AtBoundary(cfg: Config, w: World) {
    && w.s.Some? && w.s.value.pc.AwaitFc? && w.s.value.rest != []
    && if w.bwd == [] then
         if w.r.pc.OwesFc? then w.fwd == []
         else w.r.pc.Collecting? && w.fwd != [] && 0 < cfg.blockSize == w.r.cfInBlock + |w.fwd|
       else
         w.bwd == [FlowControl(cfg)] && w.fwd == [] && w.r.pc.Collecting? && w.r.cfInBlock == 0
  }

  ghost predicate AllReceived(p: seq<byte>, w: World) {
    && |p| >= 8 && w.todo == [] && ReceiverDone(p, w) && Unsent(w) == []
    && (w.s.Some? ==> w.s.value.pc.Sending? || w.s.value.pc == Finished(Ok(())))
  }

  ghost predicate Joint(cfg: Config, p: seq<byte>, w: World) {
    && w.Valid()
    && ( || NotStarted(p, w) || SingleFrameSent(p, w) || FirstFrameSent(p, w)
         || Transferring(cfg, p, w) || AllReceived(p, w))
  }

  lemma {:induction false} CarriedHead(frames: seq<Pdu>)
    requires frames != [] && frames[0] != []
    ensures Carried(frames) == frames[0][1..] + Carried(frames[1..])
  {
    if |frames| > 1 {
      var most := frames[..|frames| - 1];
      CarriedHead(most);
      assert frames[1..][..|frames| - 2] == most[1..];
    }
  }

  lemma NumberedSnoc(frames: seq<Pdu>, sn: byte, chunk: seq<byte>, last: bool)
    requires Numbered(frames, sn, false) && 1 <= |chunk| <= 7 && (|chunk| == 7 || last)
    ensures Numbered(frames + [ConsecutiveFrame((sn + |frames|) % 256, chunk)], sn, last)
  {
    var cf := ConsecutiveFrame((sn + |frames|) % 256, chunk);
    NibbleOfByte(sn + |frames|);
    assert cf[0] == TYPE_CF + (sn + |frames|) % 16;
    forall k | 0 <= k < |frames| ensures (frames + [cf])[k] == frames[k] {
    }
  }

  lemma CarriedSnoc(frames: seq<Pdu>, sn: byte, chunk: seq<byte>)
    ensures Carried(frames + [ConsecutiveFrame(sn, chunk)]) == Carried(frames) + chunk
  {
    var cf := ConsecutiveFrame(sn, chunk);
    assert (frames + [cf])[..|frames|] == frames && cf[1..] == chunk;
  }

  /** Bytes move from one part of the pipeline to the next. */
  lemma Reassociate(a: seq<byte>, b: seq<byte>, c: seq<byte>, d: seq<byte>)
    ensures a + b + (c + d) == a + (b + c) + d
  {
  }

  lemma PipelinePush(buf: seq<byte>, sn: byte, frames: seq<Pdu>, rest: seq<byte>, p: seq<byte>)
    requires Pipeline(buf, sn, frames, rest, p) && rest != []
    ensures var n := Min(|rest|, 7);
            Pipeline(buf, sn, frames + [ConsecutiveFrame((sn + |frames|) % 256, rest[..n])], rest[n..], p)
  {
    var n := Min(|rest|, 7);
    NumberedSnoc(frames, sn, rest[..n], rest[n..] == []);
    CarriedSnoc(frames, (sn + |frames|) % 256, rest[..n]);
    var after := frames + [ConsecutiveFrame((sn + |frames|) % 256, rest[..n])];
    assert buf + Carried(after) + rest[n..] == p by {
      assert rest[..n] + rest[n..] == rest;
      Reassociate(buf, Carried(frames), rest[..n], rest[n..]);
    }
  }

  lemma NumberedTail(frames: seq<Pdu>, sn: byte, last: bool)
    requires Numbered(frames, sn, last) && frames != []
    ensures Numbered(frames[1..], (sn + 1) % 256, last)
  {
    var tail := frames[1..];
    forall k | 0 <= k < |tail|
      ensures && 2 <= |tail[k]| <= 8 && tail[k][0] == TYPE_CF + ((sn + 1) % 256 + k) % 16
              && (|tail[k]| == 8 || (last && k == |tail| - 1))
    {
      assert tail[k] == frames[k + 1];
      assert ((sn + 1) % 256 + k) % 16 == (sn + (k + 1)) % 16;
    }
  }

  lemma {:induction false} PipelinePop(buf: seq<byte>, sn: byte, frames: seq<Pdu>, rest: seq<byte>, p: seq<byte>)
    requires Pipeline(buf, sn, frames, rest, p) && frames != []
    ensures 2 <= |frames[0]| <= 8 && frames[0][0] == TYPE_CF + sn % 16
    ensures |buf| + |frames[0]| - 1 <= |p|
    ensures |buf| + |frames[0]| - 1 == |p| <==> frames == [frames[0]] && rest == []
    ensures Pipeline(buf + frames[0][1..], (sn + 1) % 256, frames[1..], rest, p)
  {
    CarriedHead(frames);
    NumberedTail(frames, sn, rest == []);
    assert (buf + frames[0][1..]) + Carried(frames[1..]) + rest == p;
    if |frames| > 1 {
      CarriedHead(frames[1..]);
      assert |frames[1]| >= 2;
    }
  }

  /** The sender emits a Consecutive Frame. */
  lemma CfSentCounters(cfg: Config, p: seq<byte>, w: World)
    requires w.Valid() && Counters(cfg, p, w) && InBlock(cfg, w) && Unsent(w) != []
    ensures var s := w.s.value;
            var n := Min(|s.rest|, 7);
            var w' := w.(s := Some(SenderEmit(s).0),
                         fwd := w.fwd + [ConsecutiveFrame((w.r.sn + |w.fwd|) % 256, s.rest[..n])]);
            SenderStep(w) == Some(w') && Counters(cfg, p, w') && Unsent(w') == s.rest[n..]
  {
  }

  lemma CfSent(cfg: Config, p: seq<byte>, w: World)
    requires w.Valid() && Transferring(cfg, p, w) && InBlock(cfg, w) && Unsent(w) != []
    ensures SenderStep(w).Some? && Transferring(cfg, p, SenderStep(w).value)
  {
    CfSentCounters(cfg, p, w);
    PipelinePush(w.r.buf, w.r.sn, w.fwd, Unsent(w), p);
  }

  lemma SenderKeepsTransferring(cfg: Config, p: seq<byte>, w: World)
    requires w.Valid() && Transferring(cfg, p, w) && SenderStep(w).Some?
    ensures Transferring(cfg, p, SenderStep(w).value)
  {
    if InBlock(cfg, w) && Unsent(w) != [] {
      CfSent(cfg, p, w);
    } else {
      assert w.fwd + [] == w.fwd;
    }
  }

  lemma SenderKeepsJoint(cfg: Config, p: seq<byte>, w: World)
    requires 1 <= |p| <= 4095 && Joint(cfg, p, w) && SenderStep(w).Some?
    ensures Joint(cfg, p, SenderStep(w).value)
  {
    if Transferring(cfg, p, w) {
      SenderKeepsTransferring(cfg, p, w);
    } else {
      assert w.fwd + [] == w.fwd;
    }
  }

  /** The receiver consumes a Consecutive Frame. */
  lemma CfTakenCounters(cfg: Config, p: seq<byte>, w: World)
    requires w.Valid() && Counters(cfg, p, w) && w.r.pc.Collecting? && w.fwd != []
    requires var f := w.fwd[0];
             && 2 <= |f| <= 8 && f[0] == TYPE_CF + w.r.sn % 16 && |w.r.buf| + |f| - 1 <= |p|
             && (|w.r.buf| + |f| - 1 == |p| <==> w.fwd == [f] && Unsent(w) == [])
    ensures var w' := w.(r := TakeCf(cfg, w.r, w.fwd[0]), fwd := w.fwd[1..]);
            && ReceiverStep(cfg, w) == Some(w')
            && w'.r.buf == w.r.buf + w.fwd[0][1..] && w'.r.sn == (w.r.sn + 1) % 256
            && if |w'.r.buf| == |p| then
                 && w'.r.pc == Received(Ok(w'.r.buf)) && w'.bwd == [] && w'.todo == []
                 && (w'.s.Some? ==> w'.s.value.pc.Sending? || w'.s.value.pc == Finished(Ok(())))
               else Counters(cfg, p, w')
  {
    var chunk := w.fwd[0][1..];
    assert chunk[..Min(|chunk|, |p| - |w.r.buf|)] == chunk;
  }

  lemma CfTaken(cfg: Config, p: seq<byte>, w: World)
    requires w.Valid() && Transferring(cfg, p, w) && w.r.pc.Collecting? && w.fwd != []
    ensures var w' := ReceiverStep(cfg, w).value;
            AllReceived(p, w') || Transferring(cfg, p, w')
  {
    PipelinePop(w.r.buf, w.r.sn, w.fwd, Unsent(w), p);
    CfTakenCounters(cfg, p, w);
    var w' := ReceiverStep(cfg, w).value;
    if |w'.r.buf| == |p| {
      assert w'.r.buf + Carried(w'.fwd) + Unsent(w') == p;
      assert w'.r.buf == p;
      assert w'.fwd == [];
      assert Unsent(w') == [];
    }
  }

  lemma SingleFrameRead(cfg: Config, p: seq<byte>, w: World)
    requires 1 <= |p| && w.Valid() && SingleFrameSent(p, w) && ReceiverStep(cfg, w).Some?
    ensures SingleFrameSent(p, ReceiverStep(cfg, w).value)
  {
    assert SingleFrame(p)[1..1 + |p|] == p;
  }

  lemma FirstFrameRead(cfg: Config, p: seq<byte>, w: World)
    requires |p| <= 4095 && w.Valid() && FirstFrameSent(p, w)
    ensures ReceiverStep(cfg, w).Some? && Transferring(cfg, p, ReceiverStep(cfg, w).value)
  {
    FirstFrameTaken(p);
    assert w.fwd[1..] == [] && Carried([]) == [];
    assert p[..6] + [] + p[6..] == p;
  }

  lemma ReceiverKeepsJoint(cfg: Config, p: seq<byte>, w: World)
    requires 1 <= |p| <= 4095 && Joint(cfg, p, w) && ReceiverStep(cfg, w).Some?
    ensures Joint(cfg, p, ReceiverStep(cfg, w).value)
  {
    if SingleFrameSent(p, w) {
      SingleFrameRead(cfg, p, w);
    } else if FirstFrameSent(p, w) {
      FirstFrameRead(cfg, p, w);
    } else if Transferring(cfg, p, w) && w.r.pc.Collecting? && w.fwd != [] {
      CfTaken(cfg, p, w);
    }
  }

  lemma {:induction false} JointAlways(cfg: Config, p: seq<byte>, w: World, schedule: seq<Actor>)
    requires 1 <= |p| <= 4095 && Joint(cfg, p, w) && Run(cfg, w, schedule).Some?
    ensures Joint(cfg, p, Run(cfg, w, schedule).value)
    decreases |schedule|
  {
    if schedule != [] {
      StepKeepsJoint(cfg, p, w, schedule[0]);
      JointAlways(cfg, p, Step(cfg, w, schedule[0]).value, schedule[1..]);
    }
  }

  lemma StepKeepsJoint(cfg: Config, p: seq<byte>, w: World, a: Actor)
    requires 1 <= |p| <= 4095 && Joint(cfg, p, w) && Step(cfg, w, a).Some?
    ensures Joint(cfg, p, Step(cfg, w, a).value)
  {
    if a.SenderSide? { SenderKeepsJoint(cfg, p, w); } else { ReceiverKeepsJoint(cfg, p, w); }
  }

  // ---------------------------------------------------------------------------
  // Occupancy
  // ---------------------------------------------------------------------------

  lemma {:induction false} CarriedLength(frames: seq<Pdu>, sn: byte, last: bool)
    requires Numbered(frames, sn, last)
    ensures frames != [] ==> |Carried(frames)| >= 7 * |frames| - 6
  {
    if |frames| > 1 {
      CarriedFull(frames[..|frames| - 1], sn);
    }
  }

  lemma {:induction false} CarriedFull(frames: seq<Pdu>, sn: byte)
    requires forall k :: 0 <= k < |frames| ==> |frames[k]| == 8
    ensures |Carried(frames)| == 7 * |frames|
  {
    if frames != [] {
      CarriedFull(frames[..|frames| - 1], sn);
    }
  }

  /** Consecutive Frames in a transfer of `p`. */
  function CfCount(p: seq<byte>): nat { if |p| <= 7 then 0 else |p| / 7 }

  function Max(a: nat, b: nat): nat { if a >= b then a else b }

  /** In every reachable world at most one flow control is pending, and the frames in flight are bounded by the block
      size, when there is one, and by the length of the transfer. */
  lemma OccupancyBound(cfg: Config, p: seq<byte>, w: World)
    requires 1 <= |p| <= 4095 && Joint(cfg, p, w)
    ensures |w.bwd| <= 1
    ensures |w.fwd| <= Max(1, CfCount(p))
    ensures cfg.blockSize > 0 ==> |w.fwd| <= cfg.blockSize
  {
    if Transferring(cfg, p, w) {
      CarriedLength(w.fwd, w.r.sn, Unsent(w) == []);
    }
  }

  /** What a drop-newest queue of `QUEUE_SLOTS` holds where an unbounded one would go from `before` to `after`. */
  function Kept(before: seq<Pdu>, after: seq<Pdu>): seq<Pdu> { if |after| > QUEUE_SLOTS then before else after }

  function AsFrame(f: Pdu): Frames.Frame { Frames.DEFAULT.(data := f) }

  /** The same queue as a subscription with default options has it. */
  function AsSubscription(queue: seq<Pdu>): SubQueue.Sub {
    SubQueue.Fresh(SubQueue.DEFAULT_DEPTH, Relay.DropNewest, 0, 0).(
      queue := seq(|queue|, i requires 0 <= i < |queue| => AsFrame(queue[i])))
  }

  lemma KeptIsPushed(queue: seq<Pdu>, f: Pdu, now: nat)
    requires |queue| <= QUEUE_SLOTS
    ensures SubQueue.Pushed(AsSubscription(queue), AsFrame(f), now).sub == AsSubscription(Kept(queue, queue + [f]))
  {
  }

  /** A step over such queues: a PDU that finds its queue full is lost. */
  function BoundedStep(cfg: Config, w: World, a: Actor): (r: Option<World>)
    requires w.Valid()
    ensures r.Some? ==> r.value.Valid()
  {
    match Step(cfg, w, a)
    case None => None
    case Some(w') =>
      Some(w'.(fwd := Kept(w.fwd, w'.fwd), bwd := Kept(w.bwd, w'.bwd)))
  }

  function BoundedRun(cfg: Config, w: World, schedule: seq<Actor>): (r: Option<World>)
    requires w.Valid()
    decreases |schedule|
  {
    if schedule == [] then Some(w)
    else
      match BoundedStep(cfg, w, schedule[0])
      case None => None
      case Some(w') => BoundedRun(cfg, w', schedule[1..])
  }

  ghost predicate FitsTheQueues(cfg: Config, p: seq<byte>) {
    CfCount(p) <= QUEUE_SLOTS || 1 <= cfg.blockSize <= QUEUE_SLOTS
  }

  lemma {:induction false} BoundedRunIsRun(cfg: Config, p: seq<byte>, w: World, schedule: seq<Actor>)
    requires 1 <= |p| <= 4095 && FitsTheQueues(cfg, p) && Joint(cfg, p, w)
    ensures BoundedRun(cfg, w, schedule) == Run(cfg, w, schedule)
    decreases |schedule|
  {
    if schedule != [] && Step(cfg, w, schedule[0]).Some? {
      var w' := Step(cfg, w, schedule[0]).value;
      StepKeepsJoint(cfg, p, w, schedule[0]);
      OccupancyBound(cfg, p, w');
      BoundedRunIsRun(cfg, p, w', schedule[1..]);
    }
  }

  /** A sender in the middle of a block that nobody reads from fills the queue and loses a frame. */
  lemma {:induction false} Flood(cfg: Config, w: World) returns (schedule: seq<Actor>)
    requires w.Valid() && w.s.Some? && w.s.value.pc.Sending? && w.s.value.fc == FlowControl(cfg)
    requires w.s.value.blockCount == |w.fwd| <= QUEUE_SLOTS && |w.bwd| <= QUEUE_SLOTS
    requires cfg.blockSize == 0 || cfg.blockSize > QUEUE_SLOTS
    requires |w.s.value.rest| > 7 * (QUEUE_SLOTS - |w.fwd|)
    ensures BoundedRun(cfg, w, schedule) != Run(cfg, w, schedule)
    decreases QUEUE_SLOTS - |w.fwd|
  {
    var w' := SenderStep(w).value;
    if |w.fwd| == QUEUE_SLOTS {
      schedule := [SenderSide];
      assert schedule[1..] == [];
      assert BoundedRun(cfg, BoundedStep(cfg, w, SenderSide).value, []) == BoundedStep(cfg, w, SenderSide);
    } else {
      var tail := Flood(cfg, w');
      schedule := [SenderSide] + tail;
      assert schedule[1..] == tail;
    }
  }

  lemma {:induction false} FloodFromStart(cfg: Config, p: seq<byte>) returns (schedule: seq<Actor>)
    requires 1 <= |p| <= 4095 && !FitsTheQueues(cfg, p)
    ensures BoundedRun(cfg, Init([p]), schedule) != Run(cfg, Init([p]), schedule)
  {
    var w0 := Init([p]);
    var w1 := SenderStep(w0).value;
    var w2 := SenderStep(w1).value;
    FirstFrameTaken(p);
    assert w2.fwd == [FirstFrame(p)];
    var w3 := ReceiverStep(cfg, w2).value;
    var w4 := ReceiverStep(cfg, w3).value;
    assert w4.bwd == [FlowControl(cfg)] && w4.fwd == [];
    var w5 := SenderStep(w4).value;
    schedule := Flood(cfg, w5);
    schedule := PrependBoth(cfg, w4, SenderSide, schedule);
    schedule := PrependBoth(cfg, w3, ReceiverSide, schedule);
    schedule := PrependBoth(cfg, w2, ReceiverSide, schedule);
    schedule := PrependBoth(cfg, w1, SenderSide, schedule);
    schedule := PrependBoth(cfg, w0, SenderSide, schedule);
  }

  lemma {:induction false} PrependBoth(cfg: Config, w: World, a: Actor, tail: seq<Actor>) returns (schedule: seq<Actor>)
    requires w.Valid() && Step(cfg, w, a).Some? && BoundedStep(cfg, w, a) == Step(cfg, w, a)
    requires var w' := Step(cfg, w, a).value; BoundedRun(cfg, w', tail) != Run(cfg, w', tail)
    ensures BoundedRun(cfg, w, schedule) != Run(cfg, w, schedule)
  {
    schedule := [a] + tail;
    assert schedule[1..] == tail;
  }

  // ---------------------------------------------------------------------------
  // Main result
  // ---------------------------------------------------------------------------

  /** The 64-slot queues behave as unbounded ones for a transfer started on empty queues exactly when the receiver
      asks for blocks of 1 to 64 frames or the transfer has at most 64 Consecutive Frames. */
  lemma NoFrameIsDroppedIff(cfg: Config, p: seq<byte>)
    requires 1 <= |p| <= 4095
    ensures (forall schedule :: BoundedRun(cfg, Init([p]), schedule) == Run(cfg, Init([p]), schedule))
            <==> |p| <= 6 + 7 * 64 || 1 <= cfg.blockSize <= 64
  {
    if FitsTheQueues(cfg, p) {
      forall schedule ensures BoundedRun(cfg, Init([p]), schedule) == Run(cfg, Init([p]), schedule) {
        BoundedRunIsRun(cfg, p, Init([p]), schedule);
      }
    } else {
      var schedule := FloodFromStart(cfg, p);
    }
  }
}
