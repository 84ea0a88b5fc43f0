/** Safety over a bus that loses frames: queues stay in order but may drop anything, and any wait may time out.

    What protects the payload is the byte count rather than the sequence number.  A receiver that missed one Consecutive
    Frame can never collect the announced length from the frames that remain, even when a multiple of 16 frames is lost
    and the 4-bit numbers line up again. */
module IsoTpLoss {
  import opened Wrappers
  import opened IsoTp
  import opened IsoTpDelivery

  datatype Event =
    | Proceed(actor: Actor)
    | LoseForward(at: nat) | LoseBackward(at: nat)
    | SenderFails(error: Error) | ReceiverFails(error: Error)

  function LossyStep(cfg: Config, w: World, e: Event): (r: Option<World>)
    requires w.Valid()
    ensures r.Some? ==> r.value.Valid()
  {
    match e
    case Proceed(a) => Step(cfg, w, a)
    case LoseForward(k) => if k < |w.fwd| then Some(w.(fwd := w.fwd[..k] + w.fwd[k + 1..])) else None
    case LoseBackward(k) => if k < |w.bwd| then Some(w.(bwd := w.bwd[..k] + w.bwd[k + 1..])) else None
    case SenderFails(error) =>
      if w.s.Some? && !w.s.value.pc.Finished? then Some(w.(s := Some(w.s.value.(pc := Finished(Err(error))))))
      else None
    case ReceiverFails(error) =>
      if !w.r.pc.Received? then Some(w.(r := w.r.(pc := Received(Err(error))))) else None
  }

  function LossyRun(cfg: Config, w: World, events: seq<Event>): (r: Option<World>)
    requires w.Valid()
    ensures r.Some? ==> r.value.Valid()
    decreases |events|
  {
    if events == [] then Some(w)
    else
      match LossyStep(cfg, w, events[0])
      case None => None
      case Some(w') => LossyRun(cfg, w', events[1..])
  }

  // ---------------------------------------------------------------------------
  // The frames of a transfer
  // ---------------------------------------------------------------------------

  /** Payload bytes covered by the First Frame and `k` Consecutive Frames. */
  function Covered(p: seq<byte>, k: nat): nat { Min(|p|, 6 + 7 * k) }

  /** The `i`-th frame `send` emits for a payload of more than 7 bytes. */
  function Segment(p: seq<byte>, i: nat): Pdu {
    if i == 0 then FirstFrame(p)
    else ConsecutiveFrame(i % 256, p[Covered(p, i - 1)..Covered(p, i)])
  }

  /** `fwd` is what is left in flight of the frames sent so far; `ids` are their indices. */
  ghost predicate InFlight(p: seq<byte>, fwd: seq<Pdu>, ids: seq<nat>, from: nat, sent: nat) {
    && |ids| == |fwd|
    && (forall k :: 0 <= k < |ids| ==> from <= ids[k] < sent && fwd[k] == Segment(p, ids[k]))
    && (forall k, l :: 0 <= k < l < |ids| ==> ids[k] < ids[l])
  }

  /** The sender has emitted `sent` frames so far (or will emit no more). */
  ghost predicate SenderAt(p: seq<byte>, w: World, sent: nat) {
    if w.s.None? then w.todo == [] || (w.todo == [p] && sent == 0)
    else
      var s := w.s.value;
      && w.todo == []
      && match s.pc
         case Start => s == StartSend(p) && sent == 0
         case Finished(_) => true
         case _ => sent >= 1 && s.rest == p[Covered(p, sent - 1)..] && s.sn == sent % 256
  }

  ghost predicate NothingGood(got: seq<RecvResult>) { forall k :: 0 <= k < |got| ==> got[k].Err? }

  /** At most one result is a payload, and it is `p`. */
  ghost predicate OnlyOnce(p: seq<byte>, got: seq<RecvResult>) {
    && (forall k :: 0 <= k < |got| ==> got[k].Err? || got[k] == Ok(p))
    && (forall k, l :: 0 <= k < l < |got| ==> got[k].Err? || got[l].Err?)
  }

  /** The receiver has not seen the First Frame. */
  ghost predicate Before(w: World) {
    NothingGood(w.got) && (w.r == START_RECV || (w.r.pc.Received? && w.r.pc.result.Err?))
  }

  /** The receiver took the First Frame and `taken` later frames, the last of them number `last`. */
  ghost predicate During(p: seq<byte>, w: World, taken: nat, last: nat) {
    && NothingGood(w.got)
    && (w.r.pc.Collecting? || w.r.pc.OwesFc?)
    && w.r.len == |p| && |w.r.buf| <= 6 + 7 * taken && taken <= last
    && (last == 0 || Covered(p, last - 1) < |p|)
    && (taken == last ==> w.r.buf == p[..Covered(p, taken)])
  }

  /** The First Frame is gone: `recv` can only report errors, after at most one success. */
  ghost predicate After(p: seq<byte>, w: World) {
    match w.r.pc
    case AwaitFirst => w.r == START_RECV && OnlyOnce(p, w.got)
    case Received(Ok(q)) => q == p && NothingGood(w.got)
    case Received(Err(_)) => OnlyOnce(p, w.got)
    case _ => false
  }

  ghost predicate Safe(p: seq<byte>, w: World, ids: seq<nat>, sent: nat, taken: nat, last: nat) {
    && w.Valid() && SenderAt(p, w, sent)
    && (sent >= 2 ==> Covered(p, sent - 2) < |p|)
    && ( || (InFlight(p, w.fwd, ids, 0, sent) && Before(w))
         || (InFlight(p, w.fwd, ids, last + 1, sent) && last < sent && During(p, w, taken, last))
         || (InFlight(p, w.fwd, ids, 1, sent) && sent >= 1 && After(p, w)))
  }

  /** The first segment that may still be in flight. */
  ghost function From(p: seq<byte>, w: World, ids: seq<nat>, sent: nat, last: nat): nat {
    if InFlight(p, w.fwd, ids, 0, sent) && Before(w) then 0
    else if InFlight(p, w.fwd, ids, 1, sent) && sent >= 1 && After(p, w) then 1
    else last + 1
  }

  /** The chunk of the next Consecutive Frame. */
  lemma NextChunk(p: seq<byte>, rest: seq<byte>, sn: byte, sent: nat)
    requires sent >= 1 && rest == p[Covered(p, sent - 1)..] && rest != [] && sn == sent % 256
    ensures var n := Min(|rest|, 7);
            && ConsecutiveFrame(sn, rest[..n]) == Segment(p, sent) && rest[n..] == p[Covered(p, sent)..]
            && Covered(p, sent - 1) < |p| && (sn + 1) % 256 == (sent + 1) % 256
  {
    var n := Min(|rest|, 7);
    assert rest[..n] == p[Covered(p, sent - 1)..Covered(p, sent)];
    assert rest[n..] == p[Covered(p, sent)..];
    NextByte(sent);
  }

  /** The next frame a sender emits is the next segment. */
  lemma SegmentEmitted(p: seq<byte>, w: World, sent: nat) returns (sent': nat)
    requires 8 <= |p| <= 4095 && w.Valid() && SenderAt(p, w, sent) && SenderStep(w).Some?
    ensures var w' := SenderStep(w).value;
            && w'.r == w.r && w'.got == w.got && SenderAt(p, w', sent')
            && if sent' == sent then w'.fwd == w.fwd
               else sent' == sent + 1 && w'.fwd == w.fwd + [Segment(p, sent)]
                    && (sent >= 1 ==> Covered(p, sent - 1) < |p|)
  {
    var w' := SenderStep(w).value;
    sent' := if |w'.fwd| > |w.fwd| then sent + 1 else sent;
    assert w.fwd + [] == w.fwd;
    if sent' == sent + 1 && sent > 0 {
      NextChunk(p, w.s.value.rest, w.s.value.sn, sent);
    }
  }

  lemma InFlightPush(p: seq<byte>, fwd: seq<Pdu>, ids: seq<nat>, from: nat, sent: nat)
    requires InFlight(p, fwd, ids, from, sent) && from <= sent
    ensures InFlight(p, fwd + [Segment(p, sent)], ids + [sent], from, sent + 1)
  {
  }

  /** Removing position `k` from two parallel sequences. */
  lemma Dropped<T>(frame: nat -> T, fwd: seq<T>, ids: seq<nat>, k: nat)
    requires |ids| == |fwd| && k < |fwd|
    requires forall i :: 0 <= i < |ids| ==> fwd[i] == frame(ids[i])
    requires forall i, l :: 0 <= i < l < |ids| ==> ids[i] < ids[l]
    ensures var fwd', ids' := fwd[..k] + fwd[k + 1..], ids[..k] + ids[k + 1..];
            && |ids'| == |fwd'| == |fwd| - 1
            && (forall i :: 0 <= i < |ids'| ==> ids'[i] in ids && fwd'[i] == frame(ids'[i]))
            && (forall i, l :: 0 <= i < l < |ids'| ==> ids'[i] < ids'[l])
  {
  }

  lemma InFlightDrop(p: seq<byte>, fwd: seq<Pdu>, ids: seq<nat>, from: nat, sent: nat, k: nat)
    requires InFlight(p, fwd, ids, from, sent) && k < |fwd|
    ensures InFlight(p, fwd[..k] + fwd[k + 1..], ids[..k] + ids[k + 1..], from, sent)
  {
    Dropped(i => Segment(p, i), fwd, ids, k);
  }

  /** The phase the receiver is in does not depend on the sender. */
  lemma SamePhase(p: seq<byte>, w: World, w': World, taken: nat, last: nat)
    requires w'.r == w.r && w'.got == w.got
    ensures Before(w') == Before(w) && After(p, w') == After(p, w)
    ensures During(p, w', taken, last) == During(p, w, taken, last)
  {
  }

  lemma SenderSafe(p: seq<byte>, w: World, ids: seq<nat>, sent: nat, taken: nat, last: nat)
    returns (ids': seq<nat>, sent': nat)
    requires 8 <= |p| <= 4095 && Safe(p, w, ids, sent, taken, last) && SenderStep(w).Some?
    ensures Safe(p, SenderStep(w).value, ids', sent', taken, last)
  {
    sent' := SegmentEmitted(p, w, sent);
    SamePhase(p, w, SenderStep(w).value, taken, last);
    ids' := if sent' == sent then ids else ids + [sent];
    if sent' != sent {
      var from := From(p, w, ids, sent, last);
      InFlightPush(p, w.fwd, ids, from, sent);
    }
  }

  /** Frame `i` reaches a collecting receiver whose last frame was an earlier one. */
  lemma SegmentTaken(cfg: Config, p: seq<byte>, w: World, taken: nat, last: nat, i: nat)
    requires w.Valid() && 8 <= |p| <= 4095 && During(p, w, taken, last) && w.r.pc.Collecting?
    requires last < i && Covered(p, i - 1) < |p|
    ensures var r' := TakeCf(cfg, w.r, Segment(p, i));
            || (r'.pc.Received? && (r'.pc.result.Err? || r'.pc.result == Ok(p)))
            || During(p, w.(r := r'), taken + 1, i)
  {
    var f := Segment(p, i);
    var chunk := p[Covered(p, i - 1)..Covered(p, i)];
    assert f[1..] == chunk;
    var r' := TakeCf(cfg, w.r, f);
    if LowNibble(f[0]) == LowNibble(w.r.sn) {
      var took := chunk[..Min(|chunk|, |p| - |w.r.buf|)];
      assert r'.buf == w.r.buf + took;
      if taken + 1 == i {
        assert took == chunk;
        assert p[..Covered(p, taken)] + chunk == p[..Covered(p, i)];
        assert |r'.buf| == |p| ==> r'.buf == p;
      }
    }
  }

  lemma InFlightPop(p: seq<byte>, fwd: seq<Pdu>, ids: seq<nat>, from: nat, sent: nat)
    requires InFlight(p, fwd, ids, from, sent) && fwd != []
    ensures from <= ids[0] < sent && fwd[0] == Segment(p, ids[0])
    ensures InFlight(p, fwd[1..], ids[1..], ids[0] + 1, sent)
  {
  }

  /** What a waiting receiver does with the frame at the head of the queue. */
  lemma HeadSafe(cfg: Config, p: seq<byte>, w: World, sent: nat, taken: nat, last: nat, from: nat, i: nat)
    returns (taken': nat, last': nat)
    requires 8 <= |p| <= 4095 && w.Valid() && w.r.Takes() && from <= i < sent && (i >= 1 ==> Covered(p, i - 1) < |p|)
    requires (from == 0 && Before(w)) || (from == last + 1 && During(p, w, taken, last)) || (from == 1 && After(p, w))
    ensures var w' := w.(r := ReceiverTake(cfg, w.r, Segment(p, i)));
            (last' == i && During(p, w', taken', last')) || After(p, w')
  {
    taken', last' := taken, last;
    if w.r.pc.Collecting? {
      SegmentTaken(cfg, p, w, taken, last, i);
      taken', last' := taken + 1, i;
    } else if i == 0 {
      FirstFrameTaken(p);
      taken', last' := 0, 0;
    } else {
      assert HighNibble(Segment(p, i)[0]) == TYPE_CF;
    }
  }

  lemma CoveredMonotone(p: seq<byte>, i: nat, j: nat)
    requires i <= j && Covered(p, j) < |p|
    ensures Covered(p, i) < |p|
  {
  }

  lemma ReceiverSafe(cfg: Config, p: seq<byte>, w: World, ids: seq<nat>, sent: nat, taken: nat, last: nat)
    returns (ids': seq<nat>, taken': nat, last': nat)
    requires 8 <= |p| <= 4095 && Safe(p, w, ids, sent, taken, last) && ReceiverStep(cfg, w).Some?
    ensures Safe(p, ReceiverStep(cfg, w).value, ids', sent, taken', last')
  {
    ids', taken', last' := ids, taken, last;
    if w.r.Takes() {
      var from := From(p, w, ids, sent, last);
      InFlightPop(p, w.fwd, ids, from, sent);
      if ids[0] >= 1 {
        CoveredMonotone(p, ids[0] - 1, sent - 2);
      }
      taken', last' := HeadSafe(cfg, p, w, sent, taken, last, from, ids[0]);
      ids' := ids[1..];
    }
  }

  lemma LossSafe(p: seq<byte>, w: World, ids: seq<nat>, sent: nat, taken: nat, last: nat, k: nat)
    returns (ids': seq<nat>)
    requires Safe(p, w, ids, sent, taken, last) && k < |w.fwd|
    ensures Safe(p, w.(fwd := w.fwd[..k] + w.fwd[k + 1..]), ids', sent, taken, last)
  {
    ids' := ids[..k] + ids[k + 1..];
    var from := From(p, w, ids, sent, last);
    InFlightDrop(p, w.fwd, ids, from, sent, k);
  }

  lemma SafeStep(cfg: Config, p: seq<byte>, w: World, e: Event, ids: seq<nat>, sent: nat, taken: nat, last: nat)
    returns (ids': seq<nat>, sent': nat, taken': nat, last': nat)
    requires 8 <= |p| <= 4095 && Safe(p, w, ids, sent, taken, last) && LossyStep(cfg, w, e).Some?
    ensures Safe(p, LossyStep(cfg, w, e).value, ids', sent', taken', last')
  {
    ids', sent', taken', last' := ids, sent, taken, last;
    match e {
      case Proceed(SenderSide) => ids', sent' := SenderSafe(p, w, ids, sent, taken, last);
      case Proceed(ReceiverSide) => ids', taken', last' := ReceiverSafe(cfg, p, w, ids, sent, taken, last);
      case LoseForward(k) => ids' := LossSafe(p, w, ids, sent, taken, last, k);
      case LoseBackward(_) =>
      case SenderFails(_) =>
      case ReceiverFails(_) =>
    }
  }

  // ---------------------------------------------------------------------------
  // Payloads that need at most one frame
  // ---------------------------------------------------------------------------

  /** A refused or single-frame payload: at most one frame, and it is handled at most once. */
  ghost predicate ShortSafe(p: seq<byte>, w: World) {
    && w.Valid()
    && if (w.todo == [p] && w.s.None?) || (w.todo == [] && w.s == Some(StartSend(p))) then w.fwd == [] && Before(w)
       else
         && w.todo == [] && (w.s.Some? ==> w.s.value.pc.Finished?)
         && if w.fwd == [] then Before(w) || After(p, w) else |p| <= 7 && w.fwd == [SingleFrame(p)] && Before(w)
  }

  lemma ShortStep(cfg: Config, p: seq<byte>, w: World, e: Event)
    requires |p| < 8 || |p| > 4095
    requires ShortSafe(p, w) && LossyStep(cfg, w, e).Some?
    ensures ShortSafe(p, LossyStep(cfg, w, e).value)
  {
    match e {
      case Proceed(SenderSide) => assert w.fwd + [] == w.fwd;
      case Proceed(ReceiverSide) => ShortReceived(cfg, p, w);
      case _ =>
    }
  }

  lemma ShortReceived(cfg: Config, p: seq<byte>, w: World)
    requires |p| < 8 || |p| > 4095
    requires ShortSafe(p, w) && ReceiverStep(cfg, w).Some?
    ensures ShortSafe(p, ReceiverStep(cfg, w).value)
  {
    assert |p| <= 7 ==> SingleFrame(p)[1..1 + |p|] == p;
  }

  // ---------------------------------------------------------------------------
  // Main result
  // ---------------------------------------------------------------------------

  /** The transfer of `p` is safe so far. */
  ghost predicate Transfer(p: seq<byte>, w: World) {
    if 8 <= |p| <= 4095 then
      exists ids: seq<nat>, sent: nat, taken: nat, last: nat :: Safe(p, w, ids, sent, taken, last)
    else ShortSafe(p, w)
  }

  lemma TransferStarts(p: seq<byte>, w: World)
    requires w.s == None && w.r == START_RECV && w.fwd == [] && w.bwd == [] && w.todo == [p] && w.got == []
    ensures Transfer(p, w)
  {
    if 8 <= |p| <= 4095 {
      assert Safe(p, w, [], 0, 0, 0);
    }
  }

  lemma TransferStep(cfg: Config, p: seq<byte>, w: World, e: Event)
    requires Transfer(p, w) && w.Valid() && LossyStep(cfg, w, e).Some?
    ensures Transfer(p, LossyStep(cfg, w, e).value)
  {
    if 8 <= |p| <= 4095 {
      var ids: seq<nat>, sent: nat, taken: nat, last: nat :| Safe(p, w, ids, sent, taken, last);
      ids, sent, taken, last := SafeStep(cfg, p, w, e, ids, sent, taken, last);
    } else {
      ShortStep(cfg, p, w, e);
    }
  }

  lemma TransferGot(p: seq<byte>, w: World)
    requires Transfer(p, w)
    ensures OnlyOnce(p, w.got)
  {
  }

  lemma {:induction false} TransferAlways(cfg: Config, p: seq<byte>, w: World, events: seq<Event>)
    requires w.Valid() && Transfer(p, w) && LossyRun(cfg, w, events).Some?
    ensures OnlyOnce(p, LossyRun(cfg, w, events).value.got)
    decreases |events|
  {
    if events == [] {
      TransferGot(p, w);
    } else {
      TransferStep(cfg, p, w, events[0]);
      TransferAlways(cfg, p, LossyStep(cfg, w, events[0]).value, events[1..]);
    }
  }

  /** Whatever frames of a transfer are lost and whenever a wait is given up, and however often `recv` is called
      again, the only payload any `recv` returns is the one sent, and at most one `recv` returns it. */
  lemma NothingButThePayload(cfg: Config, p: seq<byte>, events: seq<Event>)
    requires LossyRun(cfg, Init([p]), events).Some?
    ensures OnlyOnce(p, LossyRun(cfg, Init([p]), events).value.got)
  {
    TransferStarts(p, Init([p]));
    TransferAlways(cfg, p, Init([p]), events);
  }
}
