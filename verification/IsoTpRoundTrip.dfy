/** `recv` undoes `send`: the frames of any successful `send`, whatever flow control shaped it, reassemble to its
    payload at any receiver, whatever block size that receiver asks for. */
module IsoTpRoundTrip {
  import opened Wrappers
  import opened IsoTp
  import opened IsoTpConn
  import opened IsoTpDelivery

  function SentFrames(t: seq<Event>): seq<Pdu> {
    if t == [] then [] else (if t[0].Sent? then [t[0].frame] else []) + SentFrames(t[1..])
  }

  lemma SentFramesCons(e: Event, t: seq<Event>)
    ensures SentFrames([e] + t) == if e.Sent? then [e.frame] + SentFrames(t) else SentFrames(t)
  {
    assert ([e] + t)[1..] == t;
    assert [] + SentFrames(t) == SentFrames(t);
  }

  /** A sender and a receiver at the same point of the payload. */
  ghost predicate SamePoint(p: seq<byte>, s: Sender, r: Receiver) {
    && s.Valid() && (s.pc.Sending? || s.pc.AwaitFc?) && s.rest != []
    && r.pc.Collecting? && r.buf + s.rest == p && r.len == |p| && r.sn == s.sn
  }

  lemma CfReceived(cfg: Config, p: seq<byte>, s: Sender, r: Receiver, s': Sender, cf: Pdu)
    requires SamePoint(p, s, r) && s.pc.Sending? && SenderEmit(s) == (s', [cf])
    ensures var r' := TakeCf(cfg, r, cf);
            if s'.rest == [] then s'.pc.Sending? && r'.pc == Received(Ok(p))
            else if r'.pc.OwesFc? then SamePoint(p, s', ReceiverSentFc(r'))
            else SamePoint(p, s', r')
  {
    var n := Min(|s.rest|, 7);
    var chunk := s.rest[..n];
    assert cf[1..] == chunk && chunk[..n] == chunk;
    assert r.buf + chunk + s'.rest == p by { assert chunk + s'.rest == s.rest; }
    assert TakeCf(cfg, r, cf).buf == r.buf + chunk;
    if s'.rest == [] {
      assert r.buf + chunk == p;
    }
  }

  lemma {:induction false} FollowSender(cfg: Config, p: seq<byte>, s: Sender, script: seq<Pdu>, r: Receiver,
                                         tail: seq<Pdu>, link: Link, back: Link)
    requires back.room == None
    requires SamePoint(p, s, r) && RunSender(s, script, link).result.Ok?
    ensures var o := RunReceiver(cfg, r, SentFrames(RunSender(s, script, link).trace) + tail, back);
            o.result == Ok(p) && o.unread == tail
    decreases |script|, |s.rest|, Rank(s.pc)
  {
    if s.pc.AwaitFc? {
      var s' := SenderAdopt(s, script[0]);
      SentFramesCons(Got(script[0]), RunSender(s', script[1..], link).trace);
      FollowSender(cfg, p, s', script[1..], r, tail, link, back);
    } else if IsWait(s.fc) {
      FollowSender(cfg, p, SenderEmit(s).0, script, r, tail, link, back);
    } else {
      var (s', out) := SenderEmit(s);
      FollowCf(cfg, p, s, script, r, tail, s', out[0], link, back);
    }
  }

  /** A frame emitted now heads the trace. */
  lemma SentFirst(s: Sender, script: seq<Pdu>, s': Sender, f: Pdu, link: Link)
    requires s.Valid() && s'.Valid() && (s.pc.Start? || s.pc.Sending?) && SenderEmit(s) == (s', [f])
    requires !link.Full()
    ensures RunSender(s, script, link).result == RunSender(s', script, link.Less()).result
    ensures SentFrames(RunSender(s, script, link).trace) == [f] + SentFrames(RunSender(s', script, link.Less()).trace)
  {
    assert SentAll([f]) == [Sent(f)];
    SentFramesCons(Sent(f), RunSender(s', script, link.Less()).trace);
  }

  /** A frame received now, and the flow control it may call for. */
  lemma FirstReceived(cfg: Config, r: Receiver, cf: Pdu, later: seq<Pdu>, back: Link)
    requires r.Valid() && r.pc.Collecting? && back.room == None
    ensures var r' := TakeCf(cfg, r, cf);
            var o, next := RunReceiver(cfg, r, [cf] + later, back),
                           RunReceiver(cfg, if r'.pc.OwesFc? then ReceiverSentFc(r') else r', later, back);
            o.result == next.result && o.unread == next.unread
  {
    assert ([cf] + later)[1..] == later;
    assert back.Less() == back;
  }

  lemma {:induction false} FollowCf(cfg: Config, p: seq<byte>, s: Sender, script: seq<Pdu>, r: Receiver, tail: seq<Pdu>,
                                    s': Sender, cf: Pdu, link: Link, back: Link)
    requires back.room == None
    requires SamePoint(p, s, r) && RunSender(s, script, link).result.Ok?
    requires s.pc.Sending? && SenderEmit(s) == (s', [cf])
    ensures var o := RunReceiver(cfg, r, SentFrames(RunSender(s, script, link).trace) + tail, back);
            o.result == Ok(p) && o.unread == tail
    decreases |script|, |s.rest|, Rank(s.pc), 0
  {
    CfReceived(cfg, p, s, r, s', cf);
    SentFirst(s, script, s', cf, link);
    var rest := RunSender(s', script, link.Less()).trace;
    var frames := SentFrames(RunSender(s, script, link).trace) + tail;
    assert frames == [cf] + (SentFrames(rest) + tail);
    FirstReceived(cfg, r, cf, SentFrames(rest) + tail, back);
    if s'.rest == [] {
      assert rest == [] && SentFrames(rest) + tail == tail;
    } else {
      var r' := TakeCf(cfg, r, cf);
      var r'' := if r'.pc.OwesFc? then ReceiverSentFc(r') else r';
      FollowSender(cfg, p, s', script, r'', tail, link.Less(), back);
    }
  }

  lemma {:induction false} FollowFirstFrame(cfg: Config, p: seq<byte>, s: Sender, script: seq<Pdu>,
                                             tail: seq<Pdu>, link: Link, back: Link)
    requires back.room == None
    requires 8 <= |p| <= 4095 && s == StartSend(p).(pc := AwaitFc, rest := p[6..])
    requires RunSender(s, script, link).result.Ok?
    ensures var frames := SentFrames(RunSender(s, script, link).trace) + tail;
            var o := RunReceiver(cfg, START_RECV, [FirstFrame(p)] + frames, back);
            o.result == Ok(p) && o.unread == tail
  {
    var frames := SentFrames(RunSender(s, script, link).trace) + tail;
    assert ([FirstFrame(p)] + frames)[1..] == frames;
    FirstFrameTaken(p);
    var r := Receiver(OwesFc, p[..6], |p|, 1, 0);
    assert RunReceiver(cfg, START_RECV, [FirstFrame(p)] + frames, back) ==
           After([Got(FirstFrame(p))], RunReceiver(cfg, r, frames, back));
    assert p[..6] + p[6..] == p;
    FollowSender(cfg, p, s, script, ReceiverSentFc(r), tail, link, back);
  }

  lemma FollowSingleFrame(cfg: Config, p: seq<byte>, s: Sender, script: seq<Pdu>, tail: seq<Pdu>, link: Link,
                          back: Link)
    requires 1 <= |p| <= 7 && SenderEmit(StartSend(p)) == (s, [SingleFrame(p)]) && s.Valid()
    ensures SentFrames(RunSender(s, script, link).trace) == []
    ensures RunReceiver(cfg, START_RECV, [SingleFrame(p)] + tail, back).result == Ok(p)
    ensures RunReceiver(cfg, START_RECV, [SingleFrame(p)] + tail, back).unread == tail
  {
    var f := SingleFrame(p);
    assert ([f] + tail)[1..] == tail;
    assert f[1..1 + |p|] == p;
  }

  /** Main result: whatever bus the sender had, if it ends with Ok; the receiver's bus takes its flow controls. */
  lemma {:induction false} RecvUndoesSend(cfg: Config, p: seq<byte>, script: seq<Pdu>, tail: seq<Pdu>, link: Link,
                                          back: Link)
    requires back.room == None
    requires RunSender(StartSend(p), script, link).result.Ok?
    ensures var frames := SentFrames(RunSender(StartSend(p), script, link).trace) + tail;
            var o := RunReceiver(cfg, START_RECV, frames, back);
            o.result == Ok(p) && o.unread == tail
  {
    var (s', out) := SenderEmit(StartSend(p));
    SentFirst(StartSend(p), script, s', out[0], link);
    var rest := SentFrames(RunSender(s', script, link.Less()).trace);
    assert [out[0]] + rest + tail == [out[0]] + (rest + tail);
    if |p| <= 7 {
      FollowSingleFrame(cfg, p, s', script, tail, link.Less(), back);
      assert rest + tail == tail;
    } else {
      FollowFirstFrame(cfg, p, s', script, tail, link.Less(), back);
    }
  }
}
