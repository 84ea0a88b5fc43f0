/** Several payloads over a bus that loses frames: when nothing but payloads is received, and a run on which two are
    mixed. */
module IsoTpLossMany {
  import opened Wrappers
  import opened Subsequences
  import opened IsoTp
  import opened IsoTpDelivery
  import opened IsoTpLoss

  // ---------------------------------------------------------------------------
  // Every send starts on a quiet connection
  // ---------------------------------------------------------------------------

  /** This event starts the next `send`. */
  predicate Starts(w: World, e: Event) { e == Proceed(SenderSide) && w.s.None? }

  /** Nothing is in flight, and the receiver neither owes a flow control nor holds a message it has not returned yet. */
  predicate Quiet(w: World) {
    w.fwd == [] && w.bwd == [] && !w.r.pc.OwesFc? && !(w.r.pc.Received? && w.r.pc.result.Ok?)
  }

  /** No `send` of the run starts before the connection is quiet. */
  predicate QuietRun(cfg: Config, w: World, events: seq<Event>)
    requires w.Valid()
    decreases |events|
  {
    events == [] ||
    ((Starts(w, events[0]) ==> Quiet(w)) &&
     match LossyStep(cfg, w, events[0])
     case None => false
     case Some(w') => QuietRun(cfg, w', events[1..]))
  }

  /** The payloads among the results. */
  function Values(got: seq<RecvResult>): seq<seq<byte>>
    decreases |got|
  {
    if got == [] then []
    else Values(got[..|got| - 1]) + if got[|got| - 1].Ok? then [got[|got| - 1].value] else []
  }

  lemma {:induction false} ValuesConcat(a: seq<RecvResult>, b: seq<RecvResult>)
    ensures Values(a + b) == Values(a) + Values(b)
    decreases |b|
  {
    if b == [] {
      assert a + b == a;
    } else {
      assert (a + b)[..|a + b| - 1] == a + b[..|b| - 1];
      ValuesConcat(a, b[..|b| - 1]);
    }
  }

  lemma {:induction false} NoValues(got: seq<RecvResult>)
    requires NothingGood(got)
    ensures Values(got) == []
    decreases |got|
  {
    if got != [] {
      NoValues(got[..|got| - 1]);
    }
  }

  lemma {:induction false} OneValue(p: seq<byte>, got: seq<RecvResult>)
    requires OnlyOnce(p, got)
    ensures Values(got) == [] || Values(got) == [p]
    decreases |got|
  {
    if got != [] {
      var last := |got| - 1;
      OneValue(p, got[..last]);
      if got[last].Ok? {
        NoValues(got[..last]);
      }
    }
  }

  /** The connection as the current transfer sees it: results from `base` on, nothing more to send. */
  function View(w: World, base: nat): World
    requires base <= |w.got|
  {
    w.(todo := [], got := w.got[base..])
  }

  lemma ViewStep(cfg: Config, w: World, e: Event, base: nat)
    requires w.Valid() && base <= |w.got| && LossyStep(cfg, w, e).Some? && !Starts(w, e)
    ensures var w' := LossyStep(cfg, w, e).value;
            && |w'.got| >= |w.got| && w'.got[..base] == w.got[..base] && w'.todo == w.todo
            && LossyStep(cfg, View(w, base), e) == Some(View(w', base))
  {
    var w' := LossyStep(cfg, w, e).value;
    if w.r.pc.Received? && e == Proceed(ReceiverSide) {
      assert w'.got[base..] == w.got[base..] + [w.r.pc.result];
    }
  }

  /** Before the first `send`. */
  ghost predicate Unused(w: World) {
    && w.s.None? && w.fwd == [] && w.bwd == [] && NothingGood(w.got)
    && (w.r == START_RECV || (w.r.pc.Received? && w.r.pc.result.Err?))
  }

  lemma UnusedStep(cfg: Config, w: World, e: Event)
    requires w.Valid() && Unused(w) && LossyStep(cfg, w, e).Some? && !Starts(w, e)
    ensures Unused(LossyStep(cfg, w, e).value)
  {
  }

  /** The frames the sender of `q` may have in flight before any flow control: its first one. */
  predicate OnlyFirst(q: seq<byte>, fwd: seq<Pdu>) {
    fwd == [] || (8 <= |q| <= 4095 && fwd == [FirstFrame(q)]) || (1 <= |q| <= 7 && fwd == [SingleFrame(q)])
  }

  /** The receiver still collects an older message, and the sender of `q` has had no flow control. */
  ghost predicate Stale(q: seq<byte>, w: World) {
    && w.Valid() && w.todo == [] && w.bwd == [] && w.r.pc.Collecting? && NothingGood(w.got) && OnlyFirst(q, w.fwd)
    && (w.s.Some? ==>
          || (w.s.value == StartSend(q) && w.fwd == [])
          || (8 <= |q| <= 4095 && w.s.value == StartSend(q).(pc := AwaitFc, rest := q[6..]))
          || w.s.value.pc.Finished?)
  }

  lemma FirstIsNoCf(cfg: Config, q: seq<byte>, r: Receiver)
    requires 1 <= |q| <= 4095 && r.Valid() && r.pc.Collecting?
    ensures TakeCf(cfg, r, if |q| <= 7 then SingleFrame(q) else FirstFrame(q)).pc == Received(Err(ExpectedCf))
  {
    assert HighNibble((if |q| <= 7 then SingleFrame(q) else FirstFrame(q))[0]) != TYPE_CF;
  }

  /** An older message that ends, or is given up, leaves an ordinary transfer of `q`. */
  lemma StaleEnds(q: seq<byte>, w: World, r: Receiver, fwd: seq<Pdu>)
    requires Stale(q, w) && r.pc.Received? && r.pc.result.Err?
    requires fwd == w.fwd || (fwd == [] && !(w.s == Some(StartSend(q))))
    ensures Transfer(q, w.(r := r, fwd := fwd))
  {
    var w' := w.(r := r, fwd := fwd);
    if 8 <= |q| <= 4095 {
      var sent := if w.s == Some(StartSend(q)) then 0 else 1;
      assert Segment(q, 0) == FirstFrame(q);
      if fwd == [] {
        assert Safe(q, w', [], sent, 0, 0);
      } else {
        assert Safe(q, w', [0], sent, 0, 0);
      }
    }
  }

  lemma StaleStep(cfg: Config, q: seq<byte>, w: World, e: Event)
    requires Stale(q, w) && LossyStep(cfg, w, e).Some? && !Starts(w, e)
    ensures Stale(q, LossyStep(cfg, w, e).value) || Transfer(q, LossyStep(cfg, w, e).value)
  {
    var w' := LossyStep(cfg, w, e).value;
    match e {
      case Proceed(ReceiverSide) =>
        FirstIsNoCf(cfg, q, w.r);
        assert w.fwd[1..] == [];
        StaleEnds(q, w, w'.r, []);
      case ReceiverFails(_) => StaleEnds(q, w, w'.r, w.fwd);
      case LoseForward(k) => assert w'.fwd == [];
      case Proceed(SenderSide) => StaleSender(q, w);
      case _ =>
    }
  }

  lemma StaleSender(q: seq<byte>, w: World)
    requires Stale(q, w) && w.s.Some? && SenderStep(w).Some?
    ensures Stale(q, SenderStep(w).value)
  {
    if w.s.value == StartSend(q) {
      var (s', out) := SenderEmit(w.s.value);
      assert w.fwd + out == out;
    }
  }

  /** A transfer under way. */
  ghost predicate UnderWay(q: seq<byte>, w: World) { Transfer(q, w) || Stale(q, w) }

  lemma UnderWayStep(cfg: Config, q: seq<byte>, w: World, e: Event)
    requires UnderWay(q, w) && w.Valid() && LossyStep(cfg, w, e).Some? && !Starts(w, e)
    ensures UnderWay(q, LossyStep(cfg, w, e).value)
  {
    if Stale(q, w) {
      StaleStep(cfg, q, w, e);
    } else {
      TransferStep(cfg, q, w, e);
    }
  }

  lemma UnderWayGot(q: seq<byte>, w: World)
    requires UnderWay(q, w)
    ensures OnlyOnce(q, w.got)
  {
    if !Stale(q, w) {
      TransferGot(q, w);
    }
  }

  /** A `send` that starts on a quiet connection. */
  lemma QuietStart(q: seq<byte>, w: World)
    requires w.Valid() && Quiet(w) && w.s == Some(StartSend(q)) && w.todo == [] && w.got == []
    requires w.r.pc.AwaitFirst? ==> w.r == START_RECV
    ensures UnderWay(q, w)
  {
    if !w.r.pc.Collecting? {
      if 8 <= |q| <= 4095 {
        assert Safe(q, w, [], 0, 0, 0);
      }
    }
  }

  /** A receiver that waits for a first frame has forgotten everything else. */
  predicate FreshWhenWaiting(w: World) { w.r.pc.AwaitFirst? ==> w.r == START_RECV }

  lemma StaysFresh(cfg: Config, w: World, e: Event)
    requires w.Valid() && FreshWhenWaiting(w) && LossyStep(cfg, w, e).Some?
    ensures FreshWhenWaiting(LossyStep(cfg, w, e).value)
  {
  }

  /** `before` lists the payloads whose transfers are over, `current` the one under way, if any. */
  ghost predicate Progress(w: World, base: nat, before: seq<seq<byte>>, current: seq<seq<byte>>,
                           payloads: seq<seq<byte>>)
  {
    && w.Valid() && FreshWhenWaiting(w)
    && base <= |w.got| && |current| <= 1 && before + current + w.todo == payloads
    && Subsequence(Values(w.got[..base]), before)
    && if current == [] then Unused(View(w, base)) else UnderWay(current[0], View(w, base))
  }

  /** The results so far are some of the payloads started, in order. */
  lemma ProgressGot(w: World, base: nat, before: seq<seq<byte>>, current: seq<seq<byte>>, payloads: seq<seq<byte>>)
    requires Progress(w, base, before, current, payloads)
    ensures Subsequence(Values(w.got), before + current)
  {
    var head, tail := w.got[..base], w.got[base..];
    assert w.got == head + tail;
    ValuesConcat(head, tail);
    if current == [] {
      NoValues(tail);
      assert before + current == before && Values(head) + [] == Values(head);
    } else {
      UnderWayGot(current[0], View(w, base));
      OneValue(current[0], tail);
      SubsequenceOfLonger(Values(head), before, current[0]);
      assert current == [current[0]] && Values(head) + [] == Values(head);
    }
  }

  lemma ProgressStep(cfg: Config, w: World, e: Event, base: nat, before: seq<seq<byte>>, current: seq<seq<byte>>,
                     payloads: seq<seq<byte>>)
    requires Progress(w, base, before, current, payloads) && LossyStep(cfg, w, e).Some? && !Starts(w, e)
    ensures Progress(LossyStep(cfg, w, e).value, base, before, current, payloads)
  {
    ViewStep(cfg, w, e, base);
    StaysFresh(cfg, w, e);
    if current == [] {
      UnusedStep(cfg, View(w, base), e);
    } else {
      UnderWayStep(cfg, current[0], View(w, base), e);
    }
  }

  lemma NextTransfer(cfg: Config, w: World, e: Event, base: nat, before: seq<seq<byte>>, current: seq<seq<byte>>,
                     payloads: seq<seq<byte>>)
    requires Progress(w, base, before, current, payloads) && LossyStep(cfg, w, e).Some? && Starts(w, e) && Quiet(w)
    ensures Progress(LossyStep(cfg, w, e).value, |w.got|, before + current, w.todo[..1], payloads)
  {
    var w', p := LossyStep(cfg, w, e).value, w.todo[0];
    ProgressGot(w, base, before, current, payloads);
    assert w'.got[..|w.got|] == w.got && w'.got[|w.got|..] == [];
    QuietStart(p, View(w', |w.got|));
    assert w.todo == w.todo[..1] + w'.todo;
  }

  lemma {:induction false} QuietAlways(cfg: Config, w: World, events: seq<Event>, base: nat, before: seq<seq<byte>>,
                                       current: seq<seq<byte>>, payloads: seq<seq<byte>>)
    requires Progress(w, base, before, current, payloads) && QuietRun(cfg, w, events)
    ensures LossyRun(cfg, w, events).Some?
    ensures Subsequence(Values(LossyRun(cfg, w, events).value.got), payloads)
    decreases |events|
  {
    if events == [] {
      ProgressGot(w, base, before, current, payloads);
      SubsequenceOfPrefix(Values(w.got), before + current, w.todo);
    } else {
      var w' := LossyStep(cfg, w, events[0]).value;
      if Starts(w, events[0]) {
        NextTransfer(cfg, w, events[0], base, before, current, payloads);
        QuietAlways(cfg, w', events[1..], |w.got|, before + current, w.todo[..1], payloads);
      } else {
        ProgressStep(cfg, w, events[0], base, before, current, payloads);
        QuietAlways(cfg, w', events[1..], base, before, current, payloads);
      }
    }
  }

  /** Main result. If no `send` starts before the connection is quiet, then whatever is lost and whenever waits are
      given up, the payloads received are some of those sent, each at most once and in order. */
  lemma QuietSendsAreSafe(cfg: Config, payloads: seq<seq<byte>>, events: seq<Event>)
    requires QuietRun(cfg, Init(payloads), events)
    ensures LossyRun(cfg, Init(payloads), events).Some?
    ensures Subsequence(Values(LossyRun(cfg, Init(payloads), events).value.got), payloads)
  {
    var w := Init(payloads);
    assert [] + [] + w.todo == payloads;
    assert w.got[..0] == [] && w.got[0..] == [];
    QuietAlways(cfg, w, events, 0, [], [], payloads);
  }

  // ---------------------------------------------------------------------------
  // Without that, two payloads can be mixed
  // ---------------------------------------------------------------------------

  lemma Prefixed(cfg: Config, w: World, e: Event, w': World, rest: seq<Event>, end: World) returns (events: seq<Event>)
    requires w.Valid() && w'.Valid() && LossyStep(cfg, w, e) == Some(w') && LossyRun(cfg, w', rest) == Some(end)
    ensures LossyRun(cfg, w, events) == Some(end)
  {
    events := [e] + rest;
    assert events[1..] == rest;
  }

  /** The head of `p` with the tail of `q`. */
  function Mixed(p: seq<byte>, q: seq<byte>): seq<byte>
    requires 6 <= |p| <= |q|
  {
    p[..6] + q[6..|p|]
  }

  /** The receiver collects `p`, the sender sends `q`, and both count alike. */
  ghost predicate Crossed(cfg: Config, w: World, p: seq<byte>, q: seq<byte>, done: nat) {
    && w.Valid() && 8 <= |p| <= |q| <= 4095 && 6 <= done < |p|
    && w.fwd == [] && w.bwd == [] && w.s.Some?
    && var s := w.s.value;
    && s.pc == Sending && s.rest == q[done..] && s.fc == FlowControl(cfg)
    && w.r.pc == Collecting && w.r.buf == Mixed(p, q)[..done] && w.r.len == |p| && w.r.sn == s.sn
    && (cfg.blockSize > 0 ==> w.r.cfInBlock == s.blockCount < cfg.blockSize)
  }

  lemma MixedGrows(p: seq<byte>, q: seq<byte>, done: nat, took: nat)
    requires 6 <= |p| <= |q| && 6 <= done && done + took <= |p|
    ensures Mixed(p, q)[..done] + q[done..done + took] == Mixed(p, q)[..done + took]
    ensures Mixed(p, q)[..|p|] == Mixed(p, q)
  {
  }

  /** The chunk that a sender of `q` takes next, and what a receiver of `p` keeps of it. */
  lemma NextOf(p: seq<byte>, q: seq<byte>, done: nat)
    requires |p| <= |q| && 6 <= done < |p|
    ensures var rest, n := q[done..], Min(|q| - done, 7);
            && rest[..n] == q[done..done + n] && rest[n..] == q[done + n..]
            && rest[..n][..Min(n, |p| - done)] == q[done..done + Min(n, |p| - done)]
  {
  }

  lemma CrossedTake(cfg: Config, r: Receiver, p: seq<byte>, q: seq<byte>, done: nat)
    requires 8 <= |p| <= |q| <= 4095 && 6 <= done < |p|
    requires r.pc == Collecting && r.buf == Mixed(p, q)[..done] && r.len == |p|
    ensures var n := Min(|q| - done, 7);
            var r', count := TakeCf(cfg, r, ConsecutiveFrame(r.sn, q[done..][..n])), (r.cfInBlock + 1) % 256;
            && (done + 7 >= |p| ==> r'.pc == Received(Ok(Mixed(p, q))))
            && (done + 7 < |p| ==>
                  r' == Receiver(if cfg.blockSize != 0 && count == cfg.blockSize then OwesFc else Collecting,
                                 Mixed(p, q)[..done + 7], |p|, (r.sn + 1) % 256, count))
  {
    var n := Min(|q| - done, 7);
    var cf := ConsecutiveFrame(r.sn, q[done..][..n]);
    NextOf(p, q, done);
    MixedGrows(p, q, done, Min(n, |p| - done));
    assert cf[1..] == q[done..][..n] && cf[0] == TYPE_CF + r.sn % 16;
  }

  /** One Consecutive Frame of `q`. */
  lemma CrossedCf(cfg: Config, w: World, p: seq<byte>, q: seq<byte>, done: nat, w1: World, w2: World)
    requires Crossed(cfg, w, p, q, done)
    requires SenderStep(w) == Some(w1) && w1.Valid() && ReceiverStep(cfg, w1) == Some(w2)
    ensures w2.fwd == [] && w2.bwd == [] && w2.got == w.got && w2.s.Some?
    ensures done + 7 >= |p| ==> w2.r.pc == Received(Ok(Mixed(p, q)))
    ensures done + 7 < |p| ==>
              && var s, boundary := w2.s.value, cfg.blockSize > 0 && w.s.value.blockCount + 1 == cfg.blockSize;
              && s == Sender(if boundary then AwaitFc else Sending, q[done + 7..], w2.r.sn, w.s.value.blockCount + 1,
                             FlowControl(cfg))
              && w2.r == Receiver(if boundary then OwesFc else Collecting, Mixed(p, q)[..done + 7], |p|, w2.r.sn,
                                  (w.r.cfInBlock + 1) % 256)
  {
    var s := w.s.value;
    var n := Min(|q| - done, 7);
    var cf: Pdu := ConsecutiveFrame(s.sn, s.rest[..n]);
    CrossedTake(cfg, w.r, p, q, done);
    NextOf(p, q, done);
    assert w1.fwd == [cf] && [cf][1..] == w.fwd;
  }

  /** From there the mixture is completed and returned. */
  lemma {:induction false} CrossedRun(cfg: Config, w: World, p: seq<byte>, q: seq<byte>, done: nat)
    returns (events: seq<Event>, end: World)
    requires Crossed(cfg, w, p, q, done)
    ensures LossyRun(cfg, w, events) == Some(end) && end.got == w.got + [Ok(Mixed(p, q))]
    decreases |p| - done, 0
  {
    var w1 := SenderStep(w).value;
    var w2 := ReceiverStep(cfg, w1).value;
    CrossedCf(cfg, w, p, q, done, w1, w2);
    if done + 7 >= |p| {
      end := ReceiverStep(cfg, w2).value;
      assert LossyRun(cfg, end, []) == Some(end);
      events := Prefixed(cfg, w2, Proceed(ReceiverSide), end, [], end);
    } else if cfg.blockSize > 0 && w.s.value.blockCount + 1 == cfg.blockSize {
      events, end := CrossedBlock(cfg, w2, p, q, done + 7);
    } else {
      events, end := CrossedRun(cfg, w2, p, q, done + 7);
    }
    events := Prefixed(cfg, w1, Proceed(ReceiverSide), w2, events, end);
    events := Prefixed(cfg, w, Proceed(SenderSide), w1, events, end);
  }

  /** The flow control between two blocks. */
  lemma {:induction false} CrossedBlock(cfg: Config, w: World, p: seq<byte>, q: seq<byte>, done: nat)
    returns (events: seq<Event>, end: World)
    requires w.Valid() && 8 <= |p| <= |q| <= 4095 && 6 <= done < |p| && cfg.blockSize > 0
    requires w.fwd == [] && w.bwd == [] && w.s.Some?
    requires w.s.value == Sender(AwaitFc, q[done..], w.r.sn, cfg.blockSize, FlowControl(cfg))
    requires w.r == Receiver(OwesFc, Mixed(p, q)[..done], |p|, w.r.sn, cfg.blockSize % 256)
    ensures LossyRun(cfg, w, events) == Some(end) && end.got == w.got + [Ok(Mixed(p, q))]
    decreases |p| - done, 1
  {
    var w1 := ReceiverStep(cfg, w).value;
    assert w1.bwd == [FlowControl(cfg)];
    var w2 := SenderStep(w1).value;
    events, end := CrossedRun(cfg, w2, p, q, done);
    events := Prefixed(cfg, w1, Proceed(SenderSide), w2, events, end);
    events := Prefixed(cfg, w, Proceed(ReceiverSide), w1, events, end);
  }

  /** The receiver has answered the First Frame of `p`, whose sender has gone. */
  function Answered(cfg: Config, p: seq<byte>, q: seq<byte>): World
    requires 8 <= |p| <= 4095
  {
    World(None, Receiver(Collecting, p[..6], |p|, 1, 0), [], [FlowControl(cfg)], [q], [Err(Timeout)], [])
  }

  /** The first `send` gives up before the receiver has answered its First Frame. */
  lemma FirstSend(cfg: Config, p: seq<byte>, q: seq<byte>, rest: seq<Event>, end: World) returns (events: seq<Event>)
    requires 8 <= |p| <= 4095 && LossyRun(cfg, Answered(cfg, p, q), rest) == Some(end)
    ensures LossyRun(cfg, Init([p, q]), events) == Some(end)
  {
    var ff: Pdu, fc: Pdu, none: seq<Pdu> := FirstFrame(p), FlowControl(cfg), [];
    var noResult: seq<SendResult> := [];
    var owing := Receiver(OwesFc, p[..6], |p|, 1, 0);
    FirstFrameTaken(p);
    assert [p, q][1..] == [q] && none + [ff] == [ff] && [ff][1..] == none && none + [fc] == [fc];
    assert noResult + [Err(Timeout)] == [Err(Timeout)];
    var w0 := Init([p, q]);
    var w1 := w0.(s := Some(StartSend(p)), todo := [q]);
    var w2 := w1.(s := Some(StartSend(p).(pc := AwaitFc, rest := p[6..])), fwd := [ff]);
    var w3 := w2.(r := owing, fwd := []);
    var w4 := w3.(s := Some(w3.s.value.(pc := Finished(Err(Timeout)))));
    var w5 := w4.(r := owing.(pc := Collecting), bwd := [fc]);
    events := Prefixed(cfg, w5, Proceed(SenderSide), Answered(cfg, p, q), rest, end);
    events := Prefixed(cfg, w4, Proceed(ReceiverSide), w5, events, end);
    events := Prefixed(cfg, w3, SenderFails(Timeout), w4, events, end);
    events := Prefixed(cfg, w2, Proceed(ReceiverSide), w3, events, end);
    events := Prefixed(cfg, w1, Proceed(SenderSide), w2, events, end);
    events := Prefixed(cfg, w0, Proceed(SenderSide), w1, events, end);
  }

  /** The sender of `q` has taken the answer for its own. */
  function Misled(cfg: Config, p: seq<byte>, q: seq<byte>): World
    requires 8 <= |p| <= |q| <= 4095
  {
    Answered(cfg, p, q).(s := Some(Sender(Sending, q[6..], 1, 0, FlowControl(cfg))), bwd := [], todo := [])
  }

  /** The second `send` has put its First Frame on the bus. */
  function Begun(cfg: Config, p: seq<byte>, q: seq<byte>): World
    requires 8 <= |p| <= |q| <= 4095
  {
    Answered(cfg, p, q).(s := Some(StartSend(q).(pc := AwaitFc, rest := q[6..])), fwd := [FirstFrame(q)], todo := [])
  }

  lemma SecondStart(cfg: Config, p: seq<byte>, q: seq<byte>, rest: seq<Event>, end: World) returns (events: seq<Event>)
    requires 8 <= |p| <= |q| <= 4095 && LossyRun(cfg, Begun(cfg, p, q), rest) == Some(end)
    ensures LossyRun(cfg, Answered(cfg, p, q), events) == Some(end)
  {
    var ff: Pdu, none: seq<Pdu>, noPayload: seq<seq<byte>> := FirstFrame(q), [], [];
    assert [q][1..] == noPayload && none + [ff] == [ff];
    var w7 := Answered(cfg, p, q).(s := Some(StartSend(q)), todo := []);
    events := Prefixed(cfg, w7, Proceed(SenderSide), Begun(cfg, p, q), rest, end);
    events := Prefixed(cfg, Answered(cfg, p, q), Proceed(SenderSide), w7, events, end);
  }

  /** The second First Frame is lost, and the stale flow control lets the second `send` go on. */
  lemma SecondSend(cfg: Config, p: seq<byte>, q: seq<byte>, rest: seq<Event>, end: World) returns (events: seq<Event>)
    requires 8 <= |p| <= |q| <= 4095 && LossyRun(cfg, Misled(cfg, p, q), rest) == Some(end)
    ensures LossyRun(cfg, Answered(cfg, p, q), events) == Some(end)
  {
    var ff: Pdu, none: seq<Pdu> := FirstFrame(q), [];
    assert [ff][..0] + [ff][1..] == none && [FlowControl(cfg)][1..] == none;
    var w9 := Begun(cfg, p, q).(fwd := []);
    events := Prefixed(cfg, w9, Proceed(SenderSide), Misled(cfg, p, q), rest, end);
    events := Prefixed(cfg, Begun(cfg, p, q), LoseForward(0), w9, events, end);
    events := SecondStart(cfg, p, q, events, end);
  }

  /** Main result.  For every payload that is segmented and every second one at least as long there is a run on which
      `recv` returns the head of the first with the tail of the second.  No wait ends while a frame for it is queued. */
  lemma MixtureIsReceived(cfg: Config, p: seq<byte>, q: seq<byte>) returns (events: seq<Event>)
    requires 8 <= |p| <= |q| <= 4095
    ensures var r := LossyRun(cfg, Init([p, q]), events);
            r.Some? && r.value.got == [Ok(p[..6] + q[6..|p|])]
  {
    var end;
    assert Mixed(p, q)[..6] == p[..6];
    events, end := CrossedRun(cfg, Misled(cfg, p, q), p, q, 6);
    events := SecondSend(cfg, p, q, events, end);
    events := FirstSend(cfg, p, q, events, end);
  }
}
