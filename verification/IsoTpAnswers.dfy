/** The receiver against any peer: which flow controls a `recv` sends, and what ends it.  As for the sender, the rules
    speak of the history and of the bytes of its frames alone. */
module IsoTpAnswers {
  import opened Wrappers
  import opened Bits
  import opened IsoTp
  import opened IsoTpConn
  import IsoTpScript
  import opened IsoTpReassembly

  // ---------------------------------------------------------------------------
  // The rules
  // ---------------------------------------------------------------------------

  /** A message has begun and is not complete. */
  ghost predicate Incomplete(g: seq<Pdu>) { IsSegmented(g) && |Bytes(g)| < Announced(g[0]) }

  /** A flow control is due: the last event was the First Frame, or the last Consecutive Frame of a block with bytes
      still missing. */
  ghost predicate FcOwed(cfg: Config, t: seq<Event>) {
    && t != [] && t[|t| - 1].Got?
    && var g := IsoTpScript.FramesRead(t);
    && IsSegmented(g)
    && (|g| == 1 || (cfg.blockSize > 0 && Incomplete(g) && (|g| - 1) % cfg.blockSize == 0))
  }

  /** Event `i` is a clear-to-send flow control exactly when one is due. */
  ghost predicate Due(cfg: Config, t: seq<Event>, i: nat)
    requires i < |t|
  {
    if FcOwed(cfg, t[..i]) then t[i] == Sent([0x30, cfg.blockSize, cfg.stMin]) else t[i].Got?
  }

  ghost predicate Disciplined(cfg: Config, t: seq<Event>) { forall i :: 0 <= i < |t| ==> Due(cfg, t, i) }

  /** The last of the frames read is what the error says it is. */
  ghost predicate Blames(error: Error, g: seq<Pdu>) {
    && g != []
    && (|g| > 1 ==> Incomplete(g[..|g| - 1]))
    && var f := g[|g| - 1];
    match error
    case EmptyFrame => f == []
    case InvalidSfLength => |g| == 1 && |f| > 0 && (f[0] == 0 || 8 <= f[0] < 16 || |f| <= f[0] < 16)
    case FfTooShort => |g| == 1 && |f| == 1 && 16 <= f[0] < 32
    case UnexpectedType => |g| == 1 && |f| > 0 && f[0] >= 32
    case ExpectedCf => |g| > 1 && |f| > 0 && !(32 <= f[0] < 48)
    case SnMismatch => |g| > 1 && |f| > 0 && 32 <= f[0] < 48 && f[0] % 16 != (|g| - 1) % 16
    case _ => false
  }

  ghost predicate Verdict(cfg: Config, o: Outcome<seq<byte>>) {
    && Disciplined(cfg, o.trace)
    && var g := IsoTpScript.FramesRead(o.trace);
    if FcOwed(cfg, o.trace) then o.result == Err(SendFailed) && o.link.room == Some(0)
    else
      match o.result
      case Ok(m) => IsMessage(g, m)
      case Err(e) =>
        || Blames(e, g)
        || (o.unread == [] && (g == [] || Incomplete(g)) && e == if o.link.ended then Closed else Timeout)
  }

  // ---------------------------------------------------------------------------
  // The machine keeps them
  // ---------------------------------------------------------------------------

  /** The history `h` of a `recv` that has reached the machine state `r`. */
  ghost predicate Follows(cfg: Config, h: seq<Event>, r: Receiver) {
    && Disciplined(cfg, h) && r.Valid()
    && match r.pc
       case AwaitFirst => r == START_RECV && h == []
       case Collecting =>
         var g := IsoTpScript.FramesRead(h);
         HasRead(r, g) && !FcOwed(cfg, h) && InBlock(cfg, |g|, r)
       case OwesFc => HasBegun(r, IsoTpScript.FramesRead(h)) && FcOwed(cfg, h)
       case Received(_) => false
  }

  /** The receiver has read `g`, which may be a First Frame with more bytes than it announces. */
  ghost predicate HasBegun(r: Receiver, g: seq<Pdu>) {
    && IsSegmented(g) && r.buf == Bytes(g) && r.len == Announced(g[0]) && r.sn == |g| % 256
    && (|g| > 1 ==> |r.buf| < r.len)
  }

  /** After `n` frames the block count is where the block size says. */
  ghost predicate InBlock(cfg: Config, n: nat, r: Receiver) {
    cfg.blockSize > 0 && n >= 1 ==> r.cfInBlock < cfg.blockSize && r.cfInBlock == (n - 1) % cfg.blockSize
  }

  lemma Snoc(cfg: Config, h: seq<Event>, e: Event)
    requires Disciplined(cfg, h)
    requires if FcOwed(cfg, h) then e == Sent([0x30, cfg.blockSize, cfg.stMin]) else e.Got?
    ensures Disciplined(cfg, h + [e])
  {
    forall i | 0 <= i < |h + [e]| ensures Due(cfg, h + [e], i) {
      if i < |h| {
        assert Due(cfg, h, i);
        assert (h + [e])[..i] == h[..i] && (h + [e])[i] == h[i];
      } else {
        assert (h + [e])[..i] == h;
      }
    }
  }

  lemma SnocGot(h: seq<Event>, f: Pdu)
    ensures IsoTpScript.FramesRead(h + [Got(f)]) == IsoTpScript.FramesRead(h) + [f]
  {
    assert (h + [Got(f)])[..|h|] == h;
  }

  lemma SnocSent(h: seq<Event>, f: Pdu)
    ensures IsoTpScript.FramesRead(h + [Sent(f)]) == IsoTpScript.FramesRead(h)
  {
    assert (h + [Sent(f)])[..|h|] == h;
    assert IsoTpScript.FramesRead(h) + [] == IsoTpScript.FramesRead(h);
  }

  /** Counting within blocks. */
  lemma NextInBlock(n: nat, bs: nat)
    requires bs > 0
    ensures (n + 1) % bs == if n % bs + 1 == bs then 0 else n % bs + 1
  {
    var q, c := n / bs, n % bs;
    assert n == bs * q + c;
    if c + 1 == bs {
      assert n + 1 == bs * (q + 1) + 0;
      Quotient(n + 1, bs, q + 1, 0);
    } else {
      Quotient(n + 1, bs, q, c + 1);
    }
  }

  /** What the first frame does, by its first byte. */
  lemma FirstTaken(f: Pdu)
    ensures var r := TakeFirst(START_RECV, f);
            && (r.pc.OwesFc? <==> IsFirstFrame(f))
            && (r.pc.OwesFc? ==> HasBegun(r, [f]))
            && (!r.pc.OwesFc? ==> r.pc.Received?)
            && (r.pc.Received? && r.pc.result.Ok? ==> IsSingle([f], r.pc.result.value))
            && (r.pc.Received? && r.pc.result.Err? ==> Blames(r.pc.result.error, [f]))
  {
    FirstByte(f);
  }

  /** A first frame begins a message or ends the call. */
  lemma FirstFollows(cfg: Config, f: Pdu)
    ensures var r := TakeFirst(START_RECV, f);
            if r.pc.OwesFc? then Follows(cfg, [Got(f)], r)
            else
              && r.pc.Received?
              && forall unread, link :: Verdict(cfg, Outcome(r.pc.result, unread, [Got(f)], link))
  {
    assert [] + [Got(f)] == [Got(f)] && [] + [f] == [f];
    Snoc(cfg, [], Got(f));
    SnocGot([], f);
    FirstTaken(f);
    FirstByte(f);
  }

  lemma FirstByte(f: Pdu)
    ensures |f| > 0 ==> (HighNibble(f[0]) == TYPE_SF <==> f[0] < 16)
    ensures |f| > 0 ==> (HighNibble(f[0]) == TYPE_FF <==> 16 <= f[0] < 32)
    ensures IsSegmented([f]) <==> IsFirstFrame(f)
    ensures IsFirstFrame(f) ==> Bytes([f]) == f[2..]
  {
    assert [f][1..] == [];
  }

  /** After the flow control the receiver goes on collecting, unless the First Frame held everything. */
  lemma FcLeaves(cfg: Config, g: seq<Pdu>, r: Receiver)
    requires r.pc.OwesFc? && HasBegun(r, g)
    requires |g| == 1 || (cfg.blockSize > 0 && Incomplete(g) && (|g| - 1) % cfg.blockSize == 0)
    ensures var r' := ReceiverSentFc(r);
            if r'.pc.Collecting? then HasRead(r', g) && InBlock(cfg, |g|, r')
            else r'.pc == Received(Ok(r.buf)) && IsComplete(g, r.buf)
  {
  }

  /** The flow control goes out. */
  lemma FcFollows(cfg: Config, h: seq<Event>, r: Receiver)
    requires Follows(cfg, h, r) && r.pc.OwesFc?
    ensures var r', h' := ReceiverSentFc(r), h + [Sent(FlowControl(cfg))];
            if r'.pc.Collecting? then Follows(cfg, h', r')
            else
              && r'.pc.Received?
              && forall unread, link :: Verdict(cfg, Outcome(r'.pc.result, unread, h', link))
  {
    var h', r' := h + [Sent(FlowControl(cfg))], ReceiverSentFc(r);
    FcLeaves(cfg, IsoTpScript.FramesRead(h), r);
    Snoc(cfg, h, Sent(FlowControl(cfg)));
    SnocSent(h, FlowControl(cfg));
    assert !FcOwed(cfg, h');
  }

  /** What one Consecutive Frame does to a collecting receiver. */
  lemma CfError(cfg: Config, r: Receiver, seen: seq<Pdu>, f: Pdu)
    requires HasRead(r, seen) && r.pc.Collecting? && !IsCfNumber(f, |seen|)
    ensures TakeCf(cfg, r, f).pc.Received? && TakeCf(cfg, r, f).pc.result.Err?
    ensures Blames(TakeCf(cfg, r, f).pc.result.error, seen + [f])
  {
    NibbleOfByte(|seen|);
    assert (seen + [f])[..|seen|] == seen;
  }

  lemma CfCount(cfg: Config, n: nat, r: Receiver, f: Pdu)
    requires r.Valid() && r.pc.Collecting? && InBlock(cfg, n, r) && n >= 1
    requires TakeCf(cfg, r, f).pc.Collecting? || TakeCf(cfg, r, f).pc.OwesFc?
    ensures var r' := TakeCf(cfg, r, f);
            && (r'.pc.OwesFc? <==> cfg.blockSize > 0 && n % cfg.blockSize == 0)
            && (r'.pc.Collecting? ==> InBlock(cfg, n + 1, r'))
  {
    if cfg.blockSize > 0 {
      NextInBlock(n - 1, cfg.blockSize);
    }
  }

  lemma CfFollows(cfg: Config, h: seq<Event>, r: Receiver, f: Pdu)
    requires Follows(cfg, h, r) && r.pc.Collecting?
    ensures var r' := TakeCf(cfg, r, f);
            if r'.pc.Received? then
              forall unread, link :: Verdict(cfg, Outcome(r'.pc.result, unread, h + [Got(f)], link))
            else Follows(cfg, h + [Got(f)], r')
  {
    var g, r' := IsoTpScript.FramesRead(h), TakeCf(cfg, r, f);
    Snoc(cfg, h, Got(f));
    SnocGot(h, f);
    TakesNext(cfg, r, g, f);
    if !IsCfNumber(f, |g|) {
      CfError(cfg, r, g, f);
      assert (g + [f])[|g|] == f;
    } else {
      assert (g + [f])[..|g|] == g;
      if !r'.pc.Received? {
        CfCount(cfg, |g|, r, f);
      }
    }
  }

  // ---------------------------------------------------------------------------
  // Runs
  // ---------------------------------------------------------------------------

  lemma RunEnds(cfg: Config, h: seq<Event>, r: Receiver, script: seq<Pdu>, link: Link)
    requires Follows(cfg, h, r) && if r.pc.OwesFc? then link.Full() else script == []
    ensures Verdict(cfg, After(h, RunReceiver(cfg, r, script, link)))
  {
    assert h + [] == h;
  }

  lemma {:induction false} RunKeepsRules(cfg: Config, h: seq<Event>, r: Receiver, script: seq<Pdu>, link: Link)
    requires Follows(cfg, h, r)
    ensures Verdict(cfg, After(h, RunReceiver(cfg, r, script, link)))
    decreases |script|, if r.pc.OwesFc? then 1 else 0
  {
    if (if r.pc.OwesFc? then link.Full() else script == []) {
      RunEnds(cfg, h, r, script, link);
    } else if r.pc.OwesFc? {
      var e, r' := Sent(FlowControl(cfg)), ReceiverSentFc(r);
      FcFollows(cfg, h, r);
      IsoTpScript.AfterAfter(h, e, RunReceiver(cfg, r', script, link.Less()));
      if r'.pc.Collecting? {
        RunKeepsRules(cfg, h + [e], r', script, link.Less());
      } else {
        assert h + [e] + [] == h + [e];
      }
    } else {
      var e, r' := Got(script[0]), ReceiverTake(cfg, r, script[0]);
      IsoTpScript.AfterAfter(h, e, RunReceiver(cfg, r', script[1..], link));
      if r.pc.AwaitFirst? {
        FirstFollows(cfg, script[0]);
        assert [] + [e] == [e];
      } else {
        CfFollows(cfg, h, r, script[0]);
      }
      if r'.pc.Received? {
        assert h + [e] + [] == h + [e];
      } else {
        RunKeepsRules(cfg, h + [e], r', script[1..], link);
      }
    }
  }

  /** The frames read are a prefix of the script, and the bus lost the room of the frames sent. */
  ghost predicate InOrder(o: Outcome<seq<byte>>, script: seq<Pdu>, link: Link) {
    IsoTpScript.FramesRead(o.trace) + o.unread == script && IsoTpScript.Accounts(o.trace, link, o.link)
  }

  lemma ReadOne(f: Pdu, next: Outcome<seq<byte>>, script: seq<Pdu>, link: Link)
    requires script != [] && f == script[0] && InOrder(next, script[1..], link)
    ensures InOrder(After([Got(f)], next), script, link)
  {
    IsoTpScript.OneEvent(Got(f), next.trace);
    IsoTpScript.OneReceived(f, next.trace);
    assert [f] + (IsoTpScript.FramesRead(next.trace) + next.unread) == script;
  }

  lemma SendOne(f: Pdu, next: Outcome<seq<byte>>, script: seq<Pdu>, link: Link)
    requires !link.Full() && InOrder(next, script, link.Less())
    ensures InOrder(After([Sent(f)], next), script, link)
  {
    IsoTpScript.OneEvent(Sent(f), next.trace);
    IsoTpScript.NothingReceived([f], next.trace);
    assert SentAll([f]) == [Sent(f)];
  }

  lemma {:induction false} RunReadsInOrder(cfg: Config, r: Receiver, script: seq<Pdu>, link: Link)
    requires r.Valid()
    ensures InOrder(RunReceiver(cfg, r, script, link), script, link)
    decreases |script|, if r.pc.OwesFc? then 1 else 0
  {
    if r.pc.OwesFc? {
      if !link.Full() {
        RunReadsInOrder(cfg, ReceiverSentFc(r), script, link.Less());
        SendOne(FlowControl(cfg), RunReceiver(cfg, ReceiverSentFc(r), script, link.Less()), script, link);
      }
    } else if r.Takes() && script != [] {
      var r' := ReceiverTake(cfg, r, script[0]);
      RunReadsInOrder(cfg, r', script[1..], link);
      ReadOne(script[0], RunReceiver(cfg, r', script[1..], link), script, link);
    }
  }

  /** Main result: for every script of incoming frames, every block size and every bus. */
  lemma ReceiverObeysAnyPeer(cfg: Config, script: seq<Pdu>, link: Link)
    ensures var o := RunReceiver(cfg, START_RECV, script, link);
            && Verdict(cfg, o)
            && IsoTpScript.FramesRead(o.trace) + o.unread == script && IsoTpScript.Accounts(o.trace, link, o.link)
  {
    var o := RunReceiver(cfg, START_RECV, script, link);
    RunKeepsRules(cfg, [], START_RECV, script, link);
    RunReadsInOrder(cfg, START_RECV, script, link);
    assert [] + o.trace == o.trace;
  }
}
