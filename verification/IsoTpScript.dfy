/** The sender against any peer: whatever frames arrive, in whatever order, the history of a `send` keeps the rules of
    flow control.  The rules are stated on the history and on the bytes of its frames alone; together with the frames
    read they leave the run no choice. */
module IsoTpScript {
  import opened Wrappers
  import opened IsoTp
  import opened IsoTpConn

  // ---------------------------------------------------------------------------
  // What a history says
  // ---------------------------------------------------------------------------

  /** The last frame received. */
  function LastFc(t: seq<Event>): Option<Pdu> {
    if t == [] then None
    else if t[|t| - 1].Got? then Some(t[|t| - 1].frame)
    else LastFc(t[..|t| - 1])
  }

  /** Frames sent since then. */
  function SentSinceFc(t: seq<Event>): nat {
    if t == [] || t[|t| - 1].Got? then 0 else 1 + SentSinceFc(t[..|t| - 1])
  }

  function SentCount(t: seq<Event>): nat {
    if t == [] then 0 else SentCount(t[..|t| - 1]) + if t[|t| - 1].Sent? then 1 else 0
  }

  function FramesRead(t: seq<Event>): seq<Pdu> {
    if t == [] then []
    else FramesRead(t[..|t| - 1]) + if t[|t| - 1].Got? then [t[|t| - 1].frame] else []
  }

  // ---------------------------------------------------------------------------
  // The frames, byte by byte
  // ---------------------------------------------------------------------------

  /** The `k`-th frame of the payload: the First Frame is number 0 and carries 6 bytes, the others up to 7. */
  function NthFrame(p: seq<byte>, k: nat): Pdu
    requires 8 <= |p| <= 4095 && (k > 0 ==> 7 * k <= |p|)
  {
    if k == 0 then [16 + |p| / 256, |p| % 256] + p[..6]
    else [32 + k % 16] + p[7 * k - 1..Min(|p|, 7 * k + 6)]
  }

  /** After `n` frames there are bytes left. */
  predicate Unfinished(p: seq<byte>, n: nat) { n == 0 || 7 * n - 1 < |p| }

  /** At least three bytes, the first of them from 0x30 to 0x3F. */
  predicate IsFc(f: Pdu) { |f| >= 3 && f[0] / 16 == 3 }

  /** The last flow control, with so many frames sent since, allows one more: it says neither WAIT nor OVERFLOW and its
      block is not used up. */
  predicate Speaking(fc: Option<Pdu>, sent: nat) {
    fc.Some? && IsFc(fc.value) && fc.value[0] % 16 !in {1, 2} && (fc.value[1] == 0 || sent < fc.value[1])
  }

  /** The next flow control is due: there was none, the last says WAIT, or its block is used up. */
  predicate Listening(fc: Option<Pdu>, sent: nat) {
    fc.Some? ==> IsFc(fc.value) && fc.value[0] % 16 != 2
                 && (fc.value[0] % 16 == 1 || (fc.value[1] > 0 && sent >= fc.value[1]))
  }

  ghost predicate MayFollow(p: seq<byte>, h: seq<Event>, e: Event)
    requires 8 <= |p| <= 4095
  {
    && h != [] && Unfinished(p, SentCount(h))
    && match e
       case Sent(f) => Speaking(LastFc(h), SentSinceFc(h)) && 7 * SentCount(h) <= |p| && f == NthFrame(p, SentCount(h))
       case Got(_) => Listening(LastFc(h), SentSinceFc(h))
  }

  /** Every event after the First Frame is the one that is due. */
  ghost predicate Disciplined(p: seq<byte>, t: seq<Event>)
    requires 8 <= |p| <= 4095
  {
    && t != [] && t[0] == Sent(NthFrame(p, 0))
    && forall i :: 0 < i < |t| ==> Due(p, t, i)
  }

  /** Event `i` is the one that was due. */
  ghost predicate Due(p: seq<byte>, t: seq<Event>, i: nat)
    requires 8 <= |p| <= 4095 && i < |t|
  {
    MayFollow(p, t[..i], t[i])
  }

  /** The result names what ended the history: the last frame read, the last frame sent, a bus that takes no more, or
      silence where a flow control is due. */
  ghost predicate Verdict(p: seq<byte>, o: Outcome<()>)
    requires 8 <= |p| <= 4095
  {
    && Disciplined(p, o.trace)
    && var fc, sent := LastFc(o.trace), SentCount(o.trace);
    if !Unfinished(p, sent) then o.result.Ok?
    else if Speaking(fc, SentSinceFc(o.trace)) then o.result == Err(SendFailed) && o.link.room == Some(0)
    else if Listening(fc, SentSinceFc(o.trace)) then
      o.unread == [] && o.result == Err(if o.link.ended then Closed else Timeout)
    else
      && fc.Some? && o.trace[|o.trace| - 1].Got?
      && o.result == Err(if IsFc(fc.value) then ReceiverOverflow else MalformedFc)
      && (IsFc(fc.value) ==> fc.value[0] % 16 == 2)
  }

  // ---------------------------------------------------------------------------
  // The machine keeps the rules
  // ---------------------------------------------------------------------------

  /** The bytes still to be sent after `n` frames. */
  function Left(p: seq<byte>, n: nat): seq<byte>
    requires n >= 1
  {
    p[Min(|p|, 7 * n - 1)..]
  }

  /** The loop state agrees with the last flow control and the number of frames sent since. */
  ghost predicate InStep(fc: Option<Pdu>, sent: nat, s: Sender)
    requires s.Valid()
  {
    match s.pc
    case Sending =>
      fc == Some(s.fc) && sent == s.blockCount && (s.fc[1] > 0 && s.rest != [] ==> s.blockCount < s.fc[1])
    case AwaitFc => s.rest != [] && Listening(fc, sent)
    case _ => false
  }

  /** The history `h` of an unfinished `send` of `p` that has reached the machine state `s`. */
  ghost predicate Follows(p: seq<byte>, h: seq<Event>, s: Sender)
    requires 8 <= |p| <= 4095
  {
    && s.Valid() && Disciplined(p, h) && SentCount(h) >= 1
    && s.rest == Left(p, SentCount(h))
    && s.sn == SentCount(h) % 256 && InStep(LastFc(h), SentSinceFc(h), s)
  }

  lemma FcByte(f: Pdu)
    ensures IsFlowControl(f) <==> IsFc(f)
    ensures |f| > 0 ==> (IsWait(f) <==> f[0] % 16 == 1) && (IsOverflow(f) <==> f[0] % 16 == 2)
  {
  }

  /** The history grows by one event. */
  lemma Snoc(p: seq<byte>, h: seq<Event>, e: Event)
    requires 8 <= |p| <= 4095 && Disciplined(p, h) && MayFollow(p, h, e)
    ensures Disciplined(p, h + [e])
  {
    forall i | 0 < i < |h + [e]| ensures Due(p, h + [e], i) {
      if i < |h| {
        assert Due(p, h, i);
        assert (h + [e])[..i] == h[..i] && (h + [e])[i] == h[i];
      } else {
        assert (h + [e])[..i] == h;
      }
    }
  }

  lemma AfterAfter<T>(h: seq<Event>, e: Event, o: Outcome<T>)
    ensures After(h, After([e], o)) == After(h + [e], o)
  {
    assert h + ([e] + o.trace) == h + [e] + o.trace;
  }

  lemma SnocSays(h: seq<Event>, e: Event)
    ensures var h' := h + [e];
            && LastFc(h') == (if e.Got? then Some(e.frame) else LastFc(h))
            && SentSinceFc(h') == (if e.Got? then 0 else SentSinceFc(h) + 1)
            && SentCount(h') == SentCount(h) + if e.Got? then 0 else 1
  {
    assert (h + [e])[..|h|] == h;
  }

  /** The next `n` bytes are those of frame `k`. */
  lemma NextBytes(p: seq<byte>, k: nat, rest: seq<byte>)
    requires k >= 1 && rest == Left(p, k) && rest != []
    ensures var n := Min(|rest|, 7);
            7 * k <= |p| && rest[..n] == p[7 * k - 1..Min(|p|, 7 * k + 6)] && rest[n..] == Left(p, k + 1)
  {
  }

  /** The Consecutive Frame with number `k` and the state after it. */
  ghost predicate IsNextCf(p: seq<byte>, k: nat, s: Sender, cf: Pdu, s': Sender)
    requires 8 <= |p| <= 4095
  {
    && |s.fc| > 1 && k >= 1 && 7 * k <= |p| && cf == NthFrame(p, k) && s'.rest == Left(p, k + 1)
    && s'.sn == (k + 1) % 256 && s'.fc == s.fc && s'.blockCount == s.blockCount + 1
    && s'.pc == if s.fc[1] > 0 && s'.blockCount >= s.fc[1] && s'.rest != [] then AwaitFc else Sending
  }

  lemma CfEmitted(p: seq<byte>, k: nat, s: Sender, cf: Pdu, s': Sender)
    requires 8 <= |p| <= 4095 && k >= 1 && s.rest == Left(p, k)
    requires s.Valid() && s.pc.Sending? && s.rest != [] && !IsWait(s.fc) && s.sn == k % 256
    requires SenderEmit(s) == (s', [cf])
    ensures IsNextCf(p, k, s, cf, s') && s'.Valid()
  {
    NextBytes(p, k, s.rest);
    NextByte(k);
    NibbleOfByte(k);
  }

  lemma StaysInStep(fc: Option<Pdu>, s: Sender, p: seq<byte>, k: nat, cf: Pdu, s': Sender)
    requires 8 <= |p| <= 4095 && s.Valid() && s.pc.Sending? && !IsWait(s.fc) && s.rest != []
    requires InStep(fc, s.blockCount, s) && IsNextCf(p, k, s, cf, s') && s'.Valid()
    ensures Speaking(fc, s.blockCount) && InStep(fc, s.blockCount + 1, s')
  {
    FcByte(s.fc);
  }

  lemma CfMayFollow(p: seq<byte>, h: seq<Event>, s: Sender, cf: Pdu, s': Sender)
    requires 8 <= |p| <= 4095 && Follows(p, h, s) && s.pc.Sending? && s.rest != [] && !IsWait(s.fc)
    requires IsNextCf(p, SentCount(h), s, cf, s') && s'.Valid()
    ensures Disciplined(p, h + [Sent(cf)]) && s'.blockCount == SentSinceFc(h) + 1
    ensures InStep(LastFc(h), s'.blockCount, s')
  {
    StaysInStep(LastFc(h), s, p, SentCount(h), cf, s');
    Snoc(p, h, Sent(cf));
  }

  /** One Consecutive Frame later; `h'` is the longer history. */
  lemma CfFollows(p: seq<byte>, h: seq<Event>, k: nat, cf: Pdu, s': Sender, h': seq<Event>)
    requires 8 <= |p| <= 4095 && h' == h + [Sent(cf)] && Disciplined(p, h') && k == SentCount(h)
    requires s'.Valid() && s'.blockCount == SentSinceFc(h) + 1 && InStep(LastFc(h), s'.blockCount, s')
    requires s'.rest == Left(p, k + 1) && s'.sn == (k + 1) % 256
    ensures Follows(p, h', s')
  {
    SnocSays(h, Sent(cf));
    FollowsNow(p, h', s', k + 1, LastFc(h), s'.blockCount);
  }

  lemma FollowsNow(p: seq<byte>, h: seq<Event>, s: Sender, k: nat, fc: Option<Pdu>, sent: nat)
    requires 8 <= |p| <= 4095 && s.Valid() && Disciplined(p, h)
    requires SentCount(h) == k >= 1 && LastFc(h) == fc && SentSinceFc(h) == sent
    requires s.rest == Left(p, k) && s.sn == k % 256 && InStep(fc, sent, s)
    ensures Follows(p, h, s)
  {
  }

  lemma FcFollows(p: seq<byte>, h: seq<Event>, s: Sender, f: Pdu)
    requires 8 <= |p| <= 4095 && Follows(p, h, s) && s.pc.AwaitFc?
    ensures SenderAdopt(s, f).pc.Sending? ==> Follows(p, h + [Got(f)], SenderAdopt(s, f))
    ensures !SenderAdopt(s, f).pc.Sending? ==>
              && SenderAdopt(s, f).pc.Finished?
              && forall unread, link ::
                   Verdict(p, Outcome(SenderAdopt(s, f).pc.result, unread, h + [Got(f)], link))
  {
    Snoc(p, h, Got(f));
    SnocSays(h, Got(f));
    FcByte(f);
  }

  /** A machine that has sent everything, or may go on but finds the bus full, or waits and hears nothing. */
  lemma RunEnds(p: seq<byte>, h: seq<Event>, s: Sender, script: seq<Pdu>, link: Link)
    requires 8 <= |p| <= 4095 && Follows(p, h, s)
    requires if s.pc.AwaitFc? then script == [] else s.rest == [] || (!IsWait(s.fc) && link.Full())
    ensures Verdict(p, After(h, RunSender(s, script, link)))
  {
    assert h + [] == h;
    if s.pc.Sending? {
      FcByte(s.fc);
    }
  }

  lemma {:induction false} RunKeepsRules(p: seq<byte>, h: seq<Event>, s: Sender, script: seq<Pdu>, link: Link)
    requires 8 <= |p| <= 4095 && Follows(p, h, s)
    ensures Verdict(p, After(h, RunSender(s, script, link)))
    decreases |script|, |s.rest|, Rank(s.pc)
  {
    if s.pc.AwaitFc? {
      if script == [] {
        RunEnds(p, h, s, script, link);
      } else {
        AwaitKeepsRules(p, h, s, script, link);
      }
    } else if s.rest == [] {
      RunEnds(p, h, s, script, link);
    } else if IsWait(s.fc) {
      FcByte(s.fc);
      RunKeepsRules(p, h, SenderEmit(s).0, script, link);
    } else if link.Full() {
      RunEnds(p, h, s, script, link);
    } else {
      var (s', out) := SenderEmit(s);
      CfEmitted(p, SentCount(h), s, out[0], s');
      CfMayFollow(p, h, s, out[0], s');
      CfFollows(p, h, SentCount(h), out[0], s', h + [Sent(out[0])]);
      assert SentAll(out) == [Sent(out[0])];
      AfterAfter(h, Sent(out[0]), RunSender(s', script, link.Less()));
      RunKeepsRules(p, h + [Sent(out[0])], s', script, link.Less());
    }
  }

  lemma {:induction false} AwaitKeepsRules(p: seq<byte>, h: seq<Event>, s: Sender, script: seq<Pdu>, link: Link)
    requires 8 <= |p| <= 4095 && Follows(p, h, s) && s.pc.AwaitFc? && script != []
    ensures Verdict(p, After(h, RunSender(s, script, link)))
    decreases |script|, |s.rest|, 0
  {
    var s' := SenderAdopt(s, script[0]);
    FcFollows(p, h, s, script[0]);
    AfterAfter(h, Got(script[0]), RunSender(s', script[1..], link));
    if s'.pc.Sending? {
      RunKeepsRules(p, h + [Got(script[0])], s', script[1..], link);
    } else {
      assert h + [Got(script[0])] + [] == h + [Got(script[0])];
    }
  }

  lemma {:induction false} ReceivedConcat(a: seq<Event>, b: seq<Event>)
    ensures FramesRead(a + b) == FramesRead(a) + FramesRead(b)
  {
    if b == [] {
      assert a + b == a;
    } else {
      assert (a + b)[..|a + b| - 1] == a + b[..|b| - 1];
      ReceivedConcat(a, b[..|b| - 1]);
    }
  }

  lemma NothingReceived(out: seq<Pdu>, t: seq<Event>)
    requires |out| <= 1
    ensures FramesRead(SentAll(out) + t) == FramesRead(t)
  {
    ReceivedConcat(SentAll(out), t);
    assert |out| == 1 ==> SentAll(out)[..0] == [];
  }

  lemma OneReceived(f: Pdu, t: seq<Event>)
    ensures FramesRead([Got(f)] + t) == [f] + FramesRead(t)
  {
    ReceivedConcat([Got(f)], t);
    assert [Got(f)][..0] == [];
  }

  /** Frames are taken from the script in order and nothing is skipped. */
  lemma {:induction false} RunReadsInOrder(s: Sender, script: seq<Pdu>, link: Link)
    requires s.Valid()
    ensures var o := RunSender(s, script, link); FramesRead(o.trace) + o.unread == script
    decreases |script|, |s.rest|, Rank(s.pc)
  {
    if s.pc.AwaitFc? {
      if script != [] {
        var s' := SenderAdopt(s, script[0]);
        RunReadsInOrder(s', script[1..], link);
        OneReceived(script[0], RunSender(s', script[1..], link).trace);
      }
    } else if s.Emits() {
      EmitReadsNothing(s, script, link);
    }
  }

  lemma {:induction false} EmitReadsNothing(s: Sender, script: seq<Pdu>, link: Link)
    requires s.Valid() && s.Emits()
    ensures var o := RunSender(s, script, link); FramesRead(o.trace) + o.unread == script
    decreases |script|, |s.rest|, Rank(s.pc), 0
  {
    var (s', out) := SenderEmit(s);
    var rest := if out == [] then link else link.Less();
    RunReadsInOrder(s', script, rest);
    NothingReceived(out, RunSender(s', script, rest).trace);
  }

  /** What a waiting sender does on a flow control, by its first byte: 0x32 ends the call, 0x31 makes it wait again, and
      any other from 0x30 to 0x3F lets the next Consecutive Frame out. */
  lemma FlowStatus(s: Sender, status: byte, bs: byte, st: byte)
    requires s.pc.AwaitFc? && s.rest != [] && 0x30 <= status < 0x40
    ensures var s' := SenderAdopt(s, [status, bs, st]);
            if status == 0x32 then s'.pc == Finished(Err(ReceiverOverflow))
            else
              && s'.Valid() && s'.pc.Sending?
              && if status == 0x31 then SenderEmit(s') == (s'.(pc := AwaitFc), [])
                 else SenderEmit(s').1 == [[0x20 + s.sn % 16] + s.rest[..Min(|s.rest|, 7)]]
  {
    FcByte([status, bs, st]);
  }

  // ---------------------------------------------------------------------------
  // The bus
  // ---------------------------------------------------------------------------

  /** Each frame sent uses up room, if room is limited; whether the subscription ends is not for the sender to say. */
  ghost predicate Accounts(t: seq<Event>, before: Link, after: Link) {
    && after.ended == before.ended
    && (if before.room.None? then after.room.None?
        else after.room.Some? && after.room.value + SentCount(t) == before.room.value)
  }

  lemma {:induction false} SentConcat(a: seq<Event>, b: seq<Event>)
    ensures SentCount(a + b) == SentCount(a) + SentCount(b)
  {
    if b == [] {
      assert a + b == a;
    } else {
      assert (a + b)[..|a + b| - 1] == a + b[..|b| - 1];
      SentConcat(a, b[..|b| - 1]);
    }
  }

  lemma OneEvent(e: Event, t: seq<Event>)
    ensures SentCount([e] + t) == SentCount(t) + if e.Sent? then 1 else 0
  {
    SentConcat([e], t);
    assert [e][..0] == [];
  }

  lemma {:induction false} RunAccounts(s: Sender, script: seq<Pdu>, link: Link)
    requires s.Valid()
    ensures var o := RunSender(s, script, link); Accounts(o.trace, link, o.link)
    decreases |script|, |s.rest|, Rank(s.pc)
  {
    if s.pc.AwaitFc? {
      if script != [] {
        var s' := SenderAdopt(s, script[0]);
        RunAccounts(s', script[1..], link);
        OneEvent(Got(script[0]), RunSender(s', script[1..], link).trace);
      }
    } else if s.Emits() {
      EmitAccounts(s, script, link);
    }
  }

  lemma {:induction false} EmitAccounts(s: Sender, script: seq<Pdu>, link: Link)
    requires s.Valid() && s.Emits()
    ensures var o := RunSender(s, script, link); Accounts(o.trace, link, o.link)
    decreases |script|, |s.rest|, Rank(s.pc), 0
  {
    var (s', out) := SenderEmit(s);
    if out == [] {
      RunAccounts(s', script, link);
    } else if !link.Full() {
      RunAccounts(s', script, link.Less());
      assert SentAll(out) == [Sent(out[0])];
      OneEvent(Sent(out[0]), RunSender(s', script, link.Less()).trace);
    }
  }

  // ---------------------------------------------------------------------------
  // Main result
  // ---------------------------------------------------------------------------

  function AfterFirstFrame(p: seq<byte>): Sender
    requires 8 <= |p| <= 4095
  {
    StartSend(p).(pc := AwaitFc, rest := p[6..])
  }

  lemma OneSent(f: Pdu)
    ensures SentCount([Sent(f)]) == 1 && LastFc([Sent(f)]) == None && SentSinceFc([Sent(f)]) == 1
  {
    assert [Sent(f)][..0] == [];
  }

  lemma FirstFrameFollows(p: seq<byte>)
    requires 8 <= |p| <= 4095
    ensures FirstFrame(p) == NthFrame(p, 0) && Follows(p, [Sent(FirstFrame(p))], AfterFirstFrame(p))
  {
    OneSent(FirstFrame(p));
  }

  lemma RunStarts(p: seq<byte>, script: seq<Pdu>, link: Link)
    requires 8 <= |p| <= 4095
    ensures RunSender(StartSend(p), script, link)
            == if link.Full() then Outcome(Err(SendFailed), script, [], link)
               else After([Sent(FirstFrame(p))], RunSender(AfterFirstFrame(p), script, link.Less()))
  {
    assert SenderEmit(StartSend(p)) == (AfterFirstFrame(p), [FirstFrame(p)]);
    assert SentAll([FirstFrame(p)]) == [Sent(FirstFrame(p))];
  }

  /** The part of the main result for a payload that is refused or fits a Single Frame. */
  lemma ShortSends(p: seq<byte>, script: seq<Pdu>, link: Link)
    requires |p| < 8 || |p| > 4095
    ensures var o := RunSender(StartSend(p), script, link);
            && (|p| == 0 ==> o == Outcome(Err(EmptyPayload), script, [], link))
            && (|p| > 4095 ==> o == Outcome(Err(PayloadTooLarge), script, [], link))
            && (1 <= |p| <= 7 && link.room == Some(0) ==> o == Outcome(Err(SendFailed), script, [], link))
            && (1 <= |p| <= 7 && link.room != Some(0) ==>
                  o.result.Ok? && o.unread == script && o.trace == [Sent([|p|] + p)])
  {
    if 1 <= |p| <= 7 {
      SingleFrameRun(p, script, link);
    }
  }

  /** Main result: for every payload, every script of incoming frames and every bus. */
  lemma {:induction false} SenderObeysAnyPeer(p: seq<byte>, script: seq<Pdu>, link: Link)
    ensures var o := RunSender(StartSend(p), script, link);
            && (|p| == 0 ==> o == Outcome(Err(EmptyPayload), script, [], link))
            && (|p| > 4095 ==> o == Outcome(Err(PayloadTooLarge), script, [], link))
            && (1 <= |p| <= 4095 && link.room == Some(0) ==> o == Outcome(Err(SendFailed), script, [], link))
            && (1 <= |p| <= 7 && link.room != Some(0) ==>
                  o.result.Ok? && o.unread == script && o.trace == [Sent([|p|] + p)])
            && (8 <= |p| <= 4095 && link.room != Some(0) ==> Verdict(p, o))
            && FramesRead(o.trace) + o.unread == script && Accounts(o.trace, link, o.link)
  {
    if 8 <= |p| <= 4095 {
      RunStarts(p, script, link);
      if !link.Full() {
        FirstFrameFollows(p);
        RunKeepsRules(p, [Sent(FirstFrame(p))], AfterFirstFrame(p), script, link.Less());
      }
    } else {
      ShortSends(p, script, link);
    }
    RunReadsInOrder(StartSend(p), script, link);
    RunAccounts(StartSend(p), script, link);
  }
}
