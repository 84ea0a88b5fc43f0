/** What `recv` accepts, from any peer: an independent definition of a well-formed message, and both directions. */
module IsoTpReassembly {
  import opened Wrappers
  import opened IsoTp
  import opened IsoTpConn
  import opened IsoTpOccupancy

  /** The `n`-th frame of a segmented message: its first byte is 0x20 to 0x2F, with the low digit of `n`. */
  predicate IsCfNumber(f: Pdu, n: nat) { |f| > 0 && f[0] == 32 + n % 16 }

  predicate IsFirstFrame(f: Pdu) { |f| >= 2 && 16 <= f[0] < 32 }

  function Announced(ff: Pdu): nat
    requires IsFirstFrame(ff)
  {
    ff[0] as int % 16 * 256 + ff[1]
  }

  /** A First Frame and the Consecutive Frames after it, numbered from 1. */
  predicate IsSegmented(frames: seq<Pdu>) {
    && frames != [] && IsFirstFrame(frames[0])
    && forall k :: 1 <= k < |frames| ==> IsCfNumber(frames[k], k)
  }

  /** The bytes they carry. */
  function Bytes(frames: seq<Pdu>): seq<byte>
    requires IsSegmented(frames)
  {
    frames[0][2..] + Carried(frames[1..])
  }

  predicate IsSingle(frames: seq<Pdu>, m: seq<byte>) {
    && |frames| == 1 && |frames[0]| > 0 && 1 <= frames[0][0] <= 7 && frames[0][0] < |frames[0]|
    && m == frames[0][1..1 + frames[0][0]]
  }

  /** The announced length is reached with the last frame and not before; what a Consecutive Frame carries beyond it
      is cut off, what the First Frame carries beyond it is kept. */
  predicate IsComplete(frames: seq<Pdu>, m: seq<byte>) {
    && IsSegmented(frames)
    && |Bytes(frames)| >= Announced(frames[0])
    && (if |frames| == 1 then m == Bytes(frames)
        else |Bytes(frames[..|frames| - 1])| < Announced(frames[0]) && m == Bytes(frames)[..Announced(frames[0])])
  }

  predicate IsMessage(frames: seq<Pdu>, m: seq<byte>) { IsSingle(frames, m) || IsComplete(frames, m) }

  /** The receiver has read `seen` and wants more. */
  predicate HasRead(r: Receiver, seen: seq<Pdu>) {
    && IsSegmented(seen) && (r.pc.Collecting? || r.pc.OwesFc?)
    && r.buf == Bytes(seen) && r.len == Announced(seen[0]) && |r.buf| < r.len && r.sn == |seen| % 256
  }

  lemma BytesSnoc(seen: seq<Pdu>, f: Pdu)
    requires IsSegmented(seen) && IsCfNumber(f, |seen|)
    ensures IsSegmented(seen + [f]) && Bytes(seen + [f]) == Bytes(seen) + f[1..]
  {
    assert (seen + [f])[1..] == seen[1..] + [f];
    assert (seen[1..] + [f])[..|seen| - 1] == seen[1..];
  }

  /** More frames carry more bytes. */
  lemma {:induction false} BytesGrow(frames: seq<Pdu>, k: nat)
    requires IsSegmented(frames) && 1 <= k <= |frames|
    ensures IsSegmented(frames[..k]) && |Bytes(frames[..k])| <= |Bytes(frames)|
    decreases |frames|
  {
    if k < |frames| {
      var last := |frames| - 1;
      var most := frames[..last];
      assert frames == most + [frames[last]];
      BytesSnoc(most, frames[last]);
      BytesGrow(most, k);
      assert most[..k] == frames[..k];
    } else {
      assert frames[..k] == frames;
    }
  }

  /** One Consecutive Frame on a receiver that wants more. */
  lemma TakesNext(cfg: Config, r: Receiver, seen: seq<Pdu>, f: Pdu)
    requires HasRead(r, seen) && r.pc.Collecting?
    ensures var r', next := TakeCf(cfg, r, f), seen + [f];
            if !IsCfNumber(f, |seen|) then r'.pc.Received? && r'.pc.result.Err?
            else
              && IsSegmented(next)
              && if |Bytes(next)| >= r.len then r'.pc == Received(Ok(Bytes(next)[..r.len])) else HasRead(r', next)
  {
    NibbleOfByte(|seen|);
    NextByte(|seen|);
    if IsCfNumber(f, |seen|) {
      BytesSnoc(seen, f);
      var chunk := f[1..];
      var room := r.len - |r.buf|;
      if |chunk| >= room {
        assert (r.buf + chunk)[..r.len] == r.buf + chunk[..room];
      } else {
        assert chunk[..|chunk|] == chunk;
      }
    }
  }

  /** The first `k` frames are the message `m`. */
  predicate MessageAt(all: seq<Pdu>, k: nat, m: seq<byte>) { k <= |all| && IsMessage(all[..k], m) }

  /** The frames of `all` up to `n` were read with this result; no message ends after position `i`, except the one
      returned. */
  ghost predicate Decides(result: RecvResult, n: nat, all: seq<Pdu>, i: nat) {
    && n <= |all|
    && (result.Ok? ==> MessageAt(all, n, result.value))
    && (forall k: nat, m :: i < k && MessageAt(all, k, m) ==> (k == n && result == Ok(m)) || result == Err(SendFailed))
  }

  lemma WantsMore(r: Receiver, all: seq<Pdu>, i: nat, m: seq<byte>)
    requires i <= |all| && HasRead(r, all[..i])
    ensures !MessageAt(all, i, m)
  {
  }

  lemma DecidesLater(result: RecvResult, n: nat, all: seq<Pdu>, i: nat, r: Receiver)
    requires i < |all| && HasRead(r, all[..i + 1]) && Decides(result, n, all, i + 1)
    ensures Decides(result, n, all, i)
  {
    forall k: nat, m | i < k && MessageAt(all, k, m)
      ensures (k == n && result == Ok(m)) || result == Err(SendFailed)
    {
      if k == i + 1 {
        WantsMore(r, all, k, m);
      }
    }
  }

  /** No message continues past a wrong frame. */
  lemma StopsAtWrongFrame(result: RecvResult, all: seq<Pdu>, i: nat)
    requires 1 <= i < |all| && !IsCfNumber(all[i], i) && result.Err?
    ensures Decides(result, i + 1, all, i)
  {
    forall k: nat, m | i < k ensures !MessageAt(all, k, m) {
      if k <= |all| {
        assert all[..k][i] == all[i];
      }
    }
  }

  /** No message continues past a complete one. */
  lemma NothingLonger(all: seq<Pdu>, i: nat, k: nat, m: seq<byte>)
    requires i + 1 < k <= |all| && IsSegmented(all[..i + 1]) && |Bytes(all[..i + 1])| >= Announced(all[0])
    ensures !MessageAt(all, k, m)
  {
    var frames := all[..k];
    if IsSegmented(frames) {
      PrefixSegmented(frames);
      BytesGrow(frames[..k - 1], i + 1);
      assert frames[..k - 1][..i + 1] == all[..i + 1];
    }
  }

  lemma StopsWhenComplete(all: seq<Pdu>, i: nat, m: seq<byte>)
    requires i < |all| && IsComplete(all[..i + 1], m)
    ensures Decides(Ok(m), i + 1, all, i)
  {
    forall k: nat, m' | i < k && MessageAt(all, k, m') ensures k == i + 1 && m == m' {
      if k > i + 1 {
        NothingLonger(all, i, k, m');
      }
    }
  }

  lemma PrefixSegmented(frames: seq<Pdu>)
    requires IsSegmented(frames) && |frames| > 1
    ensures IsSegmented(frames[..|frames| - 1])
  {
  }

  lemma LastFrame(cfg: Config, r: Receiver, r': Receiver, all: seq<Pdu>, i: nat)
    requires i < |all| && HasRead(r, all[..i]) && r'.pc.Received?
    requires all[..i + 1] == all[..i] + [all[i]]
    requires if !IsCfNumber(all[i], i) then r'.pc.result.Err?
             else
               && IsSegmented(all[..i + 1]) && |Bytes(all[..i + 1])| >= r.len
               && r'.pc == Received(Ok(Bytes(all[..i + 1])[..r.len]))
    ensures Decides(r'.pc.result, i + 1, all, i)
  {
    if IsCfNumber(all[i], i) {
      assert all[..i + 1][..i] == all[..i];
      StopsWhenComplete(all, i, r'.pc.result.value);
    } else {
      StopsAtWrongFrame(r'.pc.result, all, i);
    }
  }

  /** After frame `i` the receiver has read it, or is done. */
  lemma OneMore(cfg: Config, r: Receiver, all: seq<Pdu>, i: nat)
    requires i < |all| && HasRead(r, all[..i]) && r.pc.Collecting?
    ensures var r' := TakeCf(cfg, r, all[i]);
            HasRead(r', all[..i + 1]) || (r'.pc.Received? && Decides(r'.pc.result, i + 1, all, i))
  {
    assert all[..i + 1] == all[..i] + [all[i]];
    TakesNext(cfg, r, all[..i], all[i]);
    if !HasRead(TakeCf(cfg, r, all[i]), all[..i + 1]) {
      LastFrame(cfg, r, TakeCf(cfg, r, all[i]), all, i);
    }
  }

  lemma Reads(cfg: Config, r: Receiver, all: seq<Pdu>, i: nat, link: Link)
    requires i < |all| && r.Valid() && r.pc.Collecting?
    ensures var o, later := RunReceiver(cfg, r, all[i..], link),
                            RunReceiver(cfg, TakeCf(cfg, r, all[i]), all[i + 1..], link);
            o.result == later.result && o.unread == later.unread
  {
    assert all[i..][0] == all[i] && all[i..][1..] == all[i + 1..];
  }

  /** What the run from position `i` on answers. */
  ghost predicate Answers(o: Outcome<seq<byte>>, all: seq<Pdu>, i: nat, link: Link) {
    && |o.unread| <= |all| && o.unread == all[|all| - |o.unread|..]
    && Decides(o.result, |all| - |o.unread|, all, i) && (o.result == Err(SendFailed) ==> link.room.Some?)
  }

  /** No frame is read while a flow control is sent, or refused by the bus. */
  lemma FcAnswers(cfg: Config, r: Receiver, all: seq<Pdu>, i: nat, link: Link)
    requires i <= |all| && r.Valid() && r.pc.OwesFc?
    requires !link.Full() ==> Answers(RunReceiver(cfg, ReceiverSentFc(r), all[i..], link.Less()), all, i, link.Less())
    ensures Answers(RunReceiver(cfg, r, all[i..], link), all, i, link)
  {
    assert link.Less().room.Some? ==> link.room.Some?;
  }

  /** Nothing more arrives. */
  lemma SilenceAnswers(cfg: Config, r: Receiver, all: seq<Pdu>, link: Link)
    requires HasRead(r, all) && r.pc.Collecting?
    ensures Answers(RunReceiver(cfg, r, [], link), all, |all|, link)
  {
  }

  /** The loop, from position `i` of the incoming frames on. */
  lemma {:induction false} Collecting(cfg: Config, r: Receiver, all: seq<Pdu>, i: nat, link: Link)
    requires i <= |all| && HasRead(r, all[..i])
    ensures Answers(RunReceiver(cfg, r, all[i..], link), all, i, link)
    decreases |all| - i, if r.pc.OwesFc? then 1 else 0
  {
    if r.pc.OwesFc? {
      if !link.Full() {
        Collecting(cfg, ReceiverSentFc(r), all, i, link.Less());
      }
      FcAnswers(cfg, r, all, i, link);
    } else if i < |all| {
      var r' := TakeCf(cfg, r, all[i]);
      OneMore(cfg, r, all, i);
      Reads(cfg, r, all, i, link);
      var o := RunReceiver(cfg, r', all[i + 1..], link);
      if HasRead(r', all[..i + 1]) {
        Collecting(cfg, r', all, i + 1, link);
        DecidesLater(o.result, |all| - |o.unread|, all, i, r');
      } else {
        assert o.unread == all[i + 1..] && |all| - |o.unread| == i + 1;
      }
    } else {
      assert all[..i] == all && all[i..] == [];
      SilenceAnswers(cfg, r, all, link);
    }
  }

  lemma FirstFrameOnly(cfg: Config, all: seq<Pdu>, link: Link)
    requires all != [] && TakeFirst(START_RECV, all[0]).pc.OwesFc?
    ensures Answers(RunReceiver(cfg, TakeFirst(START_RECV, all[0]), all[1..], link), all, 0, link)
  {
    var r, f := TakeFirst(START_RECV, all[0]), all[0];
    assert all[..1] == [f] && IsSegmented([f]) && Bytes([f]) == r.buf;
    if |r.buf| < r.len {
      Collecting(cfg, r, all, 1, link);
      var o := RunReceiver(cfg, r, all[1..], link);
      DecidesLater(o.result, |all| - |o.unread|, all, 0, r);
    } else {
      StopsWhenComplete(all, 0, r.buf);
    }
  }

  lemma OtherFirst(result: RecvResult, all: seq<Pdu>)
    requires all != [] && TakeFirst(START_RECV, all[0]).pc == Received(result)
    ensures Decides(result, 1, all, 0)
  {
    assert all[..1] == [all[0]];
    forall k: nat, m | 0 < k && MessageAt(all, k, m) ensures k == 1 && result == Ok(m) {
      assert all[..k][0] == all[0];
    }
  }

  lemma AfterFirst(cfg: Config, all: seq<Pdu>, link: Link)
    requires all != []
    ensures var r := TakeFirst(START_RECV, all[0]);
            && RunReceiver(cfg, START_RECV, all, link) == After([Got(all[0])], RunReceiver(cfg, r, all[1..], link))
            && (r.pc.OwesFc? || r.pc.Received?)
  {
  }

  lemma FirstAnswers(cfg: Config, all: seq<Pdu>, r: Receiver, link: Link)
    requires all != [] && r == TakeFirst(START_RECV, all[0]) && (r.pc.OwesFc? || r.pc.Received?)
    ensures Answers(RunReceiver(cfg, r, all[1..], link), all, 0, link)
  {
    if r.pc.OwesFc? {
      FirstFrameOnly(cfg, all, link);
    } else {
      OtherFirst(r.pc.result, all);
    }
  }

  lemma RecvAnswers(cfg: Config, all: seq<Pdu>, link: Link)
    ensures Answers(RunReceiver(cfg, START_RECV, all, link), all, 0, link)
  {
    if all == [] {
      assert all[..0] == [];
    } else {
      AfterFirst(cfg, all, link);
      FirstAnswers(cfg, all, TakeFirst(START_RECV, all[0]), link);
    }
  }

  lemma WholeAnswer(o: Outcome<seq<byte>>, all: seq<Pdu>, link: Link)
    requires Answers(o, all, 0, link)
    ensures var n := |all| - |o.unread|;
            && n >= 0 && o.unread == all[n..]
            && (forall m :: o.result == Ok(m) ==> MessageAt(all, n, m))
            && (o.result == Err(SendFailed) ==> link.room.Some?)
            && (o.result != Err(SendFailed) ==>
                  forall k: nat, m :: MessageAt(all, k, m) ==> k == n && o.result == Ok(m))
  {
    forall k: nat, m | MessageAt(all, k, m) ensures k > 0 {
      assert all[..0] == [];
    }
  }

  /** Main result. From any peer: `recv` returns a message exactly when the frames it consumed are one, whole and in
      order, and then it consumed no frame more; whenever some first frames are a message, that is the one returned. The
      only exception is a bus that refuses one of the receiver's flow controls. */
  lemma RecvAcceptsIff(cfg: Config, all: seq<Pdu>, link: Link)
    ensures var o := RunReceiver(cfg, START_RECV, all, link);
            var n := |all| - |o.unread|;
            && n >= 0 && o.unread == all[n..]
            && (forall m :: o.result == Ok(m) ==> MessageAt(all, n, m))
            && (o.result == Err(SendFailed) ==> link.room.Some?)
            && (o.result != Err(SendFailed) ==>
                  forall k: nat, m :: MessageAt(all, k, m) ==> k == n && o.result == Ok(m))
  {
    RecvAnswers(cfg, all, link);
    WholeAnswer(RunReceiver(cfg, START_RECV, all, link), all, link);
  }
}
