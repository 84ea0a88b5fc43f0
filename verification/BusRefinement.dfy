/** The subscriber list and its loops against the state machine: `gc` and `broadcast` are the machine's own steps. */
module BusRefinement {
  import opened Frames
  import opened Subscriber
  import opened BusInner
  import VirtualBus

  /** The objects are the subscribers the machine names by `ids`. */
  ghost predicate Mirrors(subs: seq<VirtualSub>, ids: seq<nat>, recs: seq<Rec>)
    reads set i | 0 <= i < |subs| :: subs[i].inner
  {
    && |subs| == |ids|
    && forall i :: 0 <= i < |subs| ==>
         ids[i] < |recs| && subs[i].Is(recs[ids[i]])
  }

  /** `gc` on the objects is `gc` in the machine. */
  lemma {:induction false} GcIsLive(subs: seq<VirtualSub>, ids: seq<nat>, recs: seq<Rec>, n: nat)
    requires Mirrors(subs, ids, recs) && n <= |subs|
    ensures Mirrors(StillOpen(subs, n), VirtualBus.Live(ids[..n], recs), recs)
    decreases n
  {
    if n > 0 {
      GcIsLive(subs, ids, recs, n - 1);
      assert ids[..n][..n - 1] == ids[..n - 1];
    }
  }

  /** The machine after `n` turns of task `i`'s broadcast loop. */
  function AfterTurns(w: VirtualBus.World, i: nat, nows: seq<nat>, n: nat): VirtualBus.World
    requires n <= |nows|
    decreases n
  {
    if n == 0 then w
    else
      var v := AfterTurns(w, i, nows, n - 1);
      var go := VirtualBus.Go(i, nows[n - 1]);
      if VirtualBus.Enabled(v, go) then VirtualBus.Step(v, go) else v
  }

  /** Task `i` holds the lock and is about to offer `f` to the subscribers `ids`, which are all different. */
  predicate Broadcasts(w: VirtualBus.World, i: nat, f: Frame, ids: seq<nat>) {
    && i < |w.tasks| && w.tasks[i] == VirtualBus.Broadcasting(f, ids, 0, 0)
    && (forall k :: 0 <= k < |ids| ==> ids[k] < |w.recs|)
    && (forall j, k :: 0 <= j < k < |ids| ==> ids[j] != ids[k])
  }

  /** The records of the subscribers `ids`. */
  function Named(recs: seq<Rec>, ids: seq<nat>): seq<Rec>
    requires forall k :: 0 <= k < |ids| ==> ids[k] < |recs|
  {
    seq(|ids|, k requires 0 <= k < |ids| => recs[ids[k]])
  }

  /** The machine's state after `n` turns. */
  predicate TurnsDone(w: VirtualBus.World, v: VirtualBus.World, i: nat, f: Frame, ids: seq<nat>, turns: seq<Visit>,
                      n: nat)
  {
    && n <= |ids| == |turns| && i < |v.tasks| && |v.recs| == |w.recs|
    && v.tasks[i] == VirtualBus.Broadcasting(f, ids[n..], Delivered(turns[..n]), Dropped(turns[..n]))
    && (forall k :: 0 <= k < n ==> ids[k] < |v.recs| && v.recs[ids[k]].sub == turns[k].rec.sub
                                   && v.recs[ids[k]].filters == w.recs[ids[k]].filters)
    && (forall r :: 0 <= r < |w.recs| && r !in ids[..n] ==> v.recs[r] == w.recs[r])
  }

  /** The machine's next turn, `x` being what it has to do. */
  lemma StepIsVisit(v: VirtualBus.World, i: nat, now: nat, x: Visit)
    requires i < |v.tasks| && v.tasks[i].Broadcasting? && v.tasks[i].rest != [] && v.tasks[i].rest[0] < |v.recs|
    requires x == Visited(v.recs[v.tasks[i].rest[0]], v.tasks[i].frame, now)
    ensures VirtualBus.Enabled(v, VirtualBus.Go(i, now))
    ensures var t, v' := v.tasks[i], VirtualBus.Step(v, VirtualBus.Go(i, now));
            && |v'.tasks| == |v.tasks| && v'.recs == v.recs[t.rest[0] := x.rec]
            && v'.tasks[i] == VirtualBus.Broadcasting(t.frame, t.rest[1..], t.delivered + x.delivered,
                                                      t.dropped + x.dropped)
    ensures x.rec.filters == v.recs[v.tasks[i].rest[0]].filters
  {
    assert VirtualBus.Step(v, VirtualBus.Go(i, now)) == VirtualBus.VisitNext(v, i, now);
  }

  lemma OneTurnDone(w: VirtualBus.World, v: VirtualBus.World, v': VirtualBus.World, i: nat, f: Frame, ids: seq<nat>,
                    turns: seq<Visit>, n: nat)
    requires Broadcasts(w, i, f, ids) && n < |ids| && TurnsDone(w, v, i, f, ids, turns, n)
    requires v'.recs == v.recs[ids[n] := turns[n].rec] && turns[n].rec.filters == w.recs[ids[n]].filters
    requires i < |v'.tasks|
    requires v'.tasks[i] == VirtualBus.Broadcasting(f, ids[n + 1..], Delivered(turns[..n]) + turns[n].delivered,
                                                    Dropped(turns[..n]) + turns[n].dropped)
    ensures TurnsDone(w, v', i, f, ids, turns, n + 1)
  {
    OneMoreTurn(turns, n);
    assert ids[..n + 1] == ids[..n] + [ids[n]];
  }

  lemma OneTurn(w: VirtualBus.World, v: VirtualBus.World, i: nat, f: Frame, ids: seq<nat>, nows: seq<nat>,
                turns: seq<Visit>, n: nat)
    requires Broadcasts(w, i, f, ids) && AreTurns(Named(w.recs, ids), f, nows, turns) && n < |ids|
    requires TurnsDone(w, v, i, f, ids, turns, n)
    ensures VirtualBus.Enabled(v, VirtualBus.Go(i, nows[n]))
    ensures TurnsDone(w, VirtualBus.Step(v, VirtualBus.Go(i, nows[n])), i, f, ids, turns, n + 1)
  {
    assert ids[n] !in ids[..n];
    assert ids[n..][0] == ids[n] && ids[n..][1..] == ids[n + 1..];
    assert Named(w.recs, ids)[n] == v.recs[ids[n]];
    StepIsVisit(v, i, nows[n], turns[n]);
    OneTurnDone(w, v, VirtualBus.Step(v, VirtualBus.Go(i, nows[n])), i, f, ids, turns, n);
  }

  lemma {:induction false} TurnsFollow(w: VirtualBus.World, i: nat, f: Frame, ids: seq<nat>, nows: seq<nat>,
                                       turns: seq<Visit>, n: nat)
    requires Broadcasts(w, i, f, ids) && AreTurns(Named(w.recs, ids), f, nows, turns) && n <= |ids|
    ensures TurnsDone(w, AfterTurns(w, i, nows, n), i, f, ids, turns, n)
    decreases n
  {
    if n > 0 {
      var v := AfterTurns(w, i, nows, n - 1);
      TurnsFollow(w, i, f, ids, nows, turns, n - 1);
      OneTurn(w, v, i, f, ids, nows, turns, n - 1);
      assert AfterTurns(w, i, nows, n) == VirtualBus.Step(v, VirtualBus.Go(i, nows[n - 1]));
    }
  }

  /** The machine's loop, turn by turn. */
  lemma BroadcastIsTurns(w: VirtualBus.World, i: nat, f: Frame, ids: seq<nat>, nows: seq<nat>, turns: seq<Visit>)
    requires Broadcasts(w, i, f, ids) && AreTurns(Named(w.recs, ids), f, nows, turns)
    ensures var v := AfterTurns(w, i, nows, |ids|);
            && i < |v.tasks| && v.tasks[i] == VirtualBus.Broadcasting(f, [], Delivered(turns), Dropped(turns))
            && |v.recs| == |w.recs|
            && (forall k :: 0 <= k < |ids| ==>
                  v.recs[ids[k]].sub == turns[k].rec.sub && v.recs[ids[k]].filters == w.recs[ids[k]].filters)
  {
    TurnsFollow(w, i, f, ids, nows, turns, |ids|);
    assert turns[..|ids|] == turns && ids[|ids|..] == [];
  }

  /** Main result. `Broadcast` on the objects is the machine's loop: from objects that mirror the machine, the same
      counts, and objects that mirror the machine afterwards. */
  method BroadcastRefines(bus: BusInner, frame: Frame, nows: seq<nat>, ghost w: VirtualBus.World, ghost i: nat,
                          ghost ids: seq<nat>)
    returns (delivered: nat, dropped: nat)
    requires bus.Valid() && Mirrors(bus.subs, ids, w.recs) && Broadcasts(w, i, frame, ids) && |nows| == |ids|
    modifies bus.Queues()
    ensures var v := AfterTurns(w, i, nows, |ids|);
            && Mirrors(bus.subs, ids, v.recs)
            && i < |v.tasks| && v.tasks[i] == VirtualBus.Broadcasting(frame, [], delivered, dropped)
  {
    ghost var recs := Named(w.recs, ids);
    ghost var turns := TurnsOf(recs, frame, nows);
    BroadcastIsTurns(w, i, frame, ids, nows, turns);
    delivered, dropped := bus.Broadcast(frame, nows, recs, turns);
  }

  /** Taking the lock in a reachable state leads to such a broadcast, to the open subscribers. */
  lemma BeginBroadcasts(w: VirtualBus.World, i: nat, f: Frame)
    requires VirtualBus.Orderly(w) && i < |w.tasks| && w.tasks[i] == VirtualBus.Written(f)
    ensures Broadcasts(VirtualBus.BeginBroadcast(w, i, f), i, f, VirtualBus.Live(w.subs, w.recs))
  {
    VirtualBus.LiveOnes(w.subs, w.recs);
    var ids := VirtualBus.Live(w.subs, w.recs);
    assert forall k :: 0 <= k < |ids| ==> ids[k] in ids;
  }

  /** The machine keeps `until` of a closed subscriber; the objects know nothing of it. */
  lemma RemovedIsMirrored(subs: seq<VirtualSub>, ids: seq<nat>, recs: seq<Rec>, until: nat)
    requires Mirrors(subs, ids, recs)
    ensures Mirrors(subs, ids, VirtualBus.Removed(recs, until))
  {
  }

  lemma BeginMirrors(subs: seq<VirtualSub>, w: VirtualBus.World, i: nat, f: Frame)
    requires i < |w.tasks| && Mirrors(subs, w.subs, w.recs)
    ensures var w' := VirtualBus.BeginBroadcast(w, i, f); Mirrors(StillOpen(subs, |subs|), w'.subs, w'.recs)
  {
    GcIsLive(subs, w.subs, w.recs, |subs|);
    assert w.subs[..|subs|] == w.subs;
    RemovedIsMirrored(StillOpen(subs, |subs|), VirtualBus.Live(w.subs, w.recs), w.recs, |w.history|);
  }

  lemma TurnKeepsList(w: VirtualBus.World, i: nat, now: nat)
    requires i < |w.tasks| && w.tasks[i].Broadcasting? && w.tasks[i].rest != []
    ensures VirtualBus.Enabled(w, VirtualBus.Go(i, now))
    ensures var v := VirtualBus.Step(w, VirtualBus.Go(i, now));
            v.subs == w.subs && i < |v.tasks| && v.tasks[i].Broadcasting? && |v.tasks[i].rest| >= |w.tasks[i].rest| - 1
  {
    assert VirtualBus.Step(w, VirtualBus.Go(i, now)) == VirtualBus.VisitNext(w, i, now);
  }

  lemma {:induction false} TurnsKeepList(w: VirtualBus.World, i: nat, nows: seq<nat>, n: nat)
    requires n <= |nows| && i < |w.tasks| && w.tasks[i].Broadcasting? && |w.tasks[i].rest| >= n
    ensures var v := AfterTurns(w, i, nows, n);
            v.subs == w.subs && i < |v.tasks| && v.tasks[i].Broadcasting? && |v.tasks[i].rest| >= |w.tasks[i].rest| - n
    decreases n
  {
    if n > 0 {
      TurnsKeepList(w, i, nows, n - 1);
      var v := AfterTurns(w, i, nows, n - 1);
      TurnKeepsList(v, i, nows[n - 1]);
      assert AfterTurns(w, i, nows, n) == VirtualBus.Step(v, VirtualBus.Go(i, nows[n - 1]));
    }
  }

  /** Main result. The locked section of `send`, from a reachable state: `gc` and `broadcast` on objects that mirror the
      machine's registered subscribers are the machine's steps from taking the lock to the last turn. */
  method LockedSection(bus: BusInner, frame: Frame, nows: seq<nat>, ghost w: VirtualBus.World, ghost i: nat)
    returns (delivered: nat, dropped: nat)
    requires VirtualBus.Orderly(w) && i < |w.tasks| && w.tasks[i] == VirtualBus.Written(frame)
    requires bus.Valid() && Mirrors(bus.subs, w.subs, w.recs) && |nows| == |VirtualBus.Live(w.subs, w.recs)|
    modifies bus, bus.Queues()
    ensures bus.Valid()
    ensures var v := AfterTurns(VirtualBus.BeginBroadcast(w, i, frame), i, nows, |nows|);
            && Mirrors(bus.subs, v.subs, v.recs)
            && i < |v.tasks| && v.tasks[i] == VirtualBus.Broadcasting(frame, [], delivered, dropped)
  {
    ghost var w', ids := VirtualBus.BeginBroadcast(w, i, frame), VirtualBus.Live(w.subs, w.recs);
    ghost var all := bus.subs;
    BeginBroadcasts(w, i, frame);
    bus.Gc();
    BeginMirrors(all, w, i, frame);
    delivered, dropped := BroadcastRefines(bus, frame, nows, w', i, ids);
    TurnsKeepList(w', i, nows, |nows|);
  }
}
