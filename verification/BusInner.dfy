/** The subscriber list as the bus keeps it under its lock (src/virtual_bus/mod.rs, `BusInner`). */
module BusInner {
  import opened Frames
  import opened SubQueue
  import opened Subscriber

  /** What a broadcast counts: every turn's own delivered and dropped. */
  function Delivered(turns: seq<Visit>): nat
    decreases |turns|
  {
    if turns == [] then 0 else Delivered(turns[..|turns| - 1]) + turns[|turns| - 1].delivered
  }

  function Dropped(turns: seq<Visit>): nat
    decreases |turns|
  {
    if turns == [] then 0 else Dropped(turns[..|turns| - 1]) + turns[|turns| - 1].dropped
  }

  lemma OneMoreTurn(turns: seq<Visit>, k: nat)
    requires k < |turns|
    ensures Delivered(turns[..k + 1]) == Delivered(turns[..k]) + turns[k].delivered
    ensures Dropped(turns[..k + 1]) == Dropped(turns[..k]) + turns[k].dropped
  {
    assert turns[..k + 1][..k] == turns[..k];
  }

  /** The positions of the subscribers whose filters the frame passes. */
  function Interested(recs: seq<Rec>, f: Frame): set<nat> { set i: nat | i < |recs| && MatchesAny(recs[i].filters, f) }

  lemma OneMoreInterested(recs: seq<Rec>, f: Frame)
    requires recs != []
    ensures |Interested(recs, f)|
            == |Interested(recs[..|recs| - 1], f)| + if MatchesAny(recs[|recs| - 1].filters, f) then 1 else 0
  {
    var last := |recs| - 1;
    assert Interested(recs, f)
           == Interested(recs[..last], f) + if MatchesAny(recs[last].filters, f) then {last} else {};
  }

  lemma TurnCountsOne(r: Rec, f: Frame, now: nat)
    ensures var v := Visited(r, f, now); v.delivered + v.dropped == if MatchesAny(r.filters, f) then 1 else 0
  {
  }

  /** `turns[i]` is what the turn of subscriber `i` has to do, with the clock at `nows[i]`. */
  predicate AreTurns(recs: seq<Rec>, f: Frame, nows: seq<nat>, turns: seq<Visit>) {
    |recs| == |nows| == |turns| && forall i :: 0 <= i < |recs| ==> turns[i] == Visited(recs[i], f, nows[i])
  }

  function TurnsOf(recs: seq<Rec>, f: Frame, nows: seq<nat>): (turns: seq<Visit>)
    requires |recs| == |nows|
    ensures AreTurns(recs, f, nows, turns)
  {
    seq(|recs|, i requires 0 <= i < |recs| => Visited(recs[i], f, nows[i]))
  }

  /** Every matching subscriber is counted exactly once. */
  lemma {:induction false} TallyCountsMatches(recs: seq<Rec>, f: Frame, nows: seq<nat>, turns: seq<Visit>)
    requires AreTurns(recs, f, nows, turns)
    ensures Delivered(turns) + Dropped(turns) == |Interested(recs, f)|
    decreases |recs|
  {
    if recs != [] {
      var last := |recs| - 1;
      TallyCountsMatches(recs[..last], f, nows[..last], turns[..last]);
      OneMoreInterested(recs, f);
      TurnCountsOne(recs[last], f, nows[last]);
    }
  }

  class VirtualSub {
    const filters: seq<Filter>
    const inner: SubInner

    constructor (filters: seq<Filter>, inner: SubInner)
      ensures this.filters == filters && this.inner == inner
    {
      this.filters, this.inner := filters, inner;
    }

    method Matches(frame: Frame) returns (yes: bool)
      ensures yes == MatchesAny(filters, frame)
      ensures yes <==> filters == [] || exists i :: 0 <= i < |filters| && Agrees(filters[i], frame)
    {
      MatchesAnyIff(filters, frame);
      if filters == [] {
        return true;
      }
      for i := 0 to |filters|
        invariant forall j :: 0 <= j < i ==> !Frames.Matches(filters[j], frame)
      {
        if Frames.Matches(filters[i], frame) {
          return true;
        }
      }
      return false;
    }

    /** This is the subscriber of record `r`, whatever its history. */
    predicate Is(r: Rec)
      reads inner
    {
      r.filters == filters && r.sub == inner.State()
    }

    /** One turn of the broadcast loop, as the two counts it adds. */
    method Turn(frame: Frame, now: nat, ghost r: Rec, ghost v: Visit) returns (delivered: nat, dropped: nat)
      requires Is(r) && v == Visited(r, frame, now)
      modifies inner
      ensures inner.State() == v.rec.sub && delivered == v.delivered && dropped == v.dropped
    {
      delivered, dropped := 0, 0;
      var yes := Matches(frame);
      if yes {
        var accepted := inner.Push(frame, now);
        if accepted {
          delivered := 1;
        } else {
          dropped := 1;
        }
      }
    }
  }

  class BusInner {
    var subs: seq<VirtualSub>

    constructor ()
      ensures subs == []
    {
      subs := [];
    }

    ghost function Queues(): set<SubInner>
      reads this
    {
      set i | 0 <= i < |subs| :: subs[i].inner
    }

    /** No two subscribers share a queue. */
    ghost predicate Valid()
      reads this
    {
      forall i, j :: 0 <= i < j < |subs| ==> subs[i].inner != subs[j].inner
    }

    /** `nows[i]` is the clock when the loop reaches subscriber i, which is that of `recs[i]`. */
    method Broadcast(frame: Frame, nows: seq<nat>, ghost recs: seq<Rec>, ghost turns: seq<Visit>)
      returns (delivered: nat, dropped: nat)
      requires Valid() && |subs| == |nows| && AreTurns(recs, frame, nows, turns)
      requires forall i :: 0 <= i < |subs| ==> subs[i].Is(recs[i])
      modifies Queues()
      ensures forall i :: 0 <= i < |subs| ==> subs[i].inner.State() == turns[i].rec.sub
      ensures delivered == Delivered(turns) && dropped == Dropped(turns)
    {
      delivered, dropped := 0, 0;
      for k := 0 to |subs|
        invariant forall i :: 0 <= i < k ==> subs[i].inner.State() == turns[i].rec.sub
        invariant forall i :: k <= i < |subs| ==> subs[i].Is(recs[i])
        invariant delivered == Delivered(turns[..k]) && dropped == Dropped(turns[..k])
      {
        var n, m := subs[k].Turn(frame, nows[k], recs[k], turns[k]);
        delivered, dropped := delivered + n, dropped + m;
        OneMoreTurn(turns, k);
      }
      assert turns[..|subs|] == turns;
    }

    /** Closed subscribers are removed, the others keep their order. */
    method Gc()
      requires Valid()
      modifies this
      ensures Valid() && subs == StillOpen(old(subs), |old(subs)|) && Queues() <= old(Queues())
    {
      var kept: seq<VirtualSub> := [];
      for k := 0 to |subs|
        invariant kept == StillOpen(subs, k)
      {
        if !subs[k].inner.closed {
          kept := kept + [subs[k]];
        }
      }
      OpenKeepsDistinct(subs, |subs|);
      subs := kept;
    }
  }

  function StillOpen(subs: seq<VirtualSub>, n: nat): seq<VirtualSub>
    requires n <= |subs|
    reads set i | 0 <= i < n :: subs[i].inner
    decreases n
  {
    if n == 0 then [] else StillOpen(subs, n - 1) + if subs[n - 1].inner.closed then [] else [subs[n - 1]]
  }

  lemma {:induction false} OpenKeepsDistinct(subs: seq<VirtualSub>, n: nat)
    requires n <= |subs| && forall i, j :: 0 <= i < j < n ==> subs[i].inner != subs[j].inner
    ensures var open := StillOpen(subs, n);
            && (forall i :: 0 <= i < |open| ==> !open[i].inner.closed && exists j :: 0 <= j < n && subs[j] == open[i])
            && (forall j :: 0 <= j < n && !subs[j].inner.closed ==> subs[j] in open)
            && (forall i, j :: 0 <= i < j < |open| ==> open[i].inner != open[j].inner)
    decreases n
  {
    if n > 0 {
      OpenKeepsDistinct(subs, n - 1);
    }
  }
}
