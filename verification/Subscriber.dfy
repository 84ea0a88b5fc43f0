/** What one registered subscriber of the virtual bus has seen (src/virtual_bus/mod.rs, `VirtualSub`). */
module Subscriber {
  import opened Wrappers
  import opened Frames
  import opened Subsequences
  import opened SubQueue

  /** A subscriber and its history: every matching frame the bus offered it, what its owner has received, and what
      the queue evicted. It is registered for the broadcasts numbered `since` and up, and below `until` once it has
      been removed. */
  datatype Rec = Rec(filters: seq<Filter>, sub: Sub, since: nat, until: Option<nat>,
                     offered: seq<Frame>, received: seq<Frame>, evicted: seq<Frame>)

  datatype Visit = Visit(rec: Rec, delivered: nat, dropped: nat)

  /** One turn of the broadcast loop. */
  function Visited(r: Rec, f: Frame, now: nat): Visit {
    if !MatchesAny(r.filters, f) then Visit(r, 0, 0)
    else
      var o := Pushed(r.sub, f, now);
      Visit(r.(sub := o.sub, offered := r.offered + [f],
               evicted := if o.evicted > 0 then r.evicted + r.sub.queue[..1] else r.evicted),
            if o.accepted then 1 else 0, if o.accepted then 0 else 1)
  }

  /** The owner takes the frame at the front, if there is one. */
  function Popped(r: Rec): Rec {
    if r.sub.queue == [] then r
    else r.(sub := r.sub.(queue := r.sub.queue[1..]), received := r.received + [r.sub.queue[0]])
  }

  /** The frames of `fs` that pass the filters. */
  function Matching(filters: seq<Filter>, fs: seq<Frame>): seq<Frame>
    decreases |fs|
  {
    if fs == [] then []
    else
      var last := |fs| - 1;
      Matching(filters, fs[..last]) + if MatchesAny(filters, fs[last]) then [fs[last]] else []
  }

  predicate Suffix(a: seq<Frame>, b: seq<Frame>) { |a| <= |b| && b[|b| - |a|..] == a }

  /** What holds of the contents. */
  predicate Refines(r: Rec) {
    && Subsequence(r.received + r.sub.queue, r.offered)
    && (r.sub.policy.Block? && r.sub.rateLimit == 0 ==> r.received + r.sub.queue == r.offered)
    && (r.sub.policy.DropOldest? && r.sub.rateLimit == 0 ==> Suffix(r.sub.queue, r.offered))
    && (!r.sub.policy.Block? ==> 1 <= r.sub.capacity && |r.sub.queue| <= r.sub.capacity)
  }

  /** The window is full for now. */
  predicate RateLimited(s: Sub, now: nat) {
    s.rateLimit > 0 && now < s.window.start + SECOND && s.window.count >= s.rateLimit
  }

  /** The three things a push can do to the queue, and exactly when it refuses the frame or gives up the oldest. */
  lemma PushCases(s: Sub, f: Frame, now: nat)
    ensures var o := Pushed(s, f, now);
            && o.sub.policy == s.policy && o.sub.capacity == s.capacity && o.sub.rateLimit == s.rateLimit
            && (!o.accepted <==> RateLimited(s, now) || (s.policy.DropNewest? && |s.queue| >= s.capacity))
            && (o.evicted > 0 <==> o.accepted && s.policy.DropOldest? && |s.queue| >= s.capacity && s.queue != [])
            && if !o.accepted then o.sub.queue == s.queue
               else if o.evicted == 0 then o.sub.queue == s.queue + [f]
               else o.evicted == 1 && o.sub.queue == s.queue[1..] + [f]
  {
  }

  lemma SuffixGrows(q: seq<Frame>, offered: seq<Frame>, f: Frame)
    requires Suffix(q, offered)
    ensures Suffix(q + [f], offered + [f])
    ensures q != [] ==> Suffix(q[1..] + [f], offered + [f])
  {
    var n := |offered| - |q|;
    assert (offered + [f])[n..] == offered[n..] + [f];
    if q != [] {
      assert (offered + [f])[n + 1..] == offered[n..][1..] + [f];
    }
  }

  lemma EvictionKeepsOrder(received: seq<Frame>, q: seq<Frame>, offered: seq<Frame>, f: Frame)
    requires Subsequence(received + q, offered) && q != []
    ensures Subsequence(received + (q[1..] + [f]), offered + [f])
  {
    var kept, i := received + q, |received|;
    WithoutOne(kept, i, offered);
    assert kept[..i] + kept[i + 1..] == received + q[1..];
    SubsequenceOfLonger(received + q[1..], offered, f);
    assert received + (q[1..] + [f]) == received + q[1..] + [f];
  }

  lemma AcceptKeepsOrder(received: seq<Frame>, q: seq<Frame>, offered: seq<Frame>, f: Frame)
    requires Subsequence(received + q, offered)
    ensures Subsequence(received + (q + [f]), offered + [f]) && Subsequence(received + q, offered + [f])
    ensures received + q == offered ==> received + (q + [f]) == offered + [f]
  {
    SubsequenceOfLonger(received + q, offered, f);
    assert received + (q + [f]) == received + q + [f];
  }

  lemma VisitRefines(r: Rec, f: Frame, now: nat)
    requires Refines(r)
    ensures Refines(Visited(r, f, now).rec)
  {
    if MatchesAny(r.filters, f) {
      var q := r.sub.queue;
      PushCases(r.sub, f, now);
      AcceptKeepsOrder(r.received, q, r.offered, f);
      if q != [] {
        EvictionKeepsOrder(r.received, q, r.offered, f);
      }
      if Suffix(q, r.offered) {
        SuffixGrows(q, r.offered, f);
      }
    }
  }

  lemma PopRefines(r: Rec)
    requires Refines(r)
    ensures Refines(Popped(r))
  {
    if r.sub.queue != [] {
      assert Popped(r).received + Popped(r).sub.queue == r.received + r.sub.queue;
    }
  }

  // ---------------------------------------------------------------------------
  // Counting
  // ---------------------------------------------------------------------------

  function Bytes(fs: seq<Frame>): nat
    decreases |fs|
  {
    if fs == [] then 0 else |fs[0].data| + Bytes(fs[1..])
  }

  lemma {:induction false} BytesAppend(fs: seq<Frame>, f: Frame)
    ensures Bytes(fs + [f]) == Bytes(fs) + |f.data|
    decreases |fs|
  {
    if fs == [] {
      assert fs + [f] == [f];
    } else {
      BytesAppend(fs[1..], f);
      assert (fs + [f])[1..] == fs[1..] + [f];
    }
  }

  /** Every frame the subscriber ever accepted: handed over, still queued, or evicted later. */
  function Accepted(r: Rec): nat { |r.received| + |r.sub.queue| + |r.evicted| }

  function AcceptedBytes(r: Rec): nat { Bytes(r.received) + Bytes(r.sub.queue) + Bytes(r.evicted) }

  function Offers(r: Rec): nat { |r.offered| }

  /** A visit moves the totals by what it reports. */
  lemma VisitCounts(r: Rec, f: Frame, now: nat)
    ensures var v := Visited(r, f, now);
            && Accepted(v.rec) == Accepted(r) + v.delivered
            && Offers(v.rec) == Offers(r) + v.delivered + v.dropped
            && AcceptedBytes(v.rec) == AcceptedBytes(r) + |f.data| * v.delivered
  {
    if MatchesAny(r.filters, f) {
      var q, o := r.sub.queue, Pushed(r.sub, f, now);
      PushCases(r.sub, f, now);
      if o.evicted > 0 {
        EvictedBytes(q, r.evicted, f);
      } else if o.accepted {
        BytesAppend(q, f);
      }
    }
  }

  lemma EvictedBytes(q: seq<Frame>, evicted: seq<Frame>, f: Frame)
    requires q != []
    ensures Bytes(q[1..] + [f]) + Bytes(evicted + q[..1]) == Bytes(q) + Bytes(evicted) + |f.data|
  {
    BytesAppend(q[1..], f);
    BytesAppend(evicted, q[0]);
    assert q[..1] == [q[0]];
  }

  lemma PopCounts(r: Rec)
    ensures Accepted(Popped(r)) == Accepted(r) && Offers(Popped(r)) == Offers(r)
    ensures AcceptedBytes(Popped(r)) == AcceptedBytes(r)
  {
    if r.sub.queue != [] {
      BytesAppend(r.received, r.sub.queue[0]);
    }
  }
}
