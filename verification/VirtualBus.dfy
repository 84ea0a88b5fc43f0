/** The virtual bus as a state machine: any number of tasks sending, subscribing and closing, one step per lock,
    atomic counter or queue operation (src/virtual_bus/mod.rs). */
module VirtualBus {
  import opened Wrappers
  import opened Frames
  import opened Relay
  import opened Subsequences
  import opened SubQueue
  import opened Subscriber

  /** Where a task is. */
  datatype Task =
    | Idle
    | Checked(frame: Frame)                                               // the bus was open
    | Sized(frame: Frame)                                                 // valid, and bytes_written has counted it
    | Written(frame: Frame)                                               // write_count has counted it; wants the lock
    | Broadcasting(frame: Frame, rest: seq<nat>, delivered: nat, dropped: nat)   // holds the lock
    | Unlocked(frame: Frame, delivered: nat, dropped: nat)
    | Delivered(frame: Frame, delivered: nat, dropped: nat)               // deliver_count has counted it
    | Dropped(frame: Frame, delivered: nat)                               // drop_count has counted it
    | Subscribing(filters: seq<Filter>, sub: Sub)                         // the bus was open; wants the lock
    | Closing                                                             // closed the bus; wants the lock

  /** `recs` lists every subscriber ever registered, `subs` the registered ones, `history` the frames broadcast, in
      the order in which their senders took the lock. `begun` counts the sends. */
  datatype World = World(tasks: seq<Task>, recs: seq<Rec>, subs: seq<nat>, history: seq<Frame>, lock: Option<nat>,
                         closed: bool, counters: Counters)

  datatype Counters = Counters(begun: nat, errors: nat, writes: nat, bytesWritten: nat,
                               delivers: nat, drops: nat, bytesDelivered: nat)

  datatype Action =
    | Send(task: nat, frame: Frame)
    | Subscribe(task: nat, filters: seq<Filter>, depth: nat, policy: Policy, rateLimit: nat, now: nat)
    | CloseBus(task: nat)
    | Go(task: nat, now: nat)        // its next step; `now` is the clock, if the step reads it
    | Receive(rec: nat)
    | CloseReceiver(rec: nat)

  function Start(tasks: nat): World {
    World(seq(tasks, _ => Idle), [], [], [], None, false, Counters(0, 0, 0, 0, 0, 0, 0))
  }

  predicate Enabled(w: World, a: Action) {
    match a
    case Send(i, _) => i < |w.tasks| && w.tasks[i].Idle?
    case Subscribe(i, _, _, _, _, _) => i < |w.tasks| && w.tasks[i].Idle?
    case CloseBus(i) => i < |w.tasks| && w.tasks[i].Idle?
    case Go(i, _) =>
      i < |w.tasks| && !w.tasks[i].Idle? &&
      (w.tasks[i].Written? || w.tasks[i].Subscribing? || w.tasks[i].Closing? ==> w.lock == None)
    case Receive(k) => k < |w.recs|
    case CloseReceiver(k) => k < |w.recs|
  }

  function With(w: World, i: nat, t: Task): World
    requires i < |w.tasks|
  {
    w.(tasks := w.tasks[i := t])
  }

  function Step(w: World, a: Action): World
    requires Enabled(w, a)
  {
    match a
    case Send(i, f) =>
      var c := w.counters.(begun := w.counters.begun + 1);
      if w.closed then w.(counters := c.(errors := c.errors + 1)) else With(w.(counters := c), i, Checked(f))
    case Subscribe(i, filters, depth, policy, rateLimit, now) =>
      if w.closed then w
      else With(w, i, Subscribing(filters, Sub([], if depth > 0 then depth else DEFAULT_DEPTH, policy, rateLimit,
                                               Window(now, 0), false)))
    case CloseBus(i) => if w.closed then w else With(w.(closed := true), i, Closing)
    case Go(i, now) => Advance(w, i, now)
    case Receive(k) => w.(recs := w.recs[k := Popped(w.recs[k])])
    case CloseReceiver(k) => w.(recs := w.recs[k := w.recs[k].(sub := w.recs[k].sub.(closed := true))])
  }

  function Advance(w: World, i: nat, now: nat): World
    requires Enabled(w, Go(i, now))
  {
    var c := w.counters;
    match w.tasks[i]
    case Checked(f) =>
      if !Valid(f) then With(w.(counters := c.(errors := c.errors + 1)), i, Idle)
      else With(w.(counters := c.(bytesWritten := c.bytesWritten + |f.data|)), i, Sized(f))
    case Sized(f) => With(w.(counters := c.(writes := c.writes + 1)), i, Written(f))
    case Written(f) => BeginBroadcast(w, i, f)
    case Broadcasting(f, rest, n, m) =>
      if rest == [] then With(w.(lock := None), i, Unlocked(f, n, m)) else VisitNext(w, i, now)
    case Unlocked(f, n, m) => With(w.(counters := c.(delivers := c.delivers + n)), i, Delivered(f, n, m))
    case Delivered(f, n, m) => With(w.(counters := c.(drops := c.drops + m)), i, Dropped(f, n))
    case Dropped(f, n) => With(w.(counters := c.(bytesDelivered := c.bytesDelivered + |f.data| * n)), i, Idle)
    case Subscribing(filters, sub) =>
      With(w.(recs := w.recs + [Rec(filters, sub, |w.history|, None, [], [], [])],
              subs := w.subs + [|w.recs|]), i, Idle)
    case Closing => With(w.(recs := Shut(w.recs, |w.history|), subs := []), i, Idle)
    case Idle => w
  }

  /** The lock is taken and `gc` removes the subscribers that were closed. */
  function BeginBroadcast(w: World, i: nat, f: Frame): World
    requires i < |w.tasks|
  {
    var live := Live(w.subs, w.recs);
    With(w.(recs := Removed(w.recs, |w.history|), subs := live, history := w.history + [f], lock := Some(i)),
         i, Broadcasting(f, live, 0, 0))
  }

  /** The broadcast loop offers the frame to the next subscriber. */
  function VisitNext(w: World, i: nat, now: nat): World
    requires i < |w.tasks| && w.tasks[i].Broadcasting? && w.tasks[i].rest != []
  {
    var t := w.tasks[i];
    var k := t.rest[0];
    if k >= |w.recs| then w
    else
      var v := Visited(w.recs[k], t.frame, now);
      With(w.(recs := w.recs[k := v.rec]), i,
           Broadcasting(t.frame, t.rest[1..], t.delivered + v.delivered, t.dropped + v.dropped))
  }

  function Live(subs: seq<nat>, recs: seq<Rec>): seq<nat>
    decreases |subs|
  {
    if subs == [] then []
    else
      var last := |subs| - 1;
      Live(subs[..last], recs) + if subs[last] < |recs| && !recs[subs[last]].sub.closed then [subs[last]] else []
  }

  function Ended(r: Rec, until: nat): Rec { if r.until == None then r.(until := Some(until)) else r }

  function Removed(recs: seq<Rec>, until: nat): seq<Rec> {
    seq(|recs|, k requires 0 <= k < |recs| => if recs[k].sub.closed then Ended(recs[k], until) else recs[k])
  }

  function Closed(r: Rec, until: nat): Rec {
    if r.until == None then Ended(r, until).(sub := r.sub.(closed := true)) else r
  }

  /** `close` closes every registered subscriber and forgets them all. */
  function Shut(recs: seq<Rec>, until: nat): seq<Rec> {
    seq(|recs|, k requires 0 <= k < |recs| => Closed(recs[k], until))
  }

  /** The world after a run. */
  predicate Run(w: World, actions: seq<Action>, w': World)
    decreases |actions|
  {
    if actions == [] then w' == w
    else Enabled(w, actions[0]) && Run(Step(w, actions[0]), actions[1..], w')
  }

  // ---------------------------------------------------------------------------
  // Who is registered, and which broadcasts each subscriber was offered
  // ---------------------------------------------------------------------------

  predicate Increasing(s: seq<nat>) { forall i, j :: 0 <= i < j < |s| ==> s[i] < s[j] }

  /** The broadcast in progress, if any, is the last of the history, and `rest` is what is left of the subscriber
      list. */
  predicate Locked(w: World) {
    && (forall i :: 0 <= i < |w.tasks| && w.tasks[i].Broadcasting? ==> w.lock == Some(i))
    && (w.lock.Some? ==>
          && w.lock.value < |w.tasks| && w.tasks[w.lock.value].Broadcasting?
          && var t := w.tasks[w.lock.value];
             && w.history != [] && w.history[|w.history| - 1] == t.frame
             && |t.rest| <= |w.subs| && t.rest == w.subs[|w.subs| - |t.rest|..])
  }

  predicate Registered(w: World) {
    && Increasing(w.subs)
    && (forall i :: 0 <= i < |w.subs| ==> w.subs[i] < |w.recs|)
    && (forall k :: 0 <= k < |w.recs| ==> (w.recs[k].until == None <==> k in w.subs))
  }

  /** The broadcast in progress has not reached subscriber `k` yet. */
  predicate Awaits(w: World, k: nat) {
    w.lock.Some? && w.lock.value < |w.tasks| && w.tasks[w.lock.value].Broadcasting? && k in w.tasks[w.lock.value].rest
  }

  /** The number of the first broadcast the subscriber has not been considered for. */
  function End(w: World, k: nat): int
    requires k < |w.recs|
  {
    if w.recs[k].until.Some? then w.recs[k].until.value else if Awaits(w, k) then |w.history| - 1 else |w.history|
  }

  /** The subscriber was offered exactly the matching frames broadcast while it was registered. */
  predicate OfferedInOrder(w: World, k: nat)
    requires k < |w.recs|
  {
    && 0 <= w.recs[k].since <= End(w, k) <= |w.history|
    && w.recs[k].offered == Matching(w.recs[k].filters, w.history[w.recs[k].since..End(w, k)])
  }

  predicate FitTask(t: Task) {
    && (t.Subscribing? ==> t.sub.queue == [] && t.sub.capacity >= 1)
    && (t.Sized? || t.Written? ==> Valid(t.frame))
  }

  predicate Fit(w: World) {
    && (forall i :: 0 <= i < |w.tasks| ==> FitTask(w.tasks[i]))
    && (forall i :: 0 <= i < |w.history| ==> Valid(w.history[i]))
  }

  predicate Orderly(w: World) {
    && Locked(w) && Registered(w) && Fit(w)
    && (forall k :: 0 <= k < |w.recs| ==> OfferedInOrder(w, k))
    && (forall k :: 0 <= k < |w.recs| ==> Refines(w.recs[k]))
  }

  lemma {:induction false} LiveMember(subs: seq<nat>, recs: seq<Rec>, k: nat)
    ensures k in Live(subs, recs) <==> k in subs && k < |recs| && !recs[k].sub.closed
    decreases |subs|
  {
    if subs != [] {
      var last := |subs| - 1;
      LiveMember(subs[..last], recs, k);
      assert subs == subs[..last] + [subs[last]];
    }
  }

  lemma {:induction false} LiveBelow(subs: seq<nat>, recs: seq<Rec>, bound: nat)
    requires forall i :: 0 <= i < |subs| ==> subs[i] < bound
    ensures forall i :: 0 <= i < |Live(subs, recs)| ==> Live(subs, recs)[i] < bound
    decreases |subs|
  {
    if subs != [] {
      LiveBelow(subs[..|subs| - 1], recs, bound);
    }
  }

  lemma {:induction false} LiveIncreasing(subs: seq<nat>, recs: seq<Rec>)
    requires Increasing(subs)
    ensures Increasing(Live(subs, recs))
    decreases |subs|
  {
    if subs != [] {
      var last := |subs| - 1;
      LiveIncreasing(subs[..last], recs);
      LiveBelow(subs[..last], recs, subs[last]);
    }
  }

  /** `gc` keeps the open subscribers in their order. */
  lemma LiveOnes(subs: seq<nat>, recs: seq<Rec>)
    requires Increasing(subs)
    ensures forall k: nat :: k in Live(subs, recs) <==> k in subs && k < |recs| && !recs[k].sub.closed
    ensures Increasing(Live(subs, recs))
  {
    LiveIncreasing(subs, recs);
    forall k: nat ensures k in Live(subs, recs) <==> k in subs && k < |recs| && !recs[k].sub.closed {
      LiveMember(subs, recs, k);
    }
  }

  /** What the order of a subscriber's frames depends on. */
  lemma OfferedStays(w: World, w': World, k: nat)
    requires k < |w.recs| && k < |w'.recs| && OfferedInOrder(w, k)
    requires w'.history == w.history
    requires w'.recs[k].offered == w.recs[k].offered && w'.recs[k].filters == w.recs[k].filters
    requires w'.recs[k].since == w.recs[k].since && End(w', k) == End(w, k)
    ensures OfferedInOrder(w', k)
  {
  }

  /** Steps that move a task outside the lock and touch only counters. */
  predicate OnlyTask(w: World, w': World, i: nat) {
    && i < |w.tasks| && |w'.tasks| == |w.tasks| && w'.tasks == w.tasks[i := w'.tasks[i]]
    && !w.tasks[i].Broadcasting? && !w'.tasks[i].Broadcasting?
    && w'.recs == w.recs && w'.subs == w.subs && w'.history == w.history && w'.lock == w.lock
  }

  lemma OnlyTaskKeepsOrder(w: World, w': World, i: nat)
    requires Orderly(w) && OnlyTask(w, w', i) && FitTask(w'.tasks[i])
    ensures Orderly(w')
  {
    assert Locked(w') && Fit(w');
    forall k | 0 <= k < |w'.recs| ensures OfferedInOrder(w', k) {
      assert Awaits(w', k) == Awaits(w, k);
      OfferedStays(w, w', k);
    }
  }

  lemma UnlockKeepsOrder(w: World, i: nat, t: Task)
    requires Orderly(w) && w.lock == Some(i) && w.tasks[i].Broadcasting? && w.tasks[i].rest == [] && t.Unlocked?
    ensures Orderly(With(w.(lock := None), i, t))
  {
    var w' := With(w.(lock := None), i, t);
    assert Locked(w') && Fit(w');
    forall k | 0 <= k < |w'.recs| ensures OfferedInOrder(w', k) {
      OfferedStays(w, w', k);
    }
  }

  /** An owner's own operations: the queue is read or closed, nothing is offered. */
  lemma OwnerKeepsOrder(w: World, k: nat, r: Rec)
    requires Orderly(w) && k < |w.recs| && Refines(r)
    requires r.offered == w.recs[k].offered && r.filters == w.recs[k].filters
    requires r.since == w.recs[k].since && r.until == w.recs[k].until
    ensures Orderly(w.(recs := w.recs[k := r]))
  {
    var w' := w.(recs := w.recs[k := r]);
    assert Locked(w') && Fit(w') && Registered(w');
    forall j | 0 <= j < |w'.recs| ensures OfferedInOrder(w', j) {
      assert Awaits(w', j) == Awaits(w, j);
      OfferedStays(w, w', j);
    }
  }

  lemma RegisterKeepsLists(w: World, w': World, i: nat, r: Rec)
    requires Locked(w) && Fit(w) && Registered(w) && w.lock == None && i < |w.tasks| && r.until == None
    requires w' == With(w.(recs := w.recs + [r], subs := w.subs + [|w.recs|]), i, Idle)
    ensures Locked(w') && Fit(w') && Registered(w')
  {
  }

  lemma RegisterKeepsOrder(w: World, i: nat, r: Rec)
    requires Orderly(w) && i < |w.tasks| && w.tasks[i].Subscribing? && w.lock == None
    requires Refines(r) && r.since == |w.history| && r.until == None && r.offered == []
    ensures Orderly(With(w.(recs := w.recs + [r], subs := w.subs + [|w.recs|]), i, Idle))
  {
    var w' := With(w.(recs := w.recs + [r], subs := w.subs + [|w.recs|]), i, Idle);
    RegisterKeepsLists(w, w', i, r);
    forall k | 0 <= k < |w'.recs| ensures OfferedInOrder(w', k) {
      if k < |w.recs| {
        assert w'.recs[k] == w.recs[k];
        OfferedStays(w, w', k);
      }
    }
  }

  lemma ShutKeepsOrder(w: World, i: nat)
    requires Orderly(w) && i < |w.tasks| && w.tasks[i].Closing? && w.lock == None
    ensures Orderly(With(w.(recs := Shut(w.recs, |w.history|), subs := []), i, Idle))
  {
    var w' := With(w.(recs := Shut(w.recs, |w.history|), subs := []), i, Idle);
    assert Locked(w') && Fit(w');
    forall k | 0 <= k < |w'.recs| ensures OfferedInOrder(w', k) && Refines(w'.recs[k]) && w'.recs[k].until.Some? {
      assert w'.recs[k] == Closed(w.recs[k], |w.history|);
      assert Refines(w.recs[k]);
      OfferedStays(w, w', k);
    }
    assert Registered(w');
  }

  lemma BeginOffered(w: World, i: nat, f: Frame, k: nat)
    requires Orderly(w) && i < |w.tasks| && w.tasks[i] == Written(f) && w.lock == None && k < |w.recs|
    ensures var w' := BeginBroadcast(w, i, f);
            OfferedInOrder(w', k) && Refines(w'.recs[k]) && (w'.recs[k].until == None <==> k in w'.subs)
  {
    var w', r := BeginBroadcast(w, i, f), w.recs[k];
    LiveOnes(w.subs, w.recs);
    assert OfferedInOrder(w, k) && Refines(r);
    assert w'.recs[k] == if r.sub.closed then Ended(r, |w.history|) else r;
    assert End(w', k) == End(w, k);
    assert w'.history[r.since..End(w, k)] == w.history[r.since..End(w, k)];
  }

  /** What is left of the list is in order and names known subscribers. */
  lemma LiveIsList(subs: seq<nat>, recs: seq<Rec>)
    requires Increasing(subs)
    ensures Increasing(Live(subs, recs)) && forall j :: 0 <= j < |Live(subs, recs)| ==> Live(subs, recs)[j] < |recs|
  {
    var live := Live(subs, recs);
    LiveIncreasing(subs, recs);
    forall j | 0 <= j < |live| ensures live[j] < |recs| {
      LiveMember(subs, recs, live[j]);
    }
  }

  lemma LockKeepsLists(w: World, w': World, i: nat, f: Frame, recs: seq<Rec>, live: seq<nat>)
    requires Fit(w) && i < |w.tasks| && w.tasks[i] == Written(f) && w.lock == None && Locked(w)
    requires w' == With(w.(recs := recs, subs := live, history := w.history + [f], lock := Some(i)), i,
                        Broadcasting(f, live, 0, 0))
    ensures Locked(w') && Fit(w')
  {
    assert FitTask(w.tasks[i]);
  }

  lemma BeginKeepsLists(w: World, i: nat, f: Frame)
    requires Registered(w) && Fit(w) && i < |w.tasks| && w.tasks[i] == Written(f) && w.lock == None && Locked(w)
    ensures var w' := BeginBroadcast(w, i, f);
            && Locked(w') && Fit(w') && Increasing(w'.subs)
            && forall j :: 0 <= j < |w'.subs| ==> w'.subs[j] < |w'.recs|
  {
    var w' := BeginBroadcast(w, i, f);
    LiveIsList(w.subs, w.recs);
    LockKeepsLists(w, w', i, f, w'.recs, w'.subs);
  }

  lemma BeginKeepsOrder(w: World, i: nat, f: Frame)
    requires Orderly(w) && i < |w.tasks| && w.tasks[i] == Written(f) && w.lock == None
    ensures Orderly(BeginBroadcast(w, i, f))
  {
    var w' := BeginBroadcast(w, i, f);
    BeginKeepsLists(w, i, f);
    forall k | 0 <= k < |w'.recs|
      ensures OfferedInOrder(w', k) && Refines(w'.recs[k]) && (w'.recs[k].until == None <==> k in w'.subs)
    {
      BeginOffered(w, i, f, k);
    }
  }

  /** The subscriber being visited is registered, and is not on the rest of the list again. */
  lemma VisitedOnce(w: World, i: nat)
    requires Locked(w) && Registered(w) && w.lock == Some(i) && w.tasks[i].rest != []
    ensures var rest := w.tasks[i].rest;
            && rest[0] in w.subs && rest[0] < |w.recs| && w.recs[rest[0]].until == None
            && (forall k :: k in rest <==> k == rest[0] || k in rest[1..]) && rest[0] !in rest[1..]
            && rest[1..] == w.subs[|w.subs| - |rest[1..]|..]
  {
    var rest := w.tasks[i].rest;
    assert rest[0] == w.subs[|w.subs| - |rest|];
    assert rest == [rest[0]] + rest[1..];
    forall j | 0 <= j < |rest| - 1 ensures rest[1..][j] > rest[0] {
      assert rest[1..][j] == w.subs[|w.subs| - |rest| + 1 + j];
    }
  }

  lemma MatchingOneMore(filters: seq<Filter>, history: seq<Frame>, since: nat)
    requires since < |history|
    ensures var n := |history| - 1;
            Matching(filters, history[since..]) == Matching(filters, history[since..n])
                                                   + if MatchesAny(filters, history[n]) then [history[n]] else []
  {
    var n := |history| - 1;
    assert history[since..][..n - since] == history[since..n];
  }

  lemma VisitExtends(r: Rec, history: seq<Frame>, now: nat)
    requires r.since < |history| && r.offered == Matching(r.filters, history[r.since..|history| - 1])
    ensures Visited(r, history[|history| - 1], now).rec.offered == Matching(r.filters, history[r.since..|history|])
  {
    MatchingOneMore(r.filters, history, r.since);
    assert history[r.since..|history|] == history[r.since..];
  }

  /** What a visit leaves alone. */
  lemma VisitLeaves(r: Rec, f: Frame, now: nat)
    ensures var v := Visited(r, f, now);
            v.rec.filters == r.filters && v.rec.since == r.since && v.rec.until == r.until
  {
  }

  /** A subscriber that had been considered for all but the last broadcast has been considered for that one too. */
  predicate OfferedLast(before: Rec, after: Rec, history: seq<Frame>) {
    && after.filters == before.filters && after.since == before.since && after.until == before.until
    && (before.since < |history| && before.offered == Matching(before.filters, history[before.since..|history| - 1]) ==>
          after.offered == Matching(before.filters, history[before.since..|history|]))
  }

  lemma VisitOffersLast(r: Rec, history: seq<Frame>, now: nat)
    requires history != []
    ensures OfferedLast(r, Visited(r, history[|history| - 1], now).rec, history)
  {
    VisitLeaves(r, history[|history| - 1], now);
    if r.since < |history| && r.offered == Matching(r.filters, history[r.since..|history| - 1]) {
      VisitExtends(r, history, now);
    }
  }

  /** Task `i` has moved on to the rest of its list, and the subscriber it visited is now `r`. */
  predicate MovedOn(w: World, w': World, i: nat, r: Rec) {
    && i < |w.tasks| && w.tasks[i].Broadcasting? && w.tasks[i].rest != [] && w.tasks[i].rest[0] < |w.recs|
    && i < |w'.tasks| && w'.tasks == w.tasks[i := w'.tasks[i]] && w'.tasks[i].Broadcasting?
    && w'.tasks[i].frame == w.tasks[i].frame && w'.tasks[i].rest == w.tasks[i].rest[1..]
    && w'.recs == w.recs[w.tasks[i].rest[0] := r] && w'.subs == w.subs && w'.history == w.history && w'.lock == w.lock
    && OfferedLast(w.recs[w.tasks[i].rest[0]], r, w.history)
  }

  lemma VisitMovesOn(w: World, i: nat, now: nat)
    requires i < |w.tasks| && w.tasks[i].Broadcasting? && w.tasks[i].rest != [] && w.tasks[i].rest[0] < |w.recs|
    requires w.history != [] && w.tasks[i].frame == w.history[|w.history| - 1]
    ensures MovedOn(w, VisitNext(w, i, now), i, Visited(w.recs[w.tasks[i].rest[0]], w.tasks[i].frame, now).rec)
  {
    VisitOffersLast(w.recs[w.tasks[i].rest[0]], w.history, now);
  }

  /** The visited subscriber has then been considered for the whole history, and the others as before. */
  lemma VisitOffered(w: World, w': World, i: nat, r: Rec, k: nat)
    requires Locked(w) && Registered(w) && w.lock == Some(i) && MovedOn(w, w', i, r)
    requires k < |w.recs| && OfferedInOrder(w, k)
    ensures OfferedInOrder(w', k)
  {
    VisitedOnce(w, i);
    if k != w.tasks[i].rest[0] {
      assert Awaits(w', k) == Awaits(w, k);
      OfferedStays(w, w', k);
    }
  }

  lemma VisitKeepsLists(w: World, w': World, i: nat, r: Rec)
    requires Locked(w) && Registered(w) && Fit(w) && w.lock == Some(i) && MovedOn(w, w', i, r)
    ensures Locked(w') && Registered(w') && Fit(w')
  {
    VisitedOnce(w, i);
  }

  lemma VisitKeepsOrder(w: World, i: nat, now: nat)
    requires Orderly(w) && w.lock == Some(i) && w.tasks[i].rest != []
    ensures Orderly(VisitNext(w, i, now))
  {
    var w', t := VisitNext(w, i, now), w.tasks[i];
    VisitedOnce(w, i);
    VisitMovesOn(w, i, now);
    var r := Visited(w.recs[t.rest[0]], t.frame, now).rec;
    VisitRefines(w.recs[t.rest[0]], t.frame, now);
    VisitKeepsLists(w, w', i, r);
    forall k | 0 <= k < |w'.recs| ensures OfferedInOrder(w', k) {
      VisitOffered(w, w', i, r, k);
    }
  }

  lemma AdvanceKeepsOrder(w: World, i: nat, now: nat)
    requires Orderly(w) && Enabled(w, Go(i, now))
    ensures Orderly(Advance(w, i, now))
  {
    var w' := Advance(w, i, now);
    assert FitTask(w.tasks[i]);
    match w.tasks[i] {
      case Written(f) => BeginKeepsOrder(w, i, f);
      case Broadcasting(f, rest, n, m) =>
        if rest == [] {
          UnlockKeepsOrder(w, i, Unlocked(f, n, m));
        } else {
          VisitKeepsOrder(w, i, now);
        }
      case Subscribing(filters, sub) => RegisterKeepsOrder(w, i, Rec(filters, sub, |w.history|, None, [], [], []));
      case Closing => ShutKeepsOrder(w, i);
      case _ => OnlyTaskKeepsOrder(w, w', i);
    }
  }

  lemma StepKeepsOrder(w: World, a: Action)
    requires Orderly(w) && Enabled(w, a)
    ensures Orderly(Step(w, a))
  {
    match a {
      case Go(i, now) => AdvanceKeepsOrder(w, i, now);
      case Receive(k) =>
        PopRefines(w.recs[k]);
        OwnerKeepsOrder(w, k, Popped(w.recs[k]));
      case CloseReceiver(k) => OwnerKeepsOrder(w, k, w.recs[k].(sub := w.recs[k].sub.(closed := true)));
      case _ => OnlyTaskKeepsOrder(w, Step(w, a), a.task);
    }
  }

  lemma {:induction false} RunKeepsOrder(w: World, actions: seq<Action>, w': World)
    requires Orderly(w) && Run(w, actions, w')
    ensures Orderly(w')
    decreases |actions|
  {
    if actions != [] {
      StepKeepsOrder(w, actions[0]);
      RunKeepsOrder(Step(w, actions[0]), actions[1..], w');
    }
  }

  /** What subscriber `k` has of the frames that passed the bus while it was registered. */
  predicate Served(w: World, k: nat) {
    && k < |w.recs|
    && var r := w.recs[k];
       && r.since <= End(w, k) <= |w.history|
       && (forall f :: f in w.history ==> WellFormed(f))
       && var sent := Matching(r.filters, w.history[r.since..End(w, k)]);
          && Subsequence(r.received + r.sub.queue, sent)
          && (r.sub.policy.Block? && r.sub.rateLimit == 0 ==> r.received + r.sub.queue == sent)
          && (r.sub.policy.DropOldest? && r.sub.rateLimit == 0 ==> Suffix(r.sub.queue, sent))
          && (!r.sub.policy.Block? ==> |r.sub.queue| <= r.sub.capacity)
  }

  /** Main result. Whatever the tasks and the owners do and however their steps interleave: what a subscriber
      received, followed by what is queued for it, is in order and without repetition a part of the valid matching
      frames broadcast while it was registered; it is all of them under Block without a rate limit; under DropOldest
      without one the queue holds exactly the latest of them; the two dropping policies never exceed their capacity. */
  lemma EverySubscriberIsServed(tasks: nat, actions: seq<Action>, w: World, k: nat)
    requires Run(Start(tasks), actions, w) && k < |w.recs|
    ensures Served(w, k)
  {
    RunKeepsOrder(Start(tasks), actions, w);
    assert OfferedInOrder(w, k) && Refines(w.recs[k]);
    forall f | f in w.history ensures WellFormed(f) {
      ValidIff(f);
    }
  }
}
