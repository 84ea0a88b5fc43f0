/** Whole calls on the virtual bus, and what lasts from one to the next (src/virtual_bus/mod.rs): what a subscriber
    asked for is what it keeps, what each call does when it runs through, and what `close` leaves. */
module BusLifecycle {
  import opened Wrappers
  import opened Frames
  import opened Relay
  import opened SubQueue
  import opened Subscriber
  import opened VirtualBus
  import opened BusCounters

  // ---------------------------------------------------------------------------
  // What was asked for is kept
  // ---------------------------------------------------------------------------

  /** A queue as `subscribe` was asked for: 64 slots if no depth was given. */
  predicate AsAsked(filters: seq<Filter>, sub: Sub, a: Action) {
    && a.Subscribe? && a.filters == filters && a.policy == sub.policy && a.rateLimit == sub.rateLimit
    && sub.capacity == (if a.depth == 0 then 64 else a.depth)
  }

  ghost predicate Asked(filters: seq<Filter>, sub: Sub, actions: seq<Action>) {
    exists j :: 0 <= j < |actions| && AsAsked(filters, sub, actions[j])
  }

  ghost predicate AllAsked(w: World, actions: seq<Action>) {
    && (forall k :: 0 <= k < |w.recs| ==> Asked(w.recs[k].filters, w.recs[k].sub, actions))
    && (forall i :: 0 <= i < |w.tasks| && w.tasks[i].Subscribing? ==>
          Asked(w.tasks[i].filters, w.tasks[i].sub, actions))
  }

  /** Nothing but its contents, window and closing changes in a queue. */
  predicate SameOptions(a: Rec, b: Rec) {
    && b.filters == a.filters && b.sub.policy == a.sub.policy && b.sub.rateLimit == a.sub.rateLimit
    && b.sub.capacity == a.sub.capacity
  }

  lemma StepKeepsOptions(w: World, a: Action)
    requires Enabled(w, a)
    ensures |Step(w, a).recs| >= |w.recs|
    ensures forall k :: 0 <= k < |w.recs| ==> SameOptions(w.recs[k], Step(w, a).recs[k])
  {
  }

  lemma NewcomersAsAsked(w: World, a: Action)
    requires Enabled(w, a)
    ensures var w' := Step(w, a);
            && |w'.tasks| == |w.tasks|
            && (forall k :: |w.recs| <= k < |w'.recs| ==>
                  exists i :: 0 <= i < |w.tasks| && w.tasks[i].Subscribing?
                              && w'.recs[k].filters == w.tasks[i].filters && w'.recs[k].sub == w.tasks[i].sub)
            && (forall i :: 0 <= i < |w'.tasks| && w'.tasks[i].Subscribing? ==>
                  w'.tasks[i] == w.tasks[i] || AsAsked(w'.tasks[i].filters, w'.tasks[i].sub, a))
  {
  }

  lemma AskedLonger(filters: seq<Filter>, sub: Sub, before: seq<Action>, a: Action)
    requires Asked(filters, sub, before) || AsAsked(filters, sub, a)
    ensures Asked(filters, sub, before + [a])
  {
    if Asked(filters, sub, before) {
      var j :| 0 <= j < |before| && AsAsked(filters, sub, before[j]);
      assert AsAsked(filters, sub, (before + [a])[j]);
    } else {
      assert AsAsked(filters, sub, (before + [a])[|before|]);
    }
  }

  /** Only the options matter. */
  lemma AskedBySame(filters: seq<Filter>, sub: Sub, sub': Sub, actions: seq<Action>)
    requires Asked(filters, sub, actions)
    requires sub'.policy == sub.policy && sub'.rateLimit == sub.rateLimit && sub'.capacity == sub.capacity
    ensures Asked(filters, sub', actions)
  {
    var j :| 0 <= j < |actions| && AsAsked(filters, sub, actions[j]);
    assert AsAsked(filters, sub', actions[j]);
  }

  lemma StepKeepsAsked(w: World, before: seq<Action>, a: Action)
    requires AllAsked(w, before) && Enabled(w, a)
    ensures AllAsked(Step(w, a), before + [a])
  {
    var w' := Step(w, a);
    StepKeepsOptions(w, a);
    NewcomersAsAsked(w, a);
    forall k | 0 <= k < |w'.recs| ensures Asked(w'.recs[k].filters, w'.recs[k].sub, before + [a]) {
      if k < |w.recs| {
        AskedBySame(w.recs[k].filters, w.recs[k].sub, w'.recs[k].sub, before);
      }
      AskedLonger(w'.recs[k].filters, w'.recs[k].sub, before, a);
    }
    forall i | 0 <= i < |w'.tasks| && w'.tasks[i].Subscribing?
      ensures Asked(w'.tasks[i].filters, w'.tasks[i].sub, before + [a])
    {
      AskedLonger(w'.tasks[i].filters, w'.tasks[i].sub, before, a);
    }
  }

  lemma {:induction false} RunKeepsAsked(w: World, before: seq<Action>, actions: seq<Action>, w': World)
    requires AllAsked(w, before) && Run(w, actions, w')
    ensures AllAsked(w', before + actions)
    decreases |actions|
  {
    if actions == [] {
      assert before + actions == before;
    } else {
      StepKeepsAsked(w, before, actions[0]);
      RunKeepsAsked(Step(w, actions[0]), before + [actions[0]], actions[1..], w');
      assert before + [actions[0]] + actions[1..] == before + actions;
    }
  }

  /** Main result. In every reachable state each subscriber has the filters, the policy, the rate limit and the depth
      that some `subscribe` of the run asked for, and 64 slots if that asked for none. */
  lemma OptionsAreKept(tasks: nat, actions: seq<Action>, w: World, k: nat)
    requires Run(Start(tasks), actions, w) && k < |w.recs|
    ensures exists j :: 0 <= j < |actions| && AsAsked(w.recs[k].filters, w.recs[k].sub, actions[j])
  {
    RunKeepsAsked(Start(tasks), [], actions, w);
    assert [] + actions == actions;
    assert Asked(w.recs[k].filters, w.recs[k].sub, actions);
  }

  // ---------------------------------------------------------------------------
  // Removed means closed
  // ---------------------------------------------------------------------------

  /** A subscriber is taken off the list only when it is closed. */
  predicate RemovedAreClosed(w: World) {
    forall k :: 0 <= k < |w.recs| && w.recs[k].until.Some? ==> w.recs[k].sub.closed
  }

  lemma StepKeepsClosed(w: World, a: Action)
    requires Enabled(w, a)
    ensures forall k :: 0 <= k < |w.recs| && w.recs[k].sub.closed ==> Step(w, a).recs[k].sub.closed
    ensures forall k :: 0 <= k < |w.recs| && Step(w, a).recs[k].until.Some? ==>
              w.recs[k].until.Some? || Step(w, a).recs[k].sub.closed
    ensures forall k :: |w.recs| <= k < |Step(w, a).recs| ==> Step(w, a).recs[k].until.None?
  {
  }

  lemma {:induction false} RunKeepsClosed(w: World, actions: seq<Action>, w': World)
    requires RemovedAreClosed(w) && Run(w, actions, w')
    ensures RemovedAreClosed(w')
    decreases |actions|
  {
    if actions != [] {
      StepKeepsOptions(w, actions[0]);
      StepKeepsClosed(w, actions[0]);
      RunKeepsClosed(Step(w, actions[0]), actions[1..], w');
    }
  }

  /** Main result. When `close` has held the lock, every subscriber there has ever been is closed and none is
      registered. */
  lemma CloseClosesAll(tasks: nat, actions: seq<Action>, w: World, i: nat, now: nat)
    requires Run(Start(tasks), actions, w) && i < |w.tasks| && w.tasks[i].Closing? && w.lock == None
    ensures Enabled(w, Go(i, now))
    ensures var w' := Step(w, Go(i, now));
            && w'.subs == [] && |w'.recs| == |w.recs| && w'.tasks == w.tasks[i := Idle]
            && forall k :: 0 <= k < |w'.recs| ==> w'.recs[k].sub.closed
  {
    RunKeepsClosed(Start(tasks), actions, w);
  }

  // ---------------------------------------------------------------------------
  // A closed bus
  // ---------------------------------------------------------------------------

  /** Sends past the check of the flag, and subscriptions past theirs. */
  function Sending(t: Task): nat { if t.Checked? || t.Sized? || t.Written? then 1 else 0 }

  function Joining(t: Task): nat { if t.Subscribing? then 1 else 0 }

  /** On a closed bus only calls under way take steps that matter. */
  lemma ClosedStep(w: World, a: Action)
    requires w.closed && Enabled(w, a)
    ensures var w' := Step(w, a);
            && w'.closed
            && if a.Go? then
                 var t, t' := w.tasks[a.task], w'.tasks[a.task];
                 && w'.tasks == w.tasks[a.task := t']
                 && |w'.history| + Sending(t') <= |w.history| + Sending(t)
                 && |w'.recs| + Joining(t') <= |w.recs| + Joining(t)
               else w'.tasks == w.tasks && w'.history == w.history && |w'.recs| == |w.recs|
  {
  }

  /** Main result. A closed bus stays closed, and from then on at most those sends are broadcast, and those
      subscriptions registered, that were past the check of the flag: calls made later do nothing. */
  lemma {:induction false} ClosedBusIsQuiet(w: World, actions: seq<Action>, w': World)
    requires w.closed && Run(w, actions, w')
    ensures w'.closed
    ensures |w'.history| + Sum(Sending, w'.tasks) <= |w.history| + Sum(Sending, w.tasks)
    ensures |w'.recs| + Sum(Joining, w'.tasks) <= |w.recs| + Sum(Joining, w.tasks)
    decreases |actions|
  {
    if actions != [] {
      var a := actions[0];
      ClosedStep(w, a);
      ClosedBusIsQuiet(Step(w, a), actions[1..], w');
      if a.Go? {
        var t' := Step(w, a).tasks[a.task];
        SumUpdate(Sending, w.tasks, a.task, t');
        SumUpdate(Joining, w.tasks, a.task, t');
      }
    }
  }

  // ---------------------------------------------------------------------------
  // Calls that run through
  // ---------------------------------------------------------------------------

  lemma RunCons(w: World, a: Action, actions: seq<Action>, w': World)
    requires Enabled(w, a) && Run(Step(w, a), actions, w')
    ensures Run(w, [a] + actions, w')
  {
    assert ([a] + actions)[1..] == actions;
  }

  /** A call of `subscribe` on an open bus, beside which nothing happens. */
  lemma SubscribeRuns(w: World, i: nat, filters: seq<Filter>, depth: nat, policy: Policy, rateLimit: nat, now: nat)
    requires i < |w.tasks| && w.tasks[i].Idle? && w.lock == None
    ensures var ask := Subscribe(i, filters, depth, policy, rateLimit, now);
            var sub := Sub([], if depth == 0 then 64 else depth, policy, rateLimit, Window(now, 0), false);
            if w.closed then Run(w, [ask], w)
            else Run(w, [ask, Go(i, now)], w.(
              recs := w.recs + [Rec(filters, sub, |w.history|, None, [], [], [])], subs := w.subs + [|w.recs|]))
  {
    var ask := Subscribe(i, filters, depth, policy, rateLimit, now);
    if !w.closed {
      var mid := Step(w, ask);
      var end := Step(mid, Go(i, now));
      assert end.tasks == w.tasks;
      assert [ask, Go(i, now)][1..] == [Go(i, now)] && [Go(i, now)][1..] == [];
      assert Run(mid, [Go(i, now)], end);
    }
  }

  /** What is left of a send once it has been counted: no choice remains. */
  lemma {:induction false} BroadcastRuns(w: World, i: nat)
    returns (actions: seq<Action>, w': World)
    requires Orderly(w) && w.lock == Some(i) && i < |w.tasks| && w.tasks[i].Broadcasting?
    ensures Run(w, actions, w') && w'.tasks == w.tasks[i := Idle] && w'.lock == None && w'.closed == w.closed
    ensures w'.history == w.history && w'.subs == w.subs
    ensures w'.counters.begun == w.counters.begun && w'.counters.errors == w.counters.errors
    ensures w'.counters.writes == w.counters.writes && w'.counters.bytesWritten == w.counters.bytesWritten
    decreases |w.tasks[i].rest|
  {
    var step := Go(i, 0);
    var v := Step(w, step);
    if w.tasks[i].rest != [] {
      VisitedOnce(w, i);
      StepKeepsOrder(w, step);
      actions, w' := BroadcastRuns(v, i);
    } else {
      actions, w' := CountingRuns(v, i);
    }
    RunCons(w, step, actions, w');
    actions := [step] + actions;
  }

  /** The three counters after the broadcast. */
  lemma CountingRuns(w: World, i: nat) returns (actions: seq<Action>, w': World)
    requires i < |w.tasks| && w.tasks[i].Unlocked?
    ensures Run(w, actions, w') && w'.tasks == w.tasks[i := Idle] && w'.lock == w.lock && w'.closed == w.closed
    ensures w'.history == w.history && w'.subs == w.subs
    ensures w'.counters.begun == w.counters.begun && w'.counters.errors == w.counters.errors
    ensures w'.counters.writes == w.counters.writes && w'.counters.bytesWritten == w.counters.bytesWritten
  {
    var step := Go(i, 0);
    var a := Step(w, step);
    var b := Step(a, step);
    w' := Step(b, step);
    assert Run(w', [], w');
    RunCons(b, step, [], w');
    RunCons(a, step, [step] + [], w');
    RunCons(w, step, [step] + ([step] + []), w');
    actions := [step] + ([step] + ([step] + []));
    assert w'.tasks == w.tasks[i := Idle];
  }

  /** What a send that has counted itself still does. */
  lemma WrittenRuns(w: World, i: nat, f: Frame) returns (actions: seq<Action>, w': World)
    requires Orderly(w) && i < |w.tasks| && w.tasks[i] == Written(f) && w.lock == None
    ensures Run(w, actions, w') && w'.tasks == w.tasks[i := Idle] && w'.lock == None && w'.closed == w.closed
    ensures w'.history == w.history + [f] && w'.subs == Live(w.subs, w.recs)
    ensures w'.counters.begun == w.counters.begun && w'.counters.errors == w.counters.errors
    ensures w'.counters.writes == w.counters.writes && w'.counters.bytesWritten == w.counters.bytesWritten
  {
    var v := BeginBroadcast(w, i, f);
    assert Step(w, Go(i, 0)) == v;
    StepKeepsOrder(w, Go(i, 0));
    actions, w' := BroadcastRuns(v, i);
    RunCons(w, Go(i, 0), actions, w');
    actions := [Go(i, 0)] + actions;
  }

  lemma SizedRuns(w: World, i: nat, f: Frame) returns (actions: seq<Action>, w': World)
    requires Orderly(w) && i < |w.tasks| && w.tasks[i] == Sized(f) && w.lock == None
    ensures Run(w, actions, w') && w'.tasks == w.tasks[i := Idle] && w'.lock == None && w'.closed == w.closed
    ensures w'.history == w.history + [f] && w'.subs == Live(w.subs, w.recs)
    ensures w'.counters.begun == w.counters.begun && w'.counters.errors == w.counters.errors
    ensures w'.counters.writes == w.counters.writes + 1 && w'.counters.bytesWritten == w.counters.bytesWritten
  {
    var v := With(w.(counters := w.counters.(writes := w.counters.writes + 1)), i, Written(f));
    assert Step(w, Go(i, 0)) == v;
    StepKeepsOrder(w, Go(i, 0));
    actions, w' := WrittenRuns(v, i, f);
    RunCons(w, Go(i, 0), actions, w');
    actions := [Go(i, 0)] + actions;
  }

  /** From the check of the flag on. */
  lemma ValidSendRuns(w: World, i: nat, f: Frame) returns (actions: seq<Action>, w': World)
    requires Orderly(w) && i < |w.tasks| && w.tasks[i] == Checked(f) && w.lock == None && WellFormed(f)
    ensures Run(w, actions, w') && w'.tasks == w.tasks[i := Idle] && w'.lock == None && w'.closed == w.closed
    ensures w'.history == w.history + [f] && w'.subs == Live(w.subs, w.recs)
    ensures w'.counters.begun == w.counters.begun && w'.counters.errors == w.counters.errors
    ensures w'.counters.writes == w.counters.writes + 1
    ensures w'.counters.bytesWritten == w.counters.bytesWritten + |f.data|
  {
    ValidIff(f);
    var v := With(w.(counters := w.counters.(bytesWritten := w.counters.bytesWritten + |f.data|)), i, Sized(f));
    assert Step(w, Go(i, 0)) == v;
    StepKeepsOrder(w, Go(i, 0));
    actions, w' := SizedRuns(v, i, f);
    RunCons(w, Go(i, 0), actions, w');
    actions := [Go(i, 0)] + actions;
  }

  /** Main result. A call of `send`, beside which nothing happens, runs through: on an open bus a well-formed frame is
      broadcast to the open subscribers; a closed bus, or any other frame, costs an error and changes nothing else. */
  lemma SendRuns(w: World, i: nat, f: Frame) returns (actions: seq<Action>, w': World)
    requires Orderly(w) && i < |w.tasks| && w.tasks[i].Idle? && w.lock == None
    ensures Run(w, [Send(i, f)] + actions, w') && w'.tasks == w.tasks && w'.lock == None && w'.closed == w.closed
    ensures w'.counters.begun == w.counters.begun + 1
    ensures if !w.closed && WellFormed(f) then
              && w'.history == w.history + [f] && w'.subs == Live(w.subs, w.recs)
              && w'.counters.errors == w.counters.errors && w'.counters.writes == w.counters.writes + 1
              && w'.counters.bytesWritten == w.counters.bytesWritten + |f.data|
            else w' == w.(counters := w'.counters) && w'.counters.errors == w.counters.errors + 1
  {
    var call := Send(i, f);
    var v := Step(w, call);
    StepKeepsOrder(w, call);
    if w.closed {
      actions, w' := [], v;
    } else if WellFormed(f) {
      actions, w' := ValidSendRuns(v, i, f);
    } else {
      ValidIff(f);
      w' := Step(v, Go(i, 0));
      RunCons(v, Go(i, 0), [], w');
      actions := [Go(i, 0)] + [];
      assert w'.tasks == w.tasks;
    }
    RunCons(w, call, actions, w');
  }

  /** A call of `close`, beside which nothing happens; the second one does nothing. */
  lemma CloseRuns(w: World, i: nat) returns (actions: seq<Action>, w': World)
    requires Orderly(w) && RemovedAreClosed(w) && i < |w.tasks| && w.tasks[i].Idle? && w.lock == None
    ensures Run(w, [CloseBus(i)] + actions, w') && w'.closed && w'.tasks == w.tasks && w'.lock == None
    ensures w'.history == w.history && w'.counters == w.counters && (w.closed ==> w' == w)
    ensures !w.closed ==> w'.subs == [] && |w'.recs| == |w.recs|
                          && forall k :: 0 <= k < |w'.recs| ==> w'.recs[k].sub.closed
  {
    var call := CloseBus(i);
    var v := Step(w, call);
    if w.closed {
      actions, w' := [], v;
    } else {
      w' := Step(v, Go(i, 0));
      RunCons(v, Go(i, 0), [], w');
      actions := [Go(i, 0)] + [];
      assert w'.tasks == w.tasks;
    }
    RunCons(w, call, actions, w');
  }

  /** A receiver that closes its queue keeps what is queued, and from then on, in every run, no broadcast that begins
      offers it a frame. */
  lemma ClosedReceiverLeaves(w: World, k: nat, actions: seq<Action>, w': World, i: nat, f: Frame)
    requires Orderly(w) && k < |w.recs| && Run(Step(w, CloseReceiver(k)), actions, w')
    requires i < |w'.tasks| && w'.tasks[i] == Written(f)
    ensures Step(w, CloseReceiver(k)).recs[k].sub.queue == w.recs[k].sub.queue
    ensures k < |w'.recs| && w'.recs[k].sub.closed && k !in BeginBroadcast(w', i, f).subs
  {
    var v := Step(w, CloseReceiver(k));
    StepKeepsOrder(w, CloseReceiver(k));
    StaysClosed(v, actions, w', k);
    RunKeepsOrder(v, actions, w');
    LiveOnes(w'.subs, w'.recs);
  }

  lemma {:induction false} StaysClosed(w: World, actions: seq<Action>, w': World, k: nat)
    requires Run(w, actions, w') && k < |w.recs| && w.recs[k].sub.closed
    ensures k < |w'.recs| && w'.recs[k].sub.closed
    decreases |actions|
  {
    if actions != [] {
      StepKeepsOptions(w, actions[0]);
      StepKeepsClosed(w, actions[0]);
      StaysClosed(Step(w, actions[0]), actions[1..], w', k);
    }
  }
}
