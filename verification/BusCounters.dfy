/** The virtual bus counters: what they add up to in every reachable state (src/virtual_bus/mod.rs). */
module BusCounters {
  import opened Wrappers
  import opened Frames
  import opened Subscriber
  import opened VirtualBus

  function Sum<T>(f: T -> nat, s: seq<T>): nat
    decreases |s|
  {
    if s == [] then 0 else Sum(f, s[..|s| - 1]) + f(s[|s| - 1])
  }

  lemma {:induction false} SumUpdate<T>(f: T -> nat, s: seq<T>, i: nat, x: T)
    requires i < |s|
    ensures Sum(f, s[i := x]) + f(s[i]) == Sum(f, s) + f(x)
    decreases |s|
  {
    var last, s' := |s| - 1, s[i := x];
    if i == last {
      assert s'[..last] == s[..last];
    } else {
      assert s'[..last] == s[..last][i := x];
      SumUpdate(f, s[..last], i, x);
    }
  }

  lemma SumAppend<T>(f: T -> nat, s: seq<T>, x: T)
    ensures Sum(f, s + [x]) == Sum(f, s) + f(x)
  {
    assert (s + [x])[..|s|] == s;
  }

  lemma {:induction false} SumSame<T>(f: T -> nat, s: seq<T>, s': seq<T>)
    requires |s| == |s'| && forall i :: 0 <= i < |s| ==> f(s[i]) == f(s'[i])
    ensures Sum(f, s) == Sum(f, s')
    decreases |s|
  {
    if s != [] {
      SumSame(f, s[..|s| - 1], s'[..|s| - 1]);
    }
  }

  lemma {:induction false} SumZero<T>(f: T -> nat, s: seq<T>)
    requires forall i :: 0 <= i < |s| ==> f(s[i]) == 0
    ensures Sum(f, s) == 0
    decreases |s|
  {
    if s != [] {
      SumZero(f, s[..|s| - 1]);
    }
  }

  // What each task has done but not yet counted, or counted but not yet done.

  function OwedDelivered(t: Task): nat { if t.Broadcasting? || t.Unlocked? then t.delivered else 0 }

  function OwedOffers(t: Task): nat {
    if t.Broadcasting? || t.Unlocked? then t.delivered + t.dropped else if t.Delivered? then t.dropped else 0
  }

  function OwedBytes(t: Task): nat {
    if t.Broadcasting? || t.Unlocked? || t.Delivered? || t.Dropped? then |t.frame.data| * t.delivered else 0
  }

  /** Sends between the open check and the lock, those counted in bytes_written, and those counted in write_count. */
  function Early(t: Task): nat { if t.Checked? || t.Sized? || t.Written? then 1 else 0 }

  function EarlyBytes(t: Task): nat { if t.Sized? || t.Written? then |t.frame.data| else 0 }

  function Waiting(t: Task): nat { if t.Written? then 1 else 0 }

  predicate DeliveriesAddUp(w: World) {
    && w.counters.delivers + Sum(OwedDelivered, w.tasks) == Sum(Accepted, w.recs)
    && w.counters.delivers + w.counters.drops + Sum(OwedOffers, w.tasks) == Sum(Offers, w.recs)
    && w.counters.bytesDelivered + Sum(OwedBytes, w.tasks) == Sum(AcceptedBytes, w.recs)
  }

  predicate SendsAddUp(w: World) {
    && w.counters.begun == w.counters.errors + |w.history| + Sum(Early, w.tasks)
    && w.counters.writes == |w.history| + Sum(Waiting, w.tasks)
    && w.counters.bytesWritten == Bytes(w.history) + Sum(EarlyBytes, w.tasks)
  }

  // ---------------------------------------------------------------------------
  // Sends
  // ---------------------------------------------------------------------------

  /** One task moves on; the counters account for the difference. */
  lemma TaskMovesSends(w: World, w': World, i: nat, t: Task)
    requires SendsAddUp(w) && i < |w.tasks| && w'.tasks == w.tasks[i := t]
    requires w'.counters.begun + w.counters.errors + |w.history| + Early(w.tasks[i])
             == w.counters.begun + w'.counters.errors + |w'.history| + Early(t)
    requires w'.counters.writes + |w.history| + Waiting(w.tasks[i]) == w.counters.writes + |w'.history| + Waiting(t)
    requires w'.counters.bytesWritten + Bytes(w.history) + EarlyBytes(w.tasks[i])
             == w.counters.bytesWritten + Bytes(w'.history) + EarlyBytes(t)
    ensures SendsAddUp(w')
  {
    SumUpdate(Early, w.tasks, i, t);
    SumUpdate(Waiting, w.tasks, i, t);
    SumUpdate(EarlyBytes, w.tasks, i, t);
  }

  lemma AdvanceKeepsSends(w: World, i: nat, now: nat)
    requires SendsAddUp(w) && Enabled(w, Go(i, now))
    ensures SendsAddUp(Advance(w, i, now))
  {
    var w' := Advance(w, i, now);
    match w.tasks[i] {
      case Checked(f) => TaskMovesSends(w, w', i, if Valid(f) then Sized(f) else Idle);
      case Sized(f) => TaskMovesSends(w, w', i, Written(f));
      case Written(f) =>
        BytesAppend(w.history, f);
        TaskMovesSends(w, w', i, w'.tasks[i]);
      case Broadcasting(_, rest, _, _) =>
        if rest == [] || rest[0] < |w.recs| {
          TaskMovesSends(w, w', i, w'.tasks[i]);
        }
      case Idle =>
      case _ => LaterSteps(w, i, now);
    }
  }

  lemma LaterSteps(w: World, i: nat, now: nat)
    requires SendsAddUp(w) && Enabled(w, Go(i, now))
    requires var t := w.tasks[i]; t.Unlocked? || t.Delivered? || t.Dropped? || t.Subscribing? || t.Closing?
    ensures SendsAddUp(Advance(w, i, now))
  {
    TaskMovesSends(w, Advance(w, i, now), i, Advance(w, i, now).tasks[i]);
  }

  lemma StepKeepsSends(w: World, a: Action)
    requires SendsAddUp(w) && Enabled(w, a)
    ensures SendsAddUp(Step(w, a))
  {
    match a {
      case Go(i, now) => AdvanceKeepsSends(w, i, now);
      case Send(i, f) =>
        if !w.closed {
          TaskMovesSends(w, Step(w, a), i, Checked(f));
        }
      case Subscribe(i, _, _, _, _, _) =>
        if !w.closed {
          TaskMovesSends(w, Step(w, a), i, Step(w, a).tasks[i]);
        }
      case CloseBus(i) =>
        if !w.closed {
          TaskMovesSends(w, Step(w, a), i, Closing);
        }
      case _ =>
    }
  }

  // ---------------------------------------------------------------------------
  // Deliveries
  // ---------------------------------------------------------------------------

  lemma TaskMoves(w: World, w': World, i: nat, t: Task)
    requires DeliveriesAddUp(w) && i < |w.tasks| && w'.tasks == w.tasks[i := t] && w'.recs == w.recs
    requires w'.counters.delivers + OwedDelivered(t) == w.counters.delivers + OwedDelivered(w.tasks[i])
    requires w'.counters.delivers + w'.counters.drops + OwedOffers(t)
             == w.counters.delivers + w.counters.drops + OwedOffers(w.tasks[i])
    requires w'.counters.bytesDelivered + OwedBytes(t) == w.counters.bytesDelivered + OwedBytes(w.tasks[i])
    ensures DeliveriesAddUp(w')
  {
    SumUpdate(OwedDelivered, w.tasks, i, t);
    SumUpdate(OwedOffers, w.tasks, i, t);
    SumUpdate(OwedBytes, w.tasks, i, t);
  }

  predicate SameTotals(r: Rec, r': Rec) {
    Accepted(r') == Accepted(r) && Offers(r') == Offers(r) && AcceptedBytes(r') == AcceptedBytes(r)
  }

  lemma RecsKeepTotals(w: World, recs: seq<Rec>)
    requires DeliveriesAddUp(w) && |recs| == |w.recs|
    requires forall k :: 0 <= k < |recs| ==> SameTotals(w.recs[k], recs[k])
    ensures DeliveriesAddUp(w.(recs := recs))
  {
    SumSame(Accepted, w.recs, recs);
    SumSame(Offers, w.recs, recs);
    SumSame(AcceptedBytes, w.recs, recs);
  }

  lemma NewRecAddsNothing(w: World, r: Rec)
    requires DeliveriesAddUp(w) && Accepted(r) == 0 && Offers(r) == 0 && AcceptedBytes(r) == 0
    ensures DeliveriesAddUp(w.(recs := w.recs + [r]))
  {
    SumAppend(Accepted, w.recs, r);
    SumAppend(Offers, w.recs, r);
    SumAppend(AcceptedBytes, w.recs, r);
  }

  lemma MoreBytes(length: nat, n: nat, d: nat)
    ensures length * (n + d) == length * n + length * d
  {
  }

  /** A subscriber's total and a task's debt grow by the same amount. */
  lemma BothGrow(f: Rec -> nat, g: Task -> nat, recs: seq<Rec>, k: nat, r: Rec, tasks: seq<Task>, i: nat, t: Task)
    requires k < |recs| && i < |tasks| && f(r) + g(tasks[i]) == f(recs[k]) + g(t)
    ensures Sum(f, recs[k := r]) + Sum(g, tasks) == Sum(f, recs) + Sum(g, tasks[i := t])
  {
    SumUpdate(f, recs, k, r);
    SumUpdate(g, tasks, i, t);
  }

  lemma VisitSums(w: World, i: nat, t: Task, k: nat, r: Rec)
    requires DeliveriesAddUp(w) && i < |w.tasks| && k < |w.recs|
    requires Accepted(r) + OwedDelivered(w.tasks[i]) == Accepted(w.recs[k]) + OwedDelivered(t)
    requires Offers(r) + OwedOffers(w.tasks[i]) == Offers(w.recs[k]) + OwedOffers(t)
    requires AcceptedBytes(r) + OwedBytes(w.tasks[i]) == AcceptedBytes(w.recs[k]) + OwedBytes(t)
    ensures DeliveriesAddUp(With(w.(recs := w.recs[k := r]), i, t))
  {
    BothGrow(Accepted, OwedDelivered, w.recs, k, r, w.tasks, i, t);
    BothGrow(Offers, OwedOffers, w.recs, k, r, w.tasks, i, t);
    BothGrow(AcceptedBytes, OwedBytes, w.recs, k, r, w.tasks, i, t);
  }

  /** The sender's debt after a visit. */
  function NextDebt(t: Task, v: Visit): Task
    requires t.Broadcasting? && t.rest != []
  {
    Broadcasting(t.frame, t.rest[1..], t.delivered + v.delivered, t.dropped + v.dropped)
  }

  lemma VisitGrows(r: Rec, t: Task, now: nat)
    requires t.Broadcasting? && t.rest != []
    ensures var v := Visited(r, t.frame, now);
            var t' := NextDebt(t, v);
            && Accepted(v.rec) + OwedDelivered(t) == Accepted(r) + OwedDelivered(t')
            && Offers(v.rec) + OwedOffers(t) == Offers(r) + OwedOffers(t')
            && AcceptedBytes(v.rec) + OwedBytes(t) == AcceptedBytes(r) + OwedBytes(t')
  {
    VisitCounts(r, t.frame, now);
    MoreBytes(|t.frame.data|, t.delivered, Visited(r, t.frame, now).delivered);
  }

  lemma VisitNextIs(w: World, i: nat, t: Task, v: Visit, now: nat)
    requires i < |w.tasks| && w.tasks[i] == t && t.Broadcasting? && t.rest != [] && t.rest[0] < |w.recs|
    requires v == Visited(w.recs[t.rest[0]], t.frame, now)
    ensures VisitNext(w, i, now) == With(w.(recs := w.recs[t.rest[0] := v.rec]), i, NextDebt(t, v))
  {
  }

  lemma VisitKeepsTotals(w: World, i: nat, t: Task, now: nat)
    requires DeliveriesAddUp(w) && i < |w.tasks| && w.tasks[i] == t && t.Broadcasting? && t.rest != []
    ensures DeliveriesAddUp(VisitNext(w, i, now))
  {
    var k := t.rest[0];
    if k < |w.recs| {
      var v := Visited(w.recs[k], t.frame, now);
      VisitGrows(w.recs[k], t, now);
      VisitSums(w, i, NextDebt(t, v), k, v.rec);
      VisitNextIs(w, i, t, v, now);
    }
  }

  lemma BeginKeepsTotals(w: World, i: nat, f: Frame)
    requires DeliveriesAddUp(w) && i < |w.tasks| && w.tasks[i] == Written(f)
    ensures DeliveriesAddUp(BeginBroadcast(w, i, f))
  {
    var w', recs := BeginBroadcast(w, i, f), Removed(w.recs, |w.history|);
    RecsKeepTotals(w, recs);
    TaskMoves(w.(recs := recs), w', i, w'.tasks[i]);
  }

  lemma ShutKeepsTotals(w: World, i: nat)
    requires DeliveriesAddUp(w) && i < |w.tasks| && w.tasks[i].Closing?
    ensures DeliveriesAddUp(With(w.(recs := Shut(w.recs, |w.history|), subs := []), i, Idle))
  {
    var recs := Shut(w.recs, |w.history|);
    RecsKeepTotals(w, recs);
    TaskMoves(w.(recs := recs), With(w.(recs := recs, subs := []), i, Idle), i, Idle);
  }

  lemma RegisterKeepsTotals(w: World, i: nat, r: Rec)
    requires DeliveriesAddUp(w) && i < |w.tasks| && w.tasks[i].Subscribing?
    requires Accepted(r) == 0 && Offers(r) == 0 && AcceptedBytes(r) == 0
    ensures DeliveriesAddUp(With(w.(recs := w.recs + [r], subs := w.subs + [|w.recs|]), i, Idle))
  {
    var w1 := w.(recs := w.recs + [r]);
    NewRecAddsNothing(w, r);
    TaskMoves(w1, With(w1.(subs := w.subs + [|w.recs|]), i, Idle), i, Idle);
  }

  lemma CountKeepsTotals(w: World, i: nat, now: nat)
    requires DeliveriesAddUp(w) && Enabled(w, Go(i, now))
    requires !w.tasks[i].Written? && !w.tasks[i].Closing? && !w.tasks[i].Subscribing?
    requires !(w.tasks[i].Broadcasting? && w.tasks[i].rest != [])
    ensures DeliveriesAddUp(Advance(w, i, now))
  {
    var w' := Advance(w, i, now);
    match w.tasks[i] {
      case Broadcasting(f, _, n, m) => TaskMoves(w, w', i, Unlocked(f, n, m));
      case Unlocked(f, n, m) => TaskMoves(w, w', i, Delivered(f, n, m));
      case Delivered(f, n, _) => TaskMoves(w, w', i, Dropped(f, n));
      case Dropped(_, _) => TaskMoves(w, w', i, Idle);
      case Checked(_) => EarlySteps(w, i, now);
      case Sized(_) => EarlySteps(w, i, now);
      case _ =>
    }
  }

  lemma EarlySteps(w: World, i: nat, now: nat)
    requires DeliveriesAddUp(w) && Enabled(w, Go(i, now)) && (w.tasks[i].Checked? || w.tasks[i].Sized?)
    ensures DeliveriesAddUp(Advance(w, i, now))
  {
    var w' := Advance(w, i, now);
    if w.tasks[i].Checked? {
      TaskMoves(w, w', i, w'.tasks[i]);
    } else {
      TaskMoves(w, w', i, Written(w.tasks[i].frame));
    }
  }

  lemma AdvanceKeepsDeliveries(w: World, i: nat, now: nat)
    requires DeliveriesAddUp(w) && Fit(w) && Enabled(w, Go(i, now))
    ensures DeliveriesAddUp(Advance(w, i, now))
  {
    assert FitTask(w.tasks[i]);
    var t := w.tasks[i];
    if t.Broadcasting? && t.rest != [] {
      VisitKeepsTotals(w, i, t, now);
    } else if t.Written? {
      BeginKeepsTotals(w, i, t.frame);
    } else if t.Closing? {
      ShutKeepsTotals(w, i);
    } else if t.Subscribing? {
      RegisterKeepsTotals(w, i, Rec(t.filters, t.sub, |w.history|, None, [], [], []));
    } else {
      CountKeepsTotals(w, i, now);
    }
  }

  lemma OwnerKeepsDeliveries(w: World, k: nat, r: Rec)
    requires DeliveriesAddUp(w) && k < |w.recs| && SameTotals(w.recs[k], r)
    ensures DeliveriesAddUp(w.(recs := w.recs[k := r]))
  {
    RecsKeepTotals(w, w.recs[k := r]);
  }

  lemma StepKeepsDeliveries(w: World, a: Action)
    requires DeliveriesAddUp(w) && Fit(w) && Enabled(w, a)
    ensures DeliveriesAddUp(Step(w, a))
  {
    match a {
      case Go(i, now) => AdvanceKeepsDeliveries(w, i, now);
      case Receive(k) =>
        PopCounts(w.recs[k]);
        OwnerKeepsDeliveries(w, k, Popped(w.recs[k]));
      case CloseReceiver(k) => OwnerKeepsDeliveries(w, k, w.recs[k].(sub := w.recs[k].sub.(closed := true)));
      case _ =>
        if !w.closed {
          TaskMoves(w, Step(w, a), a.task, Step(w, a).tasks[a.task]);
        }
    }
  }

  lemma {:induction false} RunKeepsTotals(w: World, actions: seq<Action>, w': World)
    requires Orderly(w) && DeliveriesAddUp(w) && SendsAddUp(w) && Run(w, actions, w')
    ensures DeliveriesAddUp(w') && SendsAddUp(w')
    decreases |actions|
  {
    if actions != [] {
      StepKeepsOrder(w, actions[0]);
      StepKeepsDeliveries(w, actions[0]);
      StepKeepsSends(w, actions[0]);
      RunKeepsTotals(Step(w, actions[0]), actions[1..], w');
    }
  }

  /** Main result. In every reachable state, with what the sends under way still owe: deliver_count is what all
      subscribers ever registered received, still queue or had evicted; deliver_count + drop_count is the number of
      matching offers; bytes_delivered weighs the first by payload; and every send begun is an error, a broadcast or
      still before the lock. */
  lemma CountersAddUp(tasks: nat, actions: seq<Action>, w: World)
    requires Run(Start(tasks), actions, w)
    ensures DeliveriesAddUp(w) && SendsAddUp(w)
  {
    var w0 := Start(tasks);
    SumZero(OwedDelivered, w0.tasks);
    SumZero(OwedOffers, w0.tasks);
    SumZero(OwedBytes, w0.tasks);
    SumZero(Early, w0.tasks);
    SumZero(Waiting, w0.tasks);
    SumZero(EarlyBytes, w0.tasks);
    RunKeepsTotals(w0, actions, w);
  }

  /** The frames all subscribers should have been offered, counted from the history alone. */
  function DueFrom(w: World, n: nat): nat
    requires n <= |w.recs| && forall k :: 0 <= k < |w.recs| ==> OfferedInOrder(w, k)
  {
    if n == 0 then 0
    else
      var r := w.recs[n - 1];
      assert OfferedInOrder(w, n - 1);
      DueFrom(w, n - 1) + |Matching(r.filters, w.history[r.since..End(w, n - 1)])|
  }

  lemma {:induction false} DueIsOffered(w: World, n: nat)
    requires n <= |w.recs| && forall k :: 0 <= k < |w.recs| ==> OfferedInOrder(w, k)
    ensures DueFrom(w, n) == Sum(Offers, w.recs[..n])
    decreases n
  {
    if n > 0 {
      DueIsOffered(w, n - 1);
      assert w.recs[..n][..n - 1] == w.recs[..n - 1];
      assert OfferedInOrder(w, n - 1);
    }
  }

  lemma NothingOwed(tasks: seq<Task>)
    requires forall i :: 0 <= i < |tasks| ==> tasks[i].Idle?
    ensures Sum(OwedDelivered, tasks) == Sum(OwedOffers, tasks) == Sum(OwedBytes, tasks) == 0
    ensures Sum(Early, tasks) == Sum(Waiting, tasks) == Sum(EarlyBytes, tasks) == 0
  {
    SumZero(OwedDelivered, tasks);
    SumZero(OwedOffers, tasks);
    SumZero(OwedBytes, tasks);
    SumZero(Early, tasks);
    SumZero(Waiting, tasks);
    SumZero(EarlyBytes, tasks);
  }

  /** Main result. Once no send is under way the counters are exact: each broadcast is counted once for every
      subscriber registered at the time whose filters it passes, either as delivered or as dropped. */
  lemma CountersWhenIdle(tasks: nat, actions: seq<Action>, w: World)
    requires Run(Start(tasks), actions, w) && forall i :: 0 <= i < |w.tasks| ==> w.tasks[i].Idle?
    ensures forall k :: 0 <= k < |w.recs| ==> OfferedInOrder(w, k)
    ensures w.counters.delivers == Sum(Accepted, w.recs)
    ensures w.counters.delivers + w.counters.drops == DueFrom(w, |w.recs|)
    ensures w.counters.bytesDelivered == Sum(AcceptedBytes, w.recs)
    ensures w.counters.writes == |w.history| && w.counters.bytesWritten == Bytes(w.history)
    ensures w.counters.begun == w.counters.writes + w.counters.errors
  {
    CountersAddUp(tasks, actions, w);
    RunKeepsOrder(Start(tasks), actions, w);
    NothingOwed(w.tasks);
    DueIsOffered(w, |w.recs|);
    assert w.recs[..|w.recs|] == w.recs;
  }
}
