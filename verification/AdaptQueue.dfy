/** The adapter pipeline (src/adapt.rs): a producer task numbers the frames of a bus subscription and pushes them
    into an `AdaptQueue`; a forwarder task pops them and hands them to the caller.

    A step is one locked section, one atomic access or one operation on a `Notify`; between two steps the other task
    may run. `notify_one` wakes a parked waiter or else stores a single permit; `notify_waiters` only wakes. */
module AdaptQueue {
  import opened Wrappers
  import opened Relay

  datatype Message<T> = Message(num: nat, frame: T)

  // ---------------------------------------------------------------------------
  // The queue's locked sections
  // ---------------------------------------------------------------------------

  /** What `push` does while it holds the lock. */
  datatype Offer<T> = Stored(queue: seq<Message<T>>, evicted: seq<Message<T>>) | Discarded | MustWait

  function Offered<T>(policy: Policy, capacity: nat, queue: seq<Message<T>>, msg: Message<T>): Offer<T> {
    if |queue| < capacity then Stored(queue + [msg], [])
    else
      match policy
      case DropNewest => Discarded
      case DropOldest => if queue == [] then Stored([msg], []) else Stored(queue[1..] + [msg], queue[..1])
      case Block => MustWait
  }

  function Min(a: nat, b: nat): nat { if a <= b then a else b }

  class Queue<T> {
    var items: seq<Message<T>>
    const capacity: nat
    const policy: Policy

    /** What the constructor establishes and every operation keeps. */
    predicate Valid()
      reads this
    {
      |items| <= capacity && capacity >= 1
    }

    constructor (capacity: nat, policy: Policy)
      ensures Valid() && items == [] && this.policy == policy && this.capacity == if capacity == 0 then 1 else capacity
    {
      items := [];
      this.capacity := if capacity >= 1 then capacity else 1;
      this.policy := policy;
    }

    /** One attempt of `push`; the answer says whether to notify, to go on, or to wait for room. DropOldest keeps the
        last messages there is room for, DropNewest the first; Block takes the message or leaves the queue alone. */
    method TryPush(msg: Message<T>) returns (offer: Offer<T>)
      modifies this
      ensures offer == Offered(policy, capacity, old(items), msg)
      ensures items == if offer.Stored? then offer.queue else old(items)
      ensures old(Valid()) ==> Valid()
      ensures var all := old(items) + [msg];
              old(Valid()) ==>
                && (policy.DropOldest? ==> items == all[|all| - Min(|all|, capacity)..])
                && (policy.DropNewest? ==> items == all[..Min(|all|, capacity)])
                && (policy.Block? ==> items == if |all| <= capacity then all else old(items))
                && (offer.Stored? <==> policy.DropOldest? || |all| <= capacity)
                && (offer.MustWait? <==> policy.Block? && |all| > capacity)
    {
      match policy {
        case DropNewest =>
          if |items| < capacity {
            items := items + [msg];
            offer := Stored(items, []);
          } else {
            offer := Discarded;
          }
        case DropOldest =>
          var evicted := [];
          if |items| >= capacity && items != [] {
            evicted := items[..1];
            items := items[1..];
          }
          items := items + [msg];
          offer := Stored(items, evicted);
        case Block =>
          if |items| < capacity {
            items := items + [msg];
            offer := Stored(items, []);
          } else {
            offer := MustWait;
          }
      }
    }

    method TryPop() returns (m: Option<Message<T>>)
      modifies this
      ensures if old(items) == [] then m == None && items == []
              else m == Some(old(items)[0]) && items == old(items)[1..]
    {
      if items == [] {
        return None;
      }
      m := Some(items[0]);
      items := items[1..];
    }
  }

  // ---------------------------------------------------------------------------
  // The two tasks
  // ---------------------------------------------------------------------------

  datatype Producer<T> =
    | Fetch                       // about to take the next frame from the subscription
    | Push(msg: Message<T>)       // about to lock the queue
    | NotifyPush                  // stored; `notify_push.notify_one()` is next
    | PushWait(msg: Message<T>)   // found no room; `notify_pop.notified()` is next
    | PushParked(msg: Message<T>)
    | StoreClosed | WakeWaiters   // the two halves of `close`
    | ProducerDone

  datatype Consumer<T> =
    | TryPop                      // about to lock the queue
    | NotifyPop(msg: Message<T>)  // popped; `notify_pop.notify_one()` is next
    | Deliver(msg: Message<T>)
    | CheckClosed                 // found nothing; the load of `closed` is next
    | FinalPop                    // saw `closed`; the last look at the queue is next
    | PopWait                     // saw not closed; `notify_push.notified()` is next
    | PopParked
    | ConsumerDone

  /** `dropped` and `missed` are history: the numbers of the messages given up so far, and whether `close` woke nobody
      while the consumer stood between its load of `closed` and its wait. */
  datatype World<T> = World(
    queue: seq<Message<T>>, closed: bool, permitPush: bool, permitPop: bool, p: Producer<T>, c: Consumer<T>,
    input: seq<T>, taken: nat, delivered: seq<Message<T>>, dropped: set<nat>, missed: bool)

  datatype Config = Config(policy: Policy, capacity: nat)

  function Init<T>(input: seq<T>): World<T> {
    World([], false, false, false, Fetch, TryPop, input, 0, [], {}, false)
  }

  function Numbers<T>(messages: seq<Message<T>>): set<nat> { set i | 0 <= i < |messages| :: messages[i].num }

  /** `notify_push.notify_one()`. */
  function NotifiedPush<T>(w: World<T>): World<T> {
    if w.c.PopParked? then w.(c := TryPop) else w.(permitPush := true)
  }

  /** `notify_pop.notify_one()`. */
  function NotifiedPop<T>(w: World<T>): World<T> {
    if w.p.PushParked? then w.(p := Push(w.p.msg)) else w.(permitPop := true)
  }

  function ProducerStep<T>(cfg: Config, w: World<T>): Option<World<T>> {
    match w.p
    case Fetch =>
      if w.taken < |w.input| then Some(w.(p := Push(Message(w.taken, w.input[w.taken])), taken := w.taken + 1))
      else Some(w.(p := StoreClosed))
    case Push(msg) =>
      (match Offered(cfg.policy, cfg.capacity, w.queue, msg)
       case Stored(queue, evicted) => Some(w.(queue := queue, dropped := w.dropped + Numbers(evicted), p := NotifyPush))
       case Discarded => Some(w.(dropped := w.dropped + {msg.num}, p := Fetch))
       case MustWait => Some(w.(p := PushWait(msg))))
    case NotifyPush => Some(NotifiedPush(w).(p := Fetch))
    case PushWait(msg) =>
      if w.permitPop then Some(w.(permitPop := false, p := Push(msg))) else Some(w.(p := PushParked(msg)))
    case PushParked(_) => None
    case StoreClosed => Some(w.(closed := true, p := WakeWaiters))
    case WakeWaiters =>
      Some(w.(c := if w.c.PopParked? then TryPop else w.c, missed := w.c.PopWait? && !w.permitPush, p := ProducerDone))
    case ProducerDone => None
  }

  function ConsumerStep<T>(w: World<T>): Option<World<T>> {
    match w.c
    case TryPop =>
      if w.queue == [] then Some(w.(c := CheckClosed))
      else Some(w.(queue := w.queue[1..], c := NotifyPop(w.queue[0])))
    case NotifyPop(msg) => Some(NotifiedPop(w).(c := Deliver(msg)))
    case Deliver(msg) => Some(w.(delivered := w.delivered + [msg], c := TryPop))
    case CheckClosed => Some(w.(c := if w.closed then FinalPop else PopWait))
    case FinalPop =>
      if w.queue == [] then Some(w.(c := ConsumerDone))
      else Some(w.(queue := w.queue[1..], c := Deliver(w.queue[0])))
    case PopWait =>
      if w.permitPush then Some(w.(permitPush := false, c := TryPop)) else Some(w.(c := PopParked))
    case PopParked => None
    case ConsumerDone => None
  }

  datatype Task = ProducerTask | ConsumerTask

  function Step<T>(cfg: Config, w: World<T>, t: Task): Option<World<T>> {
    if t.ProducerTask? then ProducerStep(cfg, w) else ConsumerStep(w)
  }

  function Run<T>(cfg: Config, w: World<T>, schedule: seq<Task>): Option<World<T>>
    decreases |schedule|
  {
    if schedule == [] then Some(w)
    else
      match Step(cfg, w, schedule[0])
      case None => None
      case Some(w') => Run(cfg, w', schedule[1..])
  }

  // ---------------------------------------------------------------------------
  // Invariants
  // ---------------------------------------------------------------------------

  /** The message the consumer carries. */
  function Popped<T>(w: World<T>): seq<Message<T>> {
    match w.c case NotifyPop(m) => [m] case Deliver(m) => [m] case _ => []
  }

  /** The message the producer carries. */
  function Pending<T>(w: World<T>): seq<Message<T>> {
    match w.p case Push(m) => [m] case PushWait(m) => [m] case PushParked(m) => [m] case _ => []
  }

  /** Every message not dropped, oldest first: delivered, on its way out, queued, on its way in. */
  function Pipeline<T>(w: World<T>): seq<Message<T>> { w.delivered + Popped(w) + w.queue + Pending(w) }

  ghost predicate Increasing<T>(messages: seq<Message<T>>) {
    forall i, j :: 0 <= i < j < |messages| ==> messages[i].num < messages[j].num
  }

  /** The messages in the pipeline are numbered upwards, each is the frame of its number, and with the dropped ones they
      are all the frames taken so far, each counted once. */
  ghost predicate AccountedFor<T>(pipeline: seq<Message<T>>, dropped: set<nat>, taken: nat, input: seq<T>) {
    && taken <= |input|
    && Increasing(pipeline)
    && (forall i :: 0 <= i < |pipeline| ==>
          pipeline[i].num < taken && pipeline[i].frame == input[pipeline[i].num] && pipeline[i].num !in dropped)
    && (forall k: nat :: k < taken ==> k in dropped || k in Numbers(pipeline))
    && (forall k :: k in dropped ==> k < taken)
  }

  ghost predicate Accounted<T>(w: World<T>) { AccountedFor(Pipeline(w), w.dropped, w.taken, w.input) }

  /** The consumer found the queue empty, holds no permit and is on its way to sleep or asleep. */
  ghost predicate LooksEmpty<T>(w: World<T>) {
    w.c.PopParked? || ((w.c.CheckClosed? || w.c.PopWait?) && !w.permitPush)
  }

  /** A task that waits, or is about to, while there is something for it, is owed a notification. */
  ghost predicate NobodyForgotten<T>(cfg: Config, w: World<T>) {
    && (LooksEmpty(w) && w.queue != [] ==> w.p.NotifyPush?)
    && ((w.p.PushParked? || (w.p.PushWait? && !w.permitPop)) && |w.queue| < cfg.capacity ==> w.c.NotifyPop?)
    && (w.c.PopParked? ==> !w.permitPush) && (w.p.PushParked? ==> !w.permitPop)
  }

  ghost predicate ClosedProperly<T>(w: World<T>) {
    && (w.closed <==> w.p.WakeWaiters? || w.p.ProducerDone?)
    && (w.p.StoreClosed? || w.closed ==> w.taken == |w.input|)
    && (w.c.FinalPop? || w.c.ConsumerDone? ==> w.closed)
    && (w.c.ConsumerDone? ==> w.queue == [])
    && (w.missed ==> w.p.ProducerDone?)
    && (w.p.ProducerDone? ==> (w.missed <==> w.c.PopParked? || (w.c.PopWait? && !w.permitPush)))
  }

  ghost predicate Signals<T>(cfg: Config, w: World<T>) {
    cfg.capacity >= 1 && |w.queue| <= cfg.capacity && NobodyForgotten(cfg, w) && ClosedProperly(w)
  }

  ghost predicate Inv<T>(cfg: Config, w: World<T>) {
    Accounted(w) && Signals(cfg, w) && (cfg.policy.Block? ==> w.dropped == {})
  }

  // ---------------------------------------------------------------------------
  // Every step keeps them
  // ---------------------------------------------------------------------------

  lemma FrameTaken<T>(pipeline: seq<Message<T>>, dropped: set<nat>, taken: nat, input: seq<T>)
    requires AccountedFor(pipeline, dropped, taken, input) && taken < |input|
    ensures AccountedFor(pipeline + [Message(taken, input[taken])], dropped, taken + 1, input)
  {
    var after := pipeline + [Message(taken, input[taken])];
    forall k: nat | k < taken + 1 && k !in dropped ensures k in Numbers(after) {
      if k < taken {
        var i :| 0 <= i < |pipeline| && pipeline[i].num == k;
        assert after[i].num == k;
      } else {
        assert after[|pipeline|].num == k;
      }
    }
  }

  lemma MessageDropped<T>(a: seq<Message<T>>, m: Message<T>, b: seq<Message<T>>, dropped: set<nat>,
                           taken: nat, input: seq<T>)
    requires AccountedFor(a + [m] + b, dropped, taken, input)
    ensures AccountedFor(a + b, dropped + {m.num}, taken, input)
  {
    var before, after := a + [m] + b, a + b;
    assert before[|a|] == m;
    forall i | 0 <= i < |after| ensures after[i] == before[if i < |a| then i else i + 1] {}
    forall k: nat | k < taken && k !in dropped + {m.num} ensures k in Numbers(after) {
      var i :| 0 <= i < |before| && before[i].num == k;
      assert after[if i < |a| then i else i - 1].num == k;
    }
  }

  ghost predicate SameMessages<T>(w: World<T>, w': World<T>) {
    w'.delivered == w.delivered && Popped(w') == Popped(w) && w'.queue == w.queue && Pending(w') == Pending(w)
  }

  lemma SamePipeline<T>(w: World<T>, w': World<T>)
    requires SameMessages(w, w')
    ensures Pipeline(w') == Pipeline(w)
  {
  }

  /** Only `Fetch` and `Push` touch the messages. */
  lemma OtherStepsMoveNothing<T>(cfg: Config, w: World<T>)
    requires ProducerStep(cfg, w).Some? && !w.p.Push? && (w.p.Fetch? ==> w.taken >= |w.input|)
    ensures SameMessages(w, ProducerStep(cfg, w).value)
  {
    match w.p {
      case NotifyPush =>
      case _ =>
    }
  }

  lemma OtherStepsKeepHistory<T>(cfg: Config, w: World<T>)
    requires ProducerStep(cfg, w).Some? && !w.p.Push? && (w.p.Fetch? ==> w.taken >= |w.input|)
    ensures var w' := ProducerStep(cfg, w).value;
            w'.dropped == w.dropped && w'.taken == w.taken && w'.input == w.input
  {
  }

  lemma ProducerAccounts<T>(cfg: Config, w: World<T>)
    requires Inv(cfg, w) && ProducerStep(cfg, w).Some?
    ensures Accounted(ProducerStep(cfg, w).value)
  {
    var w' := ProducerStep(cfg, w).value;
    if w.p.Fetch? && w.taken < |w.input| {
      FrameTaken(Pipeline(w), w.dropped, w.taken, w.input);
      assert Pipeline(w') == Pipeline(w) + [w'.p.msg];
    } else if w.p.Push? {
      PushAccounts(cfg, w);
    } else {
      OtherStepsMoveNothing(cfg, w);
      SamePipeline(w, w');
      OtherStepsKeepHistory(cfg, w);
    }
  }

  lemma PushAccounts<T>(cfg: Config, w: World<T>)
    requires Inv(cfg, w) && w.p.Push?
    ensures Accounted(ProducerStep(cfg, w).value)
  {
    var w' := ProducerStep(cfg, w).value;
    var offer := Offered(cfg.policy, cfg.capacity, w.queue, w.p.msg);
    if offer.Stored? && offer.evicted != [] {
      EvictionAccounts(cfg, w, w');
    } else if offer.Discarded? {
      DiscardAccounts(cfg, w, w');
    } else {
      assert w.queue + [w.p.msg] + [] == w.queue + [w.p.msg];
      assert Pipeline(w') == Pipeline(w);
      assert w'.dropped == w.dropped;
    }
  }

  lemma EvictionAccounts<T>(cfg: Config, w: World<T>, w': World<T>)
    requires Inv(cfg, w) && w.p.Push? && w.queue != []
    requires w' == w.(queue := w.queue[1..] + [w.p.msg], dropped := w.dropped + Numbers(w.queue[..1]), p := NotifyPush)
    ensures Accounted(w')
  {
    var out, head, rest := w.delivered + Popped(w), w.queue[0], w.queue[1..] + [w.p.msg];
    assert w.queue == [head] + w.queue[1..];
    assert Pipeline(w) == out + [head] + rest;
    assert Pipeline(w') == out + rest;
    assert w.queue[..1] == [head];
    assert Numbers([head]) == {head.num} by { assert [head][0].num in Numbers([head]); }
    MessageDropped(out, head, rest, w.dropped, w.taken, w.input);
  }

  lemma DiscardAccounts<T>(cfg: Config, w: World<T>, w': World<T>)
    requires Inv(cfg, w) && w.p.Push?
    requires w' == w.(dropped := w.dropped + {w.p.msg.num}, p := Fetch)
    ensures Accounted(w')
  {
    var before := w.delivered + Popped(w) + w.queue;
    assert Pipeline(w) == before + [w.p.msg] + [];
    assert Pipeline(w') == before + [];
    MessageDropped(before, w.p.msg, [], w.dropped, w.taken, w.input);
  }

  /** Popping takes the head of the queue. */
  lemma PopKeepsPipeline<T>(w: World<T>)
    requires (w.c.TryPop? || w.c.FinalPop?) && w.queue != []
    ensures ConsumerStep(w).Some? && Pipeline(ConsumerStep(w).value) == Pipeline(w)
  {
    HeadMoves(w.delivered, w.queue, Pending(w));
  }

  lemma DeliverKeepsPipeline<T>(w: World<T>)
    requires w.c.Deliver?
    ensures ConsumerStep(w).Some? && Pipeline(ConsumerStep(w).value) == Pipeline(w)
  {
    assert w.delivered + [w.c.msg] + [] == w.delivered + [w.c.msg];
  }

  lemma ConsumerKeepsHistory<T>(w: World<T>)
    requires ConsumerStep(w).Some?
    ensures var w' := ConsumerStep(w).value;
            w'.dropped == w.dropped && w'.taken == w.taken && w'.input == w.input
  {
  }

  lemma QuietStepMovesNothing<T>(w: World<T>)
    requires ConsumerStep(w).Some? && !w.c.Deliver? && (w.c.TryPop? || w.c.FinalPop? ==> w.queue == [])
    ensures SameMessages(w, ConsumerStep(w).value)
  {
    match w.c {
      case NotifyPop(_) =>
      case _ =>
    }
  }

  lemma ConsumerKeepsPipeline<T>(w: World<T>)
    requires ConsumerStep(w).Some?
    ensures Pipeline(ConsumerStep(w).value) == Pipeline(w)
  {
    if (w.c.TryPop? || w.c.FinalPop?) && w.queue != [] {
      PopKeepsPipeline(w);
    } else if w.c.Deliver? {
      DeliverKeepsPipeline(w);
    } else {
      QuietStepMovesNothing(w);
      SamePipeline(w, ConsumerStep(w).value);
    }
  }

  lemma HeadMoves<T>(a: seq<Message<T>>, queue: seq<Message<T>>, b: seq<Message<T>>)
    requires queue != []
    ensures a + [] + queue + b == a + [queue[0]] + queue[1..] + b
  {
    assert queue == [queue[0]] + queue[1..];
  }

  lemma ProducerSignals<T>(cfg: Config, w: World<T>)
    requires Signals(cfg, w) && w.taken <= |w.input| && ProducerStep(cfg, w).Some?
    ensures Signals(cfg, ProducerStep(cfg, w).value)
  {
    match w.p {
      case Push(_) =>
      case NotifyPush =>
      case WakeWaiters =>
      case _ =>
    }
  }

  lemma ConsumerSignals<T>(cfg: Config, w: World<T>)
    requires Signals(cfg, w) && ConsumerStep(w).Some?
    ensures Signals(cfg, ConsumerStep(w).value)
  {
    match w.c {
      case TryPop =>
      case NotifyPop(_) =>
      case FinalPop =>
      case _ =>
    }
  }

  lemma StepKeepsInv<T>(cfg: Config, w: World<T>, t: Task)
    requires Inv(cfg, w) && Step(cfg, w, t).Some?
    ensures Inv(cfg, Step(cfg, w, t).value)
  {
    if t.ProducerTask? {
      ProducerAccounts(cfg, w);
      ProducerSignals(cfg, w);
    } else {
      ConsumerKeepsPipeline(w);
      ConsumerKeepsHistory(w);
      ConsumerSignals(cfg, w);
    }
  }

  lemma {:induction false} InvAlways<T>(cfg: Config, w: World<T>, schedule: seq<Task>)
    requires Inv(cfg, w) && Run(cfg, w, schedule).Some?
    ensures Inv(cfg, Run(cfg, w, schedule).value)
    decreases |schedule|
  {
    if schedule != [] {
      StepKeepsInv(cfg, w, schedule[0]);
      InvAlways(cfg, Step(cfg, w, schedule[0]).value, schedule[1..]);
    }
  }

  // ---------------------------------------------------------------------------
  // Main results
  // ---------------------------------------------------------------------------

  /** What every reachable world satisfies. */
  lemma Reachable<T>(policy: Policy, capacity: nat, input: seq<T>, schedule: seq<Task>)
    returns (cfg: Config, w: World<T>)
    requires capacity >= 1
    requires Run(Config(policy, capacity), Init(input), schedule).Some?
    ensures cfg == Config(policy, capacity) && Run(cfg, Init(input), schedule) == Some(w)
    ensures Inv(cfg, w) && w.input == input
  {
    cfg := Config(policy, capacity);
    InvAlways(cfg, Init(input), schedule);
    InputKept(cfg, Init(input), schedule);
    w := Run(cfg, Init(input), schedule).value;
  }

  lemma StepKeepsInput<T>(cfg: Config, w: World<T>, t: Task)
    requires Step(cfg, w, t).Some?
    ensures Step(cfg, w, t).value.input == w.input
  {
  }

  lemma {:induction false} InputKept<T>(cfg: Config, w: World<T>, schedule: seq<Task>)
    requires Run(cfg, w, schedule).Some?
    ensures Run(cfg, w, schedule).value.input == w.input
    decreases |schedule|
  {
    if schedule != [] {
      StepKeepsInput(cfg, w, schedule[0]);
      InputKept(cfg, Step(cfg, w, schedule[0]).value, schedule[1..]);
    }
  }

  /** No lost wake-up: a sleeping consumer with work, or a sleeping producer with room, is owed a notification by a task
      that is awake; and the two tasks never sleep at once. */
  lemma NoLostWakeUp<T>(policy: Policy, capacity: nat, input: seq<T>, schedule: seq<Task>)
    requires capacity >= 1 && Run(Config(policy, capacity), Init(input), schedule).Some?
    ensures var w := Run(Config(policy, capacity), Init(input), schedule).value;
            && (w.c.PopParked? && w.queue != [] ==> w.p.NotifyPush?)
            && (w.p.PushParked? && |w.queue| < capacity ==> w.c.NotifyPop?)
            && !(w.c.PopParked? && w.p.PushParked?)
  {
    var cfg, w := Reachable(policy, capacity, input, schedule);
  }

  /** Messages reach the caller with strictly increasing numbers, message `k` is the `k`-th frame, and a number
      below the last delivered one is missing exactly when the queue dropped it. */
  lemma DeliveredInOrder<T>(policy: Policy, capacity: nat, input: seq<T>, schedule: seq<Task>)
    requires capacity >= 1 && Run(Config(policy, capacity), Init(input), schedule).Some?
    ensures var w := Run(Config(policy, capacity), Init(input), schedule).value;
            && Increasing(w.delivered)
            && (forall i :: 0 <= i < |w.delivered| ==>
                  w.delivered[i].num < |input| && w.delivered[i].frame == input[w.delivered[i].num])
            && (forall k: nat :: w.delivered != [] && k < w.delivered[|w.delivered| - 1].num ==>
                  (k !in Numbers(w.delivered) <==> k in w.dropped))
            && (policy.Block? ==> w.dropped == {})
  {
    var cfg, w := Reachable(policy, capacity, input, schedule);
    assert Pipeline(w) == w.delivered + (Popped(w) + w.queue + Pending(w));
    HolesAreDropped(w.delivered, Popped(w) + w.queue + Pending(w), w.dropped, w.taken, input);
  }

  lemma HolesAreDropped<T>(delivered: seq<Message<T>>, rest: seq<Message<T>>, dropped: set<nat>, taken: nat,
                           input: seq<T>)
    requires AccountedFor(delivered + rest, dropped, taken, input)
    ensures Increasing(delivered)
    ensures forall i :: 0 <= i < |delivered| ==>
              delivered[i].num < |input| && delivered[i].frame == input[delivered[i].num]
    ensures forall k: nat :: delivered != [] && k < delivered[|delivered| - 1].num ==>
              (k !in Numbers(delivered) <==> k in dropped)
  {
    var all := delivered + rest;
    assert forall i :: 0 <= i < |delivered| ==> all[i] == delivered[i];
    forall k: nat | delivered != [] && k < delivered[|delivered| - 1].num
      ensures k !in Numbers(delivered) <==> k in dropped
    {
      if k !in dropped {
        var i :| 0 <= i < |all| && all[i].num == k;
        assert delivered[i].num == k;
      }
    }
  }

  /** The message with number `k` for each of the first `n` frames. */
  function Numbered<T>(input: seq<T>, n: nat): seq<Message<T>>
    requires n <= |input|
  {
    seq(n, k requires 0 <= k < n => Message(k, input[k]))
  }

  lemma {:induction false} DenseNumbers<T>(pipeline: seq<Message<T>>, taken: nat, input: seq<T>, i: nat)
    requires AccountedFor(pipeline, {}, taken, input) && i <= |pipeline|
    ensures i <= taken && forall j :: 0 <= j < i ==> pipeline[j] == Message(j, input[j])
  {
    if i > 0 {
      DenseNumbers(pipeline, taken, input, i - 1);
      var m := pipeline[i - 1];
      if i > 1 { assert pipeline[i - 2].num < m.num; }
      assert i - 1 in Numbers(pipeline);
      var j :| 0 <= j < |pipeline| && pipeline[j].num == i - 1;
      assert j >= i - 1;
      assert j == i - 1;
    }
  }

  lemma NothingMissing<T>(pipeline: seq<Message<T>>, taken: nat, input: seq<T>)
    requires AccountedFor(pipeline, {}, taken, input)
    ensures taken <= |input| && pipeline == Numbered(input, taken)
  {
    DenseNumbers(pipeline, taken, input, |pipeline|);
    if taken > 0 {
      assert taken - 1 in Numbers(pipeline);
      var j :| 0 <= j < |pipeline| && pipeline[j].num == taken - 1;
      assert pipeline[j].num == j;
    }
  }

  /** Under Block nothing is lost: delivered, carried, queued and pending messages are the frames taken, in order. */
  lemma BlockLosesNothing<T>(capacity: nat, input: seq<T>, schedule: seq<Task>)
    requires capacity >= 1 && Run(Config(Block, capacity), Init(input), schedule).Some?
    ensures var w := Run(Config(Block, capacity), Init(input), schedule).value;
            w.taken <= |input| && Pipeline(w) == Numbered(input, w.taken)
  {
    var cfg, w := Reachable(Block, capacity, input, schedule);
    NothingMissing(Pipeline(w), w.taken, input);
  }

  /** `held` are the newest of the first `taken` frames. */
  predicate AreNewest<T(==)>(held: seq<Message<T>>, input: seq<T>, taken: nat) {
    |held| <= taken <= |input| && held == Numbered(input, taken)[taken - |held|..]
  }

  lemma TakingKeepsNewest<T>(held: seq<Message<T>>, input: seq<T>, taken: nat)
    requires taken < |input| && AreNewest(held, input, taken)
    ensures AreNewest(held + [Message(taken, input[taken])], input, taken + 1)
  {
  }

  lemma EvictionKeepsNewest<T>(held: seq<Message<T>>, input: seq<T>, taken: nat)
    requires held != [] && AreNewest(held, input, taken)
    ensures AreNewest(held[1..], input, taken)
  {
  }

  /** The queue and the message on its way in. */
  function Held<T>(w: World<T>): seq<Message<T>> { w.queue + Pending(w) }

  predicate HoldsNewest<T(==)>(w: World<T>) { AreNewest(Held(w), w.input, w.taken) }

  lemma FetchKeepsNewest<T>(cfg: Config, w: World<T>)
    requires w.p.Fetch? && w.taken < |w.input| && HoldsNewest(w)
    ensures HoldsNewest(ProducerStep(cfg, w).value)
  {
    TakingKeepsNewest(w.queue, w.input, w.taken);
    assert Held(w) == w.queue;
  }

  lemma OldestMakesRoom<T>(capacity: nat, queue: seq<Message<T>>, msg: Message<T>)
    ensures var o := Offered(DropOldest, capacity, queue, msg);
            o.Stored? && o.queue == (queue + [msg])[if |queue| >= capacity && queue != [] then 1 else 0..]
  {
  }

  /** What a push leaves. */
  lemma PushStep<T>(cfg: Config, w: World<T>)
    requires w.p.Push?
    ensures var o, w' := Offered(cfg.policy, cfg.capacity, w.queue, w.p.msg), ProducerStep(cfg, w).value;
            && w'.input == w.input && w'.taken == w.taken && w'.delivered == w.delivered && w'.c == w.c
            && w'.queue == (if o.Stored? then o.queue else w.queue) && (o.Stored? ==> w'.p == NotifyPush)
  {
  }

  lemma PushKeepsNewest<T>(cfg: Config, w: World<T>)
    requires cfg.policy.DropOldest? && w.p.Push? && HoldsNewest(w)
    ensures HoldsNewest(ProducerStep(cfg, w).value)
  {
    PushStep(cfg, w);
    OldestMakesRoom(cfg.capacity, w.queue, w.p.msg);
    assert Held(ProducerStep(cfg, w).value) == ProducerStep(cfg, w).value.queue;
    if |w.queue| >= cfg.capacity && w.queue != [] {
      EvictionKeepsNewest(Held(w), w.input, w.taken);
    }
  }

  lemma ProducerKeepsNewest<T>(cfg: Config, w: World<T>)
    requires cfg.policy.DropOldest? && HoldsNewest(w) && ProducerStep(cfg, w).Some?
    ensures HoldsNewest(ProducerStep(cfg, w).value)
  {
    if w.p.Push? {
      PushKeepsNewest(cfg, w);
    } else if w.p.Fetch? && w.taken < |w.input| {
      FetchKeepsNewest(cfg, w);
    } else {
      OtherStepsMoveNothing(cfg, w);
      OtherStepsKeepHistory(cfg, w);
    }
  }

  lemma PopKeepsNewest<T>(w: World<T>)
    requires HoldsNewest(w) && (w.c.TryPop? || w.c.FinalPop?) && w.queue != []
    ensures HoldsNewest(ConsumerStep(w).value)
  {
    EvictionKeepsNewest(Held(w), w.input, w.taken);
    assert Held(w)[1..] == w.queue[1..] + Pending(w);
  }

  lemma ConsumerKeepsNewest<T>(w: World<T>)
    requires HoldsNewest(w) && ConsumerStep(w).Some?
    ensures HoldsNewest(ConsumerStep(w).value)
  {
    if (w.c.TryPop? || w.c.FinalPop?) && w.queue != [] {
      PopKeepsNewest(w);
    } else {
      ConsumerKeepsHistory(w);
      if !w.c.Deliver? {
        QuietStepMovesNothing(w);
      }
    }
  }

  lemma {:induction false} NewestAlways<T>(cfg: Config, w: World<T>, schedule: seq<Task>)
    requires cfg.policy.DropOldest? && HoldsNewest(w) && Run(cfg, w, schedule).Some?
    ensures HoldsNewest(Run(cfg, w, schedule).value)
    decreases |schedule|
  {
    if schedule != [] {
      if schedule[0].ProducerTask? { ProducerKeepsNewest(cfg, w); } else { ConsumerKeepsNewest(w); }
      NewestAlways(cfg, Step(cfg, w, schedule[0]).value, schedule[1..]);
    }
  }

  lemma NoneOfTheNewestIsDropped<T>(before: seq<Message<T>>, held: seq<Message<T>>, dropped: set<nat>, taken: nat,
                                    input: seq<T>)
    requires AccountedFor(before + held, dropped, taken, input) && AreNewest(held, input, taken)
    ensures forall d, i :: d in dropped && 0 <= i < |held| ==> d < held[i].num
  {
    var first := taken - |held|;
    forall n | first <= n < taken ensures n !in dropped {
      assert (before + held)[|before| + n - first] == held[n - first];
    }
  }

  /** Under DropOldest the queue, with the message on its way in, always holds the newest frames taken, and whatever was
      dropped is older than all of them. */
  lemma OldestAreDropped<T>(capacity: nat, input: seq<T>, schedule: seq<Task>)
    requires capacity >= 1 && Run(Config(DropOldest, capacity), Init(input), schedule).Some?
    ensures var w := Run(Config(DropOldest, capacity), Init(input), schedule).value;
            var held := w.queue + Pending(w);
            && |held| <= w.taken <= |input| && held == Numbered(input, w.taken)[w.taken - |held|..]
            && forall d, i :: d in w.dropped && 0 <= i < |held| ==> d < held[i].num
  {
    var cfg, w := Reachable(DropOldest, capacity, input, schedule);
    NewestAlways(cfg, Init(input), schedule);
    assert Pipeline(w) == w.delivered + Popped(w) + Held(w);
    NoneOfTheNewestIsDropped(w.delivered + Popped(w), Held(w), w.dropped, w.taken, input);
  }

  /** The messages that were stored, whether or not they are still in the queue. */
  function StoredSoFar<T>(w: World<T>): seq<Message<T>> { w.delivered + Popped(w) + w.queue }

  lemma PushKeepsStored<T>(cfg: Config, w: World<T>)
    requires !cfg.policy.DropOldest? && w.p.Push?
    ensures StoredSoFar(w) <= StoredSoFar(ProducerStep(cfg, w).value)
  {
    PushStep(cfg, w);
    OthersKeepStored(cfg.policy, cfg.capacity, w.queue, w.p.msg);
    assert w.queue <= ProducerStep(cfg, w).value.queue;
  }

  lemma OthersKeepStored<T>(policy: Policy, capacity: nat, queue: seq<Message<T>>, msg: Message<T>)
    requires !policy.DropOldest?
    ensures var o := Offered(policy, capacity, queue, msg); o.Stored? ==> o.queue == queue + [msg]
  {
  }

  lemma ProducerKeepsStored<T>(cfg: Config, w: World<T>)
    requires !cfg.policy.DropOldest? && ProducerStep(cfg, w).Some?
    ensures StoredSoFar(w) <= StoredSoFar(ProducerStep(cfg, w).value)
  {
    if w.p.Push? {
      PushKeepsStored(cfg, w);
    } else if w.p.Fetch? {
      assert StoredSoFar(ProducerStep(cfg, w).value) == StoredSoFar(w);
    } else {
      OtherStepsMoveNothing(cfg, w);
    }
  }

  lemma ConsumerKeepsStored<T>(w: World<T>)
    requires ConsumerStep(w).Some?
    ensures StoredSoFar(w) == StoredSoFar(ConsumerStep(w).value)
  {
    if w.c.Deliver? {
      assert w.delivered + [w.c.msg] + [] + w.queue == w.delivered + [w.c.msg] + w.queue;
    } else if (w.c.TryPop? || w.c.FinalPop?) && w.queue != [] {
      HeadMoves(w.delivered, w.queue, []);
    } else {
      QuietStepMovesNothing(w);
    }
  }

  /** Under DropNewest, and under Block, a message once stored is never given up: from any point of a run on, what was
      stored so far stays delivered, carried or queued, in its order. */
  lemma {:induction false} StoredIsKept<T>(cfg: Config, w: World<T>, schedule: seq<Task>)
    requires !cfg.policy.DropOldest? && Run(cfg, w, schedule).Some?
    ensures StoredSoFar(w) <= StoredSoFar(Run(cfg, w, schedule).value)
    decreases |schedule|
  {
    if schedule != [] {
      if schedule[0].ProducerTask? { ProducerKeepsStored(cfg, w); } else { ConsumerKeepsStored(w); }
      StoredIsKept(cfg, Step(cfg, w, schedule[0]).value, schedule[1..]);
    }
  }

  /** `pop` returns None, which ends the forwarder, only on a closed and empty queue: all the input was taken, and every
      message that was not dropped has been delivered. */
  lemma NoneMeansDrained<T>(policy: Policy, capacity: nat, input: seq<T>, schedule: seq<Task>)
    requires capacity >= 1 && Run(Config(policy, capacity), Init(input), schedule).Some?
    ensures var w := Run(Config(policy, capacity), Init(input), schedule).value;
            w.c.ConsumerDone? ==>
              && w.closed && w.queue == [] && w.taken == |input| && Pipeline(w) == w.delivered
              && forall k: nat :: k < |input| ==> (k in Numbers(w.delivered) <==> k !in w.dropped)
  {
    var cfg, w := Reachable(policy, capacity, input, schedule);
    if w.c.ConsumerDone? {
      assert w.closed && Pipeline(w) == w.delivered;
      DeliveredUnlessDropped(w);
    }
  }

  /** Once the pipeline holds nothing but delivered messages, each frame was delivered or dropped. */
  lemma DeliveredUnlessDropped<T>(w: World<T>)
    requires Accounted(w) && Pipeline(w) == w.delivered && w.taken == |w.input|
    ensures forall k: nat :: k < |w.input| ==> (k in Numbers(w.delivered) <==> k !in w.dropped)
  {
    forall k: nat | k < |w.input| ensures k in Numbers(w.delivered) <==> k !in w.dropped {
      if k in Numbers(w.delivered) {
        var i :| 0 <= i < |w.delivered| && w.delivered[i].num == k;
      }
    }
  }

  ghost predicate Stuck<T>(cfg: Config, w: World<T>) { ProducerStep(cfg, w).None? && ConsumerStep(w).None? }

  function ProducerRank<T>(p: Producer<T>): nat {
    match p
    case Fetch => 6 case Push(_) => 16 case NotifyPush => 10 case PushWait(_) => 15 case PushParked(_) => 14
    case StoreClosed => 5 case WakeWaiters => 4 case ProducerDone => 0
  }

  function ConsumerRank<T>(c: Consumer<T>): nat {
    match c
    case TryPop => 4 case NotifyPop(_) => 8 case Deliver(_) => 5 case CheckClosed => 3 case FinalPop => 2
    case PopWait => 2 case PopParked => 1 case ConsumerDone => 0
  }

  /** Steps still to come, bounded from above. */
  function Measure<T>(w: World<T>): nat {
    (if w.taken <= |w.input| then 11 * (|w.input| - w.taken) else 0) + 5 * |w.queue|
    + (if w.permitPush then 3 else 0) + (if w.permitPop then 2 else 0) + ProducerRank(w.p) + ConsumerRank(w.c)
  }

  lemma ProducerProgresses<T>(cfg: Config, w: World<T>)
    requires Signals(cfg, w) && ProducerStep(cfg, w).Some?
    ensures Measure(ProducerStep(cfg, w).value) < Measure(w)
  {
    match w.p {
      case Push(_) => PushProgresses(cfg, w);
      case _ =>
    }
  }

  lemma PushProgresses<T>(cfg: Config, w: World<T>)
    requires Signals(cfg, w) && w.p.Push?
    ensures Measure(ProducerStep(cfg, w).value) < Measure(w)
  {
    match Offered(cfg.policy, cfg.capacity, w.queue, w.p.msg) {
      case Stored(queue, evicted) => assert |queue| <= |w.queue| + 1;
      case _ =>
    }
  }

  lemma ConsumerProgresses<T>(cfg: Config, w: World<T>)
    requires Signals(cfg, w) && ConsumerStep(w).Some?
    ensures Measure(ConsumerStep(w).value) < Measure(w)
  {
    match w.c {
      case TryPop =>
      case NotifyPop(_) =>
      case FinalPop =>
      case _ =>
    }
  }

  /** Every step of either task brings the run nearer to its end. */
  lemma EveryStepProgresses<T>(policy: Policy, capacity: nat, input: seq<T>, schedule: seq<Task>, t: Task)
    requires capacity >= 1 && Run(Config(policy, capacity), Init(input), schedule).Some?
    requires Step(Config(policy, capacity), Run(Config(policy, capacity), Init(input), schedule).value, t).Some?
    ensures var w := Run(Config(policy, capacity), Init(input), schedule).value;
            Measure(Step(Config(policy, capacity), w, t).value) < Measure(w)
  {
    var cfg, w := Reachable(policy, capacity, input, schedule);
    if t.ProducerTask? { ProducerProgresses(cfg, w); } else { ConsumerProgresses(cfg, w); }
  }

  /** No deadlock: when neither task can move, the producer has finished, every frame taken was delivered or
      dropped, and the forwarder has returned, unless `close` missed it. It sleeps for ever exactly when `close`
      notified while it stood between its load of `closed` and its wait, with no permit stored. */
  lemma StuckMeansFinished<T>(policy: Policy, capacity: nat, input: seq<T>, schedule: seq<Task>)
    requires capacity >= 1 && Run(Config(policy, capacity), Init(input), schedule).Some?
    requires Stuck(Config(policy, capacity), Run(Config(policy, capacity), Init(input), schedule).value)
    ensures var w := Run(Config(policy, capacity), Init(input), schedule).value;
            && w.p.ProducerDone? && w.queue == [] && w.taken == |input|
            && (forall k: nat :: k < |input| ==> (k in Numbers(w.delivered) <==> k !in w.dropped))
            && (policy.Block? ==> w.delivered == Numbered(input, |input|))
            && (if w.missed then w.c.PopParked? else w.c.ConsumerDone?)
  {
    var cfg, w := Reachable(policy, capacity, input, schedule);
    assert Pipeline(w) == w.delivered;
    DeliveredUnlessDropped(w);
    if policy.Block? { BlockLosesNothing(capacity, input, schedule); }
  }

  /** `close` can miss the forwarder: a run of six steps after which it sleeps although the queue is closed. */
  lemma CloseCanBeMissed(cfg: Config) returns (schedule: seq<Task>)
    ensures var w := Run(cfg, Init<nat>([]), schedule);
            w.Some? && w.value.closed && w.value.c.PopParked? && Stuck(cfg, w.value)
  {
    schedule := [ConsumerTask, ConsumerTask, ProducerTask, ProducerTask, ProducerTask, ConsumerTask];
    var w0 := Init<nat>([]);
    var w1 := ConsumerStep(w0).value;
    var w2 := ConsumerStep(w1).value;
    var w3 := ProducerStep(cfg, w2).value;
    var w4 := ProducerStep(cfg, w3).value;
    var w5 := ProducerStep(cfg, w4).value;
    var w6 := ConsumerStep(w5).value;
    assert Run(cfg, w6, schedule[6..]) == Some(w6);
    assert Run(cfg, w5, schedule[5..]) == Run(cfg, w6, schedule[6..]);
    assert Run(cfg, w4, schedule[4..]) == Run(cfg, w5, schedule[5..]);
    assert Run(cfg, w3, schedule[3..]) == Run(cfg, w4, schedule[4..]);
    assert Run(cfg, w2, schedule[2..]) == Run(cfg, w3, schedule[3..]);
    assert Run(cfg, w1, schedule[1..]) == Run(cfg, w2, schedule[2..]);
  }
}
