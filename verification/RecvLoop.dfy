/** `FrameReceiver::recv` beside pushes and closes of the same queue (src/bus.rs): one receiving task, any number of
    others.

    A push holds the queue lock while it notifies, so it is one step; a close stores the flag and calls
    `notify_waiters` in two. `notify_one` wakes the parked receiver or stores one permit; `notify_waiters` only
    wakes. */
module RecvLoop {
  import opened Wrappers
  import opened Frames
  import opened SubQueue

  datatype Pc = Popping | Checking | FinalPopping | Waiting | Parked | Returned(result: Option<Frame>)

  /** `owed` counts the closes that have stored the flag but not called `notify_waiters`; `missed` records that such
      a call came after the receiver had read the flag as false and before it was registered as a waiter. */
  datatype World = World(sub: Sub, pc: Pc, permit: bool, owed: nat, missed: bool)

  datatype Action = Push(frame: Frame, now: nat) | StoreClosed | WakeWaiters | Receiver

  function Start(sub: Sub): World { World(sub, Popping, false, 0, false) }

  predicate Enabled(w: World, a: Action) {
    match a
    case WakeWaiters => w.owed > 0
    case Receiver => !w.pc.Parked?
    case _ => true
  }

  function NotifyOne(w: World): World {
    if w.pc.Parked? then w.(pc := Popping, missed := false) else w.(permit := true)
  }

  function Step(w: World, a: Action): World
    requires Enabled(w, a)
  {
    match a
    case Push(f, now) =>
      var o := Pushed(w.sub, f, now);
      if o.accepted then NotifyOne(w.(sub := o.sub)) else w.(sub := o.sub)
    case StoreClosed => w.(sub := w.sub.(closed := true), owed := w.owed + 1)
    case WakeWaiters =>
      var t := w.(owed := w.owed - 1);
      if w.pc.Parked? then t.(pc := Popping, missed := false) else t.(missed := w.missed || w.pc.Waiting?)
    case Receiver => Receive(w)
  }

  /** The receiver's own next step; after a result it calls `recv` again. */
  function Receive(w: World): World
    requires !w.pc.Parked?
  {
    match w.pc
    case Popping =>
      if w.sub.queue == [] then w.(pc := Checking)
      else w.(sub := w.sub.(queue := w.sub.queue[1..]), pc := Returned(Some(w.sub.queue[0])))
    case Checking => w.(pc := if w.sub.closed then FinalPopping else Waiting)
    case FinalPopping =>
      if w.sub.queue == [] then w.(pc := Returned(None))
      else w.(sub := w.sub.(queue := w.sub.queue[1..]), pc := Returned(Some(w.sub.queue[0])))
    case Waiting => if w.permit then w.(pc := Popping, permit := false, missed := false) else w.(pc := Parked)
    case Returned(_) => w.(pc := Popping)
    case Parked => w
  }

  predicate Run(w: World, actions: seq<Action>, w': World)
    decreases |actions|
  {
    if actions == [] then w' == w
    else Enabled(w, actions[0]) && Run(Step(w, actions[0]), actions[1..], w')
  }

  predicate Inv(w: World) {
    && (w.pc.Parked? ==> w.sub.queue == [] && !w.permit)
    && (w.pc.Checking? || w.pc.Waiting? ==> w.sub.queue == [] || w.permit)
    && (w.owed > 0 || w.missed || w.pc.FinalPopping? ==> w.sub.closed)
    && (w.missed ==> w.pc.Waiting? || w.pc.Parked?)
    && (w.pc.Waiting? || w.pc.Parked? ==> w.sub.closed ==> w.owed > 0 || w.missed)
  }

  lemma PushLeavesFrame(s: Sub, f: Frame, now: nat)
    ensures var o := Pushed(s, f, now); o.sub.closed == s.closed && (!o.accepted ==> o.sub.queue == s.queue)
  {
  }

  lemma StepKeepsInv(w: World, a: Action)
    requires Inv(w) && Enabled(w, a)
    ensures Inv(Step(w, a))
  {
    if a.Push? {
      PushLeavesFrame(w.sub, a.frame, a.now);
    }
  }

  lemma {:induction false} RunKeepsInv(w: World, actions: seq<Action>, w': World)
    requires Inv(w) && Run(w, actions, w')
    ensures Inv(w')
    decreases |actions|
  {
    if actions != [] {
      StepKeepsInv(w, actions[0]);
      RunKeepsInv(Step(w, actions[0]), actions[1..], w');
    }
  }

  /** The receiver alone, for at most n steps or until it returns. */
  function Alone(w: World, n: nat): World
    decreases n
  {
    if n == 0 || w.pc.Parked? || w.pc.Returned? then w else Alone(Receive(w), n - 1)
  }

  /** Main result. No wake-up is lost: whenever a frame is queued and the receiver is inside `recv`, it is not
      asleep, and four steps of its own return the front frame, whatever has happened before. */
  lemma QueuedFrameIsReceived(sub: Sub, actions: seq<Action>, w: World)
    requires sub.queue == [] && !sub.closed && Run(Start(sub), actions, w)
    requires w.sub.queue != [] && !w.pc.Returned?
    ensures Alone(w, 4).pc == Returned(Some(w.sub.queue[0])) && Alone(w, 4).sub.queue == w.sub.queue[1..]
  {
    RunKeepsInv(Start(sub), actions, w);
    if w.pc.Checking? && !w.sub.closed {
      assert Receive(w).pc.Waiting? && Receive(w).permit;
      assert Alone(w, 4) == Alone(Receive(Receive(w)), 2);
    }
  }

  /** Main result.  `recv` returns None only at a moment when the queue is closed and empty. */
  lemma NoneMeansDrained(sub: Sub, actions: seq<Action>, w: World)
    requires sub.queue == [] && !sub.closed && Run(Start(sub), actions, w)
    requires !w.pc.Parked? && !w.pc.Returned? && Receive(w).pc == Returned(None)
    ensures w.sub.closed && w.sub.queue == []
  {
    RunKeepsInv(Start(sub), actions, w);
  }

  /** Main result. Once every close has run to its end, a receiver sleeps on a closed queue exactly when a
      `notify_waiters` came between its reading of the flag and its registration. */
  lemma SleepsOnClosedIff(sub: Sub, actions: seq<Action>, w: World)
    requires sub.queue == [] && !sub.closed && Run(Start(sub), actions, w)
    requires w.owed == 0 && w.pc.Parked?
    ensures w.sub.closed <==> w.missed
  {
    RunKeepsInv(Start(sub), actions, w);
  }

  /** Main result. The promise that `recv` returns once the queue is closed, exactly: when every close has run to
      its end, a receiver inside `recv` returns within five steps of its own unless a `notify_waiters` came between
      its reading of the flag and its registration and no permit is stored; then it never returns by itself. */
  lemma ReturnsOnClosedIff(sub: Sub, actions: seq<Action>, w: World)
    requires sub.queue == [] && !sub.closed && Run(Start(sub), actions, w)
    requires w.sub.closed && w.owed == 0 && !w.pc.Returned?
    ensures Alone(w, 5).pc.Returned? <==> !(w.missed && !w.permit)
    ensures w.missed && !w.permit ==> forall n: nat :: n > 0 ==> Alone(w, n).pc.Parked?
  {
    RunKeepsInv(Start(sub), actions, w);
    FiveSteps(w);
    if w.missed && !w.permit {
      forall n: nat | n > 0 ensures Alone(w, n).pc.Parked? {
        StaysParked(w, n);
      }
    }
  }

  lemma FiveSteps(w: World)
    requires Inv(w) && w.sub.closed && w.owed == 0 && !w.pc.Returned?
    ensures Alone(w, 5).pc.Returned? <==> !(w.missed && !w.permit)
  {
    if !w.pc.Parked? {
      var w1 := Receive(w);
      assert Alone(w, 5) == Alone(w1, 4);
      if !w1.pc.Parked? && !w1.pc.Returned? {
        var w2 := Receive(w1);
        assert Alone(w1, 4) == Alone(w2, 3);
        if !w2.pc.Parked? && !w2.pc.Returned? {
          var w3 := Receive(w2);
          assert Alone(w2, 3) == Alone(w3, 2);
        }
      }
    }
  }

  lemma StaysParked(w: World, n: nat)
    requires Inv(w) && w.missed && !w.permit && n > 0
    ensures Alone(w, n).pc.Parked?
  {
    if w.pc.Waiting? {
      assert Alone(w, n) == Alone(Receive(w), n - 1);
    }
  }

  /** It does happen: the close falls between the load of the flag and the await, and the receiver sleeps on. */
  lemma CloseCanBeMissed(sub: Sub)
    requires sub.queue == [] && !sub.closed
    ensures exists actions, w ::
              Run(Start(sub), actions, w) && w.pc.Parked? && w.sub.closed && w.owed == 0 && w.sub.queue == []
  {
    var w0 := Start(sub);
    var w1 := Step(w0, Receiver);
    var w2 := Step(w1, Receiver);
    var w3 := Step(w2, StoreClosed);
    var w4 := Step(w3, WakeWaiters);
    var w5 := Step(w4, Receiver);
    OneStep(w4, Receiver, [], w5);
    OneStep(w3, WakeWaiters, [Receiver], w5);
    OneStep(w2, StoreClosed, [WakeWaiters, Receiver], w5);
    OneStep(w1, Receiver, [StoreClosed, WakeWaiters, Receiver], w5);
    OneStep(w0, Receiver, [Receiver, StoreClosed, WakeWaiters, Receiver], w5);
    assert Run(w0, [Receiver] + [Receiver, StoreClosed, WakeWaiters, Receiver], w5);
  }

  lemma OneStep(w: World, a: Action, rest: seq<Action>, w': World)
    requires Enabled(w, a) && Run(Step(w, a), rest, w')
    ensures Run(w, [a] + rest, w')
  {
    assert ([a] + rest)[1..] == rest;
  }
}
