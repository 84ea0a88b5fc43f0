/** One subscriber's queue (src/bus.rs): back-pressure policies and the per-second rate limit. */
module SubQueue {
  import opened Wrappers
  import opened Relay
  import opened Frames

  /** The capacity of a subscription that asks for none. */
  const DEFAULT_DEPTH: nat := 64

  /** The clock counts nanoseconds. */
  const SECOND: nat := 1_000_000_000

  datatype Window = Window(start: nat, count: nat)

  datatype Sub = Sub(queue: seq<Frame>, capacity: nat, policy: Policy, rateLimit: nat, window: Window, closed: bool)

  /** The rate check: the new window and whether the frame may go on. */
  function Admit(rateLimit: nat, w: Window, now: nat): (Window, bool) {
    if rateLimit == 0 then (w, true)
    else
      var w1 := if now >= w.start + SECOND then Window(now, 0) else w;
      if w1.count >= rateLimit then (w1, false) else (w1.(count := w1.count + 1), true)
  }

  datatype PushOutcome = PushOutcome(sub: Sub, accepted: bool, evicted: nat)

  function Pushed(s: Sub, f: Frame, now: nat): PushOutcome {
    var (window, admitted) := Admit(s.rateLimit, s.window, now);
    var t := s.(window := window);
    if !admitted then PushOutcome(t, false, 0)
    else if s.policy.Block? || |s.queue| < s.capacity then PushOutcome(t.(queue := s.queue + [f]), true, 0)
    else if s.policy.DropNewest? then PushOutcome(t, false, 0)
    else if s.queue == [] then PushOutcome(t.(queue := [f]), true, 0)
    else PushOutcome(t.(queue := s.queue[1..] + [f]), true, 1)
  }

  /** The queue as an object. */
  class SubInner {
    var queue: seq<Frame>
    const capacity: nat
    const policy: Policy
    const rateLimit: nat
    var windowStart: nat
    var count: nat
    var closed: bool

    function State(): Sub
      reads this
    {
      Sub(queue, capacity, policy, rateLimit, Window(windowStart, count), closed)
    }

    constructor (capacity: nat, policy: Policy, rateLimit: nat, now: nat)
      ensures State() == Sub([], capacity, policy, rateLimit, Window(now, 0), false)
    {
      this.capacity, this.policy, this.rateLimit := capacity, policy, rateLimit;
      queue, windowStart, count, closed := [], now, 0, false;
    }

    method Push(frame: Frame, now: nat) returns (accepted: bool)
      modifies this
      ensures var o := Pushed(old(State()), frame, now); State() == o.sub && accepted == o.accepted
      ensures var full, over := |old(queue)| >= capacity, now >= old(windowStart) + 1_000_000_000;
              var used := if over then 0 else old(count);
              && (accepted <==> (rateLimit == 0 || used < rateLimit) && !(policy.DropNewest? && full))
              && queue == (if !accepted then old(queue)
                           else if policy.DropOldest? && full && old(queue) != [] then old(queue)[1..] + [frame]
                           else old(queue) + [frame])
              && (rateLimit > 0 && over ==> windowStart == now)
              && (rateLimit == 0 || !over ==> windowStart == old(windowStart))
              && count == if rateLimit == 0 then old(count) else if used < rateLimit then used + 1 else used
    {
      if rateLimit > 0 {
        if now >= windowStart + SECOND {
          windowStart := now;
          count := 0;
        }
        if count >= rateLimit {
          return false;
        }
        count := count + 1;
      }
      match policy {
        case DropNewest =>
          if |queue| >= capacity {
            return false;
          }
          queue := queue + [frame];
        case DropOldest =>
          if |queue| >= capacity && queue != [] {
            queue := queue[1..];
          }
          queue := queue + [frame];
        case Block =>
          queue := queue + [frame];
      }
      return true;
    }

    method Pop() returns (f: Option<Frame>)
      modifies this
      ensures if old(queue) == [] then f == None && State() == old(State())
              else f == Some(old(queue)[0]) && State() == old(State()).(queue := old(queue)[1..])
    {
      if queue == [] {
        return None;
      }
      f := Some(queue[0]);
      queue := queue[1..];
    }

    method Close()
      modifies this
      ensures State() == old(State()).(closed := true)
    {
      closed := true;
    }
  }

  // ---------------------------------------------------------------------------
  // The rate limit
  // ---------------------------------------------------------------------------

  datatype Event = PushAt(now: nat, frame: Frame) | PopOne

  function Applied(s: Sub, e: Event): (Sub, bool) {
    match e
    case PushAt(now, f) => var o := Pushed(s, f, now); (o.sub, o.accepted)
    case PopOne => (if s.queue == [] then s else s.(queue := s.queue[1..]), false)
  }

  /** How many pushes of a history are accepted in the interval from `a` up to but not including `b`. */
  function AcceptedIn(s: Sub, events: seq<Event>, a: nat, b: nat): nat
    decreases |events|
  {
    if events == [] then 0
    else
      var (s', accepted) := Applied(s, events[0]);
      (if accepted && a <= events[0].now < b then 1 else 0) + AcceptedIn(s', events[1..], a, b)
  }

  /** The clock never goes back, and starts no earlier than `t`. */
  predicate Monotone(events: seq<Event>, t: nat)
    decreases |events|
  {
    events == [] ||
    (if events[0].PushAt? then t <= events[0].now && Monotone(events[1..], events[0].now) else Monotone(events[1..], t))
  }

  /** The most windows that can start from `x` on, before `b`. */
  function Starts(x: int, b: int): nat { if x >= b then 0 else (b - 1 - x) / SECOND + 1 }

  lemma StartsStep(x: int, t: int, b: int)
    requires x <= t < b
    ensures Starts(t + SECOND, b) + 1 <= Starts(x, b)
  {
  }

  lemma StartsMonotone(x: int, y: int, b: int)
    requires x <= y
    ensures Starts(y, b) <= Starts(x, b)
  {
  }

  lemma StartsInSeconds(a: int, seconds: nat)
    ensures Starts(a, a + seconds * SECOND) == seconds
  {
  }

  function Max(a: int, b: int): int { if a >= b then a else b }

  /** Nothing is accepted in the interval once it is over. */
  lemma {:induction false} NothingAfter(s: Sub, events: seq<Event>, t: nat, a: nat, b: nat)
    requires b <= t && Monotone(events, t)
    ensures AcceptedIn(s, events, a, b) == 0
    decreases |events|
  {
    if events != [] {
      NothingAfter(Applied(s, events[0]).0, events[1..], if events[0].PushAt? then events[0].now else t, a, b);
    }
  }

  /** What a push does to the window. */
  lemma WindowStep(s: Sub, now: nat, f: Frame)
    requires s.rateLimit > 0 && s.window.count <= s.rateLimit
    ensures var (s', accepted) := Applied(s, PushAt(now, f));
            && s'.rateLimit == s.rateLimit && s'.window.count <= s.rateLimit
            && if now >= s.window.start + SECOND then s'.window == Window(now, 1)
               else s'.window.start == s.window.start
                    && s.window.count + (if accepted then 1 else 0) <= s'.window.count
  {
  }

  lemma NewWindowFits(limit: nat, count: nat, left: nat, m: nat, n: nat)
    requires m + 1 <= n && count <= limit && left <= limit
    ensures left + limit * m <= limit - count + limit * n
  {
    assert limit * n >= limit * (m + 1) == limit * m + limit;
  }

  /** Once the clock has reached `a`: what is left of the open window, and every window that can still start. */
  lemma {:induction false} BoundFrom(s: Sub, events: seq<Event>, t: nat, a: nat, b: nat)
    requires s.rateLimit > 0 && s.window.count <= s.rateLimit
    requires Monotone(events, t)
    ensures AcceptedIn(s, events, a, b) <=
            s.rateLimit - s.window.count + s.rateLimit * Starts(Max(t, s.window.start + SECOND), b)
    decreases |events|
  {
    if events != [] {
      if events[0].PopOne? {
        BoundFrom(Applied(s, events[0]).0, events[1..], t, a, b);
      } else {
        BoundPush(s, events, t, a, b);
      }
    }
  }

  lemma {:induction false} BoundPush(s: Sub, events: seq<Event>, t: nat, a: nat, b: nat)
    requires s.rateLimit > 0 && s.window.count <= s.rateLimit
    requires Monotone(events, t) && events != [] && events[0].PushAt?
    ensures AcceptedIn(s, events, a, b) <=
            s.rateLimit - s.window.count + s.rateLimit * Starts(Max(t, s.window.start + SECOND), b)
    decreases |events|, 0
  {
    var now := events[0].now;
    var (s', accepted) := Applied(s, events[0]);
    var x, x' := Max(t, s.window.start + SECOND), Max(now, s'.window.start + SECOND);
    WindowStep(s, now, events[0].frame);
    if now >= b {
      NothingAfter(s', events[1..], now, a, b);
      NonNegative(s.rateLimit, Starts(x, b));
    } else {
      BoundFrom(s', events[1..], now, a, b);
      if now >= s.window.start + SECOND {
        StartsStep(x, now, b);
        NewWindowFits(s.rateLimit, s.window.count, s.rateLimit, Starts(x', b), Starts(x, b));
      } else {
        StartsMonotone(x, x', b);
        LimitTimes(s.rateLimit, Starts(x', b), Starts(x, b));
      }
    }
  }

  lemma NonNegative(m: nat, n: nat)
    ensures m * n >= 0
  {
  }

  lemma LimitTimes(limit: nat, m: nat, n: nat)
    requires m <= n
    ensures limit * m <= limit * n
  {
  }

  /** From `a` on: the open window and every window that starts in the interval. */
  lemma FromTheStart(limit: nat, count: nat, x: nat, a: nat, seconds: nat)
    requires count <= limit && a <= x
    ensures limit - count + limit * Starts(x, a + seconds * SECOND) <= (seconds + 1) * limit
  {
    StartsMonotone(a, x, a + seconds * SECOND);
    StartsInSeconds(a, seconds);
    LimitTimes(limit, Starts(x, a + seconds * SECOND), seconds);
    OneMoreTimes(limit, seconds);
  }

  lemma OneMoreTimes(limit: nat, m: nat)
    ensures limit * (m + 1) == limit * m + limit
  {
  }

  /** The clock has not reached `a` yet. */
  lemma {:induction false} BoundBefore(s: Sub, events: seq<Event>, t: nat, a: nat, seconds: nat)
    requires s.rateLimit > 0 && s.window.count <= s.rateLimit && Monotone(events, t)
    ensures AcceptedIn(s, events, a, a + seconds * SECOND) <= (seconds + 1) * s.rateLimit
    decreases |events|
  {
    var b, x := a + seconds * SECOND, Max(Max(a, t), s.window.start + SECOND);
    FromTheStart(s.rateLimit, s.window.count, x, a, seconds);
    if t >= a {
      BoundFrom(s, events, t, a, b);
    } else if events != [] {
      var e := events[0];
      var s' := Applied(s, e).0;
      if e.PopOne? {
        BoundBefore(s', events[1..], t, a, seconds);
      } else if e.now < a {
        WindowStep(s, e.now, e.frame);
        BoundBefore(s', events[1..], e.now, a, seconds);
      } else {
        BoundPush(s, events, a, a, b);
      }
    }
  }

  /** A queue as `subscribe` makes it, at time `start`. */
  function Fresh(capacity: nat, policy: Policy, limit: nat, start: nat): Sub {
    Sub([], capacity, policy, limit, Window(start, 0), false)
  }

  /** Main result. However frames arrive and are taken out, at most (T + 1) * limit of them are accepted in any
      interval of T seconds: windows start at least a second apart, so T of them start inside it and one before. */
  lemma RateBound(capacity: nat, policy: Policy, limit: nat, start: nat, events: seq<Event>, a: nat, seconds: nat)
    requires limit > 0 && Monotone(events, start)
    ensures AcceptedIn(Fresh(capacity, policy, limit, start), events, a, a + seconds * SECOND) <= (seconds + 1) * limit
  {
    BoundBefore(Fresh(capacity, policy, limit, start), events, start, a, seconds);
  }

  // ---------------------------------------------------------------------------
  // Sharper bounds, by the phase of the interval
  // ---------------------------------------------------------------------------

  /** A push inside the interval opens a window: from here on only windows that start in the interval count. */
  lemma OpeningPush(s: Sub, events: seq<Event>, a: nat, seconds: nat)
    requires s.rateLimit > 0 && s.window.count <= s.rateLimit
    requires events != [] && events[0].PushAt? && Monotone(events, a) && events[0].now >= s.window.start + SECOND
    ensures AcceptedIn(s, events, a, a + seconds * SECOND) <= seconds * s.rateLimit
  {
    var now, b := events[0].now, a + seconds * SECOND;
    var s' := Applied(s, events[0]).0;
    WindowStep(s, now, events[0].frame);
    NonNegative(seconds, s.rateLimit);
    if now >= b {
      NothingAfter(s', events[1..], now, a, b);
    } else {
      BoundFrom(s', events[1..], now, a, b);
      assert Max(now, s'.window.start + SECOND) == now + SECOND;
      StartsStep(a, now, b);
      StartsInSeconds(a, seconds);
      WindowsFit(s.rateLimit, Starts(now + SECOND, b), seconds);
    }
  }

  lemma WindowsFit(limit: nat, later: nat, seconds: nat)
    requires later + 1 <= seconds
    ensures limit + limit * later <= seconds * limit
  {
    LimitTimes(limit, later + 1, seconds);
    OneMoreTimes(limit, later);
  }

  /** The first window ends where the interval begins. */
  lemma {:induction false} BoundAligned(s: Sub, events: seq<Event>, t: nat, a: nat, seconds: nat)
    requires s.rateLimit > 0 && s.window.count <= s.rateLimit && Monotone(events, t)
    requires a == s.window.start + SECOND
    ensures AcceptedIn(s, events, a, a + seconds * SECOND) <= seconds * s.rateLimit
    decreases |events|
  {
    NonNegative(seconds, s.rateLimit);
    if events != [] {
      var s' := Applied(s, events[0]).0;
      if events[0].PopOne? {
        BoundAligned(s', events[1..], t, a, seconds);
      } else if events[0].now >= a {
        OpeningPush(s, events, a, seconds);
      } else {
        WindowStep(s, events[0].now, events[0].frame);
        BoundAligned(s', events[1..], events[0].now, a, seconds);
      }
    }
  }

  /** The interval begins after the first window, or after a push that the window open then has counted. */
  lemma {:induction false} BoundLater(s: Sub, events: seq<Event>, t: nat, a: nat, seconds: nat)
    requires s.rateLimit > 0 && s.window.count <= s.rateLimit && Monotone(events, t) && seconds > 0
    requires s.window.start + SECOND <= a || s.window.count >= 1
    ensures AcceptedIn(s, events, a, a + seconds * SECOND) <= (seconds + 1) * s.rateLimit - 1
    decreases |events|
  {
    OneMoreTimes(s.rateLimit, seconds);
    if events != [] {
      var s' := Applied(s, events[0]).0;
      if events[0].PopOne? {
        BoundLater(s', events[1..], t, a, seconds);
      } else {
        var now := events[0].now;
        WindowStep(s, now, events[0].frame);
        if now < a {
          BoundLater(s', events[1..], now, a, seconds);
        } else if now >= s.window.start + SECOND {
          OpeningPush(s, events, a, seconds);
        } else {
          var b := a + seconds * SECOND;
          BoundPush(s, events, a, a, b);
          StartsMonotone(a, Max(a, s.window.start + SECOND), b);
          StartsInSeconds(a, seconds);
          LimitTimes(s.rateLimit, Starts(Max(a, s.window.start + SECOND), b), seconds);
        }
      }
    }
  }

  /** The interval begins no later than the first window. */
  lemma BoundEarly(s: Sub, events: seq<Event>, a: nat, seconds: nat)
    requires s.rateLimit > 0 && s.window.count == 0 && Monotone(events, s.window.start)
    requires a <= s.window.start && seconds > 0
    ensures AcceptedIn(s, events, a, a + seconds * SECOND) <= seconds * s.rateLimit
  {
    var b, x := a + seconds * SECOND, s.window.start + SECOND;
    BoundFrom(s, events, s.window.start, a, b);
    StartsEarly(a, x, b, seconds);
    LimitTimes(s.rateLimit, Starts(x, b), seconds - 1);
    OneMoreTimes(s.rateLimit, seconds - 1);
  }

  lemma StartsEarly(a: nat, x: int, b: int, seconds: nat)
    requires x >= a + SECOND && b == a + seconds * SECOND && seconds > 0
    ensures Starts(x, b) <= seconds - 1
  {
    StartsMonotone(a + SECOND, x, b);
    assert b == a + SECOND + (seconds - 1) * SECOND;
    StartsInSeconds(a + SECOND, seconds - 1);
  }

  // ---------------------------------------------------------------------------
  // The bounds are reached
  // ---------------------------------------------------------------------------

  /** `n` frames pushed and taken out one by one at the same instant. */
  function Burst(n: nat, now: nat): seq<Event>
    decreases n
  {
    if n == 0 then [] else [PushAt(now, DEFAULT), PopOne] + Burst(n - 1, now)
  }

  /** A full burst at the start of each of `n` windows from `now` on. */
  function Bursts(n: nat, limit: nat, now: nat): seq<Event>
    decreases n
  {
    if n == 0 then [] else Burst(limit, now) + Bursts(n - 1, limit, now + SECOND)
  }

  /** The window a push at `now` is counted in. */
  function Open(w: Window, now: nat): Window { if now >= w.start + SECOND then Window(now, 0) else w }

  /** An empty limited queue with room. */
  predicate Ready(s: Sub) { s.queue == [] && s.capacity >= 1 && s.rateLimit > 0 }

  /** Whatever the policy, a frame finds room and leaves again. */
  lemma OneAccepted(s: Sub, now: nat, rest: seq<Event>, a: nat, b: nat) returns (s': Sub)
    requires Ready(s) && Open(s.window, now).count < s.rateLimit
    ensures Ready(s') && s'.rateLimit == s.rateLimit
    ensures s'.window == Window(Open(s.window, now).start, Open(s.window, now).count + 1)
    ensures AcceptedIn(s, [PushAt(now, DEFAULT), PopOne] + rest, a, b)
            == (if a <= now < b then 1 else 0) + AcceptedIn(s', rest, a, b)
  {
    var events := [PushAt(now, DEFAULT), PopOne] + rest;
    var t := Applied(s, PushAt(now, DEFAULT)).0;
    s' := Applied(t, PopOne).0;
    assert events[1..] == [PopOne] + rest;
    assert events[1..][1..] == rest;
    assert [DEFAULT][1..] == [];
  }

  lemma {:induction false} BurstAccepted(s: Sub, n: nat, now: nat, rest: seq<Event>, a: nat, b: nat) returns (s': Sub)
    requires Ready(s) && n >= 1 && Open(s.window, now).count + n <= s.rateLimit
    ensures AcceptedIn(s, Burst(n, now) + rest, a, b) == (if a <= now < b then n else 0) + AcceptedIn(s', rest, a, b)
    ensures Ready(s') && s'.rateLimit == s.rateLimit
    ensures s'.window == Window(Open(s.window, now).start, Open(s.window, now).count + n)
    decreases n
  {
    var more := Burst(n - 1, now) + rest;
    assert Burst(n, now) + rest == [PushAt(now, DEFAULT), PopOne] + more;
    s' := OneAccepted(s, now, more, a, b);
    if n == 1 {
      assert more == rest;
    } else {
      s' := BurstAccepted(s', n - 1, now, rest, a, b);
    }
  }

  lemma {:induction false} BurstMonotone(n: nat, now: nat, rest: seq<Event>, t: nat)
    requires t <= now && Monotone(rest, now)
    ensures Monotone(Burst(n, now) + rest, t)
    decreases n
  {
    if n == 0 {
      assert Burst(n, now) + rest == rest;
      Earlier(rest, now, t);
    } else {
      var more := Burst(n - 1, now) + rest;
      var events := Burst(n, now) + rest;
      BurstMonotone(n - 1, now, rest, now);
      assert events == [PushAt(now, DEFAULT), PopOne] + more;
      assert events[1..] == [PopOne] + more;
      assert events[1..][1..] == more;
    }
  }

  lemma {:induction false} Earlier(events: seq<Event>, now: nat, t: nat)
    requires t <= now && Monotone(events, now)
    ensures Monotone(events, t)
    decreases |events|
  {
    if events != [] && events[0].PopOne? {
      Earlier(events[1..], now, t);
    }
  }

  lemma {:induction false} BurstsMonotone(n: nat, limit: nat, now: nat, t: nat)
    requires t <= now
    ensures Monotone(Bursts(n, limit, now), t)
    decreases n
  {
    if n > 0 {
      BurstsMonotone(n - 1, limit, now + SECOND, now);
      BurstMonotone(limit, now, Bursts(n - 1, limit, now + SECOND), t);
    }
  }

  lemma OneMore(n: nat, limit: nat)
    requires n > 0
    ensures limit + (n - 1) * limit == n * limit
  {
  }

  lemma {:induction false} BurstsAccepted(s: Sub, n: nat, now: nat, a: nat, b: nat)
    requires Ready(s) && now == s.window.start + SECOND
    requires a <= now && now + n * SECOND < b + SECOND
    ensures AcceptedIn(s, Bursts(n, s.rateLimit, now), a, b) == n * s.rateLimit
    decreases n
  {
    if n > 0 {
      var limit := s.rateLimit;
      var rest := Bursts(n - 1, limit, now + SECOND);
      assert Bursts(n, limit, now) == Burst(limit, now) + rest;
      var s' := BurstAccepted(s, limit, now, rest, a, b);
      BurstsAccepted(s', n - 1, now + SECOND, a, b);
      OneMore(n, limit);
    }
  }

  /** An interval that begins inside the first second. */
  function WorstEarly(limit: nat, start: nat, a: nat, seconds: nat): seq<Event> {
    Burst(limit, a) + Bursts(seconds, limit, start + SECOND)
  }

  /** An interval that begins later: a single frame has just opened a window. */
  function WorstLater(limit: nat, a: nat, seconds: nat): seq<Event>
    requires limit >= 1 && a >= 1
  {
    Burst(1, a - 1) + (Burst(limit - 1, a) + Bursts(seconds, limit, a - 1 + SECOND))
  }

  /** Main result.  The bound is reached, under every policy, by every interval that begins inside the first second. */
  lemma RateBoundIsReached(capacity: nat, policy: Policy, limit: nat, start: nat, a: nat, seconds: nat)
    requires capacity >= 1 && limit > 0 && start < a < start + SECOND && seconds > 0
    ensures var events := WorstEarly(limit, start, a, seconds);
            && Monotone(events, start)
            && AcceptedIn(Fresh(capacity, policy, limit, start), events, a, a + seconds * SECOND)
               == (seconds + 1) * limit
  {
    var rest := Bursts(seconds, limit, start + SECOND);
    BurstsMonotone(seconds, limit, start + SECOND, a);
    BurstMonotone(limit, a, rest, start);
    BurstThenBursts(Fresh(capacity, policy, limit, start), limit, a, seconds);
    OneMoreTimes(limit, seconds);
  }

  /** `n` frames at the start of the interval, then a full burst in each of the windows that begin inside it. */
  lemma BurstThenBursts(s: Sub, n: nat, a: nat, seconds: nat)
    requires Ready(s) && seconds > 0 && n >= 1 && s.window.count + n <= s.rateLimit
    requires s.window.start < a < s.window.start + SECOND
    ensures AcceptedIn(s, Burst(n, a) + Bursts(seconds, s.rateLimit, s.window.start + SECOND), a, a + seconds * SECOND)
            == n + s.rateLimit * seconds
  {
    var rest := Bursts(seconds, s.rateLimit, s.window.start + SECOND);
    LimitTimes(SECOND, 1, seconds);
    var s' := BurstAccepted(s, n, a, rest, a, a + seconds * SECOND);
    BurstsAccepted(s', seconds, s.window.start + SECOND, a, a + seconds * SECOND);
    Commutes(s.rateLimit, seconds);
  }

  lemma Commutes(m: nat, n: nat)
    ensures m * n == n * m
  {
  }

  lemma WorstLaterIsMonotone(limit: nat, start: nat, a: nat, seconds: nat)
    requires limit > 0 && a > start
    ensures Monotone(WorstLater(limit, a, seconds), start)
  {
    var last := Bursts(seconds, limit, a - 1 + SECOND);
    BurstsMonotone(seconds, limit, a - 1 + SECOND, a);
    BurstMonotone(limit - 1, a, last, a - 1);
    BurstMonotone(1, a - 1, Burst(limit - 1, a) + last, start);
  }

  /** Later intervals reach one frame less. */
  lemma LaterBoundIsReached(capacity: nat, policy: Policy, limit: nat, start: nat, a: nat, seconds: nat)
    requires capacity >= 1 && limit > 0 && a > start + SECOND && seconds > 0
    ensures var events := WorstLater(limit, a, seconds);
            && Monotone(events, start)
            && AcceptedIn(Fresh(capacity, policy, limit, start), events, a, a + seconds * SECOND)
               == (seconds + 1) * limit - 1
  {
    var rest := Burst(limit - 1, a) + Bursts(seconds, limit, a - 1 + SECOND);
    WorstLaterIsMonotone(limit, start, a, seconds);
    var s' := BurstAccepted(Fresh(capacity, policy, limit, start), 1, a - 1, rest, a, a + seconds * SECOND);
    RestOfWorst(s', a, seconds);
  }

  /** After the frame that opened the window. */
  lemma RestOfWorst(s: Sub, a: nat, seconds: nat)
    requires Ready(s) && a >= 1 && s.window == Window(a - 1, 1) && seconds > 0
    ensures var events := Burst(s.rateLimit - 1, a) + Bursts(seconds, s.rateLimit, a - 1 + SECOND);
            AcceptedIn(s, events, a, a + seconds * SECOND) == (seconds + 1) * s.rateLimit - 1
  {
    OneMoreTimes(s.rateLimit, seconds);
    if s.rateLimit == 1 {
      LimitTimes(SECOND, 1, seconds);
      assert Burst(0, a) + Bursts(seconds, 1, a - 1 + SECOND) == Bursts(seconds, 1, a - 1 + SECOND);
      BurstsAccepted(s, seconds, a - 1 + SECOND, a, a + seconds * SECOND);
    } else {
      BurstThenBursts(s, s.rateLimit - 1, a, seconds);
    }
  }

  // ---------------------------------------------------------------------------
  // When the documented limit holds
  // ---------------------------------------------------------------------------

  /** When an interval of whole seconds respects the documented limit: it begins before the subscription or exactly
      as its first second ends, or after that and with a limit of one frame. */
  predicate RespectsLimit(limit: nat, start: nat, a: nat) {
    a <= start || a == start + SECOND || (a > start + SECOND && limit == 1)
  }

  /** Main result.  From one second after the subscription on, the bound is one frame lower, and it too is reached. */
  lemma RateBoundLater(capacity: nat, policy: Policy, limit: nat, start: nat, events: seq<Event>, a: nat, seconds: nat)
    requires limit > 0 && Monotone(events, start) && a >= start + SECOND && seconds > 0
    ensures AcceptedIn(Fresh(capacity, policy, limit, start), events, a, a + seconds * SECOND)
            <= (seconds + 1) * limit - 1
  {
    BoundLater(Fresh(capacity, policy, limit, start), events, start, a, seconds);
  }

  lemma LimitRespected(capacity: nat, policy: Policy, limit: nat, start: nat, events: seq<Event>, a: nat, seconds: nat)
    requires limit > 0 && seconds > 0 && Monotone(events, start) && RespectsLimit(limit, start, a)
    ensures AcceptedIn(Fresh(capacity, policy, limit, start), events, a, a + seconds * SECOND) <= seconds * limit
  {
    var s := Fresh(capacity, policy, limit, start);
    if a <= start {
      BoundEarly(s, events, a, seconds);
    } else if a == start + SECOND {
      BoundAligned(s, events, start, a, seconds);
    } else {
      BoundLater(s, events, start, a, seconds);
    }
  }

  lemma LimitExceeded(capacity: nat, policy: Policy, limit: nat, start: nat, a: nat, seconds: nat)
    returns (events: seq<Event>)
    requires capacity >= 1 && limit > 0 && seconds > 0 && !RespectsLimit(limit, start, a)
    ensures Monotone(events, start)
    ensures AcceptedIn(Fresh(capacity, policy, limit, start), events, a, a + seconds * SECOND) > seconds * limit
  {
    OneMoreTimes(limit, seconds);
    if a < start + SECOND {
      events := WorstEarly(limit, start, a, seconds);
      RateBoundIsReached(capacity, policy, limit, start, a, seconds);
    } else {
      events := WorstLater(limit, a, seconds);
      LaterBoundIsReached(capacity, policy, limit, start, a, seconds);
    }
  }

  /** One history keeps to the documented limit in one interval. */
  predicate KeepsLimit(capacity: nat, policy: Policy, limit: nat, start: nat, a: nat, seconds: nat,
                       events: seq<Event>)
  {
    Monotone(events, start) ==>
      AcceptedIn(Fresh(capacity, policy, limit, start), events, a, a + seconds * SECOND) <= seconds * limit
  }

  /** Main result. Exactly which intervals of T seconds, one second among them, respect the documented limit
      whatever is pushed and popped. */
  lemma LimitHoldsIff(capacity: nat, policy: Policy, limit: nat, start: nat, a: nat, seconds: nat)
    requires capacity >= 1 && limit > 0 && seconds > 0
    ensures (forall events :: KeepsLimit(capacity, policy, limit, start, a, seconds, events))
            <==> RespectsLimit(limit, start, a)
  {
    if RespectsLimit(limit, start, a) {
      forall events ensures KeepsLimit(capacity, policy, limit, start, a, seconds, events) {
        if Monotone(events, start) {
          LimitRespected(capacity, policy, limit, start, events, a, seconds);
        }
      }
    } else {
      var events := LimitExceeded(capacity, policy, limit, start, a, seconds);
      assert !KeepsLimit(capacity, policy, limit, start, a, seconds, events);
    }
  }
}
