/** The fixed-window rate limits of one WebSocket connection: all messages, each event, and authentications. */
module RateLimiter {
  import opened Common

  datatype Limits = Limits(width: nat, all: nat, auth: nat, sendMessage: nat, signal: nat, authResponse: nat,
                           other: nat)

  datatype Window = Window(start: int, count: nat)

  /** `rateState` and `eventRates` of a connection. */
  datatype Gate = Gate(windowStart: int, count: nat, authCount: nat, events: map<string, Window>)

  datatype Message = Oversized | Malformed | EventMessage(event: string)

  /** A message with the handler's reading of the clock and a second one taken if a window is created. */
  datatype Arrival = Arrival(now: int, created: int, message: Message)

  datatype Verdict = TooLarge | RateExceeded | Invalid | EventRateExceeded | AuthRateExceeded | Accepted

  function EventLimit(limits: Limits, event: string): nat {
    match event
    case "send_message" => limits.sendMessage
    case "signal" => limits.signal
    case "auth_response" => limits.authResponse
    case _ => limits.other
  }

  function Roll(w: Window, now: int, width: nat): Window {
    if now - w.start > width then Window(now, 0) else w
  }

  function Hit(w: Window, now: int, width: nat): Window {
    var r := Roll(w, now, width);
    Window(r.start, r.count + 1)
  }

  function Admit(limits: Limits, g: Gate, x: Arrival): (Gate, Verdict) {
    if x.message.Oversized? then (g, TooLarge)
    else
      var rolled := x.now - g.windowStart > limits.width;
      var all := Hit(Window(g.windowStart, g.count), x.now, limits.width);
      var g1 := Gate(all.start, all.count, if rolled then 0 else g.authCount, g.events);
      if g1.count > limits.all then (g1, RateExceeded)
      else if x.message.Malformed? then (g1, Invalid)
      else
        var event := x.message.event;
        var w := Hit(if event in g.events then g.events[event] else Window(x.created, 0), x.now, limits.width);
        if w.count > EventLimit(limits, event) then
          // A window that is already stored is updated in place even when the message is refused.
          (if event in g.events then g1.(events := g1.events[event := w]) else g1, EventRateExceeded)
        else
          var g2 := g1.(events := g1.events[event := w]);
          if event != "auth_response" then (g2, Accepted)
          else
            (g2.(authCount := g2.authCount + 1), if g2.authCount + 1 > limits.auth then AuthRateExceeded else Accepted)
  }

  // ---- The three kinds of limiter, seen alike ---------------------------------------------------------

  datatype Limiter = All | Auth | ByEvent(event: string)

  function LimitOf(limits: Limits, which: Limiter): nat {
    match which
    case All => limits.all
    case Auth => limits.auth
    case ByEvent(event) => EventLimit(limits, event)
  }

  /** The arrival passed this limiter. */
  predicate Passes(which: Limiter, x: Arrival, v: Verdict) {
    match which
    case All => v != TooLarge && v != RateExceeded
    case Auth => v == Accepted && x.message == EventMessage("auth_response")
    case ByEvent(event) => (v == Accepted || v == AuthRateExceeded) && x.message == EventMessage(event)
  }

  function WindowOf(g: Gate, which: Limiter): Option<Window> {
    match which
    case All => Some(Window(g.windowStart, g.count))
    case Auth => Some(Window(g.windowStart, g.authCount))
    case ByEvent(event) => if event in g.events then Some(g.events[event]) else None
  }

  /** How many of the arrivals in the interval [a, b] pass the limiter. */
  function PassedIn(limits: Limits, g: Gate, xs: seq<Arrival>, which: Limiter, a: int, b: int): nat
    decreases |xs|
  {
    if xs == [] then 0
    else
      var (next, v) := Admit(limits, g, xs[0]);
      (if a <= xs[0].now <= b && Passes(which, xs[0], v) then 1 else 0) + PassedIn(limits, next, xs[1..], which, a, b)
  }

  ghost predicate ClockRuns(xs: seq<Arrival>) {
    forall i, j :: 0 <= i < j < |xs| ==> xs[i].now <= xs[j].now
  }

  /** What the limiter can still let through in its current window. */
  function Remaining(limits: Limits, w: Option<Window>, which: Limiter): nat {
    var limit := LimitOf(limits, which);
    if w.Some? then Max(0, limit - w.value.count) else limit
  }

  /** A limiter's window only fills up or starts afresh at the time of the arrival. */
  lemma OneStep(limits: Limits, g: Gate, x: Arrival, which: Limiter)
    ensures var (next, v) := Admit(limits, g, x);
            var w, w' := WindowOf(g, which), WindowOf(next, which);
            var spent := if Passes(which, x, v) then 1 else 0;
            || (w == w' && spent == 0)
            || (w'.Some? && w'.value.start == x.now && Remaining(limits, w', which) + spent <= LimitOf(limits, which)
                && (w.Some? ==> x.now - w.value.start > limits.width))
            || (w.Some? && w'.Some? && w'.value.start == w.value.start &&
                Remaining(limits, w', which) + spent <= Remaining(limits, w, which))
            || (w.None? && w'.Some? && Remaining(limits, w', which) + spent <= LimitOf(limits, which))
  {
  }

  lemma {:induction false} NothingAfterEnd(limits: Limits, g: Gate, xs: seq<Arrival>, which: Limiter, a: int, b: int)
    requires forall i :: 0 <= i < |xs| ==> b < xs[i].now
    ensures PassedIn(limits, g, xs, which, a, b) == 0
    decreases |xs|
  {
    if xs == [] {
    } else {
      NothingAfterEnd(limits, Admit(limits, g, xs[0]).0, xs[1..], which, a, b);
    }
  }

  /** While the current window reaches to b, only what it has left can pass up to b. */
  lemma {:induction false} WithinWindow(limits: Limits, g: Gate, xs: seq<Arrival>, which: Limiter, a: int, b: int)
    requires ClockRuns(xs)
    requires WindowOf(g, which).Some? && b - WindowOf(g, which).value.start <= limits.width
    ensures PassedIn(limits, g, xs, which, a, b) <= Remaining(limits, WindowOf(g, which), which)
    decreases |xs|
  {
    if xs == [] {
    } else if xs[0].now > b {
      NothingAfterEnd(limits, g, xs, which, a, b);
    } else {
      OneStep(limits, g, xs[0], which);
      WithinWindow(limits, Admit(limits, g, xs[0]).0, xs[1..], which, a, b);
    }
  }

  /** From time a on: what the current window has left, and one more window. */
  lemma {:induction false} TwoWindows(limits: Limits, g: Gate, xs: seq<Arrival>, which: Limiter, a: int, b: int)
    requires ClockRuns(xs) && b - a <= limits.width
    requires forall i :: 0 <= i < |xs| ==> a <= xs[i].now
    ensures PassedIn(limits, g, xs, which, a, b) <= Remaining(limits, WindowOf(g, which), which) +
              LimitOf(limits, which)
    decreases |xs|
  {
    if xs == [] {
    } else if xs[0].now > b {
      NothingAfterEnd(limits, g, xs, which, a, b);
    } else {
      var next := Admit(limits, g, xs[0]).0;
      OneStep(limits, g, xs[0], which);
      TwoWindows(limits, next, xs[1..], which, a, b);
      if WindowOf(next, which).Some? && WindowOf(next, which).value.start == xs[0].now {
        WithinWindow(limits, next, xs[1..], which, a, b);
      }
    }
  }

  /**
   * Over every message sequence with a clock that never runs back, a time interval no longer than
   * the window lets at most twice the limit through: of all messages, of each event, and of
   * authentications.
   */
  lemma {:induction false} AtMostTwiceTheLimit(
    limits: Limits, g: Gate, xs: seq<Arrival>, which: Limiter, a: int, b: int
  )
    requires ClockRuns(xs) && b - a <= limits.width
    ensures PassedIn(limits, g, xs, which, a, b) <= 2 * LimitOf(limits, which)
    decreases |xs|
  {
    if xs == [] {
    } else if a <= xs[0].now {
      TwoWindows(limits, g, xs, which, a, b);
    } else {
      AtMostTwiceTheLimit(limits, Admit(limits, g, xs[0]).0, xs[1..], which, a, b);
    }
  }

  // ---- What a connection can reach ---------------------------------------------------------------------------

  function Connected(now: int): Gate { Gate(now, 0, 0, map[]) }

  /** An event's window is created by a message that it counts, so two full windows never fit into one interval. */
  function MostIn(limits: Limits, which: Limiter): nat {
    if which.ByEvent? then Max(0, 2 * LimitOf(limits, which) - 1) else 2 * LimitOf(limits, which)
  }

  /** Every stored event window has counted the message that created it. */
  ghost predicate WindowsUsed(g: Gate) { forall event :: event in g.events ==> g.events[event].count >= 1 }

  ghost predicate CreatedAfterwards(xs: seq<Arrival>) { forall i :: 0 <= i < |xs| ==> xs[i].now <= xs[i].created }

  lemma StepKeepsUsed(limits: Limits, g: Gate, x: Arrival)
    requires WindowsUsed(g)
    ensures WindowsUsed(Admit(limits, g, x).0)
  {
  }

  /** From time a on, once the clock has reached it: a used window has less than its limit left. */
  lemma {:induction false} EventFrom(limits: Limits, g: Gate, xs: seq<Arrival>, event: string, a: int, b: int)
    requires ClockRuns(xs) && CreatedAfterwards(xs) && WindowsUsed(g) && b - a <= limits.width
    requires forall i :: 0 <= i < |xs| ==> a <= xs[i].now
    ensures PassedIn(limits, g, xs, ByEvent(event), a, b) <= MostIn(limits, ByEvent(event))
    decreases |xs|
  {
    var which := ByEvent(event);
    if xs == [] {
    } else if WindowOf(g, which).Some? {
      TwoWindows(limits, g, xs, which, a, b);
    } else if xs[0].now > b {
      NothingAfterEnd(limits, g, xs, which, a, b);
    } else {
      var next := Admit(limits, g, xs[0]).0;
      OneStep(limits, g, xs[0], which);
      StepKeepsUsed(limits, g, xs[0]);
      if WindowOf(next, which).None? {
        EventFrom(limits, next, xs[1..], event, a, b);
      } else {
        assert WindowOf(next, which).value.start == xs[0].created;
        WithinWindow(limits, next, xs[1..], which, a, b);
      }
    }
  }

  lemma {:induction false} EventBound(limits: Limits, g: Gate, xs: seq<Arrival>, event: string, a: int, b: int)
    requires ClockRuns(xs) && CreatedAfterwards(xs) && WindowsUsed(g) && b - a <= limits.width
    ensures PassedIn(limits, g, xs, ByEvent(event), a, b) <= MostIn(limits, ByEvent(event))
    decreases |xs|
  {
    if xs == [] {
    } else if a <= xs[0].now {
      EventFrom(limits, g, xs, event, a, b);
    } else {
      StepKeepsUsed(limits, g, xs[0]);
      EventBound(limits, Admit(limits, g, xs[0]).0, xs[1..], event, a, b);
    }
  }

  /** The bound over every message sequence of one connection, one less than twice the limit for a single event. */
  lemma ConnectionBound(limits: Limits, start: int, xs: seq<Arrival>, which: Limiter, a: int, b: int)
    requires ClockRuns(xs) && CreatedAfterwards(xs) && b - a <= limits.width
    ensures PassedIn(limits, Connected(start), xs, which, a, b) <= MostIn(limits, which)
  {
    if which.ByEvent? {
      EventBound(limits, Connected(start), xs, which.event, a, b);
    } else {
      AtMostTwiceTheLimit(limits, Connected(start), xs, which, a, b);
    }
  }

  // ---- The bound is met -----------------------------------------------------------------------------------

  function After(limits: Limits, g: Gate, xs: seq<Arrival>): Gate
    decreases |xs|
  {
    if xs == [] then g else After(limits, Admit(limits, g, xs[0]).0, xs[1..])
  }

  lemma {:induction false} PassedAppend(
    limits: Limits, g: Gate, xs: seq<Arrival>, ys: seq<Arrival>, which: Limiter, a: int, b: int
  )
    ensures PassedIn(limits, g, xs + ys, which, a, b)
         == PassedIn(limits, g, xs, which, a, b) + PassedIn(limits, After(limits, g, xs), ys, which, a, b)
    decreases |xs|
  {
    if xs == [] {
      assert xs + ys == ys;
    } else {
      assert (xs + ys)[0] == xs[0] && (xs + ys)[1..] == xs[1..] + ys;
      PassedAppend(limits, Admit(limits, g, xs[0]).0, xs[1..], ys, which, a, b);
    }
  }

  function Burst(n: nat, now: int, m: Message): seq<Arrival> {
    if n == 0 then [] else [Arrival(now, now, m)] + Burst(n - 1, now, m)
  }

  lemma {:induction false} BurstTimes(n: nat, now: int, m: Message)
    ensures |Burst(n, now, m)| == n
    ensures forall i :: 0 <= i < n ==> Burst(n, now, m)[i].now == Burst(n, now, m)[i].created == now
  {
    if n == 0 {
    } else {
      BurstTimes(n - 1, now, m);
    }
  }

  /** The windows that count the message are open and have room for n more. */
  predicate Room(limits: Limits, g: Gate, m: Message, now: int, n: nat) {
    && now - g.windowStart <= limits.width && g.count + n <= limits.all
    && (m.EventMessage? ==>
          && m.event in g.events && now - g.events[m.event].start <= limits.width
          && g.events[m.event].count + n <= EventLimit(limits, m.event))
  }

  /** The gate after n such messages. */
  function Spent(g: Gate, m: Message, n: nat): Gate
    requires m.EventMessage? ==> m.event in g.events
  {
    if !m.EventMessage? then g.(count := g.count + n)
    else
      var w := g.events[m.event];
      g.(count := g.count + n, events := g.events[m.event := Window(w.start, w.count + n)],
         authCount := if m.event == "auth_response" then g.authCount + n else g.authCount)
  }

  predicate CountsFor(limits: Limits, g: Gate, m: Message, which: Limiter, n: nat) {
    match which
    case All => true
    case Auth => m == EventMessage("auth_response") && g.authCount + n <= limits.auth
    case ByEvent(event) => m == EventMessage(event)
  }

  lemma OneSpent(limits: Limits, g: Gate, now: int, m: Message, which: Limiter)
    requires !m.Oversized? && Room(limits, g, m, now, 1) && CountsFor(limits, g, m, which, 1)
    ensures var x := Arrival(now, now, m);
            Admit(limits, g, x).0 == Spent(g, m, 1) && Passes(which, x, Admit(limits, g, x).1)
  {
  }

  lemma {:induction false} BurstSpends(
    limits: Limits, g: Gate, n: nat, now: int, m: Message, which: Limiter, a: int, b: int
  )
    requires !m.Oversized? && a <= now <= b && Room(limits, g, m, now, n) && CountsFor(limits, g, m, which, n)
    ensures PassedIn(limits, g, Burst(n, now, m), which, a, b) == n
    ensures After(limits, g, Burst(n, now, m)) == Spent(g, m, n)
    decreases n
  {
    if n == 0 {
      assert m.EventMessage? ==> g.events[m.event := g.events[m.event]] == g.events;
    } else {
      var next := Spent(g, m, 1);
      OneSpent(limits, g, now, m, which);
      BurstSpends(limits, next, n - 1, now, m, which, a, b);
      SpentTwice(g, m, n);
    }
  }

  lemma SpentTwice(g: Gate, m: Message, n: nat)
    requires n > 0 && (m.EventMessage? ==> m.event in g.events)
    ensures m.EventMessage? ==> m.event in Spent(g, m, 1).events
    ensures Spent(Spent(g, m, 1), m, n - 1) == Spent(g, m, n)
  {
  }

  /** A burst whose first message opens a window: that message leads to `started`, the others spend. */
  lemma OpeningBurst(limits: Limits, g: Gate, n: nat, now: int, m: Message, which: Limiter, a: int, b: int, next: Gate)
    requires n > 0 && !m.Oversized? && a <= now <= b
    requires var x := Arrival(now, now, m); Admit(limits, g, x).0 == next && Passes(which, x, Admit(limits, g, x).1)
    requires Room(limits, next, m, now, n - 1) && CountsFor(limits, next, m, which, n - 1)
    ensures PassedIn(limits, g, Burst(n, now, m), which, a, b) == n
    ensures After(limits, g, Burst(n, now, m)) == Spent(next, m, n - 1)
  {
    assert Burst(n, now, m)[1..] == Burst(n - 1, now, m);
    BurstSpends(limits, next, n - 1, now, m, which, a, b);
  }

  /** Two bursts, one at the end of a window of all messages and one just after it. */
  ghost predicate Reached(limits: Limits, start: int, which: Limiter, n: nat) {
    exists xs: seq<Arrival>, a: int, b: int ::
      && ClockRuns(xs) && CreatedAfterwards(xs) && b - a <= limits.width
      && PassedIn(limits, Connected(start), xs, which, a, b) == n
  }

  ghost predicate InOrder(xs: seq<Arrival>, from: int) {
    ClockRuns(xs) && CreatedAfterwards(xs) && forall i :: 0 <= i < |xs| ==> from <= xs[i].now
  }

  lemma BurstsInOrder(n: nat, k: nat, m: Message, first: int, second: int)
    requires first <= second
    ensures InOrder(Burst(n, first, m) + Burst(k, second, m), first)
  {
    BurstTimes(n, first, m);
    BurstTimes(k, second, m);
  }

  lemma AllReached(limits: Limits, start: int)
    requires limits.width > 0
    ensures Reached(limits, start, All, 2 * limits.all)
  {
    var g, first, second := Connected(start), start + limits.width, start + limits.width + 1;
    var n, m := limits.all, Malformed;
    var xs := Burst(n, first, m) + Burst(n, second, m);
    BurstsInOrder(n, n, m, first, second);
    BurstSpends(limits, g, n, first, m, All, first, second);
    PassedAppend(limits, g, Burst(n, first, m), Burst(n, second, m), All, first, second);
    if n > 0 {
      OpeningBurst(limits, Spent(g, m, n), n, second, m, All, first, second, Gate(second, 1, 0, map[]));
    }
    assert PassedIn(limits, g, xs, All, first, second) == 2 * n;
  }

  lemma AuthBursts(limits: Limits, start: int, n: nat, first: int, second: int)
    requires n == limits.auth && 0 < n <= limits.all && 2 * n <= limits.authResponse
    requires first == start + limits.width && second == first + 1 && limits.width > 0
    ensures var m, g := EventMessage("auth_response"), Connected(start);
            && PassedIn(limits, g, Burst(n, first, m), Auth, first, second) == n
            && PassedIn(limits, After(limits, g, Burst(n, first, m)), Burst(n, second, m), Auth, first, second) == n
  {
    var m, event := EventMessage("auth_response"), "auth_response";
    var once, full := Gate(start, 1, 1, map[event := Window(first, 1)]),
        Gate(start, n, n, map[event := Window(first, n)]);
    OpeningBurst(limits, Connected(start), n, first, m, Auth, first, second, once);
    assert Spent(once, m, n - 1) == full;
    OpeningBurst(limits, full, n, second, m, Auth, first, second,
                 Gate(second, 1, 1, map[event := Window(first, n + 1)]));
  }

  lemma AuthReached(limits: Limits, start: int)
    requires limits.width > 0 && limits.auth <= limits.all && 2 * limits.auth <= limits.authResponse
    ensures Reached(limits, start, Auth, 2 * limits.auth)
  {
    var g, first, second := Connected(start), start + limits.width, start + limits.width + 1;
    var n, m := limits.auth, EventMessage("auth_response");
    var xs := Burst(n, first, m) + Burst(n, second, m);
    BurstsInOrder(n, n, m, first, second);
    PassedAppend(limits, g, Burst(n, first, m), Burst(n, second, m), Auth, first, second);
    if n > 0 {
      AuthBursts(limits, start, n, first, second);
    }
    assert PassedIn(limits, g, xs, Auth, first, second) == 2 * n;
  }

  /** A first message opens the event's window with the connection's; the rest of the limit comes as both run out. */
  lemma EventBursts(limits: Limits, start: int, event: string, n: nat, g: Gate, first: int, second: int)
    requires n == EventLimit(limits, event) && 0 < n <= limits.all
    requires first == start + limits.width && second == first + 1 && limits.width > 0
    requires g == Gate(start, 1, if event == "auth_response" then 1 else 0, map[event := Window(start, 1)])
    ensures var m, which := EventMessage(event), ByEvent(event);
            && PassedIn(limits, g, Burst(n - 1, first, m), which, first, second) == n - 1
            && PassedIn(limits, After(limits, g, Burst(n - 1, first, m)), Burst(n, second, m), which, first, second)
              == n
  {
    var m, which, auth := EventMessage(event), ByEvent(event), if event == "auth_response" then 1 else 0;
    BurstSpends(limits, g, n - 1, first, m, which, first, second);
    var full := Spent(g, m, n - 1);
    assert full.windowStart == start && full.events == map[event := Window(start, n)];
    OpeningBurst(limits, full, n, second, m, which, first, second,
                 Gate(second, 1, auth, map[event := Window(second, 1)]));
  }

  lemma EventReached(limits: Limits, start: int, event: string)
    requires limits.width > 0 && 0 < EventLimit(limits, event) <= limits.all
    ensures Reached(limits, start, ByEvent(event), 2 * EventLimit(limits, event) - 1)
  {
    var first, second := start + limits.width, start + limits.width + 1;
    var n, m, which := EventLimit(limits, event), EventMessage(event), ByEvent(event);
    var x, burst, again := Arrival(start, start, m), Burst(n - 1, first, m), Burst(n, second, m);
    var g := Gate(start, 1, if event == "auth_response" then 1 else 0, map[event := Window(start, 1)]);
    assert Admit(limits, Connected(start), x).0 == g;
    EventBursts(limits, start, event, n, g, first, second);
    PassedAppend(limits, g, burst, again, which, first, second);
    BurstsInOrder(n - 1, n, m, first, second);
    FirstOutside(limits, Connected(start), x, burst + again, which, first, second);
  }

  lemma FirstOutside(limits: Limits, g: Gate, x: Arrival, xs: seq<Arrival>, which: Limiter, a: int, b: int)
    requires x.now < a && x.now <= x.created && InOrder(xs, a)
    ensures InOrder([x] + xs, x.now)
    ensures PassedIn(limits, g, [x] + xs, which, a, b) == PassedIn(limits, Admit(limits, g, x).0, xs, which, a, b)
  {
    assert ([x] + xs)[1..] == xs;
  }

  lemma {:induction false} EventsPassAll(limits: Limits, g: Gate, xs: seq<Arrival>, which: Limiter, a: int, b: int)
    ensures PassedIn(limits, g, xs, which, a, b) <= PassedIn(limits, g, xs, All, a, b)
    decreases |xs|
  {
    if xs == [] {
    } else {
      EventsPassAll(limits, Admit(limits, g, xs[0]).0, xs[1..], which, a, b);
    }
  }

  /** For one event the bound is met by some run of messages exactly when the limit on all messages lets it. */
  lemma EventBoundIsReachedIff(limits: Limits, start: int, event: string)
    requires limits.width > 0 && EventLimit(limits, event) > 0
    ensures Reached(limits, start, ByEvent(event), MostIn(limits, ByEvent(event))) <==>
              EventLimit(limits, event) <= limits.all
  {
    var which := ByEvent(event);
    if EventLimit(limits, event) <= limits.all {
      EventReached(limits, start, event);
    } else {
      forall xs: seq<Arrival>, a: int, b: int | ClockRuns(xs) && b - a <= limits.width
        ensures PassedIn(limits, Connected(start), xs, which, a, b) < MostIn(limits, which)
      {
        EventsPassAll(limits, Connected(start), xs, which, a, b);
        AtMostTwiceTheLimit(limits, Connected(start), xs, All, a, b);
      }
    }
  }

  /**
   * Twice the limit of all messages does pass, and so does twice the limit of authentications when the others
   * leave room.
   */
  lemma TwiceTheLimitIsReached(limits: Limits, start: int)
    requires limits.width > 0
    ensures Reached(limits, start, All, MostIn(limits, All))
    ensures limits.auth <= limits.all && 2 * limits.auth <= limits.authResponse ==>
              Reached(limits, start, Auth, MostIn(limits, Auth))
  {
    AllReached(limits, start);
    if limits.auth <= limits.all && 2 * limits.auth <= limits.authResponse {
      AuthReached(limits, start);
    }
  }

  // ---- Verdicts and counters, message by message ---------------------------------------------------------

  /** Each kind of event has the limit of its name, and all others share one. */
  lemma NamedLimits(limits: Limits, event: string)
    ensures EventLimit(limits, "send_message") == limits.sendMessage
    ensures EventLimit(limits, "signal") == limits.signal
    ensures EventLimit(limits, "auth_response") == limits.authResponse
    ensures event !in ["send_message", "signal", "auth_response"] ==> EventLimit(limits, event) == limits.other
  {
  }

  /** How many a window has counted when a message arrives: none once it has run out. */
  function CountedBy(start: int, count: nat, now: int, width: nat): nat {
    if now <= start + width then count else 0
  }

  function EventWindow(g: Gate, x: Arrival): Window
    requires x.message.EventMessage?
  {
    if x.message.event in g.events then g.events[x.message.event] else Window(x.created, 0)
  }

  /**
   * Size is judged first, then the limit on all messages, then form, then the limit of the event, and last the
   * limit on authentications; the message itself counts each time.
   */
  lemma VerdictsExactly(limits: Limits, g: Gate, x: Arrival)
    ensures var v := Admit(limits, g, x).1;
            var full := CountedBy(g.windowStart, g.count, x.now, limits.width) >= limits.all;
            && (v == TooLarge <==> x.message == Oversized)
            && (v == RateExceeded <==> x.message != Oversized && full)
            && (v == Invalid <==> x.message == Malformed && !full)
            && (x.message.EventMessage? && !full ==>
                  var event, w := x.message.event, EventWindow(g, x);
                  var eventFull := CountedBy(w.start, w.count, x.now, limits.width) >= EventLimit(limits, event);
                  var authFull := event == "auth_response" &&
                                  CountedBy(g.windowStart, g.authCount, x.now, limits.width) >= limits.auth;
                  v == if eventFull then EventRateExceeded else if authFull then AuthRateExceeded else Accepted)
  {
  }

  /** Which limiters count a message: a refused one too, once its window is stored. */
  predicate Counted(g: Gate, x: Arrival, v: Verdict, which: Limiter) {
    match which
    case All => v != TooLarge
    case Auth => (v == Accepted || v == AuthRateExceeded) && x.message == EventMessage("auth_response")
    case ByEvent(event) =>
      && x.message == EventMessage(event) && v != RateExceeded && v != TooLarge
      && (v == EventRateExceeded ==> event in g.events)
  }

  /** The windows after a message: those that count it are one up, or start with it when they had run out. */
  lemma WindowsExactly(limits: Limits, g: Gate, x: Arrival, which: Limiter)
    ensures var (next, v) := Admit(limits, g, x);
            var w' := WindowOf(next, which);
            var w := if which.ByEvent? && which.event !in g.events then Window(x.created, 0)
                     else WindowOf(g, which).value;
            var one := if Counted(g, x, v, which) then 1 else 0;
            && (which.ByEvent? && one == 0 ==> w' == WindowOf(g, which))
            && (!which.ByEvent? && v == TooLarge ==> w' == Some(w))
            && (one == 1 || (!which.ByEvent? && v != TooLarge) ==>
                  && w'.Some? && w'.value.count == CountedBy(w.start, w.count, x.now, limits.width) + one
                  && w'.value.start == if x.now <= w.start + limits.width then w.start else x.now)
  {
  }

  // ---- The message handler's counters -----------------------------------------------------------------------

  class RateState {
    const limits: Limits
    var windowStart: int
    var count: nat
    var authCount: nat
    var eventRates: map<string, Window>

    function State(): Gate
      reads this
    {
      Gate(windowStart, count, authCount, eventRates)
    }

    constructor (limits: Limits, now: int)
      ensures State() == Gate(now, 0, 0, map[]) && this.limits == limits
    {
      this.limits, windowStart, count, authCount, eventRates := limits, now, 0, 0, map[];
    }

    method OnMessage(x: Arrival) returns (verdict: Verdict)
      modifies this
      ensures (State(), verdict) == Admit(limits, old(State()), x)
    {
      if x.message.Oversized? {
        return TooLarge;
      }
      if x.now - windowStart > limits.width {
        windowStart := x.now;
        count := 0;
        authCount := 0;
      }
      count := count + 1;
      if count > limits.all {
        return RateExceeded;
      }
      if x.message.Malformed? {
        return Invalid;
      }
      var event := x.message.event;
      var rate := if event in eventRates then eventRates[event] else Window(x.created, 0);
      if x.now - rate.start > limits.width {
        rate := Window(x.now, 0);
      }
      rate := rate.(count := rate.count + 1);
      if event in eventRates {
        eventRates := eventRates[event := rate];
      }
      if rate.count > EventLimit(limits, event) {
        return EventRateExceeded;
      }
      eventRates := eventRates[event := rate];
      assert eventRates == old(eventRates)[event := rate];
      if event == "auth_response" {
        authCount := authCount + 1;
        if authCount > limits.auth {
          return AuthRateExceeded;
        }
      }
      return Accepted;
    }
  }
}
