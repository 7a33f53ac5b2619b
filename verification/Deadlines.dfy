/**
 The flush deadline. Time passes between events in nanoseconds; an insertion and the timer's
 handler are atomic. A frame has to be offered to a flush when its timeout has passed.
 */
module Deadlines {
  import opened Packing
  import opened Sequences
  import opened Timers

  /** The queue's rules, the room to leave for another frame, the general timeout and the
      timeout table, both in microseconds. */
  datatype Plan<!T> = Plan(rules: Rules<T>, reserve: nat, timeout: nat, entry: T -> nat)

  /** What an insertion does to the timer: it is turned on if it reads as off, fired if the
      queue is full, and shortened if the frame's own timeout is shorter. */
  function Rearm(t: TimerState, full: bool, entry: nat, timeout: nat): TimerState {
    var on := if IsEnabled(t) then t else Enabled(t);
    if full then Fired(on)
    else if entry < timeout && entry < Micros(on.value) then Adjusted(timeout, entry)
    else on
  }

  /** Microseconds a frame may wait: its own timeout if that is the shorter one, at least one. */
  function Patience(entry: nat, timeout: nat): nat {
    OrOne(if entry < timeout then entry else timeout)
  }

  /** The interval is set, and neither it nor the time left exceeds the general timeout. */
  predicate Bounded(t: TimerState, timeout: nat) {
    && 1000 <= t.interval <= 1000 * OrOne(timeout) && t.interval % 1000 == 0
    && t.value <= 1000 * OrOne(timeout)
  }

  lemma RearmStaysBounded(t: TimerState, full: bool, entry: nat, timeout: nat)
    requires Bounded(t, timeout)
    ensures Bounded(Rearm(t, full, entry, timeout), timeout)
    ensures Rearm(t, full, entry, timeout).value >= 1000
    ensures t.value % 1000 == 0 ==> Rearm(t, full, entry, timeout).value % 1000 == 0
  {
    if full {
      FireKeepsIntervalIff(if IsEnabled(t) then t else Enabled(t));
    } else {
      AdjustedIsWhole(timeout, entry);
    }
  }

  lemma AdjustedIsWhole(interval: nat, value: nat)
    ensures var t := Adjusted(interval, value);
            && t.interval % 1000 == 0 && t.value % 1000 == 0
            && t.interval >= 1000 && t.value >= 1000
  {
  }

  /** A pending expiry is postponed by an insertion if and only if less than a microsecond is
      left: the timer then reads as off and is started anew. */
  lemma RearmPostponesIff(t: TimerState, full: bool, entry: nat, timeout: nat)
    requires Bounded(t, timeout) && t.value > 0
    ensures Rearm(t, full, entry, timeout).value > t.value <==> t.value < 1000
  {
    RearmStaysBounded(t, full, entry, timeout);
  }

  /** The new frame itself is in time, up to the part of a microsecond the timer does not
      show. */
  lemma RearmIsInTime(t: TimerState, full: bool, entry: nat, timeout: nat, slack: nat)
    requires Bounded(t, timeout) && (slack >= 999 || t.value % 1000 == 0)
    ensures Rearm(t, full, entry, timeout).value <= 1000 * Patience(entry, timeout) + slack
  {
  }

  // ----- Runs

  /** `due` holds the deadlines of the frames not yet offered to a flush; these are the last
      ones of the queue. */
  datatype Net<T> = Net(now: nat, timer: TimerState, queue: seq<T>, due: seq<nat>)

  /** A frame arrives, the newest one is taken back, time passes, the timer expires. */
  datatype Event<T> = Arrive(x: T) | Evict | Elapse(ns: nat) | Expire

  function Start<T>(p: Plan<T>): Net<T> {
    Net(0, Adjusted(p.timeout, p.timeout), [], [])
  }

  /** Time does not pass an expiry; an armed timer can expire. */
  predicate Possible<T>(n: Net<T>, e: Event<T>) {
    match e
    case Arrive(_) => true
    case Evict => n.queue != []
    case Elapse(d) => n.timer.value == 0 || d < n.timer.value
    case Expire => n.timer.value > 0
  }

  function Step<T>(n: Net<T>, e: Event<T>, p: Plan<T>, slack: nat): Net<T>
    requires Possible(n, e)
  {
    match e
    case Arrive(x) =>
      var q := n.queue + [x];
      Net(n.now, Rearm(n.timer, Full(q, p.rules, p.reserve), p.entry(x), p.timeout), q,
          n.due + [n.now + 1000 * Patience(p.entry(x), p.timeout) + slack])
    case Evict =>
      n.(queue := n.queue[..|n.queue| - 1], due := if n.due == [] then [] else n.due[..|n.due| - 1])
    case Elapse(d) => n.(now := n.now + d, timer := Passed(n.timer, d))
    case Expire =>
      var reloaded := Enabled(n.timer);
      if n.queue != [] then Net(n.now + n.timer.value, reloaded, Left(n.queue, p.rules), [])
      else n.(now := n.now + n.timer.value, timer := Disabled(reloaded))
  }

  /** Without slack all times are whole microseconds; with it, no insertion falls into the last
      microsecond before an expiry. */
  predicate Timely<T>(n: Net<T>, e: Event<T>, slack: nat) {
    if slack == 0 then e.Elapse? ==> e.ns % 1000 == 0
    else slack >= 999 && (e.Arrive? ==> n.timer.value == 0 || n.timer.value >= 1000)
  }

  /** A queued frame has an armed timer, and no deadline passes before the next expiry. */
  ghost predicate InTime<T>(n: Net<T>, p: Plan<T>, slack: nat) {
    && Bounded(n.timer, p.timeout)
    && (slack == 0 ==> n.timer.value % 1000 == 0)
    && |n.due| <= |n.queue|
    && (n.queue != [] ==> n.timer.value > 0)
    && (forall i :: 0 <= i < |n.due| ==> n.now + n.timer.value <= n.due[i])
  }

  lemma StepKeepsInTime<T>(n: Net<T>, e: Event<T>, p: Plan<T>, slack: nat)
    requires InTime(n, p, slack) && Possible(n, e) && Timely(n, e, slack)
    ensures InTime(Step(n, e, p, slack), p, slack)
  {
    match e
    case Arrive(x) =>
      var full, entry := Full(n.queue + [x], p.rules, p.reserve), p.entry(x);
      RearmStaysBounded(n.timer, full, entry, p.timeout);
      RearmIsInTime(n.timer, full, entry, p.timeout, slack);
      if n.timer.value > 0 {
        RearmPostponesIff(n.timer, full, entry, p.timeout);
      }
    case Evict =>
    case Elapse(d) =>
    case Expire =>
  }

  predicate Runs<T>(n: Net<T>, es: seq<Event<T>>, p: Plan<T>, slack: nat)
    decreases |es|
  {
    es == [] ||
    (Possible(n, es[0]) && Timely(n, es[0], slack) && Runs(Step(n, es[0], p, slack), es[1..], p, slack))
  }

  function Run<T>(n: Net<T>, es: seq<Event<T>>, p: Plan<T>, slack: nat): Net<T>
    requires Runs(n, es, p, slack)
    decreases |es|
  {
    if es == [] then n else Run(Step(n, es[0], p, slack), es[1..], p, slack)
  }

  lemma {:induction false} RunKeepsInTime<T>(n: Net<T>, es: seq<Event<T>>, p: Plan<T>, slack: nat)
    requires InTime(n, p, slack) && Runs(n, es, p, slack)
    ensures InTime(Run(n, es, p, slack), p, slack)
    decreases |es|
  {
    if es != [] {
      StepKeepsInTime(n, es[0], p, slack);
      RunKeepsInTime(Step(n, es[0], p, slack), es[1..], p, slack);
    }
  }

  /** Flush deadline, in every reachable state: the buffer is not empty only while the timer is
      armed, and every frame not yet offered to a flush is offered at the next expiry, which
      comes no later than its insertion plus the shorter of the two timeouts. */
  lemma DeadlinesHold<T>(es: seq<Event<T>>, p: Plan<T>, slack: nat)
    requires Runs(Start(p), es, p, slack)
    ensures InTime(Run(Start(p), es, p, slack), p, slack)
  {
    RunKeepsInTime(Start(p), es, p, slack);
  }

  // ----- Exactly the runs that keep all deadlines

  /** How long a timer that reads as off then runs: a microsecond if the queue is full, the frame's
      own timeout if that is the shortest time, else the interval. */
  function Restarted<T>(n: Net<T>, x: T, p: Plan<T>): nat {
    if Full(n.queue + [x], p.rules, p.reserve) then 1000
    else if p.entry(x) < p.timeout && 1000 * p.entry(x) < n.timer.interval then 1000 * OrOne(p.entry(x))
    else n.timer.interval
  }

  /** An insertion in the last microsecond before an expiry, which starts the timer anew, does no
      harm if no frame is due before the timer then expires. */
  predicate Harmless<T>(n: Net<T>, e: Event<T>, p: Plan<T>) {
    e.Arrive? && 0 < n.timer.value < 1000 ==>
      forall i :: 0 <= i < |n.due| ==> n.now + Restarted(n, e.x, p) <= n.due[i]
  }

  lemma StepKeepsInTimeIff<T>(n: Net<T>, e: Event<T>, p: Plan<T>, slack: nat)
    requires InTime(n, p, slack) && Possible(n, e) && slack >= 999
    ensures InTime(Step(n, e, p, slack), p, slack) <==> Harmless(n, e, p)
  {
    if e.Arrive? && 0 < n.timer.value < 1000 {
      var full, entry := Full(n.queue + [e.x], p.rules, p.reserve), p.entry(e.x);
      RearmStaysBounded(n.timer, full, entry, p.timeout);
      RearmIsInTime(n.timer, full, entry, p.timeout, slack);
      var n' := Step(n, e, p, slack);
      assert forall i :: 0 <= i < |n.due| ==> n'.due[i] == n.due[i];
    } else {
      StepKeepsInTime(n, e, p, slack);
    }
  }

  predicate CanRun<T>(n: Net<T>, es: seq<Event<T>>, p: Plan<T>, slack: nat)
    decreases |es|
  {
    es == [] || (Possible(n, es[0]) && CanRun(Step(n, es[0], p, slack), es[1..], p, slack))
  }

  predicate AllHarmless<T>(n: Net<T>, es: seq<Event<T>>, p: Plan<T>, slack: nat)
    requires CanRun(n, es, p, slack)
    decreases |es|
  {
    es == [] || (Harmless(n, es[0], p) && AllHarmless(Step(n, es[0], p, slack), es[1..], p, slack))
  }

  ghost predicate AlwaysInTime<T>(n: Net<T>, es: seq<Event<T>>, p: Plan<T>, slack: nat)
    requires CanRun(n, es, p, slack)
    decreases |es|
  {
    InTime(n, p, slack) && (es == [] || AlwaysInTime(Step(n, es[0], p, slack), es[1..], p, slack))
  }

  /** Over every run, without any condition on its times: all deadlines hold in all its states if
      and only if every insertion in the last microsecond is harmless. */
  lemma {:induction false} AlwaysInTimeIff<T>(n: Net<T>, es: seq<Event<T>>, p: Plan<T>, slack: nat)
    requires InTime(n, p, slack) && CanRun(n, es, p, slack) && slack >= 999
    ensures AlwaysInTime(n, es, p, slack) <==> AllHarmless(n, es, p, slack)
    decreases |es|
  {
    if es != [] {
      StepKeepsInTimeIff(n, es[0], p, slack);
      if Harmless(n, es[0], p) {
        AlwaysInTimeIff(Step(n, es[0], p, slack), es[1..], p, slack);
      }
    }
  }

  // ----- The table

  /** No deadline lies further ahead than its frame may wait. */
  ghost predicate Fair<T>(n: Net<T>, p: Plan<T>, slack: nat) {
    && |n.due| <= |n.queue|
    && forall i :: 0 <= i < |n.due| ==>
         n.due[i] <= n.now + 1000 * Patience(p.entry(n.queue[|n.queue| - |n.due| + i]), p.timeout) + slack
  }

  lemma StepKeepsFair<T>(n: Net<T>, e: Event<T>, p: Plan<T>, slack: nat)
    requires Fair(n, p, slack) && Possible(n, e)
    ensures Fair(Step(n, e, p, slack), p, slack)
  {
  }

  /** So while deadlines hold, the time left is within what each frame not yet offered may wait. */
  lemma FairIsShort<T>(n: Net<T>, p: Plan<T>, slack: nat, i: nat)
    requires Fair(n, p, slack) && InTime(n, p, slack) && |n.queue| - |n.due| <= i < |n.queue|
    ensures 0 < n.timer.value <= 1000 * Patience(p.entry(n.queue[i]), p.timeout) + slack
  {
    var k := i - (|n.queue| - |n.due|);
    assert n.now + n.timer.value <= n.due[k];
  }

  // ----- The interval and the idle timer

  /** Below a second the interval is always the general timeout. */
  lemma StepKeepsInterval<T>(n: Net<T>, e: Event<T>, p: Plan<T>, slack: nat)
    requires Possible(n, e) && p.timeout < 1_000_000 && n.timer.interval == 1000 * OrOne(p.timeout)
    ensures Step(n, e, p, slack).timer.interval == 1000 * OrOne(p.timeout)
  {
    FireKeepsIntervalIff(n.timer);
  }

  /** An expiry that finds nothing queued turns the timer off. */
  lemma IdleExpiryTurnsOff<T>(n: Net<T>, p: Plan<T>, slack: nat)
    requires Possible(n, Expire)
    ensures var n' := Step(n, Expire, p, slack);
            if n.queue == [] then n'.timer.value == 0 && n'.timer.interval == n.timer.interval
            else n'.timer.value == n'.timer.interval == n.timer.interval
  {
  }

  /** And then it does not expire until the next insertion. */
  lemma {:induction false} IdleStaysOff<T>(n: Net<T>, es: seq<Event<T>>, p: Plan<T>, slack: nat)
    requires n.timer.value == 0 && CanRun(n, es, p, slack)
    requires forall i :: 0 <= i < |es| ==> !es[i].Arrive?
    ensures forall i :: 0 <= i < |es| ==> !es[i].Expire?
    decreases |es|
  {
    if es != [] {
      assert !es[0].Arrive?;
      var n' := Step(n, es[0], p, slack);
      assert n'.timer.value == 0;
      IdleStaysOff(n', es[1..], p, slack);
    }
  }

  /** Why the last microsecond matters: with a timeout of 100 microseconds, an insertion half a
      microsecond before the expiry leaves the frame queued first waiting almost twice as long
      as it may. */
  lemma LastMicrosecondBreaksDeadline<T>(p: Plan<T>, x: T)
    requires p.timeout == p.entry(x) == 100 && p.rules.slot(x) == 10
    requires p.rules.base == p.reserve == 5 && p.rules.limit == 1472
    ensures var first := Step(Start(p), Arrive(x), p, 999);
            first.due == [100_999] && Possible(first, Elapse(99_500))
    ensures var n := Step(Step(Step(Start(p), Arrive(x), p, 999), Elapse(99_500), p, 999), Arrive(x), p, 999);
            n.due[0] == 100_999 && n.now + n.timer.value == 199_500
  {
    SumOne(x, p.rules.slot);
    SumConcat([x], [x], p.rules.slot);
    assert [] + [x] == [x];
  }
}
