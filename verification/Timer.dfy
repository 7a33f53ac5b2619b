/**
 The transmit timer. The kernel keeps an interval and the time left until the next expiry, in
 seconds and nanoseconds; zero time left means that the timer is off. The program reads and
 writes microseconds.
 */
module Timers {

  datatype Timespec = Timespec(sec: nat, nsec: nat)

  function Nanos(ts: Timespec): nat { ts.sec * 1_000_000_000 + ts.nsec }

  lemma SplitNanos(ts: Timespec)
    requires ts.nsec < 1_000_000_000
    ensures Nanos(ts) / 1_000_000_000 == ts.sec && Nanos(ts) % 1_000_000_000 == ts.nsec
  {
  }

  function FromMicros(us: nat): Timespec { Timespec(us / 1_000_000, us % 1_000_000 * 1000) }

  function OrOne(us: nat): nat { if us == 0 then 1 else us }

  /** The same timer in nanoseconds. */
  datatype TimerState = TimerState(interval: nat, value: nat)

  function Adjusted(interval: nat, value: nat): TimerState {
    TimerState(1000 * OrOne(interval), 1000 * OrOne(value))
  }

  function Micros(ns: nat): nat { ns / 1000 }

  predicate IsEnabled(t: TimerState) { Micros(t.value) != 0 }

  function Enabled(t: TimerState): TimerState { t.(value := t.interval) }

  function Disabled(t: TimerState): TimerState { t.(value := 0) }

  function Passed(t: TimerState, ns: nat): TimerState
    requires t.value == 0 || ns < t.value
  {
    if t.value == 0 then t else t.(value := t.value - ns)
  }

  /** An expiry in one microsecond. The seconds of the interval are taken for milliseconds. */
  function Fired(t: TimerState): TimerState {
    Adjusted(t.interval / 1_000_000_000 * 1000 + t.interval % 1_000_000_000 / 1000, 1)
  }

  /** Firing leaves a microsecond. It never lengthens an interval that was set in microseconds,
      and keeps it if and only if it is shorter than a second: every second becomes a millisecond. */
  lemma FireKeepsIntervalIff(t: TimerState)
    requires t.interval >= 1000 && t.interval % 1000 == 0
    ensures 1000 <= Fired(t).interval <= t.interval && Fired(t).interval % 1000 == 0
    ensures Fired(t).interval == t.interval <==> t.interval < 1_000_000_000
    ensures Fired(t).interval == t.interval - t.interval / 1_000_000_000 * 999_000_000 && Fired(t).value == 1000
  {
    var us := t.interval / 1000;
    var sec, rest := us / 1_000_000, us % 1_000_000;
    assert Nanos(Timespec(sec, 1000 * rest)) == t.interval;
    SplitNanos(Timespec(sec, 1000 * rest));
  }

  class Timer {
    var interval: Timespec
    var value: Timespec

    /** The kernel keeps nanoseconds below a second. */
    ghost predicate Valid()
      reads this
    {
      interval.nsec < 1_000_000_000 && value.nsec < 1_000_000_000
    }

    ghost function State(): TimerState
      reads this
    {
      TimerState(Nanos(interval), Nanos(value))
    }

    constructor ()
      ensures Valid() && State() == TimerState(0, 0)
    {
      interval, value := Timespec(0, 0), Timespec(0, 0);
    }

    method GetValue() returns (us: nat)
      requires Valid()
      ensures us == Micros(State().value) && 1000 * us <= Nanos(value) < 1000 * us + 1000
    {
      us := value.sec * 1_000_000 + value.nsec / 1000;
    }

    method IsOn() returns (on: bool)
      requires Valid()
      ensures on == IsEnabled(State()) && on == (Nanos(value) >= 1000)
    {
      var us := GetValue();
      on := us != 0;
    }

    method Adjust(interval: nat, value: nat)
      modifies this
      ensures Valid() && State() == Adjusted(interval, value)
      ensures interval > 0 ==> Nanos(this.interval) == 1000 * interval
      ensures value > 0 ==> Nanos(this.value) == 1000 * value
      ensures interval == 0 ==> Nanos(this.interval) == 1000
      ensures value == 0 ==> Nanos(this.value) == 1000
    {
      this.interval := FromMicros(OrOne(interval));
      this.value := FromMicros(OrOne(value));
    }

    method Disable()
      requires Valid()
      modifies `value
      ensures Valid() && State() == Disabled(old(State())) && Nanos(value) == 0
    {
      value := Timespec(0, 0);
    }

    method Enable()
      requires Valid()
      modifies `value
      ensures Valid() && State() == Enabled(old(State())) && value == interval
    {
      value := interval;
    }

    method Fire()
      requires Valid()
      modifies this
      ensures Valid() && State() == Fired(old(State())) && Nanos(value) == 1000
    {
      SplitNanos(interval);
      Adjust(interval.sec * 1000 + interval.nsec / 1000, 1);
    }

    static method FromNanos(ns: nat) returns (ts: Timespec)
      ensures Nanos(ts) == ns && ts.nsec < 1_000_000_000
    {
      ts := Timespec(ns / 1_000_000_000, ns % 1_000_000_000);
    }

    /** Time passes, less than is left until the expiry; a timer that is off stays off. */
    method Pass(ns: nat)
      requires Valid() && (State().value == 0 || ns < State().value)
      modifies `value
      ensures Valid() && State() == Passed(old(State()), ns)
    {
      var left := Nanos(value);
      if left > 0 {
        value := FromNanos(left - ns);
      }
    }

    /** The time left runs out and the kernel starts the next interval. */
    method Expire()
      requires Valid()
      modifies `value
      ensures Valid() && State() == Enabled(old(State()))
    {
      value := interval;
    }
  }
}
