/** The countdown timer of the test (js/timerService.js). The browser's interval is the
    `running` flag, its one-second callback is the `Tick` method, and the two callbacks the
    timer is built with are recorded as an event log. */
module Timers {

  /** A callback the timer fired: onTick with the new time left, or onEnd. */
  datatype TimerEvent = Ticked(timeLeft: int) | Ended

  class Timer {
    const duration: int
    /** Whether an onTick, resp. an onEnd, callback was supplied. */
    const hasOnTick: bool
    const hasOnEnd: bool
    var timeLeft: int
    /** An interval is installed. */
    var running: bool
    /** The callbacks fired so far, oldest first. */
    var events: seq<TimerEvent>
    /** Ticks since the last start or reset. */
    ghost var ticks: nat

    /** The time left is the duration less the ticks taken, and a positive duration is
        never overrun. */
    ghost predicate Counting()
      reads this
    {
      timeLeft == duration - ticks && (duration >= 1 ==> ticks <= duration)
    }

    /** Besides, while running at least one second is left, unless the duration itself was
        not positive. */
    ghost predicate Valid()
      reads this
    {
      Counting() && (running ==> ticks == 0 || timeLeft >= 1)
    }

    /** `new Timer(duration, onTick, onEnd)`: full time left, no interval. */
    constructor (duration: int, hasOnTick: bool, hasOnEnd: bool)
      ensures Valid()
      ensures this.duration == duration && this.hasOnTick == hasOnTick && this.hasOnEnd == hasOnEnd
      ensures timeLeft == duration && !running && events == [] && ticks == 0
    {
      this.duration := duration;
      this.hasOnTick := hasOnTick;
      this.hasOnEnd := hasOnEnd;
      timeLeft := duration;
      running := false;
      events := [];
      ticks := 0;
    }

    /** stop: clears any interval; the time left is kept. */
    method Stop()
      requires Counting()
      modifies this
      ensures Valid()
      ensures !running
      ensures timeLeft == old(timeLeft) && ticks == old(ticks) && events == old(events)
    {
      running := false;
    }

    /** start: stops any previous interval, restores the full time and installs a new
        interval, whatever the previous state. */
    method Start()
      requires Valid()
      modifies this
      ensures Valid()
      ensures running && timeLeft == duration && ticks == 0
      ensures events == old(events)
    {
      Stop();
      timeLeft := duration;
      ticks := 0;
      running := true;
    }

    /** reset: stops the interval and restores the full time. */
    method Reset()
      requires Valid()
      modifies this
      ensures Valid()
      ensures !running && timeLeft == duration && ticks == 0
      ensures events == old(events)
    {
      Stop();
      timeLeft := duration;
      ticks := 0;
    }

    /** getTimeLeft: reads the time left, changing nothing. Under a positive duration it
        lies between 0 and the duration. */
    method GetTimeLeft() returns (t: int)
      requires Valid()
      ensures t == timeLeft
      ensures duration >= 1 ==> 0 <= t <= duration
      ensures duration >= 1 ==> duration - t == ticks
    {
      t := timeLeft;
    }

    /** The interval callback. Without an interval it does nothing. Otherwise one second
        passes, onTick hears the new time left, and when it reaches zero or below the
        interval is cleared and onEnd fires; `ended` says whether that happened. */
    method Tick() returns (ended: bool)
      requires Valid()
      modifies this
      ensures Valid()
      ensures !old(running) ==> !ended && timeLeft == old(timeLeft) && !running
                                && ticks == old(ticks) && events == old(events)
      ensures old(running) ==> timeLeft == old(timeLeft) - 1 && ticks == old(ticks) + 1
      ensures old(running) ==> (ended <==> timeLeft <= 0) && running == !ended
      ensures events == old(events)
                        + (if old(running) && hasOnTick then [Ticked(timeLeft)] else [])
                        + (if ended && hasOnEnd then [Ended] else [])
      ensures ended && duration >= 1 ==> ticks == duration && timeLeft == 0
      ensures running && duration >= 1 ==> ticks < duration
    {
      ended := false;
      if !running {
        return;
      }
      timeLeft := timeLeft - 1;
      ticks := ticks + 1;
      if hasOnTick {
        events := events + [Ticked(timeLeft)];
      }
      if timeLeft <= 0 {
        Stop();
        ended := true;
        if hasOnEnd {
          events := events + [Ended];
        }
      }
    }
  }
}
