/** The FAIL state's pause (wifi.c:456-482): the choice between the quick and
    the slow reconnect interval, keyed on the time since the previous
    failure, and the second-by-second countdown that ends in three ticks. */
module Backoff {
  import opened Types

  /** The reconnect tuning the controller takes from the backend module:
      BACKEND_STABLE_CONN_THRS (seconds), BACKEND_RECONNECT_INTERVAL and
      BACKEND_RECONNECT_INTERVAL_SLOW (seconds to wait). */
  datatype Intervals = Intervals(stableConnThrs: nat, reconnect: int, reconnectSlow: int)

  /** `1000 * BACKEND_STABLE_CONN_THRS`, as the `uint32_t` comparison sees it. */
  function Threshold(iv: Intervals): uint32
  {
    (1000 * iv.stableConnThrs) % 0x1_0000_0000
  }

  /** The seconds to wait after a failure at clock `now` when the previous one
      was at `lastFail`. */
  function BackoffWait(iv: Intervals, now: uint32, lastFail: uint32): int
  {
    if Sub32(now, lastFail) > Threshold(iv) then iv.reconnect else iv.reconnectSlow
  }

  /** Read on real time: as long as less than one clock period separates the
      two failures, the quick interval is chosen exactly when more than the
      threshold has passed since the previous failure, the slow one when the
      connection failed again sooner. */
  lemma BackoffByElapsed(iv: Intervals, t0: nat, t1: nat)
    requires t0 <= t1 < t0 + 0x1_0000_0000
    ensures BackoffWait(iv, t1 % 0x1_0000_0000, t0 % 0x1_0000_0000)
              == if t1 - t0 > Threshold(iv) then iv.reconnect else iv.reconnectSlow
  {
    Sub32Elapsed(t0, t1);
  }

  /** What one pass of the countdown does with `remaining` seconds left:
      sleep one second, then tick if at most three seconds were left. */
  function CountdownStep(remaining: int): seq<Event>
  {
    [SleepSecond] + (if remaining <= 3 then [Sound(NoiseTick)] else [])
  }

  /** The countdown loop started with `waitTime` seconds. */
  function CountdownEvents(waitTime: int): (t: seq<Event>)
    decreases waitTime
  {
    if waitTime <= 0 then [] else CountdownStep(waitTime) + CountdownEvents(waitTime - 1)
  }

  /** `n` copies of `unit`, one after the other. */
  function Repeat(unit: seq<Event>, n: nat): (r: seq<Event>)
    ensures |r| == n * |unit|
  {
    if n == 0 then [] else unit + Repeat(unit, n - 1)
  }

  const TICK_SECOND: seq<Event> := [SleepSecond, Sound(NoiseTick)]

  /** The countdown in closed form: silent seconds while more than three are
      left, then one tick after each of the last (at most three) seconds. */
  lemma {:induction false} CountdownShape(waitTime: int)
    ensures 0 < waitTime <= 3 ==> CountdownEvents(waitTime) == Repeat(TICK_SECOND, waitTime)
    ensures waitTime > 3 ==>
              CountdownEvents(waitTime) == Repeat([SleepSecond], waitTime - 3) + Repeat(TICK_SECOND, 3)
    decreases waitTime
  {
    if 0 < waitTime {
      CountdownShape(waitTime - 1);
      if waitTime == 4 {
        assert Repeat([SleepSecond], 1) == [SleepSecond];
      } else if waitTime > 4 {
        calc {
          CountdownEvents(waitTime);
          [SleepSecond] + (Repeat([SleepSecond], waitTime - 4) + Repeat(TICK_SECOND, 3));
          { Assoc([SleepSecond], Repeat([SleepSecond], waitTime - 4), Repeat(TICK_SECOND, 3)); }
          Repeat([SleepSecond], waitTime - 3) + Repeat(TICK_SECOND, 3);
        }
      }
    }
  }

  predicate IsSleep(e: Event)
  {
    e == SleepSecond
  }

  predicate IsTick(e: Event)
  {
    e == Sound(NoiseTick)
  }

  /** The countdown sleeps exactly `waitTime` seconds (none when it is not
      positive) and ticks exactly min(waitTime, 3) times, and nothing else. */
  lemma {:induction false} CountdownCounts(waitTime: int)
    ensures Count(CountdownEvents(waitTime), IsSleep) == if waitTime > 0 then waitTime else 0
    ensures Count(CountdownEvents(waitTime), IsTick) ==
              if waitTime > 3 then 3 else if waitTime > 0 then waitTime else 0
    ensures forall e :: e in CountdownEvents(waitTime) ==> IsSleep(e) || IsTick(e)
    decreases waitTime
  {
    if waitTime > 0 {
      var step := CountdownStep(waitTime);
      CountdownCounts(waitTime - 1);
      CountAppend(step, CountdownEvents(waitTime - 1), IsSleep);
      CountAppend(step, CountdownEvents(waitTime - 1), IsTick);
      if waitTime <= 3 {
        CountOne(step, IsSleep, 0);
        CountOne(step, IsTick, 1);
      } else {
        CountOne(step, IsSleep, 0);
        CountNone(step, IsTick);
      }
    }
  }
}
