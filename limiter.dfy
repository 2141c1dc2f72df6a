/**
 * The request-window limiter that modtools/modtool.py (`ratelimit`) and
 * modtool.py (`rateLimit`) both implement, line for line: a counter of calls
 * and the clock reading taken at the first call of the current window.
 * The clock is an integer number of nanoseconds supplied by the caller. The
 * `time.sleep` the source performs is returned as the argument it is handed:
 * `minute - elapsed`, a count of nanoseconds, while `time.sleep` takes seconds.
 * `Ticks` reads that argument as nanoseconds (the evident intent), and
 * `TicksAsWritten` reads it as seconds (what the call does).
 */
module Limiter {

  /** The source's `maxcalls` / `maxCalls`. */
  const MaxCalls: int := 300
  /** The source's `minute`: 60 seconds in nanoseconds. */
  const Minute: int := 60 * 1_000_000_000

  /** `reqcount` and `accesstime` (`reqCount` and `accessTime`). */
  datatype Window = Window(count: int, accessTime: int)

  /** Nanoseconds in one second, the unit `time.sleep` counts in. */
  const NanosPerSecond: int := 1_000_000_000

  /** The limiter state after one call and the argument that call hands to `time.sleep`. */
  datatype Tick = Tick(window: Window, sleep: nat)

  /** The invariant the limiter keeps: the counter stays below the limit. */
  predicate Bounded(w: Window)
  {
    0 <= w.count < MaxCalls
  }

  /** One call of the limiter at clock reading `now`. */
  function WindowTick(w: Window, now: int): (t: Tick)
    ensures Bounded(w) ==> Bounded(t.window)
    // the first call of a window (the counter becomes 1) restarts the window at `now`
    ensures t.window.accessTime == if w.count + 1 == 1 then now else w.accessTime
    // the call sleeps exactly when the window is still open and the counter reached the limit
    ensures t.sleep > 0 <==> now - t.window.accessTime < Minute && w.count + 1 >= MaxCalls
    // ... handing it the rest of the window in nanoseconds, at most a minute when the clock did not go back
    ensures t.sleep > 0 ==> t.sleep == Minute - (now - t.window.accessTime)
    ensures t.sleep > 0 && now >= t.window.accessTime ==> t.sleep <= Minute
    // the counter either counts this call or restarts
    ensures t.window.count == 0 || t.window.count == w.count + 1
    ensures w.count >= 0 ==> (t.window.count == 0 <==> t.sleep > 0 || now - t.window.accessTime >= Minute)
  {
    var count := w.count + 1;
    var accessTime := if count == 1 then now else w.accessTime;
    var elapsed := now - accessTime;
    if elapsed < Minute && count >= MaxCalls then
      Tick(Window(0, accessTime), Minute - elapsed)
    else if elapsed >= Minute then
      Tick(Window(0, accessTime), 0)
    else
      Tick(Window(count, accessTime), 0)
  }

  /**
   * `n` calls made one right after the other, starting at clock reading `now`:
   * the clock only moves on by the sleeps (network time is not modelled), each
   * sleep argument lasting `unit` nanoseconds apiece.
   * Gives the final state and the clock reading after the last call.
   */
  function Clocked(w: Window, now: int, n: nat, unit: nat): (r: (Window, int))
    ensures Bounded(w) ==> Bounded(r.0)
    ensures r.1 >= now
    decreases n
  {
    if n == 0 then (w, now)
    else
      var t := WindowTick(w, now);
      assert t.sleep * unit >= 0;
      Clocked(t.window, now + t.sleep * unit, n - 1, unit)
  }

  /** `n` calls in a row, the sleep argument read as nanoseconds, as the limiter intends. */
  function Ticks(w: Window, now: int, n: nat): (r: (Window, int))
    ensures Bounded(w) ==> Bounded(r.0)
    ensures r.1 >= now
  {
    Clocked(w, now, n, 1)
  }

  /** `n` calls in a row as written: `time.sleep` reads its nanosecond argument as seconds. */
  function TicksAsWritten(w: Window, now: int, n: nat): (r: (Window, int))
    ensures Bounded(w) ==> Bounded(r.0)
    ensures r.1 >= now
  {
    Clocked(w, now, n, NanosPerSecond)
  }

  /**
   * From a window whose count is `k` (at least 1) and which started at `now`,
   * the calls up to the limit go through and the last one sleeps a whole minute.
   */
  lemma {:induction false} BurstFrom(k: int, now: int, unit: nat)
    requires 1 <= k < MaxCalls
    ensures Clocked(Window(k, now), now, MaxCalls - k, unit) == (Window(0, now), now + Minute * unit)
    decreases MaxCalls - k
  {
    var t := WindowTick(Window(k, now), now);
    if k + 1 < MaxCalls {
      assert t == Tick(Window(k + 1, now), 0);
      BurstFrom(k + 1, now, unit);
    } else {
      assert t == Tick(Window(0, now), Minute);
    }
  }

  /** `MaxCalls` calls in a row from a fresh window: the clock reading after the last and the state. */
  lemma BurstClock(w: Window, now: int, unit: nat)
    requires w.count == 0
    ensures Clocked(w, now, MaxCalls, unit) == (Window(0, now), now + Minute * unit)
  {
    assert WindowTick(w, now) == Tick(Window(1, now), 0);
    BurstFrom(1, now, unit);
  }

  /** Intended: a burst of `MaxCalls` calls from a fresh window holds the caller up for exactly one minute. */
  lemma BurstWaitsAMinute(w: Window, now: int)
    requires w.count == 0
    ensures Ticks(w, now, MaxCalls) == (Window(0, now), now + Minute)
  {
    BurstClock(w, now, 1);
  }

  /**
   * As written: the same burst hands `time.sleep` 60 * 10^9, which it reads as
   * 60 * 10^9 seconds instead of one minute.
   */
  lemma AsWrittenBurstWaitsMinuteInSeconds(w: Window, now: int)
    requires w.count == 0
    ensures TicksAsWritten(w, now, MaxCalls) == (Window(0, now), now + Minute * NanosPerSecond)
    ensures TicksAsWritten(w, now, MaxCalls).1 - now == 60_000_000_000 * NanosPerSecond
  {
    BurstClock(w, now, NanosPerSecond);
  }

  /**
   * Any sleep, read as written, outlasts the window it waits out: the intended
   * sleep ends exactly when the window does, the as-written one `sleep * (10^9 - 1)`
   * nanoseconds later.
   */
  lemma AsWrittenSleepOverrunsWindow(w: Window, now: int)
    ensures var t := WindowTick(w, now);
      t.sleep > 0 ==>
        && now + t.sleep == t.window.accessTime + Minute
        && now + t.sleep * NanosPerSecond == t.window.accessTime + Minute + t.sleep * (NanosPerSecond - 1)
        && now + t.sleep * NanosPerSecond > t.window.accessTime + Minute
  {
  }

  /** A series of calls at the clock readings `times`: the final state and each call's sleep. */
  function Run(w: Window, times: seq<int>): (r: (Window, seq<nat>))
    ensures |r.1| == |times|
    decreases |times|
  {
    if times == [] then (w, [])
    else
      var t := WindowTick(w, times[0]);
      var rest := Run(t.window, times[1..]);
      (rest.0, [t.sleep] + rest.1)
  }

  /** All readings lie in the minute that started at `start`, in non-decreasing order. */
  ghost predicate WithinMinute(times: seq<int>, start: int)
  {
    (forall i :: 0 <= i < |times| ==> start <= times[i] < start + Minute) &&
    (forall i, j :: 0 <= i <= j < |times| ==> times[i] <= times[j])
  }

  /** Inside one window, calls below the limit never sleep and are all counted. */
  lemma {:induction false} NoSleepBelowLimit(w: Window, times: seq<int>)
    requires 1 <= w.count && w.count + |times| < MaxCalls
    requires WithinMinute(times, w.accessTime)
    ensures Run(w, times).0 == Window(w.count + |times|, w.accessTime)
    ensures forall i :: 0 <= i < |times| ==> Run(w, times).1[i] == 0
    decreases |times|
  {
    if times != [] {
      var t := WindowTick(w, times[0]);
      assert t.window == Window(w.count + 1, w.accessTime);
      assert WithinMinute(times[1..], w.accessTime);
      NoSleepBelowLimit(t.window, times[1..]);
    }
  }

  /**
   * A burst of `MaxCalls` calls inside one minute, from a fresh window: every
   * call but the last goes through, and the last hands `time.sleep` the rest of
   * the minute that started with the first call, counted in nanoseconds.
   */
  lemma BurstSleepsOnLastCall(w: Window, times: seq<int>)
    requires w.count == 0
    requires |times| == MaxCalls && WithinMinute(times, times[0])
    ensures forall i :: 0 <= i < MaxCalls - 1 ==> Run(w, times).1[i] == 0
    ensures Run(w, times).1[MaxCalls - 1] == Minute - (times[MaxCalls - 1] - times[0]) > 0
    ensures Run(w, times).0.count == 0
  {
    var first := WindowTick(w, times[0]);
    assert first.window == Window(1, times[0]) && first.sleep == 0;
    var middle := times[1..MaxCalls - 1];
    assert WithinMinute(middle, times[0]);
    NoSleepBelowLimit(first.window, middle);
    RunSplit(first.window, middle, [times[MaxCalls - 1]]);
    assert times[1..] == middle + [times[MaxCalls - 1]];
  }

  /** Running two series of calls one after the other is running their concatenation. */
  lemma {:induction false} RunSplit(w: Window, a: seq<int>, b: seq<int>)
    ensures Run(w, a + b).0 == Run(Run(w, a).0, b).0
    ensures Run(w, a + b).1 == Run(w, a).1 + Run(Run(w, a).0, b).1
    decreases |a|
  {
    if a == [] {
      assert a + b == b;
    } else {
      assert (a + b)[0] == a[0] && (a + b)[1..] == a[1..] + b;
      RunSplit(WindowTick(w, a[0]).window, a[1..], b);
    }
  }

  /** Each reading at least a minute after the one before. */
  ghost predicate Spaced(times: seq<int>)
  {
    forall i :: 0 < i < |times| ==> times[i] >= times[i - 1] + Minute
  }

  /** Calls spaced a minute or more apart never sleep, starting from a fresh window. */
  lemma {:induction false} SpacedCallsNeverSleep(w: Window, times: seq<int>)
    requires w.count == 0 || (w.count == 1 && (times != [] ==> times[0] >= w.accessTime + Minute))
    requires Spaced(times)
    ensures forall i :: 0 <= i < |times| ==> Run(w, times).1[i] == 0
    decreases |times|
  {
    if times != [] {
      var t := WindowTick(w, times[0]);
      assert t.sleep == 0;
      assert t.window.count == 0 || (t.window.count == 1 && t.window.accessTime == times[0]);
      if |times| > 1 {
        assert times[1..][0] == times[1];
      }
      SpacedCallsNeverSleep(t.window, times[1..]);
    }
  }
}
