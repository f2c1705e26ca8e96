/** The periodic scheduler (`startRunning`). Signals, the timer handler and
    the real-time priority class are not modelled; what remains is the
    millisecond to `itimerspec` conversion and the control structure of both
    platform variants, as a trace of abstract events. */
module Scheduler {

  /** A C `int`. */
  newtype Int32 = x: int | -0x8000_0000 <= x < 0x8000_0000

  const MillisPerSecond: int := 1000
  const NanosPerMilli: int := 1_000_000
  const NanosPerSecond: int := 1_000_000_000

  /** C's `/` on integers: the quotient truncated toward zero. */
  function CDiv(a: int, b: int): (q: int)
    requires b > 0
    // the quotient is rounded toward zero: what is left over has the
    // dividend's sign and is smaller than the divisor
    ensures a >= 0 ==> 0 <= a - q * b < b
    ensures a < 0 ==> -b < a - q * b <= 0
  {
    if a >= 0 then a / b else -((-a) / b)
  }

  /** C's `%` on integers: the remainder that goes with `CDiv`, which has the
      sign of the dividend. */
  function CRem(a: int, b: int): (m: int)
    requires b > 0
    ensures CDiv(a, b) * b + m == a
    ensures a >= 0 ==> 0 <= m < b
    ensures a < 0 ==> -b < m <= 0
  {
    a - CDiv(a, b) * b
  }

  /** `struct timespec`. */
  datatype TimeSpec = TimeSpec(sec: int, nsec: int)

  /** `struct itimerspec`: the reload period and the first expiry. */
  datatype ITimerSpec = ITimerSpec(interval: TimeSpec, value: TimeSpec)

  /** POSIX accepts a timespec only with its nanoseconds in [0, 10^9). */
  predicate ValidTimeSpec(t: TimeSpec) {
    0 <= t.nsec < NanosPerSecond
  }

  /** The whole milliseconds a timespec stands for, computed in C. */
  function ToMillis(t: TimeSpec): int {
    t.sec * MillisPerSecond + CDiv(t.nsec, NanosPerMilli)
  }

  /** The timer setting `startRunning` computes from `intervalMs`. */
  function IntervalSpec(intervalMs: Int32): (r: ITimerSpec)
    // the product `(intervalMs % 1000) * 1000000` does not overflow an int
    ensures -999_000_000 <= r.interval.nsec <= 999_000_000
    ensures r.interval.sec == CDiv(intervalMs as int, MillisPerSecond)
    // the round trip back to milliseconds is exact
    ensures ToMillis(r.interval) == intervalMs as int
    // the first expiry is one full period away
    ensures r.value == r.interval
    // the nanosecond field is always a whole number of milliseconds
    ensures r.interval.nsec % NanosPerMilli == 0
    // a non-negative interval gives a valid timespec
    ensures intervalMs >= 0 ==> ValidTimeSpec(r.interval) && r.interval.nsec <= 999_000_000
  {
    var sec := CDiv(intervalMs as int, MillisPerSecond);
    var nsec := CRem(intervalMs as int, MillisPerSecond) * NanosPerMilli;
    ITimerSpec(TimeSpec(sec, nsec), TimeSpec(sec, nsec))
  }

  /** Converting a timespec of whole milliseconds to milliseconds and back
      gives it back: the split is the inverse of `ToMillis`. */
  lemma IntervalSpecInverse(t: TimeSpec)
    requires ValidTimeSpec(t) && t.sec >= 0 && t.nsec % NanosPerMilli == 0
    requires ToMillis(t) < 0x8000_0000
    ensures IntervalSpec(ToMillis(t) as Int32).interval == t
  {
  }

  /** The timer's first expiry is zero, which disarms a POSIX timer, exactly
      when the interval is zero. */
  lemma ZeroIntervalDisarms(intervalMs: Int32)
    ensures IntervalSpec(intervalMs).value == TimeSpec(0, 0) <==> intervalMs == 0
  {
  }

  /** A negative interval other than a whole number of seconds yields a
      negative nanosecond field, which POSIX rejects. */
  lemma NegativeIntervalInvalid(intervalMs: Int32)
    requires intervalMs < 0 && intervalMs as int % MillisPerSecond != 0
    ensures !ValidTimeSpec(IntervalSpec(intervalMs).interval)
  {
  }

  /** What one run of `startRunning` does, in order. */
  datatype Event =
    | PriorityFailed        // sched_setscheduler failed; reported, not fatal
    | TimerCreateFailed     // timer_create failed; the flag is cleared
    | HandlerInstalled      // sigaction for the timer signal
    | TimerArmed(spec: ITimerSpec)
    | Suspend               // one sigsuspend wait in the wait loop
    | Callback              // one call of the periodic task
    | Sleep(ms: Int32)      // one Sleep(intervalMs)

  /** The number of loop checks that see the flag set before the first one
      that sees it cleared; `observed` lists the values successive checks of
      `*keepRunning` observe. */
  function LeadingTrue(observed: seq<bool>): (n: nat)
    ensures n <= |observed|
    ensures forall j :: 0 <= j < n ==> observed[j]
    ensures n < |observed| ==> !observed[n]
  {
    if |observed| == 0 || !observed[0] then 0 else 1 + LeadingTrue(observed[1..])
  }

  /** Windows `startRunning`: while the flag is set, call the callback, then
      sleep one interval. `returned` is false when the run is still going
      after the last listed check. */
  method WindowsStartRunning(intervalMs: Int32, observed: seq<bool>)
    returns (events: seq<Event>, returned: bool)
    ensures |events| == 2 * LeadingTrue(observed)
    // each iteration: one callback, then one sleep of the interval
    ensures forall j :: 0 <= j < |events| ==>
              events[j] == (if j % 2 == 0 then Callback else Sleep(intervalMs))
    // the loop leaves only after a check that sees the flag cleared
    ensures returned <==> LeadingTrue(observed) < |observed|
  {
    events := [];
    var i := 0;
    while i < |observed| && observed[i]
      invariant 0 <= i <= |observed|
      invariant forall j :: 0 <= j < i ==> observed[j]
      invariant |events| == 2 * i
      invariant forall j :: 0 <= j < |events| ==>
                  events[j] == (if j % 2 == 0 then Callback else Sleep(intervalMs))
    {
      events := events + [Callback, Sleep(intervalMs)];
      i := i + 1;
    }
    returned := i < |observed|;
    assert i == LeadingTrue(observed);
  }

  /** Linux `startRunning`: try to raise the priority, create the timer
      (on failure clear the flag), install the handler, arm the timer, then
      suspend until a check sees the flag cleared. `flag` is false once the
      function has cleared the flag or a check has seen it cleared. */
  method LinuxStartRunning(intervalMs: Int32, priorityRaised: bool, timerCreated: bool, observed: seq<bool>)
    returns (events: seq<Event>, flag: bool, returned: bool)
    ensures var setup := (if priorityRaised then [] else [PriorityFailed])
                         + (if timerCreated then [] else [TimerCreateFailed])
                         + [HandlerInstalled, TimerArmed(IntervalSpec(intervalMs))];
            |events| >= |setup| && events[..|setup|] == setup
            && (forall j :: |setup| <= j < |events| ==> events[j] == Suspend)
            && |events| - |setup| == (if timerCreated then LeadingTrue(observed) else 0)
    // a failed timer creation clears the flag, so the loop never waits
    ensures !timerCreated ==> !flag && returned
    // the loop leaves only when the flag is observed cleared
    ensures returned <==> !flag
    ensures timerCreated ==> (returned <==> LeadingTrue(observed) < |observed|)
  {
    events := if priorityRaised then [] else [PriorityFailed];
    flag := true;
    if !timerCreated {
      events := events + [TimerCreateFailed];
      flag := false;
    }
    events := events + [HandlerInstalled, TimerArmed(IntervalSpec(intervalMs))];
    ghost var setup := events;
    if timerCreated {
      var i := 0;
      while i < |observed| && observed[i]
        invariant 0 <= i <= |observed|
        invariant forall j :: 0 <= j < i ==> observed[j]
        invariant |events| == |setup| + i
        invariant events[..|setup|] == setup
        invariant forall j :: |setup| <= j < |events| ==> events[j] == Suspend
      {
        events := events + [Suspend];
        i := i + 1;
      }
      flag := i == |observed|;
      assert i == LeadingTrue(observed);
    }
    returned := !flag;
  }
}
