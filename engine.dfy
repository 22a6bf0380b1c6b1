/** The countdown engine of `PomodoroTimer`: the fields `timeLeft`,
    `totalTime` and `isRunning`, and the transitions `start`, `pause`,
    `toggleStartPause`, `reset`, `complete` and the one-second interval
    callback, each as a function from the old values to the new ones. */
module Engine {
  import TimeFormat

  /** 25 minutes in seconds: the constructor's `timeLeft` and `totalTime`. */
  const WorkSession: int := 25 * 60

  datatype Timer = Timer(timeLeft: int, totalTime: int, running: bool)

  /** What every transition keeps: the time left lies between 0 and the total. */
  predicate Valid(t: Timer) {
    0 <= t.timeLeft <= t.totalTime
  }

  /** The state the constructor leaves: a full work session, paused. */
  function Initial(): (t: Timer)
    ensures Valid(t) && !t.running
  {
    Timer(WorkSession, WorkSession, false)
  }

  /** `start()`: nothing to do when already running. */
  function Start(t: Timer): Timer {
    if t.running then t else t.(running := true)
  }

  /** `pause()`: nothing to do when not running. */
  function Pause(t: Timer): Timer {
    if !t.running then t else t.(running := false)
  }

  /** `toggleStartPause()`. */
  function ToggleStartPause(t: Timer): Timer {
    if t.running then Pause(t) else Start(t)
  }

  /** `reset()`: pause, then refill the time left from the total. */
  function Reset(t: Timer): Timer {
    Pause(t).(timeLeft := t.totalTime)
  }

  /** `complete()`: pause, then force the time left to 0. */
  function Complete(t: Timer): Timer {
    Pause(t).(timeLeft := 0)
  }

  /** Whether the next interval callback ends in `complete()`. */
  predicate TickCompletes(t: Timer)
    requires t.running
  {
    t.timeLeft - 1 <= 0
  }

  /** The body of the interval callback, which only exists while running:
      one second off, then `complete()` once nothing is left. */
  function Tick(t: Timer): Timer
    requires t.running
  {
    var d := t.(timeLeft := t.timeLeft - 1);
    if d.timeLeft <= 0 then Complete(d) else d
  }

  /** `n` seconds of host time: the callback fires once a second for as long
      as the interval exists, that is, while the timer runs. */
  function Elapse(t: Timer, n: nat): Timer
    decreases n
  {
    if n == 0 || !t.running then t else Elapse(Tick(t), n - 1)
  }

  /** How many times `complete()` runs during those `n` seconds. */
  function CompletionsDuring(t: Timer, n: nat): nat
    decreases n
  {
    if n == 0 || !t.running then 0
    else (if TickCompletes(t) then 1 else 0) + CompletionsDuring(Tick(t), n - 1)
  }

  /** Ticks a running timer needs to complete: its time left, but at least one
      (a timer started again at 0 without a reset completes on the next tick). */
  function TicksToComplete(t: Timer): (d: nat)
    ensures d >= 1 && (t.timeLeft >= 1 ==> d == t.timeLeft)
  {
    if t.timeLeft <= 0 then 1 else t.timeLeft
  }

  lemma StartRuns(t: Timer)
    ensures Start(t).running
    ensures Start(t).timeLeft == t.timeLeft && Start(t).totalTime == t.totalTime
    ensures t.running ==> Start(t) == t
  {
  }

  lemma PauseStops(t: Timer)
    ensures !Pause(t).running
    ensures Pause(t).timeLeft == t.timeLeft && Pause(t).totalTime == t.totalTime
    ensures !t.running ==> Pause(t) == t
  {
  }

  /** A second `start` or `pause` is harmless. */
  lemma StartPauseIdempotent(t: Timer)
    ensures Start(Start(t)) == Start(t)
    ensures Pause(Pause(t)) == Pause(t)
  {
  }

  /** `pause(); start(); pause()` ends where a single `pause()` does. */
  lemma PauseStartPause(t: Timer)
    ensures Pause(Start(Pause(t))) == Pause(t)
  {
  }

  /** `toggleStartPause` always flips `isRunning`, touches nothing else, and
      undoes itself. */
  lemma ToggleFlips(t: Timer)
    ensures ToggleStartPause(t).running == !t.running
    ensures ToggleStartPause(t).timeLeft == t.timeLeft
    ensures ToggleStartPause(t).totalTime == t.totalTime
    ensures ToggleStartPause(ToggleStartPause(t)) == t
  {
  }

  /** `reset` from any state gives a full, paused timer; it is idempotent and
      forgets everything but the total. */
  lemma ResetRestores(t: Timer, u: Timer)
    ensures Reset(t).timeLeft == t.totalTime && !Reset(t).running
    ensures Reset(t).totalTime == t.totalTime
    ensures Reset(Reset(t)) == Reset(t)
    ensures u.totalTime == t.totalTime ==> Reset(u) == Reset(t)
  {
  }

  /** `complete` leaves a paused timer at 0, whatever it was doing. */
  lemma CompleteStops(t: Timer)
    ensures Complete(t).timeLeft == 0 && !Complete(t).running
    ensures Complete(t).totalTime == t.totalTime
  {
  }

  /** One callback while running: exactly one second off, unless that reaches
      0 or less, in which case `complete` runs and the timer rests at 0. */
  lemma TickCountsDown(t: Timer)
    requires t.running
    ensures !TickCompletes(t) ==> Tick(t) == t.(timeLeft := t.timeLeft - 1)
    ensures TickCompletes(t) ==> Tick(t) == t.(timeLeft := 0, running := false)
  {
  }

  /** Every transition keeps `0 <= timeLeft <= totalTime`. */
  lemma TransitionsKeepValid(t: Timer)
    requires Valid(t)
    ensures Valid(Start(t)) && Valid(Pause(t)) && Valid(ToggleStartPause(t))
    ensures Valid(Reset(t)) && Valid(Complete(t))
    ensures t.running ==> Valid(Tick(t))
  {
  }

  /** ... and so does any stretch of time. */
  lemma {:induction false} ElapseKeepsValid(t: Timer, n: nat)
    requires Valid(t)
    ensures Valid(Elapse(t, n))
    decreases n
  {
    if n > 0 && t.running {
      TransitionsKeepValid(t);
      ElapseKeepsValid(Tick(t), n - 1);
    }
  }

  /** The countdown: a running timer with `D` ticks to go counts down one per
      second, reaches 0 and pauses on the `D`-th tick, and `complete` runs
      exactly once, on that tick; after it nothing changes any more. */
  lemma {:induction false} Countdown(t: Timer, n: nat)
    requires t.running
    ensures n < TicksToComplete(t) ==> Elapse(t, n) == t.(timeLeft := t.timeLeft - n)
    ensures n >= TicksToComplete(t) ==> Elapse(t, n) == t.(timeLeft := 0, running := false)
    ensures CompletionsDuring(t, n) == if n >= TicksToComplete(t) then 1 else 0
    decreases n
  {
    if n > 0 {
      if TickCompletes(t) {
        assert Tick(t) == t.(timeLeft := 0, running := false);
        assert TicksToComplete(t) == 1;
      } else {
        var u := Tick(t);
        assert u == t.(timeLeft := t.timeLeft - 1) && TicksToComplete(u) == TicksToComplete(t) - 1;
        Countdown(u, n - 1);
      }
    }
  }

  /** A full work session: the display starts at "25:00", shows "24:00" after
      60 seconds of running, and after 1500 seconds the timer has stopped at
      "00:00" with exactly one completion. */
  lemma WorkSessionScenario()
    ensures TimeFormat.FormatTime(Initial().timeLeft) == "25:00"
    ensures TimeFormat.FormatTime(Elapse(Start(Initial()), 60).timeLeft) == "24:00"
    ensures Elapse(Start(Initial()), WorkSession) == Timer(0, WorkSession, false)
    ensures TimeFormat.FormatTime(Elapse(Start(Initial()), WorkSession).timeLeft) == "00:00"
    ensures CompletionsDuring(Start(Initial()), WorkSession) == 1
  {
    var t := Start(Initial());
    Countdown(t, 60);
    Countdown(t, WorkSession);
    TimeFormat.FormatTimeExamples();
  }
}
