/** The `PomodoroTimer` object itself: its fields, updated in place by its
    handlers. Every handler is proved to move the object's state exactly as
    the matching function of `Engine` (countdown) or `Gesture` (slider) says,
    so the lemmas proved there hold of the object. */
module Pomodoro {
  import TimeFormat
  import Engine
  import Gesture

  class PomodoroTimer {
    var timeLeft: int
    var totalTime: int
    var isRunning: bool
    var isDragging: bool
    var dragStartX: int
    var dragStartLeft: int
    /** The handle's left offset: the last `style.left` written. */
    var handleLeft: int
    /** When the drag sound last played; 0 while it never has. */
    var lastSoundTime: int
    /** How many times `complete()` has run. */
    ghost var completions: nat

    /** The countdown part of the state. */
    function TimerState(): Engine.Timer
      reads this
    {
      Engine.Timer(timeLeft, totalTime, isRunning)
    }

    /** The whole state the handlers act on. */
    function State(): Gesture.Widget
      reads this
    {
      Gesture.Widget(TimerState(), isDragging, dragStartX, dragStartLeft, handleLeft, lastSoundTime)
    }

    /** `0 <= timeLeft <= totalTime`. */
    predicate Valid()
      reads this
    {
      Engine.Valid(TimerState())
    }

    /** The text `updateDisplay` writes: for a non-negative time left it reads
        back as that time, and it is five characters wide below 100 minutes. */
    function Display(): (text: string)
      reads this
      ensures timeLeft >= 0 ==> TimeFormat.ParseClock(text) == TimeFormat.Some(timeLeft)
      ensures 0 <= timeLeft < 6000 ==> |text| == 5
    {
      if timeLeft < 0 then TimeFormat.FormatTime(timeLeft)
      else
        TimeFormat.FormatTimeRoundTrip(timeLeft);
        TimeFormat.FormatTimeWidth(timeLeft);
        TimeFormat.FormatTime(timeLeft)
    }

    /** A 25-minute work session, paused, no gesture, handle at the left. */
    constructor()
      ensures State() == Gesture.Initial()
      ensures Valid() && completions == 0
      ensures Display() == "25:00"
    {
      timeLeft := 25 * 60;
      totalTime := 25 * 60;
      isRunning := false;
      isDragging := false;
      dragStartX := 0;
      dragStartLeft := 0;
      handleLeft := 0;
      lastSoundTime := 0;
      completions := 0;
      new;
      TimeFormat.FormatTimeExamples();
    }

    method Start()
      modifies this`isRunning
      ensures TimerState() == Engine.Start(old(TimerState()))
      ensures isRunning && (old(isRunning) ==> unchanged(this))
      ensures old(Valid()) ==> Valid()
    {
      if isRunning {
        return;
      }
      isRunning := true;
    }

    method Pause()
      modifies this`isRunning
      ensures TimerState() == Engine.Pause(old(TimerState()))
      ensures !isRunning && (!old(isRunning) ==> unchanged(this))
      ensures old(Valid()) ==> Valid()
    {
      if !isRunning {
        return;
      }
      isRunning := false;
    }

    method ToggleStartPause()
      modifies this`isRunning
      ensures TimerState() == Engine.ToggleStartPause(old(TimerState()))
      ensures isRunning == !old(isRunning)
      ensures old(Valid()) ==> Valid()
    {
      if isRunning {
        Pause();
      } else {
        Start();
      }
    }

    /** Refills the countdown; the handle stays where it is. */
    method Reset()
      modifies this`isRunning, this`timeLeft
      ensures TimerState() == Engine.Reset(old(TimerState()))
      ensures timeLeft == totalTime && !isRunning
      ensures old(totalTime) >= 0 ==> Valid()
    {
      Pause();
      timeLeft := totalTime;
    }

    /** Stops at zero and counts one completion; the handle stays put. */
    method Complete()
      modifies this`isRunning, this`timeLeft, this`completions
      ensures TimerState() == Engine.Complete(old(TimerState()))
      ensures completions == old(completions) + 1
      ensures old(totalTime) >= 0 ==> Valid()
    {
      Pause();
      timeLeft := 0;
      completions := completions + 1;
    }

    /** One call of the interval callback, which exists only while running. */
    method Tick()
      requires isRunning
      modifies this`isRunning, this`timeLeft, this`completions
      ensures TimerState() == Engine.Tick(old(TimerState()))
      ensures completions == old(completions) + if Engine.TickCompletes(old(TimerState())) then 1 else 0
      ensures old(Valid()) ==> Valid()
    {
      timeLeft := timeLeft - 1;
      if timeLeft <= 0 {
        Complete();
      }
    }

    /** `mousedown` on the handle at pointer position `x`. */
    method StartDrag(x: int)
      modifies this`isDragging, this`dragStartX, this`dragStartLeft
      ensures State() == Gesture.StartDrag(old(State()), x)
      ensures old(Valid()) ==> Valid()
    {
      isDragging := true;
      dragStartX := x;
      dragStartLeft := handleLeft;
    }

    /** `mousemove` to pointer position `x` at clock reading `now`, on a track
        whose handle can travel `maxLeft` pixels; `playSound` tells whether
        the drag sound is played. */
    method Drag(x: int, maxLeft: int, now: int) returns (playSound: bool)
      modifies this`handleLeft, this`lastSoundTime, this`isRunning
      ensures State() == Gesture.Drag(old(State()), x, maxLeft, now)
      ensures playSound <==> old(isDragging) && Gesture.SoundDue(old(lastSoundTime), now)
      ensures old(Valid()) ==> Valid()
    {
      playSound := false;
      if !isDragging {
        return;
      }
      var deltaX := x - dragStartX;
      var newLeft := dragStartLeft + deltaX;
      if maxLeft < newLeft {
        newLeft := maxLeft;
      }
      if newLeft < 0 {
        newLeft := 0;
      }
      handleLeft := newLeft;
      if lastSoundTime == 0 || now - lastSoundTime > Gesture.SoundGap {
        playSound := true;
        lastSoundTime := now;
      }
      var intent := 2 * newLeft > maxLeft;
      if intent != isRunning {
        if intent {
          Start();
        } else {
          Pause();
        }
      }
    }

    /** `mouseup` anywhere in the document. */
    method StopDrag()
      modifies this`isDragging
      ensures State() == Gesture.StopDrag(old(State()))
      ensures old(Valid()) ==> Valid()
    {
      isDragging := false;
    }

    /** `click` on the handle, on a track whose handle can travel `maxLeft`
        pixels. */
    method ToggleSliderPosition(maxLeft: int)
      modifies this`handleLeft, this`isRunning
      ensures State() == Gesture.ToggleSlider(old(State()), maxLeft)
      ensures old(Valid()) ==> Valid()
    {
      if isDragging {
        return;
      }
      var isCurrentlyRunning := 2 * handleLeft > maxLeft;
      handleLeft := if isCurrentlyRunning then 0 else maxLeft;
      if isCurrentlyRunning {
        Pause();
      } else {
        Start();
      }
    }
  }
}
