# Pomodoro timer: countdown engine and slider gesture controller

This project models the `PomodoroTimer` class of a browser Pomodoro timer
(`script.js`). Beneath its DOM calls the class is a small state machine with
two parts:

- **The countdown engine**: `timeLeft`, `totalTime` and `isRunning`, and the
  transitions `start`, `pause`, `toggleStartPause`, `reset`, `complete` and
  the one-second interval callback. It also has the `MM:SS` text that
  `formatTime` returns and `updateDisplay` writes.
- **The slider gesture controller**: `isDragging`, `dragStartX`,
  `dragStartLeft`, the handle's left offset and the time of the last drag
  sound. Its handlers are `startDrag`, `drag`, `stopDrag` and
  `toggleSliderPosition`. They move the handle and start or pause the
  countdown.

The project has four modules:

- `TimeFormat` (`format.dfy`) computes the display text with JavaScript's
  number semantics:
  - `Math.floor` for the minutes;
  - the truncating `%` for the seconds;
  - `toString`, which writes a `-` for negative numbers;
  - `padStart(2, '0')`, which pads but never truncates.

  `ParseClock` reads an `MM:SS` text back. It is the inverse the formatter is
  proved against.
- `Engine` (`engine.dfy`) has the countdown state as a value `Timer` and every
  transition as a function on it. `Elapse` runs `n` seconds of host time
  (the interval callback fires once a second while the timer runs), and
  `CompletionsDuring` counts how often `complete` runs meanwhile.
- `Gesture` (`gesture.dfy`) has the whole state (`Widget` = countdown state
  plus the gesture fields) and every handler as a function on it. It also has
  streams of pointer moves, and the event sequence the browser produces for a
  press, a drag and a release.
- `Pomodoro` (`pomodoro.dfy`) has the class `PomodoroTimer` with the source's
  fields, updated in place by one method per handler. Each method is proved
  to leave `State()` (or `TimerState()`) equal to the matching `Gesture` or
  `Engine` function of the old state. Its `modifies` clause names exactly the
  fields the handler writes, so the lemmas about those functions hold of the
  object. A ghost counter `completions` records the calls of `complete()`.

The values the handlers read from the page or the host are method
parameters:
- the pointer position `x` (`e.clientX`);
- the handle's travel `maxLeft` (slider width minus handle width);
- the clock reading `now` (`Date.now()`, in milliseconds).

Whether `drag` plays the sound is returned as `playSound`.

## Model

| member | source | states |
|---|---|---|
| TimeFormat.FloorDiv60 | script.js:142 | `Math.floor(timeLeft / 60)`: the largest `q` with `60 * q <= s` |
| TimeFormat.JsRem60 | script.js:143 | `timeLeft % 60` as JavaScript computes it: strictly between -60 and 60, congruent to `s` modulo 60, and never of the opposite sign to `s` |
| TimeFormat.NatToString | script.js:146 | `toString()` of a non-negative number: at least one decimal digit and no leading zero |
| TimeFormat.IntToStringMeaning | script.js:146 | `toString()` of any integer: for a non-negative number, decimal digits denoting that number; for a negative one, a `-` followed by decimal digits denoting its magnitude |
| TimeFormat.PadStart | script.js:146 | `padStart(width, fill)` yields exactly `width` characters when the text is shorter, and otherwise leaves the length alone (it never truncates) |
| TimeFormat.PadStartShape | script.js:146 | `padStart` puts exactly the missing number of fill characters in front of the unchanged text |
| TimeFormat.ValueOfNatToString | script.js:146 | the digits `toString` writes denote the number itself |
| TimeFormat.PaddedFieldValue | script.js:146 | a zero-padded field of a non-negative count is all digits and denotes the count |
| TimeFormat.PaddedFieldWidth | script.js:146 | a padded field is exactly two characters iff the count is below 100; from 100 on it is the unpadded `toString` digits themselves |
| TimeFormat.FormatTimeRoundTrip | script.js:149-153 | for every non-negative `s`, `formatTime(s)` parses back to `s` as minutes, a colon and two seconds digits below 60 |
| TimeFormat.FormatTimeWidth | script.js:149-153 | the display has five characters iff `s < 6000`; from 100 minutes on, the minutes field grows instead of being cut |
| TimeFormat.TwoDigitField | script.js:146 | below 100 a field is the tens digit followed by the units digit |
| TimeFormat.FormatTimeDigits | script.js:149-153 | for `0 <= s < 6000` the display is `MM:SS`, the zero-padded `s / 60`, a colon and the zero-padded `s % 60` |
| TimeFormat.FormatTimeExamples | script.js:149-153 | 1500 shows "25:00", 1440 shows "24:00", 0 shows "00:00", and -1 shows "-1:-1" |
| Engine.Initial | script.js:3-5 | the constructor's countdown: 25 minutes of a 25-minute total, paused, and valid |
| Engine.TicksToComplete | script.js:69-73 | the number of callbacks a running timer needs until `complete`: its time left, and at least one |
| Engine.StartRuns | script.js:60-63 | `start` leaves the timer running with `timeLeft` and `totalTime` unchanged, and changes nothing when it is already running |
| Engine.PauseStops | script.js:78-81 | `pause` leaves the timer paused with `timeLeft` and `totalTime` unchanged, and changes nothing when it is not running |
| Engine.StartPauseIdempotent | script.js:60-87 | a second `start` or a second `pause` changes nothing |
| Engine.PauseStartPause | script.js:60-87 | `pause(); start(); pause()` ends where one `pause()` does |
| Engine.ToggleFlips | script.js:52-58 | `toggleStartPause` always flips `isRunning`, keeps both times, and undoes itself |
| Engine.ResetRestores | script.js:89-93 | `reset` from any state gives `timeLeft == totalTime` and paused; it is idempotent, and two states with the same total reset to the same state |
| Engine.CompleteStops | script.js:100-103 | `complete` leaves `timeLeft == 0` and paused from any state, and keeps the total |
| Engine.TickCountsDown | script.js:68-75 | a callback while running takes exactly one second off; when that reaches 0 or less, `complete` runs and leaves 0 and paused |
| Engine.TransitionsKeepValid | script.js:3-4 | `0 <= timeLeft <= totalTime` survives every transition |
| Engine.ElapseKeepsValid | script.js:68-75 | ... and any number of seconds of running |
| Engine.Countdown | script.js:68-75 | from running with `D` ticks to go: after `n < D` seconds exactly `n` have been taken off and the timer still runs; from the `D`-th second on it rests at 0, paused; `complete` runs exactly once, on the `D`-th tick |
| Engine.WorkSessionScenario | script.js:3-4 | a started work session shows "25:00", then "24:00" a minute later; after 1500 seconds it is stopped at "00:00" with exactly one completion |
| Gesture.Initial | script.js:9-11 | the constructor's gesture state: no drag, handle at the left end, countdown as in `Engine.Initial` |
| Gesture.Clamp | script.js:171-172 | `Math.max(0, Math.min(maxLeft, v))`: inside `[0, maxLeft]` when `maxLeft >= 0`; `v` itself when already inside; 0 below; `maxLeft` above |
| Gesture.DragIgnoredWhenIdle | script.js:163 | `drag` outside a gesture changes nothing |
| Gesture.DragFollowsPointer | script.js:162-199 | during a gesture, `drag` puts the handle at the clamped offset; afterwards the timer runs iff the handle is strictly past the midpoint; `start`/`pause` is called iff that changes `isRunning`; the gesture fields and the countdown's times are untouched |
| Gesture.MidpointIsPaused | script.js:183 | a handle exactly on the midpoint means paused |
| Gesture.DragAlongEndsAtLast | script.js:162-199 | after any stream of moves the handle is at the last move's clamped offset, and the run state matches its side |
| Gesture.MonotoneDragCalls | script.js:193-199 | a drag that only moves right and that may start running only past the midpoint never calls `pause`, and calls `start` once exactly when it began paused and ends past the midpoint |
| Gesture.MonotoneDragStartsOnce | script.js:193-199 | a drag that starts paused and only moves right calls `start` exactly once if it ends past the midpoint, never otherwise, and never calls `pause` |
| Gesture.SoundCuesSpaced | script.js:177-180 | with a positive clock, each drag sound comes more than 100 ms after the previous one, and the first more than 100 ms after the last sound before the stream |
| Gesture.ToggleSliderIgnoredWhileDragging | script.js:300 | `toggleSliderPosition` during a gesture changes nothing |
| Gesture.ToggleSliderSwaps | script.js:305-320 | outside a gesture, a click moves the handle from 0 to `maxLeft` and starts, or from `maxLeft` to 0 and pauses; afterwards the run state matches the handle's side; the time left is untouched |
| Gesture.ToggleSliderRule | script.js:305-320 | outside a gesture, for any handle offset: a handle strictly past the midpoint goes to 0 and the timer pauses, any other handle goes to `maxLeft` and the timer starts; both times and everything but the handle and `isRunning` are kept |
| Gesture.ToggleSliderTwice | script.js:305-320 | two clicks bring the handle back to the end it started at, with the run state of that end |
| Gesture.ReleaseUndoesDrag | script.js:34-39 | as written, the click that ends a drag reverses the drag's decision: the timer ends up running iff the handle was dropped on the paused side |
| Gesture.ReleaseUndoesDragExample | script.js:34-39 | a concrete press, drag and release in which the drag starts the timer and the release pauses it and snaps the handle back to 0 |
| Gesture.PressDragReleaseKeepsDrop | script.js:298-300 | the intended sequence: after a drag with moves the handle stays where it was dropped and the timer runs iff that is past the midpoint; a click without moves toggles |
| Pomodoro.PomodoroTimer.Display | script.js:141-147 | the text `updateDisplay` writes reads back as `timeLeft` when that is non-negative, and is five characters wide below 100 minutes |
| Pomodoro.PomodoroTimer.constructor | script.js:2-16 | the object starts as `Gesture.Initial`, valid, with no completions, showing "25:00" |
| Pomodoro.PomodoroTimer.Start | script.js:60-63 | the fields move as `Engine.Start` says; afterwards the timer runs, and nothing changes when it already ran; a valid state stays valid |
| Pomodoro.PomodoroTimer.Pause | script.js:78-81 | the fields move as `Engine.Pause` says; afterwards the timer is paused, and nothing changes when it already was; a valid state stays valid |
| Pomodoro.PomodoroTimer.ToggleStartPause | script.js:52-58 | the fields move as `Engine.ToggleStartPause` says; `isRunning` flips; a valid state stays valid |
| Pomodoro.PomodoroTimer.Reset | script.js:89-93 | the fields move as `Engine.Reset` says: `timeLeft == totalTime`, paused, valid when the total is not negative; only `isRunning` and `timeLeft` change, so the handle stays where it is |
| Pomodoro.PomodoroTimer.Complete | script.js:100-103 | the fields move as `Engine.Complete` says; one more completion; the handle stays where it is |
| Pomodoro.PomodoroTimer.Tick | script.js:68-75 | one interval callback moves the fields as `Engine.Tick` says; the completion counter grows by one exactly when the callback ends in `complete`; validity is kept |
| Pomodoro.PomodoroTimer.StartDrag | script.js:155-160 | the object moves as `Gesture.StartDrag` says: the gesture is on and records the pointer and the handle offset; a valid state stays valid |
| Pomodoro.PomodoroTimer.Drag | script.js:162-200 | the object moves as `Gesture.Drag` says, and the drag sound plays iff a gesture is on and none has played yet or more than 100 ms have passed; a valid state stays valid |
| Pomodoro.PomodoroTimer.StopDrag | script.js:202-204 | the object moves as `Gesture.StopDrag` says: only the gesture flag is cleared; a valid state stays valid |
| Pomodoro.PomodoroTimer.ToggleSliderPosition | script.js:298-320 | the object moves as `Gesture.ToggleSlider` says; a valid state stays valid |

## Left out

- DOM lookups, `classList` styling, `preventDefault` and the text writes of `updateDisplay` are not modelled. The text itself is `PomodoroTimer.Display`.
- `setInterval`, `clearInterval` and `setTimeout` scheduling is host timing. The interval callback is the method `Tick`, and `Engine.Elapse` runs it once per second of host time while the timer runs. The `interval` field is not modelled.
- Pomodoro.PomodoroTimer.Tick: requires `isRunning`, because `start` creates the interval only when not running and `pause` clears it, so the callback never runs on a paused timer.
- The Notification API, its permission requests and the completion animation are not modelled. A completion is recorded only by the ghost counter `completions`.
- Audio playback is not modelled. `Drag` returns whether `playDragSound` is called.
- Both `Date.now()` calls in one `drag` are taken to read the same clock value `now`.
- `lastSoundTime` is undefined until the first sound. It is modelled as 0, which `!this.lastSoundTime` treats the same way.
- Numbers are unbounded integers. JavaScript numbers are doubles, exact as integers only up to 2^53, and `toString` switches to exponent notation from 1e21. Neither is modelled. This is harmless for the countdown: `timeLeft` only ranges from the total (1500) down to 0, or to -1 after a second start at 0, and clock readings in milliseconds stay far below 2^53.
- Pixel values are whole numbers. The midpoint test `newLeft > maxLeft / 2` is written as `2 * newLeft > maxLeft`, which is the same test over integers, so a tie is paused.
- The handle's offset is the last `style.left` written. The CSS transition of `toggleSliderPosition` and any offset read mid-animation are not modelled. The initial offset is 0, since the stylesheet is not part of this model.
- `switchMode` and `autoSwitchMode` only call `reset`. `currentMode` and `sessionCount` are never changed. Dark mode, its `localStorage` flag and the star animation are cosmetic. None of these are modelled.
- The class keeps each handler exactly as written. The browser's event order (press, moves, release, click) is modelled on values only, by `Gesture.PressDragReleaseAsWritten` and `Gesture.PressDragRelease`.

## Findings

| source | as written | input that shows it | evidently intended | confidence | as-written member | corrected member |
|---|---|---|---|---|---|---|
| script.js:36-39, 202-204, 298-300 | `mouseup` on the document runs `stopDrag` before the handle's `click` runs `toggleSliderPosition`. The `isDragging` guard is therefore already false when the click that ends a drag arrives, and the click reverses whatever the drag decided. | On a fresh timer with `maxLeft = 40`: press at x = 100, move to x = 140 (the handle goes to 40 and the timer starts), release over the handle. The click moves the handle back to 0 and pauses the timer. | The click that ends a drag in which the pointer moved is not a toggle. The handle stays where it was dropped, and the timer runs iff that is past the midpoint. | medium, not executed | Gesture.ReleaseUndoesDrag | Gesture.PressDragReleaseKeepsDrop |
