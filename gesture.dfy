/** The slider gesture controller of `PomodoroTimer`: the drag fields
    `isDragging`, `dragStartX`, `dragStartLeft`, the handle's left offset,
    the time of the last drag sound, and the handlers `startDrag`, `drag`,
    `stopDrag` and `toggleSliderPosition` as functions on those values
    together with the countdown state they start and pause. Offsets and
    pointer positions are whole pixels; `maxLeft` (slider width minus handle
    width) and the clock reading `now` (milliseconds) are parameters. */
module Gesture {
  import opened Engine

  /** Milliseconds that must pass after a drag sound before the next one. */
  const SoundGap: int := 100

  datatype Widget = Widget(
    timer: Timer,
    dragging: bool,
    dragStartX: int,
    dragStartLeft: int,
    handleLeft: int,
    lastSoundTime: int)  // 0 stands for "no sound played yet"

  /** Freshly constructed: no gesture, handle at the left end, no sound yet. */
  function Initial(): (w: Widget)
    ensures !w.dragging && w.handleLeft == 0 && w.timer == Engine.Initial()
  {
    Widget(Engine.Initial(), false, 0, 0, 0, 0)
  }

  /** `startDrag`: remember where the pointer and the handle were. */
  function StartDrag(w: Widget, x: int): Widget {
    w.(dragging := true, dragStartX := x, dragStartLeft := w.handleLeft)
  }

  /** `stopDrag`: the handle stays where it was dropped. */
  function StopDrag(w: Widget): Widget {
    w.(dragging := false)
  }

  /** `Math.max(0, Math.min(maxLeft, v))`. */
  function Clamp(v: int, maxLeft: int): (r: int)
    ensures maxLeft >= 0 ==> 0 <= r <= maxLeft
    ensures 0 <= v <= maxLeft ==> r == v
    ensures v < 0 || maxLeft < 0 ==> r == 0
    ensures 0 <= maxLeft < v ==> r == maxLeft
  {
    var m := if maxLeft < v then maxLeft else v;
    if m < 0 then 0 else m
  }

  /** `left > maxLeft / 2` over whole pixels: the midpoint itself is the
      paused side. */
  predicate PastMidpoint(left: int, maxLeft: int) {
    2 * left > maxLeft
  }

  /** The drag sound throttle: play when none has played yet or more than
      `SoundGap` milliseconds have passed since the last one. */
  predicate SoundDue(last: int, now: int) {
    last == 0 || now - last > SoundGap
  }

  /** Where `drag` puts the handle for pointer position `x`. */
  function DragTarget(w: Widget, x: int, maxLeft: int): int {
    Clamp(w.dragStartLeft + (x - w.dragStartX), maxLeft)
  }

  /** `start()` or `pause()` only when the intent differs from the state. */
  function FollowIntent(t: Timer, intent: bool): Timer {
    if intent != t.running then (if intent then Start(t) else Pause(t)) else t
  }

  /** `drag`: ignored outside a gesture; otherwise move the handle, maybe
      play the sound, and run exactly when the handle is past the midpoint. */
  function Drag(w: Widget, x: int, maxLeft: int, now: int): Widget {
    if !w.dragging then w
    else
      var left := DragTarget(w, x, maxLeft);
      w.(handleLeft := left,
         lastSoundTime := if SoundDue(w.lastSoundTime, now) then now else w.lastSoundTime,
         timer := FollowIntent(w.timer, PastMidpoint(left, maxLeft)))
  }

  /** Whether this `drag` call invokes `start()` / `pause()`. */
  predicate DragCallsStart(w: Widget, x: int, maxLeft: int) {
    w.dragging && PastMidpoint(DragTarget(w, x, maxLeft), maxLeft) && !w.timer.running
  }

  predicate DragCallsPause(w: Widget, x: int, maxLeft: int) {
    w.dragging && !PastMidpoint(DragTarget(w, x, maxLeft), maxLeft) && w.timer.running
  }

  /** `toggleSliderPosition`: ignored during a gesture; otherwise jump the
      handle to the opposite end, deciding the side from the handle and not
      from `isRunning`, and pause or start to match. */
  function ToggleSlider(w: Widget, maxLeft: int): Widget {
    if w.dragging then w
    else if PastMidpoint(w.handleLeft, maxLeft) then w.(handleLeft := 0, timer := Pause(w.timer))
    else w.(handleLeft := maxLeft, timer := Start(w.timer))
  }

  /** One `mousemove` event: pointer position and clock reading. */
  datatype Move = Move(x: int, now: int)

  /** A stream of `mousemove` events, each handled by `drag`. */
  function DragAlong(w: Widget, moves: seq<Move>, maxLeft: int): Widget
    decreases |moves|
  {
    if moves == [] then w
    else DragAlong(Drag(w, moves[0].x, maxLeft, moves[0].now), moves[1..], maxLeft)
  }

  /** How many of those events call `start()`, and how many `pause()`. */
  function StartsAlong(w: Widget, moves: seq<Move>, maxLeft: int): nat
    decreases |moves|
  {
    if moves == [] then 0
    else
      (if DragCallsStart(w, moves[0].x, maxLeft) then 1 else 0) +
      StartsAlong(Drag(w, moves[0].x, maxLeft, moves[0].now), moves[1..], maxLeft)
  }

  function PausesAlong(w: Widget, moves: seq<Move>, maxLeft: int): nat
    decreases |moves|
  {
    if moves == [] then 0
    else
      (if DragCallsPause(w, moves[0].x, maxLeft) then 1 else 0) +
      PausesAlong(Drag(w, moves[0].x, maxLeft, moves[0].now), moves[1..], maxLeft)
  }

  /** The clock readings at which those events play the drag sound. */
  function SoundCues(w: Widget, moves: seq<Move>, maxLeft: int): seq<int>
    decreases |moves|
  {
    if moves == [] then []
    else
      var rest := SoundCues(Drag(w, moves[0].x, maxLeft, moves[0].now), moves[1..], maxLeft);
      if w.dragging && SoundDue(w.lastSoundTime, moves[0].now) then [moves[0].now] + rest else rest
  }

  /** The drag fields other than the handle, and the countdown's clock, are
      what a `drag` never changes. */
  predicate SameGesture(w: Widget, v: Widget) {
    v.dragging == w.dragging && v.dragStartX == w.dragStartX && v.dragStartLeft == w.dragStartLeft &&
    v.timer.timeLeft == w.timer.timeLeft && v.timer.totalTime == w.timer.totalTime
  }

  /** `drag` outside a gesture changes nothing. */
  lemma DragIgnoredWhenIdle(w: Widget, x: int, maxLeft: int, now: int)
    requires !w.dragging
    ensures Drag(w, x, maxLeft, now) == w
  {
  }

  /** `drag` during a gesture: the handle goes to the clamped offset, the timer
      runs exactly when that offset is past the midpoint, and `start` or
      `pause` is called only when that changes `isRunning`. */
  lemma DragFollowsPointer(w: Widget, x: int, maxLeft: int, now: int)
    requires w.dragging
    ensures var r := Drag(w, x, maxLeft, now);
      r.handleLeft == Clamp(w.dragStartLeft + (x - w.dragStartX), maxLeft) &&
      r.timer.running == PastMidpoint(r.handleLeft, maxLeft) &&
      SameGesture(w, r) &&
      (DragCallsStart(w, x, maxLeft) || DragCallsPause(w, x, maxLeft) <==> r.timer.running != w.timer.running)
  {
  }

  /** A handle dropped exactly on the midpoint means paused. */
  lemma MidpointIsPaused(w: Widget, x: int, maxLeft: int, now: int)
    requires w.dragging && maxLeft >= 0
    requires 2 * DragTarget(w, x, maxLeft) == maxLeft
    ensures !Drag(w, x, maxLeft, now).timer.running
  {
  }

  /** After any non-empty stream of moves in a gesture, the handle sits at
      the clamped offset of the last move and the timer runs exactly when the
      handle is past the midpoint. */
  lemma {:induction false} DragAlongEndsAtLast(w: Widget, moves: seq<Move>, maxLeft: int)
    requires w.dragging && moves != []
    ensures var r := DragAlong(w, moves, maxLeft);
      r.handleLeft == DragTarget(w, moves[|moves| - 1].x, maxLeft) &&
      r.timer.running == PastMidpoint(r.handleLeft, maxLeft) &&
      SameGesture(w, r)
    decreases |moves|
  {
    var v := Drag(w, moves[0].x, maxLeft, moves[0].now);
    if |moves| > 1 {
      DragAlongEndsAtLast(v, moves[1..], maxLeft);
      assert moves[1..][|moves| - 2] == moves[|moves| - 1];
    }
  }

  predicate NonDecreasing(moves: seq<Move>) {
    forall i, j :: 0 <= i < j < |moves| ==> moves[i].x <= moves[j].x
  }

  lemma ClampMonotone(u: int, v: int, maxLeft: int)
    requires u <= v
    ensures Clamp(u, maxLeft) <= Clamp(v, maxLeft)
  {
  }

  /** The general form of the monotone drag: if the timer only runs when the
      whole stream ends up past the midpoint, no event pauses and `start` is
      called once exactly when the timer was paused and the last move is past
      the midpoint. */
  lemma {:induction false} MonotoneDragCalls(w: Widget, moves: seq<Move>, maxLeft: int)
    requires w.dragging && moves != [] && NonDecreasing(moves)
    requires w.timer.running ==> PastMidpoint(DragTarget(w, moves[0].x, maxLeft), maxLeft)
    ensures PausesAlong(w, moves, maxLeft) == 0
    ensures StartsAlong(w, moves, maxLeft) ==
      if !w.timer.running && PastMidpoint(DragTarget(w, moves[|moves| - 1].x, maxLeft), maxLeft) then 1 else 0
    decreases |moves|
  {
    var last := moves[|moves| - 1];
    var v := Drag(w, moves[0].x, maxLeft, moves[0].now);
    ClampMonotone(w.dragStartLeft + (moves[0].x - w.dragStartX), w.dragStartLeft + (last.x - w.dragStartX), maxLeft);
    if |moves| > 1 {
      var rest := moves[1..];
      assert rest[|rest| - 1] == last;
      assert NonDecreasing(rest);
      assert DragTarget(v, rest[0].x, maxLeft) == DragTarget(w, moves[1].x, maxLeft);
      ClampMonotone(w.dragStartLeft + (moves[0].x - w.dragStartX), w.dragStartLeft + (moves[1].x - w.dragStartX), maxLeft);
      MonotoneDragCalls(v, rest, maxLeft);
      assert DragTarget(v, last.x, maxLeft) == DragTarget(w, last.x, maxLeft);
    }
  }

  /** A drag that starts paused and only moves right calls `start` at most
      once, and exactly once when it ends past the midpoint; `pause` never. */
  lemma MonotoneDragStartsOnce(w: Widget, moves: seq<Move>, maxLeft: int)
    requires w.dragging && !w.timer.running && moves != [] && NonDecreasing(moves)
    ensures PausesAlong(w, moves, maxLeft) == 0
    ensures StartsAlong(w, moves, maxLeft) ==
      if PastMidpoint(DragTarget(w, moves[|moves| - 1].x, maxLeft), maxLeft) then 1 else 0
  {
    MonotoneDragCalls(w, moves, maxLeft);
  }

  /** Clock readings `cues` of sounds after a sound at `last` (0: none) are
      each more than `SoundGap` after the one before. */
  predicate Spaced(cues: seq<int>, last: int) {
    (forall i :: 0 < i < |cues| ==> cues[i] - cues[i - 1] > SoundGap) &&
    (cues != [] && last != 0 ==> cues[0] - last > SoundGap)
  }

  /** The throttle: with a clock that reads above 0, every sound of a gesture
      comes more than `SoundGap` milliseconds after the one before it, and the
      first more than that after the last sound before the stream. */
  lemma {:induction false} SoundCuesSpaced(w: Widget, moves: seq<Move>, maxLeft: int)
    requires forall i :: 0 <= i < |moves| ==> moves[i].now > 0
    ensures Spaced(SoundCues(w, moves, maxLeft), w.lastSoundTime)
    decreases |moves|
  {
    if moves != [] {
      var m := moves[0];
      var v := Drag(w, m.x, maxLeft, m.now);
      assert m.now > 0;
      SoundCuesSpaced(v, moves[1..], maxLeft);
      var rest := SoundCues(v, moves[1..], maxLeft);
      var c := SoundCues(w, moves, maxLeft);
      if w.dragging && SoundDue(w.lastSoundTime, m.now) {
        assert v.lastSoundTime == m.now && c == [m.now] + rest;
        forall i | 0 < i < |c|
          ensures c[i] - c[i - 1] > SoundGap
        {
          assert c[i] == rest[i - 1];
          if i > 1 {
            assert c[i - 1] == rest[i - 2];
          }
        }
      } else {
        assert v.lastSoundTime == w.lastSoundTime && c == rest;
      }
    }
  }

  /** `toggleSliderPosition` during a gesture changes nothing. */
  lemma ToggleSliderIgnoredWhileDragging(w: Widget, maxLeft: int)
    requires w.dragging
    ensures ToggleSlider(w, maxLeft) == w
  {
  }

  /** `toggleSliderPosition` from the left end starts the timer and moves the
      handle to the right end; from the right end it pauses and moves back;
      either way the handle's side and `isRunning` agree afterwards. */
  lemma ToggleSliderSwaps(w: Widget, maxLeft: int)
    requires !w.dragging && maxLeft > 0
    ensures w.handleLeft == 0 ==>
      ToggleSlider(w, maxLeft).handleLeft == maxLeft && ToggleSlider(w, maxLeft).timer.running
    ensures w.handleLeft == maxLeft ==>
      ToggleSlider(w, maxLeft).handleLeft == 0 && !ToggleSlider(w, maxLeft).timer.running
    ensures ToggleSlider(w, maxLeft).timer.running ==
      PastMidpoint(ToggleSlider(w, maxLeft).handleLeft, maxLeft)
    ensures ToggleSlider(w, maxLeft).timer.timeLeft == w.timer.timeLeft
  {
  }

  /** `toggleSliderPosition` outside a gesture, for any handle offset: a
      handle past the midpoint goes to 0 and the timer pauses; any other
      handle goes to `maxLeft` and the timer starts. Only the handle and
      `isRunning` change. */
  lemma ToggleSliderRule(w: Widget, maxLeft: int)
    requires !w.dragging
    ensures var r := ToggleSlider(w, maxLeft);
      (PastMidpoint(w.handleLeft, maxLeft) ==> r.handleLeft == 0 && !r.timer.running) &&
      (!PastMidpoint(w.handleLeft, maxLeft) ==> r.handleLeft == maxLeft && r.timer.running) &&
      r.timer.timeLeft == w.timer.timeLeft && r.timer.totalTime == w.timer.totalTime &&
      r == w.(handleLeft := r.handleLeft, timer := w.timer.(running := r.timer.running))
  {
  }

  /** Two toggles bring the handle back to the end it started from, with the
      timer matching that end. */
  lemma ToggleSliderTwice(w: Widget, maxLeft: int)
    requires !w.dragging && maxLeft > 0
    requires w.handleLeft == 0 || w.handleLeft == maxLeft
    ensures var r := ToggleSlider(ToggleSlider(w, maxLeft), maxLeft);
      r.handleLeft == w.handleLeft && r.timer.running == PastMidpoint(w.handleLeft, maxLeft)
  {
  }

  /** What the browser does with a press on the handle, a stream of moves and
      a release over the handle, AS WRITTEN: `mousedown` runs `startDrag`,
      each `mousemove` runs `drag`, then `mouseup` on the document runs
      `stopDrag` BEFORE the `click` on the handle runs `toggleSliderPosition`,
      so `isDragging` is already false when the click's guard reads it. */
  function PressDragReleaseAsWritten(w: Widget, x0: int, moves: seq<Move>, maxLeft: int): Widget {
    ToggleSlider(StopDrag(DragAlong(StartDrag(w, x0), moves, maxLeft)), maxLeft)
  }

  /** As written, the click that ends a drag always reverses the run/pause
      decision the drag made: the timer ends up running exactly when the
      handle was dropped on the paused side. */
  lemma {:induction false} ReleaseUndoesDrag(w: Widget, x0: int, moves: seq<Move>, maxLeft: int)
    requires moves != []
    ensures var d := DragAlong(StartDrag(w, x0), moves, maxLeft);
      var r := PressDragReleaseAsWritten(w, x0, moves, maxLeft);
      d.timer.running == PastMidpoint(d.handleLeft, maxLeft) &&
      r.timer.running == !d.timer.running
  {
    DragAlongEndsAtLast(StartDrag(w, x0), moves, maxLeft);
  }

  /** A concrete case: press at x = 100 on a fresh widget with a 40-pixel
      track, drag to x = 140 (the timer starts), release: the handle snaps
      back to 0 and the timer is paused again. */
  lemma ReleaseUndoesDragExample()
    ensures DragAlong(StartDrag(Initial(), 100), [Move(140, 1000)], 40).timer.running
    ensures DragAlong(StartDrag(Initial(), 100), [Move(140, 1000)], 40).handleLeft == 40
    ensures PressDragReleaseAsWritten(Initial(), 100, [Move(140, 1000)], 40).handleLeft == 0
    ensures !PressDragReleaseAsWritten(Initial(), 100, [Move(140, 1000)], 40).timer.running
  {
  }

  /** The evidently intended sequence: the click that ends a gesture in
      which the pointer moved is not a toggle; a press and release without
      moves still toggles. */
  function PressDragRelease(w: Widget, x0: int, moves: seq<Move>, maxLeft: int): Widget {
    var d := StopDrag(DragAlong(StartDrag(w, x0), moves, maxLeft));
    if moves == [] then ToggleSlider(d, maxLeft) else d
  }

  /** With the intended sequence a drag keeps its result: the handle stays at
      the last move's clamped offset and the timer runs exactly when that is
      past the midpoint; a plain click moves the handle and the timer as
      `toggleSliderPosition` does outside a gesture. */
  lemma {:induction false} PressDragReleaseKeepsDrop(w: Widget, x0: int, moves: seq<Move>, maxLeft: int)
    ensures var r := PressDragRelease(w, x0, moves, maxLeft);
      !r.dragging &&
      (moves != [] ==>
        r.handleLeft == Clamp(w.handleLeft + (moves[|moves| - 1].x - x0), maxLeft) &&
        r.timer.running == PastMidpoint(r.handleLeft, maxLeft) &&
        r.timer.timeLeft == w.timer.timeLeft) &&
      (moves == [] ==>
        r.handleLeft == ToggleSlider(w.(dragging := false), maxLeft).handleLeft &&
        r.timer == ToggleSlider(w.(dragging := false), maxLeft).timer)
  {
    if moves != [] {
      DragAlongEndsAtLast(StartDrag(w, x0), moves, maxLeft);
    }
  }
}
