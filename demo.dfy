/**
  The demo frame loop of `main`: each frame clears the 4 x 4 buffer, lights
  the pixel under a cursor that walks the buffer cyclically, scales the buffer
  to the 1080 x 720 window, and counts frames for a once-a-second FPS report.
  Presenting the frame and setting the window title are left to the caller:
  the scaled frame and the FPS value are returned.
*/
module Demo {
  import opened Common
  import Renderer
  import Timer

  const WINDOW_WIDTH: nat := 1080
  const WINDOW_HEIGHT: nat := 720
  const BUFFER_WIDTH: nat := 4
  const BUFFER_HEIGHT: nat := 4
  /** `Duration::from_secs(1)` in milliseconds. */
  const FPS_INTERVAL: nat := 1000

  /** The cursor after one frame: the next pixel, wrapping to the first. */
  function NextCursor(count: nat, length: nat): (next: nat)
    requires length > 0
    ensures next < length
    ensures count < length ==> (next == count + 1 || (count + 1 == length && next == 0))
  {
    (count + 1) % length
  }

  /** The cursor after `frames` frames. */
  function CursorAfter(count: nat, length: nat, frames: nat): nat
    requires length > 0
  {
    if frames == 0 then count else NextCursor(CursorAfter(count, length, frames - 1), length)
  }

  /** Taking the remainder before or after adding one gives the same cursor. */
  lemma {:induction false} ModSucc(a: nat, m: nat)
    requires m > 0
    ensures ((a % m) + 1) % m == (a + 1) % m
  {
    var q, r := a / m, a % m;
    assert a == m * q + r;
    if r + 1 < m {
      DivUnique(r + 1, m, 0, r + 1);
      DivUnique(a + 1, m, q, r + 1);
    } else {
      DivUnique(r + 1, m, 1, 0);
      DivUnique(a + 1, m, q + 1, 0);
    }
  }

  /** One more frame moves the cursor one more pixel modulo the length. */
  lemma {:induction false} CursorStep(count: nat, length: nat, frames: nat)
    requires count < length && frames > 0
    requires CursorAfter(count, length, frames - 1) == (count + frames - 1) % length
    ensures CursorAfter(count, length, frames) == (count + frames) % length
  {
    var before := count + frames - 1;
    ModSucc(before, length);
    assert CursorAfter(count, length, frames) == (before % length + 1) % length;
  }

  /** The cursor moves `frames` pixels modulo the length. */
  lemma {:induction false} CursorWalks(count: nat, length: nat, frames: nat)
    requires count < length
    ensures CursorAfter(count, length, frames) == (count + frames) % length
  {
    if frames == 0 {
      DivUnique(count, length, 0, count);
    } else {
      CursorWalks(count, length, frames - 1);
      CursorStep(count, length, frames);
    }
  }

  /** The cursor is back where it started after exactly `length` frames, and never earlier. */
  lemma CursorCycles(count: nat, length: nat, frames: nat)
    requires count < length && 0 < frames <= length
    ensures CursorAfter(count, length, frames) == count <==> frames == length
  {
    CursorWalks(count, length, frames);
    if count + frames < length {
      DivUnique(count + frames, length, 0, count + frames);
    } else {
      DivUnique(count + frames, length, 1, count + frames - length);
    }
  }

  /**
    One FPS-counter step with the clock read as `measured` for `elapsed()`
    and as `reset` for the new `last_fps_time`: the count is reported, and
    reset, exactly when a second has passed; no frame is lost between the
    count and the report.
  */
  function FpsStep(frameCount: nat, lastFpsTime: nat, measured: nat, reset: nat): (r: (nat, nat, Option<nat>))
    ensures r.2.Some? <==> Timer.Since(measured, lastFpsTime) >= FPS_INTERVAL
    ensures r.0 + Timer.Reported(r.2) == frameCount + 1
    ensures r.2.Some? ==> r.2.value >= 1 && r.0 == 0 && r.1 == reset
    ensures r.2.None? ==> r.1 == lastFpsTime
  {
    var frames := frameCount + 1;
    if Timer.Since(measured, lastFpsTime) >= FPS_INTERVAL then (0, reset, Some(frames))
    else (frames, lastFpsTime, None)
  }

  /** With a single clock reading the FPS counter is a one-second `Timer` whose callback receives the FPS. */
  lemma FpsCounterIsTimer(frameCount: nat, lastFpsTime: nat, now: nat)
    ensures var (c, fired) := Timer.Step(Timer.Clock(frameCount, lastFpsTime, FPS_INTERVAL), now);
      FpsStep(frameCount, lastFpsTime, now, now) == (c.tick, c.elapsed, fired)
  {
  }

  /** The buffer after the clearing loop and the single write: only the cursor's pixel is lit. */
  predicate OneHot(buffer: seq<U32>, count: nat)
    ensures OneHot(buffer, count) ==> forall i :: 0 <= i < |buffer| ==> (buffer[i] == U32_MAX <==> i == count)
  {
    count < |buffer| && buffer[count] == U32_MAX && forall i :: 0 <= i < |buffer| && i != count ==> buffer[i] == 0
  }

  /** A pixel of the scaled frame is lit exactly when it samples the cursor's pixel. */
  lemma ScaledOneHot(buffer: seq<U32>, count: nat, x: nat, y: nat)
    requires |buffer| == BUFFER_WIDTH * BUFFER_HEIGHT && OneHot(buffer, count)
    requires x < WINDOW_WIDTH && y < WINDOW_HEIGHT
    ensures y * WINDOW_WIDTH + x < WINDOW_WIDTH * WINDOW_HEIGHT
    ensures var scaled := Renderer.Scaled(buffer, BUFFER_WIDTH, BUFFER_HEIGHT, WINDOW_WIDTH, WINDOW_HEIGHT);
      (scaled[y * WINDOW_WIDTH + x] == U32_MAX) <==>
      Renderer.SourceIndex(BUFFER_WIDTH, BUFFER_HEIGHT, WINDOW_WIDTH, WINDOW_HEIGHT, x, y) == count
  {
    Renderer.ScaledAt(buffer, BUFFER_WIDTH, BUFFER_HEIGHT, WINDOW_WIDTH, WINDOW_HEIGHT, x, y);
  }

  /** The state `main` keeps across frames. */
  class Demo {
    var buffer: array<U32>
    var count: nat
    var frameCount: nat
    var lastFpsTime: nat

    /** The buffer is 4 x 4 and the cursor is inside it. */
    ghost predicate Valid()
      reads this
    {
      buffer.Length == BUFFER_WIDTH * BUFFER_HEIGHT && count < buffer.Length
    }

    /** The zeroed buffer, the cursor at 0, no frames counted, the FPS clock started now. */
    constructor (now: nat)
      ensures Valid() && fresh(buffer)
      ensures forall i :: 0 <= i < buffer.Length ==> buffer[i] == 0
      ensures count == 0 && frameCount == 0 && lastFpsTime == now
    {
      buffer := new U32[BUFFER_WIDTH * BUFFER_HEIGHT](_ => 0);
      count := 0;
      frameCount := 0;
      lastFpsTime := now;
    }

    /**
      One frame: the buffer is cleared and the cursor's pixel set to white, the
      cursor advances, the scaled frame is returned, and the FPS counter steps
      with the clock read at `measured` and then at `reset`.
    */
    method Frame(measured: nat, reset: nat) returns (scaled: array<U32>, fps: Option<nat>)
      requires Valid()
      modifies this, buffer
      ensures Valid() && buffer == old(buffer)
      ensures OneHot(buffer[..], old(count))
      ensures count == NextCursor(old(count), buffer.Length)
      ensures fresh(scaled)
      ensures scaled[..] == Renderer.Scaled(buffer[..], BUFFER_WIDTH, BUFFER_HEIGHT, WINDOW_WIDTH, WINDOW_HEIGHT)
      ensures (frameCount, lastFpsTime, fps) == FpsStep(old(frameCount), old(lastFpsTime), measured, reset)
    {
      var pixels := buffer;
      for i := 0 to pixels.Length
        modifies pixels
        invariant forall j :: 0 <= j < i ==> pixels[j] == 0
      {
        pixels[i] := 0;
      }
      pixels[count] := U32_MAX;
      count := count + 1;
      count := count % pixels.Length;

      scaled := Renderer.ScaleBuffer(pixels, BUFFER_WIDTH, BUFFER_HEIGHT, WINDOW_WIDTH, WINDOW_HEIGHT);

      frameCount := frameCount + 1;
      if Timer.Since(measured, lastFpsTime) >= FPS_INTERVAL {
        fps := Some(frameCount);
        frameCount := 0;
        lastFpsTime := reset;
      } else {
        fps := None;
      }
    }
  }
}
