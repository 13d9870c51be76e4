/** The frame-rate limiter used by the game loop (class AnimationTimer). */
module Animation {

  /** JavaScript's Math.round for finite values: round half up. */
  function Round(v: real): (r: int)
    ensures r as real - 0.5 <= v < r as real + 0.5
  {
    (v + 0.5).Floor
  }

  class AnimationTimer {
    const fps: real
    const frameInterval: real
    var lastFrameTime: real
    var accumulated: real
    var frames: int
    var lastFpsUpdate: real
    var currentFps: int

    ghost predicate Valid()
      reads this
    {
      fps > 0.0 && frameInterval == 1000.0 / fps && frames >= 0
    }

    constructor (fps: real)
      requires fps > 0.0
      ensures Valid() && this.fps == fps
      ensures lastFrameTime == 0.0 && accumulated == 0.0 && frames == 0
      ensures lastFpsUpdate == 0.0 && currentFps == 0
    {
      this.fps := fps;
      frameInterval := 1000.0 / fps;
      lastFrameTime := 0.0;
      accumulated := 0.0;
      frames := 0;
      lastFpsUpdate := 0.0;
      currentFps := 0;
    }

    /**
     * While no frame time is recorded (the value 0 is falsy) the first
     * timestamp is stored and a frame is rendered without touching the
     * accumulator; afterwards a frame is due when the accumulated time
     * reaches one frame interval, and exactly one interval is consumed.
     */
    method Update(timestamp: real) returns (render: bool)
      requires Valid()
      modifies this
      ensures Valid()
      ensures old(lastFrameTime) == 0.0 ==>
                render && lastFrameTime == timestamp && accumulated == old(accumulated) &&
                frames == old(frames) && lastFpsUpdate == old(lastFpsUpdate) && currentFps == old(currentFps)
      ensures old(lastFrameTime) != 0.0 ==>
                lastFrameTime == timestamp &&
                render == (old(accumulated) + (timestamp - old(lastFrameTime)) >= frameInterval) &&
                accumulated == old(accumulated) + (timestamp - old(lastFrameTime)) - (if render then frameInterval else 0.0)
      ensures old(lastFrameTime) != 0.0 && timestamp - old(lastFpsUpdate) >= 1000.0 ==>
                frames == 0 && lastFpsUpdate == timestamp &&
                currentFps == Round((old(frames) + 1) as real * 1000.0 / (timestamp - old(lastFpsUpdate)))
      ensures old(lastFrameTime) != 0.0 && timestamp - old(lastFpsUpdate) < 1000.0 ==>
                frames == old(frames) + 1 && lastFpsUpdate == old(lastFpsUpdate) && currentFps == old(currentFps)
    {
      if lastFrameTime == 0.0 {
        lastFrameTime := timestamp;
        return true;
      }
      var deltaTime := timestamp - lastFrameTime;
      lastFrameTime := timestamp;
      accumulated := accumulated + deltaTime;
      frames := frames + 1;
      if timestamp - lastFpsUpdate >= 1000.0 {
        currentFps := Round(frames as real * 1000.0 / (timestamp - lastFpsUpdate));
        lastFpsUpdate := timestamp;
        frames := 0;
      }
      if accumulated >= frameInterval {
        accumulated := accumulated - frameInterval;
        return true;
      }
      return false;
    }
  }
}
