/**
 * MouseMoveDetector (main.cpp:224-253): remembers the previous pointer
 * position and the instant it was taken, and on each new position decides
 * whether the pointer moved faster than the speed threshold since then.
 */
module Detector {
  import opened Config
  import opened Clock

  /** A POINT: screen coordinates in pixels. */
  datatype Point = Point(x: int, y: int)

  /** Squared Euclidean length of a displacement. */
  function SquaredDistance(dx: int, dy: int): (d2: int)
    ensures d2 >= 0
    ensures d2 == 0 <==> dx == 0 && dy == 0
  {
    dx * dx + dy * dy
  }

  /**
   * The square of the source's speed, d2 / t2 * 1000 * 1000 pixels squared per
   * second squared, against the square of the threshold, over the reals.
   */
  predicate ScaledExceeds(d2: int, t2: int)
    requires t2 > 0
  {
    (d2 as real / t2 as real) * (MsPerSecond * MsPerSecond) as real > (SpeedThreshold * SpeedThreshold) as real
  }

  /** The source's speed formula, squared, for displacement (dx, dy) over dtMs milliseconds. */
  predicate SquaredSpeedExceeds(dx: int, dy: int, dtMs: int)
    requires dtMs > 0
  {
    ScaledExceeds(SquaredDistance(dx, dy), dtMs * dtMs)
  }

  /** Dividing by the positive squared time and scaling to seconds keeps the comparison with the squared threshold. */
  lemma SquaredSpeedScaling(d2: int, t2: int)
    requires t2 > 0
    ensures ScaledExceeds(d2, t2) <==> d2 > 9 * t2
  {
    var perMs := d2 as real / t2 as real;
    assert perMs * t2 as real == d2 as real;
    if perMs > 9.0 {
      assert d2 as real == perMs * t2 as real > 9.0 * t2 as real;
    } else {
      assert d2 as real == perMs * t2 as real <= 9.0 * t2 as real;
    }
  }

  /**
   * The speed test of main.cpp:237-245 in exact integer form. The source
   * computes sqrt(dx*dx + dy*dy) / dt * 1000 > 3000; both sides are
   * non-negative, so that is sqrt(d2) > 3 * dt, that is d2 > 9 * dt * dt.
   */
  function IsFast(dx: int, dy: int, dtMs: int): (fast: bool)
    requires dtMs > 0
    // It agrees with the source's formula, squared.
    ensures fast <==> SquaredSpeedExceeds(dx, dy, dtMs)
    // A pointer that did not move is never fast.
    ensures dx == 0 && dy == 0 ==> !fast
  {
    var d2 := SquaredDistance(dx, dy);
    var t2 := dtMs * dtMs;
    SquaredSpeedScaling(d2, t2);
    d2 > 9 * t2
  }

  /** The detector's fields: last_pos_ and last_time_. */
  datatype Sampler = Sampler(lastPos: Point, lastTime: int)

  /** What ShouldEnlargeCursor returns, together with the detector's new fields. */
  datatype Sample = Sample(fast: bool, next: Sampler)

  /** ShouldEnlargeCursor(current) called at instant now (main.cpp:231-248). */
  function AfterSample(s: Sampler, current: Point, now: int): (r: Sample)
    // A sample less than one whole millisecond after the last (or earlier than it) is ignored.
    ensures now - s.lastTime < TicksPerMs ==> r == Sample(false, s)
    // Otherwise the position and instant are always recorded ...
    ensures now - s.lastTime >= TicksPerMs ==> r.next == Sampler(current, now)
    // ... and the answer is the speed test over the whole elapsed milliseconds.
    ensures r.fast <==> ElapsedMs(s.lastTime, now) > 0
                        && IsFast(current.x - s.lastPos.x, current.y - s.lastPos.y, ElapsedMs(s.lastTime, now))
    // A pointer that did not move never triggers.
    ensures current == s.lastPos ==> !r.fast
    // The recorded instant never moves backwards.
    ensures r.next.lastTime >= s.lastTime
  {
    ElapsedExceeds(s.lastTime, now, 0);
    var dt := ElapsedMs(s.lastTime, now);
    if dt > 0 then
      Sample(IsFast(current.x - s.lastPos.x, current.y - s.lastPos.y, dt), Sampler(current, now))
    else
      Sample(false, s)
  }

  class MouseMoveDetector {
    var lastPos: Point
    var lastTime: int

    /** The constructor records the pointer position and the current instant (main.cpp:226-229). */
    constructor (pos: Point, now: int)
      ensures State() == Sampler(pos, now)
    {
      lastPos := pos;
      lastTime := now;
    }

    function State(): (s: Sampler)
      reads this
    {
      Sampler(lastPos, lastTime)
    }

    method ShouldEnlargeCursor(current: Point, now: int) returns (fast: bool)
      modifies this
      ensures Sample(fast, State()) == AfterSample(old(State()), current, now)
    {
      var deltaTime := ElapsedMs(lastTime, now);
      if deltaTime > 0 {
        var dx := current.x - lastPos.x;
        var dy := current.y - lastPos.y;
        fast := IsFast(dx, dy, deltaTime);
        lastPos := current;
        lastTime := now;
        return;
      }
      fast := false;
    }
  }
}
