/**
 * MotionMaster (main.cpp:38-98): per-object linear motion from a start point to
 * an end point. `motionTime` grows by `FRAME_TIME * speed` every frame until
 * the next step would pass `arrivalTime`, at which point the controller snaps
 * to the end point and resets.
 *
 * FRAME_TIME lives in core.h, which is not part of this model; it is the
 * `frameTime` parameter, known only to be positive. Vector2Distance is the
 * caller-supplied `distance`, known only to be non-negative.
 */
module Motion {
  import opened Geometry

  const DefaultSpeed: real := 10.0

  datatype MotionMaster = MotionMaster(
    currentPoint: Vector2,
    startPoint: Vector2,
    endPoint: Vector2,
    isMoving: bool,
    motionTime: real,
    arrivalTime: real,
    speed: real)

  /** A MotionMaster as its member initializers build it: idle, speed 10, everything else zero. */
  function Default(): MotionMaster
  {
    MotionMaster(Origin, Origin, Origin, false, 0.0, 0.0, DefaultSpeed)
  }

  /**
   * The record ZeroBytes and memset leave behind (main.cpp:338, main.cpp:983):
   * every field zero, the speed included.
   */
  function ZeroFilled(): MotionMaster
  {
    MotionMaster(Origin, Origin, Origin, false, 0.0, 0.0, 0.0)
  }

  /** Reset (main.cpp:82-90): idle at default speed; `currentPoint` is left alone. */
  function Reset(m: MotionMaster): MotionMaster
  {
    m.(startPoint := Origin, endPoint := Origin, isMoving := false,
       motionTime := 0.0, arrivalTime := 0.0, speed := DefaultSpeed)
  }

  /** What a moving controller needs for Update's division to be defined. */
  predicate Progressing(m: MotionMaster)
  {
    m.isMoving ==> m.speed > 0.0 && m.motionTime >= 0.0
  }

  /**
   * MoveToPoint (main.cpp:40-50). Identical endpoints change nothing, not even
   * `isMoving`; otherwise the controller starts moving and its arrival time is
   * the distance over the speed. `motionTime` is deliberately not reset.
   */
  function MoveToPoint(m: MotionMaster, start: Vector2, end: Vector2, distance: real): (r: MotionMaster)
    requires distance >= 0.0
    requires start != end ==> m.speed != 0.0
    ensures start == end ==> r == m
    ensures start != end ==>
      && r.isMoving && r.startPoint == start && r.endPoint == end
      && r.arrivalTime * m.speed == distance
      && r.motionTime == m.motionTime && r.speed == m.speed && r.currentPoint == m.currentPoint
    ensures Progressing(m) && m.speed > 0.0 && m.motionTime >= 0.0 ==> Progressing(r)
  {
    if start == end then m
    else m.(startPoint := start, endPoint := end, arrivalTime := distance / m.speed, isMoving := true)
  }

  /**
   * Update (main.cpp:53-70). An idle controller is untouched. A moving one either
   * advances one step and stays on the segment at the fraction
   * `motionTime / arrivalTime`, which never passes 1, or it snaps to the end
   * point and resets.
   */
  function Update(m: MotionMaster, frameTime: real): (r: MotionMaster)
    requires frameTime > 0.0
    requires Progressing(m)
    ensures Progressing(r)
    ensures !m.isMoving ==> r == m
    ensures r.isMoving ==>
      && m.isMoving
      && r.motionTime == m.motionTime + frameTime * m.speed
      && 0.0 < r.motionTime <= r.arrivalTime
      && r.startPoint == m.startPoint && r.endPoint == m.endPoint
      && r.arrivalTime == m.arrivalTime && r.speed == m.speed
    ensures m.isMoving && !r.isMoving ==>
      && m.motionTime + frameTime * m.speed > m.arrivalTime
      && r.currentPoint == m.endPoint
      && r.motionTime == 0.0 && r.arrivalTime == 0.0 && r.speed == DefaultSpeed
  {
    if !m.isMoving then m
    else if m.motionTime + frameTime * m.speed <= m.arrivalTime then
      var t := m.motionTime + frameTime * m.speed;
      m.(motionTime := t, currentPoint := LerpPoint(m.startPoint, m.endPoint, t / m.arrivalTime))
    else
      Reset(m.(currentPoint := m.endPoint))
  }

  /**
   * While still moving after an Update, the current point is the point the
   * fraction `motionTime / arrivalTime` of the way along the segment, and that
   * fraction lies in (0, 1]: the controller never overshoots its end point.
   */
  lemma UpdateStaysOnSegment(m: MotionMaster, frameTime: real)
    requires frameTime > 0.0 && Progressing(m)
    ensures var r := Update(m, frameTime);
      r.isMoving ==>
        && 0.0 < r.motionTime / r.arrivalTime <= 1.0
        && r.currentPoint == LerpPoint(m.startPoint, m.endPoint, r.motionTime / r.arrivalTime)
  {
    var r := Update(m, frameTime);
    if r.isMoving {
      FractionInUnit(r.motionTime, r.arrivalTime);
    }
  }

  lemma FractionInUnit(a: real, b: real)
    requires 0.0 < a <= b
    ensures 0.0 < a / b <= 1.0
  {
    assert a / b * b == a;
  }

  /** One Update whose step stays within the arrival time only advances the clock. */
  lemma UpdateAdvances(m: MotionMaster, frameTime: real, step: real)
    requires frameTime > 0.0 && step == frameTime * m.speed
    requires m.isMoving && m.speed > 0.0 && 0.0 <= m.motionTime
    requires m.motionTime + step <= m.arrivalTime
    ensures var r := Update(m, frameTime);
      && r.isMoving && r.motionTime == m.motionTime + step
      && r.startPoint == m.startPoint && r.endPoint == m.endPoint
      && r.arrivalTime == m.arrivalTime && r.speed == m.speed
  {
  }

  /** One Update whose step would pass the arrival time snaps to the end point. */
  lemma UpdateSnaps(m: MotionMaster, frameTime: real, step: real)
    requires frameTime > 0.0 && step == frameTime * m.speed
    requires m.isMoving && m.speed > 0.0 && 0.0 <= m.motionTime
    requires m.motionTime + step > m.arrivalTime
    ensures var r := Update(m, frameTime);
      !r.isMoving && r.currentPoint == m.endPoint
  {
  }

  /** `frames` consecutive calls of Update. */
  function Simulate(m: MotionMaster, frameTime: real, frames: nat): (r: MotionMaster)
    requires frameTime > 0.0
    requires Progressing(m)
    ensures Progressing(r)
    decreases frames
  {
    if frames == 0 then m else Simulate(Update(m, frameTime), frameTime, frames - 1)
  }

  /** Once idle, a controller stays exactly as it is however many frames pass. */
  lemma {:induction false} IdleStaysIdle(m: MotionMaster, frameTime: real, frames: nat)
    requires frameTime > 0.0
    requires !m.isMoving
    ensures Simulate(m, frameTime, frames) == m
    decreases frames
  {
    if frames > 0 {
      IdleStaysIdle(Update(m, frameTime), frameTime, frames - 1);
    }
  }

  /** The controller's clock after `frames` steps of `step` from `t`. */
  function ClockAfter(t: real, step: real, frames: nat): real
    decreases frames
  {
    if frames == 0 then t else ClockAfter(t + step, step, frames - 1)
  }

  lemma {:induction false} ClockAfterIsLinear(t: real, step: real, frames: nat)
    ensures ClockAfter(t, step, frames) == t + frames as real * step
    decreases frames
  {
    if frames > 0 {
      ClockAfterIsLinear(t + step, step, frames - 1);
      assert (frames - 1) as real * step + step == frames as real * step;
    }
  }

  lemma {:induction false} ClockAfterGrows(t: real, step: real, frames: nat)
    requires step > 0.0 && frames > 0
    ensures ClockAfter(t, step, frames) >= t + step
    decreases frames
  {
    if frames > 1 {
      ClockAfterGrows(t + step, step, frames - 1);
    }
  }

  /**
   * From a moving state that has not yet passed its arrival time, as long as
   * `frames` steps keep the clock within the arrival time the controller is
   * still moving, its clock advanced by exactly `frames` steps.
   */
  lemma {:induction false} SimulateStillMoving(m: MotionMaster, frameTime: real, step: real, frames: nat)
    requires frameTime > 0.0 && step == frameTime * m.speed
    requires m.isMoving && m.speed > 0.0 && 0.0 <= m.motionTime
    requires ClockAfter(m.motionTime, step, frames) <= m.arrivalTime
    ensures var r := Simulate(m, frameTime, frames);
      && r.isMoving && r.motionTime == ClockAfter(m.motionTime, step, frames)
      && r.startPoint == m.startPoint && r.endPoint == m.endPoint
    decreases frames
  {
    if frames > 0 {
      var m' := StepWithin(m, frameTime, step, frames);
      SimulateStillMoving(m', frameTime, step, frames - 1);
    }
  }

  /** The first of `frames` steps that stay within the arrival time, as SimulateStillMoving unrolls it. */
  lemma StepWithin(m: MotionMaster, frameTime: real, step: real, frames: nat) returns (m': MotionMaster)
    requires frameTime > 0.0 && step == frameTime * m.speed && frames > 0
    requires m.isMoving && m.speed > 0.0 && 0.0 <= m.motionTime
    requires ClockAfter(m.motionTime, step, frames) <= m.arrivalTime
    ensures Progressing(m') && Simulate(m, frameTime, frames) == Simulate(m', frameTime, frames - 1)
    ensures m'.isMoving && m'.motionTime == m.motionTime + step && m'.speed == m.speed
    ensures m'.startPoint == m.startPoint && m'.endPoint == m.endPoint && m'.arrivalTime == m.arrivalTime
    ensures ClockAfter(m'.motionTime, step, frames - 1) == ClockAfter(m.motionTime, step, frames)
  {
    m' := Update(m, frameTime);
    ClockAfterGrows(m.motionTime, step, frames);
    UpdateAdvances(m, frameTime, step);
  }

  /**
   * From a moving state, once `frames` steps would carry the clock past the
   * arrival time, the controller is idle at the end point.
   */
  lemma {:induction false} SimulateArrives(m: MotionMaster, frameTime: real, step: real, frames: nat)
    requires frameTime > 0.0 && step == frameTime * m.speed
    requires m.isMoving && m.speed > 0.0 && 0.0 <= m.motionTime
    requires m.motionTime <= m.arrivalTime
    requires ClockAfter(m.motionTime, step, frames) > m.arrivalTime
    ensures var r := Simulate(m, frameTime, frames);
      !r.isMoving && r.currentPoint == m.endPoint
    decreases frames
  {
    var m' := Update(m, frameTime);
    assert Simulate(m, frameTime, frames) == Simulate(m', frameTime, frames - 1);
    if m.motionTime + step <= m.arrivalTime {
      UpdateAdvances(m, frameTime, step);
      SimulateArrives(m', frameTime, step, frames - 1);
    } else {
      UpdateSnaps(m, frameTime, step);
      IdleStaysIdle(m', frameTime, frames - 1);
    }
  }

  lemma ScaleIsMonotone(a: real, b: real, s: real)
    requires s > 0.0
    ensures a * s <= b * s <==> a <= b
  {
  }

  /**
   * Moving from `start` to a different `end`, with at least one frame and
   * enough frames for the accumulated steps to pass the arrival time, leaves
   * the controller idle exactly at `end`. This includes a move issued while the
   * clock left over from an earlier move already lies past the new arrival
   * time: the first Update then snaps straight to the end point.
   */
  lemma ArrivesAtEnd(m: MotionMaster, start: Vector2, end: Vector2, distance: real, frameTime: real, frames: nat)
    requires frameTime > 0.0 && distance >= 0.0
    requires start != end && m.speed > 0.0
    requires 0.0 <= m.motionTime && frames > 0
    requires (m.motionTime + frames as real * (frameTime * m.speed)) * m.speed > distance
    ensures var r := Simulate(MoveToPoint(m, start, end, distance), frameTime, frames);
      !r.isMoving && r.currentPoint == end
  {
    var moving := MoveToPoint(m, start, end, distance);
    ScaleIsMonotone(moving.motionTime, moving.arrivalTime, m.speed);
    if moving.motionTime <= moving.arrivalTime {
      var total := m.motionTime + frames as real * (frameTime * m.speed);
      ScaleIsMonotone(total, moving.arrivalTime, m.speed);
      ClockAfterIsLinear(m.motionTime, frameTime * m.speed, frames);
      SimulateArrives(moving, frameTime, frameTime * m.speed, frames);
    } else {
      var step := frameTime * m.speed;
      UpdateSnaps(moving, frameTime, step);
      IdleStaysIdle(Update(moving, frameTime), frameTime, frames - 1);
    }
  }
}
