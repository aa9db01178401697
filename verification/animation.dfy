/**
 * Sprite selection and the per-object update (main.cpp:195-209, main.cpp:340-365).
 *
 * MirrorDirectionVertically and DirectionFromVector live in core.h, which is
 * not part of this model: the first is the `mirror` parameter, the second,
 * composed with MotionMaster::GetDirection, is the `facing` parameter. FRAME_TIME
 * is the positive `frameTime` parameter.
 */
module Animation {
  import opened Wrappers
  import opened Geometry
  import opened Assets
  import opened Objects
  import Motion

  /**
   * GetCurrentSprite (main.cpp:195-201): the sprite for the current direction,
   * falling back to the mirrored direction's sprite.
   */
  function GetCurrentSprite(o: Object, mirror: Direction -> Direction): (r: Ref<SpriteData>)
    requires Shaped(o) && ValidDirection(o)
    ensures r.Some? <==> o.sprites[o.direction].Some? || o.sprites[mirror(o.direction)].Some?
    ensures o.sprites[o.direction].Some? ==> r == o.sprites[o.direction]
    ensures r.Some? && r != o.sprites[o.direction] ==> r == o.sprites[mirror(o.direction)]
  {
    var sprite := o.sprites[o.direction];
    if sprite.None? then o.sprites[mirror(o.direction)] else sprite
  }

  /** A self-inverse direction map, as MirrorDirectionVertically is meant to be. */
  ghost predicate Involution(mirror: Direction -> Direction)
  {
    forall d: Direction :: mirror(mirror(d)) == d
  }

  /**
   * With a self-inverse mirror, an object has art when facing `d` exactly
   * when it has art facing `mirror(d)`: the fallback is symmetric.
   */
  lemma FallbackIsSymmetric(o: Object, mirror: Direction -> Direction)
    requires Shaped(o) && ValidDirection(o) && Involution(mirror)
    ensures var flipped := o.(direction := mirror(o.direction));
      GetCurrentSprite(o, mirror).Some? <==> GetCurrentSprite(flipped, mirror).Some?
  {
    var d: Direction := o.direction;
    assert mirror(mirror(d)) == d;
  }

  /** The animation frame indexes the sprite GetCurrentSprite resolves, if any. */
  predicate FrameInRange(o: Object, mirror: Direction -> Direction)
    requires Shaped(o) && ValidDirection(o)
  {
    var sprite := GetCurrentSprite(o, mirror);
    sprite.Some? ==> 0 <= o.animationFrame < |sprite.value.data.frames|
  }

  /** GetCurrentTexture (main.cpp:202-209): the current frame of the resolved sprite. */
  function GetCurrentTexture(o: Object, mirror: Direction -> Direction): (r: Option<Texture>)
    requires Shaped(o) && ValidDirection(o) && FrameInRange(o, mirror)
    ensures r.None? <==> GetCurrentSprite(o, mirror).None?
    ensures r.Some? ==> r.value == GetCurrentSprite(o, mirror).value.data.frames[o.animationFrame]
  {
    match GetCurrentSprite(o, mirror)
    case None => None
    case Some(sprite) => Some(sprite.data.frames[o.animationFrame])
  }

  /** The accumulator after `steps` frame durations have been taken out of it. */
  function Drain(accumulator: real, frameDuration: real, steps: nat): real
    decreases steps
  {
    if steps == 0 then accumulator else Drain(accumulator, frameDuration, steps - 1) - frameDuration
  }

  lemma {:induction false} DrainIsLinear(accumulator: real, frameDuration: real, steps: nat)
    ensures Drain(accumulator, frameDuration, steps) == accumulator - steps as real * frameDuration
    decreases steps
  {
    if steps > 0 {
      DrainIsLinear(accumulator, frameDuration, steps - 1);
      assert (steps - 1) as real * frameDuration + frameDuration == steps as real * frameDuration;
    }
  }

  /**
   * With a negative frame duration (a negative frame rate) the loop guard of
   * the accumulator loop holds after any number of iterations: the loop as
   * written never ends.
   */
  lemma {:induction false} NegativeDurationNeverSettles(accumulator: real, frameDuration: real, steps: nat)
    requires frameDuration < 0.0 && accumulator > frameDuration
    ensures Drain(accumulator, frameDuration, steps) > frameDuration
  {
    DrainIsLinear(accumulator, frameDuration, steps);
    assert steps as real * frameDuration <= 0.0;
  }

  /**
   * `steps` drains of `banked` are what the accumulator loop performs: every
   * drain started with more than one duration banked, and at most one
   * duration is left.
   */
  predicate Settled(banked: real, frameDuration: real, steps: nat)
  {
    && Drain(banked, frameDuration, steps) <= frameDuration
    && forall j :: 0 <= j < steps ==> Drain(banked, frameDuration, j) > frameDuration
  }

  /** The loop settles after one number of drains only. */
  lemma SettledIsUnique(banked: real, frameDuration: real, s1: nat, s2: nat)
    requires Settled(banked, frameDuration, s1) && Settled(banked, frameDuration, s2)
    ensures s1 == s2
  {
  }

  /** The frame `steps` advances reach from `frame`, each wrapping at `numFrames`. */
  function Advanced(frame: int, steps: nat, numFrames: int): int
    requires numFrames > 0
  {
    if steps == 0 then frame else (frame + steps) % numFrames
  }

  /**
   * The sprite half of Update(Object*) (main.cpp:343-353) as a relation
   * between the entity before and after it: without a sprite the clock and
   * the frame stay; with frame rate 0 the frame time is banked and the frame
   * stays; otherwise the loop drains the banked time until at most one
   * frame duration is left and advances the frame once per drain.
   */
  ghost predicate Animated(o: Object, r: Object, mirror: Direction -> Direction, frameTime: real)
    requires WellFormed(o)
  {
    var sprite := GetCurrentSprite(o, mirror);
    var banked := o.animationTimeAccumulator + frameTime;
    if sprite.None? then
      r.animationTimeAccumulator == o.animationTimeAccumulator && r.animationFrame == o.animationFrame
    else if o.animationFps == 0.0 then
      r.animationTimeAccumulator == banked && r.animationFrame == o.animationFrame
    else
      exists steps: nat ::
        && Settled(banked, 1.0 / o.animationFps, steps)
        && r.animationTimeAccumulator == Drain(banked, 1.0 / o.animationFps, steps)
        && r.animationFrame == Advanced(o.animationFrame, steps, |sprite.value.data.frames|)
  }

  /** Animated determines the clock and the frame: one update has one outcome. */
  lemma AnimatedIsDeterministic(o: Object, r1: Object, r2: Object, mirror: Direction -> Direction, frameTime: real)
    requires WellFormed(o) && Animated(o, r1, mirror, frameTime) && Animated(o, r2, mirror, frameTime)
    ensures r1.animationTimeAccumulator == r2.animationTimeAccumulator
    ensures r1.animationFrame == r2.animationFrame
  {
    var sprite := GetCurrentSprite(o, mirror);
    var banked := o.animationTimeAccumulator + frameTime;
    if sprite.Some? && o.animationFps != 0.0 {
      var d := 1.0 / o.animationFps;
      var n := |sprite.value.data.frames|;
      var s1: nat :| Settled(banked, d, s1) && r1.animationTimeAccumulator == Drain(banked, d, s1)
        && r1.animationFrame == Advanced(o.animationFrame, s1, n);
      var s2: nat :| Settled(banked, d, s2) && r2.animationTimeAccumulator == Drain(banked, d, s2)
        && r2.animationFrame == Advanced(o.animationFrame, s2, n);
      SettledIsUnique(banked, d, s1, s2);
    }
  }

  /** Animated reads only the clock and the frame of its second entity. */
  lemma AnimatedReadsClockOnly(o: Object, a: Object, b: Object, mirror: Direction -> Direction, frameTime: real)
    requires WellFormed(o) && Animated(o, a, mirror, frameTime)
    requires b.animationTimeAccumulator == a.animationTimeAccumulator && b.animationFrame == a.animationFrame
    ensures Animated(o, b, mirror, frameTime)
  {
    var sprite := GetCurrentSprite(o, mirror);
    var banked := o.animationTimeAccumulator + frameTime;
    if sprite.Some? && o.animationFps != 0.0 {
      var d := 1.0 / o.animationFps;
      var s: nat :| Settled(banked, d, s) && a.animationTimeAccumulator == Drain(banked, d, s)
        && a.animationFrame == Advanced(o.animationFrame, s, |sprite.value.data.frames|);
      assert Settled(banked, d, s);
    }
  }

  lemma MulCancel(x: real, y: real, d: real)
    requires d > 0.0 && x * d == y * d
    ensures x == y
  {
  }

  lemma FloorStepsDown(acc: real, frameDuration: real)
    requires frameDuration > 0.0 && acc > frameDuration
    ensures (acc / frameDuration).Floor >= 1
    ensures ((acc - frameDuration) / frameDuration).Floor == (acc / frameDuration).Floor - 1
  {
    var q := acc / frameDuration;
    var p := (acc - frameDuration) / frameDuration;
    assert q * frameDuration == acc;
    assert p * frameDuration == acc - frameDuration;
    assert (q - 1.0) * frameDuration == q * frameDuration - frameDuration;
    MulCancel(p, q - 1.0, frameDuration);
  }

  lemma MulStrict(a: int, b: int, n: int)
    requires n > 0 && a > b
    ensures a * n >= b * n + n
  {
    var k := a - b;
    assert a * n == b * n + k * n;
    assert k * n == (k - 1) * n + n;
    assert (k - 1) * n >= 0;
  }

  lemma ModUnique(a: int, n: int, q: int, r: int)
    requires n > 0 && 0 <= r < n && a == q * n + r
    ensures a % n == r
  {
    var q', r' := a / n, a % n;
    assert a == q' * n + r';
    if q > q' {
      MulStrict(q, q', n);
    } else if q < q' {
      MulStrict(q', q, n);
    }
  }

  lemma ModSucc(a: int, n: int)
    requires a >= 0 && n > 0
    ensures (a % n + 1) % n == (a + 1) % n
  {
    var q, r := a / n, a % n;
    assert a == q * n + r;
    if r + 1 == n {
      ModUnique(a % n + 1, n, 1, 0);
      ModUnique(a + 1, n, q + 1, 0);
    } else {
      ModUnique(a % n + 1, n, 0, r + 1);
      ModUnique(a + 1, n, q, r + 1);
    }
  }

  /**
   * The accumulator loop (main.cpp:346-352): while more than one frame's
   * duration is banked, spend it and advance the frame, wrapping at
   * `numFrames`. `steps` is how many frames were advanced: exactly as many as
   * leave at most one duration banked.
   */
  method AdvanceAnimation(accumulator: real, frame: int, frameDuration: real, numFrames: int)
    returns (acc: real, f: int, steps: nat)
    requires frameDuration > 0.0 && numFrames > 0 && frame >= 0
    ensures acc <= frameDuration
    ensures acc == Drain(accumulator, frameDuration, steps)
    ensures forall j :: 0 <= j < steps ==> Drain(accumulator, frameDuration, j) > frameDuration
    ensures accumulator >= 0.0 ==> acc >= 0.0
    ensures steps == 0 ==> f == frame
    ensures steps > 0 ==> f == (frame + steps) % numFrames
    ensures 0 <= frame < numFrames ==> 0 <= f < numFrames
  {
    acc := accumulator;
    f := frame;
    steps := 0;
    while acc > frameDuration
      invariant acc == Drain(accumulator, frameDuration, steps)
      invariant forall j :: 0 <= j < steps ==> Drain(accumulator, frameDuration, j) > frameDuration
      invariant accumulator >= 0.0 ==> acc >= 0.0
      invariant steps == 0 ==> f == frame
      invariant steps > 0 ==> f == (frame + steps) % numFrames
      decreases (acc / frameDuration).Floor
    {
      FloorStepsDown(acc, frameDuration);
      if steps > 0 {
        ModSucc(frame + steps, numFrames);
      }
      acc := acc - frameDuration;
      f := (f + 1) % numFrames;
      steps := steps + 1;
    }
  }

  /**
   * The sprite half of Update(Object*) (main.cpp:343-353). Without a sprite
   * nothing changes. A frame rate of 0 makes the frame duration an IEEE
   * infinity in the source, so time is banked but no frame ever advances;
   * that case is written out explicitly here.
   */
  method AnimateObject(o: Object, mirror: Direction -> Direction, frameTime: real) returns (r: Object)
    requires WellFormed(o) && frameTime > 0.0
    ensures WellFormed(r)
    ensures r == o.(animationTimeAccumulator := r.animationTimeAccumulator, animationFrame := r.animationFrame)
    ensures GetCurrentSprite(o, mirror).None? ==> r == o
    ensures GetCurrentSprite(o, mirror).Some? && o.animationFps == 0.0 ==>
      r == o.(animationTimeAccumulator := o.animationTimeAccumulator + frameTime)
    ensures GetCurrentSprite(o, mirror).Some? && o.animationFps > 0.0 ==>
      r.animationTimeAccumulator <= 1.0 / o.animationFps
    ensures o.animationTimeAccumulator >= 0.0 ==> r.animationTimeAccumulator >= 0.0
    ensures FrameInRange(o, mirror) ==> FrameInRange(r, mirror)
    ensures Animated(o, r, mirror, frameTime)
  {
    var sprite := GetCurrentSprite(o, mirror);
    if sprite.None? {
      return o;
    }
    var banked := o.animationTimeAccumulator + frameTime;
    if o.animationFps == 0.0 {
      return o.(animationTimeAccumulator := banked);
    }
    var acc, f, steps := AdvanceAnimation(banked, o.animationFrame, 1.0 / o.animationFps, |sprite.value.data.frames|);
    r := o.(animationTimeAccumulator := acc, animationFrame := f);
    assert GetCurrentSprite(r, mirror) == sprite;
    var d := 1.0 / o.animationFps;
    assert Settled(banked, d, steps) && acc == Drain(banked, d, steps)
      && f == Advanced(o.animationFrame, steps, |sprite.value.data.frames|);
  }

  /**
   * The motion half of Update(Object*) as written (main.cpp:357-363): the
   * position follows the MotionMaster only while it is still moving after
   * its update, so the update that snaps it to the end point leaves the
   * object where the previous frame put it.
   */
  function MoveObjectAsWritten(o: Object, frameTime: real, facing: (Vector2, Vector2) -> Direction): (r: Object)
    requires frameTime > 0.0 && Motion.Progressing(o.motion)
    ensures o.motion.isMoving && !r.motion.isMoving ==> r.position == o.position
  {
    var m := Motion.Update(o.motion, frameTime);
    if m.isMoving then o.(motion := m, position := m.currentPoint, direction := facing(m.startPoint, m.endPoint))
    else o.(motion := m)
  }

  /**
   * A move whose first step already passes its arrival time (a distance
   * shorter than one frame's step) ends with the controller idle at the
   * target while the object has not moved at all.
   */
  lemma ShortMoveNeverLands(frameTime: real, facing: (Vector2, Vector2) -> Direction)
    requires frameTime > 0.0
    ensures var target := Vector2(frameTime, 0.0);
      var o := Blank().(motion := Motion.MoveToPoint(Motion.Default(), Origin, target, frameTime));
      var r := MoveObjectAsWritten(o, frameTime, facing);
      !r.motion.isMoving && r.motion.currentPoint == target && r.position == Origin && r.position != target
  {
  }

  /**
   * The motion half of Update(Object*), corrected so that the update that
   * ends a move also carries the object to the end point.
   */
  function MoveObject(o: Object, frameTime: real, facing: (Vector2, Vector2) -> Direction): (r: Object)
    requires frameTime > 0.0 && Motion.Progressing(o.motion)
    ensures Motion.Progressing(r.motion)
    ensures r.motion == Motion.Update(o.motion, frameTime)
    ensures r == o.(motion := r.motion, position := r.position, direction := r.direction)
    ensures !o.motion.isMoving ==> r == o
    ensures r.motion.isMoving ==> r.direction == facing(r.motion.startPoint, r.motion.endPoint)
    ensures r.motion.isMoving ==> o.motion.isMoving && r.position == r.motion.currentPoint && ValidDirection(r)
    ensures o.motion.isMoving && !r.motion.isMoving ==> r.position == o.motion.endPoint && r.direction == o.direction
    ensures o.motion.speed > 0.0 ==> r.motion.speed > 0.0
    ensures o.motion.motionTime >= 0.0 ==> r.motion.motionTime >= 0.0
    ensures WellFormed(o) ==> WellFormed(r)
  {
    var m := Motion.Update(o.motion, frameTime);
    if m.isMoving then o.(motion := m, position := m.currentPoint, direction := facing(m.startPoint, m.endPoint))
    else if o.motion.isMoving then o.(motion := m, position := m.currentPoint)
    else o.(motion := m)
  }

  /** Update(Object*) (main.cpp:340-365) with the corrected motion half. */
  method UpdateObject(o: Object, mirror: Direction -> Direction, frameTime: real, facing: (Vector2, Vector2) -> Direction)
    returns (r: Object)
    requires WellFormed(o) && frameTime > 0.0 && Motion.Progressing(o.motion)
    ensures WellFormed(r) && Motion.Progressing(r.motion)
    ensures o.motion.speed > 0.0 ==> r.motion.speed > 0.0
    ensures o.motion.motionTime >= 0.0 ==> r.motion.motionTime >= 0.0
    ensures r.name == o.name && r.zOffset == o.zOffset && r.sprites == o.sprites
    ensures r.collisionMap == o.collisionMap && r.script == o.script && r.expressions == o.expressions
    ensures !o.motion.isMoving ==> r.position == o.position && r.direction == o.direction
    ensures o.motion.isMoving && !r.motion.isMoving ==> r.position == o.motion.endPoint
    ensures r.motion == Motion.Update(o.motion, frameTime)
    ensures r.motion.isMoving ==>
      r.position == r.motion.currentPoint && r.direction == facing(r.motion.startPoint, r.motion.endPoint)
    ensures Animated(o, r, mirror, frameTime)
    ensures r == o.(animationTimeAccumulator := r.animationTimeAccumulator, animationFrame := r.animationFrame,
                    motion := r.motion, position := r.position, direction := r.direction)
    ensures !r.motion.isMoving ==> r.direction == o.direction
  {
    var animated := AnimateObject(o, mirror, frameTime);
    r := MoveObject(animated, frameTime, facing);
    AnimatedReadsClockOnly(o, animated, r, mirror, frameTime);
  }
}
