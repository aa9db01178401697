/**
 * Camera shake decay (main.cpp:7-10, main.cpp:131-132, main.cpp:310-318).
 * The Perlin-noise offsets the shake drives are not part of this model; what
 * is modelled is the trauma level and its falloff.
 */
module Camera {

  /** DEFAULT_CAMERA_SHAKE_TRAUMA. */
  const DefaultTrauma: real := 0.5

  /** DEFAULT_CAMERA_SHAKE_FALLOFF, `0.7 * FRAME_TIME`. */
  function DefaultFalloff(frameTime: real): real
  {
    0.7 * frameTime
  }

  /** `cameraTrauma` and `cameraTraumaFalloff`. */
  datatype Shake = Shake(trauma: real, falloff: real)

  /**
   * UpdateCameraShake (main.cpp:310-318): trauma drops by the falloff; once
   * it reaches 0 it is clamped there and the falloff goes back to its default.
   */
  function UpdateCameraShake(s: Shake, frameTime: real): (r: Shake)
    ensures r.trauma >= 0.0
    ensures s.trauma - s.falloff > 0.0 ==> r == Shake(s.trauma - s.falloff, s.falloff)
    ensures s.trauma - s.falloff <= 0.0 ==> r == Shake(0.0, DefaultFalloff(frameTime))
  {
    var trauma := s.trauma - s.falloff;
    if trauma <= 0.0 then Shake(0.0, DefaultFalloff(frameTime)) else Shake(trauma, s.falloff)
  }

  /** The shake after `frames` updates. */
  function Settle(s: Shake, frameTime: real, frames: nat): (r: Shake)
    decreases frames
  {
    if frames == 0 then s else Settle(UpdateCameraShake(s, frameTime), frameTime, frames - 1)
  }

  /** With a positive falloff, trauma never grows and the falloff stays positive. */
  lemma {:induction false} SettleNeverGrows(s: Shake, frameTime: real, frames: nat)
    requires s.falloff > 0.0 && frameTime > 0.0
    ensures Settle(s, frameTime, frames).trauma <= s.trauma || Settle(s, frameTime, frames).trauma == 0.0
    ensures frames > 0 ==> Settle(s, frameTime, frames).trauma >= 0.0
    ensures Settle(s, frameTime, frames).falloff > 0.0
    decreases frames
  {
    if frames > 0 {
      SettleNeverGrows(UpdateCameraShake(s, frameTime), frameTime, frames - 1);
    }
  }

  /**
   * With a positive falloff, a shake dies out: after enough frames that the
   * falloff has taken away all of the trauma, the trauma is exactly 0.
   */
  lemma {:induction false} ShakeSettles(s: Shake, frameTime: real, frames: nat)
    requires s.falloff > 0.0 && frameTime > 0.0 && s.trauma >= 0.0
    requires frames as real * s.falloff >= s.trauma
    ensures Settle(s, frameTime, frames).trauma == 0.0
    decreases frames
  {
    if frames == 0 {
      assert s.trauma == 0.0;
    } else {
      var next := UpdateCameraShake(s, frameTime);
      if s.trauma - s.falloff > 0.0 {
        assert (frames - 1) as real * s.falloff >= next.trauma;
        ShakeSettles(next, frameTime, frames - 1);
      } else {
        StaysSettled(next, frameTime, frames - 1);
      }
    }
  }

  /** Once settled with a positive falloff, the trauma stays at 0. */
  lemma {:induction false} StaysSettled(s: Shake, frameTime: real, frames: nat)
    requires s.trauma == 0.0 && s.falloff > 0.0 && frameTime > 0.0
    ensures Settle(s, frameTime, frames).trauma == 0.0
    decreases frames
  {
    if frames > 0 {
      StaysSettled(UpdateCameraShake(s, frameTime), frameTime, frames - 1);
    }
  }
}
