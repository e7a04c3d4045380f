/**
 * The finite-difference speed estimate of `PositionDisplay.update_position`:
 * the distance between the current and the previous sample, divided by the
 * clock difference, after a three-band noise filter. A non-positive clock
 * difference, or a missing previous sample, leaves the speed as it was.
 */
module SpeedEstimator {
  import opened Wrappers
  import opened Geometry

  /** Below this distance a step is sensor jitter and counts as no motion. */
  const NOISE_FLOOR_LOW: real := 0.0024
  /** Steps from the low floor up to this distance are attenuated. */
  const NOISE_FLOOR_HIGH: real := 0.0025
  const ATTENUATION: real := 0.3

  /** The speed of one step of length `distance` taken in `dt > 0` seconds; never negative. */
  function FilteredSpeed(distance: real, dt: real): (speed: real)
    requires dt > 0.0
    ensures 0.0 <= speed
  {
    if distance < NOISE_FLOOR_LOW then 0.0
    else if distance < NOISE_FLOOR_HIGH then (distance / dt) * ATTENUATION
    else distance / dt
  }

  /** The filter never reports more than the raw finite difference of a step. */
  lemma FilteredSpeedAtMostRaw(distance: real, dt: real)
    requires dt > 0.0 && distance >= 0.0
    ensures FilteredSpeed(distance, dt) <= distance / dt
  {
    QuotientSign(distance, dt);
  }

  /** The speed is zero exactly when the step is below the low noise floor, whatever `dt` is. */
  lemma FilteredSpeedZeroIff(distance: real, dt: real)
    requires dt > 0.0
    ensures FilteredSpeed(distance, dt) == 0.0 <==> distance < NOISE_FLOOR_LOW
  {
    if distance >= NOISE_FLOOR_LOW {
      QuotientSign(distance, dt);
    }
  }

  /** A longer step in the same time never gives a lower speed, across the band edges too. */
  lemma FilteredSpeedMonotone(d1: real, d2: real, dt: real)
    requires dt > 0.0 && 0.0 <= d1 <= d2
    ensures FilteredSpeed(d1, dt) <= FilteredSpeed(d2, dt)
  {
    QuotientSign(d1, dt);
    QuotientSign(d2 - d1, dt);
    assert d2 / dt - d1 / dt == (d2 - d1) / dt;
  }

  /** Above the high floor the estimate is the plain finite difference: speed times `dt` is the step. */
  lemma FilteredSpeedPassThrough(distance: real, dt: real)
    requires dt > 0.0 && distance >= NOISE_FLOOR_HIGH
    ensures FilteredSpeed(distance, dt) * dt == distance
  {
  }

  /** Between the two floors the estimate is attenuated: speed times `dt` is ATTENUATION times the step. */
  lemma FilteredSpeedAttenuated(distance: real, dt: real)
    requires dt > 0.0 && NOISE_FLOOR_LOW <= distance < NOISE_FLOOR_HIGH
    ensures FilteredSpeed(distance, dt) * dt == ATTENUATION * distance
  {
    assert (distance / dt) * dt == distance;
  }

  lemma QuotientSign(a: real, b: real)
    requires 0.0 <= a && 0.0 < b
    ensures 0.0 <= a / b
    ensures 0.0 < a ==> 0.0 < a / b
  {
    assert (a / b) * b == a;
  }

  /** The speed estimator's state: the previous sample, when there is one, and the speed. */
  datatype Estimator = Estimator(previousPosition: Option<Vec3>, previousTime: Option<real>, currentSpeed: real)

  /** No previous sample, speed 0.0. */
  const INITIAL: Estimator := Estimator(None, None, 0.0)

  /** A recorded sample: where the body was and the local clock when it was processed. */
  datatype Sample = Sample(position: Vec3, time: real)

  /** The speed after a sample at `currentTime`: a fresh estimate only when a previous sample exists and the clock advanced. */
  function NextSpeed(e: Estimator, position: Vec3, currentTime: real, norm: Vec3 -> real): real {
    if e.previousPosition.Some? && e.previousTime.Some? && currentTime - e.previousTime.value > 0.0 then
      FilteredSpeed(norm(Sub(position, e.previousPosition.value)), currentTime - e.previousTime.value)
    else e.currentSpeed
  }

  /** The whole update for one sample: new speed, and this sample becomes the previous one. */
  function Observe(e: Estimator, s: Sample, norm: Vec3 -> real): (r: Estimator)
    ensures r.previousPosition == Some(s.position) && r.previousTime == Some(s.time)
    ensures e.currentSpeed >= 0.0 ==> r.currentSpeed >= 0.0
    ensures (e.previousTime.None? || s.time - e.previousTime.value <= 0.0) ==> r.currentSpeed == e.currentSpeed
  {
    Estimator(Some(s.position), Some(s.time), NextSpeed(e, s.position, s.time, norm))
  }

  /** The estimator after the samples `ss`, in order, from INITIAL. */
  function Replay(ss: seq<Sample>, norm: Vec3 -> real): Estimator
    decreases |ss|
  {
    if ss == [] then INITIAL else Observe(Replay(ss[..|ss| - 1], norm), ss[|ss| - 1], norm)
  }

  /**
   * Reference definition: the filtered speed of the most recent pair of
   * consecutive samples whose clock advanced, or 0.0 if there is none.
   */
  function LastAdvancingSpeed(ss: seq<Sample>, norm: Vec3 -> real): real
    decreases |ss|
  {
    if |ss| < 2 then 0.0
    else
      var last, prev := ss[|ss| - 1], ss[|ss| - 2];
      if last.time - prev.time > 0.0 then FilteredSpeed(norm(Sub(last.position, prev.position)), last.time - prev.time)
      else LastAdvancingSpeed(ss[..|ss| - 1], norm)
  }

  /**
   * Replaying samples one by one stores the last sample as the previous one and
   * reports the speed of the last advancing pair: a non-advancing clock keeps
   * the old speed instead of zeroing it.
   */
  lemma {:induction false} ReplayIsLastAdvancingSpeed(ss: seq<Sample>, norm: Vec3 -> real)
    ensures Replay(ss, norm).currentSpeed == LastAdvancingSpeed(ss, norm)
    ensures ss != [] ==>
      Replay(ss, norm).previousPosition == Some(ss[|ss| - 1].position) &&
      Replay(ss, norm).previousTime == Some(ss[|ss| - 1].time)
    decreases |ss|
  {
    if ss != [] {
      var init := ss[..|ss| - 1];
      ReplayIsLastAdvancingSpeed(init, norm);
      if |ss| >= 2 {
        assert init[|init| - 1] == ss[|ss| - 2];
        assert init[..|init| - 1] == ss[..|ss| - 2];
      }
    }
  }

  /** The replayed speed is never negative. */
  lemma {:induction false} ReplaySpeedNonNegative(ss: seq<Sample>, norm: Vec3 -> real)
    ensures Replay(ss, norm).currentSpeed >= 0.0
    decreases |ss|
  {
    if ss != [] {
      ReplaySpeedNonNegative(ss[..|ss| - 1], norm);
    }
  }
}
