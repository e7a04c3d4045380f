/**
 * `PositionDisplay.check_led_condition`: a hysteresis machine around a
 * spatial and kinematic gate. A tick is armed when the body is within
 * DISTANCE_THRESHOLD of the target and its speed is at least SPEED_THRESHOLD.
 * The LED goes on only after a debounce timer (hold start) has run for
 * REQUIRED_HOLD_TIME over armed ticks, and goes off only on a disarmed tick
 * more than LED_GRACE_TIME after the last tick that held it on.
 */
module HoldGrace {
  import opened Wrappers
  import opened Geometry

  const TARGET_POSITION: Vec3 := Vec3(-0.01, 0.0, 0.62)
  const DISTANCE_THRESHOLD: real := 0.6
  const SPEED_THRESHOLD: real := 0.0008
  const REQUIRED_HOLD_TIME: real := 0.02
  const LED_GRACE_TIME: real := 0.2

  /** `led_on`, `speed_hold_start_time` and `led_last_on_time`. */
  datatype LedState = LedState(ledOn: bool, holdStart: Option<real>, lastOnTime: Option<real>)

  /** The state at construction: LED off, both timers unset. */
  const OFF: LedState := LedState(false, None, None)

  /** What one evaluation sees: distance to the target, current speed and the clock. */
  datatype Tick = Tick(distance: real, speed: real, now: real)

  /** The new state and the LED command sent on this tick, if any. */
  datatype LedStep = LedStep(next: LedState, command: Option<bool>)

  predicate Armed(t: Tick) {
    t.distance <= DISTANCE_THRESHOLD && t.speed >= SPEED_THRESHOLD
  }

  /** An armed tick whose debounce timer has already run long enough: it holds the LED on. */
  predicate Refreshes(s: LedState, t: Tick) {
    Armed(t) && s.holdStart.Some? && t.now - s.holdStart.value >= REQUIRED_HOLD_TIME
  }

  /** The disarmed tick that releases the LED: on, and the grace time strictly exceeded. */
  predicate Releases(s: LedState, t: Tick) {
    !Armed(t) && s.ledOn && s.lastOnTime.Some? && t.now - s.lastOnTime.value > LED_GRACE_TIME
  }

  /** The LED being on implies the grace timer has been set. */
  predicate Consistent(s: LedState) {
    s.ledOn ==> s.lastOnTime.Some?
  }

  /** One evaluation of `check_led_condition`. */
  function CheckLed(s: LedState, t: Tick): (r: LedStep)
    // a command is sent exactly when the LED changes, and it is the new state
    ensures r.command == if r.next.ledOn != s.ledOn then Some(r.next.ledOn) else None
    // the LED turns on only on a tick that holds it on, and off only on a releasing tick
    ensures r.next.ledOn <==> Refreshes(s, t) || (s.ledOn && !Releases(s, t))
    // armed ticks keep or start the debounce timer; disarmed ticks clear it
    ensures Armed(t) ==> r.next.holdStart == Some(if s.holdStart.Some? then s.holdStart.value else t.now)
    ensures !Armed(t) ==> r.next.holdStart.None?
    // only a tick that holds the LED on moves the grace timer, and it moves it to now
    ensures r.next.lastOnTime == if Refreshes(s, t) then Some(t.now) else s.lastOnTime
    ensures Consistent(s) ==> Consistent(r.next)
  {
    if Armed(t) then
      if s.holdStart.None? then
        LedStep(s.(holdStart := Some(t.now)), None)
      else if t.now - s.holdStart.value >= REQUIRED_HOLD_TIME then
        LedStep(LedState(true, s.holdStart, Some(t.now)), if s.ledOn then None else Some(true))
      else
        LedStep(s, None)
    else
      var cleared := s.(holdStart := None);
      if s.ledOn && s.lastOnTime.Some? && t.now - s.lastOnTime.value > LED_GRACE_TIME then
        LedStep(cleared.(ledOn := false), Some(false))
      else
        LedStep(cleared, None)
  }

  /** With the Euclidean norm, a position is close enough to arm exactly when its squared offset from the target is within 0.6^2. */
  lemma ArmedBySquaredOffset(norm: Vec3 -> real, position: Vec3, speed: real, now: real)
    requires IsNorm(norm)
    ensures var offset := Sub(position, TARGET_POSITION);
      Armed(Tick(norm(offset), speed, now)) <==>
        Dot(offset, offset) <= DISTANCE_THRESHOLD * DISTANCE_THRESHOLD && speed >= SPEED_THRESHOLD
  {
    NormWithin(norm, Sub(position, TARGET_POSITION), DISTANCE_THRESHOLD);
  }

  /** The first armed tick only starts the debounce timer: it never turns the LED on. */
  lemma FirstArmedTickOnlyStartsHold(s: LedState, t: Tick)
    requires Armed(t) && s.holdStart.None?
    ensures CheckLed(s, t) == LedStep(s.(holdStart := Some(t.now)), None)
  {
  }

  /** The state after evaluating the ticks `ts` in order from `s`. */
  function Run(s: LedState, ts: seq<Tick>): LedState
    decreases |ts|
  {
    if ts == [] then s else CheckLed(Run(s, ts[..|ts| - 1]), ts[|ts| - 1]).next
  }

  /** The debounce timer, when set, holds the time of a tick from which every tick so far was armed. */
  lemma {:induction false} HoldStartWitness(ts: seq<Tick>)
    ensures Run(OFF, ts).holdStart.Some? ==>
      exists i :: 0 <= i < |ts| && ts[i].now == Run(OFF, ts).holdStart.value &&
        forall k :: i <= k < |ts| ==> Armed(ts[k])
    decreases |ts|
  {
    if ts != [] {
      var init := ts[..|ts| - 1];
      var before := Run(OFF, init);
      var last := ts[|ts| - 1];
      HoldStartWitness(init);
      if Run(OFF, ts).holdStart.Some? {
        assert Armed(last);
        if before.holdStart.Some? {
          var i :| 0 <= i < |init| && init[i].now == before.holdStart.value &&
            forall k :: i <= k < |init| ==> Armed(init[k]);
          assert forall k :: i <= k < |ts| ==> Armed(ts[k]) by {
            forall k | i <= k < |ts| ensures Armed(ts[k]) {
              if k < |init| { assert ts[k] == init[k]; }
            }
          }
        } else {
          assert ts[|ts| - 1].now == Run(OFF, ts).holdStart.value;
        }
      }
    }
  }

  /**
   * Debounce to engage: on the tick where the LED turns on, every tick since an
   * earlier one at least REQUIRED_HOLD_TIME before it was armed.
   */
  lemma DebounceBeforeOn(ts: seq<Tick>)
    requires |ts| > 0
    requires !Run(OFF, ts[..|ts| - 1]).ledOn && Run(OFF, ts).ledOn
    ensures exists i :: (0 <= i < |ts| - 1 && ts[|ts| - 1].now - ts[i].now >= REQUIRED_HOLD_TIME &&
      forall k :: i <= k < |ts| ==> Armed(ts[k]))
  {
    var init := ts[..|ts| - 1];
    var before := Run(OFF, init);
    var last := ts[|ts| - 1];
    assert Refreshes(before, last);
    HoldStartWitness(init);
    var i :| 0 <= i < |init| && init[i].now == before.holdStart.value &&
      forall k :: i <= k < |init| ==> Armed(init[k]);
    forall k | i <= k < |ts| ensures Armed(ts[k]) {
      if k < |init| { assert ts[k] == init[k]; }
    }
    assert ts[i] == init[i];
  }

  /** Armed ticks after the one that started the timer leave it alone. */
  lemma {:induction false} HoldStartKept(ts: seq<Tick>, i: nat, j: nat)
    requires i < j <= |ts|
    requires Run(OFF, ts[..i + 1]).holdStart == Some(ts[i].now)
    requires forall k :: i < k < j ==> Armed(ts[k])
    ensures Run(OFF, ts[..j]).holdStart == Some(ts[i].now)
    decreases j
  {
    if j > i + 1 {
      HoldStartKept(ts, i, j - 1);
      assert ts[..j][..j - 1] == ts[..j - 1];
    }
  }

  /**
   * Engagement is guaranteed: if a run of armed ticks starts after a disarmed
   * tick (or at the start) and reaches REQUIRED_HOLD_TIME at a later tick, the
   * LED is on after that tick.
   */
  lemma ArmedLongEnoughTurnsOn(ts: seq<Tick>, i: nat, j: nat)
    requires i < j < |ts|
    requires i == 0 || !Armed(ts[i - 1])
    requires forall k :: i <= k <= j ==> Armed(ts[k])
    requires ts[j].now - ts[i].now >= REQUIRED_HOLD_TIME
    ensures Run(OFF, ts[..j + 1]).ledOn
  {
    var beforeI := Run(OFF, ts[..i]);
    if i > 0 {
      assert ts[..i][..i - 1] == ts[..i - 1];
    }
    assert beforeI.holdStart.None?;
    assert ts[..i + 1][..i] == ts[..i];
    HoldStartKept(ts, i, j);
    assert ts[..j + 1][..j] == ts[..j];
  }

  /** Fewer than REQUIRED_HOLD_TIME of armed ticks since the timer started: the LED is not switched on. */
  lemma NotBeforeHoldTime(s: LedState, t: Tick)
    requires s.holdStart.Some? && t.now - s.holdStart.value < REQUIRED_HOLD_TIME
    ensures CheckLed(s, t).next.ledOn ==> s.ledOn
  {
  }

  /** No tick of `ts` after index `i` (and before `n`) held the LED on. */
  predicate NoRefreshBetween(ts: seq<Tick>, i: nat, n: nat)
    requires n <= |ts|
  {
    forall k :: i < k < n ==> !Refreshes(Run(OFF, ts[..k]), ts[k])
  }

  /** Facts about ticks before `n` depend only on the prefix `ts[..n]`. */
  lemma NoRefreshPrefix(ts: seq<Tick>, i: nat, n: nat)
    requires n <= |ts| && NoRefreshBetween(ts[..n], i, n)
    ensures NoRefreshBetween(ts, i, n)
  {
    forall k | i < k < n ensures !Refreshes(Run(OFF, ts[..k]), ts[k]) {
      assert ts[..n][..k] == ts[..k];
      assert ts[..n][k] == ts[k];
    }
  }

  /** A tick that held the LED on and was followed by none that did: the grace timer was last set there. */
  predicate LastRefreshAt(ts: seq<Tick>, i: nat)
  {
    i < |ts| && Refreshes(Run(OFF, ts[..i]), ts[i]) && NoRefreshBetween(ts, i, |ts|)
  }

  /**
   * The grace timer, when set, holds the time of the last tick that held the
   * LED on: no later tick held it on.
   */
  lemma {:induction false} LastOnWitness(ts: seq<Tick>)
    ensures Run(OFF, ts).lastOnTime.Some? ==>
      exists i: nat :: LastRefreshAt(ts, i) && ts[i].now == Run(OFF, ts).lastOnTime.value
    decreases |ts|
  {
    if ts != [] {
      var n := |ts| - 1;
      var init := ts[..n];
      var before := Run(OFF, init);
      assert Run(OFF, ts) == CheckLed(before, ts[n]).next;
      LastOnWitness(init);
      if Refreshes(before, ts[n]) {
        assert LastRefreshAt(ts, n);
      } else if Run(OFF, ts).lastOnTime.Some? {
        var i: nat :| LastRefreshAt(init, i) && init[i].now == before.lastOnTime.value;
        LastRefreshExtend(ts, i);
      }
    }
  }

  /**
   * Debounce to release: on the tick where the LED turns off, the tick is
   * disarmed and more than LED_GRACE_TIME has passed since the last tick that
   * held the LED on, with no such tick since. Only an armed tick whose hold has
   * already run REQUIRED_HOLD_TIME moves the timer; a single re-armed tick in
   * the window only restarts the hold and does not cancel the release.
   */
  lemma GraceBeforeOff(ts: seq<Tick>)
    requires |ts| > 0
    requires Run(OFF, ts[..|ts| - 1]).ledOn && !Run(OFF, ts).ledOn
    ensures !Armed(ts[|ts| - 1])
    ensures exists i: nat :: (i < |ts| - 1 && LastRefreshAt(ts, i) &&
      ts[|ts| - 1].now - ts[i].now > LED_GRACE_TIME)
  {
    var n := |ts| - 1;
    var init := ts[..n];
    var before := Run(OFF, init);
    var last := ts[n];
    assert Run(OFF, ts) == CheckLed(before, last).next;
    OffOnlyOnRelease(before, last);
    LastOnWitness(init);
    var i: nat :| LastRefreshAt(init, i) && init[i].now == before.lastOnTime.value;
    LastRefreshExtend(ts, i);
    assert last.now - ts[i].now > LED_GRACE_TIME;
  }

  /** A tick that switches the LED off is a releasing tick. */
  lemma OffOnlyOnRelease(s: LedState, t: Tick)
    requires s.ledOn && !CheckLed(s, t).next.ledOn
    ensures Releases(s, t) && !Refreshes(s, t)
  {
  }

  /** A last refresh of a prefix stays the last refresh when the next tick does not refresh. */
  lemma LastRefreshExtend(ts: seq<Tick>, i: nat)
    requires |ts| > 0 && LastRefreshAt(ts[..|ts| - 1], i)
    requires !Refreshes(Run(OFF, ts[..|ts| - 1]), ts[|ts| - 1])
    ensures LastRefreshAt(ts, i) && ts[..|ts| - 1][i] == ts[i]
  {
    var n := |ts| - 1;
    NoRefreshPrefix(ts, i, n);
    NoRefreshExtend(ts, i, n);
    assert ts[..n][..i] == ts[..i];
  }

  /** A tick that does not hold the LED on extends a stretch without refreshes. */
  lemma NoRefreshExtend(ts: seq<Tick>, i: nat, n: nat)
    requires n < |ts| && NoRefreshBetween(ts, i, n)
    requires !Refreshes(Run(OFF, ts[..n]), ts[n])
    ensures NoRefreshBetween(ts, i, n + 1)
  {
  }

  /** Every reachable state is consistent, so the `led_last_on_time is not None` test never fails while the LED is on. */
  lemma {:induction false} ConsistentAlways(ts: seq<Tick>)
    ensures Consistent(Run(OFF, ts))
    decreases |ts|
  {
    if ts != [] {
      ConsistentAlways(ts[..|ts| - 1]);
    }
  }
}
