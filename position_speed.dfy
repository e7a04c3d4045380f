/**
 * `positionspeed.py`: a tracker that forwards rigid-body samples once a frame
 * timestamp is known, and a display that estimates speed from consecutive
 * recorded samples and drives the LED through the hold/grace machine.
 * Clock readings are parameters; the serial port is a character log.
 */
module PositionSpeed {
  import opened Wrappers
  import opened Geometry
  import Timecode
  import SE = SpeedEstimator
  import HG = HoldGrace
  import SerialLink

  /** The fields of a NatNet frame the tracker reads; a missing key is None. */
  datatype FrameData = FrameData(timecode: Option<int>, timecodeSub: Option<int>,
                                 frameNumber: Option<int>, isRecording: Option<bool>)

  /** The payload of `position_signal`. */
  datatype PoseSignal = PoseSignal(rigidBodyId: int, position: seq<real>, motiveTime: real,
                                   frameNumber: int, isRecording: bool)

  /** The commands a step sends, as a sequence. */
  function Commands(c: Option<bool>): (r: seq<bool>)
    ensures |r| <= 1
    ensures r == [] <==> c.None?
    ensures c.Some? ==> r == [c.value]
  {
    if c.Some? then [c.value] else []
  }

  /** `PositionTracker`: the latest frame metadata, and the gate for rigid-body samples. */
  class PositionTracker {
    var latestTimestamp: Option<real>
    var latestFrame: Option<int>
    var isRecording: bool

    /** Timestamp and frame number are always set together. */
    ghost predicate Valid()
      reads this
    {
      latestTimestamp.Some? <==> latestFrame.Some?
    }

    constructor ()
      ensures Valid()
      ensures latestTimestamp.None? && latestFrame.None? && !isRecording
    {
      latestTimestamp, latestFrame, isRecording := None, None, false;
    }

    /** `receive_frame_data`: record the decoded timecode, the frame number and the recording flag. */
    method ReceiveFrameData(data: FrameData)
      requires Valid()
      modifies this
      ensures Valid()
      ensures latestTimestamp == Some(Timecode.DecodeTimecode(data.timecode.GetOr(0), data.timecodeSub.GetOr(0)))
      ensures latestFrame == Some(data.frameNumber.GetOr(0))
      ensures isRecording == data.isRecording.GetOr(false)
    {
      latestTimestamp := Some(Timecode.DecodeTimecode(data.timecode.GetOr(0), data.timecodeSub.GetOr(0)));
      latestFrame := Some(data.frameNumber.GetOr(0));
      isRecording := data.isRecording.GetOr(false);
    }

    /**
     * `receive_rigid_body_frame`: a sample is forwarded exactly when its
     * position is non-empty and a frame timestamp has been received, carrying
     * the latest frame metadata.
     */
    method ReceiveRigidBodyFrame(rigidBodyId: int, position: seq<real>) returns (emitted: Option<PoseSignal>)
      requires Valid()
      ensures emitted.Some? <==> |position| > 0 && latestTimestamp.Some?
      ensures emitted.Some? ==>
        emitted.value == PoseSignal(rigidBodyId, position, latestTimestamp.value, latestFrame.value, isRecording)
    {
      if |position| > 0 && latestTimestamp.Some? {
        emitted := Some(PoseSignal(rigidBodyId, position, latestTimestamp.value, latestFrame.value, isRecording));
      } else {
        emitted := None;
      }
    }
  }

  /** `PositionDisplay`: speed estimation and LED control (the widgets are not modelled). */
  class PositionDisplay {
    /** The Euclidean norm (`np.linalg.norm`). */
    const norm: Vec3 -> real
    /** Whether the serial port opened; when not, LED commands are dropped. */
    const portOpen: bool

    var currentPosition: Vec3
    var previousPosition: Option<Vec3>
    var previousTime: Option<real>
    var currentSpeed: real
    var ledOn: bool
    var speedHoldStartTime: Option<real>
    var ledLastOnTime: Option<real>
    /** Characters written to the serial port so far. */
    var written: seq<char>

    ghost predicate Valid()
      reads this
    {
      IsNorm(norm) && currentSpeed >= 0.0 && HG.Consistent(Led()) &&
      (previousPosition.Some? <==> previousTime.Some?)
    }

    /** The speed estimator's part of the state. */
    function Estimate(): SE.Estimator
      reads this
    {
      SE.Estimator(previousPosition, previousTime, currentSpeed)
    }

    /** The LED controller's part of the state. */
    function Led(): HG.LedState
      reads this
    {
      HG.LedState(ledOn, speedHoldStartTime, ledLastOnTime)
    }

    /** What `check_led_condition` sees at clock reading `now`. */
    function LedTick(now: real): HG.Tick
      reads this
    {
      HG.Tick(norm(Sub(currentPosition, HG.TARGET_POSITION)), currentSpeed, now)
    }

    constructor (norm: Vec3 -> real, portOpen: bool)
      requires IsNorm(norm)
      ensures Valid()
      ensures this.norm == norm && this.portOpen == portOpen
      ensures currentPosition == Vec3(0.0, 0.0, 0.0)
      ensures Estimate() == SE.INITIAL && Led() == HG.OFF && written == []
    {
      this.norm := norm;
      this.portOpen := portOpen;
      currentPosition := Vec3(0.0, 0.0, 0.0);
      previousPosition, previousTime := None, None;
      currentSpeed := 0.0;
      ledOn := false;
      speedHoldStartTime, ledLastOnTime := None, None;
      written := [];
    }

    /**
     * `update_position`, with the clock read at `currentTime` for the speed
     * estimate and again at `checkTime` inside `check_led_condition`. A sample
     * taken while not recording changes nothing.
     */
    method UpdatePosition(signal: PoseSignal, currentTime: real, checkTime: real)
      requires Valid() && (signal.isRecording ==> |signal.position| == 3)
      modifies this
      ensures Valid()
      ensures !signal.isRecording ==> unchanged(this)
      ensures signal.isRecording ==>
        Estimate() == SE.Observe(old(Estimate()), SE.Sample(FromTuple(signal.position), currentTime), norm) &&
        currentPosition == FromTuple(signal.position) &&
        var step := HG.CheckLed(old(Led()), LedTick(checkTime));
        Led() == step.next && written == SerialLink.Send(portOpen, old(written), Commands(step.command))
    {
      if !signal.isRecording {
        return;
      }
      var positionArray := FromTuple(signal.position);
      if previousPosition.Some? && previousTime.Some? {
        var dt := currentTime - previousTime.value;
        var frameDistance := norm(Sub(positionArray, previousPosition.value));
        if dt > 0.0 {
          var rawSpeed;
          if frameDistance < SE.NOISE_FLOOR_LOW {
            rawSpeed := 0.0;
          } else if frameDistance < SE.NOISE_FLOOR_HIGH {
            rawSpeed := (frameDistance / dt) * SE.ATTENUATION;
          } else {
            rawSpeed := frameDistance / dt;
          }
          assert rawSpeed == SE.FilteredSpeed(frameDistance, dt);
          currentSpeed := rawSpeed;
        }
      }
      previousPosition := Some(positionArray);
      previousTime := Some(currentTime);
      currentPosition := positionArray;
      CheckLedCondition(checkTime);
    }

    /** `check_led_condition` at clock reading `now`: one step of the hold/grace machine. */
    method CheckLedCondition(now: real)
      requires Valid()
      modifies this
      ensures Valid()
      ensures var step := HG.CheckLed(old(Led()), old(LedTick(now)));
        Led() == step.next && written == SerialLink.Send(portOpen, old(written), Commands(step.command))
      ensures Estimate() == old(Estimate()) && currentPosition == old(currentPosition)
    {
      var distance := norm(Sub(currentPosition, HG.TARGET_POSITION));
      if distance <= HG.DISTANCE_THRESHOLD && currentSpeed >= HG.SPEED_THRESHOLD {
        if speedHoldStartTime.None? {
          speedHoldStartTime := Some(now);
        } else if now - speedHoldStartTime.value >= HG.REQUIRED_HOLD_TIME {
          if !ledOn {
            SendLedCommand(true);
            ledOn := true;
          }
          ledLastOnTime := Some(now);
        }
      } else {
        speedHoldStartTime := None;
        if ledOn && ledLastOnTime.Some? {
          if now - ledLastOnTime.value > HG.LED_GRACE_TIME {
            SendLedCommand(false);
            ledOn := false;
          }
        }
      }
    }

    /** `send_led_command`: write '1' or '0' when the port is open, else drop the command. */
    method SendLedCommand(state: bool)
      modifies this`written
      ensures written == SerialLink.Send(portOpen, old(written), [state])
    {
      if portOpen {
        written := written + [SerialLink.CommandChar(state)];
      }
    }
  }
}
