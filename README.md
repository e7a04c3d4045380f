# LED tagging from rigid-body motion: a Dafny model

This project models the decision logic of two NatNet client scripts that drive
an LED from motion-capture data.

* `positionspeed.py` decodes frame timecodes and forwards rigid-body samples
  once a timestamp is known. While the capture system is recording, it
  estimates the body's speed from consecutive samples, using a three-band
  noise filter. It switches the LED on when the body has been near a target
  point and moving for a debounce time (the hold), and switches it off on a
  disarmed sample more than a grace time after the last sample that held the
  LED on. Only an armed sample whose hold has already run the debounce time
  moves that grace timer; a single re-armed sample does not cancel the release.
* `30sec.py` waits for the capture system's frame counter to reset, which
  means a new take. From then on it logs one row per rigid-body sample and
  pulses the LED for 1 s every 30 s. `save_csv` writes a header and the rows,
  or nothing when no row was logged.

The model has eight modules, one per file:

* Wrappers (`Option`)
* SerialLink: the `send_led_command` sink both scripts share. It writes `'1'`
  or `'0'` when the port is open and drops the command otherwise.
* Timecode
* Geometry (`Vec3`, and the Euclidean norm as a function value)
* SpeedEstimator
* HoldGrace: the `check_led_condition` machine
* PositionSpeed: the `PositionTracker` and `PositionDisplay` classes
* PulseLogger: `30sec.py`

Each script's state is a class whose fields match the source's attributes.
Each LED and logging method is proved equal to a pure step function on a
matching datatype (`HoldGrace.CheckLed`, `SpeedEstimator.Observe`,
`PulseLogger.FrameStep`, `PulseLogger.BodyStep`). The `PositionTracker` methods carry direct
contracts instead. Trace lemmas, stated over
sequences of ticks or events run from the initial state, state what the
scripts promise.

Inputs from outside the scripts are parameters:

* Every `time.time()` reading is a parameter. `update_position` reads the
  clock once for the speed estimate, and `check_led_condition` reads it again.
  These are two separate parameters, `currentTime` and `checkTime`.
* `np.linalg.norm` is the display's `norm` field. `Geometry.IsNorm` requires
  it to be non-negative and to square to the dot product.
* The serial port is a `portOpen` flag plus the log of characters written.

Points of the code's behaviour that the model keeps as written:

* The pulse policy's ON branch does not check that the LED is off. If no
  sample arrives between the end of one pulse window and the next, the LED
  stays on across the gap and ON is sent a second time (30sec.py:73-81).
* The pulse timer's only gate is the early return in `on_rigid_body` before
  logging starts (30sec.py:67-68).
* The session latch `logging_started` is set once and never reset, so a second
  counter reset does not restart logging (30sec.py:56-57).
* `check_led_condition` sends the command itself, and only on a transition
  (positionspeed.py:154-163).
* The first sample leaves `current_speed` at its old value, initially 0.0
  (positionspeed.py:102, 125).

## Model

| member | source | states |
|---|---|---|
| SerialLink.CommandChar | NatNetSDK/Samples/PythonClient/positionspeed.py:170 | the LED command is one character, '1' exactly for on and '0' for off |
| SerialLink.Send | NatNetSDK/Samples/PythonClient/positionspeed.py:165-177 | with the port closed nothing is written; with it open, one character per command is appended in order and earlier output is kept |
| Timecode.Unpack | NatNetSDK/Samples/PythonClient/positionspeed.py:11-14 | each of hour, minute, second and frame taken from bits 24-31, 16-23, 8-15 and 0-7 lies in [0,255] |
| Timecode.UnpackPack | NatNetSDK/Samples/PythonClient/positionspeed.py:11-14 | unpacking a timecode packed from in-range fields gives back exactly those fields |
| Timecode.PackUnpack | NatNetSDK/Samples/PythonClient/positionspeed.py:11-14 | repacking the four unpacked fields gives the timecode's low 32 bits: bits above 31 are ignored |
| Timecode.DecodeTimecode | NatNetSDK/Samples/PythonClient/positionspeed.py:10-16 | without the subframe term the decoded time lies in [0, 933557.125]: at most 255 h, 255 min, 255 s and 255 frames; its exact value is stated by DecodePacked |
| Timecode.DecodePacked | NatNetSDK/Samples/PythonClient/positionspeed.py:10-16 | decoding a packed h:m:s:f timecode gives h*3600 + m*60 + s + (f + subframe)/120 seconds |
| Geometry.FromTuple | NatNetSDK/Samples/PythonClient/positionspeed.py:123 | the vector made from a 3-tuple has the tuple's coordinates in order |
| Geometry.NormWithin | NatNetSDK/Samples/PythonClient/positionspeed.py:148-150 | a Euclidean norm is within a non-negative bound exactly when the squared offset is within the squared bound |
| SpeedEstimator.FilteredSpeed | NatNetSDK/Samples/PythonClient/positionspeed.py:129-135 | the three-band filter never yields a negative speed; its three bands are stated by FilteredSpeedZeroIff, FilteredSpeedAttenuated and FilteredSpeedPassThrough, and their ordering by FilteredSpeedMonotone |
| SpeedEstimator.FilteredSpeedAtMostRaw | NatNetSDK/Samples/PythonClient/positionspeed.py:129-137 | the filtered speed never exceeds the raw finite difference distance/dt |
| SpeedEstimator.FilteredSpeedZeroIff | NatNetSDK/Samples/PythonClient/positionspeed.py:130-131 | the speed is 0.0 exactly when the step is below 0.0024, for every dt > 0 |
| SpeedEstimator.FilteredSpeedMonotone | NatNetSDK/Samples/PythonClient/positionspeed.py:129-137 | for a fixed dt a longer step never gives a lower speed, across both band edges |
| SpeedEstimator.FilteredSpeedAttenuated | NatNetSDK/Samples/PythonClient/positionspeed.py:132-133 | from 0.0024 up to below 0.0025, speed times dt is 0.3 times the step length |
| SpeedEstimator.FilteredSpeedPassThrough | NatNetSDK/Samples/PythonClient/positionspeed.py:134-135 | from 0.0025 up, speed times dt is the step length (no attenuation) |
| SpeedEstimator.Observe | NatNetSDK/Samples/PythonClient/positionspeed.py:125-141 | after a sample, it becomes the stored previous position and time; a missing previous time or dt <= 0 keeps the old speed; a non-negative speed stays non-negative |
| SpeedEstimator.ReplayIsLastAdvancingSpeed | NatNetSDK/Samples/PythonClient/positionspeed.py:102-141 | after any stream of samples the speed is the filtered speed of the last consecutive pair whose clock advanced (0.0 if none), and the last sample is stored as previous |
| SpeedEstimator.ReplaySpeedNonNegative | NatNetSDK/Samples/PythonClient/positionspeed.py:102-141 | after any stream of samples the speed is non-negative |
| HoldGrace.CheckLed | NatNetSDK/Samples/PythonClient/positionspeed.py:146-163 | a command is sent exactly on an LED change and carries the new state; the LED turns on only on an armed tick whose hold has run REQUIRED_HOLD_TIME, and off only on a disarmed tick more than LED_GRACE_TIME after the last on-tick; armed ticks keep or start the hold, disarmed ones clear it; only hold-satisfied ticks move the grace timer, to now |
| HoldGrace.ArmedBySquaredOffset | NatNetSDK/Samples/PythonClient/positionspeed.py:148-150 | a tick is armed exactly when the squared offset from the target is at most 0.6^2 and the speed is at least 0.0008 |
| HoldGrace.FirstArmedTickOnlyStartsHold | NatNetSDK/Samples/PythonClient/positionspeed.py:151-152 | an armed tick with no hold running only sets the hold start to now: no LED change and no command |
| HoldGrace.NotBeforeHoldTime | NatNetSDK/Samples/PythonClient/positionspeed.py:153 | a tick less than REQUIRED_HOLD_TIME after the hold start never switches the LED on |
| HoldGrace.HoldStartWitness | NatNetSDK/Samples/PythonClient/positionspeed.py:150-159 | a running hold timer holds the time of a tick from which every tick so far was armed |
| HoldGrace.DebounceBeforeOn | NatNetSDK/Samples/PythonClient/positionspeed.py:150-157 | on the tick that turns the LED on, every tick since an earlier one at least REQUIRED_HOLD_TIME before was armed |
| HoldGrace.HoldStartKept | NatNetSDK/Samples/PythonClient/positionspeed.py:151-153 | consecutive armed ticks leave the hold start where the first of them set it |
| HoldGrace.ArmedLongEnoughTurnsOn | NatNetSDK/Samples/PythonClient/positionspeed.py:150-157 | a run of armed ticks that begins after a disarmed tick and spans REQUIRED_HOLD_TIME leaves the LED on |
| HoldGrace.LastOnWitness | NatNetSDK/Samples/PythonClient/positionspeed.py:153-157 | the grace timer holds the time of the last tick that held the LED on; no later tick did |
| HoldGrace.GraceBeforeOff | NatNetSDK/Samples/PythonClient/positionspeed.py:158-163 | on the tick that turns the LED off, the tick is disarmed and more than LED_GRACE_TIME has passed since the last tick that held it on, with none since |
| HoldGrace.ConsistentAlways | NatNetSDK/Samples/PythonClient/positionspeed.py:160 | in every reachable state an LED that is on has a grace time set |
| PositionSpeed.PositionTracker.constructor | NatNetSDK/Samples/PythonClient/positionspeed.py:22-27 | no timestamp, no frame, not recording |
| PositionSpeed.PositionTracker.ReceiveFrameData | NatNetSDK/Samples/PythonClient/positionspeed.py:32-38 | stores the decoded timecode, the frame number and the recording flag, with defaults 0, 0 and false for missing keys |
| PositionSpeed.PositionTracker.ReceiveRigidBodyFrame | NatNetSDK/Samples/PythonClient/positionspeed.py:40-48 | a sample is forwarded exactly when its position is non-empty and a timestamp has been received, together with the latest timestamp, frame and recording flag |
| PositionSpeed.PositionDisplay.constructor | NatNetSDK/Samples/PythonClient/positionspeed.py:99-113 | position at the origin, no previous sample, speed 0.0, LED off, both timers unset, nothing written |
| PositionSpeed.PositionDisplay.UpdatePosition | NatNetSDK/Samples/PythonClient/positionspeed.py:115-144 | a sample taken while not recording changes nothing; otherwise the estimator takes one Observe step, the sample becomes the current position, and the LED takes one CheckLed step at the second clock reading |
| PositionSpeed.PositionDisplay.CheckLedCondition | NatNetSDK/Samples/PythonClient/positionspeed.py:146-163 | the LED fields take one CheckLed step on the current distance and speed; the command, if any, reaches the port only when the port is open; the speed state is untouched |
| PositionSpeed.PositionDisplay.SendLedCommand | NatNetSDK/Samples/PythonClient/positionspeed.py:165-177 | one '1' or '0' is appended when the port is open, else nothing |
| PulseLogger.StartsSession | NatNetSDK/Samples/PythonClient/30sec.py:55-56 | a counter reset that starts a session needs a previous frame, logging not yet started, and a drop of at least 92 frames |
| PulseLogger.Row | NatNetSDK/Samples/PythonClient/30sec.py:83-85 | a row has the coordinates between three cells: relative time first (seconds since the start), relative frame second, and the LED flag 1 or 0 last; with three coordinates it has one cell per header column |
| PulseLogger.FrameStep | NatNetSDK/Samples/PythonClient/30sec.py:52-64 | the frame becomes the previous frame on every call; it starts logging exactly when the previous frame exists and exceeds 100, the current one is below 10 and logging has not started, and then it sets the start frame and time, clears the rows and sets the pulse timer to the start time |
| PulseLogger.BodyStep | NatNetSDK/Samples/PythonClient/30sec.py:66-86 | nothing changes before logging starts; otherwise ON is sent exactly when 30 s have passed since the last pulse, which restarts the timer, and OFF only once 1 s has passed (never on the pulse tick); afterwards the timers are within their windows; exactly one row with the updated LED state is appended |
| PulseLogger.CsvLines | NatNetSDK/Samples/PythonClient/30sec.py:101-109 | with no rows nothing is written; otherwise the header comes first and then every row in append order |
| PulseLogger.LatchPersists | NatNetSDK/Samples/PythonClient/30sec.py:56-57 | once logging has started, no sequence of events stops it |
| PulseLogger.StartsAtMostOnce | NatNetSDK/Samples/PythonClient/30sec.py:55-57 | the session start fires at most once in any event sequence |
| PulseLogger.NoFrameNoPrevious | NatNetSDK/Samples/PythonClient/30sec.py:66-68 | rigid-body samples before any frame leave the logger in its initial state |
| PulseLogger.FirstFrameNeverStarts | NatNetSDK/Samples/PythonClient/30sec.py:55 | the first observed frame never starts a session |
| PulseLogger.ResetScenario | NatNetSDK/Samples/PythonClient/30sec.py:52-64 | frames 150, 151, 5, 6 start exactly one session, at frame 5 and its clock time |
| PulseLogger.StepKeepsInvariant | NatNetSDK/Samples/PythonClient/30sec.py:52-86 | every event preserves the invariant: before the start nothing is logged and the LED is off; after it the pulse timer is the start time or at least 30 s later, and an LED that is on came from such a pulse |
| PulseLogger.InvariantAlways | NatNetSDK/Samples/PythonClient/30sec.py:58-81 | every reachable state satisfies that invariant, so no pulse comes before start + 30 s |
| PulseLogger.RowsAppendOnly | NatNetSDK/Samples/PythonClient/30sec.py:83-86 | after the start, each rigid-body sample adds exactly one row and earlier rows never change |
| PulseLogger.RigidBodyLogger.constructor | NatNetSDK/Samples/PythonClient/30sec.py:17-29 | not logging, no previous or start frame, no rows, LED off, pulse timer 0 |
| PulseLogger.RigidBodyLogger.OnFrame | NatNetSDK/Samples/PythonClient/30sec.py:52-64 | the fields take one FrameStep on the frame number (0 when missing); nothing is written to the port |
| PulseLogger.RigidBodyLogger.OnRigidBody | NatNetSDK/Samples/PythonClient/30sec.py:66-88 | the fields take one BodyStep, and its commands reach the port only when the port is open |
| PulseLogger.RigidBodyLogger.LogRow | NatNetSDK/Samples/PythonClient/30sec.py:83-86 | appends the Row of the current state and changes nothing else |
| PulseLogger.RigidBodyLogger.SendLedCommand | NatNetSDK/Samples/PythonClient/30sec.py:90-99 | one '1' or '0' is appended when the port is open, else nothing |
| PulseLogger.RigidBodyLogger.SaveCsv | NatNetSDK/Samples/PythonClient/30sec.py:101-109 | returns the lines CsvLines gives for the logged rows |

## Left out

- The NatNet streaming client, its network protocol and its callbacks. NatNetClient is not part of this model. Its callbacks are the methods' entry points, and each call is one atomic step.
- The orientation argument of `on_rigid_body` in `30sec.py` and of `receive_rigid_body_frame` in `positionspeed.py` (positionspeed.py:40), and the rigid-body id in `30sec.py`. None of them affects any decision.
- Serial port opening, `time.sleep`, and write failures inside the `try`. A port that failed to open is `portOpen == false`. A write that raises is not modelled: the model treats every write to an open port as successful.
- The PyQt5 and tkinter interfaces: labels, `QTimer`, `update_label`, `closeEvent`, `on_close` and the thread hand-off through `pyqtSignal`. `ReceiveRigidBodyFrame` returns the emitted signal instead.
- The CSV file itself, `atexit`, `os._exit` and every `print`. `SaveCsv` returns the lines it would write, and `None` stands for "nothing saved". The model does not cover a failure to open the file.
- Floating point. Times and distances are `real`, so numpy and IEEE rounding are not modelled. `np.linalg.norm` is a function value the caller supplies, constrained to be the Euclidean norm.
- PositionSpeed.PositionDisplay.UpdatePosition: requires a 3-coordinate position for a sample taken while recording, because the NatNet client always delivers three coordinates. With another length numpy would broadcast (one coordinate) or raise, and the model does not follow that. A sample taken while not recording may have any length.
