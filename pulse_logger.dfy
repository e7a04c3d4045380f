/**
 * `30sec.py`: a logger that waits for the capture system's frame counter to
 * reset (a new take), then records one row per rigid-body sample and pulses
 * the LED for LED_DURATION every LED_INTERVAL seconds. Clock readings are
 * parameters; the serial port is a character log; `save_csv` yields the rows
 * it would write.
 */
module PulseLogger {
  import opened Wrappers
  import SerialLink

  const LED_INTERVAL: real := 30.0
  const LED_DURATION: real := 1.0
  /** The previous frame must exceed this for a reset to count. */
  const HIGH_FRAME: int := 100
  /** The current frame must be below this for a reset to count. */
  const LOW_FRAME: int := 10

  /** One CSV cell: a header label, a float or an int. */
  datatype Cell = Text(text: string) | Num(number: real) | Whole(whole: int)

  const HEADER: seq<Cell> := [Text("Time (s)"), Text("Frame"), Text("X"), Text("Y"), Text("Z"), Text("LED State")]

  /** The logger's fields. */
  datatype Logger = Logger(
    loggingStarted: bool,
    previousFrame: Option<int>,
    startFrame: Option<int>,
    currentFrame: int,
    recordedData: seq<seq<Cell>>,
    startWallTime: Option<real>,
    ledOn: bool,
    lastLedTime: real)

  /** The state at construction. */
  const INITIAL: Logger := Logger(false, None, None, 0, [], None, false, 0.0)

  /**
   * The frame-counter reset that starts logging: from above HIGH_FRAME to below
   * LOW_FRAME while not yet logging, so always a drop of at least 92 frames.
   */
  predicate StartsSession(s: Logger, frame: int)
    ensures StartsSession(s, frame) ==>
      !s.loggingStarted && s.previousFrame.Some? && s.previousFrame.value - frame >= HIGH_FRAME - LOW_FRAME + 2
  {
    s.previousFrame.Some? && s.previousFrame.value > HIGH_FRAME && frame < LOW_FRAME && !s.loggingStarted
  }

  /** `on_frame` for frame number `frame` with the clock at `now`. */
  function FrameStep(s: Logger, frame: int, now: real): (r: Logger)
    ensures r.previousFrame == Some(frame) && r.currentFrame == frame
    ensures r.loggingStarted <==> s.loggingStarted || StartsSession(s, frame)
    ensures StartsSession(s, frame) ==>
      r.startFrame == Some(frame) && r.startWallTime == Some(now) && r.recordedData == [] && r.lastLedTime == now
    ensures !StartsSession(s, frame) ==>
      r.startFrame == s.startFrame && r.startWallTime == s.startWallTime &&
      r.recordedData == s.recordedData && r.lastLedTime == s.lastLedTime
    ensures r.ledOn == s.ledOn
  {
    var s1 := s.(currentFrame := frame);
    var s2 := if s.previousFrame.Some? && s.previousFrame.value > HIGH_FRAME && frame < LOW_FRAME && !s.loggingStarted
      then s1.(loggingStarted := true, startFrame := Some(frame), startWallTime := Some(now),
               recordedData := [], lastLedTime := now)
      else s1;
    s2.(previousFrame := Some(frame))
  }

  /** The coordinates of a position tuple as cells. */
  function Coordinates(position: seq<real>): (cells: seq<Cell>)
    ensures |cells| == |position|
    ensures forall i :: 0 <= i < |position| ==> cells[i] == Num(position[i])
  {
    seq(|position|, i requires 0 <= i < |position| => Num(position[i]))
  }

  /**
   * The row `[rel_time, rel_frame, *position, int(led_on)]` logged in state `s`
   * at `now`: with three coordinates, one cell per header column.
   */
  function Row(s: Logger, position: seq<real>, now: real): (row: seq<Cell>)
    ensures |row| == |position| + 3
    ensures |position| == 3 ==> |row| == |HEADER|
    ensures s.startWallTime.Some? ==> row[0] == Num(now - s.startWallTime.value)
    ensures s.startFrame.Some? ==> row[1] == Whole(s.currentFrame - s.startFrame.value)
    ensures row[2..|row| - 1] == Coordinates(position)
    ensures row[|row| - 1] == Whole(if s.ledOn then 1 else 0)
  {
    var relFrame := if s.startFrame.Some? then s.currentFrame - s.startFrame.value else 0;
    var relTime := if s.startWallTime.Some? then Num(now - s.startWallTime.value) else Whole(0);
    [relTime, Whole(relFrame)] + Coordinates(position) + [Whole(if s.ledOn then 1 else 0)]
  }

  /** The new state and the LED commands sent during one `on_rigid_body` call. */
  datatype BodyResult = BodyResult(next: Logger, commands: seq<bool>)

  /** The pulse and log-row update of `on_rigid_body` with the clock at `now`. */
  function BodyStep(s: Logger, position: seq<real>, now: real): (r: BodyResult)
    // before logging has started nothing changes
    ensures !s.loggingStarted ==> r == BodyResult(s, [])
    // a pulse starts exactly when LED_INTERVAL has passed since the last one, and restarts the timer
    ensures s.loggingStarted ==>
      (now - s.lastLedTime >= LED_INTERVAL <==> r.commands == [true]) &&
      r.next.lastLedTime == (if now - s.lastLedTime >= LED_INTERVAL then now else s.lastLedTime)
    // the LED is switched off once it has been on for LED_DURATION, never on the tick that switched it on
    ensures s.loggingStarted ==>
      (r.commands == [false] <==> now - s.lastLedTime < LED_INTERVAL && s.ledOn && now - s.lastLedTime >= LED_DURATION)
    ensures s.loggingStarted ==> |r.commands| <= 1 && (r.next.ledOn <==> (r.commands == [true] || (s.ledOn && r.commands == [])))
    // after the tick the timers are within their windows
    ensures s.loggingStarted ==> now - r.next.lastLedTime < LED_INTERVAL
    ensures s.loggingStarted && r.next.ledOn ==> now - r.next.lastLedTime < LED_DURATION
    // exactly one row is appended, carrying the LED state after the update
    ensures s.loggingStarted ==> r.next.recordedData == s.recordedData + [Row(r.next, position, now)]
    ensures r.next.(ledOn := s.ledOn, lastLedTime := s.lastLedTime, recordedData := s.recordedData) == s
  {
    if !s.loggingStarted then BodyResult(s, [])
    else
      var pulse := now - s.lastLedTime >= LED_INTERVAL;
      var s1 := if pulse then s.(ledOn := true, lastLedTime := now) else s;
      var off := s1.ledOn && now - s1.lastLedTime >= LED_DURATION;
      var s2 := if off then s1.(ledOn := false) else s1;
      var commands := (if pulse then [true] else []) + (if off then [false] else []);
      assert pulse ==> !off && commands == [true];
      assert !pulse ==> commands == if off then [false] else [];
      BodyResult(s2.(recordedData := s2.recordedData + [Row(s2, position, now)]), commands)
  }

  /** What `save_csv` writes: nothing for an empty buffer, else the header and then the rows in order. */
  function CsvLines(data: seq<seq<Cell>>): (out: Option<seq<seq<Cell>>>)
    ensures out.None? <==> data == []
    ensures out.Some? ==>
      |out.value| == |data| + 1 && out.value[0] == HEADER &&
      forall i :: 0 <= i < |data| ==> out.value[i + 1] == data[i]
  {
    if data == [] then None else Some([HEADER] + data)
  }

  /** The events the NatNet client delivers to the logger. */
  datatype Event = Frame(frameNumber: int, now: real) | Body(position: seq<real>, now: real)

  function Step(s: Logger, e: Event): Logger {
    match e
    case Frame(n, now) => FrameStep(s, n, now)
    case Body(p, now) => BodyStep(s, p, now).next
  }

  /** The logger after the events `es`, in order, from `s`. */
  function Run(s: Logger, es: seq<Event>): Logger
    decreases |es|
  {
    if es == [] then s else Step(Run(s, es[..|es| - 1]), es[|es| - 1])
  }

  /** The session start fires at event `i` of `es`, run from INITIAL. */
  predicate StartsAt(es: seq<Event>, i: nat)
    requires i < |es|
  {
    es[i].Frame? && StartsSession(Run(INITIAL, es[..i]), es[i].frameNumber)
  }

  /** The latch: once logging has started, no event stops it. */
  lemma {:induction false} LatchPersists(s: Logger, es: seq<Event>)
    requires s.loggingStarted
    ensures Run(s, es).loggingStarted
    decreases |es|
  {
    if es != [] {
      LatchPersists(s, es[..|es| - 1]);
    }
  }

  /** Running a concatenation is running its parts one after the other. */
  lemma {:induction false} RunAppend(s: Logger, a: seq<Event>, b: seq<Event>)
    ensures Run(s, a + b) == Run(Run(s, a), b)
    decreases |b|
  {
    if b != [] {
      var b' := b[..|b| - 1];
      assert (a + b)[..|a + b| - 1] == a + b';
      RunAppend(s, a, b');
    } else {
      assert a + b == a;
    }
  }

  /** The session start fires at most once per logger. */
  lemma StartsAtMostOnce(es: seq<Event>, i: nat, j: nat)
    requires i < j < |es| && StartsAt(es, i)
    ensures !StartsAt(es, j)
  {
    var afterI := Run(INITIAL, es[..i + 1]);
    assert es[..i + 1][..i] == es[..i];
    assert afterI.loggingStarted;
    assert es[..j] == es[..i + 1] + es[i + 1..j];
    RunAppend(INITIAL, es[..i + 1], es[i + 1..j]);
    LatchPersists(afterI, es[i + 1..j]);
  }

  /** Until a frame has been observed the logger has no previous frame. */
  lemma {:induction false} NoFrameNoPrevious(es: seq<Event>)
    requires forall k :: 0 <= k < |es| ==> es[k].Body?
    ensures Run(INITIAL, es) == INITIAL
    decreases |es|
  {
    if es != [] {
      NoFrameNoPrevious(es[..|es| - 1]);
    }
  }

  /** The first observed frame never starts a session. */
  lemma FirstFrameNeverStarts(es: seq<Event>, i: nat)
    requires i < |es| && es[i].Frame?
    requires forall k :: 0 <= k < i ==> es[k].Body?
    ensures !StartsAt(es, i)
  {
    NoFrameNoPrevious(es[..i]);
  }

  /** The frames `..., 150, 151, 5, 6` start exactly one session, at the `151 -> 5` reset. */
  lemma ResetScenario(t0: real, t1: real, t2: real, t3: real)
    ensures var es := [Frame(150, t0), Frame(151, t1), Frame(5, t2), Frame(6, t3)];
      !StartsAt(es, 0) && !StartsAt(es, 1) && StartsAt(es, 2) && !StartsAt(es, 3) &&
      Run(INITIAL, es).startFrame == Some(5) && Run(INITIAL, es).startWallTime == Some(t2)
  {
    var es := [Frame(150, t0), Frame(151, t1), Frame(5, t2), Frame(6, t3)];
    assert es[..1] == [Frame(150, t0)] && es[..1][..0] == [];
    assert es[..2] == es[..3][..2] && es[..2][..1] == es[..1];
    assert es[..3][..2] == es[..2] && es[..4][..3] == es[..3];
    assert es == es[..4];
  }

  /**
   * The logger invariant: before the session start nothing is logged and the
   * LED is off; after it, the pulse timer is the start time or at least one
   * interval later, and an LED that is on was switched on by a pulse, so no
   * pulse comes before start + LED_INTERVAL.
   */
  predicate SessionInvariant(s: Logger) {
    (!s.loggingStarted ==> !s.ledOn && s.recordedData == [] && s.startFrame.None? && s.startWallTime.None?) &&
    (s.loggingStarted ==>
      s.startFrame.Some? && s.startWallTime.Some? &&
      (s.lastLedTime == s.startWallTime.value || s.lastLedTime >= s.startWallTime.value + LED_INTERVAL) &&
      (s.ledOn ==> s.lastLedTime >= s.startWallTime.value + LED_INTERVAL))
  }

  lemma StepKeepsInvariant(s: Logger, e: Event)
    requires SessionInvariant(s)
    ensures SessionInvariant(Step(s, e))
  {
  }

  /** Every state reachable from INITIAL satisfies the invariant. */
  lemma {:induction false} InvariantAlways(es: seq<Event>)
    ensures SessionInvariant(Run(INITIAL, es))
    decreases |es|
  {
    if es != [] {
      InvariantAlways(es[..|es| - 1]);
      StepKeepsInvariant(Run(INITIAL, es[..|es| - 1]), es[|es| - 1]);
    }
  }

  function CountBodies(es: seq<Event>): nat
    decreases |es|
  {
    if es == [] then 0 else CountBodies(es[..|es| - 1]) + (if es[|es| - 1].Body? then 1 else 0)
  }

  /**
   * Once logging has started, every rigid-body sample appends exactly one row
   * and earlier rows are never changed.
   */
  lemma {:induction false} RowsAppendOnly(s: Logger, es: seq<Event>)
    requires s.loggingStarted
    ensures |Run(s, es).recordedData| == |s.recordedData| + CountBodies(es)
    ensures Run(s, es).recordedData[..|s.recordedData|] == s.recordedData
    decreases |es|
  {
    if es != [] {
      var init := es[..|es| - 1];
      RowsAppendOnly(s, init);
      LatchPersists(s, init);
      var before := Run(s, init);
      assert before.recordedData[..|s.recordedData|] == s.recordedData;
      if es[|es| - 1].Frame? {
        assert !StartsSession(before, es[|es| - 1].frameNumber);
      } else {
        var after := Run(s, es).recordedData;
        assert after[..|before.recordedData|] == before.recordedData;
        assert after[..|s.recordedData|] == before.recordedData[..|s.recordedData|];
      }
    }
  }

  /** `RigidBodyLogger`: the frame and rigid-body callbacks, the LED link and the CSV rows. */
  class RigidBodyLogger {
    /** Whether the serial port opened; when not, LED commands are dropped. */
    const portOpen: bool

    var loggingStarted: bool
    var previousFrame: Option<int>
    var startFrame: Option<int>
    var currentFrame: int
    var recordedData: seq<seq<Cell>>
    var startWallTime: Option<real>
    var ledOn: bool
    var lastLedTime: real
    /** Characters written to the serial port so far. */
    var written: seq<char>

    function State(): Logger
      reads this
    {
      Logger(loggingStarted, previousFrame, startFrame, currentFrame, recordedData, startWallTime, ledOn, lastLedTime)
    }

    ghost predicate Valid()
      reads this
    {
      SessionInvariant(State())
    }

    constructor (portOpen: bool)
      ensures Valid() && State() == INITIAL && written == [] && this.portOpen == portOpen
    {
      this.portOpen := portOpen;
      loggingStarted := false;
      previousFrame, startFrame := None, None;
      currentFrame := 0;
      recordedData := [];
      startWallTime := None;
      ledOn := false;
      lastLedTime := 0.0;
      written := [];
    }

    /** `on_frame`: the frame number defaults to 0 when the frame carries none. */
    method OnFrame(frameNumber: Option<int>, now: real)
      requires Valid()
      modifies this
      ensures Valid()
      ensures State() == FrameStep(old(State()), frameNumber.GetOr(0), now)
      ensures written == old(written)
    {
      currentFrame := frameNumber.GetOr(0);
      if previousFrame.Some? {
        if previousFrame.value > HIGH_FRAME && currentFrame < LOW_FRAME && !loggingStarted {
          loggingStarted := true;
          startFrame := Some(currentFrame);
          startWallTime := Some(now);
          recordedData := [];
          lastLedTime := now;
        }
      }
      previousFrame := Some(currentFrame);
      StepKeepsInvariant(old(State()), Frame(frameNumber.GetOr(0), now));
    }

    /** `on_rigid_body`: the LED pulse timer, then one log row. */
    method OnRigidBody(position: seq<real>, now: real)
      requires Valid()
      modifies this
      ensures Valid()
      ensures var r := BodyStep(old(State()), position, now);
        State() == r.next && written == SerialLink.Send(portOpen, old(written), r.commands)
    {
      if !loggingStarted {
        return;
      }
      if now - lastLedTime >= LED_INTERVAL {
        SendLedCommand(true);
        ledOn := true;
        lastLedTime := now;
      }
      if ledOn && now - lastLedTime >= LED_DURATION {
        SendLedCommand(false);
        ledOn := false;
      }
      LogRow(position, now);
      StepKeepsInvariant(old(State()), Body(position, now));
    }

    /** The logging half of `on_rigid_body`: append the row for the current state. */
    method LogRow(position: seq<real>, now: real)
      modifies this`recordedData
      ensures recordedData == old(recordedData) + [Row(old(State()), position, now)]
    {
      var relFrame := if startFrame.Some? then currentFrame - startFrame.value else 0;
      var relTime := if startWallTime.Some? then Num(now - startWallTime.value) else Whole(0);
      var row := [relTime, Whole(relFrame)] + Coordinates(position) + [Whole(if ledOn then 1 else 0)];
      recordedData := recordedData + [row];
    }

    /** `send_led_command`: write '1' or '0' when the port is open, else drop the command. */
    method SendLedCommand(state: bool)
      modifies this`written
      ensures written == SerialLink.Send(portOpen, old(written), [state])
    {
      if portOpen {
        written := written + [SerialLink.CommandChar(state)];
      }
    }

    /** `save_csv`: the lines it would write, or None when there is nothing to save. */
    method SaveCsv() returns (out: Option<seq<seq<Cell>>>)
      ensures out == CsvLines(recordedData)
    {
      if recordedData == [] {
        return None;
      }
      out := Some([HEADER] + recordedData);
    }
  }
}
