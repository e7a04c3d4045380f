/**
 * The LED actuator link shared by both scripts: `send_led_command(state)`
 * writes the single character '1' (on) or '0' (off) to the serial port, and
 * drops the command when the port is absent or closed.
 */
module SerialLink {

  /** The character written for an LED state. */
  function CommandChar(state: bool): (c: char)
    ensures c == '1' || c == '0'
    ensures state <==> c == '1'
  {
    if state then '1' else '0'
  }

  /** The characters on the wire after the commands `states` are sent in order. */
  function Send(portOpen: bool, written: seq<char>, states: seq<bool>): (r: seq<char>)
    ensures !portOpen ==> r == written
    ensures portOpen ==> |r| == |written| + |states|
    ensures portOpen ==> r[..|written|] == written
    ensures portOpen ==> forall i :: 0 <= i < |states| ==> r[|written| + i] == CommandChar(states[i])
    decreases |states|
  {
    if !portOpen || states == [] then written
    else Send(portOpen, written + [CommandChar(states[0])], states[1..])
  }
}
