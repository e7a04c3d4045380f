/**
 * `decode_timecode`: a packed SMPTE-style timecode carries the hour in bits
 * 24..31, the minute in bits 16..23, the second in bits 8..15 and the frame in
 * bits 0..7; the decoder turns it into seconds assuming 120 frames per second.
 *
 * Python's `(x >> k) & 255` on an integer is `floor(x / 2^k) mod 256`, which is
 * exactly Dafny's Euclidean `(x / 2^k) % 256` (the divisor is positive), also
 * for negative `x`.
 */
module Timecode {

  const FRAMES_PER_SECOND: real := 120.0

  /** The four 8-bit fields of a timecode, as the decoder extracts them. */
  datatype Fields = Fields(hour: int, minute: int, second: int, frame: int)

  predicate InByteRange(f: Fields) {
    0 <= f.hour < 256 && 0 <= f.minute < 256 && 0 <= f.second < 256 && 0 <= f.frame < 256
  }

  /** Bits 8*k .. 8*k+7 of `timecode`, as `(timecode >> 8*k) & 255`. */
  function Unpack(timecode: int): (f: Fields)
    ensures InByteRange(f)
  {
    Fields((timecode / 0x100_0000) % 256,
           (timecode / 0x1_0000) % 256,
           (timecode / 0x100) % 256,
           timecode % 256)
  }

  /** The packing the decoder undoes: hour in the top byte, frame in the bottom one. */
  function Pack(f: Fields): int {
    ((f.hour * 256 + f.minute) * 256 + f.second) * 256 + f.frame
  }

  /**
   * `decode_timecode(timecode, subframe)`, in seconds. Without the subframe
   * term the result lies between 0 and 255:255:255 plus 255 frames.
   */
  function DecodeTimecode(timecode: int, subframe: int): (seconds: real)
    ensures 0.0 <= seconds - subframe as real / FRAMES_PER_SECOND <= 933557.125
  {
    var f := Unpack(timecode);
    (f.hour * 3600 + f.minute * 60 + f.second) as real + f.frame as real / FRAMES_PER_SECOND
      + subframe as real / FRAMES_PER_SECOND
  }

  /** Euclidean division by a positive constant recovers quotient and remainder. */
  lemma DivModOf(q: int, r: int, d: int)
    requires 0 < d && 0 <= r < d
    ensures (q * d + r) / d == q && (q * d + r) % d == r
  {
    var x := q * d + r;
    assert x == (x / d) * d + x % d;
    if x / d > q {
      MulAtLeast(x / d - q, d);
    } else if x / d < q {
      MulAtLeast(q - x / d, d);
    }
  }

  lemma MulAtLeast(a: int, d: int)
    requires 1 <= a && 0 < d
    ensures a * d >= d
  {
  }

  /** Decoding the fields of a packed timecode gives back the fields (the decoder inverts Pack). */
  lemma UnpackPack(f: Fields)
    requires InByteRange(f)
    ensures Unpack(Pack(f)) == f
  {
    HourOfPack(f);
    MinuteOfPack(f);
    SecondOfPack(f);
    FrameOfPack(f);
  }

  lemma HourOfPack(f: Fields)
    requires InByteRange(f)
    ensures (Pack(f) / 0x100_0000) % 256 == f.hour
  {
    var low := f.minute * 0x1_0000 + f.second * 256 + f.frame;
    assert Pack(f) == f.hour * 0x100_0000 + low;
    DivModOf(f.hour, low, 0x100_0000);
    DivModOf(0, f.hour, 256);
  }

  lemma MinuteOfPack(f: Fields)
    requires InByteRange(f)
    ensures (Pack(f) / 0x1_0000) % 256 == f.minute
  {
    var high := f.hour * 256 + f.minute;
    assert Pack(f) == high * 0x1_0000 + (f.second * 256 + f.frame);
    DivModOf(high, f.second * 256 + f.frame, 0x1_0000);
    DivModOf(f.hour, f.minute, 256);
  }

  lemma SecondOfPack(f: Fields)
    requires InByteRange(f)
    ensures (Pack(f) / 0x100) % 256 == f.second
  {
    var high := f.hour * 256 + f.minute;
    DivModOf(high * 256 + f.second, f.frame, 256);
    DivModOf(high, f.second, 256);
  }

  lemma FrameOfPack(f: Fields)
    requires InByteRange(f)
    ensures Pack(f) % 256 == f.frame
  {
    DivModOf((f.hour * 256 + f.minute) * 256 + f.second, f.frame, 256);
  }

  /** Repacking the four fields gives the low 32 bits of the timecode: higher bits are ignored. */
  lemma PackUnpack(timecode: int)
    ensures Pack(Unpack(timecode)) == timecode % 0x1_0000_0000
  {
    var f := Unpack(timecode);
    var q0 := timecode / 256;
    var q1 := q0 / 256;
    var q2 := q1 / 256;
    var q3 := q2 / 256;
    assert timecode == q0 * 256 + timecode % 256;
    assert q0 == q1 * 256 + q0 % 256;
    assert q1 == q2 * 256 + q1 % 256;
    assert q2 == q3 * 256 + q2 % 256;
    assert timecode == q1 * 0x1_0000 + (q0 % 256) * 256 + timecode % 256;
    DivModOf(q1, (q0 % 256) * 256 + timecode % 256, 0x1_0000);
    assert timecode == q2 * 0x100_0000 + ((q1 % 256) * 0x1_0000 + (q0 % 256) * 256 + timecode % 256);
    DivModOf(q2, (q1 % 256) * 0x1_0000 + (q0 % 256) * 256 + timecode % 256, 0x100_0000);
    assert f == Fields(q2 % 256, q1 % 256, q0 % 256, timecode % 256);
    var low := (((q2 % 256) * 256 + q1 % 256) * 256 + q0 % 256) * 256 + timecode % 256;
    assert timecode == q3 * 0x1_0000_0000 + low;
    DivModOf(q3, low, 0x1_0000_0000);
  }

  /** Decoding a packed timecode gives its hour, minute, second and frame in seconds. */
  lemma DecodePacked(f: Fields, subframe: int)
    requires InByteRange(f)
    ensures DecodeTimecode(Pack(f), subframe)
      == (f.hour * 3600 + f.minute * 60 + f.second) as real + (f.frame + subframe) as real / FRAMES_PER_SECOND
  {
    UnpackPack(f);
  }
}
