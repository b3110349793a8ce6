/** Two pieces of the source's timecode arithmetic exactly as written, next to the
    corrected functions of TimecodeValues that the rest of the model uses:
    - add_seconds and add_minutes keep 60 - value instead of value mod 60 after a carry;
    - subtract_frames does not stop at zero, so Python's floor division makes the hours
      negative.
    Fields here are plain integers because the source's can go negative. */
module AsWritten {
  import opened Results
  import opened Scc
  import TimecodeValues

  datatype RawTimecode = RawTimecode(hours: int, minutes: int, seconds: int, frames: int)

  function RawFrameCount(t: RawTimecode): int
  {
    t.hours * FramesPerHour + t.minutes * FramesPerMinute + t.seconds * FramesPerSecond + t.frames
  }

  function RawAddHours(t: RawTimecode, n: int): Result<RawTimecode>
  {
    if t.hours + n > 99 then Err(OverflowError) else Ok(t.(hours := t.hours + n))
  }

  /** add_minutes as written: on a carry the minutes become 60 - value and one hour is added. */
  function RawAddMinutes(t: RawTimecode, n: int): Result<RawTimecode>
  {
    var m := t.minutes + n;
    if m >= 60 then RawAddHours(t.(minutes := 60 - m), 1) else Ok(t.(minutes := m))
  }

  /** add_seconds as written: on a carry the seconds become 60 - value and one minute is added. */
  function RawAddSeconds(t: RawTimecode, n: int): Result<RawTimecode>
  {
    var s := t.seconds + n;
    if s >= 60 then RawAddMinutes(t.(seconds := 60 - s), 1) else Ok(t.(seconds := s))
  }

  /** from_frames on any integer: Dafny's / and % by a positive divisor are Python's // and %. */
  function RawFromFrames(n: int): (r: RawTimecode)
    ensures RawFrameCount(r) == n
  {
    var rest := n % FramesPerHour;
    RawTimecode(n / FramesPerHour, rest / FramesPerMinute,
                rest % FramesPerMinute / FramesPerSecond, rest % FramesPerMinute % FramesPerSecond)
  }

  /** subtract_frames as written: no lower bound. */
  function RawSubtractFrames(t: RawTimecode, n: nat): RawTimecode
  {
    RawFromFrames(RawFrameCount(t) - n)
  }

  function Raw(t: TimecodeValues.TimecodeValue): RawTimecode
  {
    RawTimecode(t.hours, t.minutes, t.seconds, t.frames)
  }

  /** 00:00:59 plus two seconds: the source gives 00:01:-1, one second before the minute,
      where 00:01:01 is meant. This is what makes MIN_GAP_SECONDS = 2 after a clear at
      second 59 give a limit two seconds too early. */
  lemma CarryDefect()
    ensures RawAddSeconds(RawTimecode(0, 0, 59, 0), 2) == Ok(RawTimecode(0, 1, -1, 0))
    ensures RawFrameCount(RawTimecode(0, 1, -1, 0)) == 1770
    ensures TimecodeValues.AddSeconds(TimecodeValues.TimecodeValue(0, 0, 59, 0, false), 2)
            == Ok(TimecodeValues.TimecodeValue(0, 1, 1, 0, false))
    ensures TimecodeValues.FrameCount(TimecodeValues.TimecodeValue(0, 1, 1, 0, false)) == 1830
  {
  }

  /** The source's carry agrees with the corrected one whenever the sum reaches at most 60,
      which covers adding one second. */
  lemma {:induction false} CarryAgreesUpToSixty(t: TimecodeValues.TimecodeValue, n: nat)
    requires t.seconds + n <= 60 && t.minutes < 60
    ensures RawAddSeconds(Raw(t), n).Ok? <==> TimecodeValues.AddSeconds(t, n).Ok?
    ensures RawAddSeconds(Raw(t), n).Ok? ==>
              RawAddSeconds(Raw(t), n).value == Raw(TimecodeValues.AddSeconds(t, n).value)
  {
    if t.seconds + n == 60 {
      var u := t.(seconds := 0);
      assert TimecodeValues.AddSeconds(t, n) == TimecodeValues.AddMinutes(u, 1);
      assert RawAddSeconds(Raw(t), n) == RawAddMinutes(Raw(u), 1);
    }
  }

  /** A caption at 00:00:00:05 moved 16 frames earlier: the source computes -1 hours,
      59 minutes, 59 seconds and 19 frames; the corrected subtraction stops at zero. */
  lemma NegativeDefect()
    ensures RawSubtractFrames(RawTimecode(0, 0, 0, 5), 16) == RawTimecode(-1, 59, 59, 19)
    ensures TimecodeValues.SubtractFrames(TimecodeValues.TimecodeValue(0, 0, 0, 5, false), 16)
            == TimecodeValues.TimecodeValue(0, 0, 0, 0, false)
  {
  }

  /** Without going below zero the two subtractions agree. */
  lemma SubtractAgreesAboveZero(t: TimecodeValues.TimecodeValue, n: nat)
    requires n <= TimecodeValues.FrameCount(t)
    ensures RawSubtractFrames(Raw(t), n) == Raw(TimecodeValues.SubtractFrames(t, n))
  {
  }
}
