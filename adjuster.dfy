/** The re-timing rule. A pop-on caption is shown only once the decoder has loaded it, and
    loading takes longer the more characters the caption has, so each caption's timecode is
    moved earlier by an estimate of its load time. The move is limited so that the previous
    caption stays up long enough; right after a clear (EDM) event whose gap would become too
    short, the clear is dropped instead and the caption takes its place. */
module Adjuster {
  import opened Results
  import opened Scc
  import opened Text
  import opened TimecodeValues

  /** buffer_load_frames: ceil(0.8 * charCount), the least whole number of frames not below
      4/5 of the character count. */
  function BufferLoadFrames(charCount: nat): (r: nat)
    ensures r * BufferFramesPerCharDen >= charCount * BufferFramesPerCharNum
    ensures r == 0 || (r - 1) * BufferFramesPerCharDen < charCount * BufferFramesPerCharNum
  {
    (charCount * BufferFramesPerCharNum + BufferFramesPerCharDen - 1) / BufferFramesPerCharDen
  }

  /** More characters never take less time to load; no characters take none. */
  lemma BufferLoadMonotone(a: nat, b: nat)
    requires a <= b
    ensures BufferLoadFrames(a) <= BufferLoadFrames(b)
    ensures BufferLoadFrames(0) == 0
  {
  }

  /** What adjust_timecode returns: the adjusted timecode, how far it actually moved, and whether
      the previous (clear) line must be taken back. */
  datatype Adjustment = Adjustment(timecode: TimecodeValue, actualChange: nat, removePrev: bool)

  /** The clear-event rule applies: removal is allowed and the previous event is a clear. */
  predicate ClearRule(prev: TimecodeValue)
  {
    AllowEdmRemoval && prev.isEdm
  }

  /** The earliest time the next caption may start after prev: two seconds after a clear;
      otherwise one second, plus half a second if the previous caption was a large one. */
  function Limit(prev: TimecodeValue, prevCharCount: nat): Result<TimecodeValue>
  {
    if ClearRule(prev) then AddSeconds(prev, MinGapSeconds)
    else
      match AddSeconds(prev, MinCaptionSeconds)
      case Err(e) => Err(e)
      case Ok(l) => Ok(if prevCharCount >= MaxSubtitleLineChars then AddFrames(l, LargeCaptionExtraLimitFrames) else l)
  }

  /** How many frames earlier the adjusted timecode is than the nominal one, never negative. */
  function Shift(nominal: TimecodeValue, adjusted: TimecodeValue): nat
  {
    if FrameCount(adjusted) <= FrameCount(nominal) then FrameCount(nominal) - FrameCount(adjusted) else 0
  }

  /** adjust_timecode. prev is the last kept event, nominal the caption's own timecode,
      bufferTime its load estimate and prevCharCount the previous caption's characters. */
  function AdjustTimecode(prev: Option<TimecodeValue>, nominal: TimecodeValue, bufferTime: nat, prevCharCount: nat)
    : (r: Result<Adjustment>)
    ensures r.Err? ==> prev.Some? && r.error == OverflowError
    ensures r.Ok? ==> (r.value.actualChange ==
              if FrameCount(r.value.timecode) <= FrameCount(nominal) then FrameCount(nominal) - FrameCount(r.value.timecode) else 0)
    ensures r.Ok? && r.value.removePrev ==> prev.Some? && ClearRule(prev.value) && r.value.timecode == prev.value
  {
    var candidate := SubtractFrames(nominal, bufferTime);
    match prev
    case None => Ok(Adjustment(candidate, Shift(nominal, candidate), false))
    case Some(p) =>
      match Limit(p, prevCharCount)
      case Err(e) => Err(e)
      case Ok(limit) =>
        if FrameCount(candidate) < FrameCount(limit) then
          if ClearRule(p) then Ok(Adjustment(p, Shift(nominal, p), true))
          else Ok(Adjustment(limit, Shift(nominal, limit), false))
        else Ok(Adjustment(candidate, Shift(nominal, candidate), false))
  }

  /** The first caption of a file is moved by its whole load time, down to zero at most. */
  lemma AdjustFirst(nominal: TimecodeValue, bufferTime: nat, prevCharCount: nat)
    ensures AdjustTimecode(None, nominal, bufferTime, prevCharCount)
            == Ok(Adjustment(SubtractFrames(nominal, bufferTime),
                             if bufferTime <= FrameCount(nominal) then bufferTime else FrameCount(nominal), false))
  {
  }

  /** After a caption: the result is the later of the moved timecode and the limit one
      second (plus 15 frames after a large caption) after the previous caption; nothing is
      removed. Only an hour overflow in the limit fails. */
  lemma AdjustAfterCaption(p: TimecodeValue, nominal: TimecodeValue, bufferTime: nat, prevCharCount: nat)
    requires !p.isEdm
    ensures AdjustTimecode(Some(p), nominal, bufferTime, prevCharCount).Ok? <==> AddSeconds(p, MinCaptionSeconds).Ok?
    ensures var r := AdjustTimecode(Some(p), nominal, bufferTime, prevCharCount);
            var low := FrameCount(p) + MinCaptionSeconds * FramesPerSecond
                       + (if prevCharCount >= MaxSubtitleLineChars then LargeCaptionExtraLimitFrames else 0);
            var moved := FrameCount(SubtractFrames(nominal, bufferTime));
            r.Ok? ==> !r.value.removePrev &&
                      FrameCount(r.value.timecode) == (if moved < low then low else moved)
  {
  }

  /** After a clear: if the moved timecode comes less than two seconds after the clear, the
      clear is removed and the caption takes the clear's own timecode (flag included);
      otherwise the moved timecode is kept as it is. */
  lemma AdjustAfterClear(p: TimecodeValue, nominal: TimecodeValue, bufferTime: nat, prevCharCount: nat)
    requires p.isEdm
    ensures AdjustTimecode(Some(p), nominal, bufferTime, prevCharCount).Ok? <==> AddSeconds(p, MinGapSeconds).Ok?
    ensures var r := AdjustTimecode(Some(p), nominal, bufferTime, prevCharCount);
            var candidate := SubtractFrames(nominal, bufferTime);
            r.Ok? ==> if FrameCount(candidate) < FrameCount(p) + MinGapSeconds * FramesPerSecond
                      then r.value.timecode == p && r.value.removePrev
                      else r.value.timecode == candidate && !r.value.removePrev
  {
  }

  /** The caption moves by at most its load time, unless it replaces a removed clear, which
      can pull it up to two seconds further. */
  lemma ShiftBound(prev: Option<TimecodeValue>, nominal: TimecodeValue, bufferTime: nat, prevCharCount: nat)
    ensures var r := AdjustTimecode(prev, nominal, bufferTime, prevCharCount);
            r.Ok? ==> (!r.value.removePrev ==> r.value.actualChange <= bufferTime) &&
                      (r.value.removePrev ==> r.value.actualChange < bufferTime + MinGapSeconds * FramesPerSecond)
  {
  }

  /** A clear at 00:00:10;00 and a caption moved to 00:00:11;10: the clear is removed and
      the caption starts at 00:00:10;00. */
  lemma ClearRemovalExample()
    ensures var clear := TimecodeValue(0, 0, 10, 0, true);
            AdjustTimecode(Some(clear), TimecodeValue(0, 0, 11, 10, false), 0, 0)
            == Ok(Adjustment(clear, 40, true))
  {
  }

  /** A 10-character caption at 00:00:10;00 and the next one moved to 00:00:10;20: the next
      one is held back to 00:00:11;00. */
  lemma ClampExample()
    ensures AdjustTimecode(Some(TimecodeValue(0, 0, 10, 0, false)), TimecodeValue(0, 0, 10, 20, false), 0, 10)
            == Ok(Adjustment(TimecodeValue(0, 0, 11, 0, false), 0, false))
  {
  }

  /** A 32-character previous caption has a limit 15 frames later than a 31-character one. */
  lemma LargeCaptionHeadroom(p: TimecodeValue)
    requires !p.isEdm && AddSeconds(p, MinCaptionSeconds).Ok?
    ensures Limit(p, 31).Ok? && Limit(p, 32).Ok?
    ensures FrameCount(Limit(p, 32).value) == FrameCount(Limit(p, 31).value) + 15
  {
  }

  /** update_timecode: the adjusted timecode text followed by the line from index 11 on. */
  function UpdateTimecode(line: string, t: TimecodeValue): string
  {
    Format(t) + Tail(line, 11)
  }

  /** The rewrite replaces exactly the first eleven characters of a line: a timecode with
      two-digit fields goes there and the rest of the line is kept from index 11 on. */
  lemma UpdateTimecodeShape(line: string, t: TimecodeValue)
    requires TwoDigits(t)
    ensures |UpdateTimecode(line, t)| == 11 + |Tail(line, 11)|
    ensures UpdateTimecode(line, t)[..11] == Format(t)
    ensures UpdateTimecode(line, t)[11..] == Tail(line, 11)
    ensures |line| >= 11 ==> (|UpdateTimecode(line, t)| == |line| &&
              forall k :: 11 <= k < |line| ==> UpdateTimecode(line, t)[k] == line[k])
  {
    FormatShape(t);
  }
}
