/** The source's mutable Timecode object. Its methods overwrite the four fields in place;
    each is proved to leave exactly the value the matching function of TimecodeValues
    computes from the old value. */
module Timecodes {
  import opened Results
  import opened Scc
  import opened Text
  import TimecodeValues

  class Timecode {
    var hours: nat
    var minutes: nat
    var seconds: nat
    var frames: nat
    /** Set when the object is made and never changed: a clear event's timecode. */
    const isEdm: bool

    function Value(): TimecodeValues.TimecodeValue
      reads this
    {
      TimecodeValues.TimecodeValue(hours, minutes, seconds, frames, isEdm)
    }

    /** The source's Timecode(None, is_edm): all fields zero. */
    constructor (isEdm: bool)
      ensures Value() == TimecodeValues.TimecodeValue(0, 0, 0, 0, isEdm)
    {
      hours, minutes, seconds, frames := 0, 0, 0, 0;
      this.isEdm := isEdm;
    }

    /** copy.copy: a new object with the same fields. */
    method Copy() returns (c: Timecode)
      ensures fresh(c) && c.Value() == Value()
    {
      c := new Timecode(isEdm);
      c.hours, c.minutes, c.seconds, c.frames := hours, minutes, seconds, frames;
    }

    /** from_string: reads the four two-character fields in turn, each overwriting its
        field. A field that is not a number stops it with the error; the fields read before
        it have already been overwritten. */
    method FromString(s: string) returns (r: Outcome)
      modifies this
      ensures r.Pass? <==> TimecodeValues.ParseTimecode(s, isEdm).Ok?
      ensures r.Pass? ==> Value() == TimecodeValues.ParseTimecode(s, isEdm).value
      ensures r.Fail? ==> r.error == TimecodeSyntaxError
    {
      var h := TimecodeValues.ParseField(s, 0);
      if h.None? {
        return Fail(TimecodeSyntaxError);
      }
      hours := h.value;
      var m := TimecodeValues.ParseField(s, 3);
      if m.None? {
        return Fail(TimecodeSyntaxError);
      }
      minutes := m.value;
      var sec := TimecodeValues.ParseField(s, 6);
      if sec.None? {
        return Fail(TimecodeSyntaxError);
      }
      seconds := sec.value;
      var f := TimecodeValues.ParseField(s, 9);
      if f.None? {
        return Fail(TimecodeSyntaxError);
      }
      frames := f.value;
      r := Pass;
    }

    /** to_string: the padded fields are appended one by one, each with a ':' after it;
        then index 8 becomes ';' in drop-frame mode and the last ':' is dropped. */
    method ToString() returns (s: string)
      ensures s == TimecodeValues.Format(Value())
    {
      var chunks := [hours, minutes, seconds, frames];
      assert chunks == TimecodeValues.Fields(Value());
      var str := "";
      for i := 0 to 4
        invariant str == TimecodeValues.Joined(chunks[..i])
      {
        assert chunks[..i + 1][..i] == chunks[..i];
        str := str + Pad2(chunks[i]) + [Delim];
      }
      assert chunks[..4] == chunks;
      if DropFrame {
        str := str[8 := ';'];
      }
      s := str[..|str| - 1];
    }

    function ToFrames(): nat
      reads this
    {
      TimecodeValues.FrameCount(Value())
    }

    /** from_frames: hours, minutes, seconds and frames by successive floor division and
        remainder of the running count. */
    method FromFrames(n: nat)
      modifies this
      ensures Value() == TimecodeValues.WithFrameCount(old(Value()), n)
    {
      var rest := n;
      hours := rest / FramesPerHour;
      rest := rest % FramesPerHour;
      minutes := rest / FramesPerMinute;
      rest := rest % FramesPerMinute;
      seconds := rest / FramesPerSecond;
      rest := rest % FramesPerSecond;
      frames := rest;
    }

    /** add_hours: fails once hours pass 99 (the source calls exit() after the update). */
    method AddHours(n: nat) returns (r: Outcome)
      modifies this
      ensures r.Pass? <==> TimecodeValues.AddHours(old(Value()), n).Ok?
      ensures r.Pass? ==> Value() == TimecodeValues.AddHours(old(Value()), n).value
      ensures r.Fail? ==> r.error == OverflowError
    {
      hours := hours + n;
      r := if hours > 99 then Fail(OverflowError) else Pass;
    }

    /** add_minutes, with the remainder mod 60 kept and the carry div 60 added to hours. */
    method AddMinutes(n: nat) returns (r: Outcome)
      modifies this
      ensures r.Pass? <==> TimecodeValues.AddMinutes(old(Value()), n).Ok?
      ensures r.Pass? ==> Value() == TimecodeValues.AddMinutes(old(Value()), n).value
      ensures r.Fail? ==> r.error == OverflowError
    {
      minutes := minutes + n;
      if minutes >= 60 {
        var carry := minutes / 60;
        minutes := minutes % 60;
        r := AddHours(carry);
      } else {
        r := Pass;
      }
    }

    /** add_seconds, with the remainder mod 60 kept and the carry div 60 added to minutes. */
    method AddSeconds(n: nat) returns (r: Outcome)
      modifies this
      ensures r.Pass? <==> TimecodeValues.AddSeconds(old(Value()), n).Ok?
      ensures r.Pass? ==> Value() == TimecodeValues.AddSeconds(old(Value()), n).value
      ensures r.Fail? ==> r.error == OverflowError
    {
      seconds := seconds + n;
      if seconds >= 60 {
        var carry := seconds / 60;
        seconds := seconds % 60;
        r := AddMinutes(carry);
      } else {
        r := Pass;
      }
    }

    /** subtract_frames, stopping at zero. */
    method SubtractFrames(n: nat)
      modifies this
      ensures Value() == TimecodeValues.SubtractFrames(old(Value()), n)
    {
      var total := if n <= ToFrames() then ToFrames() - n else 0;
      FromFrames(total);
    }

    method AddFrames(n: nat)
      modifies this
      ensures Value() == TimecodeValues.AddFrames(old(Value()), n)
    {
      var total := ToFrames() + n;
      FromFrames(total);
    }
  }
}
