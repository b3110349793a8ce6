/** Timecodes as values: hours, minutes, seconds and frames at the logical rate of 30
    frames a second, with the clear-event flag. These are the operations of the mutable
    Timecode class (module Timecodes) taken as functions of the old value; the adjuster
    works on these values because it only ever changes copies. */
module TimecodeValues {
  import opened Results
  import opened Text
  import opened Scc

  datatype TimecodeValue = TimecodeValue(hours: nat, minutes: nat, seconds: nat, frames: nat, isEdm: bool)

  /** Minutes, seconds and frames are in range, as after a conversion from a frame count. */
  predicate Normal(t: TimecodeValue)
  {
    t.minutes < 60 && t.seconds < 60 && t.frames < FramesPerSecond
  }

  /** Every field has at most two digits, so the text form has fixed width. */
  predicate TwoDigits(t: TimecodeValue)
  {
    t.hours < 100 && t.minutes < 100 && t.seconds < 100 && t.frames < 100
  }

  /** Absolute frame count (the source's to_frames). */
  function FrameCount(t: TimecodeValue): nat
  {
    t.hours * FramesPerHour + t.minutes * FramesPerMinute + t.seconds * FramesPerSecond + t.frames
  }

  /** The source's from_frames: all four fields are recomputed from n by floor division
      and remainder, hours first; the clear-event flag is kept. */
  function WithFrameCount(t: TimecodeValue, n: nat): (r: TimecodeValue)
    ensures FrameCount(r) == n
    ensures Normal(r) && r.isEdm == t.isEdm
  {
    var rest := n % FramesPerHour;
    TimecodeValue(n / FramesPerHour, rest / FramesPerMinute,
                  rest % FramesPerMinute / FramesPerSecond, rest % FramesPerMinute % FramesPerSecond,
                  t.isEdm)
  }

  /** Converting to a frame count and back restores all four fields when they are in range. */
  lemma FrameCountRoundTrip(t: TimecodeValue)
    requires Normal(t)
    ensures WithFrameCount(t, FrameCount(t)) == t
  {
    var low := t.seconds * FramesPerSecond + t.frames;
    var rest := t.minutes * FramesPerMinute + low;
    DivModUnique(FrameCount(t), FramesPerHour, t.hours, rest);
    DivModUnique(rest, FramesPerMinute, t.minutes, low);
    DivModUnique(low, FramesPerSecond, t.seconds, t.frames);
  }

  lemma {:induction false} MulAtLeast(k: int, d: int)
    requires k >= 1 && d > 0
    ensures k * d >= d
  {
    if k > 1 {
      MulAtLeast(k - 1, d);
      assert k * d == (k - 1) * d + d;
    }
  }

  /** Quotient and remainder are the only ones with the remainder in range. */
  lemma DivModUnique(n: int, d: int, q: int, r: int)
    requires d > 0 && 0 <= r < d && n == q * d + r
    ensures n / d == q && n % d == r
  {
    var k := q - n / d;
    assert k * d == q * d - (n / d) * d;
    if k >= 1 {
      MulAtLeast(k, d);
    } else if k <= -1 {
      MulAtLeast(-k, d);
    }
  }

  /** A value is fixed by its frame count once its fields are in range. */
  lemma FrameCountInjective(t: TimecodeValue, u: TimecodeValue)
    requires Normal(t) && Normal(u) && t.isEdm == u.isEdm
    ensures FrameCount(t) == FrameCount(u) <==> t == u
  {
    FrameCountRoundTrip(t);
    FrameCountRoundTrip(u);
  }

  function AddFrames(t: TimecodeValue, n: nat): (r: TimecodeValue)
    ensures FrameCount(r) == FrameCount(t) + n
    ensures Normal(r) && r.isEdm == t.isEdm
  {
    WithFrameCount(t, FrameCount(t) + n)
  }

  /** Subtraction stops at 00:00:00:00 (the source lets the count go negative). */
  function SubtractFrames(t: TimecodeValue, n: nat): (r: TimecodeValue)
    ensures FrameCount(r) == if n <= FrameCount(t) then FrameCount(t) - n else 0
    ensures Normal(r) && r.isEdm == t.isEdm
  {
    WithFrameCount(t, if n <= FrameCount(t) then FrameCount(t) - n else 0)
  }

  /** Hours may not pass 99. */
  function AddHours(t: TimecodeValue, n: nat): (r: Result<TimecodeValue>)
    ensures r.Ok? <==> t.hours + n <= 99
    ensures r.Ok? ==> r.value.(hours := t.hours) == t && r.value.hours == t.hours + n
    ensures r.Err? ==> r.error == OverflowError
  {
    if t.hours + n > 99 then Err(OverflowError) else Ok(t.(hours := t.hours + n))
  }

  /** Minutes with the carry into hours (remainder mod 60, carry div 60). */
  function AddMinutes(t: TimecodeValue, n: nat): (r: Result<TimecodeValue>)
    ensures r.Ok? <==> t.minutes + n < 60 || t.hours + (t.minutes + n) / 60 <= 99
    ensures r.Ok? ==> FrameCount(r.value) == FrameCount(t) + n * FramesPerMinute
    ensures r.Ok? ==> r.value.seconds == t.seconds && r.value.frames == t.frames && r.value.isEdm == t.isEdm
    ensures r.Ok? && t.minutes < 60 ==> r.value.minutes < 60
    ensures t.minutes + n < 60 ==> r == Ok(t.(minutes := t.minutes + n))
    ensures r.Err? ==> r.error == OverflowError
  {
    var m := t.minutes + n;
    if m >= 60 then AddHours(t.(minutes := m % 60), m / 60) else Ok(t.(minutes := m))
  }

  /** Seconds with the carry into minutes and hours (remainder mod 60, carry div 60).
      The source computes the remainder as 60 - value instead; see module AsWritten. */
  function AddSeconds(t: TimecodeValue, n: nat): (r: Result<TimecodeValue>)
    ensures r.Ok? <==> t.seconds + n < 60 || t.minutes + (t.seconds + n) / 60 < 60
                       || t.hours + (t.minutes + (t.seconds + n) / 60) / 60 <= 99
    ensures r.Ok? ==> FrameCount(r.value) == FrameCount(t) + n * FramesPerSecond
    ensures r.Ok? ==> r.value.frames == t.frames && r.value.isEdm == t.isEdm
    ensures r.Ok? && Normal(t) ==> Normal(r.value)
    ensures t.seconds + n < 60 ==> r == Ok(t.(seconds := t.seconds + n))
    ensures r.Err? ==> r.error == OverflowError
  {
    var s := t.seconds + n;
    if s >= 60 then AddMinutes(t.(seconds := s % 60), s / 60) else Ok(t.(seconds := s))
  }

  /** The fields in the order they are printed. */
  function Fields(t: TimecodeValue): seq<nat>
  {
    [t.hours, t.minutes, t.seconds, t.frames]
  }

  /** Each value zero-padded to two digits and followed by the separator. */
  function Joined(vs: seq<nat>): (r: string)
    ensures |r| >= 3 * |vs|
  {
    if |vs| == 0 then "" else Joined(vs[..|vs| - 1]) + Pad2(vs[|vs| - 1]) + [Delim]
  }

  /** The source's to_string: the joined fields, ';' written at index 8 in drop-frame
      mode, and the trailing separator dropped. */
  function Format(t: TimecodeValue): string
  {
    var raw := Joined(Fields(t));
    var marked := if DropFrame then raw[8 := ';'] else raw;
    marked[..|marked| - 1]
  }

  /** int(s[i:i + 2]): one two-character field read as a number. */
  function ParseField(s: string, i: nat): Option<nat>
  {
    ParseNatural(Slice(s, i, i + 2))
  }

  /** The source's from_string: the four fields are read from the slices [0:2], [3:5],
      [6:8] and [9:11]; the characters between them are never looked at. */
  function ParseTimecode(s: string, isEdm: bool): Result<TimecodeValue>
  {
    var h := ParseField(s, 0);
    var m := ParseField(s, 3);
    var sec := ParseField(s, 6);
    var f := ParseField(s, 9);
    if h.Some? && m.Some? && sec.Some? && f.Some?
    then Ok(TimecodeValue(h.value, m.value, sec.value, f.value, isEdm))
    else Err(TimecodeSyntaxError)
  }

  lemma JoinedSnoc(vs: seq<nat>, v: nat)
    ensures Joined(vs + [v]) == Joined(vs) + Pad2(v) + [Delim]
  {
    assert (vs + [v])[..|vs|] == vs;
  }

  /** The unmarked text of the four fields: each padded and followed by the separator. */
  lemma JoinedFields(t: TimecodeValue)
    ensures Joined(Fields(t)) == Pad2(t.hours) + [Delim] + Pad2(t.minutes) + [Delim]
                                 + Pad2(t.seconds) + [Delim] + Pad2(t.frames) + [Delim]
  {
    var h, m, sec, f := t.hours, t.minutes, t.seconds, t.frames;
    JoinedSnoc([], h);
    assert [] + [h] == [h];
    assert Joined([h]) == Pad2(h) + [Delim];
    JoinedSnoc([h], m);
    assert [h] + [m] == [h, m];
    JoinedSnoc([h, m], sec);
    assert [h, m] + [sec] == [h, m, sec];
    JoinedSnoc([h, m, sec], f);
    assert [h, m, sec] + [f] == Fields(t);
  }

  /** The text form of a value whose fields have two digits: eleven characters, each field
      zero-padded in place, ':' after hours and minutes and ';' (drop-frame mode) or ':'
      before the frames. */
  lemma FormatShape(t: TimecodeValue)
    requires TwoDigits(t)
    ensures |Format(t)| == 11
    ensures Format(t)[0..2] == Pad2(t.hours) && Format(t)[3..5] == Pad2(t.minutes)
    ensures Format(t)[6..8] == Pad2(t.seconds) && Format(t)[9..11] == Pad2(t.frames)
    ensures Format(t)[2] == ':' && Format(t)[5] == ':'
    ensures Format(t)[8] == if DropFrame then ';' else ':'
  {
    JoinedFields(t);
    var p0, p1, p2, p3 := Pad2(t.hours), Pad2(t.minutes), Pad2(t.seconds), Pad2(t.frames);
    var raw := p0 + [Delim] + p1 + [Delim] + p2 + [Delim] + p3 + [Delim];
    assert |raw| == 12;
    var f := Format(t);
    assert f == raw[8 := ';'][..11];
    assert f[0..2] == raw[0..2] == p0;
    assert f[3..5] == raw[3..5] == p1;
    assert f[6..8] == raw[6..8] == p2;
    assert f[9..11] == raw[9..11] == p3;
  }

  /** Formatting and reading back restores every value whose fields have two digits. */
  lemma ParseFormat(t: TimecodeValue)
    requires TwoDigits(t)
    ensures ParseTimecode(Format(t), t.isEdm) == Ok(t)
  {
    FormatShape(t);
    var f := Format(t);
    assert Slice(f, 0, 2) == Pad2(t.hours);
    assert Slice(f, 3, 5) == Pad2(t.minutes);
    assert Slice(f, 6, 8) == Pad2(t.seconds);
    assert Slice(f, 9, 11) == Pad2(t.frames);
    Pad2Value(t.hours);
    Pad2Value(t.minutes);
    Pad2Value(t.seconds);
    Pad2Value(t.frames);
  }

  /** The separators and anything after the eleventh character do not change what is read. */
  lemma ParseIgnoresSeparators(s: string, a: char, b: char, c: char, tail: string, isEdm: bool)
    requires |s| == 11
    ensures ParseTimecode(s[2 := a][5 := b][8 := c] + tail, isEdm) == ParseTimecode(s, isEdm)
  {
    var s' := s[2 := a][5 := b][8 := c] + tail;
    assert Slice(s', 0, 2) == Slice(s, 0, 2);
    assert Slice(s', 3, 5) == Slice(s, 3, 5);
    assert Slice(s', 6, 8) == Slice(s, 6, 8);
    assert Slice(s', 9, 11) == Slice(s, 9, 11);
  }

  /** Only the first eleven characters are read. */
  lemma ParseReadsPrefix(s: string, tail: string, isEdm: bool)
    requires |s| >= 11
    ensures ParseTimecode(s + tail, isEdm) == ParseTimecode(s, isEdm)
  {
    var s' := s + tail;
    assert Slice(s', 0, 2) == Slice(s, 0, 2);
    assert Slice(s', 3, 5) == Slice(s, 3, 5);
    assert Slice(s', 6, 8) == Slice(s, 6, 8);
    assert Slice(s', 9, 11) == Slice(s, 9, 11);
  }

  /** A rewritten line reads back as the timecode written into it, whatever follows. */
  lemma ParseFormatThenTail(t: TimecodeValue, tail: string)
    requires TwoDigits(t)
    ensures ParseTimecode(Format(t) + tail, t.isEdm) == Ok(t)
  {
    FormatShape(t);
    ParseReadsPrefix(Format(t), tail, t.isEdm);
    ParseFormat(t);
  }
}
