/** The per-line pass of adjust_timecodes. Each line of the caption file is classified; the
    header, blank lines and lines without commands are copied; a clear (EDM) line is copied
    with its timecode rewritten in the output format; a caption line gets its adjusted
    timecode. The pass carries the last kept event's timecode, its character count and the
    output position where its line starts, so that a clear that is removed can be cut off
    the output again. Output is a sequence of lines: cutting back to a recorded length
    plays the part of the source's seek and truncate. */
module Driver {
  import opened Results
  import opened Scc
  import opened Text
  import opened TimecodeValues
  import Timecodes
  import CaptionParser
  import opened Adjuster

  /** How the pass treats one line. Lines are taken as read, with their line terminator. */
  datatype LineKind =
    | PassThrough                                        // header, blank, or no command tokens
    | Clear(timecodeText: string)                        // first command is EDM
    | Caption(timecodeText: string, tokens: seq<string>) // anything else with command tokens

  function Classify(line: string): LineKind
  {
    if Strip(line) in FileHeader then PassThrough
    else
      var tokens := Split(ReplaceTabs(line));
      if |tokens| == 1 then PassThrough
      else if Strip(tokens[1]) == Edm then Clear(tokens[0])
      else Caption(tokens[0], tokens[1..])
  }

  /** A line is passed through exactly when it is the header or holds no space or tab. */
  lemma ClassifyPassThrough(line: string)
    ensures Classify(line) == PassThrough <==>
              Strip(line) in FileHeader || forall k :: 0 <= k < |line| ==> line[k] != ' ' && line[k] != '\t'
  {
    SplitOnePiece(ReplaceTabs(line));
  }

  lemma {:induction false} SplitOnePiece(s: string)
    ensures |Split(s)| == 1 <==> forall k :: 0 <= k < |s| ==> s[k] != ' '
  {
    if |s| > 0 {
      SplitOnePiece(s[1..]);
      assert forall k :: 1 <= k < |s| ==> s[k] == s[1..][k - 1];
    }
  }

  /** The state carried from line to line (prev_timecode, prev_filepos, prev_char_count and
      the list of removed clears), with the output written so far. */
  datatype DriverState = DriverState(
    output: seq<string>,
    prevTimecode: Option<TimecodeValue>,
    prevFilepos: nat,
    prevCharCount: nat,
    removed: seq<TimecodeValue>)

  const Initial: DriverState := DriverState([], None, 0, 0, [])

  /** The recorded position is inside the output, at the line of the last kept event, and
      everything written after that line was passed through unchanged. */
  predicate Valid(st: DriverState)
  {
    && st.prevFilepos <= |st.output|
    && (st.prevTimecode.None? ==> st.prevFilepos == 0 && |st.removed| == 0 &&
                                  forall k :: 0 <= k < |st.output| ==> Classify(st.output[k]) == PassThrough)
    && (st.prevTimecode.Some? ==> st.prevFilepos < |st.output| &&
                                  forall k :: st.prevFilepos < k < |st.output| ==> Classify(st.output[k]) == PassThrough)
  }

  /** Writing a line that carries a timecode: it becomes the last kept event. */
  function Record(st: DriverState, t: TimecodeValue, line: string, charCount: nat): (r: DriverState)
    ensures Valid(r)
  {
    DriverState(st.output + [UpdateTimecode(line, t)], Some(t), |st.output|, charCount, st.removed)
  }

  /** The work the pass does for one line. */
  function Step(st: DriverState, line: string): (r: Result<DriverState>)
    requires Valid(st)
    ensures r.Ok? ==> Valid(r.value) && |r.value.output| > 0
  {
    StepAs(st, line, Classify(line))
  }

  /** The work for a line of the given kind. */
  function StepAs(st: DriverState, line: string, kind: LineKind): (r: Result<DriverState>)
    requires Valid(st)
    requires kind.PassThrough? ==> Classify(line).PassThrough?
    ensures r.Ok? ==> Valid(r.value) && |r.value.output| > 0
  {
    match kind
    case PassThrough => Ok(st.(output := st.output + [line]))
    case Clear(text) =>
      (match ParseTimecode(text, true)
       case Err(e) => Err(e)
       case Ok(t) => Ok(Record(st, t, line, 0)))
    case Caption(text, tokens) =>
      CaptionOutcome(st, line, AdjustCaption(st.prevTimecode, st.prevCharCount, text, tokens))
  }

  /** A caption line once adjusted: the previous clear's lines are cut off if it is removed,
      then the line is written with its new timecode. */
  function CaptionOutcome(st: DriverState, line: string, adjusted: Result<(Adjustment, nat)>): (r: Result<DriverState>)
    requires Valid(st)
    requires adjusted.Ok? && adjusted.value.0.removePrev ==> st.prevTimecode.Some?
    ensures r.Ok? ==> Valid(r.value) && |r.value.output| > 0
  {
    match adjusted
    case Err(e) => Err(e)
    case Ok((a, charCount)) =>
      var kept := if a.removePrev
                  then st.(output := st.output[..st.prevFilepos], removed := st.removed + [st.prevTimecode.value])
                  else st;
      Ok(Record(kept, a.timecode, line, charCount))
  }

  /** A caption line's own work: count its characters, read its timecode and adjust it
      against the carried previous event and the previous caption's character count. */
  function AdjustCaption(prevTimecode: Option<TimecodeValue>, prevCharCount: nat, text: string, tokens: seq<string>)
    : (r: Result<(Adjustment, nat)>)
    ensures r.Ok? && r.value.0.removePrev ==>
              prevTimecode.Some? && prevTimecode.value.isEdm && r.value.0.timecode == prevTimecode.value
  {
    match CaptionParser.CaptionChars(tokens)
    case Err(e) => Err(e)
    case Ok(charCount) =>
      match ParseTimecode(text, false)
      case Err(e) => Err(e)
      case Ok(nominal) =>
        match AdjustTimecode(prevTimecode, nominal, BufferLoadFrames(charCount), prevCharCount)
        case Err(e) => Err(e)
        case Ok(a) => Ok((a, charCount))
  }

  /** Reads a timecode through the mutable Timecode object, as the source does. */
  method ReadTimecode(text: string, isEdm: bool) returns (r: Result<TimecodeValue>)
    ensures r == ParseTimecode(text, isEdm)
  {
    var t := new Timecodes.Timecode(isEdm);
    var parsed := t.FromString(text);
    if parsed.Fail? {
      return Err(parsed.error);
    }
    return Ok(t.Value());
  }

  /** The caption branch of the loop body. */
  method CaptionStep(prevTimecode: Option<TimecodeValue>, prevCharCount: nat, text: string, tokens: seq<string>)
    returns (r: Result<(Adjustment, nat)>)
    ensures r == AdjustCaption(prevTimecode, prevCharCount, text, tokens)
  {
    var counted := CaptionParser.ParseCaption(tokens);
    if counted.Err? {
      return Err(counted.error);
    }
    var charCount := counted.value;
    var bufferTime := BufferLoadFrames(charCount);
    var nominal := ReadTimecode(text, false);
    if nominal.Err? {
      return Err(nominal.error);
    }
    var adjusted := AdjustTimecode(prevTimecode, nominal.value, bufferTime, prevCharCount);
    if adjusted.Err? {
      return Err(adjusted.error);
    }
    return Ok((adjusted.value, charCount));
  }

  /** The pass over the first lines, stopping at the first error. */
  function Run(lines: seq<string>): (r: Result<DriverState>)
    ensures r.Ok? ==> Valid(r.value)
  {
    if |lines| == 0 then Ok(Initial)
    else
      match Run(lines[..|lines| - 1])
      case Err(e) => Err(e)
      case Ok(st) => Step(st, lines[|lines| - 1])
  }

  /** An error ends the pass: every longer input fails with the same error. */
  lemma {:induction false} RunErrorStays(lines: seq<string>, i: nat)
    requires i <= |lines| && Run(lines[..i]).Err?
    ensures Run(lines) == Run(lines[..i])
    decreases |lines| - i
  {
    if i < |lines| {
      assert lines[..i + 1][..i] == lines[..i];
      RunErrorStays(lines, i + 1);
    } else {
      assert lines[..i] == lines;
    }
  }

  /** What adjust_timecodes hands back: the output lines and the removed clear timecodes. */
  datatype Processed = Processed(output: seq<string>, removed: seq<TimecodeValue>)

  function Finish(r: Result<DriverState>): Result<Processed>
  {
    match r
    case Err(e) => Err(e)
    case Ok(st) => Ok(Processed(st.output, st.removed))
  }

  /** The loop body of adjust_timecodes for one line. */
  method StepLine(st: DriverState, line: string) returns (r: Result<DriverState>)
    requires Valid(st)
    ensures r == Step(st, line)
  {
    var kind := Classify(line);
    match kind {
      case PassThrough =>
        r := Ok(st.(output := st.output + [line]));
      case Clear(timecodeStr) =>
        var clear := ReadTimecode(timecodeStr, true);
        if clear.Err? {
          return Err(clear.error);
        }
        r := Ok(Record(st, clear.value, line, 0));
      case Caption(timecodeStr, capTokens) =>
        var adjusted := CaptionStep(st.prevTimecode, st.prevCharCount, timecodeStr, capTokens);
        assert Step(st, line) == CaptionOutcome(st, line, adjusted);
        if adjusted.Err? {
          return Err(adjusted.error);
        }
        var (a, charCount) := adjusted.value;
        var kept := st;
        if a.removePrev {
          kept := kept.(output := kept.output[..kept.prevFilepos], removed := kept.removed + [kept.prevTimecode.value]);
        }
        r := Ok(Record(kept, a.timecode, line, charCount));
    }
  }

  /** adjust_timecodes: one pass over the lines, carrying the state from line to line. */
  method AdjustTimecodes(lines: seq<string>) returns (r: Result<Processed>)
    ensures r == Finish(Run(lines))
  {
    var st := Initial;
    assert lines[..0] == [];
    for i := 0 to |lines|
      invariant Run(lines[..i]) == Ok(st)
    {
      assert lines[..i + 1][..i] == lines[..i];
      var next := StepLine(st, lines[i]);
      if next.Err? {
        RunErrorStays(lines, i + 1);
        return Err(next.error);
      }
      st := next.value;
    }
    assert lines[..|lines|] == lines;
    return Ok(Processed(st.output, st.removed));
  }

  /** Header, blank and command-less lines are written unchanged and leave the carried
      state alone. */
  lemma PassThroughStep(st: DriverState, line: string)
    requires Valid(st) && Classify(line) == PassThrough
    ensures Step(st, line) == Ok(st.(output := st.output + [line]))
  {
  }

  /** A clear line is written with its own timecode: the carried timecode becomes the
      clear's (flagged as a clear), its character count 0, and a line with two-digit fields
      reads back as the same timecode. */
  lemma ClearStep(st: DriverState, line: string, text: string)
    requires Valid(st) && Classify(line) == Clear(text)
    ensures Step(st, line).Ok? <==> ParseTimecode(text, true).Ok?
    ensures Step(st, line).Ok? ==>
              var t := ParseTimecode(text, true).value;
              var st' := Step(st, line).value;
              && t.isEdm
              && st'.prevTimecode == Some(t) && st'.prevCharCount == 0 && st'.removed == st.removed
              && st'.output == st.output + [UpdateTimecode(line, t)]
              && (TwoDigits(t) ==> ParseTimecode(st'.output[|st'.output| - 1], true) == Ok(t))
  {
    assert Step(st, line) == StepAs(st, line, Clear(text));
    if ParseTimecode(text, true).Ok? {
      var t := ParseTimecode(text, true).value;
      var st' := Record(st, t, line, 0);
      assert Step(st, line) == Ok(st');
      assert st'.output[|st'.output| - 1] == UpdateTimecode(line, t);
      if TwoDigits(t) {
        ParseFormatThenTail(t, Tail(line, 11));
      }
    }
  }

  /** Each line adds one line to the output. Earlier output is cut only when a caption takes
      the place of a clear: then exactly the lines from the last kept event's line on are
      dropped (that line and the passed-through lines after it), the clear's timecode joins
      the removed list, and the caption carries that same timecode on, clear flag included. */
  lemma StepOutput(st: DriverState, line: string)
    requires Valid(st) && Step(st, line).Ok?
    ensures var st' := Step(st, line).value;
            || (st'.removed == st.removed && st'.output[..|st'.output| - 1] == st.output)
            || (&& Classify(line).Caption?
                && st.prevTimecode.Some? && st.prevTimecode.value.isEdm
                && st'.removed == st.removed + [st.prevTimecode.value]
                && st'.output[..|st'.output| - 1] == st.output[..st.prevFilepos]
                && st'.prevTimecode == st.prevTimecode)
  {
    var kind := Classify(line);
    assert Step(st, line) == StepAs(st, line, kind);
    match kind
    case PassThrough =>
    case Clear(text) =>
    case Caption(text, tokens) =>
      var adj := AdjustCaption(st.prevTimecode, st.prevCharCount, text, tokens);
      assert Step(st, line) == CaptionOutcome(st, line, adj);
      CaptionOutcomeOutput(st, line, adj);
  }

  lemma CaptionOutcomeOutput(st: DriverState, line: string, adj: Result<(Adjustment, nat)>)
    requires Valid(st) && adj.Ok?
    requires adj.value.0.removePrev ==> st.prevTimecode.Some? && st.prevTimecode.value.isEdm
    requires adj.value.0.removePrev ==> adj.value.0.timecode == st.prevTimecode.value
    ensures var st' := CaptionOutcome(st, line, adj).value;
            || (st'.removed == st.removed && st'.output[..|st'.output| - 1] == st.output)
            || (&& st.prevTimecode.Some? && st.prevTimecode.value.isEdm
                && st'.removed == st.removed + [st.prevTimecode.value]
                && st'.output[..|st'.output| - 1] == st.output[..st.prevFilepos]
                && st'.prevTimecode == st.prevTimecode)
  {
    var st' := CaptionOutcome(st, line, adj).value;
    if adj.value.0.removePrev {
      assert st'.output == st.output[..st.prevFilepos] + [UpdateTimecode(line, adj.value.0.timecode)];
    } else {
      assert st'.output == st.output + [UpdateTimecode(line, adj.value.0.timecode)];
    }
  }

  /** A caption that removes nothing is appended with its adjusted timecode; it becomes the
      carried event, its line starts where the output ended, and its own character count is
      the one the next caption is adjusted against. */
  lemma CaptionStepState(st: DriverState, line: string, text: string, tokens: seq<string>, a: Adjustment, c: nat)
    requires Valid(st) && Classify(line) == Caption(text, tokens)
    requires AdjustCaption(st.prevTimecode, st.prevCharCount, text, tokens) == Ok((a, c)) && !a.removePrev
    ensures Step(st, line) == Ok(DriverState(st.output + [UpdateTimecode(line, a.timecode)], Some(a.timecode),
                                             |st.output|, c, st.removed))
  {
    assert Step(st, line) == StepAs(st, line, Caption(text, tokens));
  }

  /** The spacing kept between events: after a caption, the next caption starts at least
      one second later (one and a half after a large caption); after a clear, at least two
      seconds later unless it takes the clear's place. The previous caption's character
      count, carried in the state, is what decides the extra half second. */
  lemma CaptionSpacing(st: DriverState, line: string, p: TimecodeValue)
    requires Valid(st) && Classify(line).Caption? && Step(st, line).Ok? && st.prevTimecode == Some(p)
    ensures var next := Step(st, line).value.prevTimecode;
            && next.Some?
            && (!p.isEdm ==> FrameCount(next.value) >= FrameCount(p) + MinCaptionSeconds * FramesPerSecond
                               + (if st.prevCharCount >= MaxSubtitleLineChars then LargeCaptionExtraLimitFrames else 0))
            && (p.isEdm ==> next == Some(p) || FrameCount(next.value) >= FrameCount(p) + MinGapSeconds * FramesPerSecond)
  {
    var text, tokens := Classify(line).timecodeText, Classify(line).tokens;
    var cc := CaptionParser.CaptionChars(tokens).value;
    var nominal := ParseTimecode(text, false).value;
    if p.isEdm {
      AdjustAfterClear(p, nominal, BufferLoadFrames(cc), st.prevCharCount);
    } else {
      AdjustAfterCaption(p, nominal, BufferLoadFrames(cc), st.prevCharCount);
    }
  }

  /** Whether a caption line, after a clear at p, comes close enough to take its place. */
  predicate ReplacesClear(line: string, p: TimecodeValue)
  {
    && Classify(line).Caption?
    && CaptionParser.CaptionChars(Classify(line).tokens).Ok?
    && ParseTimecode(Classify(line).timecodeText, false).Ok?
    && var moved := SubtractFrames(ParseTimecode(Classify(line).timecodeText, false).value,
                                   BufferLoadFrames(CaptionParser.CaptionChars(Classify(line).tokens).value));
       FrameCount(moved) < FrameCount(p) + MinGapSeconds * FramesPerSecond
  }

  /** A caption that lands within two seconds of the carried clear removes the clear's
      line and is written at the clear's timecode, from the clear's output position. */
  lemma ReplaceStep(st: DriverState, line: string, p: TimecodeValue)
    requires Valid(st) && st.prevTimecode == Some(p) && p.isEdm && AddSeconds(p, MinGapSeconds).Ok?
    requires ReplacesClear(line, p)
    ensures Step(st, line) ==
              Ok(DriverState(st.output[..st.prevFilepos] + [UpdateTimecode(line, p)], Some(p), st.prevFilepos,
                             CaptionParser.CaptionChars(Classify(line).tokens).value, st.removed + [p]))
  {
    var text := Classify(line).timecodeText;
    var tokens := Classify(line).tokens;
    var nominal := ParseTimecode(text, false).value;
    var c := CaptionParser.CaptionChars(tokens).value;
    AdjustAfterClear(p, nominal, BufferLoadFrames(c), st.prevCharCount);
    var adj := AdjustCaption(st.prevTimecode, st.prevCharCount, text, tokens);
    assert adj.Ok? && adj.value.0.removePrev && adj.value.0.timecode == p;
    assert Step(st, line) == StepAs(st, line, Caption(text, tokens));
    assert Step(st, line) == CaptionOutcome(st, line, adj);
  }

  /** After such a caption the carried state still points at the clear's output position,
      with the clear's timecode. */
  lemma ReplaceKeepsPosition(st: DriverState, line: string, p: TimecodeValue)
    requires Valid(st) && st.prevTimecode == Some(p) && p.isEdm && AddSeconds(p, MinGapSeconds).Ok?
    requires ReplacesClear(line, p)
    ensures Step(st, line).Ok?
    ensures var st' := Step(st, line).value;
            && st'.prevTimecode == Some(p) && st'.prevFilepos == st.prevFilepos
            && st'.output[..st'.prevFilepos] == st.output[..st.prevFilepos]
            && st'.removed == st.removed + [p]
  {
    ReplaceStep(st, line, p);
  }

  /** Since the caption that replaces a removed clear carries the clear's timecode with its
      clear flag, a second caption close enough removes the first caption's line as well:
      both lines are gone and only the second is written, at the clear's timecode. */
  lemma ChainedRetraction(st: DriverState, l1: string, l2: string, p: TimecodeValue)
    requires Valid(st) && st.prevTimecode == Some(p) && p.isEdm && AddSeconds(p, MinGapSeconds).Ok?
    requires ReplacesClear(l1, p) && ReplacesClear(l2, p)
    ensures Step(st, l1).Ok?
    ensures Step(Step(st, l1).value, l2) ==
              Ok(DriverState(st.output[..st.prevFilepos] + [UpdateTimecode(l2, p)], Some(p), st.prevFilepos,
                             CaptionParser.CaptionChars(Classify(l2).tokens).value, st.removed + [p] + [p]))
  {
    ReplaceKeepsPosition(st, l1, p);
    var st1 := Step(st, l1).value;
    ReplaceStep(st1, l2, p);
  }
}
