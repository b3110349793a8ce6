# SCC caption adjuster, modelled in Dafny

`caption_adjuster.py` re-times the pop-on captions of a Scenarist (SCC) caption file.
A decoder shows a pop-on caption only after it has loaded all the caption's characters.
Each caption's timecode is therefore moved earlier by an estimate of its load time: 4/5 of
a frame per displayable character, rounded up.

The move has two limits:
- after a caption, the next one may not start within one second of it (one second and
  15 frames after a caption of 32 characters or more);
- after a clear (EDM) event, the gap must stay at two seconds. If it would become shorter,
  the clear's line is taken back out of the output and the caption starts at the clear's
  timecode instead.

The project models:
- the timecode object, its text form and its frame arithmetic;
- the pop-on caption parser, with its ENM, RCL and position-code preamble check and its
  count of displayable bytes;
- the load estimate and the adjustment rule;
- the per-line pass over a file, which carries the last kept event and can cut the output
  back to where that event's line started.

Modules (one file each):
- `Results`: error kinds and result types.
- `Scc`: the program's constants.
- `Text`: the Python string operations used, with Python's semantics.
- `TimecodeValues`: timecodes as values, the reference for the arithmetic, the text form
  and parsing.
- `Timecodes`: the mutable `Timecode` class. Every method is proved to leave the value that
  the matching `TimecodeValues` function computes.
- `CaptionParser`: the reference definition of the character count, and the loop-based
  `ParseCaption` proved equal to it.
- `Adjuster`: `buffer_load_frames`, `adjust_timecode` and `update_timecode`.
- `Driver`: the line pass. `Step`/`Run` specify it, and `StepLine`/`AdjustTimecodes` are the
  loop versions proved equal to them.
- `AsWritten`: two pieces of the arithmetic exactly as the source writes them, where it
  departs from what is evidently intended (see Findings).

Three choices about the code's behaviour:
- The code does not check field ranges when it reads a timecode. Neither does the model.
  Any two-character decimal field is accepted.
- The code clamps nothing after subtracting, and warns about nothing. The model clamps at
  zero and records the unclamped behaviour as a finding.
- The code uses a fixed 0.8 frames per character. The model uses the constant ratio 4/5.

The removal quirk is modelled as written. A caption that replaces a removed clear takes the
clear's timecode value, including its clear flag. The next caption can therefore remove it
in turn (`Driver.ChainedRetraction`).

## Model

| member | source | states |
|---|---|---|
| TimecodeValues.WithFrameCount | caption_adjuster.py:84-91 | converting any frame count n gives fields with minutes and seconds below 60 and frames below 30 whose frame count is exactly n; the clear flag is kept |
| TimecodeValues.FrameCountRoundTrip | caption_adjuster.py:80-91 | for fields in range, converting to a frame count and back restores all four fields |
| TimecodeValues.FrameCountInjective | caption_adjuster.py:80-82 | two in-range timecodes with the same flag have equal frame counts if and only if they are equal |
| TimecodeValues.AddFrames | caption_adjuster.py:115-117 | adding n frames raises the frame count by exactly n and leaves the fields in range |
| TimecodeValues.SubtractFrames | caption_adjuster.py:111-113 | subtracting n frames lowers the frame count by n, stopping at zero; the fields stay in range (corrected: the source does not stop at zero) |
| TimecodeValues.AddHours | caption_adjuster.py:105-109 | succeeds exactly when hours stay at most 99, then only the hours change, by n; otherwise an overflow error |
| TimecodeValues.AddMinutes | caption_adjuster.py:99-103 | with the carry taken mod 60 and div 60: succeeds exactly when the hours stay at most 99; then the frame count rises by 1800 n, seconds, frames and flag are kept, and minutes stay below 60; with no carry only the minutes change |
| TimecodeValues.AddSeconds | caption_adjuster.py:93-103 | with the carry taken mod 60 and div 60: fails only on an hour overflow; the frame count rises by 30 n, frames and flag are kept, in-range fields stay in range; with no carry only the seconds change |
| TimecodeValues.JoinedFields | caption_adjuster.py:68-71 | the unmarked text is each field zero-padded to two digits followed by ':' |
| TimecodeValues.FormatShape | caption_adjuster.py:67-78 | with two-digit fields, the text has 11 characters: the padded fields at [0:2], [3:5], [6:8], [9:11], ':' at 2 and 5, ';' at 8 when drop frame is set |
| TimecodeValues.ParseFormat | caption_adjuster.py:61-78 | reading back the text form restores every timecode whose fields are below 100 |
| TimecodeValues.ParseIgnoresSeparators | caption_adjuster.py:61-65 | the characters at indices 2, 5 and 8 and anything after index 11 do not change what is read |
| TimecodeValues.ParseReadsPrefix | caption_adjuster.py:61-65 | only the first eleven characters of an 11-or-longer string are read |
| TimecodeValues.ParseFormatThenTail | caption_adjuster.py:61-78 | a formatted timecode followed by any text reads back as the same timecode |
| Timecodes.Timecode.constructor | caption_adjuster.py:44-52 | a new object holds 00:00:00:00 with the given clear flag |
| Timecodes.Timecode.Copy | caption_adjuster.py:177 | a fresh object with the same value |
| Timecodes.Timecode.FromString | caption_adjuster.py:61-65 | succeeds exactly when all four fields read as numbers, leaving the parsed value; otherwise a syntax error |
| Timecodes.Timecode.ToString | caption_adjuster.py:67-78 | the loop over the padded fields produces the text form of the current value |
| Timecodes.Timecode.FromFrames | caption_adjuster.py:84-91 | the fields become the in-range conversion of n |
| Timecodes.Timecode.AddHours | caption_adjuster.py:105-109 | succeeds exactly when the value function does, and sets the object to its result; otherwise an overflow error |
| Timecodes.Timecode.AddMinutes | caption_adjuster.py:99-103 | sets the object to the corrected minute addition, or reports its overflow |
| Timecodes.Timecode.AddSeconds | caption_adjuster.py:93-97 | sets the object to the corrected second addition, or reports its overflow |
| Timecodes.Timecode.SubtractFrames | caption_adjuster.py:111-113 | the object becomes the clamped subtraction of n frames |
| Timecodes.Timecode.AddFrames | caption_adjuster.py:115-117 | the object becomes the addition of n frames |
| Text.TrimLeftMeaning | caption_adjuster.py:224 | strip's left half removes exactly the leading blanks: the result is a suffix that does not start with a blank |
| Text.TrimRightMeaning | caption_adjuster.py:224 | strip's right half removes exactly the trailing blanks |
| Text.ReplaceTabs | caption_adjuster.py:225 | every tab becomes a space and every other character is kept |
| Text.SplitJoin | caption_adjuster.py:225 | splitting on single spaces loses nothing: the pieces joined with spaces are the line again |
| Text.SplitPieces | caption_adjuster.py:225 | no piece of the split contains a space |
| Text.Pad2Value | caption_adjuster.py:62-71 | a zero-padded number reads back as that number |
| CaptionParser.TokenCharsMeaning | caption_adjuster.py:133-142 | a token shows at most two characters: 0 for a position code, otherwise one per byte that is not filler |
| CaptionParser.CountToken | caption_adjuster.py:133-142 | the loop over the two bytes computes the token's character count |
| CaptionParser.DedupNoRepeats | caption_adjuster.py:156-159 | the kept tokens have no two equal neighbours; the first kept token is never empty; the last kept token equals the last token |
| CaptionParser.DedupEmpty | caption_adjuster.py:153-159 | nothing is kept only when every token is empty |
| CaptionParser.DedupPrefix | caption_adjuster.py:156-159 | what is kept of a prefix is a prefix of what is kept of the whole |
| CaptionParser.ScanAllMatches | caption_adjuster.py:152-168 | the token-by-token automaton fails exactly when the reference count does, always with a preamble error, and otherwise computes the same count |
| CaptionParser.ParseCaption | caption_adjuster.py:152-168 | the loop with its skip, preamble states and counting returns the reference count, or the preamble error |
| CaptionParser.CaptionCharsMeaning | caption_adjuster.py:152-168 | fails exactly when the first three kept tokens are not ENM, RCL and a position code (as many as there are); 0 with three kept tokens or fewer; otherwise the sum of the token counts after the third, at most two per token |
| CaptionParser.SumCharsBound | caption_adjuster.py:133-142 | the count is at most two characters per token |
| CaptionParser.RepeatCountsOnce | caption_adjuster.py:157-158 | a token sent twice in a row is kept and counted once |
| Adjuster.BufferLoadFrames | caption_adjuster.py:172-173 | the least number of frames not below 4/5 of the character count |
| Adjuster.BufferLoadMonotone | caption_adjuster.py:172-173 | the estimate never shrinks as the count grows, and is 0 for no characters |
| Adjuster.AdjustTimecode | caption_adjuster.py:176-207 | only the limit's hour overflow fails; the shift is the amount the timecode moved earlier, never negative; a removal happens only after a clear flagged event and returns that event's value |
| Adjuster.AdjustFirst | caption_adjuster.py:177-179 | with no previous event the timecode moves by the whole load time, down to zero at most, and nothing is removed |
| Adjuster.AdjustAfterCaption | caption_adjuster.py:186-199 | after a caption the result's frame count is the later of the moved timecode and the previous one plus 30 frames (plus 15 after a 32-character caption); nothing is removed |
| Adjuster.AdjustAfterClear | caption_adjuster.py:183-197 | after a clear, if the moved timecode is less than 60 frames later than the clear, the result is the clear's value itself and the clear is removed; otherwise the moved timecode is kept |
| Adjuster.ShiftBound | caption_adjuster.py:176-207 | the shift is at most the load time, or under the load time plus two seconds when a clear is removed |
| Adjuster.ClearRemovalExample | caption_adjuster.py:183-197 | a clear at 00:00:10;00 and a caption at 00:00:11;10 give the clear's value and its removal |
| Adjuster.ClampExample | caption_adjuster.py:186-199 | a caption moved to within a second of a previous caption is held back to one second after it |
| Adjuster.LargeCaptionHeadroom | caption_adjuster.py:189-190 | a 32-character previous caption sets its limit 15 frames later than a 31-character one |
| Adjuster.UpdateTimecodeShape | caption_adjuster.py:210-211 | the rewrite replaces exactly the first eleven characters and keeps the rest of the line |
| Driver.ClassifyPassThrough | caption_adjuster.py:224-229 | a line passes through exactly when it is the header or has no space or tab |
| Driver.ReadTimecode | caption_adjuster.py:232-240 | reading through the mutable object gives the parsed timecode or its syntax error |
| Driver.CaptionStep | caption_adjuster.py:235-242 | counting, load estimate and adjustment through the loop-based parser agree with the specification of the caption branch |
| Driver.Run | caption_adjuster.py:220-259 | every state the pass reaches keeps the recorded position inside the output |
| Driver.RunErrorStays | caption_adjuster.py:105-109 | an error ends the pass: every longer input gives the same error |
| Driver.StepLine | caption_adjuster.py:221-259 | the loop body computes the specified step |
| Driver.AdjustTimecodes | caption_adjuster.py:214-259 | the loop over the lines returns the output lines and removed clears of the specified pass, or its first error |
| Driver.PassThroughStep | caption_adjuster.py:224-229 | header, blank and command-less lines are written unchanged and leave the carried state alone |
| Driver.ClearStep | caption_adjuster.py:230-255 | a clear line is written with its own timecode reformatted; it becomes the carried event, flagged as a clear, with count 0; it reads back as the same timecode |
| Driver.StepOutput | caption_adjuster.py:244-259 | each line appends one output line; earlier output is cut only when a caption takes a clear's place, and then exactly from the clear's recorded position, with the clear's timecode added to the removed list |
| Driver.CaptionStepState | caption_adjuster.py:235-255 | a caption that removes nothing is appended with its adjusted timecode, becomes the carried event at the end of the previous output, and carries its own character count on for the next caption |
| Driver.CaptionSpacing | caption_adjuster.py:183-199 | after a caption the next caption is at least 30 frames later (45 after a large one, the previous count being the one carried); after a clear at least 60 frames later or at the clear's timecode |
| Driver.ReplaceStep | caption_adjuster.py:238-255 | a caption within two seconds of the carried clear cuts the output back to the clear's position and is written at the clear's timecode |
| Driver.ReplaceKeepsPosition | caption_adjuster.py:244-254 | after such a replacement the carried timecode (a clear one) and the recorded position are the clear's |
| Driver.ChainedRetraction | caption_adjuster.py:197-252 | two captions in a row that both land within two seconds of a clear: both the clear and the first caption are removed, and the second is written at the clear's timecode |
| AsWritten.CarryDefect | caption_adjuster.py:93-103 | the source's carry turns 00:00:59 plus two seconds into 00:01:-1, sixty frames (two seconds) early: after a clear at second 59 the limit equals the clear's own frame count |
| AsWritten.CarryAgreesUpToSixty | caption_adjuster.py:93-103 | the source's carry and the corrected one agree whenever the seconds sum to at most 60 |
| AsWritten.NegativeDefect | caption_adjuster.py:111-113 | subtracting 16 frames from 00:00:00:05 gives -1 hours in the source and zero in the corrected function |
| AsWritten.SubtractAgreesAboveZero | caption_adjuster.py:111-113 | without going below zero the two subtractions agree |

## Left out

- The command-line front end and the top-level prints (caption_adjuster.py:261-284) are I/O.
- The diagnostic prints and warnings carry no behaviour and are left out.
- File I/O: `open`, `tell`, `seek` and `truncate` are left out. The output is a sequence of
  lines, and cutting it back to a recorded line count takes the place of seek and truncate.
- `prev_adjust_frames` only feeds a print. The shift is computed but not carried.
- The global `removed_timecodes` list is returned with the output instead of held in a global.
- `exit()` on an hour overflow or a broken preamble becomes an error result that ends the pass.
  A field `int()` cannot read, where Python raises an exception, becomes a syntax error result.
- The floating-point constants 0.8, 1.0, 2.0 and 15.0 are exact integers and the ratio 4/5.
  Rounding of `n * 0.8` in binary floating point before `math.ceil` is not modelled.
- Adjuster.BufferLoadFrames: exact ceil(4n/5). It agrees with the float computation for the
  small counts that occur, but this is not proved for every n.
- Python's `int()` on a field is reduced to optional blanks around a non-empty run of decimal
  digits. A leading sign, which `int()` accepts, is rejected.
- `str.split(' ')` is modelled exactly as a split on single spaces, empty pieces included.
  Lines keep their terminator as read.
- The ';' separator is written but drop-frame numbering (skipping frame numbers) is not
  modelled, as the source does not do it. `EOC` is defined by the source but never used.
- Timecodes.Timecode.FromString: on failure the fields read before the bad one are already
  overwritten, as in the source. The contract does not state the object's value after a
  failure.
- Timecodes.Timecode.AddHours: after a failure the object's value is not stated. The source
  exits at that point.
- Timecodes.Timecode.AddMinutes: after a failure the object's value is not stated. The
  source exits at that point.
- Timecodes.Timecode.AddSeconds: after a failure the object's value is not stated. The
  source exits at that point.
- script_to_csv.py is not part of this model. It is a separate screenplay-to-text tool.

## Findings

| source | as written | input that shows it | evidently intended | confidence | as-written member | corrected member |
|---|---|---|---|---|---|---|
| caption_adjuster.py:93-103 | after a carry, `add_seconds` and `add_minutes` keep `60 - value` | 00:00:59;00 plus 2 seconds gives 00:01:-1, frame count 1770 instead of 1830 | keep `value mod 60` and carry `value div 60` | not executed | AsWritten.CarryDefect | TimecodeValues.AddSeconds |
| caption_adjuster.py:111-113 | `subtract_frames` does not stop at zero | 00:00:00:05 minus 16 frames gives -1 h 59 m 59 s 19 f | stop at 00:00:00:00 | not executed | AsWritten.NegativeDefect | TimecodeValues.SubtractFrames |
