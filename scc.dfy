/** The constants of the Scenarist Closed Caption (SCC) format and of the adjustment rules.
    The control codes are CEA-608 byte pairs written as four hexadecimal characters; the
    adjuster only compares tokens against them. */
module Scc {

  /** The header line of an SCC file, passed through unchanged. */
  const FileHeader: seq<string> := ["Scenarist_SCC V1.0"]

  /** A padding byte that displays nothing. */
  const Filler: string := "80"
  /** Erase Non-displayed buffer Memory. */
  const Enm: string := "94ae"
  /** Resume Caption Loading. */
  const Rcl: string := "9420"
  /** End Of Caption (named by the format; the adjuster never tests for it). */
  const Eoc: string := "942f"
  /** Erase Displayed Memory: a clear event. */
  const Edm: string := "942c"
  /** First bytes of the Preamble Address Codes (cursor positioning). */
  const PacFirstBytes: seq<string> := ["91", "92", "15", "16", "97", "10", "13", "94"]

  /** Logical frame rate: timecodes count 30 frames in a second. */
  const FramesPerSecond: nat := 30
  const FramesPerMinute: nat := 1800
  const FramesPerHour: nat := 108000

  /** Buffer load rate of 0.8 frames per character, kept as the exact ratio 4/5. */
  const BufferFramesPerCharNum: nat := 4
  const BufferFramesPerCharDen: nat := 5

  /** Minimum time a caption stays up before the next one. */
  const MinCaptionSeconds: nat := 1
  /** A caption with at least this many characters is a large one. */
  const MaxSubtitleLineChars: nat := 32
  /** Extra display time given to a large caption: half a second. */
  const LargeCaptionExtraLimitFrames: nat := 15

  /** Whether a clear event may be dropped when the gap after it gets too small. */
  const AllowEdmRemoval: bool := true
  /** The smallest gap after a clear that still keeps the clear. */
  const MinGapSeconds: nat := 2

  /** Whether timecodes are written with ';' before the frame field. */
  const DropFrame: bool := true
  /** The separator written between fields. */
  const Delim: char := ':'
}
