/**
 * The caption route's `generateSubtitles`: the transcript is cut at every
 * `". "`, each piece becomes one SRT cue of three seconds, and the cues are
 * joined with a line break. The timestamps are written by hand as
 * `00:00:<seconds>,000`, where `<seconds>` is the plain decimal of the
 * cue's start or end second, with no zero padding and no carry into the
 * minutes.
 */
module Captions {
  import opened Wrappers
  import opened Text
  import opened Timestamps

  /** The pieces of the transcript that become cues: `transcript.split('. ')`. */
  function CaptionLines(transcript: string): (lines: seq<string>)
    ensures |lines| >= 1
  {
    Split(transcript, ". ")
  }

  /** `00:00:${seconds},000`. */
  function CaptionStamp(seconds: nat): string {
    "00:00:" + NatToDecimal(seconds) + ",000"
  }

  /** The block the `map` callback returns for the piece at `index`. */
  function CaptionBlock(index: nat, line: string): (block: string)
    ensures |block| > |NatToDecimal(index + 1)| + |line|
    ensures block[|NatToDecimal(index + 1)|] == '\n' && block[|block| - 1] == '\n'
  {
    var startTime := index * 3;
    var endTime := startTime + 3;
    NatToDecimal(index + 1) + "\n" + CaptionStamp(startTime) + " --> " + CaptionStamp(endTime) + "\n" + line + "\n"
  }

  function CaptionBlocks(lines: seq<string>): (blocks: seq<string>)
    ensures |blocks| == |lines|
  {
    seq(|lines|, index requires 0 <= index < |lines| => CaptionBlock(index, lines[index]))
  }

  /** The SRT text written to `public/subtitles.srt`. */
  function GenerateSubtitles(transcript: string): (srt: string)
    ensures FirstCueHead <= srt
    ensures |srt| > 0 && srt[|srt| - 1] == '\n'
  {
    var lines := CaptionLines(transcript);
    var blocks := CaptionBlocks(lines);
    var srt := Join(blocks, "\n");
    JoinEnds(blocks, "\n");
    FirstBlock(lines[0]);
    PrefixOfPrefix(FirstCueHead, blocks[0], srt);
    LastBlock(blocks[|blocks| - 1], srt);
    srt
  }

  /** The first two lines of every file: cue `1`, from second 0 to second 3. */
  const FirstCueHead := "1\n00:00:0,000 --> 00:00:3,000\n"

  /** The block of the first piece starts with the number `1` and the timing of seconds 0 to 3. */
  lemma FirstBlock(line: string)
    ensures FirstCueHead <= CaptionBlock(0, line)
  {
    var head := "1" + "\n" + CaptionStamp(0) + " --> " + CaptionStamp(3) + "\n";
    assert NatToDecimal(1) == "1";
    assert CaptionBlock(0, line) == head + line + "\n";
    FirstHeadText();
    assert CaptionBlock(0, line) == FirstCueHead + (line + "\n");
  }

  lemma FirstHeadText()
    ensures FirstCueHead == "1" + "\n" + CaptionStamp(0) + " --> " + CaptionStamp(3) + "\n"
  {
    FirstStamps();
    FirstHeadLiteral();
  }

  lemma FirstStamps()
    ensures CaptionStamp(0) == "00:00:0,000" && CaptionStamp(3) == "00:00:3,000"
  {
    assert NatToDecimal(0) == "0" && NatToDecimal(3) == "3";
  }

  lemma FirstHeadLiteral()
    ensures FirstCueHead == "1" + "\n" + "00:00:0,000" + " --> " + "00:00:3,000" + "\n"
  {
    assert "1" + "\n" + "00:00:0,000" == "1\n00:00:0,000";
    assert "1\n00:00:0,000" + " --> " + "00:00:3,000" + "\n" == FirstCueHead;
  }

  lemma PrefixOfPrefix(a: string, b: string, c: string)
    requires a <= b && b <= c
    ensures a <= c
  {
    assert c[..|a|] == b[..|a|];
  }

  /** A text that ends with a block ends with a line break. */
  lemma LastBlock(block: string, whole: string)
    requires |block| > 0 && block[|block| - 1] == '\n'
    requires |block| <= |whole| && whole[|whole| - |block|..] == block
    ensures |whole| > 0 && whole[|whole| - 1] == '\n'
  {
    assert whole[|whole| - 1] == whole[|whole| - |block|..][|block| - 1];
  }

  // ---------------------------------------------------------------------------
  // The reference layout of a cue

  /** The lines of cue `index` (from 0): its number, its timing, its text and one blank line. */
  function CueLines(index: nat, text: string): (lines: seq<string>)
    ensures |lines| == 4 && lines[2] == text && lines[3] == ""
    ensures AllDigits(lines[0]) && DecimalValue(lines[0]) == index + 1
  {
    [NatToDecimal(index + 1), CaptionStamp(3 * index) + " --> " + CaptionStamp(3 * index + 3), text, ""]
  }

  // ---------------------------------------------------------------------------
  // Properties

  /**
   * Cue `index` reads, line by line, as the reference layout: number
   * `index + 1`, from second `3 * index` to second `3 * index + 3`, the text
   * of the piece, and one blank line; so each block ends in exactly one
   * line break.
   */
  lemma CaptionBlockLines(index: nat, line: string)
    requires '\n' !in line
    ensures Split(CaptionBlock(index, line), "\n") == CueLines(index, line)
  {
    var number := NatToDecimal(index + 1);
    var timing := CaptionStamp(index * 3) + " --> " + CaptionStamp(index * 3 + 3);
    DecimalHasNoLineBreak(index + 1);
    StampHasNoLineBreak(index * 3);
    StampHasNoLineBreak(index * 3 + 3);
    assert CaptionBlock(index, line) == number + "\n" + timing + "\n" + line + "\n";
    ThreeLines(number, timing, line);
    assert CueLines(index, line) == [number, timing, line, ""];
  }

  lemma StampHasNoLineBreak(seconds: nat)
    ensures '\n' !in CaptionStamp(seconds)
  {
    DecimalHasNoLineBreak(seconds);
  }

  /**
   * The whole file, line by line, is the cues' reference layouts one after
   * another: one cue per piece of the transcript, in order, each followed by
   * exactly one blank line and nothing after the last.
   */
  lemma SubtitlesLayout(transcript: string)
    requires '\n' !in transcript
    ensures var lines := CaptionLines(transcript);
      Split(GenerateSubtitles(transcript), "\n")
        == Concat(seq(|lines|, index requires 0 <= index < |lines| => CueLines(index, lines[index])))
  {
    var lines := CaptionLines(transcript);
    SplitPiecesWithout(transcript, ". ", '\n');
    SplitJoin(CaptionBlocks(lines));
    BlocksLines(lines);
  }

  lemma BlocksLines(lines: seq<string>)
    requires forall index :: 0 <= index < |lines| ==> '\n' !in lines[index]
    ensures LinesOf(CaptionBlocks(lines)) == seq(|lines|, index requires 0 <= index < |lines| => CueLines(index, lines[index]))
  {
    var blocks := CaptionBlocks(lines);
    forall index | 0 <= index < |lines| ensures LinesOf(blocks)[index] == CueLines(index, lines[index]) {
      CaptionBlockLines(index, lines[index]);
    }
  }

  /** The empty transcript still gives one cue, with empty text. */
  lemma EmptyTranscript()
    ensures GenerateSubtitles("") == "1\n00:00:0,000 --> 00:00:3,000\n\n"
  {
    calc {
      GenerateSubtitles("");
      { SplitEmpty(". "); }
      Join(CaptionBlocks([""]), "\n");
      { assert CaptionBlocks([""]) == [CaptionBlock(0, "")]; }
      CaptionBlock(0, "");
      NatToDecimal(1) + "\n" + CaptionStamp(0) + " --> " + CaptionStamp(3) + "\n" + "" + "\n";
      { assert NatToDecimal(1) == "1"; }
      "1" + "\n" + CaptionStamp(0) + " --> " + CaptionStamp(3) + "\n" + "" + "\n";
      { assert NatToDecimal(0) == "0"; }
      "1" + "\n" + "00:00:0,000" + " --> " + CaptionStamp(3) + "\n" + "" + "\n";
      { assert NatToDecimal(3) == "3"; }
      "1" + "\n" + "00:00:0,000" + " --> " + "00:00:3,000" + "\n" + "" + "\n";
      { FirstCueText(); }
      "1\n00:00:0,000 --> 00:00:3,000\n\n";
    }
  }

  lemma FirstCueText()
    ensures "1" + "\n" + "00:00:0,000" + " --> " + "00:00:3,000" + "\n" + "" + "\n"
      == "1\n00:00:0,000 --> 00:00:3,000\n\n"
  {
    assert "1" + "\n" + "00:00:0,000" == "1\n00:00:0,000";
    assert "1\n00:00:0,000" + " --> " == "1\n00:00:0,000 --> ";
    assert "1\n00:00:0,000 --> " + "00:00:3,000" == "1\n00:00:0,000 --> 00:00:3,000";
    assert "1\n00:00:0,000 --> 00:00:3,000" + "\n" + "" + "\n" == "1\n00:00:0,000 --> 00:00:3,000\n\n";
  }

  /**
   * The texts of the cues joined with `". "` give back the transcript, and
   * no cue text contains `". "`.
   */
  lemma CaptionTextRoundTrip(transcript: string)
    ensures Join(CaptionLines(transcript), ". ") == transcript
    ensures forall index :: 0 <= index < |CaptionLines(transcript)| ==> !Contains(CaptionLines(transcript)[index], ". ")
  {
    JoinSplit(transcript, ". ");
    SplitPiecesFree(transcript, ". ");
  }

  /**
   * The hand-written stamp agrees with the `HH:MM:SS,000` form only for
   * seconds 10 to 59: below 10 it lacks the zero padding, and from 60 on it
   * does not carry into the minutes.
   */
  lemma CaptionStampAsTimecode(seconds: nat)
    ensures CaptionStamp(seconds) == Timecode(seconds) <==> 10 <= seconds < 60
  {
    var stamp := CaptionStamp(seconds);
    if 10 <= seconds < 60 {
      StampWithinMinute(seconds);
    } else if seconds < 10 || 100 <= seconds {
      assert |stamp| != 12;
    } else {
      StampPastMinute(seconds);
    }
  }

  lemma StampPastMinute(seconds: nat)
    requires 60 <= seconds < 100
    ensures CaptionStamp(seconds) != Timecode(seconds)
  {
    var stamp := CaptionStamp(seconds);
    TimecodeFields(seconds);
    assert stamp[6..8] == NatToDecimal(seconds);
  }

  lemma StampWithinMinute(seconds: nat)
    requires 10 <= seconds < 60
    ensures CaptionStamp(seconds) == Timecode(seconds)
  {
    assert NatToDecimal(seconds) == NatToDecimal(seconds / 10) + [DigitChar(seconds % 10)];
    assert NatToDecimal(seconds / 10) == [DigitChar(seconds / 10)];
    assert (seconds / 3600) % 24 == 0 && (seconds / 60) % 60 == 0 && seconds % 60 == seconds;
    assert Pad2(0) == "00";
    TimecodeLayout(seconds);
  }

  /**
   * Read as an SRT timestamp, the stamp of second `seconds` means that
   * second for 10 to 59 and is malformed otherwise; the 21st cue, which
   * starts at second 60, is the first that `00:00:60,000` makes malformed.
   */
  lemma CaptionStampReadBack(seconds: nat)
    ensures ParseTimecode(CaptionStamp(seconds)) == if 10 <= seconds < 60 then Some(seconds) else None
  {
    var stamp := CaptionStamp(seconds);
    if 10 <= seconds < 60 {
      StampWithinMinute(seconds);
      TimecodeExactWithinDay(seconds);
    } else if seconds < 10 || 100 <= seconds {
      assert |stamp| != 12;
    } else {
      assert stamp[6..8] == NatToDecimal(seconds);
    }
  }

  /** The 21st cue starts at `00:00:60,000`, which is not a valid timestamp. */
  lemma TwentyFirstCue()
    ensures CaptionStamp(3 * 20) == "00:00:60,000"
    ensures ParseTimecode(CaptionStamp(3 * 20)) == None
  {
    assert NatToDecimal(60) == "60";
    CaptionStampReadBack(60);
  }
}
