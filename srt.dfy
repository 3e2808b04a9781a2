/**
 * The SRT writer of the process route (`generateSrtSubtitles`). For every
 * timestamp key `"start-end"`, in order, it writes
 * `min(captions.length, floor((end - start) / 4))` cues: cue `j` spans
 * `start + 4j` to `min(start + 4j + 4, end)` in the source video's own
 * seconds and carries `captions[j]`. A single counter numbers the cues
 * 1, 2, 3, ... across all timestamps. Each cue is the block
 * `index\nHH:MM:SS,000 --> HH:MM:SS,000\ntext\n\n`. The text that the route
 * writes to a file is returned here.
 */
module Srt {
  import opened Wrappers
  import opened Text
  import opened Timestamps
  import opened KeyMoments

  /** One cue before numbering: its window in source seconds and its text. */
  datatype Segment = Segment(start: nat, end: nat, text: string)

  function Min(a: int, b: int): int {
    if a < b then a else b
  }

  /**
   * How many times the inner loop runs: `numCaptions` is
   * `Math.min(captions.length, Math.floor(duration / 4))` and the loop
   * `for (j = 0; j < numCaptions; j++)` does nothing when it is negative.
   * (Dafny's `/` on `int` rounds toward negative infinity for a positive
   * divisor, as `Math.floor` does.) The count is the largest `n` with
   * `n <= captions.length` and `4 * n <= end - start`.
   */
  function CueCount(start: nat, end: nat, captionCount: nat): (n: nat)
    ensures n <= captionCount
    ensures n == 0 || 4 * n <= end - start
    ensures n == captionCount || end - start < 4 * (n + 1)
  {
    var numCaptions := Min(captionCount, (end as int - start as int) / 4);
    if numCaptions < 0 then 0 else numCaptions
  }

  /** The cues of one decoded range `start`-`end`: cue `j` starts `4j` seconds after `start`. */
  function Cues(start: nat, end: nat, captions: seq<string>): (cues: seq<Segment>)
    ensures |cues| <= |captions|
    ensures forall j :: 0 <= j < |cues| ==>
      cues[j] == Segment(start + j * 4, start + j * 4 + 4, captions[j]) && start + j * 4 + 4 <= end
  {
    var n := CueCount(start, end, |captions|);
    CuesFit(start, end, n);
    seq(n, j requires 0 <= j < n =>
      var segmentStart := start + j * 4;
      Segment(segmentStart, Min(segmentStart + 4, end) as nat, captions[j]))
  }

  /** `n` cues of four seconds from `start` end by `end`, when `4 * n` fits in the range. */
  lemma CuesFit(start: nat, end: nat, n: nat)
    requires n == 0 || 4 * n <= end - start
    ensures forall j :: 0 <= j < n ==> start + j * 4 + 4 <= end
  {
    forall j | 0 <= j < n ensures start + j * 4 + 4 <= end {
      assert j * 4 + 4 <= n * 4;
    }
  }

  /** The cues one timestamp key contributes; none when a decoded value is NaN. */
  function Segments(key: string, captions: seq<string>): (segs: seq<Segment>)
    ensures DecodeKey(key).None? ==> segs == []
    ensures |segs| <= |captions|
    ensures forall j :: 0 <= j < |segs| ==> segs[j].end == segs[j].start + 4 && segs[j].text == captions[j]
  {
    match DecodeKey(key)
    case None => []
    case Some((start, end)) => Cues(start, end, captions)
  }

  /** The cues of each timestamp. */
  function SegmentsPerKey(timestamps: seq<string>, captions: seq<string>): (r: seq<seq<Segment>>)
    ensures |r| == |timestamps|
  {
    seq(|timestamps|, i requires 0 <= i < |timestamps| => Segments(timestamps[i], captions))
  }

  /** The cues of all timestamps, in timestamp order. */
  function AllSegments(timestamps: seq<string>, captions: seq<string>): seq<Segment> {
    Concat(SegmentsPerKey(timestamps, captions))
  }

  /** The template literal of one cue: `${counter}\n${startFormatted} --> ${endFormatted}\n${text}\n\n`. */
  function CueText(counter: nat, startFormatted: string, endFormatted: string, text: string): string {
    NatToDecimal(counter) + "\n" + startFormatted + " --> " + endFormatted + "\n" + text + "\n\n"
  }

  /** The SRT block of cue number `index`. */
  function SrtBlock(index: nat, seg: Segment): (block: string)
    ensures |block| == |NatToDecimal(index)| + 33 + |seg.text|
    ensures block[|NatToDecimal(index)|] == '\n' && block[|block| - 2] == '\n' && block[|block| - 1] == '\n'
  {
    CueText(index, Timecode(seg.start), Timecode(seg.end), seg.text)
  }

  /** The blocks of `segs`, numbered consecutively from `first`. */
  function SrtBlocks(segs: seq<Segment>, first: nat): (blocks: seq<string>)
    ensures |blocks| == |segs|
  {
    Numbered(SrtBlock, segs, first)
  }

  /** `f` applied to each element of `xs` and its number, counting from `first`. */
  function Numbered<T>(f: (nat, T) -> string, xs: seq<T>, first: nat): (r: seq<string>)
    ensures |r| == |xs|
  {
    seq(|xs|, k requires 0 <= k < |xs| => f(first + k, xs[k]))
  }

  lemma NumberedAppend<T>(f: (nat, T) -> string, a: seq<T>, b: seq<T>, first: nat)
    ensures Numbered(f, a + b, first) == Numbered(f, a, first) + Numbered(f, b, first + |a|)
  {
    var whole, left, right := Numbered(f, a + b, first), Numbered(f, a, first), Numbered(f, b, first + |a|);
    forall t | 0 <= t < |a| ensures whole[t] == left[t] {
      assert (a + b)[t] == a[t];
    }
    forall u | 0 <= u < |b| ensures whole[|a| + u] == right[u] {
      assert (a + b)[|a| + u] == b[u];
      assert first + (|a| + u) == first + |a| + u;
    }
    assert whole == left + right;
  }

  /** The text of an SRT file holding the cues `segs`, numbered from `first`. */
  function SrtText(segs: seq<Segment>, first: nat): string {
    Concat(SrtBlocks(segs, first))
  }

  /**
   * `generateSrtSubtitles(timestamps, captions, outputFile)`: the outer loop
   * over the timestamps, growing `srtContent` while `counter` runs on.
   */
  method GenerateSrtSubtitles(timestamps: seq<string>, captions: seq<string>) returns (srtContent: string)
    ensures srtContent == SrtText(AllSegments(timestamps, captions), 1)
  {
    srtContent := "";
    var counter := 1;
    for i := 0 to |timestamps|
      invariant srtContent == SrtText(AllSegments(timestamps[..i], captions), 1)
      invariant counter == |AllSegments(timestamps[..i], captions)| + 1
    {
      var decoded := DecodeKey(timestamps[i]);
      if decoded.Some? {
        var (start, end) := decoded.value;
        ghost var before, first := srtContent, counter;
        var blocks;
        blocks, counter := WriteCues(start, end, captions, counter);
        srtContent := srtContent + blocks;
        KeyWritten(timestamps, i, captions, before, first, blocks, counter);
      } else {
        KeyWritten(timestamps, i, captions, srtContent, counter, "", counter);
      }
    }
    assert timestamps[..|timestamps|] == timestamps;
  }

  /**
   * After the cues of `timestamps[i]` are appended, the text and the counter
   * account for the first `i + 1` timestamps.
   */
  lemma KeyWritten(timestamps: seq<string>, i: nat, captions: seq<string>,
                   before: string, counter: nat, blocks: string, next: nat)
    requires i < |timestamps|
    requires before == SrtText(AllSegments(timestamps[..i], captions), 1)
    requires counter == |AllSegments(timestamps[..i], captions)| + 1
    requires blocks == SrtText(Segments(timestamps[i], captions), counter)
    requires next == counter + |Segments(timestamps[i], captions)|
    ensures before + blocks == SrtText(AllSegments(timestamps[..i + 1], captions), 1)
    ensures next == |AllSegments(timestamps[..i + 1], captions)| + 1
  {
    AllSegmentsStep(timestamps, i, captions);
    SrtTextAppend(AllSegments(timestamps[..i], captions), Segments(timestamps[i], captions), 1);
  }

  /**
   * The inner loop of `generateSrtSubtitles` for one decoded range: the blocks
   * of its cues, numbered from `counter`, and the counter after them.
   */
  method WriteCues(start: nat, end: nat, captions: seq<string>, counter: nat) returns (blocks: string, next: nat)
    ensures blocks == SrtText(Cues(start, end, captions), counter)
    ensures next == counter + |Cues(start, end, captions)|
  {
    ghost var segs := Cues(start, end, captions);
    var numCaptions: int := Min(|captions|, (end as int - start as int) / 4);
    assert |segs| == if numCaptions < 0 then 0 else numCaptions;
    blocks := "";
    next := counter;
    var j := 0;
    while j < numCaptions
      invariant 0 <= j <= |segs|
      invariant blocks == SrtText(segs[..j], counter)
      invariant next == counter + j
    {
      var segmentStart := start + j * 4;
      var segmentEnd := Min(segmentStart + 4, end);
      WriteCueStep(start, end, captions, counter, j, next, segmentStart, segmentEnd);
      var startFormatted := Timecode(segmentStart);
      var endFormatted := Timecode(segmentEnd);
      blocks := blocks + CueText(next, startFormatted, endFormatted, captions[j]);
      next := next + 1;
      j := j + 1;
    }
    assert segs[..j] == segs;
  }

  // ---------------------------------------------------------------------------
  // Properties

  /** The block the inner loop writes for cue `j` extends the text of the cues before it. */
  lemma WriteCueStep(start: nat, end: nat, captions: seq<string>, counter: nat, j: nat, index: nat, segmentStart: nat, segmentEnd: int)
    requires j < |Cues(start, end, captions)|
    requires index == counter + j
    requires segmentStart == start + j * 4 && segmentEnd == Min(segmentStart + 4, end)
    ensures j < |captions| && 0 <= segmentEnd
    ensures SrtText(Cues(start, end, captions)[..j], counter)
            + CueText(index, Timecode(segmentStart), Timecode(segmentEnd), captions[j])
         == SrtText(Cues(start, end, captions)[..j + 1], counter)
  {
    CueStep(Cues(start, end, captions), j, counter);
    CueBlock(start, end, captions, index, j, segmentStart, segmentEnd);
  }

  /** The block of cue `j` of a range, written from its window and `captions[j]`. */
  lemma CueBlock(start: nat, end: nat, captions: seq<string>, index: nat, j: nat, segmentStart: nat, segmentEnd: int)
    requires j < |Cues(start, end, captions)|
    requires segmentStart == start + j * 4 && segmentEnd == Min(segmentStart + 4, end)
    ensures j < |captions| && 0 <= segmentEnd
    ensures SrtBlock(index, Cues(start, end, captions)[j])
         == CueText(index, Timecode(segmentStart), Timecode(segmentEnd), captions[j])
  {
    CueWindow(start, end, captions, j);
    assert segmentEnd == segmentStart + 4;
    BlockOfWindow(index, Cues(start, end, captions)[j], segmentStart, segmentEnd, captions[j]);
  }

  lemma BlockOfWindow(index: nat, seg: Segment, segmentStart: nat, segmentEnd: nat, text: string)
    requires seg == Segment(segmentStart, segmentEnd, text)
    ensures SrtBlock(index, seg) == CueText(index, Timecode(segmentStart), Timecode(segmentEnd), text)
  {
  }

  /** One turn of the inner loop appends the next block, numbered on from the cues so far. */
  lemma CueStep(segs: seq<Segment>, j: nat, first: nat)
    requires j < |segs|
    ensures SrtText(segs[..j + 1], first) == SrtText(segs[..j], first) + SrtBlock(first + j, segs[j])
  {
    assert segs[..j + 1] == segs[..j] + [segs[j]];
    SrtTextSnoc(segs[..j], segs[j], first);
  }

  lemma SrtTextSnoc(segs: seq<Segment>, seg: Segment, first: nat)
    ensures SrtText(segs + [seg], first) == SrtText(segs, first) + SrtBlock(first + |segs|, seg)
  {
    SrtTextAppend(segs, [seg], first);
    SrtTextSingle(seg, first + |segs|);
  }

  /** A file of one cue is that cue's block. */
  lemma SrtTextSingle(seg: Segment, index: nat)
    ensures SrtText([seg], index) == SrtBlock(index, seg)
  {
    var block := SrtBlock(index, seg);
    assert SrtBlocks([seg], index) == [block];
    ConcatSingle(block);
  }

  /**
   * Cue `j` of the range `start`-`end` spans `start + 4j` to `start + 4j + 4`
   * (never cut short by `end`, since the count already keeps whole segments
   * inside the range) and carries `captions[j]`.
   */
  lemma CueWindow(start: nat, end: nat, captions: seq<string>, j: nat)
    requires j < |Cues(start, end, captions)|
    ensures j < |captions|
    ensures Cues(start, end, captions)[j] == Segment(start + j * 4, start + j * 4 + 4, captions[j])
    ensures start + j * 4 + 4 <= end
  {
    var n := CueCount(start, end, |captions|);
    assert j * 4 + 4 <= n * 4;
  }

  /**
   * The number of cues of one timestamp: zero when a value is NaN, otherwise
   * the largest count that fits both the captions and the range in whole
   * 4-second segments; in particular none when the range is shorter than
   * 4 seconds or ends before it starts.
   */
  lemma SegmentCount(key: string, captions: seq<string>)
    ensures DecodeKey(key).None? ==> Segments(key, captions) == []
    ensures DecodeKey(key).Some? ==>
      var (start, end) := DecodeKey(key).value;
      var n := |Segments(key, captions)|;
      && n <= |captions|
      && (n == 0 || start + 4 * n <= end)
      && (n == |captions| || end < start + 4 * (n + 1))
    ensures DecodeKey(key).Some? && DecodeKey(key).value.1 < DecodeKey(key).value.0 + 4 ==>
      Segments(key, captions) == []
  {
  }

  /** The cues of consecutive runs of timestamps follow each other. */
  lemma AllSegmentsAppend(a: seq<string>, b: seq<string>, captions: seq<string>)
    ensures AllSegments(a + b, captions) == AllSegments(a, captions) + AllSegments(b, captions)
  {
    assert SegmentsPerKey(a + b, captions) == SegmentsPerKey(a, captions) + SegmentsPerKey(b, captions);
    ConcatAppend(SegmentsPerKey(a, captions), SegmentsPerKey(b, captions));
  }

  /** One turn of the outer loop adds the cues of the next timestamp. */
  lemma AllSegmentsStep(timestamps: seq<string>, i: nat, captions: seq<string>)
    requires i < |timestamps|
    ensures AllSegments(timestamps[..i + 1], captions)
         == AllSegments(timestamps[..i], captions) + Segments(timestamps[i], captions)
  {
    var segs := Segments(timestamps[i], captions);
    assert timestamps[..i + 1] == timestamps[..i] + [timestamps[i]];
    AllSegmentsAppend(timestamps[..i], [timestamps[i]], captions);
    assert SegmentsPerKey([timestamps[i]], captions) == [segs];
    ConcatSingle(segs);
  }

  /** Numbering runs on across a concatenation: the second part continues where the first stopped. */
  lemma SrtTextAppend(a: seq<Segment>, b: seq<Segment>, first: nat)
    ensures SrtText(a + b, first) == SrtText(a, first) + SrtText(b, first + |a|)
  {
    NumberedAppend(SrtBlock, a, b, first);
    ConcatAppend(SrtBlocks(a, first), SrtBlocks(b, first + |a|));
  }

  /**
   * Cue indices run 1, 2, 3, ... across all timestamps: the file for
   * `a + b` is the file for `a` followed by the cues of `b` numbered on from
   * the count of cues in `a`.
   */
  lemma SrtIndicesContinue(a: seq<string>, b: seq<string>, captions: seq<string>)
    ensures SrtText(AllSegments(a + b, captions), 1)
         == SrtText(AllSegments(a, captions), 1) + SrtText(AllSegments(b, captions), |AllSegments(a, captions)| + 1)
  {
    AllSegmentsAppend(a, b, captions);
    SrtTextAppend(AllSegments(a, captions), AllSegments(b, captions), 1);
  }

  /**
   * Read line by line, a block whose text has no line break is the index,
   * the `start --> end` line, the text and a blank line.
   */
  lemma SrtBlockLines(index: nat, seg: Segment)
    requires '\n' !in seg.text
    ensures Split(SrtBlock(index, seg), "\n")
         == [NatToDecimal(index), Timecode(seg.start) + " --> " + Timecode(seg.end), seg.text, "", ""]
  {
    var idx := NatToDecimal(index);
    var timing := Timecode(seg.start) + " --> " + Timecode(seg.end);
    DecimalHasNoLineBreak(index);
    TimingHasNoLineBreak(seg.start, seg.end);
    assert SrtBlock(index, seg) == idx + "\n" + timing + "\n" + seg.text + "\n\n";
    ThreeLinesThenBlank(idx, timing, seg.text);
  }

  /** The `start --> end` line has no line break. */
  lemma TimingHasNoLineBreak(start: nat, end: nat)
    ensures '\n' !in Timecode(start) + " --> " + Timecode(end)
  {
    TimecodeDigits(start);
    TimecodeDigits(end);
    var t1, t2 := Timecode(start), Timecode(end);
    var timing := t1 + " --> " + t2;
    forall t | 0 <= t < |timing| ensures timing[t] != '\n' {
      if t < 12 { assert timing[t] == t1[t]; }
      else if t >= 17 { assert timing[t] == t2[t - 17]; }
    }
  }

  /** A timestamp has no line break: only digits, `:` and `,`. */
  lemma TimecodeDigits(s: nat)
    ensures '\n' !in Timecode(s)
  {
    var r := Timecode(s);
    TimecodeFields(s);
    forall t | 0 <= t < 12 ensures r[t] != '\n' {
      if t < 2 { assert r[..2][t] == r[t]; }
      else if 3 <= t < 5 { assert r[3..5][t - 3] == r[t]; }
      else if 6 <= t < 8 { assert r[6..8][t - 6] == r[t]; }
      else if t >= 9 { assert r[9..][t - 9] == r[t]; }
    }
  }

  /**
   * The subtitle file of one clip (one key, one caption) has at most one cue:
   * the first 4 seconds of the range, in source seconds, when the range lasts
   * at least 4 seconds, and nothing otherwise.
   */
  lemma ClipSubtitles(key: string, caption: string)
    requires DecodeKey(key).Some?
    ensures var (start, end) := DecodeKey(key).value;
      SrtText(AllSegments([key], [caption]), 1)
        == if start + 4 <= end then SrtBlock(1, Segment(start, start + 4, caption)) else ""
  {
    var (start, end) := DecodeKey(key).value;
    var segs := Segments(key, [caption]);
    assert AllSegments([key], [caption]) == segs by {
      assert SegmentsPerKey([key], [caption]) == [segs];
      ConcatSingle(segs);
    }
    if start + 4 <= end {
      CueWindow(start, end, [caption], 0);
      assert segs == [Segment(start, start + 4, caption)];
      SrtTextSingle(segs[0], 1);
    } else {
      assert segs == [];
      assert SrtBlocks(segs, 1) == [];
    }
  }
}
