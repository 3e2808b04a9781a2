/**
 * The bookkeeping of `generateShortClipsWithCaptions` in the process route,
 * and the audio path that `extractAudio` derives from the video path.
 *
 * For each key moment `i`, in order, the clip loop decodes the key into a
 * start and a duration, writes the subtitles of that one moment to
 * `subtitle_i.srt`, asks ffmpeg to cut `clip_i.mp4` with those subtitles
 * burnt in, and on success pushes `/short_videos/clip_i.mp4`. The first
 * render that fails rejects the whole call with `FFmpeg error: <message>`,
 * and no later moment is processed. The ffmpeg run itself is the parameter
 * `render`: a job goes in, success or a failure message comes out.
 */
module Clips {
  import opened Wrappers
  import opened Text
  import opened KeyMoments
  import opened Srt

  // ---------------------------------------------------------------------------
  // The audio path

  /** `videoPath.replace(".mp4", ".mp3")`: only the first `.mp4` is replaced. */
  function AudioPath(videoPath: string): (audioPath: string)
    ensures |audioPath| == |videoPath|
    ensures forall t :: 0 <= t < |audioPath| && audioPath[t] != videoPath[t] ==>
      videoPath[t] == '4' && audioPath[t] == '3'
    ensures forall t, u ::
      (0 <= t < |audioPath| && 0 <= u < |audioPath| && audioPath[t] != videoPath[t] && audioPath[u] != videoPath[u])
      ==> t == u
  {
    Mp4Replaced(videoPath);
    ReplaceFirst(videoPath, ".mp4", ".mp3")
  }

  /** Replacing the first `.mp4` by `.mp3` changes at most one character, a `4` into a `3`. */
  lemma Mp4Replaced(videoPath: string)
    ensures var a := ReplaceFirst(videoPath, ".mp4", ".mp3");
      && |a| == |videoPath|
      && (forall t :: 0 <= t < |a| && a[t] != videoPath[t] ==> videoPath[t] == '4' && a[t] == '3')
      && forall t, u :: (0 <= t < |a| && 0 <= u < |a| && a[t] != videoPath[t] && a[u] != videoPath[u]) ==> t == u
  {
    match IndexOf(videoPath, ".mp4")
    case None =>
    case Some(k) =>
      var a := ReplaceFirst(videoPath, ".mp4", ".mp3");
      assert videoPath[k..k + 4] == ".mp4";
      assert a == videoPath[..k] + ".mp3" + videoPath[k + 4..];
      forall t | 0 <= t < |a| && a[t] != videoPath[t]
        ensures t == k + 3 && videoPath[t] == '4' && a[t] == '3'
      {
        if k <= t < k + 4 {
          assert videoPath[t] == videoPath[k..k + 4][t - k];
        }
      }
  }

  /** A path without `.mp4` is returned unchanged. */
  lemma AudioPathWithoutMp4(videoPath: string)
    requires !Contains(videoPath, ".mp4")
    ensures AudioPath(videoPath) == videoPath
  {
  }

  /**
   * With a first `.mp4` at `k`, exactly the `4` at `k + 3` becomes a `3`;
   * every other character, including any later `.mp4`, stays as it was.
   */
  lemma AudioPathReplacesFirst(videoPath: string, k: nat)
    requires IndexOf(videoPath, ".mp4") == Some(k)
    ensures var a := AudioPath(videoPath);
      && |a| == |videoPath|
      && a[k + 3] == '3' && videoPath[k + 3] == '4'
      && forall t :: 0 <= t < |a| && t != k + 3 ==> a[t] == videoPath[t]
  {
    var a := AudioPath(videoPath);
    assert OccursAt(videoPath, ".mp4", k);
    assert videoPath[k..k + 4] == ".mp4";
    assert videoPath[k + 3] == videoPath[k..k + 4][3];
    assert a == videoPath[..k] + ".mp3" + videoPath[k + 4..];
    forall t | 0 <= t < |a| && t != k + 3 ensures a[t] == videoPath[t] {
      if k <= t < k + 4 {
        assert videoPath[t] == videoPath[k..k + 4][t - k];
      }
    }
  }

  /**
   * The usual case: a path `base + ".mp4"` whose `base` has no `.mp4` of its
   * own gets the extension `.mp3`.
   */
  lemma AudioPathOfMp4(base: string)
    requires !Contains(base, ".mp4")
    ensures AudioPath(base + ".mp4") == base + ".mp3"
  {
    var v := base + ".mp4";
    assert OccursAt(v, ".mp4", |base|);
    forall t: nat | t < |base| ensures !OccursAt(v, ".mp4", t) {
      if t + 4 <= |base| {
        assert v[t..t + 4] == base[t..t + 4];
        assert !OccursAt(base, ".mp4", t);
      } else {
        assert v[t..t + 4][|base| - t] == v[|base|] == '.';
      }
    }
    assert IndexOf(v, ".mp4") == Some(|base|);
    assert v[..|base|] == base && v[|base| + 4..] == [];
  }

  /** Only the first `.mp4` changes: `a.mp4.mp4` becomes `a.mp3.mp4`. */
  lemma AudioPathExample()
    ensures AudioPath("a.mp4.mp4") == "a.mp3.mp4"
  {
    var v := "a.mp4.mp4";
    assert OccursAt(v, ".mp4", 1);
    assert v[0..4][0] == 'a';
    assert IndexOf(v, ".mp4") == Some(1);
  }

  // ---------------------------------------------------------------------------
  // Jobs and names

  /** `setStartTime(start)` and `setDuration(end - start)`; the duration may be negative. */
  datatype Window = Window(start: nat, duration: int)

  /**
   * One ffmpeg run: the source video, the cut (`None` when a decoded value
   * is NaN), the subtitle file and the text written to it, and the output file.
   */
  datatype RenderJob = RenderJob(video: string, window: Option<Window>, subtitleFile: string, subtitles: string, outputFile: string)

  /** How an ffmpeg run ends: the `end` event, or the `error` event with its message. */
  datatype RenderOutcome = Rendered | Failed(message: string)

  function ClipName(i: nat): string {
    "clip_" + NatToDecimal(i) + ".mp4"
  }

  function SubtitleName(i: nat): string {
    "subtitle_" + NatToDecimal(i) + ".srt"
  }

  /** The public URL pushed onto `shortVideos` for moment `i`. */
  function ClipUrl(i: nat): string {
    "/short_videos/" + ClipName(i)
  }

  /** The URLs of the first `n` clips, in order. */
  function ClipUrls(n: nat): (urls: seq<string>)
    ensures |urls| == n
    ensures forall i :: 0 <= i < n ==> urls[i] == ClipUrl(i)
  {
    if n == 0 then [] else ClipUrls(n - 1) + [ClipUrl(n - 1)]
  }

  /** `path.join(dir, name)` for a directory given without a trailing separator. */
  function JoinPath(dir: string, name: string): string {
    dir + "/" + name
  }

  /** `captions[i]` inside a template literal: past the end of the array it prints `undefined`. */
  function CaptionAt(captions: seq<string>, i: nat): string {
    if i < |captions| then captions[i] else "undefined"
  }

  /** `timestamps[i].split("-").map(Number)` as a start and a duration. */
  function ClipWindow(key: string): Option<Window> {
    match DecodeKey(key)
    case None => None
    case Some((start, end)) => Some(Window(start, end as int - start as int))
  }

  /** The ffmpeg run for moment `i`. */
  function ClipJob(video: string, outputDir: string, subtitlesDir: string,
                   timestamps: seq<string>, captions: seq<string>, i: nat): (job: RenderJob)
    requires i < |timestamps|
    ensures job.video == video
    ensures job.window.Some? <==> DecodeKey(timestamps[i]).Some?
    ensures job.window.Some? ==>
      var (start, end) := DecodeKey(timestamps[i]).value;
      job.window.value.start == start && job.window.value.start + job.window.value.duration == end
    ensures job.subtitleFile != job.outputFile
  {
    SubtitleFileIsNotClip(outputDir, subtitlesDir, i);
    RenderJob(video, ClipWindow(timestamps[i]), JoinPath(subtitlesDir, SubtitleName(i)),
              SrtText(AllSegments([timestamps[i]], [CaptionAt(captions, i)]), 1),
              JoinPath(outputDir, ClipName(i)))
  }

  /** The subtitle file ends in `.srt` and the clip in `.mp4`, so they never coincide. */
  lemma SubtitleFileIsNotClip(outputDir: string, subtitlesDir: string, i: nat)
    ensures JoinPath(subtitlesDir, SubtitleName(i)) != JoinPath(outputDir, ClipName(i))
  {
    var srt, clip := JoinPath(subtitlesDir, SubtitleName(i)), JoinPath(outputDir, ClipName(i));
    assert srt[|srt| - 1] == 't';
    assert clip[|clip| - 1] == '4';
  }

  // ---------------------------------------------------------------------------
  // The clip loop

  /**
   * `generateShortClipsWithCaptions(videoPath, timestamps, captions)`. On
   * success, the URLs of all clips in order; otherwise the rejection of the
   * first failed render, after which nothing more is rendered.
   */
  method GenerateShortClips(video: string, outputDir: string, subtitlesDir: string,
                            timestamps: seq<string>, captions: seq<string>,
                            render: RenderJob -> RenderOutcome)
    returns (result: Result<seq<string>, string>)
    ensures result.Ok? ==>
      && RenderedBefore(video, outputDir, subtitlesDir, timestamps, captions, render, |timestamps|)
      && |result.value| == |timestamps|
      && forall i :: 0 <= i < |timestamps| ==> result.value[i] == ClipUrl(i)
    ensures result.Err? ==>
      exists f :: FirstFailure(video, outputDir, subtitlesDir, timestamps, captions, render, f, result.error)
  {
    var shortVideos := [];
    for i := 0 to |timestamps|
      invariant RenderedBefore(video, outputDir, subtitlesDir, timestamps, captions, render, i)
      invariant shortVideos == ClipUrls(i)
    {
      var window := ClipWindow(timestamps[i]);
      var outputClip := JoinPath(outputDir, ClipName(i));
      var srtFile := JoinPath(subtitlesDir, SubtitleName(i));
      var subtitles := GenerateSrtSubtitles([timestamps[i]], [CaptionAt(captions, i)]);
      var job := RenderJob(video, window, srtFile, subtitles, outputClip);
      assert job == ClipJob(video, outputDir, subtitlesDir, timestamps, captions, i);
      var outcome := render(job);
      if outcome.Failed? {
        assert FirstFailure(video, outputDir, subtitlesDir, timestamps, captions, render, i, "FFmpeg error: " + outcome.message);
        return Err("FFmpeg error: " + outcome.message);
      }
      RenderedStep(video, outputDir, subtitlesDir, timestamps, captions, render, i);
      shortVideos := shortVideos + [ClipUrl(i)];
    }
    return Ok(shortVideos);
  }

  /** The renders of moments `0` to `n - 1` all succeeded. */
  ghost predicate RenderedBefore(video: string, outputDir: string, subtitlesDir: string,
                                 timestamps: seq<string>, captions: seq<string>,
                                 render: RenderJob -> RenderOutcome, n: nat)
    requires n <= |timestamps|
  {
    forall i :: 0 <= i < n ==> render(ClipJob(video, outputDir, subtitlesDir, timestamps, captions, i)) == Rendered
  }

  lemma RenderedStep(video: string, outputDir: string, subtitlesDir: string,
                     timestamps: seq<string>, captions: seq<string>,
                     render: RenderJob -> RenderOutcome, n: nat)
    requires n < |timestamps|
    requires RenderedBefore(video, outputDir, subtitlesDir, timestamps, captions, render, n)
    requires render(ClipJob(video, outputDir, subtitlesDir, timestamps, captions, n)) == Rendered
    ensures RenderedBefore(video, outputDir, subtitlesDir, timestamps, captions, render, n + 1)
  {
  }

  /**
   * Moment `f` is the first whose render failed, and `error` is the rejection
   * message built from that failure.
   */
  ghost predicate FirstFailure(video: string, outputDir: string, subtitlesDir: string,
                               timestamps: seq<string>, captions: seq<string>,
                               render: RenderJob -> RenderOutcome, f: int, error: string)
  {
    && 0 <= f < |timestamps|
    && RenderedBefore(video, outputDir, subtitlesDir, timestamps, captions, render, f)
    && var outcome := render(ClipJob(video, outputDir, subtitlesDir, timestamps, captions, f));
       outcome.Failed? && error == "FFmpeg error: " + outcome.message
  }

  // ---------------------------------------------------------------------------
  // Properties of the names and jobs

  /** Different moments never share a clip file, a subtitle file or a URL. */
  lemma ClipNamesDistinct(i: nat, j: nat)
    requires i != j
    ensures ClipName(i) != ClipName(j)
    ensures SubtitleName(i) != SubtitleName(j)
    ensures ClipUrl(i) != ClipUrl(j)
  {
    DecimalInMiddle("clip_", ".mp4", i, j);
    DecimalInMiddle("subtitle_", ".srt", i, j);
    assert ClipUrl(i)[14..] == ClipName(i) && ClipUrl(j)[14..] == ClipName(j);
  }

  /** A number framed by a fixed prefix and suffix can be read back from the frame. */
  lemma DecimalInMiddle(prefix: string, suffix: string, i: nat, j: nat)
    requires i != j
    ensures prefix + NatToDecimal(i) + suffix != prefix + NatToDecimal(j) + suffix
  {
    var a, b := prefix + NatToDecimal(i) + suffix, prefix + NatToDecimal(j) + suffix;
    assert a[|prefix|..|a| - |suffix|] == NatToDecimal(i);
    assert b[|prefix|..|b| - |suffix|] == NatToDecimal(j);
  }

  /**
   * The subtitle file of moment `i` holds at most one cue: the first four
   * seconds of the moment, in the source video's seconds, numbered 1 and
   * carrying `captions[i]` (or `undefined` past the end of `captions`).
   */
  lemma ClipJobSubtitles(video: string, outputDir: string, subtitlesDir: string,
                         timestamps: seq<string>, captions: seq<string>, i: nat)
    requires i < |timestamps| && DecodeKey(timestamps[i]).Some?
    ensures var (start, end) := DecodeKey(timestamps[i]).value;
      var job := ClipJob(video, outputDir, subtitlesDir, timestamps, captions, i);
      && job.window == Some(Window(start, end as int - start as int))
      && job.subtitles == if start + 4 <= end then SrtBlock(1, Segment(start, start + 4, CaptionAt(captions, i))) else ""
  {
    ClipSubtitles(timestamps[i], CaptionAt(captions, i));
  }

  /** A key that does not decode gives a job without a cut and an empty subtitle file. */
  lemma ClipJobUndecodable(video: string, outputDir: string, subtitlesDir: string,
                           timestamps: seq<string>, captions: seq<string>, i: nat)
    requires i < |timestamps| && DecodeKey(timestamps[i]).None?
    ensures var job := ClipJob(video, outputDir, subtitlesDir, timestamps, captions, i);
      job.window == None && job.subtitles == ""
  {
    var segs := Segments(timestamps[i], [CaptionAt(captions, i)]);
    assert AllSegments([timestamps[i]], [CaptionAt(captions, i)]) == segs by {
      assert SegmentsPerKey([timestamps[i]], [CaptionAt(captions, i)]) == [segs];
      ConcatSingle(segs);
    }
    assert SrtBlocks([], 1) == [];
  }
}
