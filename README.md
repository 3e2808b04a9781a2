# short-video-app: the subtitle and clip pipeline, in Dafny

This project models the string and list logic at the centre of the
short-video pipeline. An uploaded video has its audio extracted and
transcribed. A language model is asked for "key moments", one per line as
`start-end: caption`. Each moment is then cut into a short clip with SRT
subtitles burnt in. A second route turns a whole transcript into a naive SRT
file. The model covers:

- **the key-moment parser** (`key_moments.dfy`). The language model's reply is
  split into lines. Each line is matched against `^(\d+)-(\d+):\s*(.+)$`, with
  JavaScript's meaning of `\d`, `\s`, `.` and greedy backtracking. A kept line
  pushes its key `a-b` and its raw caption. The key is read back with
  `split("-").map(Number)`.
- **the SRT timestamp** (`timestamps.dfy`): `new Date(s*1000).toISOString()`,
  characters 11 to 22, with the first `.` turned into `,`.
- **`generateSrtSubtitles`** (`srt.dfy`). For each key there are
  `min(captions.length, floor((end-start)/4))` cues, four seconds each, in
  source-absolute seconds. Cue `j` carries `captions[j]`, and the numbering
  runs on across keys. It is an imperative method with its loops, proved
  against the function `SrtText` of the segments.
- **the clip loop and the audio path** (`clips.dfy`). Each moment `i` has its
  own file names, its own one-moment SRT text and an ffmpeg render. The
  render is a parameter that maps a job to success or a failure message. On
  success the URL `/short_videos/clip_i.mp4` is pushed. The first failure
  rejects the call. The audio path replaces the first `.mp4` with `.mp3`.
- **the caption route's `generateSubtitles`** (`captions.dfy`): `split('. ')`,
  one three-second cue per piece with a hand-written `00:00:<s>,000` stamp,
  then `join('\n')`.

`text.dfy` holds the JavaScript string operations these rely on, on
`seq<char>`: decimal digits, `indexOf`, `split`, `join`, and `replace` with a
string pattern. `wrappers.dfy` holds `Option` and `Result`.

Some details of the code that the model keeps as they are:

- The caption is kept as matched, untrimmed and with any quotes.
- Cue times are in the source video's seconds, counted from the start of the
  video rather than from the start of the clip.
- The number of cues of a key is `floor((end-start)/4)`, capped by
  `captions.length`, and zero for a short or reversed range.
- Cue `j` of every key takes `captions[j]` from the whole caption list, so
  every key starts again from the first caption.

## Model

| member | source | states |
|---|---|---|
| KeyMoments.MatchLine | src/app/api/process/route.ts:123 | `line.match(/^(\d+)-(\d+):\s*(.+)$/)`: the two digit groups and the caption group, or no match; on a match all three groups are non-empty and, with the `-` and the `:`, fit inside the line (the full characterisation is `MatchLineSound` and `MatchLineComplete`) |
| KeyMoments.MatchLineSound | src/app/api/process/route.ts:123 | a successful match is an accepting split of the line into digits, `-`, digits, `:`, white space and a non-empty caption of non-terminators; its groups are the raw slices of the line, and no accepting split starts the caption later (greedy `\s*`) |
| KeyMoments.MatchLineComplete | src/app/api/process/route.ts:123 | conversely, any accepting split makes the match succeed with the same two digit groups, so a line is kept exactly when it has the form |
| KeyMoments.MatchLineOfParts | src/app/api/process/route.ts:123-126 | for non-empty digit groups `first` and `second`, white space `ws` and a non-empty `caption` without line terminators that does not start with white space, the line `first-second:ws caption` gives back exactly `first`, `second` and `caption` |
| KeyMoments.MatchLineExample | src/app/api/process/route.ts:105-110 | `10-30: Hello world` yields the groups `10`, `30` and `Hello world` |
| KeyMoments.MatchLineKeepsQuotes | src/app/api/process/route.ts:123-126 | quotes stay in the caption, and a range whose end is below its start is still kept |
| KeyMoments.MatchLineBacktracks | src/app/api/process/route.ts:123 | when only white space follows the colon, `\s*` gives back one character, which becomes the caption |
| KeyMoments.MatchLineRejectsCarriageReturn | src/app/api/process/route.ts:122-123 | a line that ends in `\r` fails `.+$` and is skipped |
| KeyMoments.MatchLineRejectsProse | src/app/api/process/route.ts:124 | a line of prose is skipped without error |
| KeyMoments.KeyOf | src/app/api/process/route.ts:125 | the key `${match[1]}-${match[2]}`: one character longer than the two groups, and, when neither group holds a `-`, `split("-")` gives back exactly the two groups |
| KeyMoments.DecodeKey | src/app/api/process/route.ts:141 | `key.split("-").map(Number)` as a start and an end, or `None` when either is NaN or missing; a key without `-` never decodes, because its second value is `undefined` |
| KeyMoments.KeyRoundTrip | src/app/api/process/route.ts:141 | the key `a-b` stored at line 125 decodes through `split("-").map(Number)` to exactly the two integers the line carried |
| KeyMoments.ExtractKeyMoments | src/app/api/process/route.ts:119-129 | `keyMoments` and `captions` have one entry per matching line, in line order; entry `k` of each comes from the same line (its key and its raw caption) |
| KeyMoments.CollectStep | src/app/api/process/route.ts:122-127 | one turn of the `forEach` pushes onto both arrays on a match and leaves both alone otherwise |
| Timestamps.Timecode | src/app/api/process/route.ts:149-157 | the stamp is 12 characters, `HH:MM:SS,000` |
| Timestamps.TimecodeFields | src/app/api/process/route.ts:149-152 | the fields are zero-padded digits equal to hours mod 24, minutes and seconds of `s` |
| Timestamps.TimecodeRoundTrip | src/app/api/process/route.ts:149-157 | reading the stamp back gives `s` mod 86400 |
| Timestamps.TimecodeExactWithinDay | src/app/api/process/route.ts:149-157 | for `s` under one day the stamp reads back as `s` exactly |
| Timestamps.TimecodeWrapsDaily | src/app/api/process/route.ts:149-157 | the stamp of `s` and of `s + 86400` are equal (hours wrap mod 24) |
| Srt.Cues | src/app/api/process/route.ts:142-159 | the cues of a decoded range: at most one per caption; cue `j` runs from `start+4j` to `start+4j+4`, inside the range, and carries `captions[j]` |
| Srt.Segments | src/app/api/process/route.ts:141-159 | the cues of one key: none when the key does not decode, at most one per caption, and each lasts four seconds and carries the caption of its position |
| Srt.CueCount | src/app/api/process/route.ts:142-143 | the cue count is at most the number of captions; its cues fit in the range; it stops only at the captions or at the range |
| Srt.SegmentCount | src/app/api/process/route.ts:141-145 | per key: no cue for an undecodable key, and no cue when the range is under 4 seconds or reversed; otherwise the number of cues is `min(captions, floor(duration/4))` |
| Srt.CueWindow | src/app/api/process/route.ts:145-159 | cue `j` spans `start+4j` to `start+4j+4` (the `min` with `end` never shortens it) and carries `captions[j]` |
| Srt.WriteCues | src/app/api/process/route.ts:145-161 | the inner loop appends the blocks of the range's cues numbered from `counter`, and leaves the counter past them |
| Srt.GenerateSrtSubtitles | src/app/api/process/route.ts:132-165 | the text built is the SRT text of all cues of all keys in order, numbered from 1 |
| Srt.SrtTextAppend | src/app/api/process/route.ts:159-160 | the SRT text of two runs of cues is the first's text followed by the second's, with numbering continuing |
| Srt.SrtIndicesContinue | src/app/api/process/route.ts:138-160 | over two lists of keys, the numbering of the second list starts right after the last cue of the first |
| Srt.AllSegmentsAppend | src/app/api/process/route.ts:140 | the cues of concatenated key lists are the cues of each list, in order |
| Srt.SrtBlock | src/app/api/process/route.ts:159 | the block of one cue: its number, a line break, a timing line of fixed width `HH:MM:SS,000 --> HH:MM:SS,000`, the text and two line breaks; its length is the number's and the text's plus 33 |
| Srt.SrtBlockLines | src/app/api/process/route.ts:159 | for a cue text without line breaks, a block reads as the index, `start --> end`, the text and two empty lines, which is one blank line after the cue |
| Srt.ClipSubtitles | src/app/api/process/route.ts:189 | the SRT for one moment holds at most one cue: the first four seconds of its range, numbered 1 |
| Clips.AudioPath | src/app/api/process/route.ts:69 | `videoPath.replace(".mp4", ".mp3")`: the same length, and at most one character changes, a `4` into a `3` |
| Clips.AudioPathWithoutMp4 | src/app/api/process/route.ts:69 | a path without `.mp4` is unchanged |
| Clips.AudioPathReplacesFirst | src/app/api/process/route.ts:69 | with a first `.mp4` at `k`, only the `4` at `k+3` changes, to `3`; the length and every other character stay |
| Clips.AudioPathOfMp4 | src/app/api/process/route.ts:69 | `base.mp4`, with no `.mp4` in `base`, becomes `base.mp3` |
| Clips.AudioPathExample | src/app/api/process/route.ts:69 | `a.mp4.mp4` becomes `a.mp3.mp4`, not `a.mp3.mp3` |
| Clips.ClipJob | src/app/api/process/route.ts:182-194 | the ffmpeg run of moment `i`: the input video, a cut that exists exactly when the key decodes and then starts at `start` and ends at `end`, the one-moment subtitles, and a subtitle file that is never the clip file |
| Clips.GenerateShortClips | src/app/api/process/route.ts:181-213 | on success every render succeeded and the result is the URLs `/short_videos/clip_i.mp4` in order; on failure there is a first failed moment, all before it rendered, and the rejection is `FFmpeg error: ` with its message |
| Clips.ClipNamesDistinct | src/app/api/process/route.ts:184-185 | two moments never share a clip file, a subtitle file or a URL |
| Clips.ClipJobSubtitles | src/app/api/process/route.ts:182-194 | the job of a decodable moment cuts from `start` for `end - start` seconds, and its subtitles are the single cue of `captions[i]` (or none for a range under 4 seconds) |
| Clips.ClipJobUndecodable | src/app/api/process/route.ts:182-189 | the job of an undecodable moment has no cut and an empty subtitle file |
| Clips.ClipUrls | src/app/api/process/route.ts:202 | the first `n` URLs are `/short_videos/clip_0.mp4` to `clip_(n-1).mp4` |
| Captions.CaptionLines | src/app/api/caption/route.ts:12-13 | the transcript always gives at least one piece, hence at least one cue |
| Captions.CaptionBlock | src/app/api/caption/route.ts:14-17 | the block the `map` callback returns for piece `i`: the number `i+1`, then a line break, and a last line break after the piece |
| Captions.GenerateSubtitles | src/app/api/caption/route.ts:11-24 | the file `generateSubtitles` writes: it always starts with cue `1` from `00:00:0,000` to `00:00:3,000` and ends with a line break |
| Captions.CueLines | src/app/api/caption/route.ts:17 | the reference layout of cue `i`: number `i+1`, the stamps of seconds `3i` and `3i+3`, the text and a blank line |
| Captions.CaptionBlockLines | src/app/api/caption/route.ts:14-17 | for a piece without line breaks, the block of piece `i` reads line by line as the reference layout, ending in a single line break |
| Captions.SubtitlesLayout | src/app/api/caption/route.ts:12-19 | for a transcript without line breaks, the file, line by line, is the layouts of all cues in order, one per piece; there is exactly one blank line after each cue and no trailing blank line |
| Captions.EmptyTranscript | src/app/api/caption/route.ts:12-19 | the empty transcript gives the single cue `1`, `00:00:0,000 --> 00:00:3,000`, with empty text |
| Captions.CaptionTextRoundTrip | src/app/api/caption/route.ts:13 | the cue texts joined with `. ` give back the transcript, and no cue text contains `. ` |
| Captions.CaptionStampAsTimecode | src/app/api/caption/route.ts:17 | the hand-written stamp agrees with the `HH:MM:SS,000` form exactly for seconds 10 to 59 |
| Captions.CaptionStampReadBack | src/app/api/caption/route.ts:15-17 | read as an SRT timestamp, the stamp means its second for 10 to 59 and is malformed otherwise (no padding below 10, no carry from 60) |
| Captions.TwentyFirstCue | src/app/api/caption/route.ts:15-17 | the 21st cue starts at `00:00:60,000`, which is not a valid timestamp |
| Text.NatToDecimal | src/app/api/process/route.ts:159 | the decimal text of `n` has digits only, denotes `n`, has no leading zero, and has one digit below 10 and two below 100 |
| Text.JoinSplit | src/app/api/caption/route.ts:13 | joining the pieces of a split with the same separator gives back the string |
| Text.SplitPiecesFree | src/app/api/caption/route.ts:13 | no piece of a split contains the separator |
| Text.SplitJoin | src/app/api/caption/route.ts:19 | the lines of texts joined by line breaks are the lines of each text, one after another |

## Left out

- The network calls are not modelled: AssemblyAI transcription, the Gemini
  request, the Vercel Blob upload and the one-second wait. The parser takes
  the model's reply as a parameter.
- The file system is not modelled (`existsSync`, `mkdirSync`,
  `readFileSync`, `writeFileSync`). `generateSrtSubtitles` and
  `generateSubtitles` return the text they would write. The clip job carries
  the SRT text with the path it is written to.
- ffmpeg is not modelled: audio extraction, trimming and subtitle burn-in.
  Rendering is a pure function from a job to success or a failure message.
  The burn-in style string is a constant passed to ffmpeg and is left out.
  The audio extraction's own success or failure is left out with it; only
  its path is modelled.
- The MongoDB update, the HTTP request and response handling, the React page
  and the other API routes are not modelled.
- KeyMoments.MatchLine: its own contract states only that the groups are non-empty and fit in the line; that the groups are digits, that the caption has no line terminator and where each group sits are stated by `MatchLineSound` and `MatchLineComplete` instead, because on the function itself they make the proofs that unfold it too slow.
- KeyMoments.ToNumber: `Number` is modelled for the empty string and for
  runs of ASCII digits only, since these are the only strings a stored key
  can split into. Signs, white space, exponents, hexadecimal and the
  precision loss of very long digit strings are left out.
- Clips.ClipWindow: a key that decodes to NaN is modelled as a job with no
  cut. ffmpeg's handling of a NaN start or duration is not modelled.
- Timestamps.Timecode: covers only dates whose year has four digits. For
  later dates `toISOString` changes its layout or throws; those seconds are
  far outside any video.
- Clips.JoinPath: `path.join` is a plain `/` join. Normalisation of `..`,
  repeated separators and trailing separators is left out.
- Clips.GenerateShortClips: the model is sequential. Each render is awaited
  before the next moment starts, as in the source, and concurrent runs are
  not modelled. The `console.log` and `console.error` calls are left out.
- Strings are sequences of Dafny characters. JavaScript's UTF-16 code units
  and surrogate pairs are not told apart, and no encoding is modelled.
