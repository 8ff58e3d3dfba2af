# ffmpeg.go media converter, modelled in Dafny

`ffmpeg.go` is a small builder around the `ffmpeg` command-line tool. A
`MediaConverter` holds a media kind, an input path and a `MediaOptions`
record. Its chained setters overwrite fields of that record in place. Two
compilers then turn the record into the argument vector of one `ffmpeg`
run: `buildFFmpegArgs` for a general conversion and `buildGIFArgs` for an
animated GIF. `Convert` and `ToGIF` run the tool and report the output path
or a combined error. `FromFiber` fills a converter from the query string of
an HTTP request and warns about video-only parameters given for any other
kind.

The project has one module per concern:

- `results.dfy` (`Results`): `Option` and `Result`.
- `text.dfy` (`Text`):
  - `IntToString`, the decimal rendering of `strconv.Itoa`, with its
    inverse `ParseDecimal`;
  - `Split` and `Join`, with the semantics of Go's `strings.Split` and
    `strings.Join`;
  - `IndexOf`.
- `ffmpeg.dfy` (`FFmpeg`):
  - the kinds and the options record;
  - `OutputExtension`;
  - the two compilers, written as pure functions: a general vector is
    `-i input`, then one optional group per option in the source's order,
    then `-y outputFile`;
  - the `MediaConverter` class, with its constructor (`NewConverter`),
    setters, `Convert` and `ToGIF`. The `ffmpeg` run is a function
    parameter.
- `ffmpeg_decode.dfy` (`FFmpegDecode`):
  - a reader `Decode` that takes a general vector apart group by group;
  - the proof that decoding any compiled vector gives back exactly the
    groups whose guards hold. This is the inverse that pins down the
    general compiler.
- `ffmpeg_properties.dfy` (`FFmpegProperties`):
  - concrete vectors, among them the default vector and the
    combined-operations scenario of the tests;
  - the cut window;
  - the two scale filters;
  - the GIF-path properties.
- `fiber_adapter.dfy` (`FiberAdapter`): `FromFiber` as a method that calls
  the setters, proved against the function `PopulatedOptions` and the
  warning list `IgnoredWarnings`.

Two facts about the code that a reader might not expect:

- The failure text is `ffmpeg error: <err>, output: <output>`
  (ffmpeg.go:189, 207).
- The ignored-parameter warnings are produced for every kind other than
  `"video"` (ffmpeg.go:75, 91), although their text says "for images". The
  tests create converters of kind `"jpg"`.

## Model

| member | source | states |
|---|---|---|
| Text.IntToString | ffmpeg.go:251 | `strconv.Itoa`: one or more characters; a leading '-' exactly for negative numbers; every other character a digit; no leading zero |
| Text.IntToStringRoundTrip | ffmpeg.go:251 | parsing the rendering of any integer gives the integer back |
| Text.IntToStringInjective | ffmpeg.go:266 | distinct numbers render as distinct tokens |
| Text.IndexOf | ffmpeg.go:230 | the first position of the separator, or the length when it is absent; no earlier occurrence |
| Text.Split | ffmpeg.go:230-231 | `strings.Split`: at least one piece; two or more exactly when the separator occurs |
| Text.SplitJoin | ffmpeg.go:230-231 | joining the pieces with the separator restores the string |
| Text.SplitPiecesOmitSeparator | ffmpeg.go:230-231 | no piece contains the separator |
| Text.SplitAtFirst | ffmpeg.go:230-231 | the first piece is the text before the first separator; the remaining pieces are the split of the text after it |
| Text.FirstTwoPieces | ffmpeg.go:230-231 | pieces 0 and 1 of a cut window are the text before the first ':' and the text between the first and the second ':' |
| FFmpeg.OutputExtension | ffmpeg.go:214-222 | a set format is the extension; otherwise "webm" exactly for the video kind and "webp" for every other kind; never empty |
| FFmpeg.FFmpegArgs | ffmpeg.go:225-272 | the general vector starts with `-i input` and ends with `-y outputFile` |
| FFmpeg.GIFArgs | ffmpeg.go:275-299 | the GIF vector starts with `-i input`, ends with `-y outputFile` and has an even length |
| FFmpeg.Outcome | ffmpeg.go:186-192 | success with the output path exactly when the run did not fail; otherwise the error text `ffmpeg error: <err>, output: <output>` |
| FFmpeg.MediaConverter.constructor | ffmpeg.go:46-52 | `NewConverter`: the given kind and input, quality 90 and nothing else set |
| FFmpeg.MediaConverter.Resize | ffmpeg.go:119-123 | sets width and height, both, so a 0 overwrites an earlier size; nothing else changes; returns the receiver |
| FFmpeg.MediaConverter.ResizeScale | ffmpeg.go:125-128 | sets only the scale percentage; returns the receiver |
| FFmpeg.MediaConverter.Crop | ffmpeg.go:131-134 | sets only the crop descriptor; returns the receiver |
| FFmpeg.MediaConverter.Quality | ffmpeg.go:137-140 | sets only the quality, unchecked; returns the receiver |
| FFmpeg.MediaConverter.Format | ffmpeg.go:143-146 | sets only the format; returns the receiver |
| FFmpeg.MediaConverter.SetDuration | ffmpeg.go:149-153 | sets start and end, both, so a 0 overwrites an earlier value; returns the receiver |
| FFmpeg.MediaConverter.SetFrameRate | ffmpeg.go:156-159 | sets only the frame rate; returns the receiver |
| FFmpeg.MediaConverter.SetBitrate | ffmpeg.go:162-165 | sets only the bitrate; returns the receiver |
| FFmpeg.MediaConverter.SetCRF | ffmpeg.go:168-171 | sets only the CRF; returns the receiver |
| FFmpeg.MediaConverter.ExtractFrame | ffmpeg.go:174-177 | sets only the frame time; returns the receiver |
| FFmpeg.MediaConverter.Convert | ffmpeg.go:180-193 | returns `Outcome` of ffmpeg applied to the general vector for `<dir>/<name>.<extension>`: that path, or the combined error if the run fails |
| FFmpeg.MediaConverter.ToGIF | ffmpeg.go:196-211 | returns `Outcome` of ffmpeg applied to the GIF vector for `<dir>/<name>.gif`: that path, or the combined error if the run fails |
| FFmpegDecode.DecodeFFmpegArgs | ffmpeg.go:225-272 | reading a compiled general vector back gives exactly the groups whose guards hold, with their values, in the order cut, frame, percentage scale, fixed scale, crop, rate, bitrate, CRF, quality |
| FFmpegDecode.ConcatHead | ffmpeg.go:228-270 | after any prefix of groups, the vector continues with the flag of a later group or with `-y` |
| FFmpegProperties.DefaultConverterArgs | ffmpeg.go:46-52 | a new converter compiles to `-i input -q:v 90 -y outputFile` |
| FFmpegProperties.CutWindowTokens | ffmpeg.go:229-232 | with a cut window set, `-ss <part 0> -t <part 1>` follows the input directly |
| FFmpegProperties.QualityPrecedesOutput | ffmpeg.go:264-270 | a positive quality yields `-q:v <quality>` immediately before `-y outputFile` |
| FFmpegProperties.BothScaleFilters | ffmpeg.go:238-244 | with both a percentage and a size set, two `-vf` filters follow the cut and frame groups, the percentage one first |
| FFmpegProperties.GIFMiddleTokens | ffmpeg.go:275-299 | every GIF token between input and output is `-ss`, `-t`, `-vf`, `-r`, a number or the fixed scale filter |
| FFmpegProperties.GIFSeekExactlyWithWindow | ffmpeg.go:279-280 | `-ss` appears exactly when a start or an end is set, and is then `-ss <start>` right after the input |
| FFmpegProperties.GIFDurationExactlyWhenEndAfterStart | ffmpeg.go:279-284 | `-t` appears exactly when a window is set and the end lies after the start, and is then `-t <end - start>` right after `-ss <start>` |
| FFmpegProperties.GIFScaleExactlyWithSize | ffmpeg.go:287-289 | `-vf` appears exactly when a width or a height is set, and is then `-vf scale=W:H` directly after the time-window group |
| FFmpegProperties.GIFRateExactlyWithFrameRate | ffmpeg.go:292-298 | `-r` appears exactly when a frame rate is set, and is then `-r <rate>` directly before `-y outputFile` |
| FFmpegProperties.GIFLength | ffmpeg.go:275-299 | the GIF vector holds `-i input`, `-y outputFile` and, between them, exactly 4, 2 or 0 window tokens, 2 or 0 scale tokens and 2 or 0 rate tokens, as the guards decide, so no group appears twice |
| FFmpegProperties.GIFOmitsGeneralOnlyOptions | ffmpeg.go:275-299 | a GIF vector never carries a crop filter, a percentage scale, `-b:v`, `-crf`, `-q:v` or `-vframes` |
| FFmpegProperties.ResizeQualityFormatChain | tests/simple_test.go:88-91 | `Resize(800, 600).Quality(75).Format("webp")` on a new converter gives size 800x600, quality 75 and format webp, everything else at its default |
| FFmpegProperties.ChainedConverterArgs | tests/simple_test.go:88-94 | the chained converter writes `.webp` and compiles to `-i input -vf scale=800:600 -q:v 75 -y outputFile` |
| FFmpegProperties.CombinedOperations | tests/simple_test.go:84-106 | the chained converter runs ffmpeg on exactly that vector for `<dir>/w800-h600-q75.webp` and reports that path unless the run fails |
| FiberAdapter.Query.Get | ffmpeg.go:70 | `c.Query`: an absent parameter reads as "" |
| FiberAdapter.Query.GetInt | ffmpeg.go:61 | `c.QueryInt`: an absent or unparsable parameter reads as 0 |
| FiberAdapter.PopulatedOptions | ffmpeg.go:56-116 | for a kind other than video, rate, start, end, bitrate and CRF keep their defaults; a queried height wipes a queried width; the crop is taken for every kind; quality is the queried one or 90; scale, cut and frame time stay unset |
| FiberAdapter.VideoParamsApplied | ffmpeg.go:75-90 | for video, a given rate, bitrate and CRF are taken; a positive end replaces the window and resets a queried start to 0; otherwise a positive start is kept with no end |
| FiberAdapter.SizeAndFormatApplied | ffmpeg.go:61-72 | the format is the queried one; without a positive height, the width is the queried positive width or 0 and the height is 0 |
| FiberAdapter.ApplyVideoParams | ffmpeg.go:75-90 | the video branch through the setters: a given rate, bitrate and CRF replace the old ones; a positive end sets the window to (0, end), otherwise a positive start sets it to (start, 0); nothing else changes |
| FiberAdapter.WarnIgnored | ffmpeg.go:91-108 | the warnings gathered for fps, start, end, bitrate and crf, in that order, one per parameter given with a non-empty value |
| FiberAdapter.IgnoredWarningsDiffer | ffmpeg.go:92-107 | the five warning texts are pairwise distinct |
| FiberAdapter.WarnedExactlyWhenGiven | ffmpeg.go:91-108 | a video-only parameter is warned about exactly when it is given with a non-empty value |
| FiberAdapter.FromFiber | ffmpeg.go:56-116 | a new converter of the kind on the input whose options are `PopulatedOptions`; no warnings for video, the ordered ignored-parameter warnings for every other kind |
| FiberAdapter.ImageWithFrameRateAndCrop | ffmpeg.go:91-113 | an image request with `fps=30` and a crop: rate 0, crop applied, quality 90, and the single fps warning |

## Left out

- Process execution (`exec.Command`, `CombinedOutput`): the run of `ffmpeg`
  is a function parameter from the argument vector to its outcome. What the
  tool does with the arguments is not modelled.
- `filepath.Join`: modelled as `dir + "/" + file`, without Go's path
  cleaning (duplicate slashes, `..`, an empty directory).
- `fmt.Errorf` with `%v`: the error is taken as its already rendered text.
- `fiber.Ctx`: the query string is a map from the ten parameters
  `FromFiber` reads to their raw text, plus a map to the integers Fiber
  parses from them. How Fiber parses an integer is not modelled. Parameters
  `FromFiber` never reads are not represented.
- Go's 64-bit `int`: sizes, times, rates and CRF are unbounded integers.
  Overflow of `EndTime - StartTime` (ffmpeg.go:282) is not modelled.
- `fmt.Sprintf` and `strconv.Itoa` are modelled only for decimal integers
  and string concatenation, which is all the source formats.
- FFmpeg.FFmpegArgs: requires a cut window, when set, to contain a ':'.
  Without one, `strings.Split(...)[1]` panics in Go (ffmpeg.go:231), and
  the model does not represent the panic. `Convert` carries the same
  precondition.
- FFmpeg.FFmpegArgs, FFmpeg.GIFArgs: the source builds each vector by
  appending to a local slice. The model states each vector as a
  concatenation of groups, so the intermediate slices are not modelled.
- FiberAdapter.WarnIgnored, FiberAdapter.ApplyVideoParams: the two branches
  of `FromFiber` (ffmpeg.go:75-108) are methods of their own here.
  `FromFiber` calls them at the same point.
- `MediaKind` is a plain string, as in Go. Any text is accepted as a kind.
- The commented-out usage example at the end of ffmpeg.go (a Fiber HTTP
  server) is not part of this model.
