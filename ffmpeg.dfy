/** The media converter of ffmpeg.go: an option record filled in through
    chained setters, and the two functions that compile it into the
    argument vector of an `ffmpeg` invocation (a general conversion and an
    animated GIF). Running the external binary is a parameter here. */
module FFmpeg {
  import opened Results
  import opened Text

  /** `MediaKind` is a Go string type: any text is a kind, and only
      "video" is treated specially. */
  type MediaKind = string

  const ImageKind: MediaKind := "image"
  const VideoKind: MediaKind := "video"

  /** `MediaOptions`: every option of a conversion. Zero or empty means
      "not set" for every field; nothing is range-checked. */
  datatype Options = Options(
    width: int,
    height: int,
    crop: string,        // "w:h:x:y", passed through
    quality: int,
    resizeScale: int,    // percentage
    cutVideo: string,    // "start:duration"
    format: string,
    frameTime: string,
    startTime: int,
    endTime: int,
    frameRate: int,
    bitrate: string,
    crf: int)

  /** The options of a new converter: quality 90, nothing else set. */
  const DefaultOptions: Options :=
    Options(0, 0, "", 90, 0, "", "", "", 0, 0, 0, "", 0)

  /** The file extension of a general conversion's output. */
  function OutputExtension(kind: MediaKind, o: Options): (ext: string)
    ensures o.format != "" ==> ext == o.format
    ensures o.format == "" ==> (ext == "webm" <==> kind == VideoKind)
    ensures o.format == "" && kind != VideoKind ==> ext == "webp"
    ensures ext != ""
  {
    if o.format != "" then o.format
    else if kind == VideoKind then "webm"
    else "webp"
  }

  /** The output path `filepath.Join(dir, file)`, without the path cleaning. */
  function OutputPath(outputDir: string, fileName: string): string {
    outputDir + "/" + fileName
  }

  // ---------------------------------------------------------------------
  // General conversion: one group of tokens per option, in a fixed order.

  /** The general path indexes the second ':'-separated piece of a set cut
      window without checking it is there; Go panics when it is not. */
  predicate CutWellFormed(o: Options) {
    o.cutVideo == "" || ':' in o.cutVideo
  }

  function CutArgs(o: Options): seq<string>
    requires CutWellFormed(o)
  {
    if o.cutVideo != "" then
      ["-ss", Split(o.cutVideo, ':')[0], "-t", Split(o.cutVideo, ':')[1]]
    else []
  }

  function FrameArgs(o: Options): seq<string> {
    if o.frameTime != "" then ["-ss", o.frameTime, "-vframes", "1"] else []
  }

  /** `scale=iw*P/100:ih*P/100`. */
  function PercentScaleFilter(p: int): string {
    "scale=iw*" + IntToString(p) + "/100:ih*" + IntToString(p) + "/100"
  }

  function PercentScaleArgs(o: Options): seq<string> {
    if o.resizeScale > 0 then ["-vf", PercentScaleFilter(o.resizeScale)] else []
  }

  /** `scale=W:H`. */
  function ScaleFilter(width: int, height: int): string {
    "scale=" + IntToString(width) + ":" + IntToString(height)
  }

  function ScaleArgs(o: Options): seq<string> {
    if o.width > 0 || o.height > 0 then ["-vf", ScaleFilter(o.width, o.height)] else []
  }

  function CropFilter(crop: string): string {
    "crop=" + crop
  }

  function CropArgs(o: Options): seq<string> {
    if o.crop != "" then ["-vf", CropFilter(o.crop)] else []
  }

  function FrameRateArgs(o: Options): seq<string> {
    if o.frameRate > 0 then ["-r", IntToString(o.frameRate)] else []
  }

  function BitrateArgs(o: Options): seq<string> {
    if o.bitrate != "" then ["-b:v", o.bitrate] else []
  }

  function CrfArgs(o: Options): seq<string> {
    if o.crf > 0 then ["-crf", IntToString(o.crf)] else []
  }

  function QualityArgs(o: Options): seq<string> {
    if o.quality > 0 then ["-q:v", IntToString(o.quality)] else []
  }

  /** The optional groups of a general conversion, in the order they are
      emitted; a group whose option is unset is empty. */
  function GeneralGroups(o: Options): (gs: seq<seq<string>>)
    requires CutWellFormed(o)
  {
    [CutArgs(o), FrameArgs(o), PercentScaleArgs(o), ScaleArgs(o), CropArgs(o),
     FrameRateArgs(o), BitrateArgs(o), CrfArgs(o), QualityArgs(o)]
  }

  /** The groups one after another. */
  function Concat(gs: seq<seq<string>>): seq<string>
    decreases |gs|
  {
    if gs == [] then [] else gs[0] + Concat(gs[1..])
  }

  /** The argument vector of a general conversion (`buildFFmpegArgs`). */
  function FFmpegArgs(input: string, o: Options, outputFile: string): (args: seq<string>)
    requires CutWellFormed(o)
    ensures |args| >= 4
    ensures args[..2] == ["-i", input]
    ensures args[|args| - 2..] == ["-y", outputFile]
  {
    ["-i", input] + Concat(GeneralGroups(o)) + ["-y", outputFile]
  }

  // ---------------------------------------------------------------------
  // GIF conversion: only the time window, the fixed scale and the rate.

  function DurationArgs(o: Options): seq<string> {
    if o.startTime > 0 || o.endTime > 0 then
      ["-ss", IntToString(o.startTime)]
        + (if o.endTime > o.startTime then ["-t", IntToString(o.endTime - o.startTime)] else [])
    else []
  }

  /** The argument vector of a GIF conversion (`buildGIFArgs`). */
  function GIFArgs(input: string, o: Options, outputFile: string): (args: seq<string>)
    ensures |args| >= 4 && |args| % 2 == 0
    ensures args[..2] == ["-i", input]
    ensures args[|args| - 2..] == ["-y", outputFile]
  {
    ["-i", input] + DurationArgs(o) + ScaleArgs(o) + FrameRateArgs(o) + ["-y", outputFile]
  }

  // ---------------------------------------------------------------------
  // Running ffmpeg.

  /** What running the external binary reports: whether it failed, the
      error it failed with, and its combined standard output and error. */
  datatype ExecResult = ExecResult(failed: bool, err: string, output: string)

  /** The outcome of a conversion once ffmpeg has run on `outputFile`. */
  function Outcome(run: ExecResult, outputFile: string): (r: Result<string, string>)
    ensures r.Ok? <==> !run.failed
    ensures r.Ok? ==> r.value == outputFile
    ensures r.Err? ==> r.error == "ffmpeg error: " + run.err + ", output: " + run.output
  {
    if run.failed then Err("ffmpeg error: " + run.err + ", output: " + run.output)
    else Ok(outputFile)
  }

  // ---------------------------------------------------------------------
  // The builder.

  /** `MediaConverter`: a kind and an input fixed at creation, and options
      that the setters overwrite in place. Every setter returns the
      receiver itself, so that calls chain. */
  class MediaConverter {
    const kind: MediaKind
    const input: string
    var options: Options

    /** `NewConverter`. */
    constructor (kind: MediaKind, input: string)
      ensures this.kind == kind && this.input == input
      ensures options == DefaultOptions
    {
      this.kind := kind;
      this.input := input;
      options := DefaultOptions;
    }

    method Resize(width: int, height: int) returns (mc: MediaConverter)
      modifies this
      ensures mc == this
      ensures options == old(options).(width := width, height := height)
    {
      options := options.(width := width);
      options := options.(height := height);
      mc := this;
    }

    method ResizeScale(scale: int) returns (mc: MediaConverter)
      modifies this
      ensures mc == this
      ensures options == old(options).(resizeScale := scale)
    {
      options := options.(resizeScale := scale);
      mc := this;
    }

    method Crop(dimensions: string) returns (mc: MediaConverter)
      modifies this
      ensures mc == this
      ensures options == old(options).(crop := dimensions)
    {
      options := options.(crop := dimensions);
      mc := this;
    }

    method Quality(quality: int) returns (mc: MediaConverter)
      modifies this
      ensures mc == this
      ensures options == old(options).(quality := quality)
    {
      options := options.(quality := quality);
      mc := this;
    }

    method Format(format: string) returns (mc: MediaConverter)
      modifies this
      ensures mc == this
      ensures options == old(options).(format := format)
    {
      options := options.(format := format);
      mc := this;
    }

    method SetDuration(start: int, end: int) returns (mc: MediaConverter)
      modifies this
      ensures mc == this
      ensures options == old(options).(startTime := start, endTime := end)
    {
      options := options.(startTime := start);
      options := options.(endTime := end);
      mc := this;
    }

    method SetFrameRate(fps: int) returns (mc: MediaConverter)
      modifies this
      ensures mc == this
      ensures options == old(options).(frameRate := fps)
    {
      options := options.(frameRate := fps);
      mc := this;
    }

    method SetBitrate(bitrate: string) returns (mc: MediaConverter)
      modifies this
      ensures mc == this
      ensures options == old(options).(bitrate := bitrate)
    {
      options := options.(bitrate := bitrate);
      mc := this;
    }

    method SetCRF(crf: int) returns (mc: MediaConverter)
      modifies this
      ensures mc == this
      ensures options == old(options).(crf := crf)
    {
      options := options.(crf := crf);
      mc := this;
    }

    method ExtractFrame(time: string) returns (mc: MediaConverter)
      modifies this
      ensures mc == this
      ensures options == old(options).(frameTime := time)
    {
      options := options.(frameTime := time);
      mc := this;
    }

    /** `Convert`: runs ffmpeg on the general vector for
        `<outputDir>/<outputFileName>.<extension>`. */
    method Convert(outputDir: string, outputFileName: string, ffmpeg: seq<string> -> ExecResult)
      returns (r: Result<string, string>)
      requires CutWellFormed(options)
      ensures var outputFile := OutputPath(outputDir, outputFileName + "." + OutputExtension(kind, options));
              r == Outcome(ffmpeg(FFmpegArgs(input, options, outputFile)), outputFile)
    {
      var outputFile := OutputPath(outputDir, outputFileName + "." + OutputExtension(kind, options));
      var run := ffmpeg(FFmpegArgs(input, options, outputFile));
      r := Outcome(run, outputFile);
    }

    /** `ToGIF`: runs ffmpeg on the GIF vector for `<outputDir>/<outputFileName>.gif`. */
    method ToGIF(outputDir: string, outputFileName: string, ffmpeg: seq<string> -> ExecResult)
      returns (r: Result<string, string>)
      ensures var outputFile := OutputPath(outputDir, outputFileName + ".gif");
              r == Outcome(ffmpeg(GIFArgs(input, options, outputFile)), outputFile)
    {
      var outputFile := OutputPath(outputDir, outputFileName + ".gif");
      var run := ffmpeg(GIFArgs(input, options, outputFile));
      r := Outcome(run, outputFile);
    }
  }
}
