/** `FromFiber` of ffmpeg.go: fills a new converter from the query
    parameters of an HTTP request, applying the video-only parameters
    only to video and warning about each one given for any other kind. */
module FiberAdapter {
  import opened FFmpeg

  /** The query parameters `FromFiber` reads. Any other parameter of the
      request is never looked at. */
  datatype Param = Width | Height | Quality | Format | Fps | Start | End | Bitrate | Crf | Crop {

    /** The parameter's name in the query string. */
    function Name(): string {
      match this
      case Width => "width"
      case Height => "height"
      case Quality => "quality"
      case Format => "format"
      case Fps => "fps"
      case Start => "start"
      case End => "end"
      case Bitrate => "bitrate"
      case Crf => "crf"
      case Crop => "crop"
    }
  }

  /** The query string of a request, as the two accessors of `fiber.Ctx`
      see it. `text` holds the raw value of every parameter present;
      `parsed` holds the integer Fiber reads from a value when it parses
      as one (how it parses is not modelled). */
  datatype Query = Query(text: map<Param, string>, parsed: map<Param, int>) {

    /** `c.Query(name)`: the raw value, or "" when the parameter is absent. */
    function Get(p: Param): (v: string)
      ensures p !in text ==> v == ""
    {
      if p in text then text[p] else ""
    }

    /** `c.QueryInt(name)`: the parsed value, or 0 when the parameter is
        absent or its value does not parse. */
    function GetInt(p: Param): (n: int)
      ensures p !in text || p !in parsed ==> n == 0
    {
      if p in text && p in parsed then parsed[p] else 0
    }
  }

  /** The parameters that apply to video only. */
  const VideoOnlyParams: seq<Param> := [Fps, Start, End, Bitrate, Crf]

  function IgnoredWarning(p: Param): string {
    p.Name() + " parameter is ignored for images"
  }

  /** The warning for parameter `p`, if the query carries it with a
      non-empty value. */
  function Warn(q: Query, p: Param): (w: seq<string>)
    ensures |w| <= 1
  {
    if q.Get(p) != "" then [IgnoredWarning(p)] else []
  }

  /** The warnings for a kind other than video: one per video-only
      parameter the query carries with a non-empty value, in the order
      fps, start, end, bitrate, crf. */
  function IgnoredWarnings(q: Query): seq<string> {
    Warn(q, Fps) + Warn(q, Start) + Warn(q, End) + Warn(q, Bitrate) + Warn(q, Crf)
  }

  /** Distinct video-only parameters give distinct warnings: they already
      differ in their first letter. */
  lemma IgnoredWarningsDiffer(p: Param, p': Param)
    requires p in VideoOnlyParams && p' in VideoOnlyParams && p != p'
    ensures IgnoredWarning(p) != IgnoredWarning(p')
  {
    assert IgnoredWarning(p)[0] == p.Name()[0];
    assert IgnoredWarning(p')[0] == p'.Name()[0];
  }

  /** A video-only parameter is warned about exactly when the query
      carries it with a non-empty value. */
  lemma WarnedExactlyWhenGiven(q: Query, p: Param)
    requires p in VideoOnlyParams
    ensures IgnoredWarning(p) in IgnoredWarnings(q) <==> q.Get(p) != ""
  {
    WarnMember(q, p, Fps);
    WarnMember(q, p, Start);
    WarnMember(q, p, End);
    WarnMember(q, p, Bitrate);
    WarnMember(q, p, Crf);
  }

  lemma WarnMember(q: Query, p: Param, p': Param)
    requires p in VideoOnlyParams && p' in VideoOnlyParams
    ensures IgnoredWarning(p) in Warn(q, p') <==> p == p' && q.Get(p) != ""
  {
    if p != p' {
      IgnoredWarningsDiffer(p, p');
    }
  }

  /** The options `FromFiber` ends with, field by field. Note the two
      overwrites: a positive height resets the width to 0 (each dimension
      is set by `Resize` with 0 for the other), and for video a positive
      end resets the start to 0 (likewise through `SetDuration`). */
  function PopulatedOptions(q: Query, kind: MediaKind): (o: Options)
    ensures kind != VideoKind ==>
              o.frameRate == 0 && o.startTime == 0 && o.endTime == 0 && o.bitrate == "" && o.crf == 0
    ensures q.GetInt(Width) > 0 && q.GetInt(Height) > 0 ==>
              o.width == 0 && o.height == q.GetInt(Height)
    ensures o.crop == q.Get(Crop)
    ensures o.quality == (if q.GetInt(Quality) > 0 then q.GetInt(Quality) else 90)
    ensures o.resizeScale == 0 && o.cutVideo == "" && o.frameTime == ""
  {
    var width, height := q.GetInt(Width), q.GetInt(Height);
    var video := kind == VideoKind;
    var fps, start, end, crf := q.GetInt(Fps), q.GetInt(Start), q.GetInt(End), q.GetInt(Crf);
    Options(
      width := if height > 0 then 0 else if width > 0 then width else 0,
      height := if height > 0 then height else 0,
      crop := q.Get(Crop),
      quality := if q.GetInt(Quality) > 0 then q.GetInt(Quality) else 90,
      resizeScale := 0,
      cutVideo := "",
      format := q.Get(Format),
      frameTime := "",
      startTime := if video && end <= 0 && start > 0 then start else 0,
      endTime := if video && end > 0 then end else 0,
      frameRate := if video && fps > 0 then fps else 0,
      bitrate := if video then q.Get(Bitrate) else "",
      crf := if video && crf > 0 then crf else 0)
  }

  /** For video, the rate, bitrate and CRF are taken when given, and the
      time window through `SetDuration`: a positive end replaces the
      whole window, resetting a queried start to 0. */
  lemma VideoParamsApplied(q: Query)
    ensures var o := PopulatedOptions(q, VideoKind);
            && o.frameRate == (if q.GetInt(Fps) > 0 then q.GetInt(Fps) else 0)
            && o.bitrate == q.Get(Bitrate)
            && o.crf == (if q.GetInt(Crf) > 0 then q.GetInt(Crf) else 0)
            && (q.GetInt(End) > 0 ==> o.startTime == 0 && o.endTime == q.GetInt(End))
            && (q.GetInt(End) <= 0 ==> o.endTime == 0 && o.startTime == (if q.GetInt(Start) > 0 then q.GetInt(Start) else 0))
  {
  }

  /** The format is taken as given, and without a positive height the
      width is the queried one (when positive) and the height stays 0. */
  lemma SizeAndFormatApplied(q: Query, kind: MediaKind)
    ensures PopulatedOptions(q, kind).format == q.Get(Format)
    ensures var o := PopulatedOptions(q, kind);
            q.GetInt(Height) <= 0 ==>
              o.height == 0 && o.width == (if q.GetInt(Width) > 0 then q.GetInt(Width) else 0)
  {
  }

  /** The warnings `FromFiber` gathers for a kind other than video: one
      per video-only parameter present with a non-empty value. */
  method WarnIgnored(q: Query) returns (warnings: seq<string>)
    ensures warnings == IgnoredWarnings(q)
  {
    warnings := [];
    if q.Get(Fps) != "" {
      warnings := warnings + [IgnoredWarning(Fps)];
    }
    assert warnings == Warn(q, Fps);
    if q.Get(Start) != "" {
      warnings := warnings + [IgnoredWarning(Start)];
    }
    assert warnings == Warn(q, Fps) + Warn(q, Start);
    if q.Get(End) != "" {
      warnings := warnings + [IgnoredWarning(End)];
    }
    assert warnings == Warn(q, Fps) + Warn(q, Start) + Warn(q, End);
    if q.Get(Bitrate) != "" {
      warnings := warnings + [IgnoredWarning(Bitrate)];
    }
    assert warnings == Warn(q, Fps) + Warn(q, Start) + Warn(q, End) + Warn(q, Bitrate);
    if q.Get(Crf) != "" {
      warnings := warnings + [IgnoredWarning(Crf)];
    }
  }

  /** The video branch of `FromFiber`: each of rate, start, end, bitrate
      and CRF is set through its setter when given. `SetDuration` sets the
      whole window, so a positive end clears the start and a positive start
      clears the end. */
  method ApplyVideoParams(c: MediaConverter, q: Query)
    modifies c
    ensures var o, fps, start, end, crf := old(c.options), q.GetInt(Fps), q.GetInt(Start), q.GetInt(End), q.GetInt(Crf);
            c.options == o.(
              frameRate := if fps > 0 then fps else o.frameRate,
              startTime := if end > 0 then 0 else if start > 0 then start else o.startTime,
              endTime := if end > 0 then end else if start > 0 then 0 else o.endTime,
              bitrate := if q.Get(Bitrate) != "" then q.Get(Bitrate) else o.bitrate,
              crf := if crf > 0 then crf else o.crf)
  {
    var mc: MediaConverter;
    var fps := q.GetInt(Fps);
    if fps > 0 {
      mc := c.SetFrameRate(fps);
    }
    var start := q.GetInt(Start);
    if start > 0 {
      mc := c.SetDuration(start, 0);
    }
    var end := q.GetInt(End);
    if end > 0 {
      mc := c.SetDuration(0, end);
    }
    var bitrate := q.Get(Bitrate);
    if bitrate != "" {
      mc := c.SetBitrate(bitrate);
    }
    var crf := q.GetInt(Crf);
    if crf > 0 {
      mc := c.SetCRF(crf);
    }
  }

  /** `FromFiber`: a new converter of `kind` on `input`, filled from the
      query through the setters, and the warnings about ignored
      parameters. */
  method FromFiber(q: Query, kind: MediaKind, input: string) returns (c: MediaConverter, warnings: seq<string>)
    ensures fresh(c) && c.kind == kind && c.input == input
    ensures c.options == PopulatedOptions(q, kind)
    ensures warnings == if kind == VideoKind then [] else IgnoredWarnings(q)
  {
    c := new MediaConverter(kind, input);
    warnings := [];
    var mc: MediaConverter;
    ghost var target := PopulatedOptions(q, kind);

    var width := q.GetInt(Width);
    if width > 0 {
      mc := c.Resize(width, 0);
    }
    var height := q.GetInt(Height);
    if height > 0 {
      mc := c.Resize(0, height);
    }
    var quality := q.GetInt(Quality);
    if quality > 0 {
      mc := c.Quality(quality);
    }
    var format := q.Get(Format);
    if format != "" {
      mc := c.Format(format);
    }
    assert c.options == target.(frameRate := 0, startTime := 0, endTime := 0, bitrate := "", crf := 0, crop := "");

    if kind == VideoKind {
      ApplyVideoParams(c, q);
    } else {
      warnings := WarnIgnored(q);
      assert c.options == target.(crop := "");
    }
    assert c.options == target.(crop := "");

    var crop := q.Get(Crop);
    if crop != "" {
      mc := c.Crop(crop);
    }
  }

  /** An image request carrying a frame rate and a crop: the frame rate is
      dropped with its warning, and the crop is kept. */
  lemma ImageWithFrameRateAndCrop()
    ensures var q := Query(map[Fps := "30", Crop := "100:100:0:0"], map[Fps := 30]);
            var o := PopulatedOptions(q, ImageKind);
            o.frameRate == 0 && o.crop == "100:100:0:0" && o.quality == 90
            && IgnoredWarnings(q) == [IgnoredWarning(Fps)]
  {
    var q := Query(map[Fps := "30", Crop := "100:100:0:0"], map[Fps := 30]);
    assert q.Get(Fps) == "30";
    assert q.Get(Start) == q.Get(End) == q.Get(Bitrate) == q.Get(Crf) == "";
  }
}
