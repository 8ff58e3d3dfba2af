/** Properties of the two argument compilers of ffmpeg.go, stated on the
    token vectors themselves. */
module FFmpegProperties {
  import opened Text
  import opened FFmpeg
  import opened FFmpegDecode
  import opened Results

  // ---------------------------------------------------------------------
  // General conversion.

  /** Every remainder `Rest(o, k, _)` is a suffix of the whole vector. */
  lemma {:induction false} RestIsSuffix(input: string, o: Options, k: nat, outputFile: string)
    requires CutWellFormed(o) && k <= 9
    ensures var args := FFmpegArgs(input, o, outputFile);
            var r := Rest(o, k, outputFile);
            2 <= |args| - |r| && args[|args| - |r|..] == r
    decreases k
  {
    var args := FFmpegArgs(input, o, outputFile);
    if k == 0 {
      assert GeneralGroups(o)[0..] == GeneralGroups(o);
      assert args == ["-i", input] + Rest(o, 0, outputFile);
    } else {
      RestIsSuffix(input, o, k - 1, outputFile);
      RestUnfold(o, k - 1, outputFile);
      var r := Rest(o, k - 1, outputFile);
      assert r[|GeneralGroups(o)[k - 1]|..] == Rest(o, k, outputFile);
    }
  }

  /** A new converter (quality 90, nothing else set) compiles to
      `-i input -q:v 90 -y outputFile`. */
  lemma DefaultConverterArgs(input: string, outputFile: string)
    ensures FFmpegArgs(input, DefaultOptions, outputFile) == ["-i", input, "-q:v", "90", "-y", outputFile]
  {
    var o := DefaultOptions;
    RestIsSuffix(input, o, 0, outputFile);
    var k := 0;
    while k < 8
      invariant 0 <= k <= 8
      invariant Rest(o, 0, outputFile) == Rest(o, k, outputFile)
    {
      RestUnfold(o, k, outputFile);
      assert GeneralGroups(o)[k] == [];
      k := k + 1;
    }
    RestUnfold(o, 8, outputFile);
    assert GeneralGroups(o)[9..] == [];
    assert IntToString(90) == "90";
  }

  /** With a set cut window, the vector continues after the input with
      `-ss <text before the first ':'> -t <text between the first and
      second ':'>`. */
  lemma CutWindowTokens(input: string, o: Options, outputFile: string)
    requires CutWellFormed(o) && o.cutVideo != ""
    ensures var args := FFmpegArgs(input, o, outputFile);
            var i := IndexOf(o.cutVideo, ':');
            var after := o.cutVideo[i + 1..];
            |args| >= 8 && args[2..6] == ["-ss", o.cutVideo[..i], "-t", after[..IndexOf(after, ':')]]
  {
    var args := FFmpegArgs(input, o, outputFile);
    var r0 := Rest(o, 0, outputFile);
    assert args[2..] == r0 by {
      assert GeneralGroups(o)[0..] == GeneralGroups(o);
    }
    RestUnfold(o, 0, outputFile);
    RestHead(o, 1, outputFile);
    assert r0[..4] == CutArgs(o);
    assert args[2..6] == r0[..4];
    FirstTwoPieces(o.cutVideo, ':');
  }

  /** A positive quality is rendered as `-q:v <quality>` right before `-y outputFile`. */
  lemma QualityPrecedesOutput(input: string, o: Options, outputFile: string)
    requires CutWellFormed(o)
    ensures var args := FFmpegArgs(input, o, outputFile);
            o.quality > 0 ==> |args| >= 6 && args[|args| - 4..] == ["-q:v", IntToString(o.quality), "-y", outputFile]
  {
    RestIsSuffix(input, o, 8, outputFile);
    RestUnfold(o, 8, outputFile);
    assert GeneralGroups(o)[9..] == [];
  }

  /** With both a percentage and a fixed size set, two scale filters are
      emitted back to back, the percentage one first, right after the
      cut and frame-extraction groups. */
  lemma BothScaleFilters(input: string, o: Options, outputFile: string)
    requires CutWellFormed(o)
    requires o.resizeScale > 0 && (o.width > 0 || o.height > 0)
    ensures var args := FFmpegArgs(input, o, outputFile);
            var i := 2 + |CutArgs(o)| + |FrameArgs(o)|;
            i + 4 <= |args| &&
            args[i..i + 4] == ["-vf", PercentScaleFilter(o.resizeScale), "-vf", ScaleFilter(o.width, o.height)]
  {
    var args := FFmpegArgs(input, o, outputFile);
    RestIsSuffix(input, o, 2, outputFile);
    RestUnfold(o, 0, outputFile);
    RestUnfold(o, 1, outputFile);
    RestUnfold(o, 2, outputFile);
    RestUnfold(o, 3, outputFile);
    assert GeneralGroups(o)[0..] == GeneralGroups(o);
    assert |args| == 2 + |Rest(o, 0, outputFile)|;
    var r := Rest(o, 2, outputFile);
    var i := |args| - |r|;
    assert args[i..i + 4] == r[..4];
  }

  // ---------------------------------------------------------------------
  // GIF conversion.

  /** The tokens between `-i input` and `-y outputFile`. */
  function Middle(args: seq<string>): seq<string>
    requires |args| >= 4
  {
    args[2..|args| - 2]
  }

  /** A token rendered by IntToString. */
  predicate Numeral(t: string) {
    |t| >= 1 && (IsDigit(t[0]) || t[0] == '-') && forall i :: 0 < i < |t| ==> IsDigit(t[i])
  }

  lemma GIFMiddle(input: string, o: Options, outputFile: string)
    ensures Middle(GIFArgs(input, o, outputFile)) == DurationArgs(o) + ScaleArgs(o) + FrameRateArgs(o)
  {
  }

  /** Every token of a GIF vector between input and output is one of the
      flags -ss, -t, -vf, -r, a number, or the fixed scale filter. */
  lemma GIFMiddleTokens(input: string, o: Options, outputFile: string)
    ensures var m := Middle(GIFArgs(input, o, outputFile));
            forall k :: 0 <= k < |m| ==>
              m[k] in {"-ss", "-t", "-vf", "-r"} || Numeral(m[k]) || m[k] == ScaleFilter(o.width, o.height)
  {
    var filter := ScaleFilter(o.width, o.height);
    var window, size, rate := DurationArgs(o), ScaleArgs(o), FrameRateArgs(o);
    GIFMiddle(input, o, outputFile);
    if o.startTime > 0 || o.endTime > 0 {
      assert Numeral(IntToString(o.startTime));
      assert Numeral(IntToString(o.endTime - o.startTime));
    }
    assert Numeral(IntToString(o.frameRate));
    ShapedGroups(window, size, rate, filter);
  }

  /** A token of a GIF vector between input and output. */
  predicate GIFShaped(t: string, filter: string) {
    t in {"-ss", "-t", "-vf", "-r"} || Numeral(t) || t == filter
  }

  /** Three groups of GIF-shaped tokens, one after another. */
  lemma ShapedGroups(first: seq<string>, second: seq<string>, third: seq<string>, filter: string)
    requires forall k :: 0 <= k < |first| ==> GIFShaped(first[k], filter)
    requires forall k :: 0 <= k < |second| ==> GIFShaped(second[k], filter)
    requires forall k :: 0 <= k < |third| ==> GIFShaped(third[k], filter)
    ensures forall k :: 0 <= k < |first + second + third| ==> GIFShaped((first + second + third)[k], filter)
  {
  }

  /** The size and rate groups of a GIF vector hold no time flag. */
  lemma NoTimeFlagAfterWindow(o: Options)
    ensures "-ss" !in ScaleArgs(o) + FrameRateArgs(o)
    ensures "-t" !in ScaleArgs(o) + FrameRateArgs(o)
  {
    var filter := ScaleFilter(o.width, o.height);
    assert filter[0] == 's';
    NotAFlag(filter, filter);
    if o.frameRate > 0 {
      var rate := IntToString(o.frameRate);
      assert Numeral(rate);
      NotAFlag(rate, filter);
    }
  }

  /** `-ss <start>` is emitted exactly when a start or an end time is set,
      right after the input. */
  lemma GIFSeekExactlyWithWindow(input: string, o: Options, outputFile: string)
    ensures var args := GIFArgs(input, o, outputFile);
            ("-ss" in Middle(args)) <==> (o.startTime > 0 || o.endTime > 0)
    ensures var args := GIFArgs(input, o, outputFile);
            (o.startTime > 0 || o.endTime > 0) ==> args[2..4] == ["-ss", IntToString(o.startTime)]
  {
    GIFMiddle(input, o, outputFile);
    NoTimeFlagAfterWindow(o);
    if o.startTime > 0 || o.endTime > 0 {
      assert Middle(GIFArgs(input, o, outputFile))[0] == "-ss";
    }
  }

  /** `-t <end - start>` is emitted exactly when a window is set and the
      end lies after the start, immediately after `-ss <start>`;
      otherwise no `-t` appears. */
  lemma GIFDurationExactlyWhenEndAfterStart(input: string, o: Options, outputFile: string)
    ensures var args := GIFArgs(input, o, outputFile);
            ("-t" in Middle(args)) <==> ((o.startTime > 0 || o.endTime > 0) && o.endTime > o.startTime)
    ensures var args := GIFArgs(input, o, outputFile);
            (o.startTime > 0 || o.endTime > 0) && o.endTime > o.startTime ==>
              args[2..6] == ["-ss", IntToString(o.startTime), "-t", IntToString(o.endTime - o.startTime)]
  {
    var m := Middle(GIFArgs(input, o, outputFile));
    var rest := ScaleArgs(o) + FrameRateArgs(o);
    GIFMiddle(input, o, outputFile);
    NoTimeFlagAfterWindow(o);
    if o.startTime > 0 || o.endTime > 0 {
      var start := IntToString(o.startTime);
      assert Numeral(start);
      NotAFlag(start, "s");
      if o.endTime > o.startTime {
        assert m[2] == "-t";
      } else {
        assert m == ["-ss", start] + rest;
      }
    }
  }

  /** The time-window group of a GIF vector holds neither `-vf` nor `-r`. */
  lemma NoSizeOrRateFlagInWindow(o: Options)
    ensures "-vf" !in DurationArgs(o) && "-r" !in DurationArgs(o)
  {
    if o.startTime > 0 || o.endTime > 0 {
      var start := IntToString(o.startTime);
      assert Numeral(start);
      NotAFlag(start, "s");
      if o.endTime > o.startTime {
        var length := IntToString(o.endTime - o.startTime);
        assert Numeral(length);
        NotAFlag(length, "s");
      }
    }
  }

  /** `-vf scale=W:H` is emitted exactly when a width or a height is set,
      directly after the time-window group. */
  lemma GIFScaleExactlyWithSize(input: string, o: Options, outputFile: string)
    ensures var args := GIFArgs(input, o, outputFile);
            ("-vf" in Middle(args)) <==> (o.width > 0 || o.height > 0)
    ensures var args := GIFArgs(input, o, outputFile);
            var i := 2 + |DurationArgs(o)|;
            (o.width > 0 || o.height > 0) ==>
              i + 2 <= |args| && args[i..i + 2] == ["-vf", ScaleFilter(o.width, o.height)]
  {
    GIFMiddle(input, o, outputFile);
    NoSizeOrRateFlagInWindow(o);
    if o.frameRate > 0 {
      var rate := IntToString(o.frameRate);
      assert Numeral(rate);
      NotAFlag(rate, "s");
    }
    if o.width > 0 || o.height > 0 {
      var args := GIFArgs(input, o, outputFile);
      var i := 2 + |DurationArgs(o)|;
      assert args[i..i + 2] == ScaleArgs(o);
    }
  }

  /** `-r <rate>` is emitted exactly when a frame rate is set, as the last
      group before `-y outputFile`. */
  lemma GIFRateExactlyWithFrameRate(input: string, o: Options, outputFile: string)
    ensures var args := GIFArgs(input, o, outputFile);
            ("-r" in Middle(args)) <==> o.frameRate > 0
    ensures var args := GIFArgs(input, o, outputFile);
            o.frameRate > 0 ==>
              |args| >= 6 && args[|args| - 4..] == ["-r", IntToString(o.frameRate), "-y", outputFile]
  {
    RateFlagOnlyInRateGroup(input, o, outputFile);
    if o.frameRate > 0 {
      var args := GIFArgs(input, o, outputFile);
      var rate := FrameRateArgs(o);
      LastGroup(["-i", input], DurationArgs(o), ScaleArgs(o), rate, ["-y", outputFile], "-r");
      assert args == ["-i", input] + DurationArgs(o) + ScaleArgs(o) + rate + ["-y", outputFile];
      assert rate + ["-y", outputFile] == ["-r", IntToString(o.frameRate), "-y", outputFile];
    }
  }

  /** Neither the window nor the size group of a GIF vector holds `-r`. */
  lemma RateFlagOnlyInRateGroup(input: string, o: Options, outputFile: string)
    ensures "-r" !in DurationArgs(o) && "-r" !in ScaleArgs(o)
    ensures ("-r" in Middle(GIFArgs(input, o, outputFile))) <==> "-r" in FrameRateArgs(o)
  {
    GIFMiddle(input, o, outputFile);
    NoSizeOrRateFlagInWindow(o);
    var filter := ScaleFilter(o.width, o.height);
    assert filter[0] == 's';
    NotAFlag(filter, filter);
    LastGroup([], DurationArgs(o), ScaleArgs(o), FrameRateArgs(o), [], "-r");
  }

  /** In `head + first + second + last + tail`, a token found in neither
      of the first two groups is among the three groups exactly when it
      is in the last, and the last group and the tail end the whole. */
  lemma LastGroup(head: seq<string>, first: seq<string>, second: seq<string>, last: seq<string>,
                  tail: seq<string>, t: string)
    requires t !in first && t !in second
    ensures t in first + second + last <==> t in last
    ensures var all := head + first + second + last + tail;
            |last| + |tail| <= |all| && all[|all| - |last| - |tail|..] == last + tail
  {
    var all := head + first + second + last + tail;
    assert all == (head + first + second) + (last + tail);
  }

  /** The length of a GIF vector: each group appears once when its guard
      holds and not at all otherwise. */
  lemma GIFLength(input: string, o: Options, outputFile: string)
    ensures |Middle(GIFArgs(input, o, outputFile))| ==
              (if o.startTime > 0 || o.endTime > 0 then (if o.endTime > o.startTime then 4 else 2) else 0)
              + (if o.width > 0 || o.height > 0 then 2 else 0)
              + (if o.frameRate > 0 then 2 else 0)
  {
    GIFMiddle(input, o, outputFile);
  }

  /** A number or the scale filter is none of the GIF flags. */
  lemma NotAFlag(t: string, filter: string)
    requires Numeral(t) || t == filter
    requires |filter| >= 1 && filter[0] == 's'
    ensures t != "-ss" && t != "-t" && t != "-vf" && t != "-r"
  {
    if Numeral(t) && |t| >= 2 {
      assert IsDigit(t[1]);
    }
  }

  /** Whatever the options, a GIF vector carries no crop filter, no
      percentage scale, no bitrate, CRF, quality or frame-extraction
      option between its input and its output. */
  lemma GIFOmitsGeneralOnlyOptions(input: string, o: Options, outputFile: string)
    ensures var m := Middle(GIFArgs(input, o, outputFile));
            forall k :: 0 <= k < |m| ==>
              m[k] !in {"-b:v", "-crf", "-q:v", "-vframes"} && !IsCrop(m[k]) && !IsPercentScale(m[k])
  {
    var m := Middle(GIFArgs(input, o, outputFile));
    var filter := ScaleFilter(o.width, o.height);
    GIFMiddleTokens(input, o, outputFile);
    ScaleIsNotPercent(o.width, o.height);
    assert filter[0] == 's';
    forall k | 0 <= k < |m|
      ensures m[k] !in {"-b:v", "-crf", "-q:v", "-vframes"} && !IsCrop(m[k]) && !IsPercentScale(m[k])
    {
      GIFToken(m[k], filter);
    }
  }

  /** A GIF token is none of the options only the general vector has. */
  lemma GIFToken(t: string, filter: string)
    requires t in {"-ss", "-t", "-vf", "-r"} || Numeral(t) || t == filter
    requires |filter| >= 1 && filter[0] == 's' && !IsPercentScale(filter)
    ensures t !in {"-b:v", "-crf", "-q:v", "-vframes"} && !IsCrop(t) && !IsPercentScale(t)
  {
    if Numeral(t) && |t| >= 2 {
      assert IsDigit(t[1]);
    }
  }

  /** The options of `NewConverter("jpg", input).Resize(800, 600).Quality(75).Format("webp")`. */
  const ChainedOptions := DefaultOptions.(width := 800, height := 600, quality := 75, format := "webp")

  /** The chain above, run on a new converter through the receivers the
      setters return. */
  method ResizeQualityFormatChain(input: string) returns (c: MediaConverter)
    ensures fresh(c) && c.kind == "jpg" && c.input == input
    ensures c.options == ChainedOptions
  {
    c := new MediaConverter("jpg", input);
    var mc := c.Resize(800, 600);
    mc := mc.Quality(75);
    mc := mc.Format("webp");
  }

  /** The combined-operations scenario end to end: the chained converter
      runs ffmpeg on the vector with the scale filter and quality,
      writing `<outputDir>/w800-h600-q75.webp`, and reports that path unless
      ffmpeg fails. */
  method CombinedOperations(input: string, outputDir: string, ffmpeg: seq<string> -> ExecResult)
    returns (r: Result<string, string>)
    ensures var out := outputDir + "/w800-h600-q75.webp";
            r == Outcome(ffmpeg(["-i", input, "-vf", "scale=800:600", "-q:v", "75", "-y", out]), out)
  {
    var c := ResizeQualityFormatChain(input);
    ChainedConverterArgs(input, outputDir + "/w800-h600-q75.webp");
    ScenarioPath(outputDir);
    r := c.Convert(outputDir, "w800-h600-q75", ffmpeg);
  }

  lemma ScenarioPath(outputDir: string)
    ensures OutputPath(outputDir, "w800-h600-q75" + "." + "webp") == outputDir + "/w800-h600-q75.webp"
  {
  }

  lemma ScaleFilterLiteral()
    ensures ScaleFilter(800, 600) == "scale=800:600"
  {
  }

  lemma ChainedGroups()
    ensures GeneralGroups(ChainedOptions) == [[], [], [], ["-vf", "scale=800:600"], [], [], [], [], ["-q:v", "75"]]
  {
    ScaleFilterLiteral();
    assert IntToString(75) == "75";
  }

  /** The chained converter writes a `.webp` file with one scale filter and
      the quality it was given. */
  lemma ChainedConverterArgs(input: string, outputFile: string)
    ensures OutputExtension("jpg", ChainedOptions) == "webp"
    ensures FFmpegArgs(input, ChainedOptions, outputFile)
            == ["-i", input, "-vf", "scale=800:600", "-q:v", "75", "-y", outputFile]
  {
    ChainedGroups();
    ConcatScaleQuality(GeneralGroups(ChainedOptions), "scale=800:600", "75");
  }

  /** The groups of a vector with only a fixed scale and a quality. */
  lemma ConcatScaleQuality(gs: seq<seq<string>>, filter: string, quality: string)
    requires gs == [[], [], [], ["-vf", filter], [], [], [], [], ["-q:v", quality]]
    ensures Concat(gs) == ["-vf", filter, "-q:v", quality]
  {
    assert gs[8..] == [gs[8]] && gs[8..][1..] == [];
    assert Concat(gs[8..]) == ["-q:v", quality];
    assert gs[4..] == seq(4, _ => []) + gs[8..];
    ConcatOfEmpties(4, gs[8..]);
    assert gs[3..][1..] == gs[4..];
    assert gs == seq(3, _ => []) + gs[3..];
    ConcatOfEmpties(3, gs[3..]);
  }

  /** Empty groups in front add nothing. */
  lemma {:induction false} ConcatOfEmpties(n: nat, gs: seq<seq<string>>)
    ensures Concat(seq(n, _ => []) + gs) == Concat(gs)
  {
    if n > 0 {
      var es: seq<seq<string>> := seq(n, _ => []);
      assert (es + gs)[0] == [];
      assert (es + gs)[1..] == seq(n - 1, _ => []) + gs;
      ConcatOfEmpties(n - 1, gs);
      assert Concat(es + gs) == [] + Concat((es + gs)[1..]);
    } else {
      assert seq(n, _ => []) + gs == gs;
    }
  }
}
