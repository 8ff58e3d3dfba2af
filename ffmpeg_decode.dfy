/** Reading an argument vector of the general conversion back into its
    groups. Decoding the vector of any options gives exactly the groups
    those options call for, in the order ffmpeg.go emits them: each group
    is there precisely when its option is set, and nothing else is. */
module FFmpegDecode {
  import opened Results
  import opened Text
  import opened FFmpeg

  /** The groups of a general argument vector. */
  datatype Invocation = Invocation(
    input: string,
    cut: Option<(string, string)>,  // seek and duration of a cut window
    frameTime: Option<string>,
    percentScale: Option<string>,
    scale: Option<string>,
    crop: Option<string>,
    frameRate: Option<string>,
    bitrate: Option<string>,
    crf: Option<string>,
    quality: Option<string>,
    output: string)

  /** The text of a cut window before its first ':'. */
  function CutStart(window: string): string {
    window[..IndexOf(window, ':')]
  }

  /** The text of a cut window between its first ':' and the next ':' (or the end). */
  function CutLength(window: string): string
    requires ':' in window
  {
    var after := window[IndexOf(window, ':') + 1..];
    after[..IndexOf(after, ':')]
  }

  /** The groups a general conversion with options `o` calls for: each
      present exactly when the option it renders is set. */
  function Expected(input: string, o: Options, outputFile: string): Invocation
    requires CutWellFormed(o)
  {
    Invocation(
      input,
      if o.cutVideo != "" then Some((CutStart(o.cutVideo), CutLength(o.cutVideo))) else None,
      if o.frameTime != "" then Some(o.frameTime) else None,
      if o.resizeScale > 0 then Some(PercentScaleFilter(o.resizeScale)) else None,
      if o.width > 0 || o.height > 0 then Some(ScaleFilter(o.width, o.height)) else None,
      if o.crop != "" then Some(CropFilter(o.crop)) else None,
      if o.frameRate > 0 then Some(IntToString(o.frameRate)) else None,
      if o.bitrate != "" then Some(o.bitrate) else None,
      if o.crf > 0 then Some(IntToString(o.crf)) else None,
      if o.quality > 0 then Some(IntToString(o.quality)) else None,
      outputFile)
  }

  predicate IsPercentScale(v: string) {
    HasPrefix(v, "scale=iw*")
  }

  predicate IsScale(v: string) {
    HasPrefix(v, "scale=")
  }

  predicate IsCrop(v: string) {
    HasPrefix(v, "crop=")
  }

  predicate AnyValue(v: string) {
    true
  }

  /** Takes `flag value` off the front of `s` when the value is accepted. */
  function TakePair(flag: string, accepts: string -> bool, s: seq<string>): (Option<string>, seq<string>) {
    if |s| >= 2 && s[0] == flag && accepts(s[1]) then (Some(s[1]), s[2..]) else (None, s)
  }

  /** Takes `-ss start -t duration` off the front of `s`. */
  function TakeCut(s: seq<string>): (Option<(string, string)>, seq<string>) {
    if |s| >= 4 && s[0] == "-ss" && s[2] == "-t" then (Some((s[1], s[3])), s[4..]) else (None, s)
  }

  /** Takes `-ss time -vframes 1` off the front of `s`. */
  function TakeFrame(s: seq<string>): (Option<string>, seq<string>) {
    if |s| >= 4 && s[0] == "-ss" && s[2] == "-vframes" && s[3] == "1" then (Some(s[1]), s[4..]) else (None, s)
  }

  /** Reads a general argument vector group by group, in emission order. */
  function Decode(args: seq<string>): Option<Invocation> {
    if |args| < 2 || args[0] != "-i" then None
    else
      var (cut, s1) := TakeCut(args[2..]);
      var (frame, s2) := TakeFrame(s1);
      var (percent, s3) := TakePair("-vf", IsPercentScale, s2);
      var (scale, s4) := TakePair("-vf", IsScale, s3);
      var (crop, s5) := TakePair("-vf", IsCrop, s4);
      var (rate, s6) := TakePair("-r", AnyValue, s5);
      var (bitrate, s7) := TakePair("-b:v", AnyValue, s6);
      var (crf, s8) := TakePair("-crf", AnyValue, s7);
      var (quality, s9) := TakePair("-q:v", AnyValue, s8);
      if |s9| == 2 && s9[0] == "-y" then
        Some(Invocation(args[1], cut, frame, percent, scale, crop, rate, bitrate, crf, quality, s9[1]))
      else None
  }

  // ---------------------------------------------------------------------
  // The proof that decoding undoes FFmpegArgs.

  /** The flag each general group starts with, in emission order. */
  const GeneralFlags: seq<string> := ["-ss", "-ss", "-vf", "-vf", "-vf", "-r", "-b:v", "-crf", "-q:v"]

  /** What remains of the vector from group `k` on. */
  function Rest(o: Options, k: nat, outputFile: string): seq<string>
    requires CutWellFormed(o) && k <= 9
  {
    Concat(GeneralGroups(o)[k..]) + ["-y", outputFile]
  }

  lemma RestUnfold(o: Options, k: nat, outputFile: string)
    requires CutWellFormed(o) && k < 9
    ensures Rest(o, k, outputFile) == GeneralGroups(o)[k] + Rest(o, k + 1, outputFile)
  {
    var gs := GeneralGroups(o);
    assert gs[k..][1..] == gs[k + 1..];
  }

  /** Every group is empty or starts with its flag. */
  predicate Flagged(gs: seq<seq<string>>, flags: seq<string>) {
    |gs| == |flags| && forall i :: 0 <= i < |gs| ==> gs[i] == [] || (|gs[i]| >= 2 && gs[i][0] == flags[i])
  }

  lemma GroupShape(o: Options)
    requires CutWellFormed(o)
    ensures Flagged(GeneralGroups(o), GeneralFlags)
  {
  }

  lemma FlaggedSuffix(gs: seq<seq<string>>, flags: seq<string>, k: nat)
    requires Flagged(gs, flags) && k <= |gs|
    ensures Flagged(gs[k..], flags[k..])
  {
  }

  /** A concatenation of flagged groups, followed by a tail, starts with
      one of the flags or with the tail's first word. */
  lemma {:induction false} ConcatHead(gs: seq<seq<string>>, flags: seq<string>, tail: seq<string>)
    requires Flagged(gs, flags) && |tail| >= 2
    ensures |Concat(gs) + tail| >= 2 && (Concat(gs) + tail)[0] in flags + [tail[0]]
    decreases |gs|
  {
    if gs != [] {
      FlaggedSuffix(gs, flags, 1);
      ConcatHead(gs[1..], flags[1..], tail);
      assert Concat(gs) + tail == gs[0] + (Concat(gs[1..]) + tail);
      HeadOfGroup(gs[0], Concat(gs[1..]) + tail, flags[0], flags[1..] + [tail[0]]);
      InFlagsOrTail(flags, tail[0], (Concat(gs) + tail)[0]);
    }
  }

  /** The first flag, or anything among the later flags and `t`, is among
      all the flags and `t`. */
  lemma InFlagsOrTail(flags: seq<string>, t: string, x: string)
    requires |flags| >= 1 && x in [flags[0]] + (flags[1..] + [t])
    ensures x in flags + [t]
  {
    assert [flags[0]] + (flags[1..] + [t]) == flags + [t];
  }

  /** The remainder from group `k` on starts with the flag of a group at
      or after `k`, or with the final "-y". */
  lemma RestHead(o: Options, k: nat, outputFile: string)
    requires CutWellFormed(o) && k <= 9
    ensures |Rest(o, k, outputFile)| >= 2
    ensures Rest(o, k, outputFile)[0] in GeneralFlags[k..] + ["-y"]
  {
    GroupShape(o);
    FlaggedSuffix(GeneralGroups(o), GeneralFlags, k);
    ConcatHead(GeneralGroups(o)[k..], GeneralFlags[k..], ["-y", outputFile]);
  }

  lemma HeadOfGroup(group: seq<string>, rest: seq<string>, flag: string, later: seq<string>)
    requires group == [] || (|group| >= 2 && group[0] == flag)
    requires |rest| >= 2 && rest[0] in later
    ensures |group + rest| >= 2 && (group + rest)[0] in [flag] + later
  {
  }

  lemma TakePairOn(flag: string, accepts: string -> bool, group: seq<string>, rest: seq<string>)
    requires group == [] || (|group| == 2 && group[0] == flag && accepts(group[1]))
    requires |rest| >= 2 && !(rest[0] == flag && accepts(rest[1]))
    ensures TakePair(flag, accepts, group + rest) == (if group == [] then None else Some(group[1]), rest)
  {
    if group != [] {
      assert (group + rest)[2..] == rest;
    } else {
      assert group + rest == rest;
    }
  }

  lemma StepCut(input: string, o: Options, outputFile: string)
    requires CutWellFormed(o)
    ensures TakeCut(Rest(o, 0, outputFile)) == (Expected(input, o, outputFile).cut, Rest(o, 1, outputFile))
  {
    RestUnfold(o, 0, outputFile);
    if o.cutVideo != "" {
      FirstTwoPieces(o.cutVideo, ':');
      TakeCutOn(CutArgs(o), Rest(o, 1, outputFile));
    } else {
      assert Rest(o, 0, outputFile) == Rest(o, 1, outputFile) by {
        assert CutArgs(o) == [];
      }
      NoCutAhead(o, outputFile);
    }
  }

  lemma TakeCutOn(group: seq<string>, rest: seq<string>)
    requires |group| == 4 && group[0] == "-ss" && group[2] == "-t"
    ensures TakeCut(group + rest) == (Some((group[1], group[3])), rest)
  {
    assert (group + rest)[4..] == rest;
  }

  /** Without a cut window, the vector after the input does not start with
      a cut group (a frame group has "-vframes" where a cut has "-t"). */
  lemma NoCutAhead(o: Options, outputFile: string)
    requires CutWellFormed(o) && o.cutVideo == ""
    ensures TakeCut(Rest(o, 1, outputFile)) == (None, Rest(o, 1, outputFile))
  {
    RestUnfold(o, 1, outputFile);
    RestHead(o, 2, outputFile);
    assert "-ss" !in GeneralFlags[2..] + ["-y"];
    if o.frameTime != "" {
      assert Rest(o, 1, outputFile)[2] == "-vframes";
    }
  }

  lemma StepFrame(input: string, o: Options, outputFile: string)
    requires CutWellFormed(o)
    ensures TakeFrame(Rest(o, 1, outputFile)) == (Expected(input, o, outputFile).frameTime, Rest(o, 2, outputFile))
  {
    RestUnfold(o, 1, outputFile);
    RestHead(o, 2, outputFile);
    assert "-ss" !in GeneralFlags[2..] + ["-y"];
    if o.frameTime != "" {
      assert (FrameArgs(o) + Rest(o, 2, outputFile))[4..] == Rest(o, 2, outputFile);
    } else {
      assert Rest(o, 1, outputFile) == Rest(o, 2, outputFile);
    }
  }

  /** A fixed-size scale filter is not a percentage one: its width is
      rendered by IntToString, which starts with a digit or '-'. */
  lemma ScaleIsNotPercent(width: int, height: int)
    ensures IsScale(ScaleFilter(width, height)) && !IsPercentScale(ScaleFilter(width, height))
  {
    var f := ScaleFilter(width, height);
    assert f[6] == IntToString(width)[0];
  }

  /** The remainder from the percentage scale on, group by group. */
  lemma RestFromPercent(o: Options, outputFile: string)
    requires CutWellFormed(o)
    ensures Rest(o, 2, outputFile) == PercentScaleArgs(o) + Rest(o, 3, outputFile)
    ensures Rest(o, 3, outputFile) == ScaleArgs(o) + (CropArgs(o) + Rest(o, 5, outputFile))
    ensures Rest(o, 4, outputFile) == CropArgs(o) + Rest(o, 5, outputFile)
    ensures |Rest(o, 5, outputFile)| >= 2 && Rest(o, 5, outputFile)[0] != "-vf"
  {
    RestUnfold(o, 2, outputFile);
    RestUnfold(o, 3, outputFile);
    RestUnfold(o, 4, outputFile);
    RestHead(o, 5, outputFile);
    assert "-vf" !in GeneralFlags[5..] + ["-y"];
  }

  /** After the percentage-scale slot, a "-vf" is followed by a fixed
      scale or a crop filter; after the fixed-scale slot, by a crop filter. */
  lemma FiltersAfter(scale: seq<string>, crop: seq<string>, rest: seq<string>)
    requires scale == [] || (|scale| == 2 && scale[0] == "-vf" && IsScale(scale[1]) && !IsPercentScale(scale[1]))
    requires crop == [] || (|crop| == 2 && crop[0] == "-vf" && IsCrop(crop[1]))
    requires |rest| >= 2 && rest[0] != "-vf"
    ensures var r := scale + (crop + rest);
            |r| >= 2 && (r[0] == "-vf" ==> !IsPercentScale(r[1]))
    ensures |crop + rest| >= 2 && ((crop + rest)[0] == "-vf" ==> !IsScale((crop + rest)[1]))
  {
    if crop != [] {
      assert crop[1][0] == 'c';
    }
  }

  lemma StepPercentScale(input: string, o: Options, outputFile: string)
    requires CutWellFormed(o)
    ensures TakePair("-vf", IsPercentScale, Rest(o, 2, outputFile))
         == (Expected(input, o, outputFile).percentScale, Rest(o, 3, outputFile))
  {
    RestFromPercent(o, outputFile);
    ScaleIsNotPercent(o.width, o.height);
    FiltersAfter(ScaleArgs(o), CropArgs(o), Rest(o, 5, outputFile));
    TakePairOn("-vf", IsPercentScale, PercentScaleArgs(o), Rest(o, 3, outputFile));
  }

  lemma StepScale(input: string, o: Options, outputFile: string)
    requires CutWellFormed(o)
    ensures TakePair("-vf", IsScale, Rest(o, 3, outputFile))
         == (Expected(input, o, outputFile).scale, Rest(o, 4, outputFile))
  {
    RestFromPercent(o, outputFile);
    ScaleIsNotPercent(o.width, o.height);
    FiltersAfter(ScaleArgs(o), CropArgs(o), Rest(o, 5, outputFile));
    TakePairOn("-vf", IsScale, ScaleArgs(o), Rest(o, 4, outputFile));
  }

  lemma StepCrop(input: string, o: Options, outputFile: string)
    requires CutWellFormed(o)
    ensures TakePair("-vf", IsCrop, Rest(o, 4, outputFile))
         == (Expected(input, o, outputFile).crop, Rest(o, 5, outputFile))
  {
    RestUnfold(o, 4, outputFile);
    RestHead(o, 5, outputFile);
    assert "-vf" !in GeneralFlags[5..] + ["-y"];
    TakePairOn("-vf", IsCrop, CropArgs(o), Rest(o, 5, outputFile));
  }

  lemma StepFrameRate(input: string, o: Options, outputFile: string)
    requires CutWellFormed(o)
    ensures TakePair("-r", AnyValue, Rest(o, 5, outputFile))
         == (Expected(input, o, outputFile).frameRate, Rest(o, 6, outputFile))
  {
    RestUnfold(o, 5, outputFile);
    RestHead(o, 6, outputFile);
    assert "-r" !in GeneralFlags[6..] + ["-y"];
    TakePairOn("-r", AnyValue, FrameRateArgs(o), Rest(o, 6, outputFile));
  }

  lemma StepBitrate(input: string, o: Options, outputFile: string)
    requires CutWellFormed(o)
    ensures TakePair("-b:v", AnyValue, Rest(o, 6, outputFile))
         == (Expected(input, o, outputFile).bitrate, Rest(o, 7, outputFile))
  {
    RestUnfold(o, 6, outputFile);
    RestHead(o, 7, outputFile);
    assert "-b:v" !in GeneralFlags[7..] + ["-y"];
    TakePairOn("-b:v", AnyValue, BitrateArgs(o), Rest(o, 7, outputFile));
  }

  lemma StepCrf(input: string, o: Options, outputFile: string)
    requires CutWellFormed(o)
    ensures TakePair("-crf", AnyValue, Rest(o, 7, outputFile))
         == (Expected(input, o, outputFile).crf, Rest(o, 8, outputFile))
  {
    RestUnfold(o, 7, outputFile);
    RestHead(o, 8, outputFile);
    assert "-crf" !in GeneralFlags[8..] + ["-y"];
    TakePairOn("-crf", AnyValue, CrfArgs(o), Rest(o, 8, outputFile));
  }

  lemma StepQuality(input: string, o: Options, outputFile: string)
    requires CutWellFormed(o)
    ensures TakePair("-q:v", AnyValue, Rest(o, 8, outputFile))
         == (Expected(input, o, outputFile).quality, Rest(o, 9, outputFile))
  {
    RestUnfold(o, 8, outputFile);
    RestHead(o, 9, outputFile);
    TakePairOn("-q:v", AnyValue, QualityArgs(o), Rest(o, 9, outputFile));
  }

  /** Decoding succeeds with `e` when the stages of `Decode`, applied in
      turn to the remainders `r0` to `r9`, read off the fields of `e` one
      by one. */
  lemma DecodeChain(args: seq<string>, e: Invocation,
                    r0: seq<string>, r1: seq<string>, r2: seq<string>, r3: seq<string>, r4: seq<string>,
                    r5: seq<string>, r6: seq<string>, r7: seq<string>, r8: seq<string>, r9: seq<string>)
    requires |args| >= 2 && args[0] == "-i" && args[1] == e.input && args[2..] == r0
    requires TakeCut(r0) == (e.cut, r1)
    requires TakeFrame(r1) == (e.frameTime, r2)
    requires TakePair("-vf", IsPercentScale, r2) == (e.percentScale, r3)
    requires TakePair("-vf", IsScale, r3) == (e.scale, r4)
    requires TakePair("-vf", IsCrop, r4) == (e.crop, r5)
    requires TakePair("-r", AnyValue, r5) == (e.frameRate, r6)
    requires TakePair("-b:v", AnyValue, r6) == (e.bitrate, r7)
    requires TakePair("-crf", AnyValue, r7) == (e.crf, r8)
    requires TakePair("-q:v", AnyValue, r8) == (e.quality, r9)
    requires r9 == ["-y", e.output]
    ensures Decode(args) == Some(e)
  {
  }

  /** `DecodeChain` for the remainders of the general vector of `o`. */
  lemma DecodeGeneral(args: seq<string>, input: string, o: Options, outputFile: string)
    requires CutWellFormed(o)
    requires |args| >= 2 && args[0] == "-i" && args[1] == input && args[2..] == Rest(o, 0, outputFile)
    ensures Decode(args) == Some(Expected(input, o, outputFile))
  {
    DecodeStepsToScale(input, o, outputFile);
    DecodeStepsFromCrop(input, o, outputFile);
    DecodeChain(args, Expected(input, o, outputFile),
      Rest(o, 0, outputFile), Rest(o, 1, outputFile), Rest(o, 2, outputFile), Rest(o, 3, outputFile),
      Rest(o, 4, outputFile), Rest(o, 5, outputFile), Rest(o, 6, outputFile), Rest(o, 7, outputFile),
      Rest(o, 8, outputFile), Rest(o, 9, outputFile));
  }

  /** The first half of the decoding steps on the general vector. */
  lemma DecodeStepsToScale(input: string, o: Options, outputFile: string)
    requires CutWellFormed(o)
    ensures TakeCut(Rest(o, 0, outputFile)) == (Expected(input, o, outputFile).cut, Rest(o, 1, outputFile))
    ensures TakeFrame(Rest(o, 1, outputFile)) == (Expected(input, o, outputFile).frameTime, Rest(o, 2, outputFile))
    ensures TakePair("-vf", IsPercentScale, Rest(o, 2, outputFile))
         == (Expected(input, o, outputFile).percentScale, Rest(o, 3, outputFile))
    ensures TakePair("-vf", IsScale, Rest(o, 3, outputFile))
         == (Expected(input, o, outputFile).scale, Rest(o, 4, outputFile))
  {
    StepCut(input, o, outputFile);
    StepFrame(input, o, outputFile);
    StepPercentScale(input, o, outputFile);
    StepScale(input, o, outputFile);
  }

  /** The second half of the decoding steps on the general vector. */
  lemma DecodeStepsFromCrop(input: string, o: Options, outputFile: string)
    requires CutWellFormed(o)
    ensures TakePair("-vf", IsCrop, Rest(o, 4, outputFile))
         == (Expected(input, o, outputFile).crop, Rest(o, 5, outputFile))
    ensures TakePair("-r", AnyValue, Rest(o, 5, outputFile))
         == (Expected(input, o, outputFile).frameRate, Rest(o, 6, outputFile))
    ensures TakePair("-b:v", AnyValue, Rest(o, 6, outputFile))
         == (Expected(input, o, outputFile).bitrate, Rest(o, 7, outputFile))
    ensures TakePair("-crf", AnyValue, Rest(o, 7, outputFile))
         == (Expected(input, o, outputFile).crf, Rest(o, 8, outputFile))
    ensures TakePair("-q:v", AnyValue, Rest(o, 8, outputFile))
         == (Expected(input, o, outputFile).quality, Rest(o, 9, outputFile))
    ensures Rest(o, 9, outputFile) == ["-y", outputFile]
  {
    StepCrop(input, o, outputFile);
    StepFrameRate(input, o, outputFile);
    StepBitrate(input, o, outputFile);
    StepCrf(input, o, outputFile);
    StepQuality(input, o, outputFile);
    assert GeneralGroups(o)[9..] == [];
  }

  /** Decoding the general argument vector of any options yields exactly
      the groups those options call for: each group appears precisely when
      its guard holds, in the order cut, frame, percentage scale, fixed
      scale, crop, frame rate, bitrate, CRF, quality. */
  lemma DecodeFFmpegArgs(input: string, o: Options, outputFile: string)
    requires CutWellFormed(o)
    ensures Decode(FFmpegArgs(input, o, outputFile)) == Some(Expected(input, o, outputFile))
  {
    var args := FFmpegArgs(input, o, outputFile);
    assert args[2..] == Rest(o, 0, outputFile) by {
      assert GeneralGroups(o)[0..] == GeneralGroups(o);
    }
    DecodeGeneral(args, input, o, outputFile);
  }
}
