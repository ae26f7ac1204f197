/**
 * The metadata written next to an exported thumbnail: a fixed 36-line text
 * report and a JSON record carrying the same facts. Rendering a float with
 * two decimals is a parameter `render`, and the clock readings (analysis
 * date, default file-name stamp) are parameters too.
 */
module MetadataGenerator {
  import opened Errors
  import opened RealMath
  import opened Text
  import FrameExtractor

  /** Width of every rule line. */
  const RuleWidth: nat := 60

  /**
   * `int(ts // 60)` and `int(ts % 60)` on a float: floor division, and the
   * floored remainder truncated. Seconds always land in 0..59 and, with the
   * minutes, rebuild the whole seconds of `ts`, also for negative `ts`.
   */
  function MinutesSeconds(ts: real): (r: (int, int))
    ensures 0 <= r.1 <= 59
    ensures r.0 * 60 + r.1 == ts.Floor
  {
    var minutes := (ts / 60.0).Floor;
    var remainder := ts - 60.0 * minutes as real;
    assert 0.0 <= remainder < 60.0;
    var seconds := Trunc(remainder);
    assert (60 * minutes + seconds) as real <= ts < (60 * minutes + seconds) as real + 1.0;
    (minutes, seconds)
  }

  /** `f"{minutes:02d}:{seconds:02d}"`. */
  function FormatTimestamp(ts: real): (r: string)
    ensures |r| >= 5 && r[|r| - 3] == ':'
    ensures 0.0 <= ts < 6000.0 ==> |r| == 5
  {
    var (m, s) := MinutesSeconds(ts);
    PadTwo(m) + ":" + PadTwo(s)
  }

  /** The MM:SS text reads back as the minutes and seconds, and so as the whole seconds of `ts`. */
  lemma FormatTimestampReadsBack(ts: real)
    ensures var r := FormatTimestamp(ts);
      && IsIntString(r[..|r| - 3]) && AllDigits(r[|r| - 2..])
      && ParseInt(r[..|r| - 3]) * 60 + ParseNat(r[|r| - 2..]) == ts.Floor
  {
    var (m, s) := MinutesSeconds(ts);
    ColonSlices(PadTwo(m), PadTwo(s));
    PadTwoParses(m);
    PadTwoParses(s);
  }

  /** The pieces of `a:b` with a two-character `b`, cut from the end. */
  lemma ColonSlices(a: string, b: string)
    requires |b| == 2
    ensures var r := a + ":" + b; r[..|r| - 3] == a && r[|r| - 2..] == b
  {
    var r := a + ":" + b;
    assert r[..|a|] == a;
    assert r[|a| + 1..] == b;
  }

  /** `int(ts * fps)` with a missing rate read as 0, so the position is then 0. */
  function FramePosition(ts: real, fps: Option<real>): (n: int)
    ensures fps.None? ==> n == 0
    ensures fps.Some? && ts * fps.value >= 0.0 ==> n as real <= ts * fps.value < n as real + 1.0
    ensures fps.Some? && ts * fps.value < 0.0 ==> n as real - 1.0 < ts * fps.value <= n as real
  {
    Trunc(ts * fps.GetOr(0.0))
  }

  /** In exact arithmetic a kept sample's timestamp times the native rate gives back its native frame index; binary64 rounding can fall just short of it. */
  lemma FramePositionOfSample(k: nat, nativeFps: real)
    requires nativeFps != 0.0
    ensures FramePosition(FrameExtractor.Timestamp(k, nativeFps), Some(nativeFps)) == k
  {
    assert FrameExtractor.Timestamp(k, nativeFps) * nativeFps == k as real;
  }

  /** The `video_info` entries the report reads; any of them may be missing. */
  datatype VideoInfo = VideoInfo(
    resolution: Option<string>, duration: Option<real>, fps: Option<real>, totalFrames: Option<int>)

  /** The score entries the report reads; any of them may be missing. */
  datatype ScoreFields = ScoreFields(
    overall: Option<real>, sharpness: Option<real>, faceClarity: Option<real>,
    brightness: Option<real>, composition: Option<real>, faceCount: Option<int>)

  /** Everything `generate_metadata` is called with, besides the output path. */
  datatype ReportInput = ReportInput(
    videoPath: string, info: VideoInfo, frameTimestamp: real, scores: ScoreFields,
    framesAnalyzed: int, processingTime: real)

  /** `key + value + unit`: the shape of each value-carrying line. */
  function Field(key: string, value: string, unit: string): (line: string)
    ensures '\n' !in key && '\n' !in value && '\n' !in unit ==> '\n' !in line
  {
    key + value + unit
  }

  /** Reads the value back out of a line, given its key and unit. */
  function ReadField(line: string, key: string, unit: string): (v: Option<string>)
    ensures v.Some? ==> Field(key, v.value, unit) == line
  {
    if |line| >= |key| + |unit| && line[..|key|] == key && line[|line| - |unit|..] == unit then
      var v := line[|key|..|line| - |unit|];
      assert key + v + unit == line;
      Some(v)
    else None
  }

  lemma ReadFieldOfField(key: string, value: string, unit: string)
    ensures ReadField(Field(key, value, unit), key, unit) == Some(value)
  {
    var line := Field(key, value, unit);
    assert line[..|key|] == key;
    assert line[|line| - |unit|..] == unit;
    assert line[|key|..|line| - |unit|] == value;
  }

  /** Text that fits on one line of the report. */
  type OneLine = s: string | '\n' !in s

  /** A value line built only from single-line pieces. */
  function Line(key: OneLine, value: OneLine, unit: OneLine): OneLine {
    Field(key, value, unit)
  }

  const DoubleRule: OneLine := Repeat('=', RuleWidth)
  const DashRule: OneLine := Repeat('-', RuleWidth)
  const Blank: OneLine := ""
  const NoUnit: OneLine := ""
  const Seconds: OneLine := " seconds"
  const OutOf100: OneLine := "/100"
  const BannerTitle: OneLine := "VideoFreeze - Thumbnail Frame Metadata"

  /** Labels of the four metric lines; each is 19 characters, so the values line up in one column. */
  const SharpnessLabel: OneLine := "  \U{2022} Sharpness:     "
  const FaceLabel: OneLine := "  \U{2022} Face Clarity:  "
  const BrightnessLabel: OneLine := "  \U{2022} Brightness:    "
  const CompositionLabel: OneLine := "  \U{2022} Composition:   "
  const OverallLabel: OneLine := "Overall Score: "
  const FacesLabel: OneLine := "Faces Detected: "
  const PositionLabel: OneLine := "Frame Position: "
  const SourceLabel: OneLine := "Source File: "
  const ResolutionLabel: OneLine := "Resolution: "
  const DurationLabel: OneLine := "Duration: "
  const FpsLabel: OneLine := "FPS: "
  const TotalFramesLabel: OneLine := "Total Frames: "

  /** Both rule lines are 60 characters of one repeated character. */
  lemma RulesAreSixtyWide()
    ensures |DoubleRule| == |DashRule| == 60
    ensures forall i :: 0 <= i < 60 ==> DoubleRule[i] == '=' && DashRule[i] == '-'
  {
  }

  lemma MetricLabelsAligned()
    ensures |SharpnessLabel| == |FaceLabel| == |BrightnessLabel| == |CompositionLabel| == 19
  {
  }

  /** `str()` of an integer, as a single line. */
  function IntLine(i: int): (s: OneLine)
    ensures s == IntToString(i)
  {
    IntToStringOneLine(i);
    IntToString(i)
  }

  lemma IntToStringOneLine(i: int)
    ensures '\n' !in IntToString(i)
  {
    var s := IntToString(i);
    forall k | 0 <= k < |s|
      ensures s[k] != '\n'
    {
      assert s[k] == '-' || IsDigit(s[k]);
    }
  }

  /** `Timestamp: MM:SS (<seconds> seconds)`. */
  function TimestampValue(ts: real, render: real -> OneLine): OneLine {
    var a := PadTwo(MinutesSeconds(ts).0);
    var b := PadTwo(MinutesSeconds(ts).1);
    assert forall k :: 0 <= k < |a| ==> a[k] == '-' || IsDigit(a[k]);
    assert forall k :: 0 <= k < |b| ==> b[k] == '-' || IsDigit(b[k]);
    assert FormatTimestamp(ts) == a + ":" + b;
    FormatTimestamp(ts) + " (" + render(ts)
  }

  /** Every line of `lines` is a single line. */
  predicate AllOneLine(lines: seq<string>) {
    forall i :: 0 <= i < |lines| ==> '\n' !in lines[i]
  }

  /** A titled block: the title, a dashed rule, the body and a blank line. */
  function Section(title: OneLine, body: seq<string>): (lines: seq<string>)
    ensures |lines| == |body| + 3
    ensures lines[0] == title && lines[1] == DashRule && lines[|lines| - 1] == Blank
    ensures lines[2..|body| + 2] == body
    ensures AllOneLine(body) ==> AllOneLine(lines)
  {
    var lines := [title, DashRule] + body + [Blank];
    assert forall i :: 2 <= i < |body| + 2 ==> lines[i] == body[i - 2];
    lines
  }

  /** The opening banner: a double rule, the title, a double rule and a blank line. */
  function Banner(): (lines: seq<string>)
    ensures |lines| == 4 && AllOneLine(lines)
    ensures lines[0] == lines[2] == DoubleRule
  {
    [DoubleRule, BannerTitle, DoubleRule, Blank]
  }

  /** The video path and resolution lines carry outside text; the other three are single lines. */
  function VideoSection(input: ReportInput, render: real -> OneLine): (lines: seq<string>)
    ensures |lines| == 8 && lines[1] == DashRule
    ensures '\n' !in input.videoPath && '\n' !in input.info.resolution.GetOr("N/A") ==> AllOneLine(lines)
  {
    var info := input.info;
    var title: OneLine := "VIDEO INFORMATION";
    Section(title, [
      Field(SourceLabel, input.videoPath, NoUnit),
      Field(ResolutionLabel, info.resolution.GetOr("N/A"), NoUnit),
      Line(DurationLabel, render(info.duration.GetOr(0.0)), Seconds),
      Line(FpsLabel, render(info.fps.GetOr(0.0)), NoUnit),
      Line(TotalFramesLabel, IntLine(info.totalFrames.GetOr(0)), NoUnit)])
  }

  /** Each value line of the video section gives back its value, with "N/A" or 0 for a missing entry. */
  lemma VideoSectionReadsBack(input: ReportInput, render: real -> OneLine)
    ensures var lines, info := VideoSection(input, render), input.info;
      && ReadField(lines[2], SourceLabel, NoUnit) == Some(input.videoPath)
      && ReadField(lines[3], ResolutionLabel, NoUnit) == Some(info.resolution.GetOr("N/A"))
      && ReadField(lines[4], DurationLabel, Seconds) == Some(render(info.duration.GetOr(0.0)))
      && ReadField(lines[5], FpsLabel, NoUnit) == Some(render(info.fps.GetOr(0.0)))
      && ReadField(lines[6], TotalFramesLabel, NoUnit) == Some(IntToString(info.totalFrames.GetOr(0)))
  {
    var info := input.info;
    var lines := VideoSection(input, render);
    assert lines[2] == Field(SourceLabel, input.videoPath, NoUnit);
    assert lines[3] == Field(ResolutionLabel, info.resolution.GetOr("N/A"), NoUnit);
    assert lines[4] == Field(DurationLabel, render(info.duration.GetOr(0.0)), Seconds);
    assert lines[5] == Field(FpsLabel, render(info.fps.GetOr(0.0)), NoUnit);
    assert lines[6] == Field(TotalFramesLabel, IntToString(info.totalFrames.GetOr(0)), NoUnit);
    ReadFieldOfField(SourceLabel, input.videoPath, NoUnit);
    ReadFieldOfField(ResolutionLabel, info.resolution.GetOr("N/A"), NoUnit);
    ReadFieldOfField(DurationLabel, render(info.duration.GetOr(0.0)), Seconds);
    ReadFieldOfField(FpsLabel, render(info.fps.GetOr(0.0)), NoUnit);
    ReadFieldOfField(TotalFramesLabel, IntToString(info.totalFrames.GetOr(0)), NoUnit);
  }

  function FrameSection(input: ReportInput, render: real -> OneLine): (lines: seq<string>)
    ensures |lines| == 5 && AllOneLine(lines) && lines[1] == DashRule
    ensures lines[3] == Line(PositionLabel, IntLine(FramePosition(input.frameTimestamp, input.info.fps)), NoUnit)
  {
    var title: OneLine := "SELECTED FRAME";
    var timestamp: OneLine := "Timestamp: ";
    var unit: OneLine := " seconds)";
    Section(title, [
      Line(timestamp, TimestampValue(input.frameTimestamp, render), unit),
      Line(PositionLabel, IntLine(FramePosition(input.frameTimestamp, input.info.fps)), NoUnit)])
  }

  function ScoreSection(scores: ScoreFields, render: real -> OneLine): (lines: seq<string>)
    ensures |lines| == 12 && AllOneLine(lines) && lines[1] == DashRule
  {
    var title: OneLine := "AESTHETIC SCORES";
    var heading: OneLine := "Individual Metrics:";
    Section(title, [
      Line(OverallLabel, render(scores.overall.GetOr(0.0)), OutOf100),
      Blank,
      heading,
      Line(SharpnessLabel, render(scores.sharpness.GetOr(0.0)), OutOf100),
      Line(FaceLabel, render(scores.faceClarity.GetOr(0.0)), OutOf100),
      Line(BrightnessLabel, render(scores.brightness.GetOr(0.0)), OutOf100),
      Line(CompositionLabel, render(scores.composition.GetOr(0.0)), OutOf100),
      Blank,
      Line(FacesLabel, IntLine(scores.faceCount.GetOr(0)), NoUnit)])
  }

  function ProcessingSection(input: ReportInput, render: real -> OneLine, analysisDate: OneLine): (lines: seq<string>)
    ensures |lines| == 6 && AllOneLine(lines) && lines[1] == DashRule
  {
    var title: OneLine := "PROCESSING STATISTICS";
    var frames: OneLine := "Frames Analyzed: ";
    var time: OneLine := "Processing Time: ";
    var date: OneLine := "Analysis Date: ";
    Section(title, [
      Line(frames, IntLine(input.framesAnalyzed), NoUnit),
      Line(time, render(input.processingTime), Seconds),
      Line(date, analysisDate, NoUnit)])
  }

  /**
   * The 36 lines of the text report, with missing entries shown as `N/A` or 0:
   * double rules at lines 0, 2 and 35 and dashed rules under the four titles.
   */
  function ReportLines(input: ReportInput, render: real -> OneLine, analysisDate: OneLine): (lines: seq<string>)
    ensures |lines| == 36
    ensures lines[0] == lines[2] == lines[35] == DoubleRule
    ensures lines[5] == lines[13] == lines[18] == lines[30] == DashRule
    ensures lines[12..17] == FrameSection(input, render)
    ensures lines[17..29] == ScoreSection(input.scores, render)
  {
    Assemble(Banner(), VideoSection(input, render), FrameSection(input, render),
      ScoreSection(input.scores, render), ProcessingSection(input, render, analysisDate))
  }

  /** The five blocks one after another, then the closing double rule. */
  function Assemble(banner: seq<string>, video: seq<string>, frame: seq<string>, score: seq<string>, processing: seq<string>): (lines: seq<string>)
    requires |banner| == 4 && |video| == 8 && |frame| == 5 && |score| == 12 && |processing| == 6
    ensures |lines| == 36 && lines[35] == DoubleRule
    ensures lines[..4] == banner && lines[4..12] == video && lines[12..17] == frame
    ensures lines[17..29] == score && lines[29..35] == processing
  {
    var lines := banner + video + frame + score + processing + [DoubleRule];
    assert lines[..4] == banner;
    assert lines[4..12] == video;
    assert lines[12..17] == frame;
    assert lines[17..29] == score;
    assert lines[29..35] == processing;
    lines
  }

  /** The report text: lines joined by newlines, with no newline after the closing rule. */
  function Report(input: ReportInput, render: real -> OneLine, analysisDate: OneLine): (r: string)
    ensures |r| > 0 && r[|r| - 1] == '='
  {
    var lines := ReportLines(input, render, analysisDate);
    JoinEndsWithLast(lines, '\n');
    Join(lines, '\n')
  }

  /** A join of non-empty parts ends with the last part. */
  lemma {:induction false} JoinEndsWithLast(parts: seq<string>, sep: char)
    requires |parts| >= 1 && |parts[|parts| - 1]| > 0
    ensures var r := Join(parts, sep);
      |r| >= |parts[|parts| - 1]| && r[|r| - |parts[|parts| - 1]|..] == parts[|parts| - 1]
  {
    if |parts| > 1 {
      JoinEndsWithLast(parts[1..], sep);
      assert parts[1..][|parts[1..]| - 1] == parts[|parts| - 1];
    }
  }

  lemma AppendOneLine(a: seq<string>, b: seq<string>)
    requires AllOneLine(a) && AllOneLine(b)
    ensures AllOneLine(a + b)
  {
    forall i | 0 <= i < |a + b|
      ensures '\n' !in (a + b)[i]
    {
      if i >= |a| {
        assert (a + b)[i] == b[i - |a|];
      }
    }
  }

  /** Splitting the report on newlines gives back its 36 lines, provided the source path and resolution are single lines. */
  lemma ReportSplitsIntoLines(input: ReportInput, render: real -> OneLine, analysisDate: OneLine)
    requires '\n' !in input.videoPath && '\n' !in input.info.resolution.GetOr("N/A")
    ensures Split(Report(input, render, analysisDate), '\n') == ReportLines(input, render, analysisDate)
  {
    var banner, video, frame := Banner(), VideoSection(input, render), FrameSection(input, render);
    var score, processing := ScoreSection(input.scores, render), ProcessingSection(input, render, analysisDate);
    var footer: seq<string> := [DoubleRule];
    AppendOneLine(banner, video);
    AppendOneLine(banner + video, frame);
    AppendOneLine(banner + video + frame, score);
    AppendOneLine(banner + video + frame + score, processing);
    AppendOneLine(banner + video + frame + score + processing, footer);
    SplitJoin(ReportLines(input, render, analysisDate), '\n');
  }

  /** Each value line of the score section gives back its rendered value. */
  lemma ScoreSectionReadsBack(scores: ScoreFields, render: real -> OneLine)
    ensures var lines := ScoreSection(scores, render);
      && ReadField(lines[2], OverallLabel, OutOf100) == Some(render(scores.overall.GetOr(0.0)))
      && ReadField(lines[5], SharpnessLabel, OutOf100) == Some(render(scores.sharpness.GetOr(0.0)))
      && ReadField(lines[6], FaceLabel, OutOf100) == Some(render(scores.faceClarity.GetOr(0.0)))
      && ReadField(lines[7], BrightnessLabel, OutOf100) == Some(render(scores.brightness.GetOr(0.0)))
      && ReadField(lines[8], CompositionLabel, OutOf100) == Some(render(scores.composition.GetOr(0.0)))
      && ReadField(lines[10], FacesLabel, NoUnit) == Some(IntToString(scores.faceCount.GetOr(0)))
  {
    ReadFieldOfField(OverallLabel, render(scores.overall.GetOr(0.0)), OutOf100);
    ReadFieldOfField(SharpnessLabel, render(scores.sharpness.GetOr(0.0)), OutOf100);
    ReadFieldOfField(FaceLabel, render(scores.faceClarity.GetOr(0.0)), OutOf100);
    ReadFieldOfField(BrightnessLabel, render(scores.brightness.GetOr(0.0)), OutOf100);
    ReadFieldOfField(CompositionLabel, render(scores.composition.GetOr(0.0)), OutOf100);
    ReadFieldOfField(FacesLabel, IntToString(scores.faceCount.GetOr(0)), NoUnit);
  }

  /**
   * Reading the report back: split on newlines, the video lines give back the
   * path, the resolution ("N/A" when missing), the duration, the frame rate and
   * the frame count (0 when missing); the frame-position line gives back the
   * frame number; and the score lines come in the order overall, sharpness,
   * face clarity, brightness, composition, faces detected, each giving back its
   * rendered value, with 0 for a missing one.
   */
  lemma ReportReadsBack(input: ReportInput, render: real -> OneLine, analysisDate: OneLine)
    requires '\n' !in input.videoPath && '\n' !in input.info.resolution.GetOr("N/A")
    ensures var lines, info := Split(Report(input, render, analysisDate), '\n'), input.info;
      && |lines| == 36
      && ReadField(lines[6], SourceLabel, NoUnit) == Some(input.videoPath)
      && ReadField(lines[7], ResolutionLabel, NoUnit) == Some(info.resolution.GetOr("N/A"))
      && ReadField(lines[8], DurationLabel, Seconds) == Some(render(info.duration.GetOr(0.0)))
      && ReadField(lines[9], FpsLabel, NoUnit) == Some(render(info.fps.GetOr(0.0)))
      && ReadField(lines[10], TotalFramesLabel, NoUnit) == Some(IntToString(info.totalFrames.GetOr(0)))
      && ReadField(lines[15], PositionLabel, NoUnit) == Some(IntToString(FramePosition(input.frameTimestamp, info.fps)))
      && ReadField(lines[19], OverallLabel, OutOf100) == Some(render(input.scores.overall.GetOr(0.0)))
      && ReadField(lines[22], SharpnessLabel, OutOf100) == Some(render(input.scores.sharpness.GetOr(0.0)))
      && ReadField(lines[23], FaceLabel, OutOf100) == Some(render(input.scores.faceClarity.GetOr(0.0)))
      && ReadField(lines[24], BrightnessLabel, OutOf100) == Some(render(input.scores.brightness.GetOr(0.0)))
      && ReadField(lines[25], CompositionLabel, OutOf100) == Some(render(input.scores.composition.GetOr(0.0)))
      && ReadField(lines[27], FacesLabel, NoUnit) == Some(IntToString(input.scores.faceCount.GetOr(0)))
  {
    ReportSplitsIntoLines(input, render, analysisDate);
    var lines := ReportLines(input, render, analysisDate);
    var video := VideoSection(input, render);
    assert lines[6] == video[2] && lines[7] == video[3] && lines[8] == video[4];
    assert lines[9] == video[5] && lines[10] == video[6];
    VideoSectionReadsBack(input, render);
    var score := ScoreSection(input.scores, render);
    assert lines[19] == score[2] && lines[22] == score[5] && lines[23] == score[6];
    assert lines[24] == score[7] && lines[25] == score[8] && lines[27] == score[10];
    ScoreSectionReadsBack(input.scores, render);
    assert lines[15] == FrameSection(input, render)[3];
    ReadFieldOfField(PositionLabel, IntToString(FramePosition(input.frameTimestamp, input.info.fps)), NoUnit);
  }

  /** `thumbnail_metadata_<stamp>` plus the format's extension, unless a path is given. */
  function OutputPath(given: Option<string>, clockStamp: string, extension: string): (p: string)
    ensures given.Some? ==> p == given.value
  {
    given.GetOr("thumbnail_metadata_" + clockStamp + "." + extension)
  }

  /** With no path given, the text and JSON files share a name and differ only in extension. */
  lemma DefaultPathsShareStem(clockStamp: string)
    requires '.' !in clockStamp && '/' !in clockStamp
    ensures SplitExt(OutputPath(None, clockStamp, "txt")).0 == SplitExt(OutputPath(None, clockStamp, "json")).0
    ensures SplitExt(OutputPath(None, clockStamp, "txt")).1 == ".txt"
    ensures SplitExt(OutputPath(None, clockStamp, "json")).1 == ".json"
  {
    var stem := "thumbnail_metadata_" + clockStamp;
    if |clockStamp| > 0 {
      assert stem[|stem| - 1] == clockStamp[|clockStamp| - 1];
    }
    SplitExtOfJoined(stem, "txt");
    SplitExtOfJoined(stem, "json");
  }

  /** `generate_metadata`: the path written and the text written there. */
  function GenerateMetadata(input: ReportInput, given: Option<string>, clockStamp: string,
                            render: real -> OneLine, analysisDate: OneLine): (r: (string, string))
    ensures r.0 == OutputPath(given, clockStamp, "txt")
    ensures '\n' !in input.videoPath && '\n' !in input.info.resolution.GetOr("N/A") ==>
      Split(r.1, '\n') == ReportLines(input, render, analysisDate)
  {
    SplitsWhenSingleLine(input, render, analysisDate);
    (OutputPath(given, clockStamp, "txt"), Report(input, render, analysisDate))
  }

  /** `ReportSplitsIntoLines` with its condition as a premise. */
  lemma SplitsWhenSingleLine(input: ReportInput, render: real -> OneLine, analysisDate: OneLine)
    ensures '\n' !in input.videoPath && '\n' !in input.info.resolution.GetOr("N/A") ==>
      Split(Report(input, render, analysisDate), '\n') == ReportLines(input, render, analysisDate)
  {
    if '\n' !in input.videoPath && '\n' !in input.info.resolution.GetOr("N/A") {
      ReportSplitsIntoLines(input, render, analysisDate);
    }
  }

  datatype JsonVideo = JsonVideo(
    sourceFile: string, resolution: string, durationSeconds: real, fps: real, totalFrames: int)
  datatype JsonSelectedFrame = JsonSelectedFrame(timestampSeconds: real, frameNumber: int)
  datatype JsonProcessing = JsonProcessing(framesAnalyzed: int, processingTimeSeconds: real, analysisDate: string)

  /** The JSON document; the score entries are carried over as given, missing ones stay missing. */
  datatype JsonReport = JsonReport(
    video: JsonVideo, selectedFrame: JsonSelectedFrame, aestheticScores: ScoreFields, processing: JsonProcessing)

  function JsonDocument(input: ReportInput, analysisDate: string): (j: JsonReport)
    ensures j.aestheticScores == input.scores
    ensures j.selectedFrame.timestampSeconds == input.frameTimestamp
    ensures input.info.fps.None? ==> j.selectedFrame.frameNumber == 0
  {
    var info := input.info;
    JsonReport(
      JsonVideo(input.videoPath, info.resolution.GetOr("N/A"), info.duration.GetOr(0.0),
                info.fps.GetOr(0.0), info.totalFrames.GetOr(0)),
      JsonSelectedFrame(input.frameTimestamp, FramePosition(input.frameTimestamp, info.fps)),
      input.scores,
      JsonProcessing(input.framesAnalyzed, input.processingTime, analysisDate))
  }

  /** `generate_metadata_json`: the path written and the document written there. */
  function GenerateMetadataJson(input: ReportInput, given: Option<string>, clockStamp: string,
                                analysisDate: string): (r: (string, JsonReport))
    ensures r.0 == OutputPath(given, clockStamp, "json")
    ensures r.1.aestheticScores == input.scores
  {
    (OutputPath(given, clockStamp, "json"), JsonDocument(input, analysisDate))
  }

  /**
   * The two formats agree: the text report's frame-position line shows the
   * JSON frame number, and its overall-score line shows the JSON overall score
   * (0 when missing).
   */
  lemma TextAndJsonAgree(input: ReportInput, render: real -> OneLine, analysisDate: OneLine)
    ensures var lines := ReportLines(input, render, analysisDate);
      var j := JsonDocument(input, analysisDate);
      && ReadField(lines[15], PositionLabel, NoUnit) == Some(IntToString(j.selectedFrame.frameNumber))
      && ReadField(lines[19], OverallLabel, OutOf100) == Some(render(j.aestheticScores.overall.GetOr(0.0)))
  {
    var lines := ReportLines(input, render, analysisDate);
    var j := JsonDocument(input, analysisDate);
    assert j.selectedFrame.frameNumber == FramePosition(input.frameTimestamp, input.info.fps);
    assert lines[15] == FrameSection(input, render)[3];
    ReadFieldOfField(PositionLabel, IntToString(j.selectedFrame.frameNumber), NoUnit);
    assert lines[19] == ScoreSection(input.scores, render)[2];
    ScoreSectionReadsBack(input.scores, render);
  }
}
