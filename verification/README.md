# VideoFreeze thumbnail selector — a Dafny model

VideoFreeze picks a thumbnail from a video. It samples frames at a chosen rate and scores each frame on four aesthetic metrics. The metrics are sharpness, face clarity, brightness balance and composition. It combines the four with user weights, keeps the best frame, and exports it with a text or JSON metadata report.

This project models the decision logic of that pipeline as pure Dafny functions and proves properties of it:

- `FrameExtractor` models frame sampling: the stride, the kept frames, their timestamps and the error cases.
- `Sharpness`, `FaceDetector`, `Brightness` and `Composition` model the four metric formulas. They take their inputs after the image processing: a Laplacian response, detector boxes, grey levels, an edge map. `Stats` holds the shared mean and variance.
- `AestheticScorer` models the weighted score and the first-maximum scan of `find_best_frame`, with its progress callbacks, and `score_all_frames`.
- `MetadataGenerator` models the 36-line text report, its file name and the JSON record. `Text` supplies the Python string pieces they rely on: `str()`, the `02d` format, `join`/`split` and `os.path.splitext`.
- `App` models the pure parts of the Streamlit front end: slider weight normalisation, the progress fraction, the export format and file names, and the analysis pipeline.

Every image operation is a parameter, not a model. This covers the greyscale conversion, the Laplacian, Canny, the Haar cascade, decoding and `:.2f` rendering. The clock readings are parameters too. The metric models start from the values those operations hand over.

Where the written design and the code differ, the model follows the code:

- The decode stride is `int(native / target)`, which truncates. It is not rounded (`FrameExtractor.StrideTruncates`).
- Only a native rate of exactly 0 is rejected. A negative native rate is accepted (`FrameExtractor.NegativeRateAccepted`).
- A target rate of 0 is a division by zero in the code. It is modelled as the error `ZeroTargetRate`.
- The rule-of-thirds windows are clamped to the frame rather than centred squares (`Composition.Window`).
- The composition interest map's cell sums are never read by the score. Its one effect is its shape: a frame under 20 pixels on either side gets an empty map, whose maximum raises `ValueError` before any scoring (`Composition.CalculateCompositionScore`).

## Model

| member | source | states |
|---|---|---|
| FrameExtractor.Stride | analyzer/frame_extractor.py:41-44 | the stride is at least 1 and is the native/target ratio truncated toward zero; a ratio below 2 gives stride 1 |
| FrameExtractor.ExtractFrames | analyzer/frame_extractor.py:27-69 | errors in the code's order: unopenable source, native rate 0, target rate 0, no decoded frames; success exactly when none applies, and then a non-empty list equal to the stride sampling |
| FrameExtractor.ReadLoop | analyzer/frame_extractor.py:50-61 | the read loop keeps exactly one sample per stride, in order, each with its own native frame and timestamp |
| FrameExtractor.KeptIffOnStride | analyzer/frame_extractor.py:57-59 | native frame k is sampled iff k is a multiple of the stride, and then at position k/stride with timestamp k/native |
| FrameExtractor.TimestampsIncrease | analyzer/frame_extractor.py:58 | for a positive native rate the first timestamp is 0 and timestamps strictly increase |
| FrameExtractor.FastTargetKeepsAll | analyzer/frame_extractor.py:42-44 | a target rate at or above the native rate keeps every decoded frame |
| FrameExtractor.NegativeRateAccepted | analyzer/frame_extractor.py:37-39 | a negative native rate passes the check; every frame is kept and every timestamp is at most 0 |
| FrameExtractor.TwoSecondClip | analyzer/frame_extractor.py:42-59 | 60 frames at 30 fps sampled at 1 fps give frames 0 and 30 at 0 s and 1 s |
| FrameExtractor.StrideTruncates | analyzer/frame_extractor.py:42 | 29.97 fps over a 1 fps target gives stride 29, not 30 |
| FrameExtractor.CeilDivIsLeast | analyzer/frame_extractor.py:50-61 | the sample count is the least multiple count covering all frames |
| Stats.MeanBetween | analyzer/brightness.py:36 | the mean of values in [lo, hi] lies in [lo, hi] |
| Stats.ConstantStats | analyzer/sharpness.py:33 | a constant sequence has that constant as mean and variance 0 |
| Stats.SumBounds | analyzer/brightness.py:36 | a sum of n values in [lo, hi] lies in [n·lo, n·hi] |
| Sharpness.ScoreOfVariance | analyzer/sharpness.py:38 | the score is variance/10 below 1000, exactly 100 from 1000 on, never above 100 |
| Sharpness.CalculateSharpness | analyzer/sharpness.py:30-40 | the score of any non-empty response lies in [0, 100] |
| Sharpness.ScoreMonotone | analyzer/sharpness.py:38 | more variance never lowers the score |
| Sharpness.IsSharpIffVariance | analyzer/sharpness.py:43-55 | for thresholds up to 100, sharp iff the Laplacian variance is at least 10 × threshold |
| Sharpness.DefaultIsSharp | analyzer/sharpness.py:43 | with the default threshold 30, sharp iff variance ≥ 300 |
| Sharpness.UnreachableThreshold | analyzer/sharpness.py:54-55 | no frame is sharp for a threshold above 100 |
| Sharpness.ConstantResponseScoresZero | analyzer/sharpness.py:33-38 | a flat Laplacian response scores 0 |
| FaceDetector.CountBonus | analyzer/face_detector.py:75-82 | bonus 30 iff 1–3 faces, 20 iff 4, 10 iff 5, 5 iff 6 or more |
| FaceDetector.BaseScore | analyzer/face_detector.py:73 | at most 70, non-negative for non-negative coverage, three times coverage below the cap and exactly 70 from the cap on |
| FaceDetector.Coverage | analyzer/face_detector.py:61-66 | coverage is non-negative and is 0 iff the boxes have no area |
| FaceDetector.DetectFaces | analyzer/face_detector.py:54-86 | no boxes give (0, 0); the count is the box count; the score lies in [0, 100], at least 30 for 1–3 faces, at least 5 for any face |
| FaceDetector.CapIsRedundant | analyzer/face_detector.py:84 | the final 100 cap never changes the score: base plus bonus is at most 100 |
| FaceDetector.TotalAreaAppend | analyzer/face_detector.py:61-63 | total area adds up over concatenated box lists |
| FaceDetector.DuplicatesDoubleCoverage | analyzer/face_detector.py:61-66 | boxes are not de-duplicated: listing them twice doubles the coverage |
| FaceDetector.ScoreMonotoneInArea | analyzer/face_detector.py:66-84 | for a fixed face count, more covered area never lowers the score |
| Brightness.HistogramCountsRange | analyzer/brightness.py:28-42 | summing histogram bins [lo, hi) counts the pixels with a grey level in [lo, hi) |
| Brightness.BinFraction | analyzer/brightness.py:33-42 | a bin-range share is the count in range over the pixel count, within [0, 1] |
| Brightness.DarkFraction | analyzer/brightness.py:41 | the dark share counts grey levels 0–9, within [0, 1] |
| Brightness.BrightFraction | analyzer/brightness.py:42 | the bright share counts grey levels 246–255, within [0, 1] |
| Brightness.MeanBrightness | analyzer/brightness.py:36 | the mean grey level lies in [0, 255] |
| Brightness.CenteringScore | analyzer/brightness.py:46-48 | 50 exactly at mean 127, 0 exactly at means 0 and 254, within [-50/127, 50] for grey-level means |
| Brightness.ClippingScore | analyzer/brightness.py:51-52 | within [0, 30]; 0 iff at least 30% of pixels are clipped; 30 with no clipping |
| Brightness.ContrastScore | analyzer/brightness.py:56-63 | one of the contrast bands, always within [5, 20] |
| Brightness.ContrastMatchesSigma | analyzer/brightness.py:37-63 | comparing the variance with squared thresholds gives the same band as comparing the standard deviation with the thresholds |
| Brightness.BrightnessBalance | analyzer/brightness.py:66-68 | the score lies in (0, 100] and the final clamp never changes the sum of its three terms |
| Brightness.GetBrightnessStats | analyzer/brightness.py:71-94 | min ≤ mean ≤ max within [0, 255]; the percentages are the scorer's shares × 100 and together at most 100 |
| Brightness.ClippedShareAtMostOne | analyzer/brightness.py:41-42 | the dark and bright shares are disjoint and add up to at most 1 |
| Brightness.UniformMidGrayScores85 | analyzer/brightness.py:46-68 | a uniform grey-127 frame scores 50 + 30 + 5 = 85 |
| Composition.ThirdsPoints | analyzer/composition.py:34-43 | four points on the floor-thirds grid, 2·third apart, inside the frame |
| Composition.Window | analyzer/composition.py:66-69 | the window is clamped to [0, limit], contains the point and is at most 2r wide |
| Composition.WindowMembers | analyzer/composition.py:66-71 | k is in the window iff it is inside the frame and within r of the point (upper end exclusive) |
| Composition.CheckRadius | analyzer/composition.py:62 | the radius is the longer side over 12 rounded down (12·r ≤ longer side < 12·r + 12), so it is 0 exactly when both sides are under 12 |
| Composition.PointScore | analyzer/composition.py:71-76 | each thirds point contributes within [0, 25], and nothing for an empty window |
| Composition.RuleOfThirdsScore | analyzer/composition.py:61-76 | the thirds term lies in [0, 100] and is 0 for frames under 12 pixels on both sides |
| Composition.EdgeMasses | analyzer/composition.py:80-83 | left + right and top + bottom both equal the total edge mass; the centre holds at most the total |
| Composition.RowBandSplit | analyzer/composition.py:80-83 | the edge mass of a region splits exactly at any row |
| Composition.ColumnSplit | analyzer/composition.py:80-83 | the edge mass of a region splits exactly at any column |
| Composition.SubRegion | analyzer/composition.py:97-99 | any sub-region holds at most the whole frame's edge mass |
| Composition.Balance | analyzer/composition.py:86-94 | the intended balance lies in [0, 1]; 1 iff both masses are equal and non-zero; 0 iff either is 0 |
| Composition.BalanceSymmetric | analyzer/composition.py:86-94 | the intended balance does not depend on which side is named first |
| Composition.CenterPenalty | analyzer/composition.py:97-102 | the penalty lies in [0, 10] and is positive iff the centre holds more than half the edge mass |
| Composition.Combine | analyzer/composition.py:104-108 | the combined score is clamped to [0, 100] |
| Composition.CompositionScore | analyzer/composition.py:11-108 | the corrected composition score lies in [0, 100] |
| Composition.CompositionScoreAsWritten | analyzer/composition.py:80-108 | the score as written, with uint64 wrap-around, still lies in [0, 100] |
| Composition.WrappingSub | analyzer/composition.py:87 | uint64 subtraction: exact when a ≥ b, else wraps to 2^64 − (b − a) |
| Composition.AsWrittenAgreesWithoutWrap | analyzer/composition.py:80-95 | when left ≥ right and top ≥ bottom, the as-written score equals the corrected one |
| Composition.WrappedBalanceCollapses | analyzer/composition.py:86-87 | when the right mass exceeds the left, the as-written balance drops below −10^6 |
| Composition.AsWrittenZeroWhenWrapped | analyzer/composition.py:80-108 | any frame heavier on the right or bottom scores exactly 0 as written |
| Composition.CalculateCompositionScore | analyzer/composition.py:47-108 | raises exactly when the interest map has no cell (a side under 20 pixels); otherwise the score as written, in [0, 100], equal to the corrected score when neither subtraction wraps and 0 when one does |
| Composition.AsWrittenCases | analyzer/composition.py:80-108 | the score as written is the corrected one when left ≥ right and top ≥ bottom, and 0 otherwise |
| Composition.FullMapIntended | analyzer/composition.py:61-108 | an edge map full of edges with a side of at least 12 pixels gets the corrected score 100 |
| Composition.WrapCounterexample | analyzer/composition.py:47-108 | every edge map full of edges, at least 20×20 and of odd width, passes the interest-map step and scores 0 as written where 100 is intended |
| Composition.WrapWitness | analyzer/composition.py:47-108 | the 20×21 map full of edges scores 0 as written and 100 as intended |
| Composition.EmptyMapScoresZero | analyzer/composition.py:86-108 | a frame without edges scores 0, both corrected and as written |
| AestheticScorer.DefaultWeights | analyzer/aesthetic_scorer.py:16-21 | the default weights are convex and rank sharpness > face clarity = composition > brightness |
| AestheticScorer.ResolveWeights | analyzer/aesthetic_scorer.py:35-36 | missing weights become the convex defaults; given weights are used as they are |
| AestheticScorer.ScoreFrame | analyzer/aesthetic_scorer.py:24-59 | the breakdown carries each metric's own result and the weighted overall under the resolved weights |
| AestheticScorer.ConvexOverallInRange | analyzer/aesthetic_scorer.py:45-50 | convex weights over sub-scores in [0, 100] give an overall in [0, 100] |
| AestheticScorer.ShiftWeight | analyzer/aesthetic_scorer.py:45-50 | moving weight d between two metrics keeps the total and changes only those two by ∓d |
| AestheticScorer.WeightShiftSensitivity | analyzer/aesthetic_scorer.py:45-50 | moving weight d > 0 onto a metric changes the overall by d × the score gap, so it raises it iff that metric outscores the other |
| AestheticScorer.OverallAdditive | analyzer/aesthetic_scorer.py:45-50 | the overall score is linear in the weights |
| AestheticScorer.StepKeepsInv | analyzer/aesthetic_scorer.py:85-91 | one strict-greater step keeps the state at the first maximum of the prefix |
| AestheticScorer.FindBestFrame | analyzer/aesthetic_scorer.py:78-99 | empty input is the EmptyInput error; otherwise the frame and timestamp at the returned index, the first maximum with its scores when some score beats −1, else index 0 with no scores |
| AestheticScorer.FirstFrameWinsTies | analyzer/aesthetic_scorer.py:88 | of two equal top-scoring frames, the later one is never chosen |
| AestheticScorer.NonNegativeScoresAlwaysRecorded | analyzer/aesthetic_scorer.py:82-91 | with non-negative overall scores the winner's scores are recorded and no frame outscores it |
| AestheticScorer.ScoreAllFrames | analyzer/aesthetic_scorer.py:118-127 | one (timestamp, breakdown) pair per frame, in order |
| AestheticScorer.ScoreAllFramesAppend | analyzer/aesthetic_scorer.py:120-122 | scoring a concatenation is concatenating the scorings |
| AestheticScorer.SelectionAgreesWithScoreAll | analyzer/aesthetic_scorer.py:85-91 | the winner's entry in the full scoring is its own timestamp and scores, and nothing there scores higher |
| AestheticScorer.ProgressCalls | analyzer/aesthetic_scorer.py:94-95 | the callback sequence is (1, n), (2, n), …, one per frame |
| AestheticScorer.FindBestFrameWithProgress | analyzer/aesthetic_scorer.py:85-99 | the loop returns the selection and makes one callback per frame when a callback is given, none otherwise |
| AestheticScorer.ScoreAllFramesWithProgress | analyzer/aesthetic_scorer.py:118-127 | the loop returns the full scoring and one callback per frame when a callback is given |
| AestheticScorer.StandardScoresInRange | analyzer/aesthetic_scorer.py:39-50 | with the four metric models, as written and as intended, every sub-score and the default-weight overall lie in [0, 100] |
| AestheticScorer.MetricsAgreeWithoutWrap | analyzer/aesthetic_scorer.py:39-59 | the program's metrics and the intended ones give the same sharpness, face and brightness results, and the same breakdown on a frame whose edge mass is not heavier on the right or at the bottom |
| Text.NatToString | export/metadata_generator.py:57 | decimal digits without a leading zero, one digit exactly below 10 |
| Text.ParseNatToString | export/metadata_generator.py:57 | reading the digits back gives the number |
| Text.IntToString | export/metadata_generator.py:74 | a leading minus iff negative, otherwise digits only |
| Text.ParseIntToString | export/metadata_generator.py:74 | `str()` of an integer reads back as that integer |
| Text.PadTwo | export/metadata_generator.py:43 | `02d` gives two digits for 0–99 and leaves other numbers as plain `str()` |
| Text.PadTwoParses | export/metadata_generator.py:43 | the padded text reads back as the number |
| Text.Repeat | export/metadata_generator.py:47 | n copies of the character |
| Text.Split | export/metadata_generator.py:87 | at least one part, and no part holds the separator |
| Text.SplitJoin | export/metadata_generator.py:87 | splitting a join of separator-free parts gives the parts back |
| Text.JoinSplit | export/metadata_generator.py:87 | joining the parts of a split gives the text back |
| Text.SplitExt | app.py:216 | root + extension is the path; the extension is empty or a dot with no further dot or slash |
| Text.SplitExtOfJoined | app.py:216-217 | a stem joined to a dot-free extension splits back into the two |
| MetadataGenerator.MinutesSeconds | export/metadata_generator.py:41-42 | seconds lie in 0–59, and minutes × 60 + seconds is the floor of the timestamp, also for negative timestamps |
| MetadataGenerator.FormatTimestamp | export/metadata_generator.py:43 | MM:SS with the colon third from the end, exactly 5 characters below 100 minutes |
| MetadataGenerator.FormatTimestampReadsBack | export/metadata_generator.py:41-43 | the MM:SS text reads back as the whole seconds of the timestamp |
| MetadataGenerator.FramePosition | export/metadata_generator.py:62 | the position is the product truncated toward zero, and 0 when the rate is missing |
| MetadataGenerator.FramePositionOfSample | export/metadata_generator.py:62 | in exact arithmetic, a sample's timestamp times the native rate gives back its native frame index |
| MetadataGenerator.ReadFieldOfField | export/metadata_generator.py:53-80 | a value line read back with its key and unit gives the value |
| MetadataGenerator.RulesAreSixtyWide | export/metadata_generator.py:47-52 | both rule lines are 60 characters of `=` or `-` |
| MetadataGenerator.MetricLabelsAligned | export/metadata_generator.py:69-72 | the four metric labels have the same width, so their values line up |
| MetadataGenerator.ReportLines | export/metadata_generator.py:46-83 | 36 lines with double rules at 0, 2 and 35, dashed rules under the four titles, the frame block at 12–16 and the score block at 17–28 |
| MetadataGenerator.Report | export/metadata_generator.py:87 | the text ends with the closing rule and no trailing newline |
| MetadataGenerator.ReportSplitsIntoLines | export/metadata_generator.py:46-87 | splitting the written text on newlines gives back the 36 lines when the path and resolution are single lines |
| MetadataGenerator.VideoSectionReadsBack | export/metadata_generator.py:53-57 | the video lines give back the path, the resolution or "N/A" when missing, and the rendered duration, rate and frame count, 0 when missing |
| MetadataGenerator.ReportReadsBack | export/metadata_generator.py:53-74 | split on newlines, the written text gives back the video lines with their "N/A" and 0 defaults, the frame position, each rendered score and the face count |
| MetadataGenerator.OutputPath | export/metadata_generator.py:36-38 | a given path is used as it is |
| MetadataGenerator.DefaultPathsShareStem | export/metadata_generator.py:36-38 | the default text and JSON names share their stem and differ only in extension |
| MetadataGenerator.GenerateMetadata | export/metadata_generator.py:12-89 | returns the chosen path and, when the path and resolution are single lines, a text whose lines are the report |
| MetadataGenerator.JsonDocument | export/metadata_generator.py:114-132 | scores carried over unchanged, the timestamp as given, frame number 0 when the rate is missing |
| MetadataGenerator.GenerateMetadataJson | export/metadata_generator.py:110-132 | the JSON path follows the same path rule, and the scores are carried over |
| MetadataGenerator.TextAndJsonAgree | export/metadata_generator.py:62-126 | the text report and the JSON record give the same frame position and overall score |
| App.NormaliseWeights | app.py:78-92 | the weights always sum to 1; each is its slider's share of a positive total, else all are 0.25 |
| App.SlidersGiveConvexWeights | app.py:72-92 | sliders in [0, 1] give convex weights, each within [0, 1] |
| App.NormalisedWeightOf | app.py:80-85 | each normalised weight is its slider divided by the slider total |
| App.NormalisingKeepsRatios | app.py:80-85 | normalising keeps every pairwise ratio between sliders |
| App.NormalisedOverallInRange | app.py:72-92 | slider weights over sub-scores in [0, 100] give an overall in [0, 100] |
| App.ProgressFraction | app.py:124-125 | the progress is at most 1, non-negative for non-negative counts, and exactly 1 iff current ≥ total |
| App.ProgressAlongScan | app.py:124-139 | along a scan the progress is positive, strictly increasing and ends at 1 |
| App.ExportChoice | app.py:205-212 | PNG gives png with image/png; anything else gives jpg with image/jpeg |
| App.ThumbnailStem | app.py:216-217 | the thumbnail name stem ends in the seconds suffix `s` |
| App.DownloadNameSplits | app.py:216-217 | the download name splits into the video's root, `_thumbnail_`, the truncated seconds, `s`, and the chosen extension; `.png` iff PNG was chosen |
| App.NamesShareBase | app.py:216-250 | the image name and the metadata name both start with the video's root |
| App.EstimatedFrames | app.py:112 | the estimate is duration × rate truncated, non-negative when the product is |
| App.SliderRateNeverZero | app.py:62-69 | sampling rates the slider allows never hit the zero-rate error |
| App.AsPairs | app.py:131-139 | samples are handed to the scorer as (frame, timestamp) pairs, in order |
| App.Analyse | app.py:129-139 | extraction errors pass through unchanged, and analysis succeeds iff extraction does |
| App.AnalysisPicksBestSample | app.py:129-139 | with sliders in range, the chosen sample is one of the extracted ones, has recorded scores in [0, 100], and no sample scores higher |

## Findings

| source | as written | input that shows it | evidently intended | confidence | as-written member | corrected member |
|---|---|---|---|---|---|---|
| analyzer/composition.py:80-95 | the edge masses are numpy sums of a uint8 edge map, so they are uint64, and `left_edges - right_edges` wraps around when the right side is heavier; the balance term becomes hugely negative and the clamp pins the score to 0 | a 20×21 edge map with every pixel an edge (left mass 51,000, right mass 56,100): it scores 0, where 100 is intended | `abs(a - b)` on the true integers, a symmetric balance in [0, 1] | not executed | Composition.CalculateCompositionScore, Composition.WrapCounterexample, Composition.WrapWitness | Composition.CompositionScore, Composition.BalanceSymmetric, Composition.FullMapIntended |

`App.Analyse` is generic over the metrics. `AestheticScorer.StandardMetrics` supplies them as the program computes them, with the wrapping composition score, so `App.AnalysisPicksBestSample` is about the ranking the program actually uses. `AestheticScorer.IntendedMetrics` supplies the corrected composition score instead, and `AestheticScorer.MetricsAgreeWithoutWrap` relates the two.

## Left out

- Image processing and decoding: greyscale conversion, the Laplacian, Canny, the Haar cascade's `detectMultiScale` and `cv2.VideoCapture` are foreign calls. Their outputs are inputs to the model: a Laplacian response, face boxes, grey levels, an edge map, the decoded frames.
- Sharpness.CalculateSharpness: the colour or grey dispatch at analyzer/sharpness.py:24-27 is part of the foreign greyscale step.
- The interest map's cell sums and their normalisation (analyzer/composition.py:50-58) are not modelled: the score never reads them. Only the map's shape, which decides the `ValueError`, is modelled.
- AestheticScorer.StandardMetrics: the pipeline takes edge maps of at least 20×20 pixels and at most 2^32 pixels in all (the `EdgeMap` type). The upper cap is the one described for `Composition.CompositionScoreAsWritten`. On a smaller video every frame makes `calculate_composition_score` raise `ValueError`, and the handler at app.py:158 ends the analysis with an error message. `Composition.CalculateCompositionScore` models that error for one frame, but it is not carried through `App.Analyse`.
- App.AnalysisPicksBestSample: it covers videos of at least 20×20 and at most 2^32 pixels only, for the reasons given for `AestheticScorer.StandardMetrics`.
- MetadataGenerator.FramePositionOfSample: it holds in exact reals only. In binary64, (1/49)·49 is 0.9999999999999999, which `int()` truncates to 0, so sample 1 of a 49 fps video is reported at position 0.
- `visualize_rule_of_thirds`, `get_face_regions`, `get_video_info` and the cascade's lazy singleton are display or I/O helpers with no scoring logic. The video information enters the report as a `VideoInfo` value.
- The frame saver, the Streamlit widgets, the temporary upload file and the session state are UI and I/O.
- Brightness.GetBrightnessStats: it reports the variance in place of `std`, because the square root is not modelled. `Brightness.ContrastMatchesSigma` shows the contrast bands agree for any σ ≥ 0 with σ² = variance.
- Float rendering with `:.2f` and `:.1f` is a parameter `render` returning a single line. The clock readings are parameters too: the file-name stamp and the analysis date.
- Floating point is modelled as exact reals. IEEE rounding, NaN and infinities are not modelled.
- Composition.CompositionScoreAsWritten: it is modelled only for edge maps of at most 2^32 pixels (`WithinPixelCap`). This keeps every edge mass at most 255·2^32, which `Composition.WrappedBalanceCollapses` needs for a wrapped difference to sink the balance. Maps between 2^32 and about 2^56 pixels also have masses that fit in uint64 and wrap the same way, but they are not modelled. The same cap is a precondition of `Composition.AsWrittenTerms`, `Composition.TotalFits`, `Composition.AsWrittenAgreesWithoutWrap`, `Composition.AsWrittenZeroWhenWrapped`, `Composition.AsWrittenCases`, `Composition.EmptyMapScoresZero` and `Composition.WrapCounterexample`, and part of the `AestheticScorer.EdgeMap` type.
- Composition.CalculateCompositionScore: it is modelled only for edge maps of at most 2^32 pixels, for the reason given for `Composition.CompositionScoreAsWritten`.
- AestheticScorer.ScoreFrame: weights are a record of four reals. A user dictionary with a missing key raises `KeyError` in the source; this is not modelled.
- App.AnalysisPicksBestSample: if every score stays at or below −1, the source later reads a `None` score dictionary. This is not modelled, because with sliders in range every overall score is at least 0.
- MetadataGenerator.JsonDocument: `json.dump` serialisation and the difference between integer and float defaults (`0` vs `0.0`) are not modelled. The document is a record.
- The release of the decoder handle on every exit path is resource management with no effect on the result.
