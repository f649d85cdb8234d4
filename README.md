# shorts-maker: highlight selection and 9:16 reframing, in Dafny

shorts-maker turns a long video into up to three short vertical clips with
captions. It downloads the video, transcribes it, and asks a sentiment
classifier about every transcript segment. It keeps the segments the
classifier calls confidently positive. It crops the first three of them to a
9:16 window, adds a caption and writes each one out. This project models the
decisions in that pipeline, which all sit in `app.py`:

- `highlight_filter.dfy`, module `HighlightFilter`: `detect_highlights`. It is
  an in-order loop that appends each segment whose classifier answer has
  label `"POSITIVE"` and score strictly above `0.9`. `Highlights` specifies
  it as a function. `PassingIndices` is an independent description of the
  positions it keeps.
- `crop_geometry.dfy`, module `CropGeometry`: the integer arithmetic of
  `crop_to_9x16`, as a pure function `CropWindowOf(W, h)`. It gives the window
  `[x1, x2)` with `w = h*9/16`, `x_center = W/2`, `x1 = max(0, x_center - w/2)`
  and `x2 = min(W, x_center + w/2)`.
- `clip_pipeline.dfy`, module `ClipPipeline`: the part of `generate_clips`
  that runs after the transcript exists. It calls `detect_highlights`, takes
  `highlights[:3]`, and renders one clip per selected highlight in order. It
  collects the final paths. `GenerateClips` also returns the renders it
  performed, as a `seq<RenderCall>`, so that "which segments were rendered"
  can be stated.

Foreign collaborators become parameters:

- the classifier is any total function `string -> Sentiment`, and its score is a `real`;
- the source frame size is a pair of naturals;
- the uuid drawn in the i-th pass of the loop is `clipId(i)`.

The model follows the code as written:

- No empty-text shortcut. Every segment's text goes to the classifier.
- No early exit. All segments are classified, and only then is the list cut to three.
- The crop window is `2*(w/2)` wide when unclamped, not `w`. So it is one column short when `w` is odd, as for a 1080-line source (`w = 607`, window 606).
- No per-segment error isolation. Any failure aborts the whole run. In the model, renders always succeed.

The model also shows that the right edge of the crop never clamps unless
the left edge does. So the window is either the centred `[x_center - w/2,
x_center + w/2)` or, when the target's half-width exceeds the centre column
(`w/2 > x_center`), the whole frame `[0, W)`. A frame slightly narrower than
9:16 can still get the centred window: 1081x1923 gives `[0, 1080)`.

## Model

| member | source | states |
|---|---|---|
| HighlightFilter.Highlights | app.py:45-51 | the highlights are never more than the segments |
| HighlightFilter.PassingIndices | app.py:46-50 | every listed position is a position of the transcript |
| HighlightFilter.DetectHighlights | app.py:45-51 | the loop returns exactly `Highlights(segments, classify)`; a segment is in the result iff it is in the transcript and its classifier answer passes |
| HighlightFilter.HighlightMembership | app.py:47-50 | a segment is a highlight iff it occurs in the transcript and its label is "POSITIVE" with score > 0.9 |
| HighlightFilter.ThresholdIsStrict | app.py:49 | a segment whose score is at most 0.9 (so exactly 0.9 too) is never a highlight |
| HighlightFilter.OtherLabelsRejected | app.py:49 | a segment whose label is not "POSITIVE" is never a highlight, whatever its score |
| HighlightFilter.HighlightsAppend | app.py:46-51 | filtering a concatenation is concatenating the filtered parts: kept segments keep their transcript order |
| HighlightFilter.HighlightsAreStableFilter | app.py:46-51 | the k-th highlight is the segment at the k-th passing position; positions strictly ascend; a position is listed iff its segment passes |
| HighlightFilter.NoHighlightsIffNonePass | app.py:46-51 | the result is empty iff no segment passes |
| CropGeometry.CropWindowOf | app.py:55-59 | `0 <= x1 <= x2 <= W`, and the width `x2 - x1` is at most `2*(w/2)`, which is at most `w` |
| CropGeometry.FullWidthIffUnclamped | app.py:56-59 | the width equals `2*(w/2)` iff `w/2 <= x_center` and `x_center + w/2 <= W` |
| CropGeometry.UnclampedIsCentred | app.py:57-59 | unclamped, `x_center - x1 == x2 - x_center == w/2`, and the window is short of `w` by `w % 2` |
| CropGeometry.RightClampNeedsLeftClamp | app.py:57-59 | the right clamp fires only if the left one does; when the left one fires, the window is the whole frame `[0, W)` |
| CropGeometry.IndependentClampIsAsymmetric | app.py:58-59 | for an odd frame width with `w/2 > x_center`, each edge clamps on its own: the window reaches one column further right of `x_center` than left |
| CropGeometry.LandscapeFullHd | app.py:55-59 | a 1920x1080 frame gives `w = 607` and the window `[657, 1263)` |
| CropGeometry.NarrowFrameCentred | app.py:55-59 | a 1081x1923 frame is narrower than 9:16 yet gets the centred window `[0, 1080)`, not the whole frame |
| CropGeometry.PortraitFullHd | app.py:55-59 | a 1080x1920 frame gives the whole frame `[0, 1080)` |
| ClipPipeline.FirstClips | app.py:85 | `highlights[:3]` is the prefix of length `min(3, n)` |
| ClipPipeline.GenerateClips | app.py:80-97 | `min(3, n)` renders and output paths; the k-th render crops the k-th highlight with the frame's one crop window into `<id>_cropped.mp4`, captions it into `<id>_final.mp4`, and the k-th output is that final path; no highlights gives no outputs; distinct ids give distinct outputs; no output is ever an intermediate path |
| ClipPipeline.FinalPathInjective | app.py:89-91 | two final paths are equal only if their ids are |
| ClipPipeline.CroppedNeverFinal | app.py:89-91 | a cropped path is never a final path |
| ClipPipeline.SelectedAreFirstPassing | app.py:80-85 | the selection is the first `min(3, n)` passing segments by position, so a fourth passing segment is never rendered |
| ClipPipeline.NoClipsIffNonePass | app.py:80-97 | nothing is selected iff no segment passes |
| ClipPipeline.FourPassingThreeRendered | app.py:80-85 | five segments with four passing give highlights 1, 3, 4, 5 and clips 1, 3, 4 |

## Left out

- The Streamlit page, the URL check, the spinner and the download buttons (app.py:10-21, 99-114) are presentation and I/O.
- `download_video` (app.py:31-39) is network I/O through yt_dlp. The input file it writes, named by the `uuid4` at app.py:72-73, is not represented. The transcript and the frame size enter as parameters.
- `load_model`, `load_classifier` and `transcribe_video` (app.py:23-29, 41-43) load or call ML models. The classifier enters only as a function parameter, and classifier errors are not modelled.
- The MoviePy work in `crop_to_9x16` and `add_subtitles` (app.py:54, 60-69) is opaque encoding. Subclip, crop, resize to 1080 lines, caption compositing over `clip.duration` and file writing are recorded only as a `RenderCall`.
- Randomness and the filesystem: the `uuid4` drawn per clip (app.py:89) becomes the `clipId` parameter, and `os.makedirs` (app.py:82) is left out. The ids are not assumed to be distinct. Output uniqueness is stated on the condition that they are.
- Floating point: scores are `real`, and `int(h * 9 / 16)` is integer division on naturals. The two agree except for rounding at very large heights.
- Exceptions: any failure of a foreign call aborts `generate_clips`. The model has no failing calls, so it has no error path.
