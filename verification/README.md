# Edge-detection frame viewer: statistics model

A Dafny model of the `EdgeDetectionViewer` browser component of the EdgeDetectionApp
repository (`web/src/index.ts`). Every 2000 ms the viewer synthesises a mock 1920x1080
frame with a random frame rate and a random processing time. It folds both samples into a
small statistics record with a halving running average, `Math.round((old + sample) / 2)`.
It draws the frame on a canvas at half size and writes the frame rate, resolution,
processing time, frame count and an "Active"/"Inactive" status into the page.

The project has three modules:

- `DecimalText` (`decimal_text.dfy`) renders the numbers the viewer writes as text
  (`${n}`, `toString()`) below 10^21 and the `${width}x${height}` resolution. A parser is given as
  its inverse, so the round trip and injectivity can be proved.
- `ViewerStats` (`viewer_stats.dfy`) holds the stats record and the pure steps. These are
  the random sample generators (a `Math.random()` draw is a real in [0, 1)), `Math.round`,
  the running average, the per-frame update `RecordFrame`, and `StatsAfter`, the record
  after any run of ticks.
- `FrameViewer` (`frame_viewer.dfy`) holds the `EdgeDetectionViewer` class. Its `stats`
  record and its `page` (canvas size and field texts) are updated in place by
  `LoadMockFrame`, `DisplayFrame` and `UpdateStats`. A ghost `ticks` sequence records every
  tick, and `Valid()` ties the fields to `StatsAfter(ticks)` and `PageAfter(...)`. Viewer
  construction is modelled as it is written and as it is evidently meant (see Findings).

The comment at web/src/index.ts:95 says 40-60 ms, but
`Math.floor(Math.random() * 20) + 40` lies in [40, 59], and the model follows the code.

## Model

| member | source | states |
|---|---|---|
| `ViewerStats.GenerateRandomFps` | web/src/index.ts:90-92 | a frame-rate sample lies in [15, 22] for every draw in [0, 1) |
| `ViewerStats.FpsCoversRange` | web/src/index.ts:90-92 | every frame rate in [15, 22] is produced by some draw |
| `ViewerStats.GenerateRandomProcessingTime` | web/src/index.ts:94-96 | a processing-time sample lies in [40, 59] |
| `ViewerStats.ProcessingTimeCoversRange` | web/src/index.ts:94-96 | each of 40..59 is produced by some draw, and 60 never is |
| `ViewerStats.JsRound` | web/src/index.ts:77 | Math.round gives the integer nearest to x, and a tie goes up |
| `ViewerStats.RunningAverage` | web/src/index.ts:77 | the rounded halving average lies between the old value and the sample |
| `ViewerStats.RunningAverageClosedForm` | web/src/index.ts:81-83 | on integers the average equals (old + sample + 1) / 2 |
| `ViewerStats.Truthy` | web/src/index.ts:80 | a processing time is truthy exactly when it is present and at least 1; `MockFrameFoldsBothSamples` shows every mock frame's time is |
| `ViewerStats.MockFrame` | web/src/index.ts:67-74 | a mock frame is 1920x1080, its fps is in [15, 22], and its processing time is present, truthy and in [40, 59] |
| `ViewerStats.RecordFrame` | web/src/index.ts:76-84 | one update adds exactly one frame; avgFps lies between the old value and the sample; the resolution becomes the frame's; avgProcessingTime moves between the old value and the sample when the time is truthy and is unchanged otherwise |
| `ViewerStats.MockFrameFoldsBothSamples` | web/src/index.ts:80-84 | for a mock frame the truthiness guard always passes, so both averages take the new samples |
| `ViewerStats.StatsAfter` | web/src/index.ts:76-84 | after a run of ticks the frame count equals the number of ticks, and with no tick the record is the initial one of lines 31-36; `StatsAfterInvariant` adds the bounds |
| `ViewerStats.StatsAfterSnoc` | web/src/index.ts:76-84 | one more tick applies one more frame update to the stats |
| `ViewerStats.StatsAfterInvariant` | web/src/index.ts:31-36 | after N ticks from the initial record, totalFrames is N, avgFps is in [0, 22] (at least 8 once N > 0) and avgProcessingTime is in [0, 59] (at least 20 once N > 0); the resolution is "0x0" before the first tick and "1920x1080" after |
| `ViewerStats.StatusText` | web/src/index.ts:180 | the status is "Active" exactly when totalFrames > 0 and "Inactive" otherwise |
| `ViewerStats.StatusActiveAfterTicks` | web/src/index.ts:180 | the status text is "Active" exactly when a tick has happened, and "Inactive" exactly when none has |
| `ViewerStats.FirstTickTexts` | web/src/index.ts:175-180 | after the first tick the status is "Active" and the frame count reads "1" |
| `DecimalText.NatToString` | web/src/index.ts:177 | a numeral is non-empty and has a single digit exactly when n < 10; `ParseNatToString` proves it reads back to n |
| `DecimalText.NatToStringDigits` | web/src/index.ts:177 | a rendered count is a non-empty run of digits with no leading zero |
| `DecimalText.ParseNatToString` | web/src/index.ts:177 | reading a rendered count back gives the count |
| `DecimalText.NatToStringInjective` | web/src/index.ts:177 | distinct counts render as distinct texts |
| `DecimalText.ResolutionText` | web/src/index.ts:78 | the text is as long as both numerals plus one, with the 'x' right after the width's numeral; `ResolutionTextInjective` proves it determines both dimensions |
| `DecimalText.ResolutionTextShape` | web/src/index.ts:78 | a resolution text is digits, one 'x' right after the width's digits, then digits |
| `DecimalText.ResolutionTextInjective` | web/src/index.ts:78 | a resolution text determines its width and height |
| `DecimalText.FullHdResolutionText` | web/src/index.ts:67-69 | the fixed frame size renders as "1920x1080" |
| `FrameViewer.StartupAsWritten` | web/src/index.ts:39-50 | as written, construction throws exactly when the canvas is missing, and runs exactly when canvas and context both exist |
| `FrameViewer.Startup` | web/src/index.ts:47-52 | the guarded construction never throws, and runs exactly when canvas and context both exist |
| `FrameViewer.StartupAsWrittenThrows` | web/src/index.ts:39-50 | as written, a page without the canvas makes the constructor throw, not log |
| `FrameViewer.StartupCorrected` | web/src/index.ts:47-52 | the guarded startup never throws; it runs exactly when canvas and context exist, and agrees with the written code whenever the canvas exists |
| `FrameViewer.MillisText` | web/src/index.ts:162 | the processing-time text is a numeral followed by "ms"; `MillisTextReadsBack` proves the numeral reads back as the processing time |
| `FrameViewer.MillisTextReadsBack` | web/src/index.ts:162 | the processing-time text is digits followed by "ms", and the digits read back as the processing time |
| `FrameViewer.ShowFrame` | web/src/index.ts:149-163 | the onload writes leave status and frame count alone, always set the fps and resolution texts, and keep the processing-time text unless the field exists and the time is truthy; `PageAfterShowsLastDecoded` gives the values |
| `FrameViewer.ShowStats` | web/src/index.ts:175-180 | updateStats touches only the status and frame-count texts; the status reads "Active" exactly when totalFrames > 0, and the count is left alone when the field is missing |
| `FrameViewer.PageAfter` | web/src/index.ts:86-87 | with no tick the page is untouched, and after any tick the status reads "Active"; `PageAfterSnoc` gives one tick's effect |
| `FrameViewer.PageAfterSnoc` | web/src/index.ts:86-87 | each tick displays its frame when the image decodes, then shows the new stats |
| `FrameViewer.ShowStatsIdempotent` | web/src/index.ts:57-58 | the second updateStats call in initialize changes nothing |
| `FrameViewer.PageAfterShowsStats` | web/src/index.ts:175-180 | after any tick the status reads "Active" and the frame count (when the field exists) reads the number of ticks; before any tick the page is untouched |
| `FrameViewer.LastDecoded` | web/src/index.ts:149-170 | the tick found is one of the run's and its image decoded; none is found only when no image of the run decoded; `LastDecodedIsLast` proves it is the last one |
| `FrameViewer.LastDecodedIsLast` | web/src/index.ts:149-170 | the tick found is the last one whose image decoded: no later tick of the run decoded, so its onload handler wrote the display last |
| `FrameViewer.PageAfterShowsLastDecoded` | web/src/index.ts:149-163 | the canvas is 960x540 and the fps, resolution and processing-time texts are those of the last frame that decoded; while no frame has decoded they are as the page gave them |
| `FrameViewer.DecodeFailureKeepsDisplay` | web/src/index.ts:168-170 | a failed decode still counts the frame and updates the stats and frame count, but leaves the canvas and frame texts as they were |
| `FrameViewer.EdgeDetectionViewer.constructor` | web/src/index.ts:38-53 | with canvas and context present, one frame is loaded and the timer armed: status "Active", frame count "1"; otherwise the viewer stays inert with initial stats and an untouched page (corrected startup, see Findings) |
| `FrameViewer.EdgeDetectionViewer.Initialize` | web/src/index.ts:55-64 | one tick happens, the stats are shown and the timer is armed |
| `FrameViewer.EdgeDetectionViewer.TimerFires` | web/src/index.ts:61-63 | on a running viewer a firing is one loadMockFrame; on an inert one nothing changes; totalFrames always equals the ticks so far and both averages stay in range |
| `FrameViewer.EdgeDetectionViewer.LoadMockFrame` | web/src/index.ts:66-88 | the stats become RecordFrame of the old stats and the mock frame, and the page becomes the page after one more tick |
| `FrameViewer.EdgeDetectionViewer.DisplayFrame` | web/src/index.ts:146-173 | a decoded frame resizes the canvas to half and writes the frame texts; a failed decode leaves the page unchanged |
| `FrameViewer.EdgeDetectionViewer.UpdateStats` | web/src/index.ts:175-182 | the status text follows totalFrames, and the frame count is written only when that field exists |
| `FrameViewer.ViewerInvariant` | web/src/index.ts:175-180 | on a valid viewer totalFrames equals the ticks so far, the averages are in range, the status is "Active" exactly when the timer runs, and the frame count shows the number of ticks |

## Left out

- `generateMockEdgeImage` (web/src/index.ts:98-144) and the frame's `imageData` are not modelled. They draw random float geometry on a canvas and encode it as a PNG data URL. Only whether that image decodes matters to the viewer, so each tick takes it as a boolean.
- The DOM lookups of the constructor, `drawImage` and `console` logging are not modelled. The required `fps`, `resolution` and `status` elements are assumed present. Nothing checks them for null, so a missing `status` element would throw a TypeError inside the constructor (through `updateStats`), and a missing `fps` or `resolution` element would throw inside the `onload` handler.
- `setInterval` and the asynchronous `onload`/`onerror` callbacks are not modelled as scheduling. A tick is one synchronous call, and its decode completes within that tick. Decodes that overlap across ticks, and their completion order, are not modelled.
- `NatToString` follows JavaScript's numeral only below 10^21, where `toString()` switches to exponent notation ("1e+21"). A frame count or sample never comes near that bound.
- `Date.now()` becomes the `now` input of a tick. It reaches the frame's `timestamp`, which nothing reads.
- Floating point is not modelled. `Math.random()` draws are exact reals in [0, 1), so the floating-point rounding of `draw * 8` and `draw * 20` is not captured. The JavaScript numbers in the stats are unbounded integers, which is exact for the small values involved.
- The canvas size assignment takes `width / 2` and `height / 2` as floor division on naturals. The canvas stores its `width` and `height` as unsigned integers and truncates a fractional value, so floor division matches it for every frame size below 2^32, in particular the fixed 1920x1080. Larger sizes, which the canvas reduces modulo 2^32 or resets to its default, are not modelled.
- The bootstrap on `DOMContentLoaded` (web/src/index.ts:185-195) is not modelled. It is host-page wiring that builds one viewer.
- `opencv/src/org/opencv/engine/OpenCVEngineInterface.java` is not part of this model. It is a stub whose methods return constants.
- `web/dist/index.d.ts` is not part of this model. It holds generated type declarations only.

## Findings

| source | as written | input that shows it | evidently intended | confidence | as-written member | corrected member |
|---|---|---|---|---|---|---|
| web/src/index.ts:39-50 | `getContext('2d')` is called on the canvas at line 40, before the null check at line 47 | a page with no `frameCanvas` element: `null.getContext` throws a TypeError out of the constructor | the check at line 47 logs "Canvas not found" and leaves the viewer inert | high, not executed | `FrameViewer.StartupAsWrittenThrows` | `FrameViewer.StartupCorrected` |

The two constructions are `FrameViewer.StartupAsWritten` (as written) and `FrameViewer.Startup` (corrected); the lemmas in the table exhibit the discrepancy and the corrected property. The constructor of `EdgeDetectionViewer` uses `FrameViewer.Startup`.
