/** The statistics record of the edge-detection viewer and the pure steps that
    produce and update it: random samples, JavaScript's Math.round, the halving
    running average and the per-frame update of loadMockFrame. */
module ViewerStats {
  import opened DecimalText

  datatype Option<T> = None | Some(value: T)

  /** Width and height every mock frame announces. */
  const FrameWidth: nat := 1920
  const FrameHeight: nat := 1080

  /** One value of Math.random(): a real number in [0, 1). */
  type Draw = u: real | 0.0 <= u < 1.0

  /** `Math.floor(Math.random() * 8) + 15`. */
  function GenerateRandomFps(u: Draw): (fps: nat)
    ensures 15 <= fps <= 22
  {
    (u * 8.0).Floor + 15
  }

  /** `Math.floor(Math.random() * 20) + 40`: the largest sample is 59, not 60. */
  function GenerateRandomProcessingTime(u: Draw): (ms: nat)
    ensures 40 <= ms <= 59
  {
    (u * 20.0).Floor + 40
  }

  /** Every frame rate in [15, 22] is produced by some draw. */
  lemma FpsCoversRange(fps: int)
    requires 15 <= fps <= 22
    ensures GenerateRandomFps((fps - 15) as real / 8.0) == fps
  {
    var u: Draw := (fps - 15) as real / 8.0;
    assert u * 8.0 == (fps - 15) as real;
  }

  /** Every processing time in [40, 59] is produced by some draw; 60 never is. */
  lemma ProcessingTimeCoversRange(ms: int)
    requires 40 <= ms <= 60
    ensures ms < 60 <==> exists u: Draw :: GenerateRandomProcessingTime(u) == ms
  {
    if ms < 60 {
      var u: Draw := (ms - 40) as real / 20.0;
      assert u * 20.0 == (ms - 40) as real;
      assert GenerateRandomProcessingTime(u) == ms;
    }
  }

  /** Math.round: the integer nearest to x, a tie going to the larger one. */
  function JsRound(x: real): (r: int)
    ensures r as real - 0.5 <= x < r as real + 0.5
  {
    (x + 0.5).Floor
  }

  /** `Math.round((previous + sample) / 2)`: the halving running average. */
  function RunningAverage(previous: int, sample: int): (r: int)
    ensures Min(previous, sample) <= r <= Max(previous, sample)
  {
    JsRound((previous + sample) as real / 2.0)
  }

  function Min(a: int, b: int): int { if a <= b then a else b }
  function Max(a: int, b: int): int { if a <= b then b else a }

  /** On integers the running average needs no reals: halve the sum, rounding up. */
  lemma RunningAverageClosedForm(previous: int, sample: int)
    ensures RunningAverage(previous, sample) == (previous + sample + 1) / 2
  {
    var n := previous + sample;
    var r := RunningAverage(previous, sample);
    assert r as real - 0.5 <= n as real / 2.0 < r as real + 0.5;
    assert 2 * r - 1 <= n < 2 * r + 1;
  }

  /** A frame as loadMockFrame builds it. The image payload is not modelled: only
      whether it decodes (see FrameViewer) matters to the viewer. */
  datatype FrameData = FrameData(
    width: nat,
    height: nat,
    fps: nat,
    timestamp: int,
    processingTime: Option<nat>)

  /** JavaScript truthiness of the optional processing time: present and non-zero. */
  function Truthy(ms: Option<nat>): (b: bool)
    ensures b ==> ms.Some? && 1 <= ms.value
    ensures ms.Some? && 1 <= ms.value ==> b
  {
    ms.Some? && ms.value != 0
  }

  /** The inputs of one tick: the two Math.random() draws, Date.now(), and whether the
      browser manages to decode the frame's image. */
  datatype TickInput = TickInput(fpsDraw: Draw, timeDraw: Draw, now: int, decoded: bool)

  function MockFrame(t: TickInput): (f: FrameData)
    ensures f.width == 1920 && f.height == 1080
    ensures 15 <= f.fps <= 22 && Truthy(f.processingTime) && 40 <= f.processingTime.value <= 59
  {
    FrameData(FrameWidth, FrameHeight, GenerateRandomFps(t.fpsDraw), t.now,
              Some(GenerateRandomProcessingTime(t.timeDraw)))
  }

  datatype FrameStats = FrameStats(
    totalFrames: nat,
    avgFps: int,
    avgProcessingTime: int,
    resolution: string)

  const InitialStats := FrameStats(0, 0, 0, "0x0")

  /** The stats update of one loadMockFrame call, for any frame. */
  function RecordFrame(s: FrameStats, f: FrameData): (r: FrameStats)
    ensures r.totalFrames == s.totalFrames + 1
    ensures Min(s.avgFps, f.fps) <= r.avgFps <= Max(s.avgFps, f.fps)
    ensures r.resolution == ResolutionText(f.width, f.height)
    ensures !Truthy(f.processingTime) ==> r.avgProcessingTime == s.avgProcessingTime
    ensures Truthy(f.processingTime) ==>
      Min(s.avgProcessingTime, f.processingTime.value) <= r.avgProcessingTime
      <= Max(s.avgProcessingTime, f.processingTime.value)
  {
    var r := s.(totalFrames := s.totalFrames + 1,
                avgFps := RunningAverage(s.avgFps, f.fps),
                resolution := ResolutionText(f.width, f.height));
    if Truthy(f.processingTime) then
      r.(avgProcessingTime := RunningAverage(s.avgProcessingTime, f.processingTime.value))
    else r
  }

  /** A mock frame always carries a truthy processing time, so loadMockFrame always takes
      the branch that folds it in; the frame rate is folded in unconditionally. */
  lemma MockFrameFoldsBothSamples(s: FrameStats, t: TickInput)
    ensures RecordFrame(s, MockFrame(t)).avgFps == RunningAverage(s.avgFps, GenerateRandomFps(t.fpsDraw))
    ensures RecordFrame(s, MockFrame(t)).avgProcessingTime
            == RunningAverage(s.avgProcessingTime, GenerateRandomProcessingTime(t.timeDraw))
  {
  }

  /** The stats after a run of ticks, starting from the record the viewer is built with. */
  function StatsAfter(ticks: seq<TickInput>): (s: FrameStats)
    ensures s.totalFrames == |ticks|
    ensures ticks == [] ==> s == InitialStats
  {
    if ticks == [] then InitialStats
    else RecordFrame(StatsAfter(ticks[..|ticks| - 1]), MockFrame(ticks[|ticks| - 1]))
  }

  /** One more tick folds one more mock frame into the stats. */
  lemma StatsAfterSnoc(ticks: seq<TickInput>, t: TickInput)
    ensures StatsAfter(ticks + [t]) == RecordFrame(StatsAfter(ticks), MockFrame(t))
  {
    assert (ticks + [t])[..|ticks|] == ticks;
  }

  /** What holds of the stats after any run of ticks: the counter counts the ticks,
      both averages stay within their samples' ranges (from the first tick on they are
      at least half the smallest sample, rounded up), and the resolution is the fixed one. */
  lemma {:induction false} StatsAfterInvariant(ticks: seq<TickInput>)
    ensures StatsAfter(ticks).totalFrames == |ticks|
    ensures 0 <= StatsAfter(ticks).avgFps <= 22
    ensures 0 <= StatsAfter(ticks).avgProcessingTime <= 59
    ensures ticks == [] ==> StatsAfter(ticks) == InitialStats
    ensures ticks != [] ==> 8 <= StatsAfter(ticks).avgFps && 20 <= StatsAfter(ticks).avgProcessingTime
    ensures ticks != [] ==> StatsAfter(ticks).resolution == "1920x1080"
  {
    if ticks != [] {
      var prefix := ticks[..|ticks| - 1];
      var f := MockFrame(ticks[|ticks| - 1]);
      StatsAfterInvariant(prefix);
      FullHdResolutionText();
      var s := StatsAfter(prefix);
      if prefix == [] {
        RunningAverageClosedForm(0, f.fps);
        RunningAverageClosedForm(0, f.processingTime.value);
      }
    }
  }

  /** The text of the status field for a frame count (updateStats). */
  function StatusText(totalFrames: int): (text: string)
    ensures text == "Active" <==> totalFrames > 0
    ensures text == "Inactive" <==> totalFrames <= 0
  {
    if totalFrames > 0 then "Active" else "Inactive"
  }

  /** The status reads "Active" exactly when at least one tick has happened. */
  lemma StatusActiveAfterTicks(ticks: seq<TickInput>)
    ensures StatusText(StatsAfter(ticks).totalFrames) == "Active" <==> ticks != []
    ensures StatusText(StatsAfter(ticks).totalFrames) == "Inactive" <==> ticks == []
  {
    StatsAfterInvariant(ticks);
  }

  /** After the one tick of construction the frame-count text is "1". */
  lemma FirstTickTexts(t: TickInput)
    ensures StatusText(StatsAfter([t]).totalFrames) == "Active"
    ensures NatToString(StatsAfter([t]).totalFrames) == "1"
  {
    StatsAfterInvariant([t]);
  }
}
