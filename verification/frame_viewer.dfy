/** The EdgeDetectionViewer object: its stats record, the texts it writes into the
    page, the size of its canvas, and the ticks that drive them. */
module FrameViewer {
  import opened DecimalText
  import opened ViewerStats

  /** How construction ends: the timer armed, the viewer left inert after logging,
      or an exception thrown out of the constructor. */
  datatype StartupOutcome = Running | Inert | Threw

  /** Construction as the constructor is written: `getContext` is called on the
      canvas before the null check, so a page without the canvas throws. */
  function StartupAsWritten(canvasFound: bool, contextFound: bool): (o: StartupOutcome)
    ensures o == Threw <==> !canvasFound
    ensures o == Running <==> canvasFound && contextFound
  {
    if !canvasFound then Threw
    else if !contextFound then Inert
    else Running
  }

  /** Construction as the null check intends it: a missing canvas or context is
      logged and leaves the viewer inert. */
  function Startup(canvasFound: bool, contextFound: bool): (o: StartupOutcome)
    ensures o != Threw
    ensures o == Running <==> canvasFound && contextFound
  {
    if canvasFound && contextFound then Running else Inert
  }

  /** The as-written constructor throws on a page without the canvas, whatever the
      context lookup would have given. */
  lemma StartupAsWrittenThrows(contextFound: bool)
    ensures StartupAsWritten(false, contextFound) == Threw
    ensures Startup(false, contextFound) == Inert
  {
  }

  /** The corrected startup never throws, runs exactly when both the canvas and its
      context exist, and agrees with the written code whenever the canvas exists. */
  lemma StartupCorrected(canvasFound: bool, contextFound: bool)
    ensures Startup(canvasFound, contextFound) != Threw
    ensures Startup(canvasFound, contextFound) == Running <==> canvasFound && contextFound
    ensures canvasFound ==> Startup(canvasFound, contextFound) == StartupAsWritten(canvasFound, contextFound)
  {
  }

  /** What the page shows: the canvas size and the text of each output field. A text is
      None while the viewer has not written that field (or the page lacks it). */
  datatype Page = Page(
    canvasWidth: nat,
    canvasHeight: nat,
    fpsText: Option<string>,
    resolutionText: Option<string>,
    processingTimeText: Option<string>,
    statusText: Option<string>,
    frameCountText: Option<string>)

  /** The page before the viewer has written anything to it. */
  function BlankPage(canvasWidth: nat, canvasHeight: nat): Page
  {
    Page(canvasWidth, canvasHeight, None, None, None, None, None)
  }

  /** The `${processingTime}ms` text. */
  function MillisText(ms: nat): (text: string)
    ensures |text| == |NatToString(ms)| + 2
    ensures text[|text| - 2..] == "ms"
  {
    NatToString(ms) + "ms"
  }

  /** The processing-time text reads back as the processing time: digits, then "ms". */
  lemma MillisTextReadsBack(ms: nat)
    ensures var text := MillisText(ms);
      (forall i :: 0 <= i < |text| - 2 ==> IsDigit(text[i])) &&
      ParseDecimal(text[..|text| - 2]) == ms
  {
    var text := MillisText(ms);
    assert text[..|text| - 2] == NatToString(ms);
    ParseNatToString(ms);
  }

  /** The onload handler of displayFrame: the canvas takes half the frame's size and the
      fps, resolution and (when the field exists and the time is truthy) processing-time
      fields take the frame's values. */
  function ShowFrame(p: Page, f: FrameData, hasProcessingTimeElement: bool): (q: Page)
    ensures q.statusText == p.statusText && q.frameCountText == p.frameCountText
    ensures q.fpsText.Some? && q.resolutionText.Some?
    ensures !(hasProcessingTimeElement && Truthy(f.processingTime)) ==>
      q.processingTimeText == p.processingTimeText
  {
    p.(canvasWidth := f.width / 2,
       canvasHeight := f.height / 2,
       fpsText := Some(NatToString(f.fps)),
       resolutionText := Some(ResolutionText(f.width, f.height)),
       processingTimeText :=
         if hasProcessingTimeElement && Truthy(f.processingTime)
         then Some(MillisText(f.processingTime.value)) else p.processingTimeText)
  }

  /** updateStats(): the frame count, when the field exists, and the status. */
  function ShowStats(p: Page, s: FrameStats, hasFrameCountElement: bool): (q: Page)
    ensures q.canvasWidth == p.canvasWidth && q.canvasHeight == p.canvasHeight
    ensures q.fpsText == p.fpsText && q.resolutionText == p.resolutionText
    ensures q.processingTimeText == p.processingTimeText
    ensures q.statusText == Some("Active") <==> s.totalFrames > 0
    ensures !hasFrameCountElement ==> q.frameCountText == p.frameCountText
  {
    p.(statusText := Some(StatusText(s.totalFrames)),
       frameCountText :=
         if hasFrameCountElement then Some(NatToString(s.totalFrames)) else p.frameCountText)
  }

  /** The page after a run of ticks: each tick displays its frame when the image decodes,
      then shows the stats as they are after that tick. */
  function PageAfter(p0: Page, ticks: seq<TickInput>, hasProcessingTimeElement: bool,
                     hasFrameCountElement: bool): (q: Page)
    ensures ticks == [] ==> q == p0
    ensures ticks != [] ==> q.statusText == Some("Active")
  {
    if ticks == [] then p0
    else
      var before := PageAfter(p0, ticks[..|ticks| - 1], hasProcessingTimeElement, hasFrameCountElement);
      var t := ticks[|ticks| - 1];
      var displayed := if t.decoded then ShowFrame(before, MockFrame(t), hasProcessingTimeElement) else before;
      ShowStats(displayed, StatsAfter(ticks), hasFrameCountElement)
  }

  lemma PageAfterSnoc(p0: Page, ticks: seq<TickInput>, t: TickInput, hasPT: bool, hasFC: bool)
    ensures PageAfter(p0, ticks + [t], hasPT, hasFC) ==
      ShowStats(if t.decoded then ShowFrame(PageAfter(p0, ticks, hasPT, hasFC), MockFrame(t), hasPT)
                else PageAfter(p0, ticks, hasPT, hasFC),
                StatsAfter(ticks + [t]), hasFC)
  {
    assert (ticks + [t])[..|ticks|] == ticks;
  }

  /** Showing the same stats twice shows them once: initialize() calls updateStats()
      right after loadMockFrame() has. */
  lemma ShowStatsIdempotent(p: Page, s: FrameStats, hasFC: bool)
    ensures ShowStats(ShowStats(p, s, hasFC), s, hasFC) == ShowStats(p, s, hasFC)
  {
  }

  /** After at least one tick the status reads "Active" and the frame count (when the page
      has the field) reads the number of ticks; before any tick the page is untouched. */
  lemma {:induction false} PageAfterShowsStats(p0: Page, ticks: seq<TickInput>, hasPT: bool, hasFC: bool)
    ensures ticks == [] ==> PageAfter(p0, ticks, hasPT, hasFC) == p0
    ensures ticks != [] ==> PageAfter(p0, ticks, hasPT, hasFC).statusText == Some("Active")
    ensures ticks != [] && hasFC ==>
      PageAfter(p0, ticks, hasPT, hasFC).frameCountText == Some(NatToString(|ticks|))
    ensures !hasFC ==> PageAfter(p0, ticks, hasPT, hasFC).frameCountText == p0.frameCountText
  {
    if ticks != [] {
      PageAfterShowsStats(p0, ticks[..|ticks| - 1], hasPT, hasFC);
      StatsAfterInvariant(ticks);
    }
  }

  /** The last tick whose image decoded: its onload handler is the last to have written
      the canvas and the frame texts. */
  function LastDecoded(ticks: seq<TickInput>): (last: Option<TickInput>)
    ensures last.Some? ==> last.value in ticks && last.value.decoded
    ensures last.None? ==> forall i :: 0 <= i < |ticks| ==> !ticks[i].decoded
  {
    if ticks == [] then None
    else if ticks[|ticks| - 1].decoded then Some(ticks[|ticks| - 1])
    else LastDecoded(ticks[..|ticks| - 1])
  }

  /** The tick LastDecoded finds is the last one whose image decoded: no later tick of the
      run decoded, so its onload handler is the last writer of the display. */
  lemma {:induction false} LastDecodedIsLast(ticks: seq<TickInput>)
    ensures LastDecoded(ticks).Some? ==>
      exists i :: 0 <= i < |ticks| && ticks[i] == LastDecoded(ticks).value &&
        forall j :: i < j < |ticks| ==> !ticks[j].decoded
  {
    if ticks != [] && !ticks[|ticks| - 1].decoded {
      var prefix := ticks[..|ticks| - 1];
      LastDecodedIsLast(prefix);
      if LastDecoded(prefix).Some? {
        var i :| 0 <= i < |prefix| && prefix[i] == LastDecoded(prefix).value &&
          forall j :: i < j < |prefix| ==> !prefix[j].decoded;
        assert ticks[i] == LastDecoded(ticks).value;
      }
    }
  }

  /** The canvas and the frame texts are those of the last frame that decoded, at half of
      1920 by 1080; while none has, they are as the page gave them. A failed decode never
      changes them. */
  lemma {:induction false} PageAfterShowsLastDecoded(p0: Page, ticks: seq<TickInput>, hasPT: bool, hasFC: bool)
    ensures LastDecoded(ticks).None? ==>
      var p := PageAfter(p0, ticks, hasPT, hasFC);
      p.canvasWidth == p0.canvasWidth && p.canvasHeight == p0.canvasHeight &&
      p.fpsText == p0.fpsText && p.resolutionText == p0.resolutionText &&
      p.processingTimeText == p0.processingTimeText
    ensures LastDecoded(ticks).Some? ==>
      var p := PageAfter(p0, ticks, hasPT, hasFC);
      var f := MockFrame(LastDecoded(ticks).value);
      p.canvasWidth == 960 && p.canvasHeight == 540 &&
      p.fpsText == Some(NatToString(f.fps)) &&
      p.resolutionText == Some("1920x1080") &&
      (hasPT ==> p.processingTimeText == Some(MillisText(f.processingTime.value))) &&
      (!hasPT ==> p.processingTimeText == p0.processingTimeText)
  {
    if ticks != [] {
      PageAfterShowsLastDecoded(p0, ticks[..|ticks| - 1], hasPT, hasFC);
      FullHdResolutionText();
    }
  }

  /** A tick whose image fails to decode still counts: the stats take its samples and the
      status and frame count move on, while the canvas and the frame texts keep what the
      previous frame put there. */
  lemma DecodeFailureKeepsDisplay(p0: Page, ticks: seq<TickInput>, t: TickInput, hasPT: bool, hasFC: bool)
    requires !t.decoded
    ensures StatsAfter(ticks + [t]).totalFrames == |ticks| + 1
    ensures StatsAfter(ticks + [t]) == RecordFrame(StatsAfter(ticks), MockFrame(t))
    ensures var before, after := PageAfter(p0, ticks, hasPT, hasFC), PageAfter(p0, ticks + [t], hasPT, hasFC);
      after.canvasWidth == before.canvasWidth && after.canvasHeight == before.canvasHeight &&
      after.fpsText == before.fpsText && after.resolutionText == before.resolutionText &&
      after.processingTimeText == before.processingTimeText
    ensures hasFC ==> PageAfter(p0, ticks + [t], hasPT, hasFC).frameCountText == Some(NatToString(|ticks| + 1))
  {
    StatsAfterSnoc(ticks, t);
    PageAfterSnoc(p0, ticks, t, hasPT, hasFC);
    StatsAfterInvariant(ticks + [t]);
  }

  class EdgeDetectionViewer {
    /** The stats record, updated in place once per tick. */
    var stats: FrameStats
    /** The canvas and the output fields. */
    var page: Page
    /** Whether the 2000 ms interval timer has been armed. */
    var running: bool
    /** Which optional fields the page provides. */
    const hasProcessingTimeElement: bool
    const hasFrameCountElement: bool
    /** The page as it was before the viewer wrote to it. */
    const initialPage: Page
    /** Every tick since construction. */
    ghost var ticks: seq<TickInput>

    ghost predicate Valid()
      reads this
    {
      stats == StatsAfter(ticks) &&
      page == PageAfter(initialPage, ticks, hasProcessingTimeElement, hasFrameCountElement) &&
      (running <==> ticks != [])
    }

    /** The constructor: look up the canvas and the fields, then, when the canvas and its
        context exist, show a first frame and arm the timer. The constructor uses the
        corrected startup, see StartupAsWritten. */
    constructor (canvasFound: bool, contextFound: bool,
                 processingTimeElementFound: bool, frameCountElementFound: bool,
                 canvasWidth0: nat, canvasHeight0: nat, first: TickInput)
      ensures Valid()
      ensures running <==> Startup(canvasFound, contextFound) == Running
      ensures hasProcessingTimeElement == processingTimeElementFound
      ensures hasFrameCountElement == frameCountElementFound
      ensures initialPage == BlankPage(canvasWidth0, canvasHeight0)
      ensures ticks == if running then [first] else []
      ensures running ==>
        page.statusText == Some("Active") &&
        (hasFrameCountElement ==> page.frameCountText == Some("1"))
      ensures !running ==> stats == InitialStats && page == initialPage
    {
      stats := InitialStats;
      page := BlankPage(canvasWidth0, canvasHeight0);
      running := false;
      hasProcessingTimeElement := processingTimeElementFound;
      hasFrameCountElement := frameCountElementFound;
      initialPage := BlankPage(canvasWidth0, canvasHeight0);
      ticks := [];
      new;
      if Startup(canvasFound, contextFound) == Running {
        Initialize(first);
        PageAfterShowsStats(initialPage, ticks, hasProcessingTimeElement, hasFrameCountElement);
      }
    }

    /** initialize(): one frame straight away, the stats shown again, the timer armed. */
    method Initialize(first: TickInput)
      requires Valid() && !running
      modifies this`stats, this`page, this`ticks, this`running
      ensures Valid() && running && ticks == [first]
    {
      LoadMockFrame(first);
      UpdateStats();
      ShowStatsIdempotent(old(page), stats, hasFrameCountElement);
      running := true;
    }

    /** One firing of the interval timer; there is none on an inert viewer. */
    method TimerFires(t: TickInput)
      requires Valid()
      modifies this`stats, this`page, this`ticks
      ensures Valid()
      ensures old(running) ==> ticks == old(ticks) + [t] && stats == RecordFrame(old(stats), MockFrame(t))
      ensures !old(running) ==> unchanged(this)
      ensures stats.totalFrames == |ticks|
      ensures 0 <= stats.avgFps <= 22 && 0 <= stats.avgProcessingTime <= 59
    {
      if running {
        LoadMockFrame(t);
      }
      StatsAfterInvariant(ticks);
    }

    /** loadMockFrame(): build a frame, fold it into the stats in place, display it,
        show the stats. */
    method LoadMockFrame(t: TickInput)
      requires stats == StatsAfter(ticks)
      requires page == PageAfter(initialPage, ticks, hasProcessingTimeElement, hasFrameCountElement)
      modifies this`stats, this`page, this`ticks
      ensures ticks == old(ticks) + [t]
      ensures stats == StatsAfter(ticks)
      ensures page == PageAfter(initialPage, ticks, hasProcessingTimeElement, hasFrameCountElement)
      ensures stats == RecordFrame(old(stats), MockFrame(t))
    {
      var frame := MockFrame(t);
      stats := stats.(totalFrames := stats.totalFrames + 1);
      stats := stats.(avgFps := RunningAverage(stats.avgFps, frame.fps));
      stats := stats.(resolution := ResolutionText(frame.width, frame.height));
      if Truthy(frame.processingTime) {
        stats := stats.(avgProcessingTime :=
          RunningAverage(stats.avgProcessingTime, frame.processingTime.value));
      }
      StatsAfterSnoc(ticks, t);
      PageAfterSnoc(initialPage, ticks, t, hasProcessingTimeElement, hasFrameCountElement);
      ticks := ticks + [t];
      DisplayFrame(frame, t.decoded);
      UpdateStats();
    }

    /** displayFrame(): once the image decodes, the onload handler shows the frame; a
        failed decode only logs, leaving the page as it was. */
    method DisplayFrame(frame: FrameData, decoded: bool)
      modifies this`page
      ensures page == if decoded then ShowFrame(old(page), frame, hasProcessingTimeElement) else old(page)
    {
      if decoded {
        var p := page;
        p := p.(canvasWidth := frame.width / 2, canvasHeight := frame.height / 2);
        p := p.(fpsText := Some(NatToString(frame.fps)));
        p := p.(resolutionText := Some(ResolutionText(frame.width, frame.height)));
        if hasProcessingTimeElement && Truthy(frame.processingTime) {
          p := p.(processingTimeText := Some(MillisText(frame.processingTime.value)));
        }
        page := p;
      }
    }

    /** updateStats(): the frame count (when the page has the field) and the status. */
    method UpdateStats()
      modifies this`page
      ensures page == ShowStats(old(page), stats, hasFrameCountElement)
    {
      if hasFrameCountElement {
        page := page.(frameCountText := Some(NatToString(stats.totalFrames)));
      }
      page := page.(statusText := Some(StatusText(stats.totalFrames)));
    }
  }

  /** What a valid viewer shows: a frame count equal to its ticks, averages within the
      sample ranges, and a status that is "Active" exactly when the timer is armed. */
  lemma ViewerInvariant(v: EdgeDetectionViewer)
    requires v.Valid() && v.initialPage.statusText == None
    ensures v.stats.totalFrames == |v.ticks|
    ensures 0 <= v.stats.avgFps <= 22 && 0 <= v.stats.avgProcessingTime <= 59
    ensures v.running <==> v.page.statusText == Some("Active")
    ensures v.running && v.hasFrameCountElement ==> v.page.frameCountText == Some(NatToString(|v.ticks|))
  {
    StatsAfterInvariant(v.ticks);
    PageAfterShowsStats(v.initialPage, v.ticks, v.hasProcessingTimeElement, v.hasFrameCountElement);
  }
}
