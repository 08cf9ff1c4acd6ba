/**
 * The keyframe stop lists of the overlay's five animated tracks.
 *
 * Each track is a list of stops, an offset in percent of the shared cycle
 * paired with the pose the element takes there; the browser interpolates
 * between consecutive stops. Poses are named here rather than spelled out
 * as CSS declarations: the pixel distances they carry are configuration
 * values passed through unchanged.
 */
module Keyframes {
  import opened Timing

  datatype Stop<P> = Stop(pct: real, pose: P)

  /**
   * Percentage points by which a "just before" stop precedes a transition:
   * it repeats the previous pose so that the pose holds until then, where
   * linear interpolation would otherwise ramp it from the previous stop.
   */
  const EPSILON: real := 0.01

  /** Banner box: lifted by the logo's exit distance, scaled to 98.5%, transparent and blurred 8px; or at rest. */
  datatype BannerPose = BannerLifted | BannerAtRest {
    function Opacity(): real { if BannerLifted? then 0.0 else 1.0 }
  }

  /** Text block: shifted left by its entry distance and blurred 10px; at rest; or raised by its exit distance and blurred 8px. */
  datatype TextPose = TextShiftedLeft | TextAtRest | TextRaised {
    function Opacity(): real { if TextAtRest? then 1.0 else 0.0 }
  }

  /** Underline: collapsed to zero width at its left edge; full width; or collapsed toward its right edge. */
  datatype UnderlinePose = UnderlineCollapsed | UnderlineFull | UnderlineCollapsedRight {
    function Opacity(): real { if UnderlineFull? then 1.0 else 0.0 }
  }

  /** Logo: shifted right by its entry distance, scaled to 98.5% and blurred 10px; at rest; or lifted by its exit distance and blurred 8px. */
  datatype LogoPose = LogoShiftedRight | LogoAtRest | LogoLifted {
    function Opacity(): real { if LogoAtRest? then 1.0 else 0.0 }
  }

  /** Accent stroke behind the logo: opaque or transparent, and revealed or clipped away from the top. */
  datatype StrokePose = StrokePose(solid: bool, revealed: bool) {
    function Opacity(): real { if solid then 1.0 else 0.0 }
  }

  /** The offsets of a track's stops, in order. */
  function Offsets<P>(track: seq<Stop<P>>): (r: seq<real>)
    ensures |r| == |track| && forall i :: 0 <= i < |track| ==> r[i] == track[i].pct
  {
    seq(|track|, i requires 0 <= i < |track| => track[i].pct)
  }

  /** A timeline that never runs backwards: every later stop is at a later or equal offset. */
  predicate Sorted(s: seq<real>) {
    forall i, j :: 0 <= i <= j < |s| ==> s[i] <= s[j]
  }

  /** Each stop is at or after the stop before it. */
  predicate Chained(s: seq<real>) {
    forall i :: 0 < i < |s| ==> s[i - 1] <= s[i]
  }

  lemma {:induction false} ChainedIsSorted(s: seq<real>)
    ensures Chained(s) <==> Sorted(s)
  {
    if Chained(s) && |s| > 1 {
      var init := s[..|s| - 1];
      assert Chained(init) by {
        forall i | 0 < i < |init| ensures init[i - 1] <= init[i] {
          assert init[i - 1] == s[i - 1] && init[i] == s[i];
        }
      }
      ChainedIsSorted(init);
      forall i, j | 0 <= i <= j < |s| ensures s[i] <= s[j] {
        if j < |s| - 1 {
          assert s[i] == init[i] && s[j] == init[j];
        } else if i < j {
          assert s[i] == init[i] && s[j - 1] == init[j - 1];
          assert init[i] <= init[j - 1];
        }
      }
    }
  }

  lemma ChainedFour(a: real, b: real, c: real, d: real)
    ensures Sorted([a, b, c, d]) <==> a <= b && b <= c && c <= d
  {
    var s := [a, b, c, d];
    ChainedIsSorted(s);
    assert Chained(s) <==> s[0] <= s[1] && s[1] <= s[2] && s[2] <= s[3];
  }

  lemma ChainedFive(a: real, b: real, c: real, d: real, e: real)
    ensures Sorted([a, b, c, d, e]) <==> a <= b && b <= c && c <= d && d <= e
  {
    var s := [a, b, c, d, e];
    ChainedIsSorted(s);
    assert Chained(s) <==> (s[0] <= s[1] && s[1] <= s[2] && s[2] <= s[3] && s[3] <= s[4]);
  }

  lemma ChainedEight(a: real, b: real, c: real, d: real, e: real, f: real, g: real, h: real)
    ensures Sorted([a, b, c, d, e, f, g, h])
        <==> a <= b && b <= c && c <= d && d <= e && e <= f && f <= g && g <= h
  {
    var s := [a, b, c, d, e, f, g, h];
    ChainedIsSorted(s);
    assert Chained(s) <==> (s[0] <= s[1] && s[1] <= s[2] && s[2] <= s[3] && s[3] <= s[4]
                            && s[4] <= s[5] && s[5] <= s[6] && s[6] <= s[7]);
  }

  /** The banner fades in with the text, stays through the hold phase and fades out over the exit phase. */
  function BannerTrack(b: Boundaries): (t: seq<Stop<BannerPose>>)
    ensures |t| == 4 && t[0].pct == 0.0 && t[3].pct == 100.0
    ensures t[1].pct == b.pTextInEnd && t[2].pct == b.pHoldEnd
    ensures t[0].pose == t[3].pose && t[0].pose.Opacity() == 0.0
    ensures t[1].pose == t[2].pose && t[1].pose.Opacity() == 1.0
  {
    [Stop(0.0, BannerLifted), Stop(b.pTextInEnd, BannerAtRest),
     Stop(b.pHoldEnd, BannerAtRest), Stop(100.0, BannerLifted)]
  }

  /** The text slides in from the left, stays through the hold phase and leaves upwards. */
  function TextTrack(b: Boundaries): (t: seq<Stop<TextPose>>)
    ensures |t| == 4 && t[0].pct == 0.0 && t[3].pct == 100.0
    ensures t[1].pct == b.pTextInEnd && t[2].pct == b.pHoldEnd
    ensures t[0].pose == TextShiftedLeft && t[3].pose == TextRaised
    ensures t[0].pose.Opacity() == 0.0 && t[3].pose.Opacity() == 0.0
    ensures t[1].pose == t[2].pose && t[1].pose.Opacity() == 1.0
  {
    [Stop(0.0, TextShiftedLeft), Stop(b.pTextInEnd, TextAtRest),
     Stop(b.pHoldEnd, TextAtRest), Stop(100.0, TextRaised)]
  }

  /** The underline grows with the text, stays through the hold phase and shrinks toward its right edge. */
  function UnderlineTrack(b: Boundaries): (t: seq<Stop<UnderlinePose>>)
    ensures |t| == 4 && t[0].pct == 0.0 && t[3].pct == 100.0
    ensures t[1].pct == b.pTextInEnd && t[2].pct == b.pHoldEnd
    ensures t[0].pose == UnderlineCollapsed && t[3].pose == UnderlineCollapsedRight
    ensures t[0].pose.Opacity() == 0.0 && t[3].pose.Opacity() == 0.0
    ensures t[1].pose == t[2].pose && t[1].pose.Opacity() == 1.0
  {
    [Stop(0.0, UnderlineCollapsed), Stop(b.pTextInEnd, UnderlineFull),
     Stop(b.pHoldEnd, UnderlineFull), Stop(100.0, UnderlineCollapsedRight)]
  }

  /** The logo waits off to the right until text-in ends, slides in, stays through the hold phase and leaves upwards. */
  function LogoTrack(b: Boundaries): (t: seq<Stop<LogoPose>>)
    ensures |t| == 5 && t[0].pct == 0.0 && t[4].pct == 100.0
    ensures t[1].pct == b.pLogoInStart && t[2].pct == b.pLogoInEnd && t[3].pct == b.pHoldEnd
    ensures t[0].pose == t[1].pose && t[0].pose.Opacity() == 0.0 && t[4].pose.Opacity() == 0.0
    ensures t[0].pose == LogoShiftedRight && t[4].pose == LogoLifted
    ensures t[2].pose == t[3].pose && t[2].pose.Opacity() == 1.0
  {
    [Stop(0.0, LogoShiftedRight), Stop(b.pLogoInStart, LogoShiftedRight),
     Stop(b.pLogoInEnd, LogoAtRest), Stop(b.pHoldEnd, LogoAtRest),
     Stop(100.0, LogoLifted)]
  }

  /**
   * The stroke stays hidden until just before logo-in ends, turns opaque while
   * still clipped, wipes into view, holds until the hide window, and is clipped
   * away again by the end of the hold phase.
   */
  function StrokeTrack(b: Boundaries): (t: seq<Stop<StrokePose>>)
    ensures |t| == 8 && t[0].pct == 0.0 && t[7].pct == 100.0
    ensures t[2].pct == b.pStrokeRevealStart && t[3].pct == b.pStrokeRevealEnd
    ensures t[5].pct == b.pStrokeHideStart && t[6].pct == b.pStrokeHideEnd
    ensures t[0].pose == t[1].pose == t[6].pose == t[7].pose == StrokePose(false, false)
    ensures t[1].pct == t[2].pct - EPSILON && t[2].pose == StrokePose(true, false)
    ensures t[3].pose == t[4].pose == t[5].pose == StrokePose(true, true)
    ensures t[4].pct == t[5].pct - EPSILON
  {
    var hidden, shown := StrokePose(false, false), StrokePose(true, true);
    [Stop(0.0, hidden),
     Stop(b.pStrokeRevealStart - EPSILON, hidden),
     Stop(b.pStrokeRevealStart, StrokePose(true, false)),
     Stop(b.pStrokeRevealEnd, shown),
     Stop(b.pStrokeHideStart - EPSILON, shown),
     Stop(b.pStrokeHideStart, shown),
     Stop(b.pStrokeHideEnd, hidden),
     Stop(100.0, hidden)]
  }

  /**
   * The tracks are phase-locked: the stroke starts turning opaque exactly where
   * the logo comes to rest, and the stroke is hidden again exactly where the
   * logo, banner, text and underline leave their rest poses.
   */
  lemma TracksCoupled(c: Config)
    requires TotalDuration(c) != 0.0
    ensures var b := ComputeBoundaries(c);
      && StrokeTrack(b)[2].pct == LogoTrack(b)[2].pct
      && StrokeTrack(b)[6].pct == LogoTrack(b)[3].pct == BannerTrack(b)[2].pct
      && BannerTrack(b)[2].pct == TextTrack(b)[2].pct == UnderlineTrack(b)[2].pct
      && StrokeTrack(b)[6].pct * b.totalDuration == HoldEndSeconds(c) * 100.0
  {
  }

  /**
   * Banner, text and underline share their offsets, and these run forwards
   * exactly when text-in takes no negative time, ends by the end of the hold
   * phase, and the exit phase takes no negative time.
   */
  lemma EntryExitTracksSorted(c: Config)
    requires TotalDuration(c) > 0.0
    ensures Offsets(TextTrack(ComputeBoundaries(c))) == Offsets(BannerTrack(ComputeBoundaries(c)))
    ensures Offsets(UnderlineTrack(ComputeBoundaries(c))) == Offsets(BannerTrack(ComputeBoundaries(c)))
    ensures Sorted(Offsets(BannerTrack(ComputeBoundaries(c))))
        <==> 0.0 <= c.textInAnim && c.textInAnim <= HoldEndSeconds(c) && c.outDuration >= 0.0
  {
    var b := ComputeBoundaries(c);
    var total := b.totalDuration;
    assert Offsets(BannerTrack(b)) == [0.0, b.pTextInEnd, b.pHoldEnd, 100.0];
    assert Offsets(TextTrack(b)) == [0.0, b.pTextInEnd, b.pHoldEnd, 100.0];
    assert Offsets(UnderlineTrack(b)) == [0.0, b.pTextInEnd, b.pHoldEnd, 100.0];
    ChainedFour(0.0, b.pTextInEnd, b.pHoldEnd, 100.0);
    PercentRange(c.textInAnim, total);
    PercentOrder(c.textInAnim, HoldEndSeconds(c), total);
    PercentRange(HoldEndSeconds(c), total);
  }

  /**
   * The logo's offsets run forwards exactly when text-in takes no negative
   * time and ends within the fade-in phase, logo-in takes no negative time,
   * logo-in ends by the end of the hold phase, and the exit phase takes no
   * negative time.
   */
  lemma LogoTrackSorted(c: Config)
    requires TotalDuration(c) > 0.0
    ensures Sorted(Offsets(LogoTrack(ComputeBoundaries(c))))
        <==> (0.0 <= c.textInAnim && c.textInAnim <= c.inDuration && c.logoInAnim >= 0.0
              && ComputeBoundaries(c).logoInEndSec <= HoldEndSeconds(c) && c.outDuration >= 0.0)
  {
    var b := ComputeBoundaries(c);
    var total := b.totalDuration;
    assert Offsets(LogoTrack(b)) == [0.0, b.pLogoInStart, b.pLogoInEnd, b.pHoldEnd, 100.0];
    ChainedFive(0.0, b.pLogoInStart, b.pLogoInEnd, b.pHoldEnd, 100.0);
    PercentRange(c.textInAnim, total);
    LogoWindowOrdered(c);
    PercentOrder(b.logoInEndSec, HoldEndSeconds(c), total);
    PercentRange(HoldEndSeconds(c), total);
  }

  /**
   * With no phase of negative length and text-in inside the fade-in phase,
   * the banner, text, underline and logo timelines all run forwards.
   */
  lemma EntryExitAndLogoTracksSorted(c: Config)
    requires TotalDuration(c) > 0.0
    requires c.inDuration >= 0.0 && c.sustainDuration >= 0.0 && c.outDuration >= 0.0
    requires 0.0 <= c.textInAnim <= c.inDuration && c.logoInAnim >= 0.0
    ensures Sorted(Offsets(BannerTrack(ComputeBoundaries(c))))
    ensures Sorted(Offsets(TextTrack(ComputeBoundaries(c))))
    ensures Sorted(Offsets(UnderlineTrack(ComputeBoundaries(c))))
    ensures Sorted(Offsets(LogoTrack(ComputeBoundaries(c))))
  {
    EntryExitTracksSorted(c);
    LogoTrackSorted(c);
  }

  /** Length in seconds of the EPSILON lead of a "just before" stop. */
  function LeadSeconds(total: real): (sec: real)
    requires total != 0.0
    ensures Percent(sec, total) == EPSILON
  {
    PercentRoundTrip(0.0, EPSILON, total);
    Seconds(EPSILON, total)
  }

  /**
   * The stroke's offsets run forwards exactly when logo-in ends at least one
   * lead after the start of the cycle and within it, the reveal takes no
   * negative time, the hide window starts at least one lead after the reveal
   * ends, the hide takes no negative time, the hold phase ends at 0s or
   * later, and the exit phase takes no negative time.
   */
  lemma StrokeTrackSorted(c: Config)
    requires TotalDuration(c) > 0.0
    ensures var b := ComputeBoundaries(c);
      Sorted(Offsets(StrokeTrack(b)))
      <==> (LeadSeconds(TotalDuration(c)) <= LogoInEndSeconds(c) && LogoInEndSeconds(c) <= TotalDuration(c)
            && c.strokeRevealSeconds >= 0.0
            && StrokeRevealEndSeconds(c) + LeadSeconds(TotalDuration(c)) <= StrokeHideStartSeconds(c)
            && c.strokeHideSeconds >= 0.0 && HoldEndSeconds(c) >= 0.0
            && c.outDuration >= 0.0)
  {
    var b := ComputeBoundaries(c);
    var total := b.totalDuration;
    var lead := LeadSeconds(total);
    assert Offsets(StrokeTrack(b)) == [0.0, b.pStrokeRevealStart - EPSILON, b.pStrokeRevealStart,
      b.pStrokeRevealEnd, b.pStrokeHideStart - EPSILON, b.pStrokeHideStart, b.pStrokeHideEnd, 100.0];
    ChainedEight(0.0, b.pStrokeRevealStart - EPSILON, b.pStrokeRevealStart, b.pStrokeRevealEnd,
      b.pStrokeHideStart - EPSILON, b.pStrokeHideStart, b.pStrokeHideEnd, 100.0);
    PercentOrder(lead, b.logoInEndSec, total);
    StrokeRevealWindowOrdered(c);
    PercentDifference(b.strokeHideStartSec, lead, total);
    PercentOrder(b.strokeRevealEndSec, b.strokeHideStartSec - lead, total);
    StrokeHideWindowOrdered(c);
    PercentRange(HoldEndSeconds(c), total);
  }

  /**
   * When logo-in ends at the very start of the cycle (no text-in and no
   * logo-in time), the stroke's "just before" stop falls at -0.01%, before
   * the 0% stop, and the stroke timeline runs backwards.
   */
  lemma InstantLogoInGivesNegativeStop(c: Config)
    requires TotalDuration(c) != 0.0
    requires c.inDuration >= 0.0 && c.textInAnim + c.logoInAnim == 0.0
    ensures StrokeTrack(ComputeBoundaries(c))[1].pct == -EPSILON
    ensures !Sorted(Offsets(StrokeTrack(ComputeBoundaries(c))))
  {
    var b := ComputeBoundaries(c);
    assert b.logoInEndSec == 0.0;
    var s := Offsets(StrokeTrack(b));
    assert s[0] == 0.0 && s[1] == -EPSILON;
  }

  /** The default timing gives an 18s cycle: text-in ends at 80/9 = 8.89%, logo-in at 140/9 = 15.56%, the hold phase at 700/9 = 77.78%. */
  lemma DefaultOffsets(c: Config)
    requires c == DefaultConfig()
    ensures ComputeBoundaries(c).totalDuration == 18.0
    ensures ComputeBoundaries(c).pTextInEnd * 9.0 == 80.0
    ensures ComputeBoundaries(c).pHoldEnd * 9.0 == 700.0
    ensures ComputeBoundaries(c).pLogoInEnd * 9.0 == 140.0
  {
    assert TotalDuration(c) == 18.0;
    assert ComputeBoundaries(c).logoInEndSec == 2.8;
    PercentIs(1.6, 18.0, 80.0 / 9.0);
    PercentIs(14.0, 18.0, 700.0 / 9.0);
    PercentIs(2.8, 18.0, 140.0 / 9.0);
  }

  /** Under the default timing the stroke timeline runs forwards: its "just before" stops all fall between their neighbours. */
  lemma DefaultStrokeTrackSorted(c: Config)
    requires c == DefaultConfig()
    ensures Sorted(Offsets(StrokeTrack(ComputeBoundaries(c))))
  {
    DefaultStrokeSeconds(c);
    StrokeTrackSorted(c);
  }

  /** The default timing in seconds: an 18s cycle, a 0.0018s lead, logo-in ends at 2.8s, the reveal at 3.4s, and the hide starts at 13.4s. */
  lemma DefaultStrokeSeconds(c: Config)
    requires c == DefaultConfig()
    ensures TotalDuration(c) == 18.0
    ensures LeadSeconds(TotalDuration(c)) == 0.0018
    ensures LogoInEndSeconds(c) == 2.8
    ensures StrokeRevealEndSeconds(c) == 3.4
    ensures StrokeHideStartSeconds(c) == 13.4
  {
    assert Seconds(EPSILON, 18.0) == 0.0018;
  }

  /** A text-in (5s) longer than the fade-in phase (4s) puts logo-in's start at 250/9 = 27.78%, after its end at 200/9 = 22.22%. */
  lemma LongTextInOffsets(c: Config)
    requires c == DefaultConfig().(textInAnim := 5.0)
    ensures ComputeBoundaries(c).pLogoInStart * 9.0 == 250.0
    ensures ComputeBoundaries(c).pLogoInEnd * 9.0 == 200.0
  {
    assert TotalDuration(c) == 18.0;
    assert ComputeBoundaries(c).logoInEndSec == 4.0;
    PercentIs(5.0, 18.0, 250.0 / 9.0);
    PercentIs(4.0, 18.0, 200.0 / 9.0);
  }

  /** With that text-in, the logo's timeline runs backwards. */
  lemma LongTextInRunsLogoBackwards(c: Config)
    requires c == DefaultConfig().(textInAnim := 5.0)
    ensures !Sorted(Offsets(LogoTrack(ComputeBoundaries(c))))
  {
    LogoTrackSorted(c);
  }
}
