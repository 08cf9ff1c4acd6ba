/**
 * Phase boundaries of the overlay's looping animation.
 *
 * The overlay plays one cycle of `in + sustain + out` seconds on every
 * animated track. Each boundary is first computed in seconds and then turned
 * into a keyframe offset, a percentage of that one shared cycle length.
 * Durations and percentages are exact reals here.
 */
module Timing {

  /** The timing fields of one generation request, in seconds. */
  datatype Config = Config(
    inDuration: real,
    sustainDuration: real,
    outDuration: real,
    textInAnim: real,
    logoInAnim: real,
    strokeRevealSeconds: real,
    strokeHideSeconds: real)

  datatype Result<T, E> = Ok(value: T) | Err(error: E)

  /** The only failure of the timing block: the shared divisor is zero. */
  datatype TimingError = ZeroDivision

  /**
   * Length of one animation cycle: the three phases back to back. With no
   * phase of negative length it is zero only when every phase is.
   */
  function TotalDuration(c: Config): (t: real)
    ensures c.inDuration >= 0.0 && c.sustainDuration >= 0.0 && c.outDuration >= 0.0 ==>
      (t == 0.0 <==> c.inDuration == 0.0 && c.sustainDuration == 0.0 && c.outDuration == 0.0)
  {
    c.inDuration + c.sustainDuration + c.outDuration
  }

  /** The end of the hold phase, in seconds from the start of the cycle. */
  function HoldEndSeconds(c: Config): (h: real)
    ensures h + c.outDuration == TotalDuration(c)
    ensures h <= TotalDuration(c) <==> c.outDuration >= 0.0
  {
    c.inDuration + c.sustainDuration
  }

  /** When logo-in ends: after its own length, but no later than the end of the fade-in phase. */
  function LogoInEndSeconds(c: Config): (e: real)
    ensures e <= c.inDuration && e <= c.textInAnim + c.logoInAnim
    ensures e == c.inDuration || e == c.textInAnim + c.logoInAnim
  {
    Min(c.inDuration, c.textInAnim + c.logoInAnim)
  }

  /** When the stroke reveal ends: after its own length, but no later than the end of the cycle. */
  function StrokeRevealEndSeconds(c: Config): (e: real)
    ensures e <= TotalDuration(c) && e <= LogoInEndSeconds(c) + c.strokeRevealSeconds
    ensures e == TotalDuration(c) || e == LogoInEndSeconds(c) + c.strokeRevealSeconds
  {
    Min(TotalDuration(c), LogoInEndSeconds(c) + c.strokeRevealSeconds)
  }

  /** When the stroke hide starts: its own length before the hold end, but no earlier than 0s. */
  function StrokeHideStartSeconds(c: Config): (s: real)
    ensures s >= 0.0 && s >= HoldEndSeconds(c) - c.strokeHideSeconds
    ensures s == 0.0 || s == HoldEndSeconds(c) - c.strokeHideSeconds
  {
    Max(0.0, HoldEndSeconds(c) - c.strokeHideSeconds)
  }

  function Min(a: real, b: real): (m: real)
    ensures m <= a && m <= b && (m == a || m == b)
  {
    if a <= b then a else b
  }

  function Max(a: real, b: real): (m: real)
    ensures m >= a && m >= b && (m == a || m == b)
  {
    if a >= b then a else b
  }

  /** Keyframe offset of the instant `sec` seconds into a cycle of length `total`. */
  function Percent(sec: real, total: real): (p: real)
    requires total != 0.0
    ensures p * total == sec * 100.0
  {
    sec / total * 100.0
  }

  /** The instant, in seconds, that a keyframe offset stands for. */
  function Seconds(p: real, total: real): (sec: real)
    ensures sec * 100.0 == p * total
  {
    p * total / 100.0
  }

  /** Offsets and instants are two encodings of the same point of the cycle. */
  lemma PercentRoundTrip(sec: real, p: real, total: real)
    requires total != 0.0
    ensures Seconds(Percent(sec, total), total) == sec
    ensures Percent(Seconds(p, total), total) == p
  {
    var q := Percent(sec, total);
    assert q * total == sec * 100.0;
    var s := Seconds(p, total);
    assert s * 100.0 == p * total;
    assert Percent(s, total) * total == p * total;
  }

  /** An offset known by its defining equation. */
  lemma PercentIs(sec: real, total: real, p: real)
    requires total != 0.0 && p * total == sec * 100.0
    ensures Percent(sec, total) == p
  {
  }

  /** Over a cycle of positive length, offsets order exactly as the instants do. */
  lemma PercentOrder(a: real, b: real, total: real)
    requires total > 0.0
    ensures Percent(a, total) <= Percent(b, total) <==> a <= b
    ensures Percent(a, total) < Percent(b, total) <==> a < b
    ensures Percent(a, total) == Percent(b, total) <==> a == b
  {
    var pa, pb := Percent(a, total), Percent(b, total);
    assert (pb - pa) * total == (b - a) * 100.0;
  }

  /** The offset of a difference of instants is the difference of their offsets. */
  lemma PercentDifference(a: real, b: real, total: real)
    requires total != 0.0
    ensures Percent(a - b, total) == Percent(a, total) - Percent(b, total)
  {
    var pa, pb, pd := Percent(a, total), Percent(b, total), Percent(a - b, total);
    assert (pd - (pa - pb)) * total == 0.0;
  }

  /** Over a cycle of positive length, [0, total] seconds maps onto [0, 100] percent. */
  lemma PercentRange(sec: real, total: real)
    requires total > 0.0
    ensures Percent(0.0, total) == 0.0 && Percent(total, total) == 100.0
    ensures 0.0 <= Percent(sec, total) <==> 0.0 <= sec
    ensures Percent(sec, total) <= 100.0 <==> sec <= total
  {
    PercentOrder(0.0, sec, total);
    PercentOrder(sec, total, total);
    assert Percent(0.0, total) * total == 0.0;
    assert Percent(total, total) * total == 100.0 * total;
  }

  /** Every boundary the timing block computes, in seconds and as a percentage. */
  datatype Boundaries = Boundaries(
    totalDuration: real,
    pInEnd: real,
    pHoldEnd: real,
    pTextInEnd: real,
    logoInStartSec: real,
    logoInEndSec: real,
    pLogoInStart: real,
    pLogoInEnd: real,
    strokeRevealEndSec: real,
    pStrokeRevealStart: real,
    pStrokeRevealEnd: real,
    strokeHideStartSec: real,
    pStrokeHideStart: real,
    pStrokeHideEnd: real)

  /**
   * The timing block. Logo-in starts when text-in ends and is cut off at the
   * end of the fade-in phase; the stroke reveal starts when logo-in ends and
   * is cut off at the end of the cycle; the stroke hide finishes at the end
   * of the hold phase and starts no earlier than the start of the cycle.
   */
  function ComputeBoundaries(c: Config): (b: Boundaries)
    requires TotalDuration(c) != 0.0
    ensures b.totalDuration == c.inDuration + c.sustainDuration + c.outDuration
    ensures b.pInEnd * b.totalDuration == c.inDuration * 100.0
    ensures b.pHoldEnd * b.totalDuration == (c.inDuration + c.sustainDuration) * 100.0
    ensures b.pTextInEnd * b.totalDuration == c.textInAnim * 100.0
    ensures b.pLogoInStart * b.totalDuration == b.logoInStartSec * 100.0
    ensures b.pLogoInEnd * b.totalDuration == b.logoInEndSec * 100.0
    ensures b.pStrokeRevealEnd * b.totalDuration == b.strokeRevealEndSec * 100.0
    ensures b.pStrokeHideStart * b.totalDuration == b.strokeHideStartSec * 100.0
    ensures b.pStrokeHideEnd == b.pHoldEnd
    ensures b.pStrokeRevealStart == b.pLogoInEnd
    ensures b.logoInStartSec == c.textInAnim
    ensures b.logoInEndSec == LogoInEndSeconds(c)
    ensures b.strokeRevealEndSec == StrokeRevealEndSeconds(c)
    ensures b.strokeHideStartSec == StrokeHideStartSeconds(c)
  {
    var total := TotalDuration(c);
    var pInEnd := Percent(c.inDuration, total);
    var pHoldEnd := Percent(c.inDuration + c.sustainDuration, total);
    var pTextInEnd := Percent(c.textInAnim, total);
    var logoInStartSec := c.textInAnim;
    var logoInEndSec := LogoInEndSeconds(c);
    var pLogoInStart := Percent(logoInStartSec, total);
    var pLogoInEnd := Percent(logoInEndSec, total);
    var strokeRevealEndSec := StrokeRevealEndSeconds(c);
    var pStrokeRevealStart := pLogoInEnd;
    var pStrokeRevealEnd := Percent(strokeRevealEndSec, total);
    var strokeHideStartSec := StrokeHideStartSeconds(c);
    var pStrokeHideStart := Percent(strokeHideStartSec, total);
    var pStrokeHideEnd := pHoldEnd;
    Boundaries(total, pInEnd, pHoldEnd, pTextInEnd, logoInStartSec, logoInEndSec,
               pLogoInStart, pLogoInEnd, strokeRevealEndSec, pStrokeRevealStart,
               pStrokeRevealEnd, strokeHideStartSec, pStrokeHideStart, pStrokeHideEnd)
  }

  /** The timing block with its error path: a zero cycle length fails the division. */
  function Compile(c: Config): (r: Result<Boundaries, TimingError>)
    ensures r.Err? <==> TotalDuration(c) == 0.0
    ensures r.Ok? ==> r.value == ComputeBoundaries(c)
  {
    if TotalDuration(c) == 0.0 then Err(ZeroDivision) else Ok(ComputeBoundaries(c))
  }

  /** The form's default timing: 4s in, 10s hold, 4s out, 1.6s text-in, 1.2s logo-in, 0.6s stroke reveal and hide. */
  function DefaultConfig(): Config {
    Config(4.0, 10.0, 4.0, 1.6, 1.2, 0.6, 0.6)
  }

  /** Logo-in never ends after the fade-in phase does; it ends exactly then iff text-in plus logo-in reach it. */
  lemma LogoInEndsWithinFadeIn(c: Config)
    requires TotalDuration(c) > 0.0
    ensures ComputeBoundaries(c).pLogoInEnd <= ComputeBoundaries(c).pInEnd
    ensures ComputeBoundaries(c).pLogoInEnd == ComputeBoundaries(c).pInEnd
        <==> c.textInAnim + c.logoInAnim >= c.inDuration
  {
    var b := ComputeBoundaries(c);
    PercentOrder(b.logoInEndSec, c.inDuration, b.totalDuration);
  }

  /** The hold phase ends by 100% exactly when the exit phase takes no negative time, and at 0% or later exactly when it ends at 0s or later. */
  lemma HoldEndWithinCycle(c: Config)
    requires TotalDuration(c) > 0.0
    ensures ComputeBoundaries(c).pHoldEnd <= 100.0 <==> c.outDuration >= 0.0
    ensures 0.0 <= ComputeBoundaries(c).pHoldEnd <==> HoldEndSeconds(c) >= 0.0
  {
    var b := ComputeBoundaries(c);
    PercentIs(HoldEndSeconds(c), b.totalDuration, b.pHoldEnd);
    PercentRange(HoldEndSeconds(c), b.totalDuration);
  }

  /** The stroke reveal ends by 100% and the stroke hide starts at 0% or later. */
  lemma StrokeWindowsWithinCycle(c: Config)
    requires TotalDuration(c) > 0.0
    ensures ComputeBoundaries(c).pStrokeRevealEnd <= 100.0
    ensures ComputeBoundaries(c).pStrokeHideStart >= 0.0
  {
    var b := ComputeBoundaries(c);
    PercentRange(b.strokeRevealEndSec, b.totalDuration);
    PercentRange(b.strokeHideStartSec, b.totalDuration);
  }

  /** The logo-in window is in order exactly when text-in ends within the fade-in phase and logo-in is not negative. */
  lemma LogoWindowOrdered(c: Config)
    requires TotalDuration(c) > 0.0
    ensures ComputeBoundaries(c).pLogoInStart <= ComputeBoundaries(c).pLogoInEnd
        <==> c.textInAnim <= c.inDuration && c.logoInAnim >= 0.0
  {
    var b := ComputeBoundaries(c);
    PercentOrder(b.logoInStartSec, b.logoInEndSec, b.totalDuration);
  }

  /** No clamp keeps text-in inside the fade-in phase: when it runs longer, the logo-in window runs backwards. */
  lemma LogoWindowInverted(c: Config)
    requires TotalDuration(c) > 0.0
    requires c.textInAnim > c.inDuration
    ensures ComputeBoundaries(c).pLogoInEnd < ComputeBoundaries(c).pLogoInStart
  {
    var b := ComputeBoundaries(c);
    PercentOrder(b.logoInEndSec, b.logoInStartSec, b.totalDuration);
  }

  /** The stroke reveal window is in order exactly when its length is not negative and logo-in ends within the cycle. */
  lemma StrokeRevealWindowOrdered(c: Config)
    requires TotalDuration(c) > 0.0
    ensures ComputeBoundaries(c).pStrokeRevealStart <= ComputeBoundaries(c).pStrokeRevealEnd
        <==> c.strokeRevealSeconds >= 0.0 && ComputeBoundaries(c).logoInEndSec <= TotalDuration(c)
  {
    var b := ComputeBoundaries(c);
    PercentOrder(b.logoInEndSec, b.strokeRevealEndSec, b.totalDuration);
  }

  /** The stroke hide window is in order exactly when its length is not negative and the hold phase ends at 0s or later. */
  lemma StrokeHideWindowOrdered(c: Config)
    requires TotalDuration(c) > 0.0
    ensures ComputeBoundaries(c).pStrokeHideStart <= ComputeBoundaries(c).pStrokeHideEnd
        <==> c.strokeHideSeconds >= 0.0 && HoldEndSeconds(c) >= 0.0
  {
    var b := ComputeBoundaries(c);
    assert b.pHoldEnd == Percent(HoldEndSeconds(c), b.totalDuration);
    PercentOrder(b.strokeHideStartSec, HoldEndSeconds(c), b.totalDuration);
  }
}
