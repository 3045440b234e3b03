/**
 * `BehaviorAnalyzer` (behavior.py): a per-id table of smoothed speeds that
 * `Analyze` updates in place, and the pure pieces it is built from: the
 * speed estimate, the size normalisation, the motion bands and the border
 * test. Square roots (`math.hypot`) are the caller-supplied `Metric`.
 */
module Behavior {
  import opened Wrappers
  import opened Boxes
  import opened Tracks

  /** The fields of a track dict that `analyze` reads; either optional field may be missing. */
  datatype Observation = Observation(
    id: int,
    box: Box,
    center: Point,
    kfState: Option<seq<real>>,
    lastCenter: Option<Point>)

  /** The dict `analyze` returns, before its values are rounded. */
  datatype Analysis = Analysis(
    speedPx: real,
    speedRel: real,
    speedNorm: real,
    isNearBorder: bool,
    status: string)

  /** What `analyze` sees of a track that `ObjectTracker.update` reported. */
  function FromView(v: TrackView): Observation
  {
    match v
    case BriefView(id, box, center) => Observation(id, box, center, None, None)
    case FullView(id, box, center, lastCenter, kfState, _, _, _) =>
      Observation(id, box, center, Some(kfState), Some(lastCenter))
  }

  /**
   * `_estimate_speed`: the length of the filter's velocity when the state has
   * at least four components, else the displacement since the last centre,
   * else zero.
   */
  function EstimateSpeed(o: Observation, hypot: Metric): (s: real)
    ensures s >= 0.0
  {
    if o.kfState.Some? && |o.kfState.value| >= 4 then hypot(o.kfState.value[2], o.kfState.value[3])
    else if o.lastCenter.None? then 0.0
    else hypot(o.center.x - o.lastCenter.value.x, o.center.y - o.lastCenter.value.y)
  }

  /** The previous smoothed speed of `id`, if any (`speed_ema.get(obj_id, None)`). */
  function Previous(ema: map<int, real>, id: int): Option<real>
  {
    if id in ema then Some(ema[id]) else None
  }

  /** The exponential moving average: the first sample is taken as is. */
  function Smooth(prev: Option<real>, alpha: real, speed: real): real
  {
    match prev
    case None => speed
    case Some(p) => alpha * p + (1.0 - alpha) * speed
  }

  /** The object's size, never below one pixel. */
  function ObjScale(b: Box): (s: real)
    ensures s >= 1.0
    ensures s >= b.w as real && s >= b.h as real
    ensures s == 1.0 || s == b.w as real || s == b.h as real
  {
    var side := Max(b.w, b.h);
    if 1 <= side then side as real else 1.0
  }

  const Stationary: string := "Stationary"
  const MovingSlowly: string := "Moving Slowly"
  const MovingFast: string := "Moving Fast"
  const NearBorderSuffix: string := " (Near Border)"

  /** The motion band of a speed relative to the object's size. */
  function Band(rel: real): string
  {
    if rel < 0.01 then Stationary
    else if rel < 0.05 then MovingSlowly
    else MovingFast
  }

  /** Position of a band in the order Stationary < Moving Slowly < Moving Fast. */
  function BandRank(band: string): int
  {
    if band == Stationary then 0 else if band == MovingSlowly then 1 else 2
  }

  /** The status text: the band, then the border suffix when the box is near the border. */
  function StatusText(rel: real, near: bool): string
  {
    Band(rel) + (if near then NearBorderSuffix else "")
  }

  /** Whether `s` ends in the border suffix. */
  predicate HasBorderSuffix(s: string)
  {
    |s| >= |NearBorderSuffix| && s[|s| - |NearBorderSuffix|..] == NearBorderSuffix
  }

  /** `int(n * 0.10)`: a tenth of `n`, truncated toward zero as `int()` does. */
  function Margin(n: int): (m: int)
    ensures n >= 0 ==> 0 <= 10 * m <= n < 10 * m + 10
    ensures n < 0 ==> 10 * m - 10 < n <= 10 * m <= 0
  {
    if n >= 0 then n / 10 else -((-n) / 10)
  }

  /** `_is_near_border` with the 10% margin `analyze` passes. */
  predicate IsNearBorder(b: Box, frameWidth: int, frameHeight: int)
  {
    var mx := Margin(frameWidth);
    var my := Margin(frameHeight);
    b.x <= mx || b.y <= my || b.x + b.w >= frameWidth - mx || b.y + b.h >= frameHeight - my
  }

  /** The box mirrored left to right inside a frame of the given width. */
  function MirrorX(b: Box, frameWidth: int): Box
  {
    Box(frameWidth - b.x - b.w, b.y, b.w, b.h)
  }

  /** The box mirrored top to bottom inside a frame of the given height. */
  function MirrorY(b: Box, frameHeight: int): Box
  {
    Box(b.x, frameHeight - b.y - b.h, b.w, b.h)
  }

  /** Everything `analyze` reports once the smoothed speed of the track is known. */
  function Describe(smoothed: real, b: Box, frameWidth: int, frameHeight: int, hypot: Metric): Analysis
  {
    var rel := smoothed / ObjScale(b);
    var diag := hypot(frameWidth as real, frameHeight as real);
    var norm := if diag > 0.0 then smoothed / diag else 0.0;
    var near := IsNearBorder(b, frameWidth, frameHeight);
    Analysis(smoothed, rel, norm, near, StatusText(rel, near))
  }

  /**
   * One call of `analyze`, given the previous smoothed speed of the track's
   * id and the smoothing factor.
   */
  function AnalysisOf(prev: Option<real>, alpha: real, o: Observation, frameWidth: int, frameHeight: int, hypot: Metric)
    : Analysis
  {
    Describe(Smooth(prev, alpha, EstimateSpeed(o, hypot)), o.box, frameWidth, frameHeight, hypot)
  }

  /**
   * The speeds `analyze` reports: the smoothed one, the smoothed one per pixel
   * of object size, and the smoothed one per pixel of frame diagonal, or zero
   * for an empty frame. None exceeds the smoothed speed when that is not negative.
   */
  lemma {:induction false} DescribeSpeeds(smoothed: real, b: Box, frameWidth: int, frameHeight: int, hypot: Metric)
    ensures var a := Describe(smoothed, b, frameWidth, frameHeight, hypot);
      var diag := hypot(frameWidth as real, frameHeight as real);
      && a.speedPx == smoothed
      && a.speedRel * ObjScale(b) == smoothed
      && (smoothed >= 0.0 ==> 0.0 <= a.speedRel <= smoothed)
      && (diag <= 0.0 ==> a.speedNorm == 0.0)
      && (diag > 0.0 ==> a.speedNorm * diag == smoothed)
  {
    var a := Describe(smoothed, b, frameWidth, frameHeight, hypot);
    DivTimes(smoothed, ObjScale(b));
    var diag := hypot(frameWidth as real, frameHeight as real);
    if diag > 0.0 {
      DivTimes(smoothed, diag);
    }
  }

  /**
   * The status `analyze` reports: the band of the relative speed, followed by
   * the border suffix exactly when the box is near the border, which is also
   * the flag it reports.
   */
  lemma {:induction false} DescribeStatus(smoothed: real, b: Box, frameWidth: int, frameHeight: int, hypot: Metric)
    ensures var a := Describe(smoothed, b, frameWidth, frameHeight, hypot);
      && (a.isNearBorder <==> IsNearBorder(b, frameWidth, frameHeight))
      && (HasBorderSuffix(a.status) <==> a.isNearBorder)
      && |Band(a.speedRel)| <= |a.status| && a.status[..|Band(a.speedRel)|] == Band(a.speedRel)
  {
    var a := Describe(smoothed, b, frameWidth, frameHeight, hypot);
    SuffixExactlyWhenNear(a.speedRel, a.isNearBorder);
  }

  /** For an id seen for the first time the reported speed is the instantaneous one. */
  lemma {:induction false} FirstSightingUnsmoothed(alpha: real, o: Observation, frameWidth: int, frameHeight: int, hypot: Metric)
    ensures AnalysisOf(None, alpha, o, frameWidth, frameHeight, hypot).speedPx == EstimateSpeed(o, hypot)
  {
    DescribeSpeeds(EstimateSpeed(o, hypot), o.box, frameWidth, frameHeight, hypot);
  }

  lemma {:induction false} DivTimes(x: real, d: real)
    requires d > 0.0
    ensures (x / d) * d == x
    ensures d >= 1.0 && x >= 0.0 ==> 0.0 <= x / d <= x
  {
  }

  // ---------------------------------------------------------------------
  // Properties
  // ---------------------------------------------------------------------

  /** With a factor in [0, 1] the average lies between the previous value and the new sample. */
  lemma {:induction false} SmoothBetween(p: real, alpha: real, speed: real)
    requires 0.0 <= alpha <= 1.0
    ensures var r := Smooth(Some(p), alpha, speed);
      (p <= speed ==> p <= r <= speed) && (speed <= p ==> speed <= r <= p)
  {
    var r := Smooth(Some(p), alpha, speed);
    assert r - p == (1.0 - alpha) * (speed - p);
    assert speed - r == alpha * (speed - p);
    if p <= speed {
      MulNonNeg(1.0 - alpha, speed - p);
      MulNonNeg(alpha, speed - p);
    } else {
      MulNonNeg(1.0 - alpha, p - speed);
      MulNonNeg(alpha, p - speed);
    }
  }

  lemma {:induction false} MulNonNeg(a: real, b: real)
    requires a >= 0.0 && b >= 0.0
    ensures a * b >= 0.0
  {
  }

  /** A steady speed is a fixed point of the average, whatever the factor. */
  lemma {:induction false} SmoothSteady(p: real, alpha: real)
    ensures Smooth(Some(p), alpha, p) == p
  {
    assert alpha * p + (1.0 - alpha) * p == p;
  }

  /** The border suffix is present exactly when the box is near the border. */
  lemma {:induction false} SuffixExactlyWhenNear(rel: real, near: bool)
    ensures HasBorderSuffix(StatusText(rel, near)) <==> near
    ensures |Band(rel)| <= |StatusText(rel, near)| && StatusText(rel, near)[..|Band(rel)|] == Band(rel)
  {
    var s := StatusText(rel, near);
    assert |Band(rel)| < |NearBorderSuffix|;
    if near {
      assert s[|s| - |NearBorderSuffix|..] == NearBorderSuffix;
    }
    assert s[..|Band(rel)|] == Band(rel);
  }

  /** The status text determines both the band and the border flag. */
  lemma {:induction false} StatusDetermines(rel1: real, near1: bool, rel2: real, near2: bool)
    requires StatusText(rel1, near1) == StatusText(rel2, near2)
    ensures near1 == near2 && Band(rel1) == Band(rel2)
  {
    SuffixExactlyWhenNear(rel1, near1);
    SuffixExactlyWhenNear(rel2, near2);
    var s := StatusText(rel1, near1);
    var b := s[..|s| - (if near1 then |NearBorderSuffix| else 0)];
    assert Band(rel1) == b;
    assert Band(rel2) == b;
  }

  /** A faster relative speed never gets a lower band. */
  lemma {:induction false} BandMonotone(rel1: real, rel2: real)
    requires rel1 <= rel2
    ensures BandRank(Band(rel1)) <= BandRank(Band(rel2))
  {
    assert Stationary != MovingSlowly && Stationary != MovingFast && MovingSlowly != MovingFast by {
      assert Stationary[0] != MovingSlowly[0];
      assert Stationary[0] != MovingFast[0];
      assert MovingSlowly[7] != MovingFast[7];
    }
  }

  /** The border test does not care which side of the frame is which. */
  lemma {:induction false} NearBorderMirror(b: Box, frameWidth: int, frameHeight: int)
    ensures IsNearBorder(MirrorX(b, frameWidth), frameWidth, frameHeight) == IsNearBorder(b, frameWidth, frameHeight)
    ensures IsNearBorder(MirrorY(b, frameHeight), frameWidth, frameHeight) == IsNearBorder(b, frameWidth, frameHeight)
  {
  }

  /** A box more than a tenth of the frame away from every edge is not near the border. */
  lemma {:induction false} InteriorNotNear(b: Box, frameWidth: int, frameHeight: int)
    requires frameWidth >= 0 && frameHeight >= 0
    requires 10 * b.x > frameWidth && 10 * b.y > frameHeight
    requires 10 * (b.x + b.w) < 9 * frameWidth && 10 * (b.y + b.h) < 9 * frameHeight
    ensures !IsNearBorder(b, frameWidth, frameHeight)
  {
    var mx := Margin(frameWidth);
    var my := Margin(frameHeight);
    assert 10 * mx <= frameWidth && 10 * my <= frameHeight;
  }

  /** A track that has not moved, seen for the first time, is stationary. */
  lemma {:induction false} StillIsStationary(alpha: real, o: Observation, frameWidth: int, frameHeight: int, hypot: Metric)
    requires hypot(0.0, 0.0) == 0.0
    requires o.kfState.Some? && |o.kfState.value| >= 4 && o.kfState.value[2] == 0.0 && o.kfState.value[3] == 0.0
    ensures Band(AnalysisOf(None, alpha, o, frameWidth, frameHeight, hypot).speedRel) == Stationary
  {
    var a := AnalysisOf(None, alpha, o, frameWidth, frameHeight, hypot);
    DescribeSpeeds(EstimateSpeed(o, hypot), o.box, frameWidth, frameHeight, hypot);
    assert a.speedPx == 0.0;
    assert a.speedRel * ObjScale(o.box) == 0.0;
    assert a.speedRel == 0.0;
  }

  /** The short views of the empty-table path carry neither state nor last centre: their speed is zero. */
  lemma {:induction false} BriefViewHasNoSpeed(v: TrackView, hypot: Metric)
    requires v.BriefView?
    ensures EstimateSpeed(FromView(v), hypot) == 0.0
  {
  }

  /** The full views carry the filter state: their speed is the length of its velocity part. */
  lemma {:induction false} FullViewUsesVelocity(v: TrackView, hypot: Metric)
    requires v.FullView?
    ensures EstimateSpeed(FromView(v), hypot) == hypot(v.kfState[2], v.kfState[3])
  {
  }

  /** The analyzer: the smoothing factor and the table of smoothed speeds per track id. */
  class BehaviorAnalyzer {
    var speedEma: map<int, real>
    var smoothing: real

    constructor(smoothing: real)
      ensures this.speedEma == map[] && this.smoothing == smoothing
    {
      this.speedEma := map[];
      this.smoothing := smoothing;
    }

    /** With a factor in [0, 1], every stored smoothed speed is non-negative. */
    ghost predicate Valid()
      reads this
    {
      0.0 <= smoothing <= 1.0 && forall id :: id in speedEma ==> speedEma[id] >= 0.0
    }

    /** `analyze`: smooth the track's speed, store it under its id, and describe the motion. */
    method Analyze(track: Observation, frameWidth: int, frameHeight: int, hypot: Metric) returns (a: Analysis)
      modifies this
      ensures a == AnalysisOf(Previous(old(speedEma), track.id), smoothing, track, frameWidth, frameHeight, hypot)
      ensures speedEma == old(speedEma)[track.id := a.speedPx]
      ensures smoothing == old(smoothing)
      ensures old(Valid()) ==> Valid()
    {
      var speed := EstimateSpeed(track, hypot);
      var smoothed := Smooth(Previous(speedEma, track.id), smoothing, speed);
      if Valid() && track.id in speedEma {
        SmoothBetween(speedEma[track.id], smoothing, speed);
      }
      speedEma := speedEma[track.id := smoothed];
      var scale := ObjScale(track.box);
      var rel := smoothed / scale;
      var diag := hypot(frameWidth as real, frameHeight as real);
      var norm := 0.0;
      if diag > 0.0 {
        norm := smoothed / diag;
      }
      var near := IsNearBorder(track.box, frameWidth, frameHeight);
      var status := Band(rel);
      if near {
        status := status + NearBorderSuffix;
      }
      a := Analysis(smoothed, rel, norm, near, status);
    }
  }
}
