/**
 * The statistics of a recorded activity (calculateActivityMetrics) and its
 * elevation profile (calculateElevationProfile), js/activity.js:182-319.
 *
 * Both walk the filtered points once. Every accumulator of the source's
 * loop is specified by a function of the number n of points walked so far:
 * the pairs (i - 1, i) with 1 <= i < n have been looked at. Distances come
 * from the abstract haversine of Geo.Geodesy, in metres.
 */
module ActivityMetrics {
  import opened Common
  import opened Geo
  import opened Activity

  // ---------------------------------------------------------------------
  // The per-pair quantities

  /** `calculateDistance(prev, curr)`: the segment ending at point i, in metres. */
  function SegDist(g: Geodesy, pts: seq<ActivityPoint>, i: nat): real
    requires 1 <= i < |pts|
  {
    g.dist(Position(pts[i - 1]), Position(pts[i]))
  }

  /** `prev.ele !== null && curr.ele !== null`. */
  predicate ElePair(pts: seq<ActivityPoint>, i: nat)
    requires 1 <= i < |pts|
  {
    pts[i - 1].ele.Some? && pts[i].ele.Some?
  }

  function EleDiff(pts: seq<ActivityPoint>, i: nat): real
    requires 1 <= i < |pts| && ElePair(pts, i)
  {
    pts[i].ele.value - pts[i - 1].ele.value
  }

  /** The time gap of pair i in seconds, when both points carry a valid instant. */
  function TimeGap(pts: seq<ActivityPoint>, i: nat): Option<real>
    requires 1 <= i < |pts|
  {
    if pts[i - 1].time.At? && pts[i].time.At?
    then Some((pts[i].time.ms - pts[i - 1].time.ms) as real / 1000.0)
    else None
  }

  /** A gap strictly between 0 and 300 s counts as moving; longer gaps are stops. */
  predicate Moving(pts: seq<ActivityPoint>, i: nat)
    requires 1 <= i < |pts|
  {
    var t := TimeGap(pts, i);
    t.Some? && 0.0 < t.value < 300.0
  }

  /** The speed of a moving pair in km/h. */
  function Speed(g: Geodesy, pts: seq<ActivityPoint>, i: nat): real
    requires 1 <= i < |pts| && Moving(pts, i)
  {
    (SegDist(g, pts, i) / 1000.0) / (TimeGap(pts, i).value / 3600.0)
  }

  /** A moving pair whose speed is realistic, strictly between 0 and 100 km/h: it is pushed onto `speeds`. */
  predicate Recorded(g: Geodesy, pts: seq<ActivityPoint>, i: nat)
    requires 1 <= i < |pts|
  {
    Moving(pts, i) && 0.0 < Speed(g, pts, i) < 100.0
  }

  // ---------------------------------------------------------------------
  // The accumulators after the pairs below n

  /** `totalDistance` in metres. */
  function TotalDist(g: Geodesy, pts: seq<ActivityPoint>, n: nat): real
    requires n <= |pts|
  {
    if n <= 1 then 0.0 else TotalDist(g, pts, n - 1) + SegDist(g, pts, n - 1)
  }

  /** `totalAscent`: the positive elevation differences of pairs with both elevations. */
  function Ascent(pts: seq<ActivityPoint>, n: nat): (r: real)
    requires n <= |pts|
    ensures r >= 0.0
  {
    if n <= 1 then 0.0
    else Ascent(pts, n - 1) + (if ElePair(pts, n - 1) && EleDiff(pts, n - 1) > 0.0 then EleDiff(pts, n - 1) else 0.0)
  }

  /** `totalDescent`: the absolute value of every other difference (a flat pair adds 0). */
  function Descent(pts: seq<ActivityPoint>, n: nat): (r: real)
    requires n <= |pts|
    ensures r >= 0.0
  {
    if n <= 1 then 0.0
    else Descent(pts, n - 1) + (if ElePair(pts, n - 1) && EleDiff(pts, n - 1) <= 0.0 then -EleDiff(pts, n - 1) else 0.0)
  }

  /**
   * `highestPoint`: replaced by the current point of a pair with both
   * elevations whenever its elevation is strictly above the maximum so
   * far; `maxElevation` is that point's elevation (-Infinity while None).
   */
  function Highest(pts: seq<ActivityPoint>, n: nat): (r: Option<nat>)
    requires n <= |pts|
    ensures r.Some? ==> 1 <= r.value < n && ElePair(pts, r.value)
  {
    if n <= 1 then None
    else
      var prev := Highest(pts, n - 1);
      if ElePair(pts, n - 1) && (prev.None? || pts[n - 1].ele.value > pts[prev.value].ele.value)
      then Some(n - 1) else prev
  }

  /** `minElevation`: the smallest current elevation of a pair with both elevations (Infinity while None). */
  function Lowest(pts: seq<ActivityPoint>, n: nat): Option<real>
    requires n <= |pts|
  {
    if n <= 1 then None
    else
      var prev := Lowest(pts, n - 1);
      if !ElePair(pts, n - 1) then prev
      else if prev.None? || pts[n - 1].ele.value < prev.value then Some(pts[n - 1].ele.value)
      else prev
  }

  /** `movingTime`: the sum of the moving gaps, in seconds. */
  function MovingTime(pts: seq<ActivityPoint>, n: nat): real
    requires n <= |pts|
  {
    if n <= 1 then 0.0
    else MovingTime(pts, n - 1) + (if Moving(pts, n - 1) then TimeGap(pts, n - 1).value else 0.0)
  }

  /** `speeds`: the recorded speeds in point order. */
  function Speeds(g: Geodesy, pts: seq<ActivityPoint>, n: nat): (r: seq<real>)
    requires n <= |pts|
    ensures |r| < n || (n == 0 && r == [])
    ensures forall k :: 0 <= k < |r| ==> 0.0 < r[k] < 100.0
  {
    if n <= 1 then []
    else Speeds(g, pts, n - 1) + (if Recorded(g, pts, n - 1) then [Speed(g, pts, n - 1)] else [])
  }

  /** The speed at a recorded index, 0 for none: `maxSpeed` starts at 0. */
  function SpeedAt(g: Geodesy, pts: seq<ActivityPoint>, i: Option<nat>): real
    requires i.Some? ==> 1 <= i.value < |pts| && Moving(pts, i.value)
  {
    if i.Some? then Speed(g, pts, i.value) else 0.0
  }

  /** `fastestSegment`: the current point of the recorded pair strictly faster than every earlier one. */
  function Fastest(g: Geodesy, pts: seq<ActivityPoint>, n: nat): (r: Option<nat>)
    requires n <= |pts|
    ensures r.Some? ==> 1 <= r.value < n && Recorded(g, pts, r.value)
  {
    if n <= 1 then None
    else
      var prev := Fastest(g, pts, n - 1);
      if Recorded(g, pts, n - 1) && Speed(g, pts, n - 1) > SpeedAt(g, pts, prev)
      then Some(n - 1) else prev
  }

  /** `speeds.reduce((a, b) => a + b, 0)`. */
  function Sum(s: seq<real>): real {
    if s == [] then 0.0 else Sum(s[..|s| - 1]) + s[|s| - 1]
  }

  /** The mean of the speeds, null for none. */
  function Mean(s: seq<real>): (r: Option<real>)
    ensures r.Some? <==> |s| > 0
  {
    if |s| > 0 then Some(Sum(s) / |s| as real) else None
  }

  // ---------------------------------------------------------------------
  // The returned object

  /** A number that may be one of the infinities the accumulators start from. */
  datatype Extended = NegInfinity | PosInfinity | Finite(v: real)

  datatype Metrics = Metrics(
    totalDistance: real,          // km
    totalAscent: Option<real>,    // null without any elevation
    totalDescent: Option<real>,
    maxElevation: Option<Extended>,
    minElevation: Option<Extended>,
    movingTime: real,             // s
    maxSpeed: real,               // km/h
    avgSpeed: Option<real>,
    hasTimestamps: bool,
    hasElevation: bool,
    startTime: TimeField,
    endTime: TimeField,
    highestPoint: Option<nat>,    // index into the points
    fastestSegment: Option<nat>
  )

  /** `points.some(p => p.time && !isNaN(p.time.getTime()))`. */
  predicate HasTimestamps(pts: seq<ActivityPoint>) {
    exists k :: 0 <= k < |pts| && pts[k].time.At?
  }

  /** `points.some(p => p.ele !== null)`. */
  predicate HasElevation(pts: seq<ActivityPoint>) {
    exists k :: 0 <= k < |pts| && pts[k].ele.Some?
  }

  function MaxExtended(pts: seq<ActivityPoint>, h: Option<nat>): Extended
    requires h.Some? ==> h.value < |pts| && pts[h.value].ele.Some?
  {
    if h.Some? then Finite(pts[h.value].ele.value) else NegInfinity
  }

  function MinExtended(m: Option<real>): Extended {
    if m.Some? then Finite(m.value) else PosInfinity
  }

  /** What calculateActivityMetrics returns for the points. */
  function ActivityMetricsOf(g: Geodesy, pts: seq<ActivityPoint>): Metrics
    requires |pts| > 0
  {
    var n := |pts|;
    var e := HasElevation(pts);
    var f := Fastest(g, pts, n);
    Metrics(
      TotalDist(g, pts, n) / 1000.0,
      if e then Some(Ascent(pts, n)) else None,
      if e then Some(Descent(pts, n)) else None,
      if e then Some(MaxExtended(pts, Highest(pts, n))) else None,
      if e then Some(MinExtended(Lowest(pts, n))) else None,
      MovingTime(pts, n),
      SpeedAt(g, pts, f),
      Mean(Speeds(g, pts, n)),
      HasTimestamps(pts),
      e,
      pts[0].time,
      pts[n - 1].time,
      Highest(pts, n),
      f)
  }

  /** The loop's local variables, gathered. */
  datatype Accumulators = Accumulators(
    totalDistance: real,
    totalAscent: real,
    totalDescent: real,
    maxElevation: Extended,
    minElevation: Extended,
    movingTime: real,
    maxSpeed: real,
    speeds: seq<real>,
    highestPoint: Option<nat>,
    fastestSegment: Option<nat>)

  /** The local variables once the pairs below n have been walked. */
  function After(g: Geodesy, pts: seq<ActivityPoint>, n: nat): Accumulators
    requires n <= |pts|
  {
    Accumulators(
      TotalDist(g, pts, n), Ascent(pts, n), Descent(pts, n),
      MaxExtended(pts, Highest(pts, n)), MinExtended(Lowest(pts, n)),
      MovingTime(pts, n), SpeedAt(g, pts, Fastest(g, pts, n)), Speeds(g, pts, n),
      Highest(pts, n), Fastest(g, pts, n))
  }

  /**
   * The source's single loop over the pairs. The points must not be empty:
   * `points[0].time` throws otherwise.
   */
  method CalculateActivityMetrics(g: Geodesy, points: seq<ActivityPoint>) returns (m: Metrics)
    requires |points| > 0
    ensures m == ActivityMetricsOf(g, points)
  {
    var acc := Accumulators(0.0, 0.0, 0.0, NegInfinity, PosInfinity, 0.0, 0.0, [], None, None);
    var i := 1;
    while i < |points|
      invariant 1 <= i <= |points|
      invariant acc == After(g, points, i)
    {
      var segmentDistance := SegDist(g, points, i);
      var ascent, descent, maxElevation, minElevation, highestPoint :=
        ElevationStep(points, i, acc.totalAscent, acc.totalDescent, acc.maxElevation, acc.minElevation, acc.highestPoint);
      var movingTime, speeds, maxSpeed, fastestSegment :=
        SpeedStep(g, points, i, segmentDistance, acc.movingTime, acc.speeds, acc.maxSpeed, acc.fastestSegment);
      acc := Accumulators(acc.totalDistance + segmentDistance, ascent, descent, maxElevation, minElevation,
                          movingTime, maxSpeed, speeds, highestPoint, fastestSegment);
      i := i + 1;
    }
    var hasElevation := HasElevation(points);
    m := Metrics(
      acc.totalDistance / 1000.0,
      if hasElevation then Some(acc.totalAscent) else None,
      if hasElevation then Some(acc.totalDescent) else None,
      if hasElevation then Some(acc.maxElevation) else None,
      if hasElevation then Some(acc.minElevation) else None,
      acc.movingTime,
      acc.maxSpeed,
      if |acc.speeds| > 0 then Some(Sum(acc.speeds) / |acc.speeds| as real) else None,
      HasTimestamps(points),
      hasElevation,
      points[0].time,
      points[|points| - 1].time,
      acc.highestPoint,
      acc.fastestSegment);
  }

  /** The elevation part of the loop body for the pair ending at point i. */
  method ElevationStep(points: seq<ActivityPoint>, i: nat, totalAscent: real, totalDescent: real,
                       maxElevation: Extended, minElevation: Extended, highestPoint: Option<nat>)
    returns (ascent: real, descent: real, maxEle: Extended, minEle: Extended, highest: Option<nat>)
    requires 1 <= i < |points|
    requires totalAscent == Ascent(points, i) && totalDescent == Descent(points, i)
    requires highestPoint == Highest(points, i) && maxElevation == MaxExtended(points, highestPoint)
    requires minElevation == MinExtended(Lowest(points, i))
    ensures ascent == Ascent(points, i + 1) && descent == Descent(points, i + 1)
    ensures highest == Highest(points, i + 1) && maxEle == MaxExtended(points, highest)
    ensures minEle == MinExtended(Lowest(points, i + 1))
  {
    ascent, descent, maxEle, minEle, highest := totalAscent, totalDescent, maxElevation, minElevation, highestPoint;
    if ElePair(points, i) {
      var curr := points[i].ele.value;
      var elevationDiff := curr - points[i - 1].ele.value;
      if elevationDiff > 0.0 {
        ascent := ascent + elevationDiff;
      } else {
        descent := descent + (if elevationDiff < 0.0 then -elevationDiff else elevationDiff);
      }
      if maxEle.NegInfinity? || curr > maxEle.v {
        maxEle := Finite(curr);
        highest := Some(i);
      }
      if minEle.PosInfinity? || curr < minEle.v {
        minEle := Finite(curr);
      }
    }
  }

  /** The time and speed part of the loop body for the pair ending at point i. */
  method SpeedStep(g: Geodesy, points: seq<ActivityPoint>, i: nat, segmentDistance: real, movingTime: real,
                   speeds: seq<real>, maxSpeed: real, fastestSegment: Option<nat>)
    returns (moving: real, speeds': seq<real>, maxSpeed': real, fastest: Option<nat>)
    requires 1 <= i < |points| && segmentDistance == SegDist(g, points, i)
    requires movingTime == MovingTime(points, i) && speeds == Speeds(g, points, i)
    requires fastestSegment == Fastest(g, points, i) && maxSpeed == SpeedAt(g, points, fastestSegment)
    ensures moving == MovingTime(points, i + 1) && speeds' == Speeds(g, points, i + 1)
    ensures fastest == Fastest(g, points, i + 1) && maxSpeed' == SpeedAt(g, points, fastest)
  {
    moving, speeds', maxSpeed', fastest := movingTime, speeds, maxSpeed, fastestSegment;
    var timeDiff := TimeGap(points, i);
    if timeDiff.Some? && 0.0 < timeDiff.value < 300.0 {
      moving := moving + timeDiff.value;
      var speed := (segmentDistance / 1000.0) / (timeDiff.value / 3600.0);
      if 0.0 < speed < 100.0 {
        speeds' := speeds' + [speed];
        if speed > maxSpeed' {
          maxSpeed' := speed;
          fastest := Some(i);
        }
      }
    }
  }

  // ---------------------------------------------------------------------
  // What the statistics mean

  /**
   * `highestPoint` is the first point from index 1 on, among the current
   * points of pairs with both elevations, of greatest elevation; it is
   * found exactly when such a pair exists. Point 0 is never a candidate.
   */
  lemma {:induction false} HighestIsFirstMax(pts: seq<ActivityPoint>, n: nat)
    requires n <= |pts|
    ensures Highest(pts, n).Some? <==> exists i :: 1 <= i < n && ElePair(pts, i)
    ensures Highest(pts, n).Some? ==>
      var h := Highest(pts, n).value;
      && (forall i :: 1 <= i < n && ElePair(pts, i) ==> pts[i].ele.value <= pts[h].ele.value)
      && (forall i :: 1 <= i < h && ElePair(pts, i) ==> pts[i].ele.value < pts[h].ele.value)
    decreases n
  {
    if n > 1 {
      HighestIsFirstMax(pts, n - 1);
    }
  }

  /** `minElevation` is the smallest current elevation over the pairs, and is found exactly when a pair exists. */
  lemma {:induction false} LowestIsMin(pts: seq<ActivityPoint>, n: nat)
    requires n <= |pts|
    ensures Lowest(pts, n).Some? <==> exists i :: 1 <= i < n && ElePair(pts, i)
    ensures Lowest(pts, n).Some? ==>
      && (exists i :: 1 <= i < n && ElePair(pts, i) && pts[i].ele.value == Lowest(pts, n).value)
      && (forall i :: 1 <= i < n && ElePair(pts, i) ==> Lowest(pts, n).value <= pts[i].ele.value)
    decreases n
  {
    if n > 1 {
      LowestIsMin(pts, n - 1);
    }
  }

  /** With a pair of elevations the reported minimum is at most the reported maximum. */
  lemma MinAtMostMax(g: Geodesy, pts: seq<ActivityPoint>)
    requires |pts| > 0 && exists i :: 1 <= i < |pts| && ElePair(pts, i)
    ensures var m := ActivityMetricsOf(g, pts);
      && m.hasElevation
      && m.minElevation.Some? && m.minElevation.value.Finite?
      && m.maxElevation.Some? && m.maxElevation.value.Finite?
      && m.minElevation.value.v <= m.maxElevation.value.v
  {
    var n := |pts|;
    HighestIsFirstMax(pts, n);
    LowestIsMin(pts, n);
    var i :| 1 <= i < n && ElePair(pts, i);
    assert pts[i].ele.Some?;
  }

  /**
   * Elevations on isolated points only: hasElevation holds but no pair
   * contributed, so the maximum and minimum stay at -Infinity and Infinity
   * and the totals at 0.
   */
  lemma ExtremesWithoutPair(g: Geodesy, pts: seq<ActivityPoint>)
    requires |pts| > 0 && HasElevation(pts)
    requires forall i :: 1 <= i < |pts| ==> !ElePair(pts, i)
    ensures var m := ActivityMetricsOf(g, pts);
      && m.maxElevation == Some(NegInfinity) && m.minElevation == Some(PosInfinity)
      && m.totalAscent == Some(0.0) && m.totalDescent == Some(0.0) && m.highestPoint.None?
  {
    var n := |pts|;
    HighestIsFirstMax(pts, n);
    LowestIsMin(pts, n);
    AscentDescentWithoutPair(pts, n);
  }

  lemma {:induction false} AscentDescentWithoutPair(pts: seq<ActivityPoint>, n: nat)
    requires n <= |pts|
    requires forall i :: 1 <= i < n ==> !ElePair(pts, i)
    ensures Ascent(pts, n) == 0.0 && Descent(pts, n) == 0.0
    decreases n
  {
    if n > 1 {
      AscentDescentWithoutPair(pts, n - 1);
    }
  }

  /** Without any elevation every elevation field is null. */
  lemma NoElevationFieldsNull(g: Geodesy, pts: seq<ActivityPoint>)
    requires |pts| > 0 && forall k :: 0 <= k < |pts| ==> pts[k].ele.None?
    ensures var m := ActivityMetricsOf(g, pts);
      && !m.hasElevation
      && m.totalAscent.None? && m.totalDescent.None? && m.maxElevation.None? && m.minElevation.None?
  {
  }

  /** The net climb: ascent minus descent is the sum of the differences over the pairs. */
  function NetDiff(pts: seq<ActivityPoint>, n: nat): real
    requires n <= |pts|
  {
    if n <= 1 then 0.0
    else NetDiff(pts, n - 1) + (if ElePair(pts, n - 1) then EleDiff(pts, n - 1) else 0.0)
  }

  lemma {:induction false} AscentMinusDescent(pts: seq<ActivityPoint>, n: nat)
    requires n <= |pts|
    ensures Ascent(pts, n) - Descent(pts, n) == NetDiff(pts, n)
    decreases n
  {
    if n > 1 {
      AscentMinusDescent(pts, n - 1);
    }
  }

  /** When every point has an elevation, ascent minus descent is the last elevation minus the first. */
  lemma {:induction false} NetClimbOfFullProfile(pts: seq<ActivityPoint>, n: nat)
    requires 1 <= n <= |pts|
    requires forall k :: 0 <= k < |pts| ==> pts[k].ele.Some?
    ensures Ascent(pts, n) - Descent(pts, n) == pts[n - 1].ele.value - pts[0].ele.value
    decreases n
  {
    AscentMinusDescent(pts, n);
    if n > 1 {
      NetClimbOfFullProfile(pts, n - 1);
      AscentMinusDescent(pts, n - 1);
    }
  }

  /** The moving time only grows, and by less than 300 s per pair. */
  lemma {:induction false} MovingTimeBounds(pts: seq<ActivityPoint>, n: nat)
    requires 1 <= n <= |pts|
    ensures 0.0 <= MovingTime(pts, n) <= 300.0 * (n - 1) as real
    ensures MovingTime(pts, n) == 300.0 * (n - 1) as real ==> n == 1
    decreases n
  {
    if n > 1 {
      MovingTimeBounds(pts, n - 1);
    }
  }

  /** A pair whose gap is 300 s or more (a stop), or not positive, adds nothing to the moving time. */
  lemma StopAddsNothing(g: Geodesy, pts: seq<ActivityPoint>, n: nat)
    requires 2 <= n <= |pts| && !Moving(pts, n - 1)
    ensures MovingTime(pts, n) == MovingTime(pts, n - 1)
    ensures Speeds(g, pts, n) == Speeds(g, pts, n - 1) && Fastest(g, pts, n) == Fastest(g, pts, n - 1)
  {
  }

  /** `maxSpeed` after the pairs below n: 0 until a speed is recorded. */
  function MaxSpeed(g: Geodesy, pts: seq<ActivityPoint>, n: nat): real
    requires n <= |pts|
  {
    SpeedAt(g, pts, Fastest(g, pts, n))
  }

  /** A fastest segment exists exactly when a speed was recorded. */
  lemma {:induction false} FastestFound(g: Geodesy, pts: seq<ActivityPoint>, n: nat)
    requires n <= |pts|
    ensures Fastest(g, pts, n).None? <==> Speeds(g, pts, n) == []
    decreases n
  {
    if n > 1 {
      FastestFound(g, pts, n - 1);
    }
  }

  /** The speed of the fastest segment is one of the recorded speeds. */
  lemma {:induction false} FastestListed(g: Geodesy, pts: seq<ActivityPoint>, n: nat)
    requires n <= |pts|
    ensures Fastest(g, pts, n).Some? ==> MaxSpeed(g, pts, n) in Speeds(g, pts, n)
    decreases n
  {
    if n > 1 {
      FastestListed(g, pts, n - 1);
      var prev := Speeds(g, pts, n - 1);
      if Recorded(g, pts, n - 1) {
        assert Speeds(g, pts, n) == prev + [Speed(g, pts, n - 1)];
      } else {
        assert Speeds(g, pts, n) == prev;
      }
    }
  }

  /** No recorded speed exceeds `maxSpeed`. */
  lemma {:induction false} MaxSpeedIsUpperBound(g: Geodesy, pts: seq<ActivityPoint>, n: nat)
    requires n <= |pts|
    ensures forall k :: 0 <= k < |Speeds(g, pts, n)| ==> Speeds(g, pts, n)[k] <= MaxSpeed(g, pts, n)
    decreases n
  {
    if n > 1 {
      MaxSpeedIsUpperBound(g, pts, n - 1);
      var prev, s := Speeds(g, pts, n - 1), Speeds(g, pts, n);
      assert forall k :: 0 <= k < |prev| ==> s[k] == prev[k];
      assert MaxSpeed(g, pts, n - 1) <= MaxSpeed(g, pts, n);
    }
  }

  /** Every recorded pair before the fastest one is strictly slower: ties keep the first. */
  lemma {:induction false} FastestIsFirst(g: Geodesy, pts: seq<ActivityPoint>, n: nat)
    requires n <= |pts|
    ensures Fastest(g, pts, n).Some? ==>
      forall i :: 1 <= i < Fastest(g, pts, n).value && Recorded(g, pts, i) ==> Speed(g, pts, i) < MaxSpeed(g, pts, n)
    decreases n
  {
    if n > 1 {
      FastestIsFirst(g, pts, n - 1);
      MaxSpeedIsUpperBound(g, pts, n - 1);
      SpeedsHoldRecorded(g, pts, n - 1);
    }
  }

  /** Every recorded pair's speed is in the list. */
  lemma {:induction false} SpeedsHoldRecorded(g: Geodesy, pts: seq<ActivityPoint>, n: nat)
    requires n <= |pts|
    ensures forall i :: 1 <= i < n && Recorded(g, pts, i) ==> Speed(g, pts, i) in Speeds(g, pts, n)
    decreases n
  {
    if n > 1 {
      SpeedsHoldRecorded(g, pts, n - 1);
    }
  }

  /** The smallest of a non-empty sequence of speeds. */
  function MinOf(s: seq<real>): (r: real)
    requires |s| > 0
    ensures r in s && forall k :: 0 <= k < |s| ==> r <= s[k]
  {
    if |s| == 1 then s[0]
    else
      var m := MinOf(s[..|s| - 1]);
      assert forall k :: 0 <= k < |s| - 1 ==> s[..|s| - 1][k] == s[k];
      if s[|s| - 1] < m then s[|s| - 1] else m
  }

  /** c added |s| times, a linear stand-in for c * |s|. */
  function Times(n: nat, c: real): real {
    if n == 0 then 0.0 else Times(n - 1, c) + c
  }

  lemma {:induction false} TimesIsProduct(n: nat, c: real)
    ensures Times(n, c) == c * n as real
  {
    if n > 0 {
      TimesIsProduct(n - 1, c);
      assert c * n as real == c * (n - 1) as real + c;
    }
  }

  lemma {:induction false} SumBounds(s: seq<real>, lo: real, hi: real)
    requires forall k :: 0 <= k < |s| ==> lo <= s[k] <= hi
    ensures Times(|s|, lo) <= Sum(s) <= Times(|s|, hi)
    decreases |s|
  {
    if s != [] {
      var init := s[..|s| - 1];
      assert forall k :: 0 <= k < |init| ==> init[k] == s[k];
      SumBounds(init, lo, hi);
    }
  }

  /** A mean lies between any lower and upper bound of its elements. */
  lemma MeanBounds(s: seq<real>, lo: real, hi: real)
    requires |s| > 0 && forall k :: 0 <= k < |s| ==> lo <= s[k] <= hi
    ensures lo <= Mean(s).value <= hi
  {
    SumBounds(s, lo, hi);
    MeanOfSum(Sum(s), |s|, lo, hi);
  }

  lemma MeanOfSum(sum: real, n: nat, lo: real, hi: real)
    requires n > 0 && Times(n, lo) <= sum <= Times(n, hi)
    ensures lo <= sum / n as real <= hi
  {
    TimesIsProduct(n, lo);
    TimesIsProduct(n, hi);
    QuotientBounds(sum, n as real, lo, hi);
  }

  /**
   * The speed statistics of the returned object: every recorded speed lies
   * in (0, 100); `avgSpeed` is null exactly when none was recorded, and
   * otherwise lies between the slowest recorded speed and `maxSpeed`, so
   * strictly between 0 and 100 km/h; `maxSpeed` is 0 exactly when none was recorded.
   */
  lemma SpeedStatistics(g: Geodesy, pts: seq<ActivityPoint>)
    requires |pts| > 0
    ensures var m, s := ActivityMetricsOf(g, pts), Speeds(g, pts, |pts|);
      && (m.avgSpeed.None? <==> s == [])
      && (m.maxSpeed == 0.0 <==> s == [])
      && (m.fastestSegment.None? <==> s == [])
      && (m.avgSpeed.Some? ==> MinOf(s) <= m.avgSpeed.value <= m.maxSpeed && 0.0 < m.avgSpeed.value < 100.0)
      && 0.0 <= m.maxSpeed < 100.0
  {
    var s := Speeds(g, pts, |pts|);
    FastestFound(g, pts, |pts|);
    FastestListed(g, pts, |pts|);
    MaxSpeedIsUpperBound(g, pts, |pts|);
    if s != [] {
      MeanBounds(s, MinOf(s), MaxSpeed(g, pts, |pts|));
    }
  }

  /**
   * The walk over the first point only: a single point gives 0 km, no
   * moving time and no speeds, and starts and ends at its own time.
   */
  lemma SinglePoint(g: Geodesy, p: ActivityPoint)
    ensures var m := ActivityMetricsOf(g, [p]);
      && m.totalDistance == 0.0 && m.movingTime == 0.0 && m.maxSpeed == 0.0
      && m.avgSpeed.None? && m.startTime == p.time && m.endTime == p.time
      && m.hasElevation == p.ele.Some?
  {
    assert [p][0] == p;
  }

  /** The first point of two is never the highest: only the current point of a pair is a candidate. */
  lemma HighestSkipsFirstPoint(a: ActivityPoint, b: ActivityPoint)
    requires a.ele.Some? && b.ele.Some? && a.ele.value > b.ele.value
    ensures Highest([a, b], 2) == Some(1)
    ensures Descent([a, b], 2) == a.ele.value - b.ele.value && Ascent([a, b], 2) == 0.0
  {
    assert ElePair([a, b], 1);
  }

  // ---------------------------------------------------------------------
  // calculateElevationProfile (js/activity.js:294-319)

  /** One point of the profile chart. */
  datatype ProfileEntry = ProfileEntry(distance: real, elevation: real, lat: real, lng: real, time: TimeField)

  /** `cumulativeDistance` at point i, in km: each segment is divided by 1000 as it is added. */
  function CumulativeKm(g: Geodesy, pts: seq<ActivityPoint>, i: nat): real
    requires i < |pts|
  {
    if i == 0 then 0.0 else CumulativeKm(g, pts, i - 1) + SegDist(g, pts, i) / 1000.0
  }

  function EntryAt(g: Geodesy, pts: seq<ActivityPoint>, i: nat): ProfileEntry
    requires i < |pts| && pts[i].ele.Some?
  {
    ProfileEntry(CumulativeKm(g, pts, i), pts[i].ele.value, pts[i].lat, pts[i].lng, pts[i].time)
  }

  /** The indices of the points with an elevation, below n, in order. */
  function WithElevation(pts: seq<ActivityPoint>, n: nat): (r: seq<nat>)
    requires n <= |pts|
    ensures forall k :: 0 <= k < |r| ==> r[k] < n && pts[r[k]].ele.Some?
    ensures forall a, b :: 0 <= a < b < |r| ==> r[a] < r[b]
    ensures forall i :: 0 <= i < n && pts[i].ele.Some? ==> i in r
  {
    if n == 0 then []
    else WithElevation(pts, n - 1) + (if pts[n - 1].ele.Some? then [n - 1] else [])
  }

  /** The profile over the first n points. */
  function Profile(g: Geodesy, pts: seq<ActivityPoint>, n: nat): seq<ProfileEntry>
    requires n <= |pts|
  {
    if n == 0 then []
    else Profile(g, pts, n - 1) + (if pts[n - 1].ele.Some? then [EntryAt(g, pts, n - 1)] else [])
  }

  /** The source's loop: the running distance, and an entry pushed for each point with an elevation. */
  method CalculateElevationProfile(g: Geodesy, points: seq<ActivityPoint>) returns (profile: seq<ProfileEntry>)
    ensures profile == Profile(g, points, |points|)
  {
    profile := [];
    var cumulativeDistance := 0.0;
    var i := 0;
    while i < |points|
      invariant 0 <= i <= |points|
      invariant profile == Profile(g, points, i)
      invariant cumulativeDistance == if i == 0 then 0.0 else CumulativeKm(g, points, i - 1)
    {
      if i > 0 {
        cumulativeDistance := cumulativeDistance + SegDist(g, points, i) / 1000.0;
      }
      if points[i].ele.Some? {
        profile := profile + [ProfileEntry(cumulativeDistance, points[i].ele.value, points[i].lat, points[i].lng, points[i].time)];
      }
      i := i + 1;
    }
  }

  /** Entry k of the profile is the entry of the k-th point that has an elevation, and there is one per such point. */
  lemma {:induction false} ProfileIsPerElevatedPoint(g: Geodesy, pts: seq<ActivityPoint>, n: nat)
    requires n <= |pts|
    ensures |Profile(g, pts, n)| == |WithElevation(pts, n)|
    ensures forall k :: 0 <= k < |Profile(g, pts, n)| ==> Profile(g, pts, n)[k] == EntryAt(g, pts, WithElevation(pts, n)[k])
    decreases n
  {
    if n > 0 {
      ProfileIsPerElevatedPoint(g, pts, n - 1);
    }
  }

  /** With non-negative segment lengths the running distance never decreases. */
  lemma {:induction false} CumulativeMonotone(g: Geodesy, pts: seq<ActivityPoint>, i: nat, j: nat)
    requires ValidGeodesy(g) && i <= j < |pts|
    ensures CumulativeKm(g, pts, i) <= CumulativeKm(g, pts, j)
    decreases j
  {
    if i < j {
      CumulativeMonotone(g, pts, i, j - 1);
      assert SegDist(g, pts, j) >= 0.0;
    }
  }

  /** The profile's distances are non-decreasing along the chart. */
  lemma ProfileDistancesNonDecreasing(g: Geodesy, pts: seq<ActivityPoint>)
    requires ValidGeodesy(g)
    ensures var p := Profile(g, pts, |pts|);
      forall a, b :: 0 <= a < b < |p| ==> p[a].distance <= p[b].distance
  {
    var n := |pts|;
    ProfileIsPerElevatedPoint(g, pts, n);
    var p, w := Profile(g, pts, n), WithElevation(pts, n);
    forall a, b | 0 <= a < b < |p|
      ensures p[a].distance <= p[b].distance
    {
      CumulativeMonotone(g, pts, w[a], w[b]);
    }
  }

  /** The running distance at point i is the metrics' total over the first i + 1 points; at the last point it is totalDistance. */
  lemma {:induction false} CumulativeIsTotal(g: Geodesy, pts: seq<ActivityPoint>, i: nat)
    requires i < |pts|
    ensures CumulativeKm(g, pts, i) == TotalDist(g, pts, i + 1) / 1000.0
    decreases i
  {
    if i > 0 {
      CumulativeIsTotal(g, pts, i - 1);
    }
  }

  lemma ProfileEndsAtTotal(g: Geodesy, pts: seq<ActivityPoint>)
    requires |pts| > 0 && pts[|pts| - 1].ele.Some?
    ensures var p := Profile(g, pts, |pts|);
      |p| > 0 && p[|p| - 1].distance == ActivityMetricsOf(g, pts).totalDistance
  {
    CumulativeIsTotal(g, pts, |pts| - 1);
  }
}
