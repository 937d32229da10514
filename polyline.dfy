/**
 * Leaflet polyline extensions (js/map.js:17-43) and the route helpers of
 * js/weather.js built on them: the length of a polyline, the point reached
 * after travelling a given distance along it, and the summing loop of
 * computeTotalDistance. Distances are in metres; the distance between two
 * vertices is the abstract Geodesy.dist.
 */
module Polyline {
  import opened Common
  import opened Geo

  /** getDistance: the sum of the distances between consecutive vertices (0 below two vertices). */
  function Length(g: Geodesy, pts: seq<LatLng>): real {
    if |pts| < 2 then 0.0 else Length(g, pts[..|pts| - 1]) + g.dist(pts[|pts| - 2], pts[|pts| - 1])
  }

  /** Length of segment i, the one ending at vertex i. */
  function Segment(g: Geodesy, pts: seq<LatLng>, i: nat): real
    requires 1 <= i < |pts|
  {
    g.dist(pts[i - 1], pts[i])
  }

  /** Appending a vertex adds exactly the new segment. */
  lemma LengthSnoc(g: Geodesy, pts: seq<LatLng>, i: nat)
    requires 1 <= i < |pts|
    ensures Length(g, pts[..i + 1]) == Length(g, pts[..i]) + Segment(g, pts, i)
  {
    assert pts[..i + 1][..i] == pts[..i];
  }

  /** Distances are non-negative, so lengths are too. */
  lemma {:induction false} LengthNonNegative(g: Geodesy, pts: seq<LatLng>)
    requires ValidGeodesy(g)
    ensures Length(g, pts) >= 0.0
    decreases |pts|
  {
    if |pts| >= 2 {
      LengthNonNegative(g, pts[..|pts| - 1]);
    }
  }

  /** A polyline is never shorter than any of its prefixes. */
  lemma {:induction false} LengthMonotone(g: Geodesy, pts: seq<LatLng>, i: nat)
    requires ValidGeodesy(g) && i <= |pts|
    ensures 0.0 <= Length(g, pts[..i]) <= Length(g, pts)
    decreases |pts| - i
  {
    LengthNonNegative(g, pts[..i]);
    if i == |pts| {
      assert pts[..i] == pts;
    } else {
      LengthMonotone(g, pts, i + 1);
      if i >= 1 {
        LengthSnoc(g, pts, i);
      }
    }
  }

  /**
   * computeTotalDistance (js/weather.js:503-514): the summing loop over
   * consecutive vertices. It agrees with the polyline's getDistance.
   */
  method ComputeTotalDistance(g: Geodesy, pts: seq<LatLng>) returns (total: real)
    ensures total == Length(g, pts)
  {
    total := 0.0;
    if |pts| < 2 {
      return;
    }
    var i := 1;
    while i < |pts|
      invariant 1 <= i <= |pts|
      invariant total == Length(g, pts[..i])
    {
      LengthSnoc(g, pts, i);
      total := total + g.dist(pts[i - 1], pts[i]);
      i := i + 1;
    }
    assert pts[..i] == pts;
  }

  // ---------------------------------------------------------------------
  // getPointAtDistance (js/map.js:22-42)

  /** Segments this short are never interpolated on (division guard in the loop). */
  const MinSegment: real := 0.000000001

  /** Segment i is where the walk stops: it is longer than 1e-9 and reaches the target. */
  predicate Reaches(g: Geodesy, pts: seq<LatLng>, target: real, i: nat)
    requires 1 <= i < |pts|
  {
    Segment(g, pts, i) > MinSegment && Length(g, pts[..i]) + Segment(g, pts, i) >= target
  }

  /** The first segment at or after `from` that reaches the target, scanning forwards. */
  function FirstReaching(g: Geodesy, pts: seq<LatLng>, target: real, from: nat): (r: Option<nat>)
    requires from >= 1
    ensures r.Some? ==> from <= r.value < |pts| && Reaches(g, pts, target, r.value)
    decreases |pts| - from
  {
    if from >= |pts| then None
    else if Reaches(g, pts, target, from) then Some(from)
    else FirstReaching(g, pts, target, from + 1)
  }

  /** `a + f * (b - a)`, coordinate by coordinate. */
  function Lerp(a: LatLng, b: LatLng, f: real): LatLng {
    LatLng(a.lat + f * (b.lat - a.lat), a.lng + f * (b.lng - a.lng))
  }

  /** The fraction of segment i still to travel to reach the target. */
  function Fraction(g: Geodesy, pts: seq<LatLng>, target: real, i: nat): real
    requires 1 <= i < |pts| && Segment(g, pts, i) > MinSegment
  {
    (target - Length(g, pts[..i])) / Segment(g, pts, i)
  }

  /** What getPointAtDistance returns; None stands for null. */
  function PointAtDistance(g: Geodesy, pts: seq<LatLng>, target: real): Option<LatLng> {
    if |pts| == 0 then None
    else if target <= 0.0 then Some(pts[0])
    else if target >= Length(g, pts) then Some(pts[|pts| - 1])
    else match FirstReaching(g, pts, target, 1)
      case Some(i) => Some(Lerp(pts[i - 1], pts[i], Fraction(g, pts, target, i)))
      case None => Some(pts[|pts| - 1])
  }

  /** The loop of getPointAtDistance, accumulating the distance walked so far. */
  method GetPointAtDistance(g: Geodesy, pts: seq<LatLng>, target: real) returns (r: Option<LatLng>)
    ensures r == PointAtDistance(g, pts, target)
  {
    var dist := 0.0;
    if |pts| == 0 {
      return None;
    }
    if target <= 0.0 {
      return Some(pts[0]);
    }
    var totalDist := Length(g, pts);
    if target >= totalDist {
      return Some(pts[|pts| - 1]);
    }
    var i := 1;
    assert pts[..1] == [pts[0]];
    while i < |pts|
      invariant 1 <= i <= |pts|
      invariant dist == Length(g, pts[..i])
      invariant FirstReaching(g, pts, target, 1) == FirstReaching(g, pts, target, i)
    {
      var segment := g.dist(pts[i - 1], pts[i]);
      if segment > MinSegment && dist + segment >= target {
        var frac := (target - dist) / segment;
        return Some(Lerp(pts[i - 1], pts[i], frac));
      }
      LengthSnoc(g, pts, i);
      dist := dist + segment;
      i := i + 1;
    }
    return Some(pts[|pts| - 1]);
  }

  /** The scan result is the first reaching segment: none before it reaches. */
  lemma {:induction false} FirstReachingIsFirst(g: Geodesy, pts: seq<LatLng>, target: real, from: nat)
    requires from >= 1
    ensures FirstReaching(g, pts, target, from).None? ==>
      forall j :: from <= j < |pts| ==> !Reaches(g, pts, target, j)
    ensures FirstReaching(g, pts, target, from).Some? ==>
      var i := FirstReaching(g, pts, target, from).value;
      from <= i < |pts| && Reaches(g, pts, target, i) &&
      forall j :: from <= j < i ==> !Reaches(g, pts, target, j)
    decreases |pts| - from
  {
    if from < |pts| && !Reaches(g, pts, target, from) {
      FirstReachingIsFirst(g, pts, target, from + 1);
    }
  }

  /**
   * Strictly inside the route, the result is the interpolation on the first
   * segment longer than 1e-9 whose end reaches the target, at a fraction of
   * at most 1 that puts the point exactly `target` metres along the route;
   * when no segment qualifies it is the last vertex.
   */
  lemma PointAtDistanceInside(g: Geodesy, pts: seq<LatLng>, target: real)
    requires |pts| > 0 && 0.0 < target < Length(g, pts)
    ensures FirstReaching(g, pts, target, 1).None? ==>
      && PointAtDistance(g, pts, target) == Some(pts[|pts| - 1])
      && forall j :: 1 <= j < |pts| ==> !Reaches(g, pts, target, j)
    ensures FirstReaching(g, pts, target, 1).Some? ==>
      var i := FirstReaching(g, pts, target, 1).value;
      var f := Fraction(g, pts, target, i);
      && 1 <= i < |pts| && Segment(g, pts, i) > MinSegment
      && (forall j :: 1 <= j < i ==> !Reaches(g, pts, target, j))
      && f <= 1.0
      && Length(g, pts[..i]) + f * Segment(g, pts, i) == target
      && PointAtDistance(g, pts, target) == Some(Lerp(pts[i - 1], pts[i], f))
  {
    FirstReachingIsFirst(g, pts, target, 1);
  }

  /**
   * On a route with no segment of 1e-9 or less the fallback is never taken:
   * the point is interpolated at a fraction in (0, 1].
   */
  lemma PointAtDistanceNoFallback(g: Geodesy, pts: seq<LatLng>, target: real)
    requires |pts| >= 2 && 0.0 < target < Length(g, pts)
    requires forall j :: 1 <= j < |pts| ==> Segment(g, pts, j) > MinSegment
    ensures FirstReaching(g, pts, target, 1).Some?
    ensures 0.0 < Fraction(g, pts, target, FirstReaching(g, pts, target, 1).value) <= 1.0
  {
    LastSegmentReaches(g, pts, target);
    FirstReachingIsFirst(g, pts, target, 1);
    var i := FirstReaching(g, pts, target, 1).value;
    StartBeforeTarget(g, pts, target, i);
    QuotientInUnit(target - Length(g, pts[..i]), Segment(g, pts, i));
  }

  lemma QuotientInUnit(num: real, den: real)
    requires 0.0 < num <= den
    ensures 0.0 < num / den <= 1.0
  {
    var q := num / den;
    if q > 1.0 {
      ProductPositive(q - 1.0, den);
      assert false;
    }
  }

  /** With every segment longer than 1e-9, the last segment reaches any target below the length. */
  lemma LastSegmentReaches(g: Geodesy, pts: seq<LatLng>, target: real)
    requires |pts| >= 2 && target < Length(g, pts)
    requires Segment(g, pts, |pts| - 1) > MinSegment
    ensures Reaches(g, pts, target, |pts| - 1)
  {
    var n := |pts|;
    assert pts[..n] == pts;
    LengthSnoc(g, pts, n - 1);
  }

  /** The segment the scan stops on starts strictly before the target. */
  lemma StartBeforeTarget(g: Geodesy, pts: seq<LatLng>, target: real, i: nat)
    requires 0.0 < target && 1 <= i < |pts|
    requires i > 1 ==> Segment(g, pts, i - 1) > MinSegment && !Reaches(g, pts, target, i - 1)
    ensures Length(g, pts[..i]) < target
  {
    if i > 1 {
      LengthSnoc(g, pts, i - 1);
    }
  }

  /**
   * getPointAtDistanceFromRoute (js/weather.js:516-523): null for fewer than
   * two points or a negative target, the first point at 0, the last point
   * from the total length on, otherwise the polyline's getPointAtDistance.
   */
  function PointAtDistanceFromRoute(g: Geodesy, pts: seq<LatLng>, target: real): Option<LatLng> {
    if |pts| < 2 || target < 0.0 then None
    else if target == 0.0 then Some(pts[0])
    else if target >= Length(g, pts) then Some(pts[|pts| - 1])
    else PointAtDistance(g, pts, target)
  }

  /**
   * The route helper adds nothing but its null cases: on a route of two or
   * more points and a target of at least 0 it is the polyline's answer; it
   * maps 0 to the first point and the total length to the last.
   */
  lemma PointAtDistanceFromRouteAgrees(g: Geodesy, pts: seq<LatLng>, target: real)
    ensures PointAtDistanceFromRoute(g, pts, target).None? <==> |pts| < 2 || target < 0.0
    ensures |pts| >= 2 && target >= 0.0 ==>
      PointAtDistanceFromRoute(g, pts, target) == PointAtDistance(g, pts, target)
    ensures |pts| >= 2 ==> PointAtDistanceFromRoute(g, pts, 0.0) == Some(pts[0])
    ensures |pts| >= 2 && Length(g, pts) > 0.0 ==>
      PointAtDistanceFromRoute(g, pts, Length(g, pts)) == Some(pts[|pts| - 1])
  {
    if |pts| >= 2 && 0.0 < target < Length(g, pts) {
      PointAtDistanceInside(g, pts, target);
    }
  }
}
