/**
 * The recorded-activity analysis of js/activity.js that does not draw: the
 * point filter of parseActivityGPX, the stride sampling of
 * sampleRoutePoints, the hourly-weather lookup of findClosestWeatherData
 * and the tailwind score of calculateActivityTailwindScore.
 *
 * Instants are epoch milliseconds. The historical-weather response of each
 * sample is an input (None when the fetch failed or carried no `hourly`).
 */
module Activity {
  import opened Common
  import opened Geo
  import opened Tailwind

  /** A point's `time`: null, an invalid Date (truthy, but its instant is NaN), or a valid instant. */
  datatype TimeField = NoTime | InvalidTime | At(ms: int)

  /** A point as read from a trkpt or rtept element: coordinates from parseFloat, so possibly NaN. */
  datatype RawPoint = RawPoint(lat: JsNumber, lng: JsNumber, ele: Option<real>, time: TimeField)

  /** A point that passed the filter. */
  datatype ActivityPoint = ActivityPoint(lat: real, lng: real, ele: Option<real>, time: TimeField)

  function Position(p: ActivityPoint): LatLng {
    LatLng(p.lat, p.lng)
  }

  // ---------------------------------------------------------------------
  // The point filter of parseActivityGPX (js/activity.js:87-121)

  /** Both coordinates are numbers, the latitude in [-90, 90] and the longitude in [-180, 180]. */
  predicate ValidCoords(p: RawPoint) {
    && p.lat.Num? && p.lng.Num?
    && -90.0 <= p.lat.value <= 90.0
    && -180.0 <= p.lng.value <= 180.0
  }

  function Accepted(p: RawPoint): ActivityPoint
    requires ValidCoords(p)
  {
    ActivityPoint(p.lat.value, p.lng.value, p.ele, p.time)
  }

  /** `points.filter(...)`: the points with valid coordinates, in their original order. */
  function ValidPoints(raw: seq<RawPoint>): (r: seq<ActivityPoint>)
    ensures |r| <= |raw|
    ensures forall k :: 0 <= k < |r| ==> -90.0 <= r[k].lat <= 90.0 && -180.0 <= r[k].lng <= 180.0
    ensures (forall k :: 0 <= k < |raw| ==> ValidCoords(raw[k])) ==> |r| == |raw|
  {
    if raw == [] then []
    else (if ValidCoords(raw[0]) then [Accepted(raw[0])] else []) + ValidPoints(raw[1..])
  }

  /** The message of the Error thrown for fewer than two valid points. */
  const TooFewPoints: string := "Activity file needs at least two valid points with coordinates."

  /**
   * Track points when there are any, route points otherwise; then the
   * filter, and an Error when fewer than two points survive.
   */
  function ParseActivityPoints(trkpts: seq<RawPoint>, rtepts: seq<RawPoint>): (r: Result<seq<ActivityPoint>>)
    ensures r.Err? <==> |ValidPoints(if |trkpts| > 0 then trkpts else rtepts)| < 2
    ensures r.Err? ==> r.message == TooFewPoints
    ensures r.Ok? ==> |r.value| >= 2 && r.value == ValidPoints(if |trkpts| > 0 then trkpts else rtepts)
  {
    var points := if |trkpts| > 0 then trkpts else rtepts;
    var valid := ValidPoints(points);
    if |valid| < 2 then Err(TooFewPoints) else Ok(valid)
  }

  /** The filter only drops points: on two pieces of a file it gives the pieces' results in order. */
  lemma {:induction false} ValidPointsAppend(a: seq<RawPoint>, b: seq<RawPoint>)
    ensures ValidPoints(a + b) == ValidPoints(a) + ValidPoints(b)
    decreases |a|
  {
    if a == [] {
      assert a + b == b;
    } else {
      assert (a + b)[1..] == a[1..] + b;
      ValidPointsAppend(a[1..], b);
    }
  }

  /** A point with a NaN or out-of-range coordinate never survives; a valid one survives as it is. */
  lemma ValidPointsSingle(p: RawPoint)
    ensures !ValidCoords(p) ==> ValidPoints([p]) == []
    ensures ValidCoords(p) ==> ValidPoints([p]) == [ActivityPoint(p.lat.value, p.lng.value, p.ele, p.time)]
  {
    assert [p][1..] == [];
  }

  /** When a file has track points its route points are never looked at. */
  lemma TrackPointsFirst(trkpts: seq<RawPoint>, rtepts: seq<RawPoint>, other: seq<RawPoint>)
    requires |trkpts| > 0
    ensures ParseActivityPoints(trkpts, rtepts) == ParseActivityPoints(trkpts, other)
  {
  }

  // ---------------------------------------------------------------------
  // sampleRoutePoints (js/activity.js:521-536)

  /** `p.time` is truthy: any Date, even an invalid one. */
  predicate HasTime(p: ActivityPoint) {
    !p.time.NoTime?
  }

  /** The timed points at indices i, i + stride, i + 2 stride, ... below |pts|. */
  function Strided(pts: seq<ActivityPoint>, stride: nat, i: nat): (r: seq<nat>)
    requires stride > 0
    ensures forall k :: 0 <= k < |r| ==> i <= r[k] < |pts| && HasTime(pts[r[k]])
    ensures forall a, b :: 0 <= a < b < |r| ==> r[a] < r[b]
    decreases |pts| - i
  {
    if i >= |pts| then []
    else (if HasTime(pts[i]) then [i] else []) + Strided(pts, stride, i + stride)
  }

  /** The stride of the sampling: 1 (every point) up to maxSamples points, floor(n / maxSamples) beyond. */
  function SampleStride(n: nat, maxSamples: nat): (s: nat)
    requires maxSamples > 0
    ensures s > 0
  {
    if n <= maxSamples then 1 else n / maxSamples
  }

  /** The indices of the points sampleRoutePoints returns. */
  function SampledIndices(pts: seq<ActivityPoint>, maxSamples: nat): seq<nat>
    requires maxSamples > 0
  {
    Strided(pts, SampleStride(|pts|, maxSamples), 0)
  }

  /**
   * sampleRoutePoints: up to maxSamples points the timed ones (the filter);
   * beyond, the for loop stepping by floor(n / maxSamples) that keeps the
   * timed points it lands on. Points are returned by their index.
   */
  method SampleRoutePoints(pts: seq<ActivityPoint>, maxSamples: nat) returns (sampled: seq<nat>)
    requires maxSamples > 0
    ensures sampled == SampledIndices(pts, maxSamples)
  {
    if |pts| <= maxSamples {
      return Strided(pts, 1, 0);
    }
    sampled := [];
    var interval := |pts| / maxSamples;
    var i := 0;
    while i < |pts|
      invariant sampled + Strided(pts, interval, i) == Strided(pts, interval, 0)
      decreases |pts| - i
    {
      if HasTime(pts[i]) {
        sampled := sampled + [i];
      }
      i := i + interval;
    }
  }

  /** Index k lies on the stride from i exactly when it is i or lies on the stride from i + stride. */
  lemma StrideStep(k: int, i: int, stride: nat)
    requires stride > 0 && i <= k
    ensures (k - i) % stride == 0 <==> k == i || (k >= i + stride && (k - (i + stride)) % stride == 0)
  {
    if k >= i + stride {
      var x := k - (i + stride);
      ModUnique(k - i, stride, x / stride + 1, x % stride);
    } else {
      ModUnique(k - i, stride, 0, k - i);
    }
  }

  /** Index k is among the strided indices from i exactly when it is timed and a multiple of the stride past i. */
  lemma {:induction false} StridedMember(pts: seq<ActivityPoint>, stride: nat, i: nat, k: int)
    requires stride > 0
    ensures k in Strided(pts, stride, i) <==> i <= k < |pts| && (k - i) % stride == 0 && HasTime(pts[k])
    decreases |pts| - i
  {
    if i < |pts| {
      StridedMember(pts, stride, i + stride, k);
      if i <= k {
        StrideStep(k, i, stride);
      }
    }
  }

  /**
   * Up to maxSamples points, the result is exactly the timed points in
   * order; beyond, it is exactly the timed points whose index is a
   * multiple of floor(n / maxSamples).
   */
  lemma SampledIndicesSpec(pts: seq<ActivityPoint>, maxSamples: nat)
    requires maxSamples > 0
    ensures var r := SampledIndices(pts, maxSamples);
      && (forall a, b :: 0 <= a < b < |r| ==> r[a] < r[b])
      && (forall k :: k in r <==> 0 <= k < |pts| && k % SampleStride(|pts|, maxSamples) == 0 && HasTime(pts[k]))
  {
    var r, stride := SampledIndices(pts, maxSamples), SampleStride(|pts|, maxSamples);
    forall k
      ensures k in r <==> 0 <= k < |pts| && k % stride == 0 && HasTime(pts[k])
    {
      StridedMember(pts, stride, 0, k);
    }
  }

  /** With every point timed and stride 1, the sample is every index from i on. */
  lemma {:induction false} StridedAll(pts: seq<ActivityPoint>, i: nat)
    requires i <= |pts| && forall k :: 0 <= k < |pts| ==> HasTime(pts[k])
    ensures Strided(pts, 1, i) == seq(|pts| - i, k requires 0 <= k < |pts| - i => i + k)
    decreases |pts| - i
  {
    if i < |pts| {
      StridedAll(pts, i + 1);
    }
  }

  /** The cap is not a bound: 11 timed points with at most 6 samples keep all 11 (the stride is 1). */
  lemma SampleKeepsEleven(pts: seq<ActivityPoint>)
    requires |pts| == 11 && forall k :: 0 <= k < |pts| ==> HasTime(pts[k])
    ensures |SampledIndices(pts, 6)| == 11
  {
    assert SampleStride(11, 6) == 1;
    StridedAll(pts, 0);
  }

  // ---------------------------------------------------------------------
  // findClosestWeatherData (js/activity.js:538-566)

  /** An entry of an hourly array: beyond its end (undefined), null, or a number. */
  datatype Cell = Absent | Null | Value(v: real)

  /** `hourlyData`: its time strings as instants (None: an unparseable string) and the parallel arrays. */
  datatype Hourly = Hourly(
    time: Option<seq<Option<int>>>,
    temperature: seq<Cell>,
    humidity: seq<Cell>,
    windSpeed: seq<Cell>,
    windDirection: seq<Cell>,
    precipitation: seq<Cell>)

  /** `arr[i]`. */
  function CellAt(a: seq<Cell>, i: nat): Cell {
    if i < |a| then a[i] else Absent
  }

  /** The returned record; `time` is the instant of the chosen entry. */
  datatype WeatherAt = WeatherAt(
    temperature: Cell, humidity: Cell, windSpeed: Cell,
    windDirection: Cell, precipitation: Cell, time: Option<int>)

  /** Hourly data more than 3 h from the point is rejected. */
  const HourlyTolerance: int := 3 * 60 * 60 * 1000

  function Abs(x: int): nat { if x < 0 then -x else x }

  /** `Math.abs(weatherTime - targetTimestamp)`; None when either instant is NaN. */
  function Diff(t: Option<int>, target: Option<int>): Option<nat> {
    if t.Some? && target.Some? then Some(Abs(t.value - target.value)) else None
  }

  /**
   * The loop over the first n entries: the index kept and the smallest
   * difference seen (None while it is still Infinity). An entry replaces
   * the kept one only when strictly closer; a NaN difference never does.
   */
  function Scan(times: seq<Option<int>>, target: Option<int>, n: nat): (r: (nat, Option<nat>))
    requires n <= |times|
    ensures r.1.None? ==> r.0 == 0
    ensures r.1.Some? ==> r.0 < n && Diff(times[r.0], target) == r.1
    decreases n
  {
    if n == 0 then (0, None)
    else
      var prev := Scan(times, target, n - 1);
      var d := Diff(times[n - 1], target);
      if d.Some? && (prev.1.None? || d.value < prev.1.value) then (n - 1, d) else prev
  }

  /** The record built from index i of every array. */
  function RecordAt(h: Hourly, i: nat): WeatherAt
    requires h.time.Some? && i < |h.time.value|
  {
    WeatherAt(CellAt(h.temperature, i), CellAt(h.humidity, i), CellAt(h.windSpeed, i),
              CellAt(h.windDirection, i), CellAt(h.precipitation, i), h.time.value[i])
  }

  function Instant(t: TimeField): Option<int> {
    if t.At? then Some(t.ms) else None
  }

  /** findClosestWeatherData: null without times or target, or when the closest entry is over 3 h away. */
  function FindClosest(h: Hourly, target: TimeField): Option<WeatherAt> {
    if h.time.None? || target.NoTime? then None
    else
      var r := Scan(h.time.value, Instant(target), |h.time.value|);
      if r.1.None? || r.1.value > HourlyTolerance then None
      else Some(RecordAt(h, r.0))
  }

  /** The source's loop, keeping closestIndex and minDiff. */
  method FindClosestWeatherData(h: Hourly, target: TimeField) returns (r: Option<WeatherAt>)
    ensures r == FindClosest(h, target)
  {
    if h.time.None? || target.NoTime? {
      return None;
    }
    var times := h.time.value;
    var targetTimestamp := Instant(target);
    var closestIndex: nat := 0;
    var minDiff: Option<nat> := None;
    var i := 0;
    while i < |times|
      invariant 0 <= i <= |times|
      invariant (closestIndex, minDiff) == Scan(times, targetTimestamp, i)
    {
      var diff := Diff(times[i], targetTimestamp);
      if diff.Some? && (minDiff.None? || diff.value < minDiff.value) {
        minDiff := diff;
        closestIndex := i;
      }
      i := i + 1;
    }
    if minDiff.None? || minDiff.value > HourlyTolerance {
      return None;
    }
    return Some(RecordAt(h, closestIndex));
  }

  /**
   * The scan finds the first entry of smallest difference: no entry is
   * closer, every earlier entry is strictly further, and an entry is found
   * exactly when some difference is a number.
   */
  lemma {:induction false} ScanIsFirstMinimum(times: seq<Option<int>>, target: Option<int>, n: nat)
    requires n <= |times|
    ensures var r := Scan(times, target, n);
      && (r.1.Some? <==> exists j :: 0 <= j < n && Diff(times[j], target).Some?)
      && (r.1.Some? ==> forall j :: 0 <= j < n && Diff(times[j], target).Some? ==>
            r.1.value <= Diff(times[j], target).value)
      && (r.1.Some? ==> forall j :: 0 <= j < r.0 && Diff(times[j], target).Some? ==>
            r.1.value < Diff(times[j], target).value)
    decreases n
  {
    if n > 0 {
      ScanIsFirstMinimum(times, target, n - 1);
    }
  }

  /** The index the scan keeps over all the hourly times. */
  function ClosestIndex(h: Hourly, target: TimeField): nat
    requires h.time.Some?
  {
    Scan(h.time.value, Instant(target), |h.time.value|).0
  }

  /**
   * The lookup succeeds exactly when there are times, a valid target and an
   * entry within 3 h (exactly 3 h is accepted).
   */
  lemma FindClosestFound(h: Hourly, target: TimeField)
    ensures FindClosest(h, target).Some? <==>
      && h.time.Some? && target.At?
      && exists j :: 0 <= j < |h.time.value| && h.time.value[j].Some? &&
           Abs(h.time.value[j].value - target.ms) <= HourlyTolerance
  {
    if h.time.Some? && target.At? {
      var times := h.time.value;
      ScanIsFirstMinimum(times, Instant(target), |times|);
      var r := Scan(times, Instant(target), |times|);
      if exists j :: 0 <= j < |times| && times[j].Some? && Abs(times[j].value - target.ms) <= HourlyTolerance {
        var j :| 0 <= j < |times| && times[j].Some? && Abs(times[j].value - target.ms) <= HourlyTolerance;
        assert Diff(times[j], Instant(target)).Some?;
      }
      if r.1.Some? {
        assert Diff(times[r.0], Instant(target)).Some?;
      }
    }
  }

  /**
   * A found record takes every field from one index: the first entry whose
   * time is closest to the target (no entry is closer, every earlier one is
   * strictly further).
   */
  lemma FindClosestNearest(h: Hourly, target: TimeField)
    requires FindClosest(h, target).Some?
    ensures && h.time.Some? && target.At?
      && var times, i := h.time.value, ClosestIndex(h, target);
      && i < |times| && times[i].Some?
      && FindClosest(h, target).value == RecordAt(h, i)
      && (forall j :: 0 <= j < |times| && times[j].Some? ==>
            Abs(times[i].value - target.ms) <= Abs(times[j].value - target.ms))
      && (forall j :: 0 <= j < i && times[j].Some? ==>
            Abs(times[i].value - target.ms) < Abs(times[j].value - target.ms))
  {
    var times := h.time.value;
    ScanIsFirstMinimum(times, Instant(target), |times|);
    var i := ClosestIndex(h, target);
    assert Diff(times[i], Instant(target)).Some?;
    forall j | 0 <= j < |times| && times[j].Some?
      ensures Abs(times[i].value - target.ms) <= Abs(times[j].value - target.ms)
    {
      assert Diff(times[j], Instant(target)).Some?;
    }
    forall j | 0 <= j < i && times[j].Some?
      ensures Abs(times[i].value - target.ms) < Abs(times[j].value - target.ms)
    {
      assert Diff(times[j], Instant(target)).Some?;
    }
  }

  /** Exactly 3 h away is accepted; one millisecond more is rejected. */
  lemma HourlyToleranceBoundary(h: Hourly, t: int)
    requires h.time == Some([Some(t + 10800000)])
    ensures FindClosest(h, At(t)).Some?
    ensures FindClosest(h, At(t - 1)).None?
  {
  }

  // ---------------------------------------------------------------------
  // calculateActivityTailwindScore (js/activity.js:361-425)

  /** The samples taken along a recorded route. */
  const ActivitySamples: nat := 6

  /** `Math.min(index + 10, points.length - 1)`: the look-ahead point for the bearing. */
  function LookAhead(n: nat, i: nat): (j: nat)
    requires i < n
    ensures i <= j < n
  {
    if i + 10 < n - 1 then i + 10 else n - 1
  }

  /** A truthy wind speed: a number other than 0. */
  predicate TruthyCell(c: Cell) {
    c.Value? && c.v != 0.0
  }

  /** A null wind direction passes the `!== undefined` test and counts as 0 in the subtraction. */
  function Direction(c: Cell): real
    requires !c.Absent?
  {
    if c.Value? then c.v else 0.0
  }

  /**
   * The outcome of the sample at point i: None when the point has no
   * valid time (an invalid Date makes toISOString throw, which is caught),
   * when no weather or no record within 3 h came back, when the wind speed
   * is falsy or the direction undefined, or when the look-ahead point
   * shares the latitude or the longitude; otherwise the tailwind component.
   */
  function SampleOutcome(g: Geodesy, pts: seq<ActivityPoint>, i: nat, weather: Option<Hourly>): Option<real>
    requires ValidGeodesy(g) && i < |pts|
  {
    var p := pts[i];
    if !p.time.At? || weather.None? then None
    else match FindClosest(weather.value, p.time)
      case None => None
      case Some(w) =>
        if !TruthyCell(w.windSpeed) || w.windDirection.Absent? then None
        else
          var next := pts[LookAhead(|pts|, i)];
          if next.lat == p.lat || next.lng == p.lng then None
          else Some(Component(g, w.windSpeed.v, Direction(w.windDirection), Bearing(g, Position(p), Position(next))))
  }

  /** The weather fetched for the k-th sample; None beyond the responses given. */
  function WeatherFor(weather: seq<Option<Hourly>>, k: nat): Option<Hourly> {
    if k < |weather| then weather[k] else None
  }

  /** The outcomes of the sampled points, in sample order. */
  function Outcomes(g: Geodesy, pts: seq<ActivityPoint>, samples: seq<nat>, weather: seq<Option<Hourly>>): (rs: seq<Option<real>>)
    requires ValidGeodesy(g) && forall k :: 0 <= k < |samples| ==> samples[k] < |pts|
    ensures |rs| == |samples|
    ensures forall k :: 0 <= k < |rs| ==> rs[k] == SampleOutcome(g, pts, samples[k], WeatherFor(weather, k))
  {
    seq(|samples|, k requires 0 <= k < |samples| => SampleOutcome(g, pts, samples[k], WeatherFor(weather, k)))
  }

  lemma SampledInRange(pts: seq<ActivityPoint>)
    ensures forall k :: 0 <= k < |SampledIndices(pts, ActivitySamples)| ==> SampledIndices(pts, ActivitySamples)[k] < |pts|
  {
  }

  /** The score: 0 below two points, otherwise the mean of the surviving components. */
  function ActivityTailwindScore(g: Geodesy, pts: seq<ActivityPoint>, weather: seq<Option<Hourly>>): real
    requires ValidGeodesy(g)
  {
    if |pts| < 2 then 0.0
    else
      SampledInRange(pts);
      MeanOfValid(Outcomes(g, pts, SampledIndices(pts, ActivitySamples), weather))
  }

  /** One sample as the source computes it, with the angle-wrap loops. */
  method SampleTailwind(g: Geodesy, pts: seq<ActivityPoint>, i: nat, weather: Option<Hourly>) returns (c: Option<real>)
    requires ValidGeodesy(g) && i < |pts|
    ensures c == SampleOutcome(g, pts, i, weather)
  {
    var point := pts[i];
    if !point.time.At? || weather.None? {
      return None;
    }
    var pointWeather := FindClosestWeatherData(weather.value, point.time);
    if pointWeather.None? || !TruthyCell(pointWeather.value.windSpeed) || pointWeather.value.windDirection.Absent? {
      return None;
    }
    var nextPoint := pts[LookAhead(|pts|, i)];
    if nextPoint.lat == point.lat || nextPoint.lng == point.lng {
      return None;
    }
    var bearing := Bearing(g, Position(point), Position(nextPoint));
    var w := pointWeather.value;
    var component := ComputeComponent(g, w.windSpeed.v, Direction(w.windDirection), bearing);
    return Some(component);
  }

  /** calculateActivityTailwindScore: the guard, the sampling, one outcome per sample, the forEach. */
  method CalculateActivityTailwindScore(g: Geodesy, pts: seq<ActivityPoint>, weather: seq<Option<Hourly>>)
    returns (score: real)
    requires ValidGeodesy(g)
    ensures score == ActivityTailwindScore(g, pts, weather)
  {
    if |pts| < 2 {
      return 0.0;
    }
    var samples := SampleRoutePoints(pts, ActivitySamples);
    SampledInRange(pts);
    var results: seq<Option<real>> := [];
    var k := 0;
    while k < |samples|
      invariant 0 <= k <= |samples|
      invariant results == Outcomes(g, pts, samples, weather)[..k]
    {
      var c := SampleTailwind(g, pts, samples[k], WeatherFor(weather, k));
      results := results + [c];
      k := k + 1;
    }
    assert results == Outcomes(g, pts, samples, weather);
    score := Aggregate(results);
  }

  /** The last point is its own look-ahead, so its sample is always dropped. */
  lemma LastPointDropped(g: Geodesy, pts: seq<ActivityPoint>, weather: Option<Hourly>)
    requires ValidGeodesy(g) && |pts| > 0
    ensures SampleOutcome(g, pts, |pts| - 1, weather).None?
  {
  }

  /**
   * A sample survives only if its point has a valid time, weather came
   * back with a record within 3 h whose wind speed is a number other than
   * 0, and its look-ahead point differs in both latitude and longitude.
   */
  lemma SampleSurvives(g: Geodesy, pts: seq<ActivityPoint>, i: nat, weather: Option<Hourly>)
    requires ValidGeodesy(g) && i < |pts|
    ensures SampleOutcome(g, pts, i, weather).Some? ==>
      && pts[i].time.At? && weather.Some?
      && FindClosest(weather.value, pts[i].time).Some?
      && TruthyCell(FindClosest(weather.value, pts[i].time).value.windSpeed)
      && pts[LookAhead(|pts|, i)].lat != pts[i].lat
      && pts[LookAhead(|pts|, i)].lng != pts[i].lng
  {
  }

  /** Fewer than two points, or no weather for any sample: the score is 0. */
  lemma ActivityScoreZero(g: Geodesy, pts: seq<ActivityPoint>, weather: seq<Option<Hourly>>)
    requires ValidGeodesy(g)
    requires |pts| < 2 || forall k :: 0 <= k < |weather| ==> weather[k].None?
    ensures ActivityTailwindScore(g, pts, weather) == 0.0
  {
    if |pts| >= 2 {
      SampledInRange(pts);
      var rs := Outcomes(g, pts, SampledIndices(pts, ActivitySamples), weather);
      assert forall k :: 0 <= k < |rs| ==> rs[k].None?;
    }
  }
}
