/**
 * Route planning in js/weather.js: the forecast entry nearest to an
 * estimated passing time, the tailwind score of computeTailwindScore, the
 * evenly spaced weather-marker distances of analyzeRoute and the ranking of
 * random candidate routes in bestRandomRouteGenerator.
 *
 * Times: the departure is an epoch instant in ms, forecast entries carry
 * `dt` in epoch seconds. An invalid Date is None.
 */
module Planning {
  import opened Common
  import opened Geo
  import opened Polyline
  import opened Tailwind

  /** One entry of an OpenWeather forecast list; a wind field that is not a number is None. */
  datatype ForecastEntry = ForecastEntry(dt: int, windSpeed: Option<real>, windDeg: Option<real>)

  /** Forecasts further than 3 h 30 min from the sample time are rejected. */
  const Tolerance: int := 3 * 3600 + 1800

  /** Date's time clip: instants beyond 8.64e15 ms make an invalid Date. */
  const MaxTime: real := 8640000000000000.0

  function Abs(x: int): nat { if x < 0 then -x else x }

  function Gap(e: ForecastEntry, ts: int): nat { Abs(e.dt - ts) }

  /**
   * `new Date(ms)`: the instant truncated towards zero, or an invalid Date
   * (None) outside the representable range.
   */
  function ClipTime(t: real): (r: Option<int>)
    ensures r.Some? <==> -MaxTime <= t <= MaxTime
    ensures r.Some? ==> r.value as real <= t < r.value as real + 1.0 || r.value as real - 1.0 < t <= r.value as real
  {
    if t < -MaxTime || t > MaxTime then None else Some(Trunc(t))
  }

  /**
   * sampleTimestamp: the epoch second of the estimated passing time at
   * `target` metres at `avgSpeed` km/h; None (NaN) when the Date is invalid.
   */
  function SampleTimestamp(startMs: int, target: real, avgSpeed: real): Option<int>
    requires avgSpeed > 0.0
  {
    match ClipTime(startMs as real + target / 1000.0 / avgSpeed * 3600.0 * 1000.0)
    case None => None
    case Some(t) => Some(t / 1000)
  }

  /**
   * The `reduce` choosing the closest entry: a later entry replaces the
   * kept one only when strictly closer, so the first of the closest wins.
   * With a NaN timestamp every comparison is false and the first entry stays.
   */
  function Closest(list: seq<ForecastEntry>, ts: Option<int>): (r: nat)
    requires |list| > 0
    ensures r < |list|
    ensures ts.None? ==> r == 0
    ensures ts.Some? ==> forall j :: 0 <= j < |list| ==> Gap(list[r], ts.value) <= Gap(list[j], ts.value)
    ensures ts.Some? ==> forall j :: 0 <= j < r ==> Gap(list[j], ts.value) > Gap(list[r], ts.value)
  {
    if |list| == 1 then 0
    else
      var p := Closest(list[..|list| - 1], ts);
      var last := |list| - 1;
      if ts.Some? && Gap(list[last], ts.value) < Gap(list[p], ts.value) then last else p
  }

  /**
   * The reduce followed by the tolerance check: None for an empty list or
   * when even the closest entry is more than 12,600 s away. A NaN timestamp
   * never fails the check, so the first entry is then accepted.
   */
  function MatchForecast(list: seq<ForecastEntry>, ts: Option<int>): (r: Option<ForecastEntry>)
    ensures r.None? <==>
      list == [] || (ts.Some? && forall j :: 0 <= j < |list| ==> Gap(list[j], ts.value) > Tolerance)
    ensures r.Some? ==> r.value in list
    ensures r.Some? && ts.Some? ==>
      Gap(r.value, ts.value) <= Tolerance &&
      forall j :: 0 <= j < |list| ==> Gap(r.value, ts.value) <= Gap(list[j], ts.value)
    ensures r.Some? && ts.None? ==> r.value == list[0]
  {
    if list == [] then None
    else
      var e := list[Closest(list, ts)];
      if ts.Some? && Gap(e, ts.value) > Tolerance then None else Some(e)
  }

  /** Exactly 3 h 30 min away is accepted, one second more is rejected. */
  lemma ToleranceBoundary(ts: int, speed: Option<real>, deg: Option<real>)
    ensures MatchForecast([ForecastEntry(ts + 12600, speed, deg)], Some(ts)).Some?
    ensures MatchForecast([ForecastEntry(ts - 12601, speed, deg)], Some(ts)).None?
  {
  }

  /** Of two entries equally far from the timestamp, the earlier one in the list is chosen. */
  lemma TieKeepsFirst(a: ForecastEntry, b: ForecastEntry, ts: int)
    requires Gap(a, ts) == Gap(b, ts) <= Tolerance
    ensures MatchForecast([a, b], Some(ts)) == Some(a)
  {
    assert [a, b][..1] == [a];
  }

  // ---------------------------------------------------------------------
  // computeTailwindScore (js/weather.js:543-623)

  function Min(a: real, b: real): real { if a < b then a else b }

  /**
   * The outcome of one sample fraction: None when the sample is dropped,
   * otherwise its tailwind component. `response` is the forecast list,
   * None when the fetch failed.
   */
  function SampleOutcome(g: Geodesy, pts: seq<LatLng>, total: real, frac: real, startMs: int,
                         avgSpeed: real, response: Option<seq<ForecastEntry>>): Option<real>
    requires ValidGeodesy(g) && avgSpeed > 0.0
  {
    var target := total * frac;
    var sample := PointAtDistanceFromRoute(g, pts, target);
    var next := PointAtDistanceFromRoute(g, pts, Min(target + 500.0, total));
    if sample.None? || next.None? || LatLngEquals(sample.value, next.value) then None
    else if response.None? || response.value == [] then None
    else match MatchForecast(response.value, SampleTimestamp(startMs, target, avgSpeed))
      case None => None
      case Some(e) =>
        if e.windSpeed.None? || e.windDeg.None? then None
        else Some(Component(g, e.windSpeed.value, e.windDeg.value, Bearing(g, sample.value, next.value)))
  }

  /** The per-fraction outcomes, in the order of the fractions. */
  function Outcomes(g: Geodesy, pts: seq<LatLng>, total: real, fractions: seq<real>, startMs: int,
                    avgSpeed: real, responses: seq<Option<seq<ForecastEntry>>>): (rs: seq<Option<real>>)
    requires ValidGeodesy(g) && avgSpeed > 0.0 && |responses| == |fractions|
    ensures |rs| == |fractions|
    ensures forall i :: 0 <= i < |rs| ==>
      rs[i] == SampleOutcome(g, pts, total, fractions[i], startMs, avgSpeed, responses[i])
  {
    seq(|fractions|, i requires 0 <= i < |fractions| =>
      SampleOutcome(g, pts, total, fractions[i], startMs, avgSpeed, responses[i]))
  }

  /**
   * The score: 0 for fewer than two points, a speed of 0 or less, an
   * invalid start or a route of length 0 or less; otherwise the mean of the
   * surviving sample components.
   */
  function TailwindScore(g: Geodesy, pts: seq<LatLng>, startMs: Option<int>, avgSpeed: real,
                         fractions: seq<real>, responses: seq<Option<seq<ForecastEntry>>>): real
    requires ValidGeodesy(g) && |responses| == |fractions|
  {
    if |pts| < 2 || avgSpeed <= 0.0 || startMs.None? then 0.0
    else
      var total := Length(g, pts);
      if total <= 0.0 then 0.0
      else MeanOfValid(Outcomes(g, pts, total, fractions, startMs.value, avgSpeed, responses))
  }

  /** One sample as the source computes it, with the angle-wrap loops. */
  method SampleTailwind(g: Geodesy, pts: seq<LatLng>, total: real, frac: real, startMs: int,
                        avgSpeed: real, response: Option<seq<ForecastEntry>>) returns (c: Option<real>)
    requires ValidGeodesy(g) && avgSpeed > 0.0
    ensures c == SampleOutcome(g, pts, total, frac, startMs, avgSpeed, response)
  {
    var target := total * frac;
    var sample := PointAtDistanceFromRoute(g, pts, target);
    var next := PointAtDistanceFromRoute(g, pts, Min(target + 500.0, total));
    if sample.None? || next.None? || LatLngEquals(sample.value, next.value) {
      return None;
    }
    var bearing := Bearing(g, sample.value, next.value);
    var ts := SampleTimestamp(startMs, target, avgSpeed);
    if response.None? || response.value == [] {
      return None;
    }
    var best := MatchForecast(response.value, ts);
    if best.None? {
      return None;
    }
    var e := best.value;
    if e.windSpeed.None? || e.windDeg.None? {
      return None;
    }
    var component := ComputeComponent(g, e.windSpeed.value, e.windDeg.value, bearing);
    return Some(component);
  }

  /** computeTailwindScore: the guards, one sample per fraction, then the aggregation. */
  method ComputeTailwindScore(g: Geodesy, pts: seq<LatLng>, startMs: Option<int>, avgSpeed: real,
                              fractions: seq<real>, responses: seq<Option<seq<ForecastEntry>>>)
    returns (score: real)
    requires ValidGeodesy(g) && |responses| == |fractions|
    ensures score == TailwindScore(g, pts, startMs, avgSpeed, fractions, responses)
  {
    if |pts| < 2 || avgSpeed <= 0.0 || startMs.None? {
      return 0.0;
    }
    var total := ComputeTotalDistance(g, pts);
    if total <= 0.0 {
      return 0.0;
    }
    var results: seq<Option<real>> := [];
    var i := 0;
    while i < |fractions|
      invariant 0 <= i <= |fractions|
      invariant results == Outcomes(g, pts, total, fractions, startMs.value, avgSpeed, responses)[..i]
    {
      var c := SampleTailwind(g, pts, total, fractions[i], startMs.value, avgSpeed, responses[i]);
      results := results + [c];
      i := i + 1;
    }
    assert results == Outcomes(g, pts, total, fractions, startMs.value, avgSpeed, responses);
    score := Aggregate(results);
  }

  /** The guards short-circuit: the score is 0 whatever the forecasts would have been. */
  lemma TailwindScoreGuards(g: Geodesy, pts: seq<LatLng>, startMs: Option<int>, avgSpeed: real,
                            fractions: seq<real>, responses: seq<Option<seq<ForecastEntry>>>)
    requires ValidGeodesy(g) && |responses| == |fractions|
    requires |pts| < 2 || avgSpeed <= 0.0 || startMs.None? || Length(g, pts) <= 0.0
    ensures TailwindScore(g, pts, startMs, avgSpeed, fractions, responses) == 0.0
  {
  }

  /** When no forecast arrives at all (every fetch fails or returns an empty list), the score is 0. */
  lemma TailwindScoreNoForecasts(g: Geodesy, pts: seq<LatLng>, startMs: Option<int>, avgSpeed: real,
                                 fractions: seq<real>, responses: seq<Option<seq<ForecastEntry>>>)
    requires ValidGeodesy(g) && |responses| == |fractions|
    requires forall i :: 0 <= i < |responses| ==> responses[i].None? || responses[i].value == []
    ensures TailwindScore(g, pts, startMs, avgSpeed, fractions, responses) == 0.0
  {
    if !(|pts| < 2 || avgSpeed <= 0.0 || startMs.None? || Length(g, pts) <= 0.0) {
      var rs := Outcomes(g, pts, Length(g, pts), fractions, startMs.value, avgSpeed, responses);
      assert forall i :: 0 <= i < |rs| ==> rs[i].None?;
    }
  }

  /** A surviving sample is the component of some entry of its own forecast list. */
  lemma SampleOutcomeSource(g: Geodesy, pts: seq<LatLng>, total: real, frac: real, startMs: int,
                            avgSpeed: real, response: Option<seq<ForecastEntry>>)
    requires ValidGeodesy(g) && avgSpeed > 0.0
    ensures SampleOutcome(g, pts, total, frac, startMs, avgSpeed, response).Some? ==>
      && response.Some?
      && exists e :: e in response.value && e.windSpeed.Some? && e.windDeg.Some? &&
           exists b :: SampleOutcome(g, pts, total, frac, startMs, avgSpeed, response).value ==
             Component(g, e.windSpeed.value, e.windDeg.value, b)
  {
  }

  /**
   * The score never exceeds the strongest forecast wind in km/h: if every
   * wind speed received lies in [0, vmax] m/s, the score lies in
   * [-3.6 vmax, 3.6 vmax].
   */
  lemma TailwindScoreBound(g: Geodesy, pts: seq<LatLng>, startMs: Option<int>, avgSpeed: real,
                           fractions: seq<real>, responses: seq<Option<seq<ForecastEntry>>>, vmax: real)
    requires ValidGeodesy(g) && |responses| == |fractions| && vmax >= 0.0
    requires forall i, e ::
      (0 <= i < |responses| && responses[i].Some? && e in responses[i].value && e.windSpeed.Some?) ==>
        0.0 <= e.windSpeed.value <= vmax
    ensures -3.6 * vmax <= TailwindScore(g, pts, startMs, avgSpeed, fractions, responses) <= 3.6 * vmax
  {
    if !(|pts| < 2 || avgSpeed <= 0.0 || startMs.None? || Length(g, pts) <= 0.0) {
      var total := Length(g, pts);
      var rs := Outcomes(g, pts, total, fractions, startMs.value, avgSpeed, responses);
      forall i | 0 <= i < |rs| && rs[i].Some?
        ensures -3.6 * vmax <= rs[i].value <= 3.6 * vmax
      {
        SampleBound(g, pts, total, fractions[i], startMs.value, avgSpeed, responses[i], vmax);
      }
      MeanOfValidBounds(rs, -3.6 * vmax, 3.6 * vmax);
    }
  }

  lemma SampleBound(g: Geodesy, pts: seq<LatLng>, total: real, frac: real, startMs: int,
                    avgSpeed: real, response: Option<seq<ForecastEntry>>, vmax: real)
    requires ValidGeodesy(g) && avgSpeed > 0.0 && vmax >= 0.0
    requires response.Some? ==> forall e :: e in response.value && e.windSpeed.Some? ==>
      0.0 <= e.windSpeed.value <= vmax
    ensures SampleOutcome(g, pts, total, frac, startMs, avgSpeed, response).Some? ==>
      -3.6 * vmax <= SampleOutcome(g, pts, total, frac, startMs, avgSpeed, response).value <= 3.6 * vmax
  {
    var target := total * frac;
    var sample := PointAtDistanceFromRoute(g, pts, target);
    var next := PointAtDistanceFromRoute(g, pts, Min(target + 500.0, total));
    if SampleOutcome(g, pts, total, frac, startMs, avgSpeed, response).Some? {
      var e := MatchForecast(response.value, SampleTimestamp(startMs, target, avgSpeed)).value;
      var b := Bearing(g, sample.value, next.value);
      ComponentBound(g, e.windSpeed.value, e.windDeg.value, b);
      ComponentScale(g, e.windSpeed.value, e.windDeg.value, b, vmax);
    }
  }

  /** A slower wind gives a component no larger in magnitude. */
  lemma ComponentScale(g: Geodesy, speedMs: real, windDir: real, bearing: real, vmax: real)
    requires ValidGeodesy(g) && 0.0 <= speedMs <= vmax
    ensures -3.6 * vmax <= Component(g, speedMs, windDir, bearing) <= 3.6 * vmax
  {
    ComponentBound(g, speedMs, windDir, bearing);
  }

  // ---------------------------------------------------------------------
  // analyzeRoute: weather markers (js/weather.js:62-122)

  /** The distance of marker i of n along a route of length total. */
  function Spaced(total: real, n: int, i: int): real
    requires n >= 2
  {
    total * i as real / (n - 1) as real
  }

  lemma SpacedStep(total: real, n: int, i: int)
    requires n >= 2 && total > 0.0
    ensures Spaced(total, n, i) < Spaced(total, n, i + 1)
  {
    var d := (n - 1) as real;
    assert Spaced(total, n, i + 1) == Spaced(total, n, i) + total / d;
  }

  /**
   * The `distancesToMark` push loop: nothing for fewer than one point or a
   * route of length 0 or less, the start and the midpoint for one point,
   * and otherwise numPoints evenly spaced distances from 0 to the total.
   */
  method MarkerDistances(total: real, numPoints: int) returns (ds: seq<real>)
    ensures numPoints < 1 || total <= 0.0 ==> ds == []
    ensures numPoints == 1 && total > 0.0 ==> ds == [0.0, total / 2.0]
    ensures numPoints >= 2 && total > 0.0 ==>
      && |ds| == numPoints
      && (forall i :: 0 <= i < numPoints ==> ds[i] == Spaced(total, numPoints, i))
      && ds[0] == 0.0 && ds[numPoints - 1] == total
    ensures forall i :: 0 <= i < |ds| - 1 ==> ds[i] < ds[i + 1]
  {
    ds := [];
    if numPoints >= 1 && total > 0.0 {
      ds := [0.0];
      if numPoints >= 2 {
        var i := 1;
        while i < numPoints - 1
          invariant 1 <= i <= numPoints - 1
          invariant |ds| == i
          invariant forall k :: 0 <= k < i ==> ds[k] == Spaced(total, numPoints, k)
        {
          ds := ds + [total * i as real / (numPoints - 1) as real];
          i := i + 1;
        }
        ds := ds + [total];
        assert Spaced(total, numPoints, numPoints - 1) == total;
        forall k | 0 <= k < |ds| - 1
          ensures ds[k] < ds[k + 1]
        {
          SpacedStep(total, numPoints, k);
        }
      } else {
        ds := ds + [total / 2.0];
      }
    }
  }

  /** What happens at one weather marker. */
  datatype MarkerOutcome =
    | NoPoint          // getPointAtDistance returned null: no marker
    | Unavailable      // the fetch failed or the list was empty (reduce throws): warning marker
    | Mismatch         // closest forecast more than 3 h 30 min away: question marker
    | Forecast(entry: ForecastEntry)

  /** estTimestamp: the epoch second of the estimated time at `dist` metres (no Date in between). */
  function MarkerTimestamp(startMs: int, dist: real, avgSpeed: real): int
    requires avgSpeed > 0.0
  {
    ((startMs as real + dist / 1000.0 / avgSpeed * 3600000.0) / 1000.0).Floor
  }

  function MarkerForecast(g: Geodesy, pts: seq<LatLng>, dist: real, startMs: int, avgSpeed: real,
                          response: Option<seq<ForecastEntry>>): (r: MarkerOutcome)
    requires avgSpeed > 0.0
    ensures r.Forecast? ==>
      && response.Some? && r.entry in response.value
      && Gap(r.entry, MarkerTimestamp(startMs, dist, avgSpeed)) <= Tolerance
  {
    if PointAtDistance(g, pts, dist).None? then NoPoint
    else if response.None? || response.value == [] then Unavailable
    else match MatchForecast(response.value, Some(MarkerTimestamp(startMs, dist, avgSpeed)))
      case None => Mismatch
      case Some(e) => Forecast(e)
  }

  /**
   * Markers and the tailwind score judge a forecast list alike: for the
   * same timestamp a marker shows the entry the score would use, and shows
   * a mismatch exactly when the score would drop the sample.
   */
  lemma MarkerAgreesWithScore(g: Geodesy, pts: seq<LatLng>, dist: real, startMs: int, avgSpeed: real,
                              list: seq<ForecastEntry>)
    requires avgSpeed > 0.0 && list != [] && PointAtDistance(g, pts, dist).Some?
    ensures var ts := MarkerTimestamp(startMs, dist, avgSpeed);
      && (MarkerForecast(g, pts, dist, startMs, avgSpeed, Some(list)) == Mismatch <==>
          forall j :: 0 <= j < |list| ==> Gap(list[j], ts) > Tolerance)
      && (MatchForecast(list, Some(ts)).Some? ==>
          MarkerForecast(g, pts, dist, startMs, avgSpeed, Some(list)) == Forecast(MatchForecast(list, Some(ts)).value))
  {
  }

  // ---------------------------------------------------------------------
  // bestRandomRouteGenerator: candidate ranking (js/weather.js:464-478)

  /** Score a beats score b; None is a candidate whose scoring threw (-Infinity). */
  predicate Beats(a: Option<real>, b: Option<real>) {
    a.Some? && (b.None? || a.value > b.value)
  }

  /**
   * The candidate shown after the stable descending sort: the first one
   * with the highest score. None when there is no candidate at all.
   */
  function BestCandidate(scores: seq<Option<real>>): (r: Option<nat>)
    ensures r.None? <==> scores == []
    ensures r.Some? ==> r.value < |scores|
    ensures r.Some? ==> forall j :: 0 <= j < |scores| ==> !Beats(scores[j], scores[r.value])
    ensures r.Some? ==> forall j :: 0 <= j < r.value ==> Beats(scores[r.value], scores[j])
  {
    if scores == [] then None
    else if |scores| == 1 then Some(0)
    else
      var p := BestCandidate(scores[..|scores| - 1]).value;
      var last := |scores| - 1;
      if Beats(scores[last], scores[p]) then Some(last) else Some(p)
  }

  /** Every candidate whose scoring threw loses to any scored candidate. */
  lemma FailedCandidateNeverBest(scores: seq<Option<real>>, i: nat, j: nat)
    requires i < |scores| && j < |scores| && scores[i].None? && scores[j].Some?
    ensures BestCandidate(scores) != Some(i)
  {
  }
}
