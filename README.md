# WeatherMap route and weather core in Dafny

WeatherMap is a browser application for cycling. It plans a route on a
Leaflet map, or reads a ridden activity from a GPX file. It then asks
weather services for forecasts or history along the route, scores the
route by its average tailwind, and reports elevation, speed and timing
metrics. This project models the deterministic routines under that UI and
proves properties of them:

- `geo.dfy`: the geodesy around the floating-point routines. It covers the
  bearing normalised into [0, 360), JavaScript's `%` on numbers, Leaflet
  coordinate equality, and the wrapping of an angle difference into
  (-180, 180] by two while loops.
- `polyline.dfy`: route length (`getDistance`, `computeTotalDistance`) and
  the point at a distance along a polyline (`getPointAtDistance`,
  `getPointAtDistanceFromRoute`).
- `tailwind.dfy`: the tailwind component of one forecast and the averaging
  of the samples that survived.
- `planning.dfy`: the forecast entry nearest in time with its 3 h 30 min
  tolerance, `computeTailwindScore`, the evenly spaced weather markers of
  `analyzeRoute` and the ranking of random candidate routes.
- `planning_elevation.dfy`: `calculatePlanningElevationMetrics`,
  `detectPeaks` and the sampling of points sent to the elevation service.
- `format.dfy`: `formatDuration` and `degreesToCompass`.
- `activity.dfy`: the activity point filter, `sampleRoutePoints`,
  `findClosestWeatherData` and `calculateActivityTailwindScore`.
- `activity_metrics.dfy`: `calculateActivityMetrics` and
  `calculateElevationProfile`.
- `map_state.dfy`: the global waypoint markers and the weather-layer
  cycle, as a class whose methods reassign them.
- `gpx.dfy`: the GPX 1.1 reader. It covers the point source priority
  trkpt > rtept > wpt, the coordinate filter, the optional `ele`/`time`/`name`
  fields, the validity test and the metadata counts.
- `common.dfy`: Option and Result, JavaScript numbers that may be NaN,
  `String.prototype.trim`, and the decimal rendering of naturals.

Great-circle distance, `Math.atan2` and `Math.cos` stay abstract. They are
fields of a `Geodesy` value that the operations take as a parameter. They
are constrained only by what their definitions guarantee: a distance is
non-negative, atan2 in degrees lies in [-180, 180], and a cosine in [-1, 1].

Network responses are inputs. A forecast or archive response is an
`Option` holding the decoded list or table, one per sample, in sample
order. Times are integer epoch instants: milliseconds for dates, seconds
for forecast `dt`. Distances are reals.

Wind directions are used as the services report them: OpenWeather's
`wind.deg` and Open-Meteo's `wind_direction_10m` are the direction the wind
blows from. The model keeps the source's formula `speed * 3.6 *
cos(windDir - bearing)` unchanged, so under this convention a wind coming
from straight ahead of the rider counts as a positive (tail) component.

## Model

| member | source | states |
|---|---|---|
| Common.Trim | js/weather.js:389 | `trim()` leaves a string no longer than before and with no white space or line terminator (ASCII, NBSP, BOM, every Unicode space separator, U+2028, U+2029) at either end |
| Common.TrimUnicodeSeparators | js/lib/gpx.js:96 | a leading U+3000 and a trailing U+2028 are removed like ASCII blanks |
| Common.TrimUnchanged | js/weather.js:389 | a string that neither starts nor ends with white space is unchanged by trimming |
| Common.TrimTrailingBlank | js/weather.js:387-389 | the trailing blank left after "H hr(s) " is exactly what trimming removes |
| Common.NatToStringRoundTrip | js/weather.js:387-388 | the decimal numeral of a count reads back as that count, so no information is lost |
| Common.NatToStringInjective | js/weather.js:387-388 | distinct counts render as distinct numerals |
| Geo.Rem360 | js/weather.js:540 | JavaScript `x % 360`: the result has the sign of x, lies within one turn and differs from x by whole turns |
| Geo.Bearing | js/weather.js:525-540 | `(brngDeg + 360) % 360` is in [0, 360) and is the atan2 angle, plus 360 when it is negative |
| Geo.Wrapped | js/weather.js:600-602 | the wrapped angle lies in (-180, 180] and differs from the input by a whole number of turns |
| Geo.WrappedUnique | js/weather.js:600-602 | only one angle in (-180, 180] is congruent to a given angle, so the wrap is determined |
| Geo.WrappedPeriodic | js/weather.js:600-602 | the wrap depends only on the angle modulo 360 |
| Geo.WrapAngle | js/weather.js:600-602 | the two while loops terminate and return the wrapped angle, in (-180, 180] |
| Polyline.LengthSnoc | js/map.js:18-21 | adding a vertex adds exactly the new segment's distance to the length |
| Polyline.LengthNonNegative | js/map.js:18-21 | a polyline length is never negative |
| Polyline.LengthMonotone | js/map.js:18-21 | no prefix of a polyline is longer than the polyline |
| Polyline.ComputeTotalDistance | js/weather.js:503-514 | the summing loop returns the polyline length, and 0 for fewer than two points |
| Polyline.FirstReaching | js/map.js:30-38 | a segment the scan stops on lies in range and is longer than 1e-9 with an end at or past the target |
| Polyline.FirstReachingIsFirst | js/map.js:30-38 | the scan stops on the first such segment; when it finds none, no segment qualifies |
| Polyline.GetPointAtDistance | js/map.js:22-41 | the loop returns null for no vertices, the first vertex for target <= 0, the last for target >= length, else the interpolated point |
| Polyline.PointAtDistanceInside | js/map.js:30-40 | strictly inside the route the point is interpolated on the first qualifying segment, at a fraction of at most 1, lying exactly `target` along the route; without one it is the last vertex |
| Polyline.PointAtDistanceNoFallback | js/map.js:30-40 | with every segment longer than 1e-9 the fallback is never taken and the fraction lies in (0, 1] |
| Polyline.LastSegmentReaches | js/map.js:30-38 | with every segment longer than 1e-9 the last segment reaches any target below the length |
| Polyline.StartBeforeTarget | js/map.js:30-38 | the segment the scan stops on starts strictly before the target |
| Polyline.PointAtDistanceFromRouteAgrees | js/weather.js:516-523 | null exactly for fewer than two points or a negative target; otherwise the polyline's answer, with 0 mapped to the first point and the length to the last |
| Tailwind.ComponentBound | js/weather.js:598-604 | a tailwind component never exceeds the wind speed in km/h in either direction |
| Tailwind.ComponentPeriodic | js/weather.js:600-604 | the component depends on the wind direction only modulo 360 |
| Tailwind.ComputeComponent | js/weather.js:598-605 | the loop-based computation equals speed * 3.6 * cos of the wrapped angle difference |
| Tailwind.CountValid | js/weather.js:615-620 | the number of survivors is at most the number of samples, and 0 exactly when every sample was dropped |
| Tailwind.Aggregate | js/weather.js:613-622 | the forEach returns the sum of non-null components divided by their count, and 0 when there are none |
| Tailwind.DroppedSampleIgnored | js/weather.js:615-622 | a null sample anywhere changes neither the sum, the count nor the score |
| Tailwind.SumValidBounds | js/weather.js:615-620 | survivors within [lo, hi] give a sum between lo and hi taken once per survivor |
| Tailwind.MeanOfValidBounds | js/weather.js:622 | the score is 0 with no survivor and otherwise lies within any bounds of the survivors |
| Tailwind.MeanOfAgreeing | js/weather.js:622 | survivors all equal to c average to c however many samples were dropped |
| Tailwind.MeanSkipsDropped | js/weather.js:622 | with the middle of three samples dropped the score divides by 2, not by 3 |
| Planning.ClipTime | js/weather.js:568 | `new Date(ms)` truncates toward zero and is invalid outside +/-8.64e15 ms |
| Planning.Closest | js/weather.js:585 | the reduce keeps an entry of least time gap, and earlier entries are strictly further (ties keep the first); with a NaN timestamp it keeps the first |
| Planning.MatchForecast | js/weather.js:581-590 | no entry exactly when the list is empty or every entry is more than 12,600 s away; the entry found is in the list, within tolerance and of least gap |
| Planning.ToleranceBoundary | js/weather.js:587 | an entry exactly 3 h 30 min away is accepted, one a second further is rejected |
| Planning.TieKeepsFirst | js/weather.js:585 | of two entries equally far from the timestamp the first is chosen |
| Planning.Outcomes | js/weather.js:556-611 | one outcome per sample fraction, in the fractions' order |
| Planning.SampleTailwind | js/weather.js:557-605 | one sample computed with the loops equals the sample outcome: dropped on a missing or equal look-ahead point, a failed or empty fetch, no entry in tolerance or a non-number wind |
| Planning.ComputeTailwindScore | js/weather.js:543-623 | the method returns the guarded mean of the sample outcomes |
| Planning.TailwindScoreGuards | js/weather.js:544-550 | fewer than two points, a speed <= 0, an invalid start or a length <= 0 give 0 whatever the forecasts |
| Planning.TailwindScoreNoForecasts | js/weather.js:575-584 | when every fetch fails or returns an empty list the score is 0 |
| Planning.SampleOutcomeSource | js/weather.js:585-605 | a surviving sample is the component of some entry of its own forecast list with numeric wind fields |
| Planning.TailwindScoreBound | js/weather.js:598-622 | forecast wind speeds in [0, vmax] m/s bound the score by 3.6 vmax in either direction |
| Planning.SampleBound | js/weather.js:598-605 | the same bound for one sample |
| Planning.ComponentScale | js/weather.js:598-604 | a wind of at most vmax gives a component of magnitude at most 3.6 vmax |
| Planning.MarkerDistances | js/weather.js:62-74 | empty for numPoints < 1 or length <= 0; [0, total/2] for one point; otherwise exactly numPoints strictly increasing evenly spaced distances from 0 to the total |
| Planning.MarkerForecast | js/weather.js:78-104 | a marker shows a forecast only from its own list and within 3 h 30 min of the estimated time |
| Planning.MarkerAgreesWithScore | js/weather.js:96-98 | markers and the score judge a list alike: mismatch exactly when every entry is out of tolerance, else the same entry |
| Planning.BestCandidate | js/weather.js:477-478 | after the stable descending sort the first candidate has the highest score, ahead of every earlier one; none only without candidates |
| Planning.FailedCandidateNeverBest | js/weather.js:466-478 | a candidate whose scoring threw (-Infinity) is never shown when some candidate was scored |
| PlanningElevation.EffectiveElevation | js/weather.js:279-282 | `alt \|\| elevation \|\| ele \|\| null`: found exactly when one property is truthy, never 0 m, `alt` first |
| PlanningElevation.Elevations | js/weather.js:279-280 | one effective elevation per point, in order |
| PlanningElevation.PlanningElevationMetrics | js/weather.js:267-304 | the loop returns the metrics of the elevations |
| PlanningElevation.HasPairIff | js/weather.js:282-283 | hasElevation holds exactly when some consecutive pair has both elevations |
| PlanningElevation.TotalsNonNegative | js/weather.js:285-290 | ascent and descent are never negative |
| PlanningElevation.ExtremesBound | js/weather.js:292-293 | every contributing pair's elevations are at or above the minimum and its second at or below the maximum |
| PlanningElevation.MinAtMostMax | js/weather.js:292-302 | with some pair counted the minimum never exceeds the maximum |
| PlanningElevation.NetClimb | js/weather.js:285-290 | when every point has an elevation, ascent minus descent is the last elevation minus the first |
| PlanningElevation.ZeroElevationMissing | js/weather.js:279-303 | points that all read 0 m or nothing give hasElevation false and every field 0 |
| PlanningElevation.MaxSkipsFirstPoint | js/weather.js:292 | only the second point of a pair updates the maximum, so a descending pair reports its lower end |
| PlanningElevation.DetectPeaks | js/weather.js:1145-1157 | strictly increasing indices in [1, n-2], exactly the strict local maxima whose smaller drop is at least the prominence |
| PlanningElevation.PeaksNotAdjacent | js/weather.js:1149-1151 | two neighbouring points are never both peaks |
| PlanningElevation.Multiples | js/weather.js:1012 | the filter keeps exactly the indices below m that are multiples of the stride, in increasing order |
| PlanningElevation.ElevationSampleShape | js/weather.js:1007-1016 | the sample starts at 0, ends at the last index, increases strictly, and holds every multiple of floor(n/50) and nothing else but the last index |
| PlanningElevation.MultiplesOfOne | js/weather.js:1011-1012 | a stride of 1 keeps every index |
| PlanningElevation.ElevationSampleUnderHundred | js/weather.js:1007-1016 | from 51 to 99 points the stride is 1 and every point is sent, more than the 50 intended |
| Format.FormatDurationNotAvailable | js/weather.js:382 | "N/A" is returned exactly for NaN and negative durations |
| Format.FormatDurationText | js/weather.js:383-389 | a non-negative duration renders as the trimmed hours part and minutes part of its whole seconds |
| Format.Rendered | js/weather.js:386-389 | the trimmed text is never empty and starts with a digit, so the "0 mins" fallback never applies to a non-negative duration |
| Format.ReadRendered | js/weather.js:386-389 | reading the text of h hours and m minutes back gives 60 h + m minutes |
| Format.FormatDurationRoundTrip | js/weather.js:381-390 | the rendering of a non-negative duration reads back as its whole number of minutes |
| Format.FormatDurationInjective | js/weather.js:381-390 | two durations render alike only when they have the same whole minutes |
| Format.MinutesSplit | js/weather.js:384-385 | whole hours and leftover minutes (< 60) make up the whole minutes |
| Format.FormatDurationUnderAMinute | js/weather.js:386-389 | under a minute reads "0 mins" |
| Format.FormatDurationOneMinute | js/weather.js:388 | 60,000 ms reads "1 min", in the singular |
| Format.FormatDurationOneHour | js/weather.js:386-389 | 3,600,000 ms reads "1 hr" with no minutes and no trailing blank |
| Format.FormatDurationHourAndHalf | js/weather.js:386-389 | 5,400,000 ms reads "1 hr 30 mins" |
| Format.Normalized | js/weather.js:4 | `((d % 360) + 360) % 360` lies in [0, 360) |
| Format.NormalizedClosedForm | js/weather.js:4 | the normalised angle is d - 360 floor(d / 360) |
| Format.NormalizedPeriodic | js/weather.js:4 | normalising depends only on d modulo 360 |
| Format.NormalizedInRange | js/weather.js:4 | an angle already in [0, 360) is unchanged |
| Format.Round | js/weather.js:6 | `Math.round` gives the nearest integer, halves rounded up |
| Format.DegreesToCompass | js/weather.js:1-8 | the result is always one of the 16 labels |
| Format.DegreesToCompassPeriodic | js/weather.js:1-8 | the label depends only on the direction modulo 360 |
| Format.CompassIndexSector | js/weather.js:6 | as written, a direction in [22.5 j, 22.5 (j+1)) gets label j + 1 |
| Format.DegreesToCompassNorth | js/weather.js:6-7 | as written, every direction in [0, 11.25) reads "NNE", whose nearest point is "N" |
| Format.DegreesToCompassEast | js/weather.js:6-7 | as written, every direction in [90, 101.25) reads "ESE", whose nearest point is "E" |
| Format.CompassLabelAhead | js/weather.js:5-6 | as written, the label lies more than 0 and at most 22.5 degrees ahead of the direction |
| Format.NearestCompassIndexIsNearest | js/weather.js:5-6 | the corrected index names a point within 11.25 degrees of the direction |
| Format.NearestIndexSector | js/weather.js:5-6 | the corrected index gives point j to every direction within half a sector of it |
| Format.DegreesToCompassNearest | js/weather.js:1-8 | the corrected function also always returns one of the 16 labels |
| Format.DegreesToCompassNearlyFullTurn | js/weather.js:6-7 | just short of 360 degrees both readings agree on "N" |
| Activity.ValidPoints | js/activity.js:112-116 | the filter keeps only points with lat in [-90, 90] and lng in [-180, 180], drops none that are valid |
| Activity.ParseActivityPoints | js/activity.js:89-121 | track points when any, else route points; an error exactly when fewer than two survive the filter |
| Activity.ValidPointsAppend | js/activity.js:112-116 | the filter works piecewise, so order is kept |
| Activity.ValidPointsSingle | js/activity.js:112-116 | a NaN or out-of-range coordinate never survives; a valid point survives unchanged |
| Activity.TrackPointsFirst | js/activity.js:91-108 | a file with track points never looks at its route points |
| Activity.Strided | js/activity.js:529-533 | the stride loop yields increasing in-range indices of timed points |
| Activity.SampleRoutePoints | js/activity.js:521-536 | the method returns the sampled indices |
| Activity.StridedMember | js/activity.js:529-533 | an index is kept exactly when it is timed and a multiple of the stride past the start |
| Activity.SampledIndicesSpec | js/activity.js:521-536 | in order, exactly the timed points whose index is a multiple of the stride (1 up to maxSamples points, else floor(n / maxSamples)) |
| Activity.StridedAll | js/activity.js:529-533 | with stride 1 and every point timed, every index is kept |
| Activity.SampleKeepsEleven | js/activity.js:521-536 | 11 timed points and a cap of 6 keep all 11: the cap is not a bound |
| Activity.Scan | js/activity.js:545-553 | the loop's kept index has the kept difference, and stays 0 while no difference was a number |
| Activity.FindClosestWeatherData | js/activity.js:538-566 | the loop computes the lookup function |
| Activity.ScanIsFirstMinimum | js/activity.js:545-553 | the scan keeps the first entry of least difference; it keeps one exactly when some difference is a number |
| Activity.FindClosestFound | js/activity.js:539-556 | a record is found exactly when times and a valid target exist and some entry is within 3 h |
| Activity.FindClosestNearest | js/activity.js:545-565 | a found record takes every field from one index, the first entry closest to the target |
| Activity.HourlyToleranceBoundary | js/activity.js:556 | exactly 3 h away is accepted, one ms more is rejected |
| Activity.LookAhead | js/activity.js:387 | the look-ahead index lies between the point and the last index |
| Activity.Outcomes | js/activity.js:369-413 | one outcome per sampled point, in sample order |
| Activity.SampleTailwind | js/activity.js:370-412 | one sample computed with the loops equals the sample outcome |
| Activity.CalculateActivityTailwindScore | js/activity.js:361-425 | the method returns the guarded mean over the sampled outcomes |
| Activity.LastPointDropped | js/activity.js:387-390 | the last point is its own look-ahead, so its sample is always dropped |
| Activity.SampleSurvives | js/activity.js:370-390 | a surviving sample has a time, weather, a record within 3 h with a truthy wind speed, and a look-ahead differing in both lat and lng |
| Activity.ActivityScoreZero | js/activity.js:362-424 | fewer than two points or no weather for any sample gives 0 |
| ActivityMetrics.Ascent | js/activity.js:203-207 | the total ascent is never negative |
| ActivityMetrics.Descent | js/activity.js:203-209 | the total descent is never negative |
| ActivityMetrics.Highest | js/activity.js:211-214 | the highest point is the current point of a pair with both elevations, never point 0 |
| ActivityMetrics.Speeds | js/activity.js:219-225 | at most one speed per pair, each strictly between 0 and 100 km/h |
| ActivityMetrics.Fastest | js/activity.js:224-229 | the fastest segment is the current point of a pair whose speed was recorded |
| ActivityMetrics.Mean | js/activity.js:246 | the average exists exactly when some speed was recorded |
| ActivityMetrics.CalculateActivityMetrics | js/activity.js:182-254 | the single loop returns the metrics of the points |
| ActivityMetrics.ElevationStep | js/activity.js:203-216 | one loop step advances ascent, descent, maximum, highest point and minimum to the next pair |
| ActivityMetrics.SpeedStep | js/activity.js:219-232 | one loop step advances moving time, speeds, fastest segment and maximum speed to the next pair |
| ActivityMetrics.HighestIsFirstMax | js/activity.js:211-214 | the highest point is the first of greatest elevation from index 1, found exactly when a pair exists |
| ActivityMetrics.LowestIsMin | js/activity.js:215 | the minimum is the least current elevation over the pairs, found exactly when a pair exists |
| ActivityMetrics.MinAtMostMax | js/activity.js:211-243 | with a pair of elevations the reported minimum is finite and at most the finite maximum |
| ActivityMetrics.ExtremesWithoutPair | js/activity.js:186-243 | elevations on isolated points only: hasElevation holds, the extremes stay -Infinity and Infinity and the totals 0 |
| ActivityMetrics.AscentDescentWithoutPair | js/activity.js:203-209 | without a pair both totals are 0 |
| ActivityMetrics.NoElevationFieldsNull | js/activity.js:236-243 | without any elevation every elevation field is null |
| ActivityMetrics.AscentMinusDescent | js/activity.js:203-209 | ascent minus descent is the sum of the pair differences |
| ActivityMetrics.NetClimbOfFullProfile | js/activity.js:203-209 | with every elevation present, ascent minus descent is the last elevation minus the first |
| ActivityMetrics.MovingTimeBounds | js/activity.js:220-222 | moving time lies in [0, 300 (n-1)) for n > 1, growing by less than 300 s per pair |
| ActivityMetrics.StopAddsNothing | js/activity.js:221 | a gap of 300 s or more, or not positive, adds no moving time and no speed |
| ActivityMetrics.FastestFound | js/activity.js:224-229 | a fastest segment exists exactly when a speed was recorded |
| ActivityMetrics.FastestListed | js/activity.js:226-228 | maxSpeed is one of the recorded speeds |
| ActivityMetrics.MaxSpeedIsUpperBound | js/activity.js:226-228 | no recorded speed exceeds maxSpeed |
| ActivityMetrics.FastestIsFirst | js/activity.js:226 | every recorded pair before the fastest is strictly slower: ties keep the first |
| ActivityMetrics.SpeedsHoldRecorded | js/activity.js:224-225 | every recorded pair's speed is in the list |
| ActivityMetrics.MinOf | js/activity.js:246 | the slowest recorded speed is in the list and at most every speed |
| ActivityMetrics.SumBounds | js/activity.js:246 | speeds within [lo, hi] sum to between lo and hi taken once per speed |
| ActivityMetrics.MeanBounds | js/activity.js:246 | a mean lies within any bounds of its elements |
| ActivityMetrics.SpeedStatistics | js/activity.js:219-246 | avgSpeed null, maxSpeed 0 and no fastest segment exactly when no speed was recorded; otherwise the slowest speed <= avgSpeed <= maxSpeed, all in (0, 100) |
| ActivityMetrics.SinglePoint | js/activity.js:182-254 | a single point gives 0 distance, moving time and maxSpeed, no average, and its own time as start and end |
| ActivityMetrics.HighestSkipsFirstPoint | js/activity.js:211-214 | of two points the second is highest even when lower, and a fall counts as descent |
| ActivityMetrics.WithElevation | js/activity.js:307 | exactly the indices of points with an elevation, increasing |
| ActivityMetrics.CalculateElevationProfile | js/activity.js:294-319 | the loop returns the profile of the points |
| ActivityMetrics.ProfileIsPerElevatedPoint | js/activity.js:307-315 | one entry per point with an elevation, in order, each built from that point |
| ActivityMetrics.CumulativeMonotone | js/activity.js:299-305 | the running distance never decreases |
| ActivityMetrics.ProfileDistancesNonDecreasing | js/activity.js:299-315 | the profile's distances are non-decreasing |
| ActivityMetrics.CumulativeIsTotal | js/activity.js:199-305 | the running distance at a point is the metrics' total distance over the points up to it |
| ActivityMetrics.ProfileEndsAtTotal | js/activity.js:294-319 | when the last point has an elevation, the profile ends at the activity's total distance |
| MapState.Marker.constructor | js/map.js:311-330 | a new marker sits at the given position |
| MapState.InsertBeforeLast | js/map.js:330 | the splice grows the list by one, keeps the last marker last, puts the new one just before it and keeps the rest |
| MapState.Without | js/map.js:339 | the filter keeps exactly the markers other than the removed one and changes nothing when it is absent |
| MapState.Coords | js/map.js:157 | one position per marker, in order |
| MapState.NextLayer | js/map.js:528-537 | the next layer is always wind, temp or precip |
| MapState.Globals.constructor | js/app.js:36-40 | no waypoints and the wind layer at start |
| MapState.Globals.SetEndpoints | js/map.js:57-85 | route data cleared, then exactly the start and end markers |
| MapState.Globals.AddStopMarker | js/map.js:311-331 | with fewer than two markers the error message and no change; otherwise a new marker inserted just before the last |
| MapState.Globals.RemoveWaypoint | js/map.js:335-341 | the waypoints become the list without the marker; the layer is untouched |
| MapState.Globals.ClearRouteData | js/map.js:380-446 | no waypoints and the wind layer |
| MapState.Globals.RecalcRoute | js/map.js:145-157 | no request exactly when fewer than two markers; else a request for all their positions |
| MapState.Globals.ToggleWeatherLayer | js/map.js:521-539 | the layer advances one step of the cycle; the markers are untouched |
| MapState.InsertKeepsEnds | js/map.js:330 | inserting a stop keeps the first and the last marker |
| MapState.RemoveUndoesInsert | js/map.js:330-339 | removing a stop just added gives the list back |
| MapState.WithoutAppend | js/map.js:339 | removal works piecewise, so order is kept |
| MapState.WithoutIdempotent | js/map.js:339 | removing twice is removing once |
| MapState.WithoutCount | js/map.js:339 | the list shrinks by exactly the number of occurrences of the marker |
| MapState.ToggleCycle | js/map.js:528-537 | three toggles restore any of the three layers, a toggle always changes the layer, and any other name goes to wind |
| Gpx.ExtractPointData | js/lib/gpx.js:64-100 | coordinates as parsed; ele and elevation set together, to the same value, only for a numeric elevation; time only for a valid date; name when present |
| Gpx.PointSource | js/lib/gpx.js:25-40 | track points when any, else route points, else waypoints |
| Gpx.ValidPoints | js/lib/gpx.js:43-49 | every point kept has coordinates in range; none is added |
| Gpx.ParseGpxContent | js/lib/gpx.js:11-57 | an error exactly on a parser error, with its message; otherwise valid points of the chosen source only |
| Gpx.IsValidGpx | js/lib/gpx.js:107-127 | valid exactly with no parser error, a gpx element and some trkpt, rtept or wpt |
| Gpx.GetGpxMetadata | js/lib/gpx.js:134-178 | the three counts and their total; no metadata element gives no name, description or time; otherwise name and description exactly when their elements exist (trimmed, never longer) and the time as read, an invalid Date kept |
| Gpx.ValidPointsAppend | js/lib/gpx.js:43-49 | the filter works piecewise, so order is kept |
| Gpx.ValidPointsKeepsValid | js/lib/gpx.js:43-49 | elements that are all valid lose nothing and keep their order |
| Gpx.SourcePriority | js/lib/gpx.js:25-40 | route points and waypoints are ignored once there are track points, waypoints once there are route points |
| Gpx.NoElementsNoPoints | js/lib/gpx.js:19-169 | a document with no point element parses to no points |
| Gpx.ValidIffCounted | js/lib/gpx.js:117-169 | with a gpx element and no parser error, valid exactly when the metadata counts a point |
| Gpx.PointsComeFromSource | js/lib/gpx.js:43-49 | every returned point is the extraction of some source element |

## Left out

- Network access is not modelled: OpenWeather, Open-Meteo, GraphHopper, Nominatim, Open-Elevation and Overpass. Responses are inputs, one per sample in sample order, and a failed fetch or a thrown exception is `None`.
- Concurrency and timers are not modelled: `Promise.all`, the `setTimeout` staggers, the peak-name throttle and the long-press handlers. Per-sample outcomes form an ordered sequence.
- Floating-point haversine, `Math.atan2` and `Math.cos` are abstract functions constrained only by their ranges. Every other computation is over exact reals, so rounding error is not modelled.
- `toFixed` and locale formatting, and all rendering, are not modelled. That covers marker icons, dashboards, the SVG profile, the chart and `updateWeatherToggleIcon`.
- `saveRouteAsGPX` is not modelled: it depends on `toFixed(6)`, the current date and a Blob download.
- The DOMParser and FileReader plumbing is abstracted. A GPX document is the record of what its DOM queries return, with `parseFloat` and `new Date` already applied.
- The text of archive time strings is not parsed, and timezones are not modelled. Times are integer instants.
- Random seeds for candidate routes are not modelled. Candidates arrive as inputs.
- js/app.js is not part of this model beyond the initial values of the two globals. The tailwind sample fractions from its configuration are a parameter.
- `interpolateElevationData` and the km-from-start estimate of historical markers are not modelled, because they have no stated contract.
- Activity.FindClosestWeatherData: every hourly array is taken to be present, as the archive request asks for all five. A response lacking one makes the source throw, and the catch drops the sample; that case is not modelled.
- NaN elevations in activity points (`parseFloat` of a bad `<ele>`) are not modelled: an activity point's elevation is a number or null.
- ActivityMetrics.CalculateActivityMetrics: requires a non-empty point list, because `points[0].time` throws on an empty one; callers only pass lists that passed the two-point check.
- Planning.SampleOutcome takes Leaflet's `LatLng.equals` with its default margin of 1e-9 on each coordinate. Leaflet itself is not part of this model.
- MapState.Globals.RecalcRoute: returns the routing request instead of sending it. Drawing the returned route is I/O.
- Marker dragging and the map's context-menu handlers are not modelled. Neither is the GPX path of processInput, which draws a fixed track and empties the waypoints.
- Activity.SampleRoutePoints: a `maxSamples` of 0 or less, on which the source divides by zero or loops forever, is excluded by its requires. The source only calls it with 6.
- Activity.SampleRoutePoints: returns indices, not point objects. The source finds a sample's position again with `points.indexOf(point)`, which for distinct objects is that index.

## Findings

| source | as written | input that shows it | evidently intended | confidence | as-written member | corrected member |
|---|---|---|---|---|---|---|
| js/weather.js:5-6 | `Math.round((normalized + 11.25) / 22.5) % 16` adds the half-sector and then rounds, shifting every label one point clockwise | 0 degrees gives "NNE" and 90 degrees gives "ESE" | `Math.round(normalized / 22.5) % 16`: the nearest of the 16 points ("N" for 0, "E" for 90) | high; not executed | Format.DegreesToCompassNorth | Format.NearestCompassIndexIsNearest |
