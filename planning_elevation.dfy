/**
 * The elevation side of route planning in js/weather.js: the climb and
 * descent statistics of a planned route (calculatePlanningElevationMetrics),
 * the local peaks of an elevation profile (detectPeaks) and the index
 * sampling that caps the points sent to the elevation service
 * (addElevationDataToPoints).
 */
module PlanningElevation {

  import opened Common

  /** One numeric property of a route point: absent (undefined or null), NaN, or a number. */
  datatype Field = Missing | NotANumber | Number(v: real)

  /** A route point's three possible elevation properties. */
  datatype PlanPoint = PlanPoint(alt: Field, elevation: Field, ele: Field)

  /** JavaScript truthiness of a number property: present, not NaN and not 0. */
  predicate Truthy(f: Field) {
    f.Number? && f.v != 0.0
  }

  /**
   * `p.alt || p.elevation || p.ele || null`: the first truthy property, so
   * an elevation of exactly 0 m (like NaN) counts as missing. The
   * `!isNaN` test that follows can never fail on a truthy number.
   */
  function EffectiveElevation(p: PlanPoint): (r: Option<real>)
    ensures r.Some? <==> Truthy(p.alt) || Truthy(p.elevation) || Truthy(p.ele)
    ensures r.Some? ==> r.value != 0.0
    ensures Truthy(p.alt) ==> r == Some(p.alt.v)
  {
    if Truthy(p.alt) then Some(p.alt.v)
    else if Truthy(p.elevation) then Some(p.elevation.v)
    else if Truthy(p.ele) then Some(p.ele.v)
    else None
  }

  function Elevations(pts: seq<PlanPoint>): (es: seq<Option<real>>)
    ensures |es| == |pts|
    ensures forall i :: 0 <= i < |pts| ==> es[i] == EffectiveElevation(pts[i])
  {
    seq(|pts|, i requires 0 <= i < |pts| => EffectiveElevation(pts[i]))
  }

  function Max(a: real, b: real): real { if a >= b then a else b }

  function Min(a: real, b: real): real { if a <= b then a else b }

  /** Pair (i - 1, i) contributes: both of its elevations are present. */
  predicate Counted(es: seq<Option<real>>, i: int) {
    1 <= i < |es| && es[i - 1].Some? && es[i].Some?
  }

  /** Whether the last pair of es contributes. */
  predicate LastCounted(es: seq<Option<real>>) {
    Counted(es, |es| - 1)
  }

  function Init(es: seq<Option<real>>): seq<Option<real>>
    requires es != []
  {
    es[..|es| - 1]
  }

  /** The climb of the last pair, when it is a climb. */
  function Rise(es: seq<Option<real>>): real
    requires LastCounted(es)
  {
    var d := es[|es| - 1].value - es[|es| - 2].value;
    if d > 0.0 then d else 0.0
  }

  /** The drop of the last pair: `Math.abs(diff)` whenever diff is not positive. */
  function Fall(es: seq<Option<real>>): real
    requires LastCounted(es)
  {
    var d := es[|es| - 1].value - es[|es| - 2].value;
    if d > 0.0 then 0.0 else -d
  }

  /** hasElevation: some pair has contributed. */
  predicate HasPair(es: seq<Option<real>>) {
    |es| >= 2 && (HasPair(Init(es)) || LastCounted(es))
  }

  function Ascent(es: seq<Option<real>>): real {
    if |es| < 2 then 0.0
    else Ascent(Init(es)) + (if LastCounted(es) then Rise(es) else 0.0)
  }

  function Descent(es: seq<Option<real>>): real {
    if |es| < 2 then 0.0
    else Descent(Init(es)) + (if LastCounted(es) then Fall(es) else 0.0)
  }

  /** `maxElevation = Math.max(maxElevation, currEle)`, starting from -Infinity. */
  function MaxElevation(es: seq<Option<real>>): real
    requires HasPair(es)
  {
    var init := Init(es);
    if !LastCounted(es) then MaxElevation(init)
    else
      var curr := es[|es| - 1].value;
      if HasPair(init) then Max(MaxElevation(init), curr) else curr
  }

  /** `minElevation = Math.min(minElevation, currEle, prevEle)`, starting from Infinity. */
  function MinElevation(es: seq<Option<real>>): real
    requires HasPair(es)
  {
    var init := Init(es);
    if !LastCounted(es) then MinElevation(init)
    else
      var pair := Min(es[|es| - 1].value, es[|es| - 2].value);
      if HasPair(init) then Min(MinElevation(init), pair) else pair
  }

  datatype ElevationMetrics = ElevationMetrics(
    hasElevation: bool,
    totalAscent: real,
    totalDescent: real,
    maxElevation: real,
    minElevation: real)

  /** The returned object: every figure 0 when no pair contributed. */
  function Metrics(es: seq<Option<real>>): ElevationMetrics {
    if HasPair(es) then ElevationMetrics(true, Ascent(es), Descent(es), MaxElevation(es), MinElevation(es))
    else ElevationMetrics(false, 0.0, 0.0, 0.0, 0.0)
  }

  lemma InitPrefix(es: seq<Option<real>>, i: nat)
    requires 1 <= i < |es|
    ensures Init(es[..i + 1]) == es[..i]
    ensures LastCounted(es[..i + 1]) <==> Counted(es, i)
  {
    assert es[..i + 1][..i] == es[..i];
  }

  /**
   * calculatePlanningElevationMetrics (js/weather.js:267-304): the loop
   * over consecutive pairs with its five accumulators. The -Infinity and
   * Infinity starting values of max and min are the `has` flag here: the
   * first contributing pair sets them outright.
   */
  method PlanningElevationMetrics(pts: seq<PlanPoint>) returns (m: ElevationMetrics)
    ensures m == Metrics(Elevations(pts))
  {
    ghost var es := Elevations(pts);
    var totalAscent, totalDescent := 0.0, 0.0;
    var maxE, minE := 0.0, 0.0;
    var has := false;
    if |pts| < 2 {
      return ElevationMetrics(false, 0.0, 0.0, 0.0, 0.0);
    }
    var i := 1;
    while i < |pts|
      invariant 1 <= i <= |pts|
      invariant has == HasPair(es[..i])
      invariant totalAscent == Ascent(es[..i]) && totalDescent == Descent(es[..i])
      invariant has ==> maxE == MaxElevation(es[..i]) && minE == MinElevation(es[..i])
    {
      InitPrefix(es, i);
      var prevEle := EffectiveElevation(pts[i - 1]);
      var currEle := EffectiveElevation(pts[i]);
      if prevEle.Some? && currEle.Some? {
        var diff := currEle.value - prevEle.value;
        if diff > 0.0 {
          totalAscent := totalAscent + diff;
        } else {
          totalDescent := totalDescent + -diff;
        }
        if has {
          maxE := Max(maxE, currEle.value);
          minE := Min(minE, Min(currEle.value, prevEle.value));
        } else {
          maxE := currEle.value;
          minE := Min(currEle.value, prevEle.value);
        }
        has := true;
      }
      i := i + 1;
    }
    assert es[..i] == es;
    if has {
      m := ElevationMetrics(true, totalAscent, totalDescent, maxE, minE);
    } else {
      m := ElevationMetrics(false, 0.0, 0.0, 0.0, 0.0);
    }
  }

  /** hasElevation is true exactly when some consecutive pair has both elevations. */
  lemma {:induction false} HasPairIff(es: seq<Option<real>>)
    ensures HasPair(es) <==> exists i :: Counted(es, i)
    decreases |es|
  {
    if |es| >= 2 {
      var init := Init(es);
      HasPairIff(init);
      if exists i :: Counted(init, i) {
        var i :| Counted(init, i);
        assert Counted(es, i);
      }
      if exists i :: Counted(es, i) {
        var i :| Counted(es, i);
        if i < |es| - 1 {
          assert Counted(init, i);
        }
      }
    } else {
      assert forall i :: !Counted(es, i);
    }
  }

  /** Ascent and descent are never negative. */
  lemma {:induction false} TotalsNonNegative(es: seq<Option<real>>)
    ensures Ascent(es) >= 0.0 && Descent(es) >= 0.0
    decreases |es|
  {
    if |es| >= 2 {
      TotalsNonNegative(Init(es));
    }
  }

  /** Pair i's elevations as seen from the prefix that ends with it. */
  lemma CountedInInit(es: seq<Option<real>>, i: int)
    requires es != [] && Counted(es, i) && i < |es| - 1
    ensures Counted(Init(es), i) && Init(es)[i] == es[i] && Init(es)[i - 1] == es[i - 1]
  {
  }

  /**
   * The extremes are bounds: every contributing pair's elevations lie at or
   * above the minimum, and its second elevation at or below the maximum.
   */
  lemma {:induction false} ExtremesBound(es: seq<Option<real>>, i: int)
    requires Counted(es, i)
    ensures HasPair(es)
    ensures MinElevation(es) <= es[i - 1].value && MinElevation(es) <= es[i].value
    ensures es[i].value <= MaxElevation(es)
    decreases |es|
  {
    HasPairIff(es);
    if i < |es| - 1 {
      CountedInInit(es, i);
      ExtremesBound(Init(es), i);
    }
  }

  /** With some pair counted, the minimum never exceeds the maximum. */
  lemma MinAtMostMax(es: seq<Option<real>>)
    requires HasPair(es)
    ensures MinElevation(es) <= MaxElevation(es)
  {
    HasPairIff(es);
    var i :| Counted(es, i);
    ExtremesBound(es, i);
  }

  /** Every point has an elevation: ascent minus descent is the last elevation minus the first. */
  lemma {:induction false} NetClimb(es: seq<Option<real>>)
    requires |es| >= 1 && forall i :: 0 <= i < |es| ==> es[i].Some?
    ensures Ascent(es) - Descent(es) == es[|es| - 1].value - es[0].value
    decreases |es|
  {
    if |es| >= 2 {
      var init := Init(es);
      assert forall i :: 0 <= i < |init| ==> init[i] == es[i];
      NetClimb(init);
    }
  }

  /** Zero elevations are missing ones: a route whose points all read 0 m (or nothing) has no elevation. */
  lemma ZeroElevationMissing(pts: seq<PlanPoint>)
    requires forall i :: 0 <= i < |pts| ==> !Truthy(pts[i].alt) && !Truthy(pts[i].elevation) && !Truthy(pts[i].ele)
    ensures Metrics(Elevations(pts)) == ElevationMetrics(false, 0.0, 0.0, 0.0, 0.0)
  {
    var es := Elevations(pts);
    HasPairIff(es);
    assert forall i :: !Counted(es, i);
  }

  /**
   * Only the second point of a pair updates the maximum, so a route that
   * starts at its highest point and descends reports the lower end.
   */
  lemma MaxSkipsFirstPoint(a: real, b: real)
    requires b < a && b != 0.0
    ensures MaxElevation([Some(a), Some(b)]) == b
  {
    var es := [Some(a), Some(b)];
    assert Init(es) == [Some(a)];
  }

  // ---------------------------------------------------------------------
  // detectPeaks (js/weather.js:1145-1157)

  /** Point i is higher than both neighbours and its smaller drop is at least the prominence. */
  predicate IsPeak(elev: seq<real>, i: int, prominence: real) {
    && 1 <= i < |elev| - 1
    && elev[i] > elev[i - 1] && elev[i] > elev[i + 1]
    && Min(elev[i] - elev[i - 1], elev[i] - elev[i + 1]) >= prominence
  }

  predicate StrictlyIncreasing(s: seq<int>) {
    forall a, b :: 0 <= a < b < |s| ==> s[a] < s[b]
  }

  /**
   * detectPeaks: the indices of the peaks, in increasing order, each one
   * once, and no other index.
   */
  method DetectPeaks(elev: seq<real>, prominence: real) returns (peaks: seq<int>)
    ensures StrictlyIncreasing(peaks)
    ensures forall k :: 0 <= k < |peaks| ==> 1 <= peaks[k] < |elev| - 1
    ensures forall i :: i in peaks <==> IsPeak(elev, i, prominence)
  {
    peaks := [];
    var i := 1;
    while i < |elev| - 1
      invariant 1 <= i
      invariant StrictlyIncreasing(peaks)
      invariant forall k :: 0 <= k < |peaks| ==> 1 <= peaks[k] < i && peaks[k] < |elev| - 1
      invariant forall j :: j in peaks <==> 1 <= j < i && IsPeak(elev, j, prominence)
    {
      var prev, curr, next := elev[i - 1], elev[i], elev[i + 1];
      if curr > prev && curr > next {
        var drop := Min(curr - prev, curr - next);
        if drop >= prominence {
          peaks := peaks + [i];
        }
      }
      i := i + 1;
    }
  }

  /** Two neighbouring points are never both peaks. */
  lemma PeaksNotAdjacent(elev: seq<real>, i: int, prominence: real)
    requires IsPeak(elev, i, prominence)
    ensures !IsPeak(elev, i + 1, prominence)
  {
  }

  // ---------------------------------------------------------------------
  // Sampling for the elevation service (js/weather.js:1003-1016)

  /** The most points the elevation request is meant to carry. */
  const MaxPoints: nat := 50

  function Indices(n: nat): (r: seq<nat>)
    ensures |r| == n && forall k :: 0 <= k < n ==> r[k] == k
  {
    seq(n, k requires 0 <= k < n => k)
  }

  /** `filter((_, index) => index % stride === 0)` over the first m indices. */
  function Multiples(m: nat, stride: nat): (r: seq<nat>)
    requires stride > 0
    ensures forall k :: 0 <= k < |r| ==> r[k] < m && r[k] % stride == 0
    ensures forall j :: 0 <= j < m && j % stride == 0 ==> j in r
    ensures forall a, b :: 0 <= a < b < |r| ==> r[a] < r[b]
  {
    if m == 0 then []
    else Multiples(m - 1, stride) + (if (m - 1) % stride == 0 then [m - 1] else [])
  }

  /**
   * The indices of the points sent: all of them up to 50 points; beyond
   * that those whose index is a multiple of floor(n / 50), with the last
   * point appended when the filter did not keep it.
   */
  function ElevationSample(n: nat): seq<nat> {
    if n <= MaxPoints then Indices(n)
    else
      var kept := Multiples(n, n / MaxPoints);
      if kept != [] && kept[|kept| - 1] == n - 1 then kept else kept + [n - 1]
  }

  /**
   * The sample starts at the first point, ends at the last, increases
   * strictly, and holds every multiple of the stride below n: no index
   * is sent twice and none is out of range.
   */
  lemma ElevationSampleShape(n: nat)
    requires n > MaxPoints
    ensures var r := ElevationSample(n);
      && r[0] == 0 && r[|r| - 1] == n - 1
      && (forall a, b :: 0 <= a < b < |r| ==> r[a] < r[b])
      && (forall k :: 0 <= k < |r| ==> r[k] < n && (r[k] % (n / MaxPoints) == 0 || r[k] == n - 1))
      && (forall j :: 0 <= j < n && j % (n / MaxPoints) == 0 ==> j in r)
  {
    var kept := Multiples(n, n / MaxPoints);
    assert 0 in kept;
    var z :| 0 <= z < |kept| && kept[z] == 0;
    assert z == 0;
  }

  /** Under a hundred points the stride is 1, so every point is sent, well over 50 of them. */
  lemma {:induction false} MultiplesOfOne(m: nat)
    ensures Multiples(m, 1) == Indices(m)
  {
    if m > 0 {
      MultiplesOfOne(m - 1);
      assert Indices(m) == Indices(m - 1) + [m - 1];
    }
  }

  lemma ElevationSampleUnderHundred(n: nat)
    requires MaxPoints < n < 2 * MaxPoints
    ensures ElevationSample(n) == Indices(n)
  {
    assert n / MaxPoints == 1;
    MultiplesOfOne(n);
  }
}
