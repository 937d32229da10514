/**
 * Geodesy primitives of the route code. Great-circle distance, the atan2 at
 * the heart of computeBearing and the cosine of an angle in degrees are
 * floating-point routines; they stay abstract (fields of a Geodesy value),
 * constrained only by what their JavaScript definitions guarantee. What the
 * source computes around them (the normalisation of a bearing into
 * [0, 360), Leaflet's coordinate equality, the wrapping of an angle
 * difference into (-180, 180]) is modelled exactly over the reals.
 */
module Geo {

  /** A Leaflet LatLng: latitude and longitude in degrees. */
  datatype LatLng = LatLng(lat: real, lng: real)

  /** The floating-point routines the route code calls. */
  datatype Geodesy = Geodesy(
    dist: (LatLng, LatLng) -> real,     // haversine distance in metres (LatLng.distanceTo, calculateDistance)
    atan2Deg: (LatLng, LatLng) -> real, // Math.atan2(y, x) * 180 / Math.PI inside computeBearing
    cosDeg: real -> real                // Math.cos(a * Math.PI / 180)
  )

  /** What the JavaScript definitions guarantee: a haversine distance is a non-negative
      multiple of an atan2, atan2 lies in [-PI, PI], and a cosine in [-1, 1]. */
  ghost predicate ValidGeodesy(g: Geodesy) {
    && (forall a, b :: g.dist(a, b) >= 0.0)
    && (forall a, b :: -180.0 <= g.atan2Deg(a, b) <= 180.0)
    && (forall x :: -1.0 <= g.cosDeg(x) <= 1.0)
  }

  /** Truncation toward zero, as JavaScript's `%` and Date's time clipping use it. */
  function Trunc(x: real): (n: int)
    ensures x >= 0.0 ==> n as real <= x < n as real + 1.0
    ensures x < 0.0 ==> n as real - 1.0 < x <= n as real
  {
    if x >= 0.0 then x.Floor else -((-x).Floor)
  }

  /** k whole turns, in degrees. */
  function Turns(k: int): real {
    360.0 * k as real
  }

  /** JavaScript's `x % 360` on numbers: the remainder takes the sign of the dividend. */
  function Rem360(x: real): (r: real)
    ensures x >= 0.0 ==> 0.0 <= r < 360.0
    ensures x < 0.0 ==> -360.0 < r <= 0.0
    ensures exists k: int :: r == x - Turns(k)
  {
    var k := Trunc(x / 360.0);
    x - Turns(k)
  }

  /** `(brngDeg + 360) % 360` (js/weather.js:540): the compass reading of the atan2 angle. */
  function Bearing(g: Geodesy, from: LatLng, to: LatLng): (r: real)
    requires ValidGeodesy(g)
    ensures 0.0 <= r < 360.0
    ensures r == if g.atan2Deg(from, to) >= 0.0 then g.atan2Deg(from, to) else g.atan2Deg(from, to) + 360.0
  {
    var d := g.atan2Deg(from, to);
    var r := Rem360(d + 360.0);
    var k: int :| r == d + 360.0 - Turns(k);
    assert k == 0 || k == 1;
    r
  }

  /** The largest coordinate gap Leaflet's LatLng.equals tolerates. */
  const EqualsMargin: real := 0.000000001

  /** Leaflet's `a.equals(b)`: both coordinates agree to within 1e-9 degrees. */
  predicate LatLngEquals(a: LatLng, b: LatLng) {
    var dLat := if a.lat >= b.lat then a.lat - b.lat else b.lat - a.lat;
    var dLng := if a.lng >= b.lng then a.lng - b.lng else b.lng - a.lng;
    (if dLat >= dLng then dLat else dLng) <= EqualsMargin
  }

  // ---------------------------------------------------------------------
  // Angle wrapping (js/weather.js:600-602, js/activity.js:400-402)

  function Ceil(x: real): (n: int)
    ensures n as real - 1.0 < x <= n as real
  {
    -((-x).Floor)
  }

  /** The angle in (-180, 180] that differs from x by a whole number of turns. */
  function Wrapped(x: real): (r: real)
    ensures -180.0 < r <= 180.0
    ensures exists k: int :: r == x + Turns(k)
  {
    var c := Ceil((x - 180.0) / 360.0);
    assert x - 180.0 <= 360.0 * c as real < x + 180.0;
    var r := x - 360.0 * c as real;
    assert r == x + Turns(-c);
    r
  }

  /** Only one angle in (-180, 180] is congruent to x modulo 360. */
  lemma WrappedUnique(x: real, y: real, k: int)
    requires -180.0 < y <= 180.0 && y == x + Turns(k)
    ensures y == Wrapped(x)
  {
    var j: int :| Wrapped(x) == x + Turns(j);
    assert y - Wrapped(x) == 360.0 * (k - j) as real;
    assert -1 < k - j < 1;
  }

  /** Wrapping depends only on the angle modulo 360. */
  lemma WrappedPeriodic(x: real, k: int)
    ensures Wrapped(x + Turns(k)) == Wrapped(x)
  {
    var j: int :| Wrapped(x) == x + Turns(j);
    WrappedUnique(x + Turns(k), Wrapped(x), j - k);
  }

  /**
   * The two while loops of the tailwind code: add 360 while the angle is at
   * most -180, then subtract 360 while it exceeds 180.
   */
  method WrapAngle(x: real) returns (a: real)
    ensures a == Wrapped(x)
    ensures -180.0 < a <= 180.0
  {
    a := x;
    ghost var k: int := 0;
    while a <= -180.0
      invariant a == x + Turns(k)
      decreases ((-180.0 - a) / 360.0).Floor
    {
      a := a + 360.0;
      k := k + 1;
    }
    while a > 180.0
      invariant a == x + Turns(k)
      invariant a > -180.0
      decreases ((a - 180.0) / 360.0).Floor
    {
      a := a - 360.0;
      k := k - 1;
    }
    WrappedUnique(x, a, k);
  }
}
