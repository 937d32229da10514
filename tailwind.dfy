/**
 * The tailwind arithmetic shared by the planning score (js/weather.js) and
 * the activity score (js/activity.js): the component of the wind along the
 * direction of travel, and the forEach that averages the samples that
 * survived (null marks a dropped sample).
 */
module Tailwind {
  import opened Common
  import opened Geo

  /**
   * The tailwind component in km/h for a rider heading `bearing` of a wind
   * of `speedMs` m/s whose reported direction is `windDir`: speed * 3.6
   * times the cosine of the wind-minus-heading angle wrapped into
   * (-180, 180]. Both weather services report the direction the wind
   * blows FROM, so a wind from straight ahead (windDir == bearing) scores
   * +speed; the formula is kept as the source writes it.
   */
  function Component(g: Geodesy, speedMs: real, windDir: real, bearing: real): real {
    speedMs * 3.6 * g.cosDeg(Wrapped(windDir - bearing))
  }

  /** The component never exceeds the wind speed in km/h, in either direction. */
  lemma ComponentBound(g: Geodesy, speedMs: real, windDir: real, bearing: real)
    requires ValidGeodesy(g) && speedMs >= 0.0
    ensures -speedMs * 3.6 <= Component(g, speedMs, windDir, bearing) <= speedMs * 3.6
  {
    var c := g.cosDeg(Wrapped(windDir - bearing));
    var k := speedMs * 3.6;
    assert k * c == Component(g, speedMs, windDir, bearing);
    if k > 0.0 {
      if c < 1.0 {
        ProductPositive(k, 1.0 - c);
      }
      if c > -1.0 {
        ProductPositive(k, c + 1.0);
      }
    }
  }

  /** A wind direction matters only modulo 360 degrees. */
  lemma ComponentPeriodic(g: Geodesy, speedMs: real, windDir: real, bearing: real, k: int)
    ensures Component(g, speedMs, windDir + Turns(k), bearing) == Component(g, speedMs, windDir, bearing)
  {
    assert windDir + Turns(k) - bearing == (windDir - bearing) + Turns(k);
    WrappedPeriodic(windDir - bearing, k);
  }

  /**
   * The wind-minus-heading angle and its component, computed as the source
   * does: two while loops bring the angle into (-180, 180].
   */
  method ComputeComponent(g: Geodesy, speedMs: real, windDir: real, bearing: real) returns (c: real)
    ensures c == Component(g, speedMs, windDir, bearing)
  {
    var angle := WrapAngle(windDir - bearing);
    c := speedMs * 3.6 * g.cosDeg(angle);
  }

  // ---------------------------------------------------------------------
  // Aggregation of the per-sample results

  /** The number of samples that survived. */
  function CountValid(rs: seq<Option<real>>): (n: nat)
    ensures n <= |rs|
    ensures n == 0 <==> forall i :: 0 <= i < |rs| ==> rs[i].None?
  {
    if rs == [] then 0
    else CountValid(rs[..|rs| - 1]) + (if rs[|rs| - 1].Some? then 1 else 0)
  }

  /** The sum of the surviving components. */
  function SumValid(rs: seq<Option<real>>): real {
    if rs == [] then 0.0
    else SumValid(rs[..|rs| - 1]) + (if rs[|rs| - 1].Some? then rs[|rs| - 1].value else 0.0)
  }

  /** The score: the mean of the surviving components, 0 when none survived. */
  function MeanOfValid(rs: seq<Option<real>>): real {
    var n := CountValid(rs);
    if n > 0 then SumValid(rs) / n as real else 0.0
  }

  /**
   * The forEach over the results: only non-null numbers are added and
   * counted, and the total is divided by the count of those, never by the
   * number of samples.
   */
  method Aggregate(results: seq<Option<real>>) returns (score: real)
    ensures score == MeanOfValid(results)
  {
    var total := 0.0;
    var valid: nat := 0;
    var i := 0;
    while i < |results|
      invariant 0 <= i <= |results|
      invariant total == SumValid(results[..i]) && valid == CountValid(results[..i])
    {
      assert results[..i + 1][..i] == results[..i];
      if results[i].Some? {
        total := total + results[i].value;
        valid := valid + 1;
      }
      i := i + 1;
    }
    assert results[..i] == results;
    score := if valid > 0 then total / valid as real else 0.0;
  }

  /** A dropped sample, wherever it sits, changes neither the sum nor the count. */
  lemma {:induction false} DroppedSampleIgnored(rs: seq<Option<real>>, ts: seq<Option<real>>)
    ensures CountValid(rs + [None] + ts) == CountValid(rs + ts)
    ensures SumValid(rs + [None] + ts) == SumValid(rs + ts)
    ensures MeanOfValid(rs + [None] + ts) == MeanOfValid(rs + ts)
    decreases |ts|
  {
    if ts == [] {
      assert (rs + [None] + ts)[..|rs|] == rs;
      assert rs + ts == rs;
    } else {
      var ts' := ts[..|ts| - 1];
      assert (rs + [None] + ts)[..|rs + [None] + ts| - 1] == rs + [None] + ts';
      assert (rs + ts)[..|rs + ts| - 1] == rs + ts';
      DroppedSampleIgnored(rs, ts');
    }
  }

  /** c added once per surviving sample. */
  function Repeat(rs: seq<Option<real>>, c: real): real {
    if rs == [] then 0.0
    else Repeat(rs[..|rs| - 1], c) + (if rs[|rs| - 1].Some? then c else 0.0)
  }

  lemma {:induction false} RepeatIsProduct(rs: seq<Option<real>>, c: real)
    ensures Repeat(rs, c) == c * CountValid(rs) as real
    decreases |rs|
  {
    if rs != [] {
      RepeatIsProduct(rs[..|rs| - 1], c);
      ScaleStep(c, CountValid(rs[..|rs| - 1]) as real);
    }
  }

  lemma ScaleStep(c: real, n: real)
    ensures c * (n + 1.0) == c * n + c
  {
  }

  /** When every surviving component lies in [lo, hi], the sum lies between lo and hi added once per survivor. */
  lemma {:induction false} SumValidBounds(rs: seq<Option<real>>, lo: real, hi: real)
    requires forall i :: 0 <= i < |rs| && rs[i].Some? ==> lo <= rs[i].value <= hi
    ensures Repeat(rs, lo) <= SumValid(rs) <= Repeat(rs, hi)
    decreases |rs|
  {
    if rs != [] {
      var init := rs[..|rs| - 1];
      assert forall i :: 0 <= i < |init| ==> init[i] == rs[i];
      SumValidBounds(init, lo, hi);
    }
  }

  /**
   * The score is a mean: when every surviving component lies in [lo, hi],
   * so does the score, and with no survivor it is exactly 0.
   */
  lemma MeanOfValidBounds(rs: seq<Option<real>>, lo: real, hi: real)
    requires forall i :: 0 <= i < |rs| && rs[i].Some? ==> lo <= rs[i].value <= hi
    ensures CountValid(rs) == 0 ==> MeanOfValid(rs) == 0.0
    ensures CountValid(rs) > 0 ==> lo <= MeanOfValid(rs) <= hi
  {
    if CountValid(rs) > 0 {
      SumValidBounds(rs, lo, hi);
      MeanFromRepeat(rs, lo, hi);
    }
  }

  lemma MeanFromRepeat(rs: seq<Option<real>>, lo: real, hi: real)
    requires CountValid(rs) > 0 && Repeat(rs, lo) <= SumValid(rs) <= Repeat(rs, hi)
    ensures lo <= MeanOfValid(rs) <= hi
  {
    RepeatIsProduct(rs, lo);
    RepeatIsProduct(rs, hi);
    MeanBetween(SumValid(rs), CountValid(rs), lo, hi);
  }

  lemma MeanBetween(sum: real, n: nat, lo: real, hi: real)
    requires n > 0 && lo * n as real <= sum <= hi * n as real
    ensures lo <= sum / n as real <= hi
  {
    QuotientBounds(sum, n as real, lo, hi);
  }

  /** Survivors that all agree on one value average to that value, however many were dropped. */
  lemma MeanOfAgreeing(rs: seq<Option<real>>, c: real)
    requires forall i :: 0 <= i < |rs| && rs[i].Some? ==> rs[i].value == c
    requires exists i :: 0 <= i < |rs| && rs[i].Some?
    ensures MeanOfValid(rs) == c
  {
    MeanOfValidBounds(rs, c, c);
  }

  /** Three samples of which the middle one was dropped: the score divides by 2, not by 3. */
  lemma MeanSkipsDropped(a: real, b: real)
    ensures MeanOfValid([Some(a), None, Some(b)]) == (a + b) / 2.0
  {
    var rs := [Some(a), None, Some(b)];
    assert rs[..2] == [Some(a), None];
    assert rs[..2][..1] == [Some(a)];
    assert [Some(a)][..0] == [];
    assert CountValid([Some(a)]) == 1 && SumValid([Some(a)]) == a;
    assert CountValid(rs[..2]) == 1 && SumValid(rs[..2]) == a;
    assert CountValid(rs) == 2 && SumValid(rs) == a + b;
  }
}
