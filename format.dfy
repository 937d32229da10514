/**
 * Two display helpers of js/weather.js: formatDuration, which renders a
 * duration in ms as "H hr(s) M min(s)", and degreesToCompass, which names
 * a wind direction by one of the 16 compass points.
 */
module Format {
  import opened Common
  import opened Geo

  // ---------------------------------------------------------------------
  // formatDuration (js/weather.js:381-390)

  /** Whole seconds of a non-negative duration in ms. */
  function TotalSeconds(ms: real): nat
    requires ms >= 0.0
  {
    (ms / 1000.0).Floor
  }

  function HrWord(h: nat): string { if h > 1 then "hrs" else "hr" }

  function MinWord(m: nat): string { if m != 1 then "mins" else "min" }

  /** `${hours} hr${hours > 1 ? 's' : ''} ` when hours > 0. */
  function HoursPart(h: nat): string {
    if h > 0 then NatToString(h) + " " + HrWord(h) + " " else ""
  }

  /** `${minutes} min${minutes !== 1 ? 's' : ''}` when minutes > 0 or hours is 0. */
  function MinutesPart(h: nat, m: nat): string {
    if m > 0 || h == 0 then NatToString(m) + " " + MinWord(m) else ""
  }

  /** formatDuration: "N/A" for NaN or a negative value, otherwise hours and minutes, trimmed. */
  function FormatDuration(ms: JsNumber): string {
    if ms.NaN? || ms.value < 0.0 then "N/A"
    else
      var totalSeconds := TotalSeconds(ms.value);
      var hours := totalSeconds / 3600;
      var minutes := (totalSeconds % 3600) / 60;
      var t := Trim(HoursPart(hours) + MinutesPart(hours, minutes));
      if t == "" then "0 mins" else t
  }

  /** The words of a string, split at each blank. */
  function IndexOfBlank(s: string): (i: nat)
    ensures i <= |s| && (i < |s| ==> s[i] == ' ')
    ensures forall k :: 0 <= k < i ==> s[k] != ' '
  {
    if s == [] || s[0] == ' ' then 0 else 1 + IndexOfBlank(s[1..])
  }

  function Words(s: string): seq<string>
    decreases |s|
  {
    var i := IndexOfBlank(s);
    if i == |s| then [s] else [s[..i]] + Words(s[i + 1..])
  }

  predicate NoBlank(w: string) { forall k :: 0 <= k < |w| ==> w[k] != ' ' }

  lemma WordsSingle(w: string)
    requires NoBlank(w)
    ensures Words(w) == [w]
  {
  }

  lemma WordsCons(w: string, rest: string)
    requires NoBlank(w)
    ensures Words(w + " " + rest) == [w] + Words(rest)
  {
    var s := w + " " + rest;
    assert s[|w|] == ' ';
    assert forall k :: 0 <= k < |w| ==> s[k] == w[k];
    assert IndexOfBlank(s) == |w|;
    assert s[..|w|] == w && s[|w| + 1..] == rest;
  }

  /** Two blank-free words joined by a blank split back into those two words. */
  lemma WordsPair(a: string, b: string)
    requires NoBlank(a) && NoBlank(b)
    ensures Words(a + " " + b) == [a, b]
  {
    WordsSingle(b);
    WordsCons(a, b);
  }

  lemma UnitWordsNoBlank(n: nat)
    ensures NoBlank(HrWord(n)) && NoBlank(MinWord(n))
  {
  }

  predicate IsNumeral(w: string) { w != [] && forall k :: 0 <= k < |w| ==> IsDigit(w[k]) }

  /**
   * Reads a rendered duration back as a number of whole minutes: "H hr(s)",
   * "H hr(s) M min(s)" or "M min(s)".
   */
  function ReadDuration(s: string): Option<nat> {
    var w := Words(s);
    if |w| == 2 && IsNumeral(w[0]) && (w[1] == "hr" || w[1] == "hrs") then Some(60 * ParseDigits(w[0]))
    else if |w| == 2 && IsNumeral(w[0]) && (w[1] == "min" || w[1] == "mins") then Some(ParseDigits(w[0]))
    else if |w| == 4 && IsNumeral(w[0]) && (w[1] == "hr" || w[1] == "hrs")
         && IsNumeral(w[2]) && (w[3] == "min" || w[3] == "mins")
    then Some(60 * ParseDigits(w[0]) + ParseDigits(w[2]))
    else None
  }

  lemma NumeralOf(n: nat)
    ensures IsNumeral(NatToString(n)) && NoBlank(NatToString(n))
    ensures !IsSpace(NatToString(n)[0])
  {
  }

  /** "N/A" is returned for NaN and negative durations and for nothing else. */
  lemma FormatDurationNotAvailable(ms: JsNumber)
    ensures FormatDuration(ms) == "N/A" <==> ms.NaN? || ms.value < 0.0
  {
    if !(ms.NaN? || ms.value < 0.0) {
      var ts := TotalSeconds(ms.value);
      var h, m := ts / 3600, (ts % 3600) / 60;
      Rendered(h, m);
      var r := FormatDuration(ms);
      assert IsDigit(r[0]);
    }
  }

  /** A numeral, a blank and a unit word: it starts with a digit and ends with a letter. */
  lemma NumberAndUnit(n: nat, unit: string)
    requires unit == "hr" || unit == "hrs" || unit == "min" || unit == "mins"
    ensures var s := NatToString(n) + " " + unit;
      s != [] && IsDigit(s[0]) && !IsSpace(s[0]) && !IsSpace(s[|s| - 1])
  {
    NumeralOf(n);
  }

  /** Hours and no minutes: the trailing blank is trimmed away. */
  lemma RenderedHours(h: nat)
    requires h > 0
    ensures Trim(HoursPart(h) + MinutesPart(h, 0)) == NatToString(h) + " " + HrWord(h)
    ensures var t := Trim(HoursPart(h) + MinutesPart(h, 0)); t != [] && IsDigit(t[0])
  {
    var s := NatToString(h) + " " + HrWord(h);
    assert HoursPart(h) + MinutesPart(h, 0) == s + " ";
    NumberAndUnit(h, HrWord(h));
    TrimTrailingBlank(s);
  }

  /** Hours and minutes: nothing to trim. */
  lemma RenderedHoursMinutes(h: nat, m: nat)
    requires h > 0 && m > 0
    ensures Trim(HoursPart(h) + MinutesPart(h, m)) ==
      NatToString(h) + " " + (HrWord(h) + " " + (NatToString(m) + " " + MinWord(m)))
    ensures var t := Trim(HoursPart(h) + MinutesPart(h, m)); t != [] && IsDigit(t[0])
  {
    var tail := NatToString(m) + " " + MinWord(m);
    var s := NatToString(h) + " " + (HrWord(h) + " " + tail);
    assert HoursPart(h) + MinutesPart(h, m) == s;
    NumberAndUnit(h, HrWord(h));
    NumberAndUnit(m, MinWord(m));
    assert s[0] == (NatToString(h) + " " + HrWord(h))[0] && s[|s| - 1] == tail[|tail| - 1];
    TrimUnchanged(s);
  }

  /** No hours: the minutes alone, even when they are 0. */
  lemma RenderedMinutes(m: nat)
    ensures Trim(HoursPart(0) + MinutesPart(0, m)) == NatToString(m) + " " + MinWord(m)
    ensures var t := Trim(HoursPart(0) + MinutesPart(0, m)); t != [] && IsDigit(t[0])
  {
    var s := NatToString(m) + " " + MinWord(m);
    assert HoursPart(0) + MinutesPart(0, m) == s;
    NumberAndUnit(m, MinWord(m));
    TrimUnchanged(s);
  }

  /** The last three words of an hours-and-minutes rendering. */
  lemma WordsOfUnitAndMinutes(h: nat, m: nat)
    ensures Words(HrWord(h) + " " + (NatToString(m) + " " + MinWord(m))) == [HrWord(h), NatToString(m), MinWord(m)]
  {
    NumeralOf(m);
    UnitWordsNoBlank(h);
    UnitWordsNoBlank(m);
    WordsPair(NatToString(m), MinWord(m));
    WordsCons(HrWord(h), NatToString(m) + " " + MinWord(m));
  }

  /** The four words of an hours-and-minutes rendering. */
  lemma WordsOfHoursMinutes(h: nat, m: nat)
    ensures Words(NatToString(h) + " " + (HrWord(h) + " " + (NatToString(m) + " " + MinWord(m)))) ==
      [NatToString(h), HrWord(h), NatToString(m), MinWord(m)]
  {
    NumeralOf(h);
    var rest := HrWord(h) + " " + (NatToString(m) + " " + MinWord(m));
    WordsOfUnitAndMinutes(h, m);
    WordsCons(NatToString(h), rest);
  }

  /** The trimmed text of hours h and minutes m is never empty and starts with a digit. */
  lemma Rendered(h: nat, m: nat)
    ensures var t := Trim(HoursPart(h) + MinutesPart(h, m)); t != [] && IsDigit(t[0])
  {
    if h > 0 && m == 0 {
      RenderedHours(h);
    } else if h > 0 {
      RenderedHoursMinutes(h, m);
    } else {
      RenderedMinutes(m);
    }
  }

  /** "H hr(s)" reads back as 60 H minutes. */
  lemma ReadHours(h: nat)
    ensures var r := ReadDuration(NatToString(h) + " " + HrWord(h)); r.Some? && r.value == 60 * h
  {
    NumeralOf(h);
    UnitWordsNoBlank(h);
    WordsPair(NatToString(h), HrWord(h));
    NatToStringRoundTrip(h);
  }

  /** "M min(s)" reads back as M minutes. */
  lemma ReadMinutes(m: nat)
    ensures var r := ReadDuration(NatToString(m) + " " + MinWord(m)); r.Some? && r.value == m
  {
    NumeralOf(m);
    UnitWordsNoBlank(m);
    WordsPair(NatToString(m), MinWord(m));
    NatToStringRoundTrip(m);
  }

  /** "H hr(s) M min(s)" reads back as 60 H + M minutes. */
  lemma ReadHoursMinutes(h: nat, m: nat)
    ensures var r := ReadDuration(NatToString(h) + " " + (HrWord(h) + " " + (NatToString(m) + " " + MinWord(m))));
      r.Some? && r.value == 60 * h + m
  {
    WordsOfHoursMinutes(h, m);
    NumeralOf(h);
    NumeralOf(m);
    NatToStringRoundTrip(h);
    NatToStringRoundTrip(m);
  }

  /** Reading back the text of hours h and minutes m gives 60 h + m minutes. */
  lemma ReadRendered(h: nat, m: nat)
    ensures var r := ReadDuration(Trim(HoursPart(h) + MinutesPart(h, m))); r.Some? && r.value == 60 * h + m
  {
    if h > 0 && m == 0 {
      ReadRenderedHours(h);
    } else if h > 0 {
      ReadRenderedHoursMinutes(h, m);
    } else {
      ReadRenderedMinutes(m);
    }
  }

  lemma ReadRenderedHours(h: nat)
    requires h > 0
    ensures var r := ReadDuration(Trim(HoursPart(h) + MinutesPart(h, 0))); r.Some? && r.value == 60 * h
  {
    RenderedHours(h);
    ReadHours(h);
  }

  lemma ReadRenderedHoursMinutes(h: nat, m: nat)
    requires h > 0 && m > 0
    ensures var r := ReadDuration(Trim(HoursPart(h) + MinutesPart(h, m))); r.Some? && r.value == 60 * h + m
  {
    RenderedHoursMinutes(h, m);
    ReadHoursMinutes(h, m);
  }

  lemma ReadRenderedMinutes(m: nat)
    ensures var r := ReadDuration(Trim(HoursPart(0) + MinutesPart(0, m))); r.Some? && r.value == m
  {
    RenderedMinutes(m);
    ReadMinutes(m);
  }

  /** The text formatDuration trims, for a non-negative duration. */
  lemma FormatDurationText(ms: real)
    requires ms >= 0.0
    ensures var ts := TotalSeconds(ms);
      FormatDuration(Num(ms)) == Trim(HoursPart(ts / 3600) + MinutesPart(ts / 3600, (ts % 3600) / 60))
  {
    var ts := TotalSeconds(ms);
    Rendered(ts / 3600, (ts % 3600) / 60);
  }

  /**
   * The rendering of a non-negative duration loses nothing but the
   * seconds: reading it back gives its whole number of minutes.
   */
  lemma FormatDurationRoundTrip(ms: real)
    requires ms >= 0.0
    ensures ReadDuration(FormatDuration(Num(ms))) == Some(TotalSeconds(ms) / 60)
  {
    var ts := TotalSeconds(ms);
    var h, m := ts / 3600, (ts % 3600) / 60;
    MinutesSplit(ts, h, m);
    FormatDurationParts(ms, h, m);
    ReadText(FormatDuration(Num(ms)), ts / 60, h, m);
  }

  lemma ReadText(text: string, n: nat, h: nat, m: nat)
    requires n == 60 * h + m && text == Trim(HoursPart(h) + MinutesPart(h, m))
    ensures ReadDuration(text).Some? && ReadDuration(text).value == n
  {
    ReadRendered(h, m);
  }

  /** Whole hours and leftover minutes make up the whole minutes. */
  lemma MinutesSplit(ts: nat, h: nat, m: nat)
    requires h == ts / 3600 && m == (ts % 3600) / 60
    ensures m < 60 && 60 * h + m == ts / 60
  {
    var r := ts % 3600;
    var q := r % 60;
    assert ts == 3600 * h + r && r == 60 * m + q;
    assert ts == 60 * (60 * h + m) + q;
  }

  /** Two non-negative durations render alike only when they have the same whole minutes. */
  lemma FormatDurationInjective(a: real, b: real)
    requires a >= 0.0 && b >= 0.0 && FormatDuration(Num(a)) == FormatDuration(Num(b))
    ensures TotalSeconds(a) / 60 == TotalSeconds(b) / 60
  {
    FormatDurationRoundTrip(a);
    FormatDurationRoundTrip(b);
  }

  /** The rendering of a duration given its whole hours and leftover minutes. */
  lemma FormatDurationParts(ms: real, h: nat, m: nat)
    requires ms >= 0.0
    requires h == TotalSeconds(ms) / 3600 && m == (TotalSeconds(ms) % 3600) / 60
    ensures FormatDuration(Num(ms)) == Trim(HoursPart(h) + MinutesPart(h, m))
  {
    FormatDurationText(ms);
  }

  lemma MinutesText(m: nat, text: string)
    requires (m == 0 && text == "0 mins") || (m == 1 && text == "1 min")
    ensures NatToString(m) + " " + MinWord(m) == text
  {
  }

  /** Under a minute reads "0 mins". */
  lemma FormatDurationUnderAMinute(ms: real)
    requires 0.0 <= ms < 60000.0
    ensures FormatDuration(Num(ms)) == "0 mins"
  {
    FormatDurationParts(ms, 0, 0);
    RenderedMinutes(0);
    MinutesText(0, "0 mins");
  }

  /** One minute reads "1 min", in the singular. */
  lemma FormatDurationOneMinute()
    ensures FormatDuration(Num(60000.0)) == "1 min"
  {
    FormatDurationParts(60000.0, 0, 1);
    RenderedMinutes(1);
    MinutesText(1, "1 min");
  }

  /** One hour reads "1 hr": no minutes part, no trailing blank. */
  lemma FormatDurationOneHour()
    ensures FormatDuration(Num(3600000.0)) == "1 hr"
  {
    FormatDurationParts(3600000.0, 1, 0);
    RenderedHours(1);
    assert NatToString(1) + " " + HrWord(1) == "1 hr";
  }

  lemma HourAndHalfText()
    ensures NatToString(1) + " " + (HrWord(1) + " " + (NatToString(30) + " " + MinWord(30))) == "1 hr 30 mins"
  {
    assert NatToString(30) == "30";
  }

  /** An hour and a half reads "1 hr 30 mins". */
  lemma FormatDurationHourAndHalf()
    ensures FormatDuration(Num(5400000.0)) == "1 hr 30 mins"
  {
    FormatDurationParts(5400000.0, 1, 30);
    RenderedHoursMinutes(1, 30);
    HourAndHalfText();
  }

  // ---------------------------------------------------------------------
  // degreesToCompass (js/weather.js:1-8)

  const Directions: seq<string> :=
    ["N", "NNE", "NE", "ENE", "E", "ESE", "SE", "SSE", "S", "SSW", "SW", "WSW", "W", "WNW", "NW", "NNW"]

  /** `((degrees % 360) + 360) % 360`: the direction as an angle in [0, 360). */
  function Normalized(d: real): (r: real)
    ensures 0.0 <= r < 360.0
  {
    Rem360(Rem360(d) + 360.0)
  }

  /** A whole number of turns strictly between -360 and 360 degrees is no turn at all. */
  lemma TurnsWithinOne(k: int)
    requires -360.0 < Turns(k) < 360.0
    ensures k == 0
  {
  }

  /** The normalized angle is the direction less its whole turns, `d - 360 floor(d / 360)`. */
  lemma NormalizedClosedForm(d: real)
    ensures Normalized(d) == d - Turns((d / 360.0).Floor)
  {
    var a := Rem360(d);
    var k1 := Trunc(d / 360.0);
    var k2 := Trunc((a + 360.0) / 360.0);
    var f := (d / 360.0).Floor;
    assert a == d - Turns(k1);
    assert Normalized(d) == d + Turns(1 - k1 - k2);
    var y := d - Turns(f);
    assert 0.0 <= y < 360.0;
    TurnsWithinOne(1 - k1 - k2 + f);
  }

  /** Normalizing keeps the direction modulo 360 degrees. */
  lemma NormalizedPeriodic(d: real, k: int)
    ensures Normalized(d + Turns(k)) == Normalized(d)
  {
    NormalizedClosedForm(d);
    NormalizedClosedForm(d + Turns(k));
    assert (d + Turns(k)) / 360.0 == d / 360.0 + k as real;
    assert ((d + Turns(k)) / 360.0).Floor == (d / 360.0).Floor + k;
  }

  /** A direction already in [0, 360) is left as it is. */
  lemma NormalizedInRange(d: real)
    requires 0.0 <= d < 360.0
    ensures Normalized(d) == d
  {
    NormalizedClosedForm(d);
    assert (d / 360.0).Floor == 0;
  }

  /** `Math.round(x)`: the nearest integer, halves rounded up. */
  function Round(x: real): (n: int)
    ensures x - 0.5 < n as real <= x + 0.5
  {
    (x + 0.5).Floor
  }

  /** The index degreesToCompass computes, as written. */
  function CompassIndex(d: real): (i: nat)
    ensures i < 16
  {
    Round((Normalized(d) + 11.25) / 22.5) % 16
  }

  function DegreesToCompass(d: real): (r: string)
    ensures r in Directions
  {
    Directions[CompassIndex(d)]
  }

  /** Only the direction modulo 360 degrees matters. */
  lemma DegreesToCompassPeriodic(d: real, k: int)
    ensures DegreesToCompass(d + Turns(k)) == DegreesToCompass(d)
  {
    NormalizedPeriodic(d, k);
  }

  /** The written index, sector by sector: a direction in [22.5 j, 22.5 (j + 1)) gets point j + 1. */
  lemma CompassIndexSector(d: real, j: int)
    requires 0 <= j < 16 && 22.5 * j as real <= Normalized(d) < 22.5 * (j + 1) as real
    ensures CompassIndex(d) == (j + 1) % 16
  {
    var n := Normalized(d);
    assert (n + 11.25) / 22.5 + 0.5 == n / 22.5 + 1.0;
    assert j as real <= n / 22.5 < (j + 1) as real;
  }

  /**
   * Due north as written: every direction in [0, 11.25), whose nearest
   * point is north, reads "NNE".
   */
  lemma DegreesToCompassNorth(d: real)
    requires 0.0 <= d < 11.25
    ensures DegreesToCompass(d) == "NNE" && DegreesToCompassNearest(d) == "N"
  {
    NormalizedInRange(d);
    CompassIndexSector(d, 0);
    NearestIndexSector(d, 0);
  }

  /** Due east as written: every direction in [90, 101.25), whose nearest point is east, reads "ESE". */
  lemma DegreesToCompassEast(d: real)
    requires 90.0 <= d < 101.25
    ensures DegreesToCompass(d) == "ESE" && DegreesToCompassNearest(d) == "E"
  {
    NormalizedInRange(d);
    CompassIndexSector(d, 4);
    NearestIndexSector(d, 4);
  }

  /**
   * In general the written label's direction lies ahead of the wind
   * direction by more than 0 and at most 22.5 degrees, never on it: the
   * half-sector shift is applied twice, once by adding 11.25 and once by
   * rounding.
   */
  lemma CompassLabelAhead(d: real)
    ensures exists k :: 0.0 < 22.5 * CompassIndex(d) as real - Normalized(d) + Turns(k) <= 22.5
  {
    var n := Normalized(d);
    var f := (n / 22.5).Floor;
    assert (n + 11.25) / 22.5 + 0.5 == n / 22.5 + 1.0;
    assert Round((n + 11.25) / 22.5) == f + 1;
    if f + 1 < 16 {
      assert 0.0 < 22.5 * CompassIndex(d) as real - n + Turns(0) <= 22.5;
    } else {
      assert 0.0 < 22.5 * CompassIndex(d) as real - n + Turns(1) <= 22.5;
    }
  }

  /** The nearest of the 16 points: `Math.round(normalized / 22.5) % 16`. */
  function NearestCompassIndex(d: real): (i: nat)
    ensures i < 16
  {
    Round(Normalized(d) / 22.5) % 16
  }

  /** The corrected index names a point within half a sector (11.25 degrees) of the direction. */
  lemma NearestCompassIndexIsNearest(d: real)
    ensures exists k :: -11.25 <= Normalized(d) - 22.5 * NearestCompassIndex(d) as real + Turns(k) < 11.25
  {
    var n := Normalized(d);
    var f := Round(n / 22.5);
    assert -11.25 <= n - 22.5 * f as real < 11.25;
    if f < 16 {
      assert -11.25 <= n - 22.5 * NearestCompassIndex(d) as real + Turns(0) < 11.25;
    } else {
      assert -11.25 <= n - 22.5 * NearestCompassIndex(d) as real + Turns(-1) < 11.25;
    }
  }

  /** degreesToCompass as evidently intended: the label of the nearest compass point. */
  function DegreesToCompassNearest(d: real): (r: string)
    ensures r in Directions
  {
    Directions[NearestCompassIndex(d)]
  }

  /** The corrected index, sector by sector: a direction within 11.25 degrees of point j gets point j. */
  lemma NearestIndexSector(d: real, j: int)
    requires 0 <= j <= 16 && 22.5 * j as real - 11.25 <= Normalized(d) < 22.5 * j as real + 11.25
    ensures NearestCompassIndex(d) == j % 16
  {
    var n := Normalized(d);
    assert j as real - 0.5 <= n / 22.5 < j as real + 0.5;
  }

  /** Just short of 360 degrees both readings agree on north. */
  lemma DegreesToCompassNearlyFullTurn(d: real)
    requires 348.75 <= d < 360.0
    ensures DegreesToCompass(d) == "N" && DegreesToCompassNearest(d) == "N"
  {
    NormalizedInRange(d);
    CompassIndexSector(d, 15);
    NearestIndexSector(d, 16);
  }
}
