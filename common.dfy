/**
 * Small value types and sequence/string helpers shared by the route and
 * weather modules: JavaScript's "value or nothing" as Option, error returns
 * as Result, String.prototype.trim and the decimal
 * rendering of a non-negative integer in a template string.
 */
module Common {

  datatype Option<T> = None | Some(value: T)

  /** A thrown Error (its message) or a returned value. */
  datatype Result<T> = Ok(value: T) | Err(message: string)

  /** A JavaScript number read from input: NaN or a finite value. */
  datatype JsNumber = NaN | Num(value: real)

  // ---------------------------------------------------------------------
  // String.prototype.trim

  /**
   * The white-space and line-terminator characters trim removes: tab,
   * vertical tab, form feed, the byte-order mark, every space separator
   * (U+0020, U+00A0, U+1680, U+2000 to U+200A, U+202F, U+205F, U+3000),
   * line feed, carriage return and the line and paragraph separators
   * (U+2028, U+2029).
   */
  predicate IsSpace(c: char) {
    || c == '\t' || c == '\U{000B}' || c == '\U{000C}' || c == '\U{FEFF}'
    || c == ' ' || c == '\U{00A0}' || c == '\U{1680}' || '\U{2000}' <= c <= '\U{200A}'
    || c == '\U{202F}' || c == '\U{205F}' || c == '\U{3000}'
    || c == '\n' || c == '\r' || c == '\U{2028}' || c == '\U{2029}'
  }

  function TrimStart(s: string): (r: string)
    ensures |r| <= |s| && r == s[|s| - |r|..]
    ensures forall k :: 0 <= k < |s| - |r| ==> IsSpace(s[k])
    ensures r != [] ==> !IsSpace(r[0])
  {
    if s != [] && IsSpace(s[0]) then TrimStart(s[1..]) else s
  }

  function TrimEnd(s: string): (r: string)
    ensures |r| <= |s| && r == s[..|r|]
    ensures forall k :: |r| <= k < |s| ==> IsSpace(s[k])
    ensures r != [] ==> !IsSpace(r[|r| - 1])
  {
    if s != [] && IsSpace(s[|s| - 1]) then TrimEnd(s[..|s| - 1]) else s
  }

  /** `s.trim()`: white space removed from both ends. */
  function Trim(s: string): (r: string)
    ensures |r| <= |s|
    ensures r != [] ==> !IsSpace(r[0]) && !IsSpace(r[|r| - 1])
  {
    TrimEnd(TrimStart(s))
  }

  /** Trimming a string that neither starts nor ends with white space leaves it as it is. */
  lemma TrimUnchanged(s: string)
    requires s != [] && !IsSpace(s[0]) && !IsSpace(s[|s| - 1])
    ensures Trim(s) == s
  {
    assert TrimStart(s) == s;
  }

  /** Trimming removes one trailing blank from a string with non-blank ends. */
  lemma TrimTrailingBlank(s: string)
    requires s != [] && !IsSpace(s[0]) && !IsSpace(s[|s| - 1])
    ensures Trim(s + " ") == s
  {
    var t := s + " ";
    assert TrimStart(t) == t;
    assert t[..|t| - 1] == s;
    assert TrimEnd(s) == s;
  }

  lemma TrimStartSkips(c: char, u: string)
    requires IsSpace(c)
    ensures TrimStart([c] + u) == TrimStart(u)
  {
    assert ([c] + u)[1..] == u;
  }

  lemma TrimEndSkips(u: string, c: char)
    requires IsSpace(c)
    ensures TrimEnd(u + [c]) == TrimEnd(u)
  {
    assert (u + [c])[..|u|] == u;
  }

  /** Unicode space separators and line separators are trimmed like ASCII blanks. */
  lemma TrimUnicodeSeparators(s: string)
    requires s != [] && !IsSpace(s[0]) && !IsSpace(s[|s| - 1])
    ensures Trim(['\U{3000}'] + s + ['\U{2028}']) == s
  {
    var u := s + ['\U{2028}'];
    assert ['\U{3000}'] + s + ['\U{2028}'] == ['\U{3000}'] + u;
    TrimStartSkips('\U{3000}', u);
    assert TrimStart(u) == u;
    TrimEndSkips(s, '\U{2028}');
    assert TrimEnd(s) == s;
  }

  // ---------------------------------------------------------------------
  // Decimal rendering of a non-negative integer (`${n}` for an integral n >= 0)

  predicate IsDigit(c: char) { '0' <= c <= '9' }

  function DigitChar(d: nat): (c: char)
    requires d < 10
    ensures IsDigit(c) && DigitValue(c) == d
  {
    "0123456789"[d]
  }

  function NatToString(n: nat): (s: string)
    ensures s != [] && forall k :: 0 <= k < |s| ==> IsDigit(s[k])
    ensures n < 10 <==> |s| == 1
  {
    if n < 10 then [DigitChar(n)] else NatToString(n / 10) + [DigitChar(n % 10)]
  }

  function DigitValue(c: char): nat
    requires IsDigit(c)
  {
    (c as int) - ('0' as int)
  }

  /** Reads back a string of decimal digits. */
  function ParseDigits(s: string): nat
    requires forall k :: 0 <= k < |s| ==> IsDigit(s[k])
  {
    if s == [] then 0 else 10 * ParseDigits(s[..|s| - 1]) + DigitValue(s[|s| - 1])
  }

  /** The rendering loses nothing: reading the digits back gives the number. */
  lemma {:induction false} NatToStringRoundTrip(n: nat)
    ensures ParseDigits(NatToString(n)) == n
  {
    if n >= 10 {
      var s := NatToString(n);
      assert s[..|s| - 1] == NatToString(n / 10);
      NatToStringRoundTrip(n / 10);
    }
  }

  /** Distinct numbers render differently. */
  lemma NatToStringInjective(m: nat, n: nat)
    requires NatToString(m) == NatToString(n)
    ensures m == n
  {
    NatToStringRoundTrip(m);
    NatToStringRoundTrip(n);
  }

  // ---------------------------------------------------------------------
  // Real arithmetic the solver needs spelled out

  lemma ProductPositive(a: real, b: real)
    requires a > 0.0 && b > 0.0
    ensures a * b > 0.0
  {
  }

  lemma MulNonNegative(a: int, b: int)
    requires a >= 0 && b >= 0
    ensures a * b >= 0
  {
  }

  /** Euclidean division is unique: a quotient and a remainder in [0, s) are the ones `/` and `%` give. */
  lemma ModUnique(x: int, s: int, q: int, r: int)
    requires s > 0 && 0 <= r < s && x == q * s + r
    ensures x % s == r
  {
    var d := q - x / s;
    assert d * s == x % s - r;
    if d > 0 {
      MulNonNegative(d - 1, s);
      assert false;
    } else if d < 0 {
      MulNonNegative(-d - 1, s);
      assert false;
    }
  }

  /** Dividing by a positive number keeps bounds scaled by it. */
  lemma QuotientBounds(s: real, n: real, lo: real, hi: real)
    requires n > 0.0 && lo * n <= s <= hi * n
    ensures lo <= s / n <= hi
  {
    var q := s / n;
    assert q * n == s;
    if q < lo {
      ProductPositive(lo - q, n);
      assert false;
    }
    if q > hi {
      ProductPositive(q - hi, n);
      assert false;
    }
  }
}
