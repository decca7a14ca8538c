/** Numbers of the scripting language. The source stores them as Python
    floats; here they are exact reals, with `is_integer`, `int(...)`, the
    floored `%`, rounding and the decimal rendering written out. */
module Numbers {
  import opened Wrappers
  import opened PyStr

  /** `x.is_integer()`. */
  predicate IsIntegral(x: real) {
    x == x.Floor as real
  }

  function Abs(x: real): (r: real)
    ensures r >= 0.0 && (r == x || r == -x)
  {
    if x < 0.0 then -x else x
  }

  /** `math.floor(x)`. */
  function Floor(x: real): (r: int)
    ensures r as real <= x < r as real + 1.0
  {
    x.Floor
  }

  /** `math.ceil(x)`. */
  function Ceil(x: real): (r: int)
    ensures r as real - 1.0 < x <= r as real
  {
    if IsIntegral(x) then x.Floor else x.Floor + 1
  }

  /** `int(x)`: truncation toward zero. */
  function Truncate(x: real): (r: int)
    ensures x >= 0.0 ==> 0 <= r && r as real <= x < r as real + 1.0
    ensures x < 0.0 ==> r <= 0 && r as real - 1.0 < x <= r as real
    ensures IsIntegral(x) ==> r as real == x
  {
    if x >= 0.0 || IsIntegral(x) then x.Floor else x.Floor + 1
  }

  lemma ScaleBounds(r: real, u: real)
    requires 0.0 <= u < 1.0
    ensures r > 0.0 ==> 0.0 <= r * u < r
    ensures r < 0.0 ==> r < r * u <= 0.0
  {
    if r > 0.0 {
      assert r * u < r * 1.0;
    } else if r < 0.0 {
      assert r * u > r * 1.0;
    }
  }

  lemma FloorModFacts(l: real, r: real, q: int)
    requires r != 0.0 && q == (l / r).Floor
    ensures r > 0.0 ==> 0.0 <= l - r * q as real < r
    ensures r < 0.0 ==> r < l - r * q as real <= 0.0
    ensures (l - (l - r * q as real)) / r == q as real
  {
    var t := l / r;
    var u := t - q as real;
    assert l == r * t;
    assert l - r * q as real == r * u;
    ScaleBounds(r, u);
  }

  /** Python's `l % r` on floats: the remainder takes the sign of the divisor. */
  function FloorMod(l: real, r: real): (m: real)
    requires r != 0.0
    ensures r > 0.0 ==> 0.0 <= m < r
    ensures r < 0.0 ==> r < m <= 0.0
    ensures IsIntegral((l - m) / r)
  {
    var q := (l / r).Floor;
    FloorModFacts(l, r, q);
    assert (q as real).Floor == q;
    l - r * q as real
  }

  /** `round(x)`: to the nearest integer, ties to the even neighbour. */
  function RoundHalfEven(x: real): (r: int)
    ensures Abs(x - r as real) <= 0.5
    ensures Abs(x - r as real) == 0.5 ==> r % 2 == 0
  {
    var f := x.Floor;
    var d := x - f as real;
    if d < 0.5 then f
    else if d > 0.5 then f + 1
    else if f % 2 == 0 then f
    else f + 1
  }

  /*** Decimal rendering ***/

  function Pow10(k: nat): (r: nat)
    ensures r >= 1
  {
    if k == 0 then 1 else 10 * Pow10(k - 1)
  }

  /** The first `k` decimal digits of a fraction `0 <= f < 1`. */
  function FractionDigits(f: real, k: nat): (s: string)
    requires 0.0 <= f < 1.0
    ensures |s| == k
    ensures forall i :: 0 <= i < |s| ==> IsAsciiDigit(s[i])
    decreases k
  {
    if k == 0 then ""
    else
      var d := (f * 10.0).Floor;
      [DigitChar(d)] + FractionDigits(f * 10.0 - d as real, k - 1)
  }

  function DropTrailingZeros(s: string): (r: string)
    ensures |r| <= |s| && r == s[..|r|]
    ensures |r| > 0 ==> r[|r| - 1] != '0'
  {
    if |s| > 0 && s[|s| - 1] == '0' then DropTrailingZeros(s[..|s| - 1]) else s
  }

  /** A non-integral number: sign, integer part, a point and at most sixteen
      fractional digits. */
  function FractionalString(x: real): (s: string)
    ensures |s| > 0
    ensures x < 0.0 <==> s[0] == '-'
    ensures exists i :: 0 <= i < |s| && s[i] == '.'
  {
    var a := Abs(x);
    var whole := a.Floor;
    var digits := DropTrailingZeros(FractionDigits(a - whole as real, 16));
    var fraction := if digits == "" then "0" else digits;
    var unsigned := NatToString(whole) + "." + fraction;
    assert unsigned[|NatToString(whole)|] == '.';
    var s := (if x < 0.0 then "-" else "") + unsigned;
    assert s[|s| - |unsigned| + |NatToString(whole)|] == '.';
    s
  }

  /** `str(int(v)) if v.is_integer() else str(v)`, shared by
      `NumberValue.to_string`, the `#` conversion and `_format_number`. */
  function FormatNumber(x: real): (s: string)
    ensures |s| > 0
    ensures x < 0.0 <==> s[0] == '-'
    ensures IsIntegral(x) <==> forall i :: 0 <= i < |s| ==> s[i] != '.'
  {
    if IsIntegral(x) then
      var s := IntToString(x.Floor);
      assert forall i :: 0 <= i < |s| ==> s[i] != '.' by {
        if x.Floor < 0 {
          assert s == "-" + NatToString(-x.Floor);
        }
      }
      s
    else FractionalString(x)
  }

  /*** Reading a number lexeme (`float(lexeme)`) ***/

  predicate AllAsciiDigits(s: string) {
    forall i :: 0 <= i < |s| ==> IsAsciiDigit(s[i])
  }

  /** The value of a number lexeme: a digit run, optionally followed by a
      point and a second, non-empty digit run. Anything else is `None`. */
  function LexemeValue(lx: string): (r: Option<real>)
    ensures r.Some? ==> r.value >= 0.0
    ensures AllAsciiDigits(lx) && |lx| > 0 ==> r == Some(DigitsValue(lx) as real)
  {
    if |lx| > 0 && AllAsciiDigits(lx) then Some(DigitsValue(lx) as real)
    else
      match Find(lx, ".")
      case None => None
      case Some(d) =>
        var whole := lx[..d];
        var fraction := lx[d + 1..];
        if |whole| > 0 && |fraction| > 0 && AllAsciiDigits(whole) && AllAsciiDigits(fraction)
        then Some(DigitsValue(whole) as real + DigitsValue(fraction) as real / Pow10(|fraction|) as real)
        else None
  }

  /** Reading back the rendering of a natural number gives the number: the
      integral rendering round-trips through a number literal. */
  lemma FormatReadsBack(n: nat)
    ensures LexemeValue(FormatNumber(n as real)) == Some(n as real)
  {
    assert IsIntegral(n as real);
    assert (n as real).Floor == n;
    assert FormatNumber(n as real) == NatToString(n);
    NatToStringRoundTrip(n);
  }

  /** Different integers render differently. */
  lemma FormatIntegralInjective(a: int, b: int)
    requires FormatNumber(a as real) == FormatNumber(b as real)
    ensures a == b
  {
    assert IsIntegral(a as real) && IsIntegral(b as real);
    assert (a as real).Floor == a && (b as real).Floor == b;
    IntToStringInjective(a, b);
  }
}
