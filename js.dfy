/**
 * The JavaScript values that spreadsheet cells and optional fields carry:
 * numbers (with NaN and the infinities), truthiness, `Math.round`, and the
 * decimal part of the `Number(string)` conversion.
 *
 * Numbers are exact reals: binary floating-point rounding is not modelled.
 */
module Js {
  import opened Wrappers
  import opened Text

  /** A JavaScript number. */
  datatype Number = Finite(value: real) | NaN | PosInf | NegInf

  /** Milliseconds since 1970-01-01T00:00:00Z: the time value of a valid `Date`. */
  type Time = int

  /** A cell of a spreadsheet row or any other `unknown` value. */
  datatype Value =
    | Null
    | Undefined
    | Bool(b: bool)
    | Num(n: Number)
    | Str(s: string)
    | DateV(t: Time)   // a valid Date object
    | BadDate          // an Invalid Date object
    | Obj              // any other object

  /** JavaScript truthiness (`!!value`). */
  predicate Truthy(v: Value) {
    match v
    case Null => false
    case Undefined => false
    case Bool(b) => b
    case Num(n) => (n.Finite? && n.value != 0.0) || n.PosInf? || n.NegInf?
    case Str(s) => s != []
    case DateV(_) => true
    case BadDate => true
    case Obj => true
  }

  /** `den > 0 ? num / den : null` */
  function Ratio(num: int, den: int): (r: Option<real>)
    ensures r.Some? <==> den > 0
    ensures r.Some? ==> r.value * den as real == num as real
  {
    if den > 0 then Some(num as real / den as real) else None
  }

  /** `den > 0 ? num / den : 0` (`safeDiv`, and the ratios of a snapshot row). */
  function RatioOrZero(num: int, den: int): (r: real)
    ensures den > 0 ==> r * den as real == num as real
    ensures den <= 0 ==> r == 0.0
  {
    if den > 0 then num as real / den as real else 0.0
  }

  /** A count out of a larger count is a fraction in [0, 1]. */
  lemma RatioInUnit(num: int, den: int)
    requires 0 <= num <= den
    ensures Ratio(num, den).Some? ==> 0.0 <= Ratio(num, den).value <= 1.0
    ensures 0.0 <= RatioOrZero(num, den) <= 1.0
  {
  }

  /** `Math.round`: the nearest integer, halves rounded up. */
  function Round(x: real): (r: int)
    ensures r as real - 0.5 <= x < r as real + 0.5
  {
    (x + 0.5).Floor
  }

  /** Largest magnitude of a valid `Date` time value (`TimeClip`). */
  const MaxTime: int := 8_640_000_000_000_000

  predicate ValidTime(t: int) {
    -MaxTime <= t <= MaxTime
  }

  function Pow10(n: nat): (r: nat)
    ensures r >= 1
  {
    if n == 0 then 1 else 10 * Pow10(n - 1)
  }

  /** Length of the run of decimal digits at the start of `s`. */
  function DigitRun(s: string): (k: nat)
    ensures k <= |s| && AllDigits(s[..k])
    ensures k < |s| ==> !IsDigit(s[k])
  {
    if s != [] && IsDigit(s[0]) then 1 + DigitRun(s[1..]) else 0
  }

  /** The value of the digits after a decimal point: 0.d1d2… = (d1 + 0.d2…) / 10. */
  function Fraction(f: string): (r: real)
    requires AllDigits(f)
    ensures 0.0 <= r < 1.0
  {
    if f == [] then 0.0 else (DigitValue(f[0]) as real + Fraction(f[1..])) / 10.0
  }

  /**
   * An unsigned decimal literal without exponent: `digits`, `digits.`,
   * `digits.digits` or `.digits`.
   */
  function DecimalBody(b: string): (r: Option<real>)
    ensures r.Some? ==> r.value >= 0.0
  {
    var k := DigitRun(b);
    var whole := DigitsValue(b[..k]) as real;
    if k == |b| then (if k > 0 then Some(whole) else None)
    else if b[k] == '.' && AllDigits(b[k + 1..]) && (k > 0 || k + 1 < |b|) then
      Some(whole + Fraction(b[k + 1..]))
    else None
  }

  /**
   * `Number(s)` for a string: surrounding white space is ignored, the empty
   * string is 0, an optional sign may precede a decimal literal or
   * `Infinity`, and everything else is NaN.
   */
  function ParseNumber(s: string): (r: Number)
    ensures IsBlank(s) ==> r == Finite(0.0)
  {
    var t := Trim(s);
    if t == [] then Finite(0.0)
    else
      var neg := t[0] == '-';
      var body := if t[0] == '-' || t[0] == '+' then t[1..] else t;
      if body == "Infinity" then (if neg then NegInf else PosInf)
      else match DecimalBody(body)
        case Some(v) => Finite(if neg then -v else v)
        case None => NaN
  }

  lemma DigitRunAll(s: string)
    requires AllDigits(s)
    ensures DigitRun(s) == |s|
  {
    if s != [] {
      DigitRunAll(s[1..]);
    }
  }

  /** A plain string of digits reads as its decimal value. */
  lemma ParseNumberOfDigits(s: string)
    requires s != [] && AllDigits(s)
    ensures ParseNumber(s) == Finite(DigitsValue(s) as real)
  {
    assert IsDigit(s[0]) && IsDigit(s[|s| - 1]);
    assert TrimStart(s) == s;
    assert TrimEnd(s) == s;
    assert Trim(s) == s;
    assert "Infinity"[0] == 'I';
    DigitRunAll(s);
    assert s[..|s|] == s;
    assert DecimalBody(s) == Some(DigitsValue(s) as real);
  }

  /** `Number(String(n)) == n` for every natural number. */
  lemma ParseNumberOfNatToString(n: nat)
    ensures ParseNumber(NatToString(n)) == Finite(n as real)
  {
    ParseNumberOfDigits(NatToString(n));
    DigitsValueOfNatToString(n);
  }
}
