/**
 * `toFiniteNumber` and `toPercent` from src/lib/utils/number.ts: numbers
 * written the Chilean way ("." groups thousands, "," is the decimal mark) and
 * percentages that may be written as fractions (0.45) or as points (45, "45%").
 */
module Numbers {
  import opened Wrappers
  import opened Text
  import opened Js

  /** `s.replaceAll(".", "").replaceAll(",", ".")`: Chilean notation to JavaScript notation. */
  function ChileanToJs(s: string): string {
    ReplaceChar(RemoveChar(s, '.'), ',', '.')
  }

  /** `Number.isFinite(n) ? n : null` */
  function ReadNumber(n: Number): (r: Option<real>)
    ensures r.Some? <==> n.Finite?
    ensures r.Some? ==> r.value == n.value
  {
    if n.Finite? then Some(n.value) else None
  }

  /** `toFiniteNumber(value)` */
  function ToFiniteNumber(v: Value): (r: Option<real>)
    ensures v.Num? && v.n.Finite? ==> r == Some(v.n.value)
    ensures v.Num? && !v.n.Finite? ==> r == None
    ensures !(v.Num? || v.Str?) ==> r == None
    ensures v.Str? && IsBlank(v.s) ==> r == None
  {
    match v
    case Num(n) => if n.Finite? then Some(n.value) else None
    case Str(s) =>
      var t := Trim(s);
      if t == [] then None
      else ReadNumber(ParseNumber(ChileanToJs(t)))
    case _ => None
  }

  /** Values above 1 are read as points and divided by 100. */
  function Scale(x: real): (r: real)
    ensures x <= 1.0 ==> r == x
    ensures x > 1.0 ==> r * 100.0 == x
  {
    if x > 1.0 then x / 100.0 else x
  }

  function ScaleOpt(o: Option<real>): Option<real> {
    match o
    case Some(x) => Some(Scale(x))
    case None => None
  }

  /** `toPercent(value)` */
  function ToPercent(v: Value): (r: Option<real>)
    ensures !(v.Num? || v.Str?) ==> r == None
    ensures v.Str? && IsBlank(v.s) ==> r == None
  {
    match v
    case Num(n) => if n.Finite? then Some(Scale(n.value)) else None
    case Str(s) =>
      var t := Trim(s);
      if t == [] then None
      else
        var withoutSymbol := if EndsWith(t, "%") then Trim(t[..|t| - 1]) else t;
        ScaleOpt(ToFiniteNumber(Str(withoutSymbol)))
    case _ => None
  }

  // ---------------------------------------------------------------------------
  // Properties
  // ---------------------------------------------------------------------------

  /** For numbers and for strings without a percent sign, `toPercent` is the scaled `toFiniteNumber`. */
  lemma PercentIsScaledNumber(v: Value)
    requires v.Str? ==> !EndsWith(Trim(v.s), "%")
    ensures ToPercent(v) == ScaleOpt(ToFiniteNumber(v))
  {
    if v.Str? {
      PercentOfPlain(v.s);
      ReadOfTrim(v.s);
    }
  }

  lemma ReadOfTrim(s: string)
    ensures ToFiniteNumber(Str(Trim(s))) == ToFiniteNumber(Str(s))
  {
    TrimIdempotent(s);
  }

  /** A trailing "%" changes nothing: "45%" reads as "45", that is 0.45. */
  lemma PercentSignIgnored(t: string)
    requires !EndsWith(Trim(t), "%")
    ensures ToPercent(Str(t + "%")) == ToPercent(Str(t))
  {
    PercentOfSuffixed(t);
    PercentOfPlain(t);
  }

  lemma PercentOfSuffixed(t: string)
    ensures ToPercent(Str(t + "%")) == ScaleOpt(ToFiniteNumber(Str(Trim(t))))
  {
    var u := TrimStart(t) + "%";
    assert Trim(t + "%") == u by {
      assert !IsWhite('%');
      TrimAppendNonWhite(t, '%');
    }
    EndsWithAppend(TrimStart(t), "%");
    PercentOfSymbol(t + "%", u);
    assert u[..|u| - 1] == TrimStart(t);
    TrimOfTrimStart(t);
  }

  lemma PercentOfSymbol(s: string, u: string)
    requires Trim(s) == u && EndsWith(u, "%")
    ensures ToPercent(Str(s)) == ScaleOpt(ToFiniteNumber(Str(Trim(u[..|u| - 1]))))
  {
  }

  lemma PercentOfPlain(t: string)
    requires !EndsWith(Trim(t), "%")
    ensures ToPercent(Str(t)) == ScaleOpt(ToFiniteNumber(Str(Trim(t))))
  {
    TrimIdempotent(t);
  }

  /** A non-empty string of digits is left alone by trimming. */
  lemma TrimDigits(s: string)
    requires s != [] && AllDigits(s)
    ensures Trim(s) == s
  {
    assert IsDigit(s[0]) && IsDigit(s[|s| - 1]);
    TrimNonWhiteEnds(s);
  }

  /** A trimmed, non-empty string reads as `Number` of its JavaScript rewriting. */
  lemma ReadTrimmed(s: string)
    requires s != [] && Trim(s) == s
    ensures ToFiniteNumber(Str(s)) == ReadNumber(ParseNumber(ChileanToJs(s)))
  {
  }

  /** A string of digits reads as its value. */
  lemma DigitsRead(s: string)
    requires s != [] && AllDigits(s)
    ensures ToFiniteNumber(Str(s)) == Some(DigitsValue(s) as real)
  {
    TrimDigits(s);
    assert '.' !in s by {
      assert forall i | 0 <= i < |s| :: s[i] != '.';
    }
    assert ',' !in s by {
      assert forall i | 0 <= i < |s| :: s[i] != ',';
    }
    RemoveCharAbsent(s, '.');
    ReplaceCharAbsent(s, ',', '.');
    assert ChileanToJs(s) == s;
    ParseNumberOfDigits(s);
    ReadTrimmed(s);
  }

  /** `toFiniteNumber(String(n)) == n` for every natural number. */
  lemma NatRoundTrip(n: nat)
    ensures ToFiniteNumber(Str(NatToString(n))) == Some(n as real)
  {
    DigitsRead(NatToString(n));
    DigitsValueOfNatToString(n);
  }

  /** Every "." is dropped: "1.234" reads as 1234, and "1.5" as 15. */
  lemma DotGroupsThousands(a: string, b: string)
    requires a != [] && b != [] && !IsWhite(a[0]) && !IsWhite(b[|b| - 1])
    ensures ToFiniteNumber(Str(a + "." + b)) == ToFiniteNumber(Str(a + b))
  {
    var s := a + "." + b;
    var c := a + b;
    assert s == a + ("." + b);
    assert s[0] == a[0] && s[|s| - 1] == b[|b| - 1];
    assert c[0] == a[0] && c[|c| - 1] == b[|b| - 1];
    TrimNonWhiteEnds(s);
    TrimNonWhiteEnds(c);
    RemoveCharAppend(a, "." + b, '.');
    RemoveCharAppend(".", b, '.');
    RemoveCharAppend(a, b, '.');
    assert RemoveChar(".", '.') == [];
    assert "" + RemoveChar(b, '.') == RemoveChar(b, '.');
    assert RemoveChar(s, '.') == RemoveChar(c, '.');
    ReadTrimmed(s);
    ReadTrimmed(c);
  }

  /**
   * Once blank strings are set aside, `toFiniteNumber` is `Number` of the
   * trimmed text with its separators rewritten.
   */
  lemma ReadNonBlank(s: string)
    requires !IsBlank(s)
    ensures ToFiniteNumber(Str(s)) == ReadNumber(ParseNumber(ChileanToJs(Trim(s))))
  {
  }

  /** "," becomes the decimal point: "1234,5" is read as `Number("1234.5")`. */
  lemma CommaToPoint(a: string, b: string)
    requires AllDigits(a) && AllDigits(b)
    ensures ChileanToJs(a + "," + b) == a + "." + b
  {
    CommaKeptWithoutDots(a, b);
    CommaReplaced(a, b);
  }

  lemma CommaKeptWithoutDots(a: string, b: string)
    requires AllDigits(a) && AllDigits(b)
    ensures RemoveChar(a + "," + b, '.') == a + "," + b
  {
    NoDigitIn(a, '.');
    NoDigitIn(b, '.');
    NoCharAround(a, ',', b, '.');
  }

  /** A string without `c` around a separator other than `c` loses nothing to `RemoveChar`. */
  lemma NoCharAround(a: string, sep: char, b: string, c: char)
    requires c !in a && c !in b && sep != c
    ensures RemoveChar(a + [sep] + b, c) == a + [sep] + b
  {
    assert c !in a + [sep] + b;
    RemoveCharAbsent(a + [sep] + b, c);
  }

  lemma CommaReplaced(a: string, b: string)
    requires AllDigits(a) && AllDigits(b)
    ensures ReplaceChar(a + "," + b, ',', '.') == a + "." + b
  {
    var s := a + "," + b;
    var j := a + "." + b;
    var r := ReplaceChar(s, ',', '.');
    forall i | 0 <= i < |s|
      ensures r[i] == j[i]
    {
      if i < |a| {
        assert s[i] == a[i] && j[i] == a[i] && IsDigit(a[i]);
      } else if i > |a| {
        assert s[i] == b[i - |a| - 1] && j[i] == b[i - |a| - 1] && IsDigit(b[i - |a| - 1]);
      }
    }
  }

  lemma NoDigitIn(s: string, c: char)
    requires AllDigits(s) && !IsDigit(c)
    ensures c !in s
  {
    assert forall i | 0 <= i < |s| :: s[i] != c;
  }

  lemma ParseNumberOfDecimal(a: string, b: string)
    requires a != [] && b != [] && AllDigits(a) && AllDigits(b)
    ensures ParseNumber(a + "." + b)
            == Finite(DigitsValue(a) as real + Fraction(b))
  {
    var j := a + "." + b;
    assert j[0] == a[0] && j[|j| - 1] == b[|b| - 1];
    assert IsDigit(j[0]) && IsDigit(j[|j| - 1]);
    TrimNonWhiteEnds(j);
    assert j != "Infinity" by {
      assert "Infinity"[0] == 'I';
    }
    DecimalBodyOfDecimal(a, b);
    ParseNumberUnsigned(j);
  }

  lemma ParseNumberUnsigned(j: string)
    requires j != [] && Trim(j) == j && j[0] != '-' && j[0] != '+' && j != "Infinity"
    requires DecimalBody(j).Some?
    ensures ParseNumber(j) == Finite(DecimalBody(j).value)
  {
  }

  lemma DecimalBodyOfDecimal(a: string, b: string)
    requires a != [] && b != [] && AllDigits(a) && AllDigits(b)
    ensures DecimalBody(a + "." + b) == Some(DigitsValue(a) as real + Fraction(b))
  {
    PointPieces(a, b);
    DecimalBodySplit(a + "." + b, |a|);
  }

  lemma PointPieces(a: string, b: string)
    requires AllDigits(a) && AllDigits(b)
    ensures var j := a + "." + b;
      |a| < |j| && j[..|a|] == a && j[|a|] == '.' && j[|a| + 1..] == b && DigitRun(j) == |a|
  {
    var j := a + "." + b;
    assert j == a + ("." + b);
    assert ("." + b)[0] == '.';
    DigitRunPrefix(a, "." + b);
  }

  lemma DecimalBodySplit(j: string, k: nat)
    requires k < |j| && DigitRun(j) == k && j[k] == '.' && AllDigits(j[k + 1..]) && k > 0
    ensures DecimalBody(j)
            == Some(DigitsValue(j[..k]) as real + Fraction(j[k + 1..]))
  {
  }

  lemma {:induction false} DigitRunPrefix(a: string, rest: string)
    requires AllDigits(a) && (rest == [] || !IsDigit(rest[0]))
    ensures DigitRun(a + rest) == |a|
  {
    if a != [] {
      assert (a + rest)[1..] == a[1..] + rest;
      DigitRunPrefix(a[1..], rest);
    }
  }
}
