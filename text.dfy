/**
 * String helpers shared by the parsers: JavaScript's `trim`, `toLowerCase`,
 * `toUpperCase`, decimal digits, integer-to-string conversion and the default
 * (code unit) string order used by `Array.prototype.sort`.
 *
 * Case mapping covers ASCII and the Latin-1 letters U+00C0-U+00DE and
 * U+00E0-U+00FE (the letters of Spanish). The lower-case letters ß, ÿ and µ,
 * which JavaScript upper-cases to "SS", U+0178 and U+039C, are left
 * unchanged, and so are other scripts.
 */
module Text {

  // ---------------------------------------------------------------------------
  // Whitespace and trimming
  // ---------------------------------------------------------------------------

  /** JavaScript's WhiteSpace and LineTerminator characters (what `trim` and `\s` remove). */
  predicate IsWhite(c: char) {
    (c <= ' ' && ('\t' <= c <= '\r' || c == ' ')) || ('\U{00A0}' <= c && IsWideWhite(c))
  }

  /** The white space characters beyond ASCII. */
  predicate IsWideWhite(c: char) {
    c == '\U{00A0}' || c == '\U{1680}' || ('\U{2000}' <= c <= '\U{200A}')
    || c == '\U{2028}' || c == '\U{2029}' || c == '\U{202F}' || c == '\U{205F}'
    || c == '\U{3000}' || c == '\U{FEFF}'
  }

  function TrimStart(s: string): (r: string)
    ensures |r| <= |s| && r == s[|s| - |r|..]
    ensures r != [] ==> !IsWhite(r[0])
    ensures forall i | 0 <= i < |s| - |r| :: IsWhite(s[i])
  {
    if s != [] && IsWhite(s[0]) then TrimStart(s[1..]) else s
  }

  function TrimEnd(s: string): (r: string)
    ensures |r| <= |s| && r == s[..|r|]
    ensures r != [] ==> !IsWhite(r[|r| - 1])
    ensures forall i | |r| <= i < |s| :: IsWhite(s[i])
  {
    if s != [] && IsWhite(s[|s| - 1]) then TrimEnd(s[..|s| - 1]) else s
  }

  /** `s.trim()` */
  function Trim(s: string): (r: string)
    ensures |r| <= |s|
    ensures r != [] ==> !IsWhite(r[0]) && !IsWhite(r[|r| - 1])
  {
    TrimEnd(TrimStart(s))
  }

  /** True when `s.trim()` is the empty string. */
  predicate IsBlank(s: string) {
    Trim(s) == []
  }

  lemma TrimBlankIffAllWhite(s: string)
    ensures IsBlank(s) <==> forall i | 0 <= i < |s| :: IsWhite(s[i])
  {
    var t := TrimStart(s);
    if t != [] {
      assert t[0] == s[|s| - |t|];
    }
  }

  lemma TrimIdempotent(s: string)
    ensures Trim(Trim(s)) == Trim(s)
  {
    var t := Trim(s);
    assert TrimStart(t) == t;
    assert TrimEnd(t) == t;
  }

  lemma {:induction false} TrimStartAppend(t: string, c: char)
    requires !IsWhite(c)
    ensures TrimStart(t + [c]) == TrimStart(t) + [c]
  {
    var u := t + [c];
    if t == [] {
      assert u == [c];
      assert TrimStart(u) == u;
    } else if IsWhite(t[0]) {
      assert u[0] == t[0];
      assert u[1..] == t[1..] + [c];
      assert TrimStart(u) == TrimStart(u[1..]);
      TrimStartAppend(t[1..], c);
    } else {
      assert u[0] == t[0];
      assert TrimStart(u) == u;
      assert TrimStart(t) == t;
    }
  }

  /** Trimming a string that ends in a non-white character only trims its start. */
  lemma TrimAppendNonWhite(t: string, c: char)
    requires !IsWhite(c)
    ensures Trim(t + [c]) == TrimStart(t) + [c]
  {
    TrimStartAppend(t, c);
    var u := TrimStart(t) + [c];
    assert u[|u| - 1] == c;
  }

  lemma TrimOfTrimStart(t: string)
    ensures Trim(TrimStart(t)) == Trim(t)
  {
    var u := TrimStart(t);
    assert u != [] ==> !IsWhite(u[0]);
    assert TrimStart(u) == u;
  }

  lemma TrimJoin(a: string, m: string, b: string)
    requires a != [] && b != [] && !IsWhite(a[0]) && !IsWhite(b[|b| - 1])
    ensures Trim(a + m + b) == a + m + b
  {
    var s := a + m + b;
    assert s[0] == a[0];
    assert s[|s| - 1] == b[|b| - 1];
    TrimNonWhiteEnds(s);
  }

  lemma TrimNonWhiteEnds(s: string)
    requires s != [] && !IsWhite(s[0]) && !IsWhite(s[|s| - 1])
    ensures Trim(s) == s
  {
    assert TrimStart(s) == s;
    assert TrimEnd(s) == s;
  }

  predicate AllWhite(s: string) {
    forall i | 0 <= i < |s| :: IsWhite(s[i])
  }

  lemma WhitePrefix(s: string)
    ensures AllWhite(s[..|s| - |TrimStart(s)|])
  {
    var w := s[..|s| - |TrimStart(s)|];
    forall i | 0 <= i < |w|
      ensures IsWhite(w[i])
    {
      assert w[i] == s[i];
    }
  }

  lemma WhiteSuffix(s: string)
    ensures AllWhite(s[|TrimEnd(s)|..])
  {
    var w := s[|TrimEnd(s)|..];
    forall i | 0 <= i < |w|
      ensures IsWhite(w[i])
    {
      assert w[i] == s[|TrimEnd(s)| + i];
    }
  }

  /** The trimmed text is a slice of the original. */
  lemma TrimSlice(s: string) returns (k: nat)
    ensures k + |Trim(s)| <= |s| && Trim(s) == s[k..k + |Trim(s)|]
  {
    var ts := TrimStart(s);
    k := |s| - |ts|;
    assert Trim(s) == ts[..|Trim(s)|];
  }

  /** A string is its white prefix, its trimmed text and its white suffix. */
  lemma TrimSplit(s: string) returns (w1: string, w2: string)
    ensures s == w1 + Trim(s) + w2
    ensures AllWhite(w1) && AllWhite(w2)
  {
    var ts := TrimStart(s);
    w1 := s[..|s| - |ts|];
    w2 := ts[|TrimEnd(ts)|..];
    assert s == w1 + ts by {
      SplitAt(s, |s| - |ts|);
    }
    assert ts == Trim(s) + w2 by {
      SplitAt(ts, |TrimEnd(ts)|);
    }
    JoinParts(s, w1, ts, Trim(s), w2);
    assert AllWhite(w1) by {
      WhitePrefix(s);
    }
    assert AllWhite(w2) by {
      WhiteSuffix(ts);
    }
  }

  lemma SplitAt(s: string, k: nat)
    requires k <= |s|
    ensures s == s[..k] + s[k..]
  {
  }

  lemma JoinParts(s: string, a: string, bc: string, b: string, c: string)
    requires s == a + bc && bc == b + c
    ensures s == a + b + c
  {
  }

  // ---------------------------------------------------------------------------
  // Collapsing white runs
  // ---------------------------------------------------------------------------

  /** `s` without its leading white space. */
  function SkipWhite(s: string): (r: string)
    ensures |r| <= |s|
    ensures r == [] || !IsWhite(r[0])
  {
    if s != [] && IsWhite(s[0]) then SkipWhite(s[1..]) else s
  }

  /** Every white character is a plain space and none is followed by another white character. */
  predicate Collapsed(s: string) {
    && (forall i | 0 <= i < |s| :: IsWhite(s[i]) ==> s[i] == ' ')
    && (forall i | 0 <= i < |s| - 1 :: IsWhite(s[i]) ==> !IsWhite(s[i + 1]))
  }

  /** `s.replace(/\s+/g, " ")` */
  function CollapseWhite(s: string): (r: string)
    ensures s != [] && !IsWhite(s[0]) ==> r != [] && r[0] == s[0]
    ensures Collapsed(r)
    decreases |s|
  {
    if s == [] then []
    else if IsWhite(s[0]) then " " + CollapseWhite(SkipWhite(s[1..]))
    else [s[0]] + CollapseWhite(s[1..])
  }

  /** A collapsed string has nothing left to collapse. */
  lemma {:induction false} CollapseFixed(s: string)
    requires Collapsed(s)
    ensures CollapseWhite(s) == s
  {
    if s != [] {
      assert Collapsed(s[1..]);
      CollapseFixed(s[1..]);
      if IsWhite(s[0]) {
        assert s[1..] == [] || !IsWhite(s[1]);
      }
    }
  }

  lemma TrimKeepsCollapsed(s: string)
    requires Collapsed(s)
    ensures Collapsed(Trim(s))
  {
    var k := TrimSlice(s);
    var t := Trim(s);
    forall i | 0 <= i < |t|
      ensures IsWhite(t[i]) ==> t[i] == ' '
    {
      assert t[i] == s[k + i];
    }
    forall i | 0 <= i < |t| - 1
      ensures IsWhite(t[i]) ==> !IsWhite(t[i + 1])
    {
      assert t[i] == s[k + i] && t[i + 1] == s[k + i + 1];
    }
  }

  // ---------------------------------------------------------------------------
  // Case mapping
  // ---------------------------------------------------------------------------

  predicate IsUpperLetter(c: char) {
    ('A' <= c <= 'Z') || ('\U{00C0}' <= c <= '\U{00DE}' && c != '\U{00D7}')
  }

  predicate IsLowerLetter(c: char) {
    ('a' <= c <= 'z') || ('\U{00E0}' <= c <= '\U{00FE}' && c != '\U{00F7}')
  }

  function LowerChar(c: char): char {
    if IsUpperLetter(c) then (c as int + 32) as char else c
  }

  function UpperChar(c: char): char {
    if IsLowerLetter(c) then (c as int - 32) as char else c
  }

  /** `s.toLowerCase()` */
  function Lower(s: string): (r: string)
    ensures |r| == |s|
    ensures forall i | 0 <= i < |s| :: r[i] == LowerChar(s[i])
  {
    if s == [] then [] else [LowerChar(s[0])] + Lower(s[1..])
  }

  /** `s.toUpperCase()` */
  function Upper(s: string): (r: string)
    ensures |r| == |s|
    ensures forall i | 0 <= i < |s| :: r[i] == UpperChar(s[i])
  {
    if s == [] then [] else [UpperChar(s[0])] + Upper(s[1..])
  }

  lemma LowerOfUpperChar(c: char)
    ensures LowerChar(UpperChar(c)) == LowerChar(c)
  {
  }

  lemma UpperIdempotent(s: string)
    ensures Upper(Upper(s)) == Upper(s)
  {
  }

  lemma LowerIdempotent(s: string)
    ensures Lower(Lower(s)) == Lower(s)
  {
  }

  lemma LowerOfUpper(s: string)
    ensures Lower(Upper(s)) == Lower(s)
  {
    forall i | 0 <= i < |s|
      ensures Lower(Upper(s))[i] == Lower(s)[i]
    {
      LowerOfUpperChar(s[i]);
    }
  }

  lemma UpperAppend(a: string, b: string)
    ensures Upper(a + b) == Upper(a) + Upper(b)
  {
    assert forall i | 0 <= i < |a + b| :: Upper(a + b)[i] == (Upper(a) + Upper(b))[i];
  }

  lemma LowerAppend(a: string, b: string)
    ensures Lower(a + b) == Lower(a) + Lower(b)
  {
    assert forall i | 0 <= i < |a + b| :: Lower(a + b)[i] == (Lower(a) + Lower(b))[i];
  }

  lemma CaseKeepsWhite(c: char)
    ensures IsWhite(LowerChar(c)) <==> IsWhite(c)
    ensures IsWhite(UpperChar(c)) <==> IsWhite(c)
  {
  }

  /** Trimming commutes with upper-casing: `s.trim().toUpperCase() == s.toUpperCase().trim()`. */
  lemma {:induction false} TrimUpperCommute(s: string)
    ensures Upper(Trim(s)) == Trim(Upper(s))
  {
    TrimStartUpper(s);
    TrimEndUpper(TrimStart(s));
  }

  lemma {:induction false} TrimStartUpper(s: string)
    ensures Upper(TrimStart(s)) == TrimStart(Upper(s))
  {
    if s != [] {
      CaseKeepsWhite(s[0]);
      assert Upper(s)[1..] == Upper(s[1..]);
      if IsWhite(s[0]) {
        TrimStartUpper(s[1..]);
      }
    }
  }

  lemma {:induction false} TrimEndUpper(s: string)
    ensures Upper(TrimEnd(s)) == TrimEnd(Upper(s))
  {
    if s != [] {
      CaseKeepsWhite(s[|s| - 1]);
      assert Upper(s)[..|s| - 1] == Upper(s[..|s| - 1]);
      if IsWhite(s[|s| - 1]) {
        TrimEndUpper(s[..|s| - 1]);
      }
    }
  }

  lemma {:induction false} TrimLowerCommute(s: string)
    ensures Lower(Trim(s)) == Trim(Lower(s))
  {
    TrimStartLower(s);
    TrimEndLower(TrimStart(s));
  }

  lemma {:induction false} TrimStartLower(s: string)
    ensures Lower(TrimStart(s)) == TrimStart(Lower(s))
  {
    if s != [] {
      CaseKeepsWhite(s[0]);
      assert Lower(s)[1..] == Lower(s[1..]);
      if IsWhite(s[0]) {
        TrimStartLower(s[1..]);
      }
    }
  }

  lemma {:induction false} TrimEndLower(s: string)
    ensures Lower(TrimEnd(s)) == TrimEnd(Lower(s))
  {
    if s != [] {
      CaseKeepsWhite(s[|s| - 1]);
      assert Lower(s)[..|s| - 1] == Lower(s[..|s| - 1]);
      if IsWhite(s[|s| - 1]) {
        TrimEndLower(s[..|s| - 1]);
      }
    }
  }

  // ---------------------------------------------------------------------------
  // Character removal and replacement
  // ---------------------------------------------------------------------------

  /** `s.replaceAll(c, "")` for a one-character pattern. */
  function RemoveChar(s: string, c: char): (r: string)
    ensures |r| <= |s|
    ensures c !in r
    ensures forall x | x in r :: x in s
  {
    if s == [] then []
    else if s[0] == c then RemoveChar(s[1..], c)
    else [s[0]] + RemoveChar(s[1..], c)
  }

  /** `s.replaceAll(from, to)` for one-character strings. */
  function ReplaceChar(s: string, from: char, to: char): (r: string)
    ensures |r| == |s|
    ensures forall i | 0 <= i < |s| :: r[i] == (if s[i] == from then to else s[i])
  {
    if s == [] then [] else [if s[0] == from then to else s[0]] + ReplaceChar(s[1..], from, to)
  }

  lemma RemoveCharAbsent(s: string, c: char)
    requires c !in s
    ensures RemoveChar(s, c) == s
  {
    if s != [] {
      assert c !in s[1..];
      RemoveCharAbsent(s[1..], c);
    }
  }

  lemma {:induction false} RemoveCharAppend(a: string, b: string, c: char)
    ensures RemoveChar(a + b, c) == RemoveChar(a, c) + RemoveChar(b, c)
  {
    if a == [] {
      assert a + b == b;
    } else {
      assert (a + b)[0] == a[0];
      assert (a + b)[1..] == a[1..] + b;
      RemoveCharAppend(a[1..], b, c);
    }
  }

  lemma ReplaceCharAbsent(s: string, from: char, to: char)
    requires from !in s
    ensures ReplaceChar(s, from, to) == s
  {
  }

  /** `w` occurs in `s` starting at index `i`. */
  predicate OccursAt(s: string, w: string, i: int) {
    0 <= i && i + |w| <= |s| && s[i..i + |w|] == w
  }

  /** `s.includes(w)` */
  predicate Contains(s: string, w: string) {
    exists i | 0 <= i <= |s| :: OccursAt(s, w, i)
  }

  predicate EndsWith(s: string, suffix: string) {
    |suffix| <= |s| && s[|s| - |suffix|..] == suffix
  }

  lemma EndsWithAppend(a: string, b: string)
    ensures EndsWith(a + b, b)
  {
    assert (a + b)[|a|..] == b;
  }

  // ---------------------------------------------------------------------------
  // Decimal digits
  // ---------------------------------------------------------------------------

  /** Regular-expression `\d` (ASCII digits only). */
  predicate IsDigit(c: char) {
    '0' <= c <= '9'
  }

  predicate AllDigits(s: string) {
    forall i | 0 <= i < |s| :: IsDigit(s[i])
  }

  function DigitValue(c: char): nat
    requires IsDigit(c)
  {
    c as int - '0' as int
  }

  function DigitChar(d: nat): (c: char)
    requires d < 10
    ensures IsDigit(c) && DigitValue(c) == d
  {
    ('0' as int + d) as char
  }

  /** The value of a string of decimal digits (`Number.parseInt(s, 10)` for such a string). */
  function DigitsValue(s: string): nat
    requires AllDigits(s)
  {
    if s == [] then 0 else DigitsValue(s[..|s| - 1]) * 10 + DigitValue(s[|s| - 1])
  }

  /** `s.replace(/\D/g, "")`: the digits of `s`, in order. */
  function KeepDigits(s: string): (r: string)
    ensures AllDigits(r) && |r| <= |s|
  {
    if s == [] then []
    else KeepDigits(s[..|s| - 1]) + (if IsDigit(s[|s| - 1]) then [s[|s| - 1]] else [])
  }

  /**
   * `parseInt(s.replace(/\D/g, ""), 10)`, with no digits read as 0: the
   * number formed by all the digits of `s`.
   */
  function DigitsNumber(s: string): nat {
    DigitsValue(KeepDigits(s))
  }

  lemma {:induction false} KeepDigitsAppend(a: string, b: string)
    ensures KeepDigits(a + b) == KeepDigits(a) + KeepDigits(b)
    decreases |b|
  {
    if b == [] {
      assert a + b == a;
    } else {
      assert (a + b)[..|a + b| - 1] == a + b[..|b| - 1];
      KeepDigitsAppend(a, b[..|b| - 1]);
    }
  }

  lemma {:induction false} KeepDigitsOfDigits(s: string)
    requires AllDigits(s)
    ensures KeepDigits(s) == s
    decreases |s|
  {
    if s != [] {
      KeepDigitsOfDigits(s[..|s| - 1]);
    }
  }

  lemma {:induction false} KeepDigitsNone(s: string)
    requires forall i | 0 <= i < |s| :: !IsDigit(s[i])
    ensures KeepDigits(s) == []
    decreases |s|
  {
    if s != [] {
      KeepDigitsNone(s[..|s| - 1]);
    }
  }

  /** A text without digits followed by the rendering of `n` reads back as `n`. */
  lemma DigitsNumberOfLabel(prefix: string, n: nat)
    requires forall i | 0 <= i < |prefix| :: !IsDigit(prefix[i])
    ensures DigitsNumber(prefix + NatToString(n)) == n
  {
    KeepDigitsAppend(prefix, NatToString(n));
    KeepDigitsNone(prefix);
    KeepDigitsOfDigits(NatToString(n));
    assert KeepDigits(prefix + NatToString(n)) == NatToString(n);
    DigitsValueOfNatToString(n);
  }

  /** Decimal rendering of a natural number, as JavaScript's `String(n)` for integers. */
  function NatToString(n: nat): (r: string)
    ensures r != [] && AllDigits(r)
    ensures '-' !in r
    decreases n
  {
    if n < 10 then [DigitChar(n)] else NatToString(n / 10) + [DigitChar(n % 10)]
  }

  /** `String(i)` for an integer. */
  function IntToString(i: int): (r: string)
    ensures r != []
  {
    if i < 0 then "-" + NatToString(-i) else NatToString(i)
  }

  lemma {:induction false} DigitsValueOfNatToString(n: nat)
    ensures DigitsValue(NatToString(n)) == n
    decreases n
  {
    var s := NatToString(n);
    if n >= 10 {
      DigitsValueOfNatToString(n / 10);
      assert s[..|s| - 1] == NatToString(n / 10);
    }
  }

  lemma NatToStringInjective(a: nat, b: nat)
    requires NatToString(a) == NatToString(b)
    ensures a == b
  {
    DigitsValueOfNatToString(a);
    DigitsValueOfNatToString(b);
  }

  lemma IntToStringInjective(a: int, b: int)
    requires IntToString(a) == IntToString(b)
    ensures a == b
  {
    assert IntToString(a)[0] == '-' <==> a < 0 by {
      if a >= 0 { assert IntToString(a)[0] in NatToString(a); }
    }
    assert IntToString(b)[0] == '-' <==> b < 0 by {
      if b >= 0 { assert IntToString(b)[0] in NatToString(b); }
    }
    if a < 0 {
      assert IntToString(a)[1..] == NatToString(-a);
      assert IntToString(b)[1..] == NatToString(-b);
      NatToStringInjective(-a, -b);
    } else {
      NatToStringInjective(a, b);
    }
  }

  // ---------------------------------------------------------------------------
  // Code-unit order on strings (`Array.prototype.sort()` without comparator)
  // ---------------------------------------------------------------------------

  predicate StrLt(a: string, b: string)
    decreases |a|
  {
    if a == [] then b != []
    else b != [] && (a[0] < b[0] || (a[0] == b[0] && StrLt(a[1..], b[1..])))
  }

  lemma {:induction false} StrLtIrreflexive(a: string)
    ensures !StrLt(a, a)
    decreases |a|
  {
    if a != [] { StrLtIrreflexive(a[1..]); }
  }

  lemma {:induction false} StrLtTransitive(a: string, b: string, c: string)
    requires StrLt(a, b) && StrLt(b, c)
    ensures StrLt(a, c)
    decreases |a|
  {
    if a != [] && a[0] == b[0] && b[0] == c[0] {
      StrLtTransitive(a[1..], b[1..], c[1..]);
    }
  }

  lemma {:induction false} StrLtTotal(a: string, b: string)
    requires a != b
    ensures StrLt(a, b) || StrLt(b, a)
    decreases |a|
  {
    if a != [] && b != [] && a[0] == b[0] {
      assert a[1..] != b[1..] by {
        assert a == [a[0]] + a[1..];
        assert b == [b[0]] + b[1..];
      }
      StrLtTotal(a[1..], b[1..]);
    }
  }

  /**
   * Three-way comparison in code-unit order. It stands for both the default
   * sort order and `localeCompare`, whose collation is not modelled.
   */
  function Compare(a: string, b: string): (r: int)
    ensures r == 0 <==> a == b
    ensures r < 0 <==> StrLt(a, b)
    ensures r > 0 <==> StrLt(b, a)
  {
    if a == b then (StrLtIrreflexive(a); 0)
    else if StrLt(a, b) then (StrLtAsymmetric(a, b); -1)
    else (StrLtTotal(a, b); 1)
  }

  lemma StrLtAsymmetric(a: string, b: string)
    requires StrLt(a, b)
    ensures !StrLt(b, a)
  {
    if StrLt(b, a) {
      StrLtTransitive(a, b, a);
      StrLtIrreflexive(a);
    }
  }
}
