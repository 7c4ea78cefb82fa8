/**
 * `normalizeRut` (src/lib/utils/rut.ts): the key under which a Chilean RUT
 * (national identity number) is compared.
 *
 * The source removes the characters of the regular-expression class
 * `[.\\-\\s]`. Inside a regular-expression literal `\\` is one backslash, so
 * the class is '.', the range from backslash to backslash, and the letter
 * 's': dots go, hyphens and inner white space stay. `NormalizeRut` models
 * that; `NormalizeRutIntended` removes dots, hyphens and white space, as the
 * class was evidently meant to.
 */
module Rut {
  import opened Wrappers
  import opened Text

  /** `s` without the characters in `cs` (`s.replace(/[…]/g, "")`). */
  function Strip(s: string, cs: set<char>): (r: string)
    ensures |r| <= |s|
    ensures forall i | 0 <= i < |r| :: r[i] !in cs
  {
    if s == [] then []
    else if s[0] in cs then Strip(s[1..], cs)
    else [s[0]] + Strip(s[1..], cs)
  }

  lemma {:induction false} StripAppend(a: string, b: string, cs: set<char>)
    ensures Strip(a + b, cs) == Strip(a, cs) + Strip(b, cs)
  {
    if a == [] {
      assert a + b == b;
    } else {
      assert (a + b)[0] == a[0];
      assert (a + b)[1..] == a[1..] + b;
      StripAppend(a[1..], b, cs);
    }
  }

  lemma {:induction false} StripNoLower(s: string, cs: set<char>)
    requires forall i | 0 <= i < |s| :: !('a' <= s[i] <= 'z')
    ensures forall i | 0 <= i < |Strip(s, cs)| :: !('a' <= Strip(s, cs)[i] <= 'z')
  {
    if s != [] {
      StripNoLower(s[1..], cs);
    }
  }

  lemma {:induction false} StripKeeps(s: string, cs: set<char>, c: char)
    requires c in s && c !in cs
    ensures c in Strip(s, cs)
  {
    if s[0] != c {
      StripKeeps(s[1..], cs, c);
    }
  }

  lemma {:induction false} StripNone(s: string, cs: set<char>)
    requires forall i | 0 <= i < |s| :: s[i] !in cs
    ensures Strip(s, cs) == s
  {
    if s != [] {
      StripNone(s[1..], cs);
    }
  }

  /** The class `[.\\-\\s]` as written. */
  const AsWrittenClass: set<char> := {'.', '\\', 's'}

  /** `normalizeRut(value)` */
  function NormalizeRut(value: Option<string>): (r: string)
    ensures '.' !in r
    ensures forall i | 0 <= i < |r| :: !('a' <= r[i] <= 'z')
    ensures |r| <= |value.GetOr("")|
  {
    var u := Upper(Trim(value.GetOr("")));
    StripNoLower(u, AsWrittenClass);
    Strip(u, AsWrittenClass)
  }

  /** The letter 's' in the class never matches: upper-casing came first. */
  lemma LetterSInert(value: Option<string>)
    ensures NormalizeRut(value) == Strip(Upper(Trim(value.GetOr(""))), {'.', '\\'})
  {
    var u := Upper(Trim(value.GetOr("")));
    assert 's' !in u;
    StripInert(u);
  }

  lemma {:induction false} StripInert(u: string)
    requires 's' !in u
    ensures Strip(u, AsWrittenClass) == Strip(u, {'.', '\\'})
  {
    if u != [] {
      assert 's' !in u[1..];
      StripInert(u[1..]);
    }
  }

  /** Hyphens and inner white space survive the as-written class. */
  lemma HyphenAndSpaceSurvive(value: string, c: char)
    requires c == '-' || c == ' '
    requires c in Trim(value)
    ensures c in NormalizeRut(Some(value))
  {
    var u := Upper(Trim(value));
    assert c in u by {
      UpperKeeps(Trim(value), c);
    }
    assert c in Strip(u, AsWrittenClass) by {
      StripKeeps(u, AsWrittenClass, c);
    }
  }

  lemma UpperKeeps(t: string, c: char)
    requires c in t && UpperChar(c) == c
    ensures c in Upper(t)
  {
    var i :| 0 <= i < |t| && t[i] == c;
    assert Upper(t)[i] == c;
  }

  /** The as-written key of a string that trimming leaves alone. */
  function Key(s: string): string {
    Strip(Upper(s), AsWrittenClass)
  }

  lemma KeyOfTrimmed(s: string)
    requires Trim(s) == s
    ensures NormalizeRut(Some(s)) == Key(s)
  {
  }

  lemma {:induction false} KeyAppend(a: string, b: string)
    ensures Key(a + b) == Key(a) + Key(b)
  {
    UpperAppend(a, b);
    StripAppend(Upper(a), Upper(b), AsWrittenClass);
  }

  /**
   * As written, a RUT typed with its check-digit hyphen ("12345678-9") and
   * without it ("123456789") gets two different keys: the hyphen stays.
   */
  lemma HyphenSplitsKey(a: string, b: string)
    requires a != [] && b != [] && !IsWhite(a[0]) && !IsWhite(b[|b| - 1])
    ensures NormalizeRut(Some(a + "-" + b)) == Key(a) + "-" + Key(b)
    ensures NormalizeRut(Some(a + b)) == Key(a) + Key(b)
    ensures NormalizeRut(Some(a + "-" + b)) != NormalizeRut(Some(a + b))
  {
    HyphenKey(a, b);
    PlainKey(a, b);
    assert |Key(a) + "-" + Key(b)| != |Key(a) + Key(b)|;
  }

  lemma HyphenKey(a: string, b: string)
    requires a != [] && b != [] && !IsWhite(a[0]) && !IsWhite(b[|b| - 1])
    ensures NormalizeRut(Some(a + "-" + b)) == Key(a) + "-" + Key(b)
  {
    assert NormalizeRut(Some(a + "-" + b)) == Key(a + "-" + b) by {
      TrimJoin(a, "-", b);
      KeyOfTrimmed(a + "-" + b);
    }
    KeyAppend(a + "-", b);
    KeyAppend(a, "-");
    assert Key("-") == "-";
  }

  lemma PlainKey(a: string, b: string)
    requires a != [] && b != [] && !IsWhite(a[0]) && !IsWhite(b[|b| - 1])
    ensures NormalizeRut(Some(a + b)) == Key(a) + Key(b)
  {
    TrimJoin(a, [], b);
    assert a + [] + b == a + b;
    KeyOfTrimmed(a + b);
    KeyAppend(a, b);
  }

  // ---------------------------------------------------------------------------
  // The evidently intended class `[.\-\s]`
  // ---------------------------------------------------------------------------

  predicate IsRutSeparator(c: char) {
    c == '.' || c == '-' || IsWhite(c)
  }

  /** `s.replace(/[.\-\s]/g, "")` */
  function DropSeparators(s: string): (r: string)
    ensures |r| <= |s|
    ensures forall i | 0 <= i < |r| :: !IsRutSeparator(r[i])
  {
    if s == [] then []
    else if IsRutSeparator(s[0]) then DropSeparators(s[1..])
    else [s[0]] + DropSeparators(s[1..])
  }

  lemma {:induction false} DropSeparatorsAppend(a: string, b: string)
    ensures DropSeparators(a + b) == DropSeparators(a) + DropSeparators(b)
  {
    if a == [] {
      assert a + b == b;
    } else {
      assert (a + b)[0] == a[0];
      assert (a + b)[1..] == a[1..] + b;
      DropSeparatorsAppend(a[1..], b);
    }
  }

  lemma {:induction false} DropAllWhite(s: string)
    requires AllWhite(s)
    ensures DropSeparators(s) == []
  {
    if s != [] {
      DropAllWhite(s[1..]);
    }
  }

  /** The key with dots, hyphens and all white space removed. */
  function NormalizeRutIntended(value: Option<string>): (r: string)
    ensures forall i | 0 <= i < |r| :: !IsRutSeparator(r[i]) && !('a' <= r[i] <= 'z')
    ensures |r| <= |value.GetOr("")|
  {
    var u := Upper(Trim(value.GetOr("")));
    DropSeparatorsNoLower(u);
    DropSeparators(u)
  }

  lemma {:induction false} DropSeparatorsNoLower(s: string)
    requires forall i | 0 <= i < |s| :: !('a' <= s[i] <= 'z')
    ensures forall i | 0 <= i < |DropSeparators(s)| :: !('a' <= DropSeparators(s)[i] <= 'z')
  {
    if s != [] {
      DropSeparatorsNoLower(s[1..]);
    }
  }

  lemma UpperAllWhite(s: string)
    requires AllWhite(s)
    ensures AllWhite(Upper(s))
  {
    forall i | 0 <= i < |s|
      ensures IsWhite(Upper(s)[i])
    {
      CaseKeepsWhite(s[i]);
    }
  }

  lemma DropWhiteAround(w1: string, t: string, w2: string)
    requires AllWhite(w1) && AllWhite(w2)
    ensures DropSeparators(Upper(w1 + t + w2)) == DropSeparators(Upper(t))
  {
    UpperAppend(w1 + t, w2);
    UpperAppend(w1, t);
    UpperAllWhite(w1);
    UpperAllWhite(w2);
    DropAllWhite(Upper(w1));
    DropAllWhite(Upper(w2));
    DropSeparatorsAppend(Upper(w1) + Upper(t), Upper(w2));
    DropSeparatorsAppend(Upper(w1), Upper(t));
  }

  /** `s` upper-cased with dots, hyphens and white space removed. */
  function IntendedKey(s: string): string {
    DropSeparators(Upper(s))
  }

  lemma {:induction false} IntendedKeyAppend(a: string, b: string)
    ensures IntendedKey(a + b) == IntendedKey(a) + IntendedKey(b)
  {
    UpperAppend(a, b);
    DropSeparatorsAppend(Upper(a), Upper(b));
  }

  lemma IntendedKeyOfSeparator(c: char)
    requires IsRutSeparator(c)
    ensures IntendedKey([c]) == []
  {
    CaseKeepsWhite(c);
    assert Upper([c]) == [c];
  }

  /** Trimming first changes nothing, since white space is dropped anyway. */
  lemma IntendedIgnoresTrim(s: string)
    ensures NormalizeRutIntended(Some(s)) == IntendedKey(s)
  {
    var w1, w2 := TrimSplit(s);
    DropWhiteAround(w1, Trim(s), w2);
  }

  /** With the intended class, separators anywhere do not change the key. */
  lemma IntendedIgnoresSeparator(a: string, c: char, b: string)
    requires IsRutSeparator(c)
    ensures NormalizeRutIntended(Some(a + [c] + b)) == NormalizeRutIntended(Some(a + b))
  {
    IntendedKeyOfSeparator(c);
    IntendedIgnoresDropped(a, [c], b);
  }

  lemma IntendedIgnoresDropped(a: string, m: string, b: string)
    requires IntendedKey(m) == []
    ensures NormalizeRutIntended(Some(a + m + b)) == NormalizeRutIntended(Some(a + b))
  {
    IntendedIgnoresTrim(a + m + b);
    IntendedIgnoresTrim(a + b);
    IntendedKeyAppend(a + m, b);
    IntendedKeyAppend(a, m);
    IntendedKeyAppend(a, b);
  }
}
