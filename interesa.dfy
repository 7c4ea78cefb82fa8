/**
 * `normalizeInteresa` and `isInteresaViene` (src/lib/utils/interesa.ts): does
 * the free-text "interesa" answer of a contact record say the person is
 * coming ("viene")?
 *
 * The text is trimmed, lower-cased, stripped of diacritics, every run of
 * characters outside [a-z0-9] becomes one space, white runs are collapsed and
 * the result is trimmed again. The answer is "no" when the words "no viene"
 * occur, and otherwise "yes" exactly when "viene" occurs as a whole word.
 */
module Interesa {
  import opened Wrappers
  import opened Text

  // ---------------------------------------------------------------------------
  // Normalisation
  // ---------------------------------------------------------------------------

  /** The class `[a-z0-9]`. */
  predicate IsAlnum(c: char) {
    ('a' <= c <= 'z') || ('0' <= c <= '9')
  }

  /**
   * Characters with the Unicode property Diacritic that a Latin-1 text holds
   * once decomposed: the spacing accents and the combining marks.
   */
  predicate IsDiacriticMark(c: char) {
    c == '^' || c == '`'
    || ('\U{00A8}' <= c && (c == '\U{00A8}' || c == '\U{00AF}' || c == '\U{00B4}' || c == '\U{00B7}' || c == '\U{00B8}'
                            || ('\U{0300}' <= c <= '\U{034E}') || ('\U{0350}' <= c <= '\U{0357}')
                            || ('\U{035D}' <= c <= '\U{0362}')))
  }

  /** The letter a lower-case Latin-1 letter decomposes to, once its accent is dropped. */
  function BaseLetter(c: char): char {
    if c < '\U{00E0}' || c > '\U{00FF}' then c
    else if c <= '\U{00E5}' then 'a'
    else if c == '\U{00E7}' then 'c'
    else if '\U{00E8}' <= c <= '\U{00EB}' then 'e'
    else if '\U{00EC}' <= c <= '\U{00EF}' then 'i'
    else if c == '\U{00F1}' then 'n'
    else if '\U{00F2}' <= c <= '\U{00F6}' then 'o'
    else if '\U{00F9}' <= c <= '\U{00FC}' then 'u'
    else if c == '\U{00FD}' || c == '\U{00FF}' then 'y'
    else c
  }

  /** `.normalize("NFD").replace(/\p{Diacritic}/gu, "")` */
  function StripDiacritics(s: string): (r: string)
    ensures |r| <= |s|
  {
    if s == [] then []
    else (if IsDiacriticMark(s[0]) then [] else [BaseLetter(s[0])]) + StripDiacritics(s[1..])
  }

  lemma {:induction false} StripDiacriticsAppend(a: string, b: string)
    ensures StripDiacritics(a + b) == StripDiacritics(a) + StripDiacritics(b)
  {
    if a == [] {
      assert a + b == b;
    } else {
      assert (a + b)[0] == a[0];
      assert (a + b)[1..] == a[1..] + b;
      StripDiacriticsAppend(a[1..], b);
    }
  }

  /** Lower-casing followed by diacritic stripping. */
  function Fold(s: string): string {
    StripDiacritics(Lower(s))
  }

  lemma FoldAppend(a: string, b: string)
    ensures Fold(a + b) == Fold(a) + Fold(b)
  {
    LowerAppend(a, b);
    StripDiacriticsAppend(Lower(a), Lower(b));
  }

  /** `s` without its leading characters outside [a-z0-9]. */
  function SkipRun(s: string): (r: string)
    ensures |r| <= |s|
    ensures r == [] || IsAlnum(r[0])
  {
    if s == [] || IsAlnum(s[0]) then s else SkipRun(s[1..])
  }

  /** `.replace(/[^a-z0-9]+/g, " ")` */
  function Squash(s: string): (r: string)
    ensures |r| <= |s|
    ensures s != [] && IsAlnum(s[0]) ==> r != [] && r[0] == s[0]
    ensures Squashed(r)
    decreases |s|
  {
    if s == [] then []
    else if IsAlnum(s[0]) then [s[0]] + Squash(s[1..])
    else " " + Squash(SkipRun(s[1..]))
  }

  /** Only [a-z0-9] and single spaces, and every space is followed by [a-z0-9]. */
  predicate Squashed(s: string) {
    && (forall i | 0 <= i < |s| :: IsAlnum(s[i]) || s[i] == ' ')
    && (forall i | 0 <= i < |s| - 1 :: s[i] == ' ' ==> IsAlnum(s[i + 1]))
  }

  /** Squashing leaves single spaces only, so the collapsing step finds nothing to do. */
  lemma CollapseAfterSquash(s: string)
    requires Squashed(s)
    ensures CollapseWhite(s) == s
  {
    assert Collapsed(s) by {
      forall i | 0 <= i < |s| - 1
        ensures IsWhite(s[i]) ==> !IsWhite(s[i + 1])
      {
        assert IsWhite(s[i]) ==> s[i] == ' ';
      }
    }
    CollapseFixed(s);
  }

  /** A trimmed squashed string: words of [a-z0-9] separated by single spaces. */
  predicate NormalForm(s: string) {
    Squashed(s) && (s != [] ==> s[0] != ' ' && s[|s| - 1] != ' ')
  }

  lemma TrimKeepsSquashed(s: string)
    requires Squashed(s)
    ensures NormalForm(Trim(s))
  {
    var k := TrimSlice(s);
    var t := Trim(s);
    forall i | 0 <= i < |t|
      ensures IsAlnum(t[i]) || t[i] == ' '
    {
      assert t[i] == s[k + i];
    }
    forall i | 0 <= i < |t| - 1
      ensures t[i] == ' ' ==> IsAlnum(t[i + 1])
    {
      assert t[i] == s[k + i] && t[i + 1] == s[k + i + 1];
    }
  }

  /** The steps after folding: squash, collapse, trim. */
  function Finish(p: string): (r: string)
    ensures NormalForm(r)
  {
    var q := Squash(p);
    CollapseAfterSquash(q);
    TrimKeepsSquashed(q);
    Trim(CollapseWhite(q))
  }

  /** `normalizeInteresa(value)` */
  function Normalize(value: Option<string>): (r: string)
    ensures NormalForm(r)
  {
    Finish(Fold(Trim(value.GetOr(""))))
  }

  // ---------------------------------------------------------------------------
  // The regular expressions `\bno\s+viene\b` and `\bviene\b`
  // ---------------------------------------------------------------------------

  /** Regular-expression `\w`. */
  predicate IsWordChar(c: char) {
    ('a' <= c <= 'z') || ('A' <= c <= 'Z') || ('0' <= c <= '9') || c == '_'
  }

  /** Regular-expression `\b` at position `i`. */
  predicate Boundary(s: string, i: int)
    requires 0 <= i <= |s|
  {
    (i > 0 && IsWordChar(s[i - 1])) != (i < |s| && IsWordChar(s[i]))
  }

  /** `\bviene\b` matches at position `i`. */
  predicate VieneAt(s: string, i: int)
    requires 0 <= i <= |s|
  {
    i + 5 <= |s| && s[i..i + 5] == "viene" && Boundary(s, i) && Boundary(s, i + 5)
  }

  /** `\bno\s+viene\b` matches from `i`, with the white run ending at `j`. */
  predicate NoVieneAt(s: string, i: int, j: int)
    requires 0 <= i < j <= |s|
  {
    && i + 2 < j && j + 5 <= |s|
    && s[i..i + 2] == "no" && Boundary(s, i)
    && AllWhite(s[i + 2..j])
    && s[j..j + 5] == "viene" && Boundary(s, j + 5)
  }

  /** `/\bviene\b/.test(s)` */
  predicate HasViene(s: string) {
    exists i | 0 <= i <= |s| :: VieneAt(s, i)
  }

  /** `/\bno\s+viene\b/.test(s)` */
  predicate HasNoViene(s: string) {
    exists i, j | 0 <= i < j <= |s| :: NoVieneAt(s, i, j)
  }

  /** `isInteresaViene(value)` */
  function IsInteresaViene(value: Option<string>): (r: bool)
    ensures r ==> HasViene(Normalize(value))
    ensures HasNoViene(Normalize(value)) ==> !r
  {
    var s := Normalize(value);
    if s == [] then false
    else if HasNoViene(s) then false
    else HasViene(s)
  }

  // ---------------------------------------------------------------------------
  // Properties
  // ---------------------------------------------------------------------------

  /** A missing or blank answer is never a "viene". */
  lemma BlankIsNotViene(value: Option<string>)
    requires value.None? || IsBlank(value.value)
    ensures Normalize(value) == []
    ensures !IsInteresaViene(value)
  {
    assert Trim(value.GetOr("")) == [];
  }

  /** Without the negative phrase, the answer is whether "viene" occurs as a word. */
  lemma VieneDecides(value: Option<string>)
    requires !HasNoViene(Normalize(value))
    ensures IsInteresaViene(value) <==> HasViene(Normalize(value))
  {
    VieneNeedsText(Normalize(value));
  }

  lemma VieneNeedsText(s: string)
    ensures HasViene(s) ==> |s| >= 5
  {
  }

  /** The words "no viene" anywhere make the answer "no", whatever else is written. */
  lemma NoVieneRejected(value: Option<string>, a: string, b: string)
    requires Normalize(value) == a + "no viene" + b
    requires a == [] || a[|a| - 1] == ' '
    requires b == [] || b[0] == ' '
    ensures !IsInteresaViene(value)
  {
    var s := Normalize(value);
    NoVieneWitness(s, a, b);
  }

  lemma NoVieneWitness(s: string, a: string, b: string)
    requires s == a + "no viene" + b
    requires a == [] || a[|a| - 1] == ' '
    requires b == [] || b[0] == ' '
    ensures HasNoViene(s)
  {
    var i, j := |a|, |a| + 3;
    var w := "no viene";
    assert s[i..i + 2] == "no" by {
      InfixAt(s, a, w, b, 0, 2);
      assert w[0..2] == "no";
    }
    assert s[i + 2..j] == " " by {
      InfixAt(s, a, w, b, 2, 1);
      assert w[2..3] == " ";
    }
    assert s[j..j + 5] == "viene" by {
      InfixAt(s, a, w, b, 3, 5);
      assert w[3..8] == "viene";
    }
    assert Boundary(s, i) by {
      assert s[i] == s[i..i + 2][0] == 'n';
      assert i > 0 ==> s[i - 1] == ' ';
    }
    assert AllWhite(s[i + 2..j]);
    assert Boundary(s, j + 5) by {
      assert s[j + 4] == s[j..j + 5][4] == 'e';
      assert j + 5 < |s| ==> s[j + 5] == ' ';
    }
    assert NoVieneAt(s, i, j);
  }

  /** A slice of the middle part of `a + w + b`, read in place. */
  lemma InfixAt(s: string, a: string, w: string, b: string, k: nat, n: nat)
    requires s == a + w + b && k + n <= |w|
    ensures s[|a| + k..|a| + k + n] == w[k..k + n]
  {
    assert s[|a|..] == w + b;
    assert s[|a|..][..|w|] == w;
    assert s[|a|..|a| + |w|] == w;
  }

  /** "viene" standing as a word, with no "no viene" anywhere, makes the answer "yes". */
  lemma VieneAccepted(value: Option<string>, a: string, b: string)
    requires Normalize(value) == a + "viene" + b
    requires a == [] || a[|a| - 1] == ' '
    requires b == [] || b[0] == ' '
    requires !HasNoViene(Normalize(value))
    ensures IsInteresaViene(value)
  {
    var s := Normalize(value);
    VieneWitness(s, a, b);
  }

  lemma VieneWitness(s: string, a: string, b: string)
    requires s == a + "viene" + b
    requires a == [] || a[|a| - 1] == ' '
    requires b == [] || b[0] == ' '
    ensures HasViene(s)
  {
    var i := |a|;
    assert s[i..i + 5] == "viene";
    assert i > 0 ==> s[i - 1] == ' ';
    assert i + 5 < |s| ==> s[i + 5] == ' ';
    assert VieneAt(s, i);
  }

  /** "viene" inside a longer word, as in "conviene", is not a match at that place. */
  lemma InsideWordIgnored(s: string, a: string, b: string)
    requires s == a + "viene" + b
    requires a != [] && IsWordChar(a[|a| - 1])
    ensures !VieneAt(s, |a|)
  {
    assert s[|a| - 1] == a[|a| - 1];
  }

  /** Case does not matter: upper-cased and lower-cased answers normalise alike. */
  lemma CaseInsensitive(v: string)
    ensures Normalize(Some(Upper(v))) == Normalize(Some(v))
    ensures Normalize(Some(Lower(v))) == Normalize(Some(v))
  {
    assert Fold(Trim(Upper(v))) == Fold(Trim(v)) by {
      TrimUpperCommute(v);
      LowerOfUpper(Trim(v));
    }
    assert Fold(Trim(Lower(v))) == Fold(Trim(v)) by {
      TrimLowerCommute(v);
      LowerIdempotent(Trim(v));
    }
  }

  /** Folding distributes over a text that trimming leaves alone. */
  lemma NormalizeJoin(a: string, x: string, b: string)
    requires a != [] && b != [] && !IsWhite(a[0]) && !IsWhite(b[|b| - 1])
    ensures Normalize(Some(a + x + b)) == Finish(Fold(a) + Fold(x) + Fold(b))
  {
    TrimJoin(a, x, b);
    FoldAppend(a + x, b);
    FoldAppend(a, x);
  }

  /** An accented letter counts as its base letter: "VIÉNE" reads as "viene". */
  lemma DiacriticsIgnored(a: string, c: char, b: string)
    requires a != [] && b != [] && !IsWhite(a[0]) && !IsWhite(b[|b| - 1])
    requires !IsDiacriticMark(LowerChar(c))
    ensures Normalize(Some(a + [c] + b)) == Normalize(Some(a + [BaseLetter(LowerChar(c))] + b))
  {
    NormalizeJoin(a, [c], b);
    NormalizeJoin(a, [BaseLetter(LowerChar(c))], b);
    FoldBase(c);
  }

  lemma FoldBase(c: char)
    requires !IsDiacriticMark(LowerChar(c))
    ensures Fold([c]) == Fold([BaseLetter(LowerChar(c))]) == [BaseLetter(LowerChar(c))]
  {
    var d := BaseLetter(LowerChar(c));
    assert Lower([c]) == [LowerChar(c)];
    assert Lower([d]) == [LowerChar(d)];
    assert StripDiacritics([LowerChar(c)]) == [d];
  }

  /** A character that folds to something outside [a-z0-9], such as "_" or "!". */
  predicate IsPunctuation(c: char) {
    !IsDiacriticMark(LowerChar(c)) && !IsAlnum(BaseLetter(LowerChar(c)))
  }

  /** Punctuation and underscores act as spaces: "NO_VIENE" reads as "no viene". */
  lemma PunctuationIsSpace(a: string, c: char, b: string)
    requires a != [] && b != [] && !IsWhite(a[0]) && !IsWhite(b[|b| - 1])
    requires IsPunctuation(c)
    ensures Normalize(Some(a + [c] + b)) == Normalize(Some(a + " " + b))
  {
    FoldBase(c);
    FoldBase(' ');
    SeparatorSwap(a, [c], " ", b, BaseLetter(LowerChar(c)), ' ');
  }

  lemma SeparatorSwap(a: string, x: string, y: string, b: string, d: char, e: char)
    requires a != [] && b != [] && !IsWhite(a[0]) && !IsWhite(b[|b| - 1])
    requires Fold(x) == [d] && Fold(y) == [e] && !IsAlnum(d) && !IsAlnum(e)
    ensures Normalize(Some(a + x + b)) == Normalize(Some(a + y + b))
  {
    NormalizeJoin(a, x, b);
    NormalizeJoin(a, y, b);
    SquashSwap(Fold(a), d, e, Fold(b));
  }

  /** All leading non-[a-z0-9] characters of `x + y` are those of `x`, unless `x` has none other. */
  lemma {:induction false} SkipRunAppend(x: string, y: string)
    ensures SkipRun(x) != [] ==> SkipRun(x + y) == SkipRun(x) + y
    ensures SkipRun(x) == [] ==> SkipRun(x + y) == SkipRun(y)
  {
    if x == [] {
      assert x + y == y;
    } else if !IsAlnum(x[0]) {
      assert (x + y)[1..] == x[1..] + y;
      SkipRunAppend(x[1..], y);
    }
  }

  /** Replacing one separator character by another leaves the squashed text alone. */
  lemma {:induction false} SquashSwap(x: string, c: char, d: char, y: string)
    requires !IsAlnum(c) && !IsAlnum(d)
    ensures Squash(x + [c] + y) == Squash(x + [d] + y)
    decreases |x|
  {
    if x == [] {
      assert x + [c] + y == [c] + y && x + [d] + y == [d] + y;
      SquashCons(c, y);
      SquashCons(d, y);
    } else {
      var t := x[1..];
      assert x + [c] + y == [x[0]] + (t + [c] + y) && x + [d] + y == [x[0]] + (t + [d] + y) by {
        assert x == [x[0]] + t;
      }
      SquashCons(x[0], t + [c] + y);
      SquashCons(x[0], t + [d] + y);
      if IsAlnum(x[0]) {
        SquashSwap(t, c, d, y);
      } else {
        SkipRunSwap(t, c, d, y);
        if SkipRun(t) != [] {
          SquashSwap(SkipRun(t), c, d, y);
        }
      }
    }
  }

  /** `Squash` reads its first character, then the rest. */
  lemma SquashCons(h: char, rest: string)
    ensures Squash([h] + rest) == if IsAlnum(h) then [h] + Squash(rest) else " " + Squash(SkipRun(rest))
  {
    assert ([h] + rest)[0] == h && ([h] + rest)[1..] == rest;
  }

  /** Skipping a separator run through `c` or `d`: both reach the same rest, or swap in place. */
  lemma SkipRunSwap(t: string, c: char, d: char, y: string)
    requires !IsAlnum(c) && !IsAlnum(d)
    ensures SkipRun(t) == [] ==> SkipRun(t + [c] + y) == SkipRun(t + [d] + y)
    ensures SkipRun(t) != [] ==> SkipRun(t + [c] + y) == SkipRun(t) + [c] + y
    ensures SkipRun(t) != [] ==> SkipRun(t + [d] + y) == SkipRun(t) + [d] + y
  {
    SkipRunThrough(t, c, y);
    SkipRunThrough(t, d, y);
  }

  /** A separator run ending the prefix `t` runs on through the separator `c`. */
  lemma SkipRunThrough(t: string, c: char, y: string)
    requires !IsAlnum(c)
    ensures SkipRun(t) == [] ==> SkipRun(t + [c] + y) == SkipRun(y)
    ensures SkipRun(t) != [] ==> SkipRun(t + [c] + y) == SkipRun(t) + [c] + y
  {
    assert t + [c] + y == t + ([c] + y);
    SkipRunAppend(t, [c] + y);
    assert ([c] + y)[1..] == y;
    assert SkipRun(t) + ([c] + y) == SkipRun(t) + [c] + y;
  }
}
