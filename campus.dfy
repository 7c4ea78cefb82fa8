/**
 * Campus names (src/lib/utils/campus.ts): the table of campus codes and
 * `toCampusFullName`, which turns a code typed in any case into the campus
 * name, flags code-like tokens that are not in the table, and keeps any
 * other text as typed.
 */
module Campus {
  import opened Wrappers
  import opened Text

  /** `CAMPUS_SEDE_BY_CODE` */
  const SedeByCode: map<string, string> := map[
    "ME" := "Melipilla",
    "LF" := "La Florida",
    "OL" := "Online",
    "MP" := "Maip\U{00FA}",
    "PR" := "Providencia",
    "SC" := "Santiago Centro",
    "VL" := "Vi\U{00F1}a del Mar",
    "CO" := "Concepci\U{00F3}n",
    "CV" := "Campus Virtual Nacional"
  ]

  const SinCampus: string := "Sin Campus"

  /** `/^[A-Z]{2,3}$/` */
  predicate LooksLikeCode(s: string) {
    2 <= |s| <= 3 && forall i | 0 <= i < |s| :: 'A' <= s[i] <= 'Z'
  }

  /** The message for a code-like token that is not in the table. */
  function InvalidSede(code: string): string {
    "SEDE inv\U{00E1}lida (" + code + ")"
  }

  /** `toCampusFullName(value)` */
  function ToCampusFullName(value: Option<string>): (r: string)
    ensures r != []
  {
    var raw := Trim(value.GetOr(""));
    if raw == [] then SinCampus
    else
      var upper := Upper(raw);
      if upper == "SIN CAMPUS" then SinCampus
      else if upper in SedeByCode then SedeByCode[upper]
      else if LooksLikeCode(upper) then InvalidSede(upper)
      else raw
  }

  // ---------------------------------------------------------------------------
  // Properties
  // ---------------------------------------------------------------------------

  /** Every campus name in the table is non-empty and none is the "no campus" label. */
  lemma TableNames()
    ensures forall c | c in SedeByCode :: SedeByCode[c] != [] && SedeByCode[c] != SinCampus
    ensures forall c | c in SedeByCode :: LooksLikeCode(c)
  {
  }

  /** A missing or blank value means no campus. */
  lemma BlankIsSinCampus(value: Option<string>)
    requires value.None? || IsBlank(value.value)
    ensures ToCampusFullName(value) == SinCampus
  {
  }

  /** The outcome depends on the trimmed text only through its upper-cased form, except for free text. */
  lemma Outcomes(s: string)
    requires !IsBlank(s)
    ensures var u := Upper(Trim(s));
      && (u == "SIN CAMPUS" ==> ToCampusFullName(Some(s)) == SinCampus)
      && (u != "SIN CAMPUS" && u in SedeByCode ==> ToCampusFullName(Some(s)) == SedeByCode[u])
      && (u != "SIN CAMPUS" && u !in SedeByCode && LooksLikeCode(u) ==> ToCampusFullName(Some(s)) == InvalidSede(u))
      && (u != "SIN CAMPUS" && u !in SedeByCode && !LooksLikeCode(u) ==> ToCampusFullName(Some(s)) == Trim(s))
  {
  }

  lemma UpperOfLowerChar(c: char)
    ensures UpperChar(LowerChar(c)) == UpperChar(c)
  {
  }

  lemma UpperOfLower(s: string)
    ensures Upper(Lower(s)) == Upper(s)
  {
    forall i | 0 <= i < |s|
      ensures Upper(Lower(s))[i] == Upper(s)[i]
    {
      UpperOfLowerChar(s[i]);
    }
  }

  /** Codes are case-insensitive: "lf", "Lf" and "LF" all name La Florida. */
  lemma CodeCaseInsensitive(s: string)
    requires Upper(Trim(s)) in SedeByCode
    ensures ToCampusFullName(Some(Lower(s))) == ToCampusFullName(Some(s))
    ensures ToCampusFullName(Some(Upper(s))) == ToCampusFullName(Some(s))
  {
    assert Upper(Trim(Lower(s))) == Upper(Trim(s)) by {
      TrimLowerCommute(s);
      UpperOfLower(Trim(s));
    }
    assert Upper(Trim(Upper(s))) == Upper(Trim(s)) by {
      TrimUpperCommute(s);
      UpperIdempotent(Trim(s));
    }
    SameCodeSameName(Lower(s), s);
    SameCodeSameName(Upper(s), s);
  }

  lemma SameCodeSameName(s: string, t: string)
    requires Upper(Trim(s)) == Upper(Trim(t)) && Upper(Trim(t)) in SedeByCode
    ensures ToCampusFullName(Some(s)) == ToCampusFullName(Some(t))
  {
    var u := Upper(Trim(t));
    TableNames();
    assert |u| <= 3;
    assert u != "SIN CAMPUS";
    assert |Trim(s)| == |u| && |Trim(t)| == |u|;
    Outcomes(s);
    Outcomes(t);
  }

  /** An unknown code-like token is flagged, and the flag names the token. */
  lemma InvalidCodeFlagged(s: string)
    requires !IsBlank(s)
    requires LooksLikeCode(Upper(Trim(s))) && Upper(Trim(s)) !in SedeByCode
    ensures ToCampusFullName(Some(s)) == InvalidSede(Upper(Trim(s)))
    ensures EndsWith(ToCampusFullName(Some(s)), Upper(Trim(s)) + ")")
  {
    var u := Upper(Trim(s));
    assert u != "SIN CAMPUS";
    assert InvalidSede(u) == "SEDE inv\U{00E1}lida (" + (u + ")");
    EndsWithAppend("SEDE inv\U{00E1}lida (", u + ")");
  }

  /** Free text keeps its case: only surrounding white space is removed. */
  lemma FreeTextKept(s: string)
    requires !IsBlank(s)
    requires var u := Upper(Trim(s)); u != "SIN CAMPUS" && u !in SedeByCode && !LooksLikeCode(u)
    ensures ToCampusFullName(Some(s)) == Trim(s)
  {
  }
}
