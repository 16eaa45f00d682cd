/**
 * The input filters on the holder-name and survey-number fields: on every
 * keystroke the field's value is replaced by the value with every character
 * outside the field's allowed class removed.
 */
module Sanitizers {
  import opened Seqs

  /** The two filtered fields. */
  datatype InputField = HolderNameInput | SurveyNoInput

  predicate IsAsciiLetter(c: char)
  {
    'a' <= c <= 'z' || 'A' <= c <= 'Z'
  }

  predicate IsAsciiDigit(c: char)
  {
    '0' <= c <= '9'
  }

  /** The Devanagari block, U+0900 to U+097F. */
  predicate IsDevanagari(c: char)
  {
    '\U{0900}' <= c <= '\U{097F}'
  }

  /** The characters a regular-expression `\s` matches: white space and line terminators. */
  predicate IsRegExpSpace(c: char)
  {
    c == '\t' || c == '\n' || c == '\U{000B}' || c == '\U{000C}' || c == '\r' || c == ' ' ||
    c == '\U{00A0}' || c == '\U{1680}' || ('\U{2000}' <= c <= '\U{200A}') ||
    c == '\U{2028}' || c == '\U{2029}' || c == '\U{202F}' || c == '\U{205F}' ||
    c == '\U{3000}' || c == '\U{FEFF}'
  }

  /**
   * The characters a field keeps: for the holder name, letters, Devanagari
   * and white space; for the survey number also digits, '/', '-' and '.'.
   */
  predicate Allowed(field: InputField, c: char): (b: bool)
    ensures IsAsciiLetter(c) || IsDevanagari(c) || IsRegExpSpace(c) ==> b
    ensures b && !(IsAsciiLetter(c) || IsDevanagari(c) || IsRegExpSpace(c)) ==>
      field == SurveyNoInput && (IsAsciiDigit(c) || c == '/' || c == '-' || c == '.')
    ensures field == SurveyNoInput && (IsAsciiDigit(c) || c == '/' || c == '-' || c == '.') ==> b
  {
    match field
    case HolderNameInput => IsAsciiLetter(c) || IsDevanagari(c) || IsRegExpSpace(c)
    case SurveyNoInput =>
      IsAsciiLetter(c) || IsAsciiDigit(c) || IsDevanagari(c) || c == '/' || c == '-' || c == '.' || IsRegExpSpace(c)
  }

  /** The field's new value: `value` with every disallowed character removed. */
  function Sanitize(field: InputField, value: string): (r: string)
    ensures |r| <= |value|
    ensures forall i :: 0 <= i < |r| ==> Allowed(field, r[i])
    decreases |value|
  {
    if value == [] then []
    else (if Allowed(field, value[0]) then [value[0]] else []) + Sanitize(field, value[1..])
  }

  /** Sanitising keeps the allowed characters in their order. */
  lemma {:induction false} SanitizeIsSubsequence(field: InputField, value: string)
    ensures IsSubsequence(Sanitize(field, value), value)
    decreases |value|
  {
    if value != [] {
      SanitizeIsSubsequence(field, value[1..]);
      var rest := Sanitize(field, value[1..]);
      assert value == [value[0]] + value[1..];
      if Allowed(field, value[0]) {
        SubsequenceConsBoth(rest, value[0], value[1..]);
      } else {
        assert Sanitize(field, value) == rest;
        SubsequenceCons(rest, value[0], value[1..]);
      }
    }
  }

  /** Every allowed character keeps its number of occurrences; every other one disappears. */
  lemma {:induction false} SanitizeMultiplicity(field: InputField, value: string, c: char)
    ensures multiset(Sanitize(field, value))[c] == if Allowed(field, c) then multiset(value)[c] else 0
    decreases |value|
  {
    if value != [] {
      SanitizeMultiplicity(field, value[1..], c);
      assert value == [value[0]] + value[1..];
      assert multiset(value) == multiset([value[0]]) + multiset(value[1..]);
    }
  }

  /** A value is left as it is exactly when every character in it is allowed. */
  lemma {:induction false} SanitizeUnchangedIff(field: InputField, value: string)
    ensures Sanitize(field, value) == value <==> forall i :: 0 <= i < |value| ==> Allowed(field, value[i])
    decreases |value|
  {
    if value != [] {
      SanitizeUnchangedIff(field, value[1..]);
      if !Allowed(field, value[0]) {
        assert |Sanitize(field, value)| < |value|;
      }
    }
  }

  /** A second keystroke's filtering changes nothing the first already filtered. */
  lemma SanitizeIdempotent(field: InputField, value: string)
    ensures Sanitize(field, Sanitize(field, value)) == Sanitize(field, value)
  {
    SanitizeUnchangedIff(field, Sanitize(field, value));
  }

  /** Whatever the holder-name filter keeps, the survey-number filter keeps too. */
  lemma HolderNameFilterIsStricter(value: string)
    ensures Sanitize(SurveyNoInput, Sanitize(HolderNameInput, value)) == Sanitize(HolderNameInput, value)
  {
    SanitizeUnchangedIff(SurveyNoInput, Sanitize(HolderNameInput, value));
  }

  /**
   * Digits and '/' are dropped from a holder name but kept in a survey
   * number; '!' is dropped from both.
   */
  lemma SanitizeExample()
    ensures Sanitize(HolderNameInput, "12/a!") == "a"
    ensures Sanitize(SurveyNoInput, "12/a!") == "12/a"
  {
    assert "12/a!"[1..] == "2/a!" && "2/a!"[1..] == "/a!" && "/a!"[1..] == "a!" && "a!"[1..] == "!";
    assert "!"[1..] == "";
  }
}
