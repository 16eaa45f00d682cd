/**
 * String helpers the search page relies on: ASCII lower-casing (the part of
 * `toLowerCase` that can change a holder name or survey number), substring
 * containment (`includes`), rendering integers as decimal text (template
 * literals and option values) and reading them back (the loose `==` between
 * a numeric year and the text value of the year select).
 */
module Text {
  import opened Wrappers

  predicate IsUpperAscii(c: char)
  {
    'A' <= c <= 'Z'
  }

  function LowerChar(c: char): char
  {
    if IsUpperAscii(c) then (c as int + 32) as char else c
  }

  /**
   * `toLowerCase` on ASCII: the same length, each upper-case letter mapped
   * to its lower-case partner, every other character left as it is.
   */
  function Lower(s: string): (l: string)
    ensures |l| == |s|
    ensures forall i :: 0 <= i < |s| ==> !IsUpperAscii(l[i])
    ensures forall i :: 0 <= i < |s| && IsUpperAscii(s[i]) ==> l[i] as int == s[i] as int + 32
    ensures forall i :: 0 <= i < |s| && !IsUpperAscii(s[i]) ==> l[i] == s[i]
  {
    seq(|s|, i requires 0 <= i < |s| => LowerChar(s[i]))
  }

  /** Lower-casing twice is lower-casing once. */
  lemma LowerIsIdempotent(s: string)
    ensures Lower(Lower(s)) == Lower(s)
  {
  }

  predicate StartsWith(s: string, prefix: string)
  {
    |prefix| <= |s| && s[..|prefix|] == prefix
  }

  /** `s.includes(part)`: `part` occurs somewhere in `s` (the empty string occurs everywhere). */
  predicate Contains(s: string, part: string): (b: bool)
    ensures b ==> |part| <= |s|
    decreases |s|
  {
    StartsWith(s, part) || (s != [] && Contains(s[1..], part))
  }

  /** `part` occurs in `s` starting at position `i`. */
  predicate OccursAt(s: string, part: string, i: int)
  {
    0 <= i <= |s| - |part| && s[i..i + |part|] == part
  }

  /** Containment is the existence of a position where `part` occurs. */
  lemma {:induction false} ContainsAt(s: string, part: string)
    ensures Contains(s, part) <==> exists i :: OccursAt(s, part, i)
    decreases |s|
  {
    if s != [] {
      ContainsAt(s[1..], part);
    }
    if Contains(s, part) {
      if StartsWith(s, part) {
        assert OccursAt(s, part, 0);
      } else {
        var j :| OccursAt(s[1..], part, j);
        assert s[j + 1..j + 1 + |part|] == s[1..][j..j + |part|];
        assert OccursAt(s, part, j + 1);
      }
    }
    forall i | OccursAt(s, part, i)
      ensures Contains(s, part)
    {
      if i == 0 {
        assert s[..|part|] == s[i..i + |part|];
      } else {
        assert s[1..][i - 1..i - 1 + |part|] == s[i..i + |part|];
        assert OccursAt(s[1..], part, i - 1);
      }
    }
  }

  predicate IsDigit(c: char)
  {
    '0' <= c <= '9'
  }

  predicate AllDigits(s: string)
  {
    forall i :: 0 <= i < |s| ==> IsDigit(s[i])
  }

  function DigitChar(d: nat): char
    requires d < 10
  {
    ('0' as int + d) as char
  }

  /** Decimal numeral of a natural number, as `${n}` renders it: its digits, without leading zeros. */
  function ShowNat(n: nat): (s: string)
    ensures s != [] && AllDigits(s)
    ensures DigitsValue(s) == n
    ensures |s| == 1 || s[0] != '0'
    decreases n
  {
    if n < 10 then
      var s := [DigitChar(n)];
      assert s[..|s| - 1] == [];
      s
    else
      var prefix := ShowNat(n / 10);
      var s := prefix + [DigitChar(n % 10)];
      assert s[..|s| - 1] == prefix;
      s
  }

  /** Decimal numeral of an integer, with a leading '-' when negative. */
  function ShowInt(i: int): string
  {
    if i < 0 then "-" + ShowNat(-i) else ShowNat(i)
  }

  /** Value of a string of decimal digits (leading zeros allowed). */
  function DigitsValue(s: string): nat
    requires AllDigits(s)
    decreases |s|
  {
    if s == [] then 0
    else DigitsValue(s[..|s| - 1]) * 10 + (s[|s| - 1] as int - '0' as int)
  }

  /**
   * The number a year criterion denotes when it is compared with `==` to a
   * numeric year: an optional sign followed by decimal digits; anything else
   * denotes no integer and equals no year.
   */
  function ParseInt(s: string): (r: Option<int>)
    ensures r.Some? ==> s != [] && IsDigit(s[|s| - 1])
    ensures r.Some? && s[0] != '-' ==> r.value >= 0
  {
    if s != [] && (s[0] == '-' || s[0] == '+') then
      var digits := s[1..];
      if digits != [] && AllDigits(digits) then
        var value: int := DigitsValue(digits);
        Some(if s[0] == '-' then -value else value)
      else None
    else if s != [] && AllDigits(s) then Some(DigitsValue(s))
    else None
  }

  /** Reading back the numeral of any integer gives the integer. */
  lemma ParseShowInt(i: int)
    ensures ParseInt(ShowInt(i)) == Some(i)
  {
    if i < 0 {
      assert ShowInt(i)[1..] == ShowNat(-i);
    }
  }

  /** A numeral holds neither a line break nor a double quote. */
  lemma ShowIntPlain(i: int)
    ensures '\n' !in ShowInt(i) && '"' !in ShowInt(i)
  {
    var s := ShowInt(i);
    if i < 0 {
      assert forall k :: 1 <= k < |s| ==> s[k] == ShowNat(-i)[k - 1];
    }
  }
}
