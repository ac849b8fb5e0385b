/**
 * Input validators of the `Lanchonete` class (lanchonete.py, `_validar_id`,
 * `_validar_telefone`) and the blank-name test `not s.strip()`, written as
 * character-class predicates instead of regular expressions.
 */
module Validation {

  predicate IsAsciiLetterOrDigit(c: char) {
    'a' <= c <= 'z' || 'A' <= c <= 'Z' || '0' <= c <= '9'
  }

  predicate IsAsciiDigit(c: char) {
    '0' <= c <= '9'
  }

  /** The characters for which Python's `str.isspace()` holds, so that `str.strip()` removes them. */
  predicate IsSpace(c: char) {
    c == ' ' || '\t' <= c <= '\r' || '\U{1C}' <= c <= '\U{1F}' || c == '\U{85}' || c == '\U{A0}'
    || c == '\U{1680}' || '\U{2000}' <= c <= '\U{200A}' || c == '\U{2028}' || c == '\U{2029}'
    || c == '\U{202F}' || c == '\U{205F}' || c == '\U{3000}'
  }

  /** `not s.strip()`: the string is empty once surrounding whitespace is stripped. */
  predicate IsBlank(s: string) {
    s == [] || (IsSpace(s[0]) && IsBlank(s[1..]))
  }

  /** `str.lstrip()`: drops leading whitespace, and only whitespace. */
  function StripLeft(s: string): (r: string)
    ensures r == [] || !IsSpace(r[0])
    ensures forall k | 0 <= k < |s| - |r| :: IsSpace(s[k])
    ensures r == [] <==> IsBlank(s)
    ensures |r| <= |s|
  {
    if s != [] && IsSpace(s[0]) then StripLeft(s[1..]) else s
  }

  /** `str.rstrip()`: drops trailing whitespace, and only whitespace; a first character that is not a space stays. */
  function StripRight(s: string): (r: string)
    ensures r == [] || !IsSpace(r[|r| - 1])
    ensures forall k | |r| <= k < |s| :: IsSpace(s[k])
    ensures |r| <= |s|
    ensures r != [] ==> r[0] == s[0]
    ensures s != [] && !IsSpace(s[0]) ==> r != []
  {
    if s != [] && IsSpace(s[|s| - 1]) then StripRight(s[..|s| - 1]) else s
  }

  /**
   * `str.strip()`: the string without surrounding whitespace. It neither starts nor
   * ends with a space, it is empty exactly when the string is blank, and what it drops
   * before and after the part it keeps (`StripIsInfix`) is whitespace.
   */
  function Strip(s: string): (r: string)
    ensures r == [] <==> IsBlank(s)
    ensures r == [] || (!IsSpace(r[0]) && !IsSpace(r[|r| - 1]))
    ensures forall k | 0 <= k < |s| - |StripLeft(s)| :: IsSpace(s[k])
    ensures forall k | |s| - |StripLeft(s)| + |r| <= k < |s| :: IsSpace(s[k])
  {
    var left := StripLeft(s);
    StripLeftIsSuffix(s);
    assert forall k | |s| - |left| + |StripRight(left)| <= k < |s| :: s[k] == left[k - (|s| - |left|)];
    StripRight(left)
  }

  /** `r` occurs in `s` starting at position `i`. */
  ghost predicate OccursAt(r: string, s: string, i: int) {
    0 <= i && i + |r| <= |s| && forall k | 0 <= k < |r| :: r[k] == s[i + k]
  }

  /** What `lstrip` keeps is a suffix of the string. */
  lemma {:induction false} StripLeftIsSuffix(s: string)
    ensures OccursAt(StripLeft(s), s, |s| - |StripLeft(s)|)
  {
    if s != [] && IsSpace(s[0]) {
      StripLeftIsSuffix(s[1..]);
    }
  }

  /** What `rstrip` keeps is a prefix of the string. */
  lemma {:induction false} StripRightIsPrefix(s: string)
    ensures OccursAt(StripRight(s), s, 0)
  {
    if s != [] && IsSpace(s[|s| - 1]) {
      StripRightIsPrefix(s[..|s| - 1]);
    }
  }

  /**
   * What `strip` keeps is the part of the string that starts where `lstrip` stops. With
   * `Strip`'s contract (what is dropped around it is whitespace, and it neither starts
   * nor ends with whitespace) this determines the result.
   */
  lemma StripIsInfix(s: string)
    ensures OccursAt(Strip(s), s, |s| - |StripLeft(s)|)
  {
    StripLeftIsSuffix(s);
    StripRightIsPrefix(StripLeft(s));
  }

  /** Every character is an ASCII letter or digit. */
  predicate AllLettersOrDigits(s: string) {
    s == [] || (IsAsciiLetterOrDigit(s[0]) && AllLettersOrDigits(s[1..]))
  }

  /** Every character is an ASCII digit. */
  predicate AllDigits(s: string) {
    s == [] || (AllDigits(s[..|s| - 1]) && IsAsciiDigit(s[|s| - 1]))
  }

  /** A digit string starts with a digit and goes on with digits. */
  lemma {:induction false} DigitsFront(s: string)
    requires s != [] && AllDigits(s)
    ensures IsAsciiDigit(s[0]) && AllDigits(s[1..])
  {
    if |s| > 1 {
      var init := s[..|s| - 1];
      DigitsFront(init);
      assert s[1..][..|s| - 2] == init[1..];
    }
  }

  lemma {:induction false} DigitsAreLettersOrDigits(s: string)
    requires AllDigits(s)
    ensures AllLettersOrDigits(s)
    decreases |s|
  {
    if s != [] {
      DigitsFront(s);
      DigitsAreLettersOrDigits(s[1..]);
    }
  }

  /** `_validar_id`: the whole string matches `[a-zA-Z0-9]+`. */
  function ValidId(s: string): (ok: bool)
    ensures ok ==> |s| > 0 && !IsBlank(s)
  {
    |s| > 0 && AllLettersOrDigits(s)
  }

  /**
   * `_validar_telefone`: the whole string matches `\d{8,15}` (ASCII digits only here).
   * Every valid phone is also a valid identifier.
   */
  function ValidPhone(s: string): (ok: bool)
    ensures ok ==> ValidId(s) && 8 <= |s| <= 15
  {
    if 8 <= |s| <= 15 && AllDigits(s) then
      DigitsAreLettersOrDigits(s);
      true
    else
      false
  }
}
