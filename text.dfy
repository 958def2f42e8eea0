/**
 * The few pieces of Python's `str` behaviour the ingest pipeline relies on:
 * `strip()`, `upper()`/`lower()` (ASCII letters), decimal digits, and the
 * decimal text of an integer.
 */
module Text {

  /** Python's `str.isspace()`: the characters `strip()` removes. */
  predicate IsSpace(c: char) {
    || c == ' '
    || ('\t' <= c <= '\r')
    || ('\U{1C}' <= c <= '\U{1F}')
    || c == '\U{85}' || c == '\U{A0}' || c == '\U{1680}'
    || ('\U{2000}' <= c <= '\U{200A}')
    || c == '\U{2028}' || c == '\U{2029}' || c == '\U{202F}' || c == '\U{205F}' || c == '\U{3000}'
  }

  predicate AllSpace(s: string) {
    forall k :: 0 <= k < |s| ==> IsSpace(s[k])
  }

  /** The index of the first non-space character of `s` at or after `i`, or `|s|`. */
  function SkipSpace(s: string, i: nat): (j: nat)
    requires i <= |s|
    ensures i <= j <= |s|
    ensures forall k :: i <= k < j ==> IsSpace(s[k])
    ensures j < |s| ==> !IsSpace(s[j])
    decreases |s| - i
  {
    if i < |s| && IsSpace(s[i]) then SkipSpace(s, i + 1) else i
  }

  /** The end of `s[lo..hi]` once its trailing whitespace is dropped. */
  function SkipSpaceBack(s: string, lo: nat, hi: nat): (j: nat)
    requires lo <= hi <= |s|
    ensures lo <= j <= hi
    ensures forall k :: j <= k < hi ==> IsSpace(s[k])
    ensures j > lo ==> !IsSpace(s[j - 1])
  {
    if hi > lo && IsSpace(s[hi - 1]) then SkipSpaceBack(s, lo, hi - 1) else hi
  }

  /** Python's `s.strip()`: `s` with its leading and trailing whitespace removed. */
  function Strip(s: string): (r: string)
    ensures |r| <= |s|
    ensures r == [] || (!IsSpace(r[0]) && !IsSpace(r[|r| - 1]))
  {
    var a := SkipSpace(s, 0);
    var b := SkipSpaceBack(s, a, |s|);
    s[a..b]
  }

  /** `strip()` removes whitespace only: `s` is the result with whitespace on either side. */
  lemma StripRemovesOnlySpace(s: string)
    ensures exists i :: 0 <= i <= i + |Strip(s)| <= |s| && Strip(s) == s[i..i + |Strip(s)|]
                        && AllSpace(s[..i]) && AllSpace(s[i + |Strip(s)|..])
  {
    var a := SkipSpace(s, 0);
    var b := SkipSpaceBack(s, a, |s|);
    assert Strip(s) == s[a..b];
    assert forall k :: 0 <= k < a ==> s[..a][k] == s[k];
    assert forall k :: 0 <= k < |s| - b ==> s[b..][k] == s[b + k];
  }

  /** Text that neither starts nor ends with whitespace is left alone by `strip()`. */
  lemma StripUnpadded(s: string)
    requires s == [] || (!IsSpace(s[0]) && !IsSpace(s[|s| - 1]))
    ensures Strip(s) == s
  {
    if s != [] {
      assert SkipSpace(s, 0) == 0;
      assert SkipSpaceBack(s, 0, |s|) == |s|;
      assert s[0..|s|] == s;
    }
  }

  predicate IsLower(c: char) {
    'a' <= c <= 'z'
  }

  predicate IsUpper(c: char) {
    'A' <= c <= 'Z'
  }

  function UpperChar(c: char): char {
    if IsLower(c) then (c as int - 32) as char else c
  }

  function LowerChar(c: char): char {
    if IsUpper(c) then (c as int + 32) as char else c
  }

  /** Python's `s.upper()` on ASCII letters: every lower-case letter raised, nothing else touched. */
  function Upper(s: string): (r: string)
    ensures |r| == |s|
    ensures forall k :: 0 <= k < |s| ==> r[k] == UpperChar(s[k])
    ensures forall k :: 0 <= k < |r| ==> !IsLower(r[k])
    ensures forall k :: 0 <= k < |s| && !IsLower(s[k]) ==> r[k] == s[k]
  {
    seq(|s|, k requires 0 <= k < |s| => UpperChar(s[k]))
  }

  /** Upper-casing twice is upper-casing once. */
  lemma {:induction false} UpperIsIdempotent(s: string)
    ensures Upper(Upper(s)) == Upper(s)
  {
    var u := Upper(s);
    assert forall k :: 0 <= k < |u| ==> Upper(u)[k] == u[k];
  }

  /** Two characters have the same upper-case form exactly when they have the same lower-case form. */
  lemma CaseFoldsAgree(a: char, b: char)
    ensures UpperChar(a) == UpperChar(b) <==> LowerChar(a) == LowerChar(b)
  {
  }

  /**
   * Comparing upper-cased texts is comparing them regardless of case: the
   * texts have the same length and agree character by character once lowered.
   */
  lemma {:induction false} UpperEqualIgnoresCase(a: string, b: string)
    ensures Upper(a) == Upper(b) <==>
              |a| == |b| && forall k :: 0 <= k < |a| ==> LowerChar(a[k]) == LowerChar(b[k])
  {
    if |a| == |b| {
      forall k | 0 <= k < |a|
        ensures Upper(a)[k] == Upper(b)[k] <==> LowerChar(a[k]) == LowerChar(b[k])
      {
        CaseFoldsAgree(a[k], b[k]);
      }
      if forall k :: 0 <= k < |a| ==> Upper(a)[k] == Upper(b)[k] {
        assert Upper(a) == Upper(b);
      }
    }
  }

  predicate IsDigit(c: char) {
    '0' <= c <= '9'
  }

  /** Every character of `s[lo..hi]` is a decimal digit. */
  predicate DigitsBetween(s: string, lo: nat, hi: nat) {
    forall k :: lo <= k < hi && k < |s| ==> IsDigit(s[k])
  }

  predicate AllDigits(s: string) {
    DigitsBetween(s, 0, |s|)
  }

  function DigitValue(c: char): nat
    requires IsDigit(c)
  {
    c as int - '0' as int
  }

  function DigitChar(d: nat): (c: char)
    requires d < 10
    ensures IsDigit(c) && DigitValue(c) == d
  {
    ('0' as int + d) as char
  }

  /** The value of the digits `s[lo..hi]`, most significant first. */
  function ValueBetween(s: string, lo: nat, hi: nat): nat
    requires lo <= hi <= |s| && DigitsBetween(s, lo, hi)
    decreases hi - lo
  {
    if hi == lo then 0 else ValueBetween(s, lo, hi - 1) * 10 + DigitValue(s[hi - 1])
  }

  /** The value of a string of decimal digits (`int("0042") == 42`). */
  function DigitsValue(s: string): nat
    requires AllDigits(s)
  {
    ValueBetween(s, 0, |s|)
  }

  /** Digits are read the same with anything appended after them. */
  lemma {:induction false} ValueBetweenAppend(s: string, t: string, lo: nat, hi: nat)
    requires lo <= hi <= |s| && DigitsBetween(s, lo, hi)
    ensures DigitsBetween(s + t, lo, hi) && ValueBetween(s + t, lo, hi) == ValueBetween(s, lo, hi)
  {
    assert forall k :: lo <= k < hi ==> (s + t)[k] == s[k];
    if hi > lo {
      ValueBetweenAppend(s, t, lo, hi - 1);
    }
  }

  /** Digits are read the same with anything put in front of them. */
  lemma {:induction false} ValueBetweenBehind(p: string, s: string, lo: nat, hi: nat)
    requires lo <= hi <= |s| && DigitsBetween(s, lo, hi)
    ensures DigitsBetween(p + s, |p| + lo, |p| + hi)
    ensures ValueBetween(p + s, |p| + lo, |p| + hi) == ValueBetween(s, lo, hi)
    decreases hi - lo
  {
    assert forall k :: |p| + lo <= k < |p| + hi ==> (p + s)[k] == s[k - |p|];
    if hi > lo {
      ValueBetweenBehind(p, s, lo, hi - 1);
    }
  }

  /** `str(n)` for a natural number. */
  function NatText(n: nat): (r: string)
    ensures |r| >= 1 && AllDigits(r)
  {
    if n < 10 then [DigitChar(n)] else NatText(n / 10) + [DigitChar(n % 10)]
  }

  /** `str(i)` for an integer: a minus sign, then the digits of its magnitude. */
  function IntText(i: int): string {
    if i < 0 then "-" + NatText(-i) else NatText(i)
  }

  /** Reading back the decimal text of a number gives the number. */
  lemma {:induction false} NatTextValue(n: nat)
    ensures DigitsValue(NatText(n)) == n
  {
    if n >= 10 {
      var p := NatText(n / 10);
      var s := NatText(n);
      assert s == p + [DigitChar(n % 10)];
      ValueBetweenAppend(p, [DigitChar(n % 10)], 0, |p|);
      NatTextValue(n / 10);
    }
  }
}
