/**
 * The command's two coercion helpers: `to_float(v)` is `float(v)` and
 * `to_int(v)` is `int(float(v))`, each giving `None` instead of raising.
 * `float()` of a string is modelled on decimal text: surrounding whitespace,
 * an optional sign, then ASCII digits with an optional fractional part, or
 * one of the words `inf`, `infinity`, `nan` in any case.
 */
module Coerce {
  import opened Wrappers
  import opened Text
  import opened Raw

  /** The index of the first `c` in `s` at or after `i`, or `|s|` when there is none. */
  function FindFrom(s: string, c: char, i: nat): (j: nat)
    requires i <= |s|
    ensures i <= j <= |s|
    ensures j < |s| ==> s[j] == c
    ensures forall k :: i <= k < j ==> s[k] != c
    decreases |s| - i
  {
    if i == |s| || s[i] == c then i else FindFrom(s, c, i + 1)
  }

  /** The digits `s[lo..hi]` after a decimal point, read as a fraction (`"25"` as 0.25). */
  function FractionBetween(s: string, lo: nat, hi: nat): (r: real)
    requires lo <= hi <= |s| && DigitsBetween(s, lo, hi)
    ensures 0.0 <= r < 1.0
    decreases hi - lo
  {
    if lo == hi then 0.0 else (DigitValue(s[lo]) as real + FractionBetween(s, lo + 1, hi)) / 10.0
  }

  function Fraction(f: string): (r: real)
    requires AllDigits(f)
    ensures 0.0 <= r < 1.0
  {
    FractionBetween(f, 0, |f|)
  }

  /**
   * Digits, optionally a point and more digits, with at least one digit in
   * all: the whole part plus the fraction.
   */
  function ParseDecimal(m: string): Option<real> {
    var d := FindFrom(m, '.', 0);
    var start := if d < |m| then d + 1 else |m|;
    if DigitsBetween(m, 0, d) && DigitsBetween(m, start, |m|) && d + (|m| - start) > 0 then
      Some(ValueBetween(m, 0, d) as real + FractionBetween(m, start, |m|))
    else None
  }

  /** `s.lower() == word` for a lower-case ASCII `word`. */
  predicate EqualsIgnoringCase(s: string, word: string) {
    |s| == |word| && forall k :: 0 <= k < |s| ==> LowerChar(s[k]) == word[k]
  }

  /** The number an unsigned body denotes: a special word or a decimal. */
  function ParseUnsigned(body: string): Option<Number> {
    if EqualsIgnoringCase(body, "inf") || EqualsIgnoringCase(body, "infinity") then Some(Infinity(false))
    else if EqualsIgnoringCase(body, "nan") then Some(NaN)
    else
      var x := ParseDecimal(body);
      if x.None? then None else Some(Finite(x.value))
  }

  /** `-x` for a float. */
  function Negate(x: Number): Number {
    match x
    case Finite(v) => Finite(-v)
    case Infinity(negative) => Infinity(!negative)
    case NaN => NaN
  }

  /** `float(s)` for a string: `None` where Python raises ValueError; blank text is no number. */
  function ParseFloat(s: string): (r: Option<Number>)
    ensures Strip(s) == [] ==> r.None?
  {
    var t := Strip(s);
    if t != [] && (t[0] == '+' || t[0] == '-') then
      var x := ParseUnsigned(t[1..]);
      if x.Some? && t[0] == '-' then Some(Negate(x.value)) else x
    else ParseUnsigned(t)
  }

  /**
   * `to_float(v)`: `float(v)`, or `None` on any exception. A number comes
   * through with its value; `None`, a list and an object are refused.
   */
  function ToFloat(v: Json): (r: Option<Number>)
    ensures v.JNull? || v.JArray? || v.JObject? ==> r.None?
    ensures v.JInt? ==> r == Some(Finite(v.i as real))
    ensures v.JFloat? ==> r == Some(v.x)
    ensures v.JStr? && Strip(v.s) == [] ==> r.None?
  {
    match v
    case JNull => None
    case JBool(b) => Some(Finite(if b then 1.0 else 0.0))
    case JInt(i) => Some(Finite(i as real))
    case JFloat(x) => Some(x)
    case JStr(s) => ParseFloat(s)
    case JArray(_) => None
    case JObject(_) => None
  }

  /** `int(x)` for a finite float: the integer part, rounding toward zero. */
  function Truncate(x: real): (r: int)
    ensures x >= 0.0 ==> 0 <= r && r as real <= x < r as real + 1.0
    ensures x < 0.0 ==> r <= 0 && r as real - 1.0 < x <= r as real
  {
    if x >= 0.0 then x.Floor else -((-x).Floor)
  }

  /**
   * `to_int(v)`: `int(float(v))`, or `None` on any exception; `int()` of an
   * infinity raises OverflowError and of NaN raises ValueError.
   */
  function ToInt(v: Json): (r: Option<int>)
    ensures r.Some? ==> ToFloat(v).Some? && ToFloat(v).value.Finite?
    ensures v.JInt? ==> r == Some(v.i)
    ensures v.JFloat? && !v.x.Finite? ==> r.None?
    ensures v.JNull? || v.JArray? || v.JObject? ==> r.None?
  {
    match ToFloat(v)
    case Some(Finite(x)) => Some(Truncate(x))
    case _ => None
  }

  /** The fraction digits are read the same behind any prefix. */
  lemma {:induction false} FractionBehind(p: string, f: string, i: nat)
    requires i <= |f| && AllDigits(f)
    ensures DigitsBetween(p + f, |p| + i, |p + f|)
    ensures FractionBetween(p + f, |p| + i, |p + f|) == FractionBetween(f, i, |f|)
    decreases |f| - i
  {
    assert forall k :: |p| + i <= k < |p + f| ==> (p + f)[k] == f[k - |p|];
    if i < |f| {
      FractionBehind(p, f, i + 1);
    }
  }

  /** Digits, a point and digits read as the whole part plus the fraction. */
  lemma DecimalOfDigits(w: string, f: string)
    requires AllDigits(w) && AllDigits(f) && |w| > 0
    ensures ParseDecimal(w + "." + f) == Some(DigitsValue(w) as real + Fraction(f))
  {
    var m := w + "." + f;
    assert m == w + ("." + f);
    assert m[|w|] == '.';
    assert FindFrom(m, '.', 0) == |w| by {
      forall k | 0 <= k < |w| ensures m[k] != '.' { assert m[k] == w[k]; }
    }
    ValueBetweenAppend(w, "." + f, 0, |w|);
    FractionBehind(w + ".", f, 0);
  }

  /** A body starting with a digit is no special word, so it is read as a decimal. */
  lemma UnsignedOfDigitFirst(body: string)
    requires body != [] && IsDigit(body[0])
    ensures ParseDecimal(body).None? ==> ParseUnsigned(body).None?
    ensures ParseDecimal(body).Some? ==> ParseUnsigned(body) == Some(Finite(ParseDecimal(body).value))
  {
  }

  /** Text that `strip()` leaves alone and that starts with a digit is parsed as its body. */
  lemma ParseFloatOfStripped(s: string)
    requires Strip(s) == s && s != [] && IsDigit(s[0])
    ensures ParseFloat(s) == ParseUnsigned(s)
  {
  }

  /** A leading minus sign on text that `strip()` leaves alone negates the rest. */
  lemma ParseFloatOfStrippedNegative(s: string)
    requires Strip(s) == s && s != [] && s[0] == '-'
    ensures ParseUnsigned(s[1..]).None? ==> ParseFloat(s).None?
    ensures ParseUnsigned(s[1..]).Some? ==> ParseFloat(s) == Some(Negate(ParseUnsigned(s[1..]).value))
  {
  }

  /** A minus sign in front of unpadded text leaves it unpadded. */
  lemma NegativeUnpadded(body: string)
    requires body != [] && !IsSpace(body[0]) && !IsSpace(body[|body| - 1])
    ensures Strip("-" + body) == "-" + body
  {
    var s := "-" + body;
    assert s[0] == '-' && s[|s| - 1] == body[|body| - 1];
    assert !IsSpace(s[0]);
    StripUnpadded(s);
  }

  /** A minus sign in front of unpadded text starting with a digit negates its value. */
  lemma ParseFloatOfNegative(body: string, x: real)
    requires body != [] && IsDigit(body[0]) && !IsSpace(body[|body| - 1])
    requires ParseUnsigned(body) == Some(Finite(x))
    ensures ParseFloat("-" + body) == Some(Finite(-x))
  {
    var s := "-" + body;
    assert s[1..] == body;
    NegativeUnpadded(body);
    ParseFloatOfStrippedNegative(s);
  }

  /** The unsigned text `w.f` denotes the number `w` plus the fraction `0.f`. */
  lemma UnsignedOfDecimal(w: string, f: string)
    requires AllDigits(w) && AllDigits(f) && |w| > 0
    ensures var body := w + "." + f;
            && body != [] && IsDigit(body[0]) && !IsSpace(body[|body| - 1])
            && ParseUnsigned(body) == Some(Finite(DigitsValue(w) as real + Fraction(f)))
  {
    var body := w + "." + f;
    assert body[0] == w[0] && body[|body| - 1] == if f == [] then '.' else f[|f| - 1];
    DecimalOfDigits(w, f);
    UnsignedOfDigitFirst(body);
  }

  /** `float(w + "." + f)` is `w` plus the fraction `0.f`. */
  lemma ParseFloatOfDecimal(w: string, f: string)
    requires AllDigits(w) && AllDigits(f) && |w| > 0
    ensures ParseFloat(w + "." + f) == Some(Finite(DigitsValue(w) as real + Fraction(f)))
  {
    UnsignedOfDecimal(w, f);
    StripUnpadded(w + "." + f);
    ParseFloatOfStripped(w + "." + f);
  }

  /** `float("-" + w + "." + f)` is minus `w` plus the fraction `0.f`. */
  lemma ParseFloatOfNegativeDecimal(w: string, f: string)
    requires AllDigits(w) && AllDigits(f) && |w| > 0
    ensures ParseFloat("-" + (w + "." + f)) == Some(Finite(-(DigitsValue(w) as real + Fraction(f))))
  {
    UnsignedOfDecimal(w, f);
    ParseFloatOfNegative(w + "." + f, DigitsValue(w) as real + Fraction(f));
  }

  /** `str(k) + "." + f` is the sign, then the digits of `k`'s magnitude, a point and `f`. */
  lemma IntDecimalText(k: int, f: string)
    ensures IntText(k) + "." + f ==
              if k < 0 then "-" + (NatText(-k) + "." + f) else NatText(k) + "." + f
  {
    if k < 0 {
      assert IntText(k) == "-" + NatText(-k);
    }
  }

  /** `to_float(str(n) + "." + f)` is `n` plus the fraction `0.f`. */
  lemma ToFloatOfNatDecimal(n: nat, f: string)
    requires AllDigits(f)
    ensures ToFloat(JStr(NatText(n) + "." + f)) == Some(Finite(n as real + Fraction(f)))
  {
    NatTextValue(n);
    ParseFloatOfDecimal(NatText(n), f);
  }

  /** `to_float("-" + str(n) + "." + f)` is minus `n` plus the fraction `0.f`. */
  lemma ToFloatOfNegativeDecimal(n: nat, f: string)
    requires AllDigits(f)
    ensures ToFloat(JStr("-" + (NatText(n) + "." + f))) == Some(Finite(-(n as real + Fraction(f))))
  {
    NatTextValue(n);
    ParseFloatOfNegativeDecimal(NatText(n), f);
  }

  /** Truncating `n` plus or minus a fraction below one gives back `n` or `-n`. */
  lemma TruncateFraction(n: nat, x: real)
    requires 0.0 <= x < 1.0
    ensures Truncate(n as real + x) == n
    ensures Truncate(-(n as real + x)) == -(n as int)
  {
  }

  /**
   * `to_int` truncates toward zero: the decimal text of an integer `k`
   * followed by any fraction converts back to `k`, for negative `k` too
   * (`"1200.0"` gives 1200 and `"-3.7"` gives -3).
   */
  lemma ToIntOfDecimalText(k: int, f: string)
    requires AllDigits(f)
    ensures ToInt(JStr(IntText(k) + "." + f)) == Some(k)
  {
    var s := IntText(k) + "." + f;
    IntDecimalText(k, f);
    if k < 0 {
      var n: nat := -k;
      assert s == "-" + (NatText(n) + "." + f);
      ToFloatOfNegativeDecimal(n, f);
      TruncateFraction(n, Fraction(f));
    } else {
      assert s == NatText(k) + "." + f;
      ToFloatOfNatDecimal(k, f);
      TruncateFraction(k, Fraction(f));
    }
  }

  /** Digits with no point are read as the whole number they spell. */
  lemma DecimalOfWhole(w: string)
    requires AllDigits(w) && |w| > 0
    ensures ParseDecimal(w) == Some(DigitsValue(w) as real)
  {
    assert FindFrom(w, '.', 0) == |w| by {
      forall k | 0 <= k < |w| ensures w[k] != '.' { assert IsDigit(w[k]); }
    }
  }

  /** A value `to_float` reads as a whole number `k` gives `k` under `to_int`. */
  lemma ToIntOfWhole(v: Json, k: int)
    requires ToFloat(v) == Some(Finite(k as real))
    ensures ToInt(v) == Some(k)
  {
    var n: nat := if k < 0 then -k else k;
    TruncateFraction(n, 0.0);
    if k < 0 {
      assert k as real == -(n as real + 0.0);
    } else {
      assert k as real == n as real + 0.0;
    }
  }

  /** `to_float(str(n))` is `n`. */
  lemma ToFloatOfNatText(n: nat)
    ensures ToFloat(JStr(NatText(n))) == Some(Finite(n as real))
  {
    var w := NatText(n);
    NatTextValue(n);
    DecimalOfWhole(w);
    UnsignedOfDigitFirst(w);
    assert IsDigit(w[0]) && IsDigit(w[|w| - 1]);
    StripUnpadded(w);
    ParseFloatOfStripped(w);
  }

  /** `to_float("-" + str(n))` is minus `n`. */
  lemma ToFloatOfNegativeNatText(n: nat)
    ensures ToFloat(JStr("-" + NatText(n))) == Some(Finite(-(n as real)))
  {
    var w := NatText(n);
    NatTextValue(n);
    DecimalOfWhole(w);
    UnsignedOfDigitFirst(w);
    assert IsDigit(w[|w| - 1]);
    ParseFloatOfNegative(w, n as real);
  }

  /** `to_float(str(k))` is `k`. */
  lemma ToFloatOfIntText(k: int)
    ensures ToFloat(JStr(IntText(k))) == Some(Finite(k as real))
  {
    if k < 0 {
      var n: nat := -k;
      assert IntText(k) == "-" + NatText(n);
      ToFloatOfNegativeNatText(n);
      assert -(n as real) == k as real;
    } else {
      ToFloatOfNatText(k);
    }
  }

  /**
   * The plain text of an integer, with no fractional part (`"1200"`,
   * `"-7"`), converts to that integer under both `to_float` and `to_int`.
   */
  lemma ToIntOfIntText(k: int)
    ensures ToFloat(JStr(IntText(k))) == Some(Finite(k as real))
    ensures ToInt(JStr(IntText(k))) == Some(k)
  {
    ToFloatOfIntText(k);
    ToIntOfWhole(JStr(IntText(k)), k);
  }

  /** `to_int("1200.0") == 1200` and `to_float("1200.0") == 1200.0`. */
  lemma IntegerLikeFloatText()
    ensures ToFloat(JStr("1200.0")) == Some(Finite(1200.0))
    ensures ToInt(JStr("1200.0")) == Some(1200)
  {
    assert NatText(1200) == "1200";
    assert NatText(1200) + "." + "0" == "1200.0";
    ToFloatOfNatDecimal(1200, "0");
    assert Fraction("0") == 0.0;
  }

  /** Text that is not a number fails both coercions. */
  lemma NotANumberText()
    ensures ToFloat(JStr("abc")) == None && ToInt(JStr("abc")) == None
  {
    var abc := "abc";
    StripUnpadded(abc);
    assert FindFrom(abc, '.', 0) == 3;
    assert !IsDigit(abc[0]);
    assert !EqualsIgnoringCase(abc, "inf");
  }

  /** `float("inf")` is an infinity, which `int()` cannot convert; likewise NaN. */
  lemma NonFiniteText()
    ensures ToFloat(JStr("inf")) == Some(Infinity(false)) && ToInt(JStr("inf")) == None
    ensures ToFloat(JStr("NaN")) == Some(NaN) && ToInt(JStr("NaN")) == None
  {
    StripUnpadded("inf");
    assert EqualsIgnoringCase("inf", "inf");
    StripUnpadded("NaN");
    assert !EqualsIgnoringCase("NaN", "inf");
    assert EqualsIgnoringCase("NaN", "nan");
  }

  /** `None` and containers fail both coercions; booleans read as 0 and 1. */
  lemma NonTextValues(n: nat, b: bool)
    ensures ToFloat(JNull) == None && ToInt(JNull) == None
    ensures ToInt(JArray(n)) == None && ToInt(JObject(n)) == None
    ensures ToInt(JBool(b)) == Some(if b then 1 else 0)
  {
  }

  /** `to_int` succeeds exactly when `to_float` gives a finite number, and then truncates it. */
  lemma ToIntThroughToFloat(v: Json)
    ensures ToInt(v).Some? <==> ToFloat(v).Some? && ToFloat(v).value.Finite?
    ensures ToInt(v).Some? ==> ToInt(v).value == Truncate(ToFloat(v).value.value)
  {
  }

  /** `float()` ignores whitespace around the number. */
  lemma {:induction false} ParseFloatIgnoresPadding(s: string)
    ensures ParseFloat(s) == ParseFloat(Strip(s))
  {
    StripUnpadded(Strip(s));
  }
}
