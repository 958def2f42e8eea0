/**
 * The command's month normaliser: the period token is tried against the
 * `strptime` formats `%b-%Y`, `%B-%Y`, `%b %Y` and `%B %Y` in that order, and
 * the first that parses gives the full English month name (`strftime("%B")`).
 * A token none of them parses is kept as it is, and an empty one becomes "NA".
 *
 * `strptime` with these formats matches the whole token: a month name (`%b`
 * the abbreviation, `%B` the full name) in any case, then the separator (`-`
 * literally, a space as one or more whitespace characters), then exactly
 * four digits, which must name a year `datetime` accepts (1 to 9999).
 */
module Months {
  import opened Wrappers
  import opened Text

  /** `%B` in the C locale. */
  const FullNames: seq<string> := [
    "January", "February", "March", "April", "May", "June",
    "July", "August", "September", "October", "November", "December"]

  /** `%b` in the C locale. */
  const AbbrevNames: seq<string> := [
    "Jan", "Feb", "Mar", "Apr", "May", "Jun", "Jul", "Aug", "Sep", "Oct", "Nov", "Dec"]

  /** A `strptime` format of the loop: which name it takes and which separator. */
  datatype Format = Format(fullName: bool, dash: bool)

  /** `("%b-%Y", "%B-%Y", "%b %Y", "%B %Y")`, in the order the loop tries them. */
  const Formats: seq<Format> := [Format(false, true), Format(true, true), Format(false, false), Format(true, false)]

  function MonthName(f: Format, m: nat): string
    requires m < 12
  {
    if f.fullName then FullNames[m] else AbbrevNames[m]
  }

  /** Every name a format can match is at least three letters long. */
  lemma {:induction false} MonthNameLength(f: Format, m: nat)
    requires m < 12
    ensures |MonthName(f, m)| >= 3
  {
  }

  /** `t` starts with `name`, ignoring the case of letters. */
  predicate StartsWithIgnoringCase(t: string, name: string) {
    |name| <= |t| && forall k :: 0 <= k < |name| ==> LowerChar(t[k]) == LowerChar(name[k])
  }

  /** Where the year begins when the separator of `f` follows the name ending at `n`. */
  function YearStart(t: string, f: Format, n: nat): (r: Option<nat>)
    requires n <= |t|
    ensures r.Some? ==> n < r.value <= |t|
  {
    if f.dash then
      if n < |t| && t[n] == '-' then Some(n + 1) else None
    else
      var j := SkipSpace(t, n);
      if j > n then Some(j) else None
  }

  /** `%Y` up to the end of the token: exactly four digits, and not year 0. */
  predicate YearAt(t: string, j: nat) {
    j <= |t| && |t| - j == 4 && DigitsBetween(t, j, |t|) && ValueBetween(t, j, |t|) >= 1
  }

  /**
   * `datetime.strptime(t, f)` succeeds, reading month `m` (0 for January): the
   * token is the name, at least one separator character, and four digits.
   */
  predicate Matches(t: string, f: Format, m: nat)
    ensures Matches(t, f, m) ==>
              && m < 12 && |t| >= |MonthName(f, m)| + 5
              && DigitsBetween(t, |t| - 4, |t|) && ValueBetween(t, |t| - 4, |t|) >= 1
  {
    && m < 12
    && StartsWithIgnoringCase(t, MonthName(f, m))
    && var y := YearStart(t, f, |MonthName(f, m)|);
    && y.Some?
    && YearAt(t, y.value)
  }

  /** The first month from `m` on that `t` matches in format `f`. */
  function MatchFrom(t: string, f: Format, m: nat): (r: Option<nat>)
    requires m <= 12
    ensures r.Some? ==> m <= r.value < 12 && Matches(t, f, r.value)
    ensures r.None? ==> forall k :: m <= k < 12 ==> !Matches(t, f, k)
    decreases 12 - m
  {
    if m == 12 then None
    else if Matches(t, f, m) then Some(m)
    else MatchFrom(t, f, m + 1)
  }

  /** `strptime(t, f)`: the month read, or `None` where it raises ValueError. */
  function Strptime(t: string, f: Format): (r: Option<nat>)
    ensures r.Some? ==> r.value < 12 && Matches(t, f, r.value)
    ensures r.None? <==> forall m: nat {:trigger Matches(t, f, m)} :: !Matches(t, f, m)
  {
    MatchFrom(t, f, 0)
  }

  /** The format loop over `formats`: the month name of the first format that parses. */
  function ParseFrom(t: string, formats: seq<Format>): (r: Option<string>)
    ensures r.Some? ==> exists f, m: nat {:trigger Matches(t, f, m)} :: f in formats && Matches(t, f, m) && r.value == FullNames[m]
    ensures r.None? ==> forall f, m: nat {:trigger Matches(t, f, m)} :: f in formats ==> !Matches(t, f, m)
  {
    if formats == [] then None
    else
      var m := Strptime(t, formats[0]);
      if m.Some? then Some(FullNames[m.value]) else ParseFrom(t, formats[1..])
  }

  /** The month name the loop settles on, or `None` when no format parses. */
  function ParsePeriod(t: string): (r: Option<string>)
    ensures r.Some? ==> r.value in FullNames
    ensures r.None? <==> forall f, m: nat {:trigger Matches(t, f, m)} :: f in Formats ==> !Matches(t, f, m)
  {
    ParseFrom(t, Formats)
  }

  /** `month or period_str or "NA"`, where `month` is what the loop found for a non-empty token. */
  function NormaliseMonth(period: string): (r: string)
    ensures period == [] ==> r == "NA"
    ensures period != [] && ParsePeriod(period).None? ==> r == period
    ensures ParsePeriod(period).Some? ==> r in FullNames
    ensures r != []
  {
    var month := if period != [] then ParsePeriod(period) else None;
    if month.Some? then month.value
    else if period != [] then period
    else "NA"
  }

  /** The loop parses the token exactly when one of the four formats matches it. */
  lemma {:induction false} ParsePeriodIff(t: string)
    ensures ParsePeriod(t).Some? <==> exists f, m: nat {:trigger Matches(t, f, m)} :: Matches(t, f, m)
  {
    FormatsAreAll();
  }

  /** The loop tries every combination of name form and separator. */
  lemma {:induction false} FormatsAreAll()
    ensures forall f: Format :: f in Formats
  {
    forall f: Format ensures f in Formats {
      assert f == Formats[if f.dash then (if f.fullName then 1 else 0) else (if f.fullName then 3 else 2)];
    }
  }

  /** The first three letters of a month name, lower-cased: the same for both names of a month. */
  function Initials(m: nat): string
    requires m < 12
  {
    var a := AbbrevNames[m];
    [LowerChar(a[0]), LowerChar(a[1]), LowerChar(a[2])]
  }

  /** The month whose name begins with the given three lower-case letters. */
  function MonthOfInitials(s: string): Option<nat> {
    if s == "jan" then Some(0) else if s == "feb" then Some(1) else if s == "mar" then Some(2)
    else if s == "apr" then Some(3) else if s == "may" then Some(4) else if s == "jun" then Some(5)
    else if s == "jul" then Some(6) else if s == "aug" then Some(7) else if s == "sep" then Some(8)
    else if s == "oct" then Some(9) else if s == "nov" then Some(10) else if s == "dec" then Some(11)
    else None
  }

  /** No two months share their initials. */
  lemma {:induction false} InitialsIdentifyMonth(m: nat)
    requires m < 12
    ensures MonthOfInitials(Initials(m)) == Some(m)
  {
    if m == 0 { assert Initials(m) == "jan"; }
    else if m == 1 { assert Initials(m) == "feb"; }
    else if m == 2 { assert Initials(m) == "mar"; }
    else if m == 3 { assert Initials(m) == "apr"; }
    else if m == 4 { assert Initials(m) == "may"; }
    else if m == 5 { assert Initials(m) == "jun"; }
    else if m == 6 { assert Initials(m) == "jul"; }
    else if m == 7 { assert Initials(m) == "aug"; }
    else if m == 8 { assert Initials(m) == "sep"; }
    else if m == 9 { assert Initials(m) == "oct"; }
    else if m == 10 { assert Initials(m) == "nov"; }
    else { assert Initials(m) == "dec"; }
  }

  /** Both names of month `m` begin with its initials. */
  lemma {:induction false} NamesBeginWithInitials(f: Format, m: nat)
    requires m < 12
    ensures forall k :: 0 <= k < 3 ==> LowerChar(MonthName(f, m)[k]) == Initials(m)[k]
  {
  }

  /** A token can match one month only, whichever formats it matches. */
  lemma {:induction false} MatchedMonthUnique(t: string, f1: Format, m1: nat, f2: Format, m2: nat)
    requires Matches(t, f1, m1) && Matches(t, f2, m2)
    ensures m1 == m2
  {
    NamesBeginWithInitials(f1, m1);
    NamesBeginWithInitials(f2, m2);
    MonthNameLength(f1, m1);
    MonthNameLength(f2, m2);
    assert Initials(m1) == Initials(m2) by {
      forall k | 0 <= k < 3 ensures Initials(m1)[k] == Initials(m2)[k] {
        assert LowerChar(t[k]) == LowerChar(MonthName(f1, m1)[k]);
        assert LowerChar(t[k]) == LowerChar(MonthName(f2, m2)[k]);
      }
    }
    InitialsIdentifyMonth(m1);
    InitialsIdentifyMonth(m2);
  }

  /** A token that some format matches with month `m` normalises to that month's full name. */
  lemma {:induction false} ParsePeriodOfMatch(t: string, f: Format, m: nat)
    requires Matches(t, f, m)
    ensures ParsePeriod(t) == Some(FullNames[m])
  {
    FormatsAreAll();
    var r := ParsePeriod(t);
    assert r.Some?;
    var f2, m2: nat :| Matches(t, f2, m2) && r.value == FullNames[m2];
    MatchedMonthUnique(t, f, m, f2, m2);
  }

  /** `%Y` always ends the token, so the year is its last four characters. */
  lemma {:induction false} YearIsLastFour(t: string, f: Format, m: nat)
    requires Matches(t, f, m)
    ensures |t| >= 8
    ensures DigitsBetween(t, |t| - 4, |t|) && ValueBetween(t, |t| - 4, |t|) >= 1
  {
    MonthNameLength(f, m);
    var y := YearStart(t, f, |MonthName(f, m)|);
    assert YearAt(t, y.value);
    assert y.value == |t| - 4;
  }

  /** A token shorter than a name, a separator and four digits never parses ("Q1-24" is kept). */
  lemma {:induction false} ShortTokenNeverParses(t: string)
    requires |t| < 8
    ensures ParsePeriod(t).None?
  {
    forall f: Format, m: nat | m < 12 ensures !Matches(t, f, m) {
      MonthNameLength(f, m);
    }
  }

  /** A token ending in the year 0000 never parses: `datetime` has no year 0. */
  lemma {:induction false} YearZeroNeverParses(t: string)
    requires |t| >= 4 && DigitsBetween(t, |t| - 4, |t|) && ValueBetween(t, |t| - 4, |t|) == 0
    ensures ParsePeriod(t).None?
  {
    forall f: Format, m: nat ensures !Matches(t, f, m) {
    }
  }

  /** `SkipSpace` from a single space before a non-space stops right after it. */
  lemma {:induction false} SkipOneSpace(t: string, n: nat)
    requires n + 1 < |t| && t[n] == ' ' && !IsSpace(t[n + 1])
    ensures SkipSpace(t, n) == n + 1
  {
  }

  /**
   * A month name in either form, `-` or a space, then a four-digit year from
   * 0001 on, normalises to the month's full name, in any letter case.
   */
  lemma {:induction false} NormaliseNamedMonth(m: nat, fullName: bool, dash: bool, name: string, year: string)
    requires m < 12
    requires |name| == |MonthName(Format(fullName, dash), m)|
    requires forall k :: 0 <= k < |name| ==> LowerChar(name[k]) == LowerChar(MonthName(Format(fullName, dash), m)[k])
    requires |year| == 4 && AllDigits(year) && DigitsValue(year) >= 1
    ensures NormaliseMonth(name + (if dash then "-" else " ") + year) == FullNames[m]
  {
    var f := Format(fullName, dash);
    var sep := if dash then "-" else " ";
    var p := name + sep;
    var t := p + year;
    assert t == name + sep + year;
    assert |p| == |name| + 1;
    assert StartsWithIgnoringCase(t, MonthName(f, m)) by {
      forall k | 0 <= k < |name| ensures t[k] == name[k] { }
    }
    assert t[|name|] == sep[0];
    if !dash {
      assert t[|name| + 1] == year[0];
      SkipOneSpace(t, |name|);
    }
    assert YearStart(t, f, |name|) == Some(|p|);
    ValueBetweenBehind(p, year, 0, |year|);
    assert YearAt(t, |p|);
    ParsePeriodOfMatch(t, f, m);
  }

  /** The value of a four-digit year written out digit by digit. */
  lemma {:induction false} YearValue(y: string, a: nat, b: nat, c: nat, d: nat)
    requires a < 10 && b < 10 && c < 10 && d < 10
    requires y == [DigitChar(a), DigitChar(b), DigitChar(c), DigitChar(d)]
    ensures AllDigits(y) && DigitsValue(y) == a * 1000 + b * 100 + c * 10 + d
  {
    assert ValueBetween(y, 0, 1) == a;
    assert ValueBetween(y, 0, 2) == a * 10 + b;
    assert ValueBetween(y, 0, 3) == a * 100 + b * 10 + c;
  }

  /** "Apr", then "-", then "2024" normalises to "April". */
  lemma {:induction false} AprilParts()
    ensures NormaliseMonth("Apr" + "-" + "2024") == "April"
  {
    YearValue("2024", 2, 0, 2, 4);
    assert MonthName(Format(false, true), 3) == "Apr";
    NormaliseNamedMonth(3, false, true, "Apr", "2024");
  }

  /** "Apr-2024" is stored as "April". */
  lemma {:induction false} AbbreviatedMonthExample()
    ensures NormaliseMonth("Apr-2024") == "April"
  {
    assert "Apr" + "-" + "2024" == "Apr-2024";
    AprilParts();
  }

  /** "september", then " ", then "2023" normalises to "September". */
  lemma {:induction false} SeptemberParts()
    ensures NormaliseMonth("september" + " " + "2023") == "September"
  {
    YearValue("2023", 2, 0, 2, 3);
    assert MonthName(Format(true, false), 8) == "September";
    NormaliseNamedMonth(8, true, false, "september", "2023");
  }

  /** "september 2023", in lower case, is stored as "September". */
  lemma {:induction false} FullMonthExample()
    ensures NormaliseMonth("september 2023") == "September"
  {
    assert "september" + " " + "2023" == "september 2023";
    SeptemberParts();
  }

  /** "Q1-24" is kept as it is: too short to hold a name, a separator and a year. */
  lemma {:induction false} QuarterTokenKept()
    ensures NormaliseMonth("Q1-24") == "Q1-24"
  {
    ShortTokenNeverParses("Q1-24");
  }

  /** "Apr-0000" is kept as it is: year 0 does not exist. */
  lemma {:induction false} YearZeroTokenKept()
    ensures NormaliseMonth("Apr-0000") == "Apr-0000"
  {
    var t := "Apr-0000";
    assert DigitsBetween(t, 4, 8);
    assert ValueBetween(t, 4, 8) == 0;
    YearZeroNeverParses(t);
  }
}
