/**
 * Grouping keys derived from an entry's date (`toMonthKey`, `toYearKey`).
 * Dates are ISO `YYYY-MM-DD` text when they come from the form, but loaded
 * entries may carry any string, so the slicing is modelled for every length.
 */
module Keys {
  import opened Text

  /** `s.slice(0, n)`: the first `n` characters, or all of `s` when it is shorter. */
  function Prefix(s: string, n: nat): (r: string)
    ensures |r| == (if |s| < n then |s| else n)
    ensures r == s[..|r|]
  {
    if |s| <= n then s else s[..n]
  }

  /** `toMonthKey`: `YYYY-MM`, the first seven characters of the date. */
  function MonthKey(date: string): (k: string)
    ensures |date| >= 7 ==> k == date[..7]
    ensures |date| < 7 ==> k == date
  {
    Prefix(date, 7)
  }

  /** `toYearKey`: `YYYY`, the first four characters of the date. */
  function YearKey(date: string): (k: string)
    ensures |date| >= 4 ==> k == date[..4]
    ensures |date| < 4 ==> k == date
  {
    Prefix(date, 4)
  }

  /** The year key of a date is a prefix of its month key, and is the month key's own year key. */
  lemma YearKeyWithinMonthKey(date: string)
    ensures |YearKey(date)| <= |MonthKey(date)|
    ensures YearKey(date) == MonthKey(date)[..|YearKey(date)|]
    ensures YearKey(MonthKey(date)) == YearKey(date)
  {
  }

  /** The two groupings the summaries use. */
  datatype Period = Month | Year

  function PeriodKey(p: Period, date: string): (k: string)
    ensures |k| <= |date| && k == date[..|k|]
  {
    match p
    case Month => MonthKey(date)
    case Year => YearKey(date)
  }

  /*
   * For ISO dates the string order the sorts use is chronological order: this
   * is why dates and keys can be sorted as text.
   */

  predicate IsDigits(s: string)
  {
    forall i :: 0 <= i < |s| ==> '0' <= s[i] <= '9'
  }

  /** `YYYY-MM-DD`, as the form's date input produces it. */
  predicate IsIsoDate(d: string)
  {
    && |d| == 10
    && IsDigits(d[..4]) && d[4] == '-'
    && IsDigits(d[5..7]) && d[7] == '-'
    && IsDigits(d[8..])
  }

  function Pow10(n: nat): (r: nat)
    ensures r >= 1
  {
    if n == 0 then 1 else 10 * Pow10(n - 1)
  }

  /** The number a string of decimal digits spells. */
  function DigitsValue(s: string): (v: nat)
    requires IsDigits(s)
    ensures v < Pow10(|s|)
  {
    if s == [] then 0
    else
      var d := s[0] as int - '0' as int;
      var rest := DigitsValue(s[1..]);
      DigitStep(d, Pow10(|s| - 1), rest);
      d * Pow10(|s| - 1) + rest
  }

  /** Prepending a digit to a number below `p` gives a number below `10 * p`. */
  lemma DigitStep(d: int, p: nat, rest: nat)
    requires 0 <= d <= 9 && rest < p
    ensures 0 <= d * p + rest < 10 * p
  {
    assert 0 <= d * p <= 9 * p;
  }

  lemma LeadingDigitDecides(da: nat, db: nat, p: nat, ra: nat, rb: nat)
    requires da < db && ra < p
    ensures da * p + ra < db * p + rb
  {
    var k := db - da - 1;
    assert k * p >= 0;
    assert db * p == da * p + k * p + p;
  }

  /** Digit strings of one length compare as text exactly as their numbers compare. */
  lemma {:induction false} DigitsOrder(a: string, b: string)
    requires |a| == |b| && IsDigits(a) && IsDigits(b)
    ensures Less(a, b) <==> DigitsValue(a) < DigitsValue(b)
    ensures a == b <==> DigitsValue(a) == DigitsValue(b)
  {
    if a != [] {
      var p := Pow10(|a| - 1);
      var da, db := a[0] as int - '0' as int, b[0] as int - '0' as int;
      assert IsDigits(a[1..]) && IsDigits(b[1..]);
      if a[0] == b[0] {
        DigitsOrder(a[1..], b[1..]);
        if a[1..] == b[1..] {
          assert a == [a[0]] + a[1..] && b == [b[0]] + b[1..];
        }
      } else if a[0] < b[0] {
        LeadingDigitDecides(da, db, p, DigitsValue(a[1..]), DigitsValue(b[1..]));
      } else {
        LeadingDigitDecides(db, da, p, DigitsValue(b[1..]), DigitsValue(a[1..]));
      }
    }
  }

  /** Text comparison of two equal-length heads followed by tails. */
  lemma {:induction false} LessConcat(x: string, y: string, u: string, v: string)
    requires |x| == |u|
    ensures Less(x + y, u + v) <==> Less(x, u) || (x == u && Less(y, v))
  {
    if x != [] {
      assert (x + y)[0] == x[0] && (u + v)[0] == u[0];
      assert (x + y)[1..] == x[1..] + y && (u + v)[1..] == u[1..] + v;
      LessConcat(x[1..], y, u[1..], v);
      if x[1..] == u[1..] && x[0] == u[0] {
        assert x == [x[0]] + x[1..] && u == [u[0]] + u[1..];
      }
    } else {
      assert x + y == y && u + v == v;
    }
  }

  function Year(d: string): nat requires IsIsoDate(d) { DigitsValue(d[..4]) }
  function Month(d: string): nat requires IsIsoDate(d) { DigitsValue(d[5..7]) }
  function Day(d: string): nat requires IsIsoDate(d) { DigitsValue(d[8..]) }

  /** On ISO dates, year keys compare as years. */
  lemma YearKeyOrder(a: string, b: string)
    requires IsIsoDate(a) && IsIsoDate(b)
    ensures Less(YearKey(a), YearKey(b)) <==> Year(a) < Year(b)
  {
    DigitsOrder(a[..4], b[..4]);
  }

  /** On ISO dates, month keys compare as (year, month) pairs. */
  lemma MonthKeyOrder(a: string, b: string)
    requires IsIsoDate(a) && IsIsoDate(b)
    ensures Less(MonthKey(a), MonthKey(b)) <==>
              Year(a) < Year(b) || (Year(a) == Year(b) && Month(a) < Month(b))
  {
    DigitsOrder(a[..4], b[..4]);
    DigitsOrder(a[5..7], b[5..7]);
    assert MonthKey(a) == a[..4] + ([a[4]] + a[5..7]);
    assert MonthKey(b) == b[..4] + ([b[4]] + b[5..7]);
    LessConcat(a[..4], [a[4]] + a[5..7], b[..4], [b[4]] + b[5..7]);
    LessConcat([a[4]], a[5..7], [b[4]], b[5..7]);
    LessIrreflexive([a[4]]);
  }

  /** ISO dates compare as text exactly as they compare in time. */
  lemma IsoDateOrder(a: string, b: string)
    requires IsIsoDate(a) && IsIsoDate(b)
    ensures Less(a, b) <==>
              || Year(a) < Year(b)
              || (Year(a) == Year(b) && Month(a) < Month(b))
              || (Year(a) == Year(b) && Month(a) == Month(b) && Day(a) < Day(b))
  {
    DigitsOrder(a[..4], b[..4]);
    DigitsOrder(a[5..7], b[5..7]);
    DigitsOrder(a[8..], b[8..]);
    assert a == a[..7] + ([a[7]] + a[8..]);
    assert b == b[..7] + ([b[7]] + b[8..]);
    assert a[..7] == MonthKey(a) && b[..7] == MonthKey(b);
    MonthKeyOrder(a, b);
    assert MonthKey(a) == MonthKey(b) <==> Year(a) == Year(b) && Month(a) == Month(b) by {
      assert MonthKey(a) == a[..4] + ([a[4]] + a[5..7]);
      assert MonthKey(b) == b[..4] + ([b[4]] + b[5..7]);
    }
    LessConcat(a[..7], [a[7]] + a[8..], b[..7], [b[7]] + b[8..]);
    LessConcat([a[7]], a[8..], [b[7]], b[8..]);
    LessIrreflexive([a[7]]);
  }
}
