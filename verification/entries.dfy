/**
 * One logged volunteer session and the submit-time validation that creates it.
 * Numbers are exact reals: the floating-point behaviour of `Number`,
 * multiplication and `toFixed` is not part of this model.
 */
module Entries {
  import opened Text

  datatype Option<T> = None | Some(value: T)

  /**
   * A stored entry, with the field names the storage format uses: `event` is the
   * activity, `arrowmen` the participant count, `hours` the hours per participant.
   */
  datatype Entry = Entry(event: string, date: string, arrowmen: real, hours: real, totalHours: real)

  /** The four raw form fields read on submit, numbers already converted. */
  datatype Submission = Submission(activity: string, date: string, arrowmen: real, hours: real)

  /** A whole number of hundredths: what `Number(x.toFixed(2))` can produce. */
  predicate WholeHundredths(x: real)
  {
    (x * 100.0).Floor as real == x * 100.0
  }

  /** Rounds to the nearest hundredth, a tie going up. */
  function RoundUpHalf(y: real): (r: real)
    ensures y - 0.005 < r <= y + 0.005
    ensures WholeHundredths(r)
    ensures WholeHundredths(y) ==> r == y
  {
    var n := (y * 100.0 + 0.5).Floor;
    var r := n as real / 100.0;
    assert r * 100.0 == n as real;
    assert (n as real).Floor == n;
    if WholeHundredths(y) then
      FloorAtHalf((y * 100.0).Floor);
      r
    else r
  }

  lemma FloorAtHalf(m: int)
    ensures (m as real + 0.5).Floor == m
  {
  }

  lemma NegatedWholeHundredths(x: real)
    ensures WholeHundredths(x) ==> WholeHundredths(-x)
  {
    var m := (x * 100.0).Floor;
    if WholeHundredths(x) {
      assert (-x) * 100.0 == -(x * 100.0);
      assert (-x) * 100.0 == (-m) as real;
      assert ((-m) as real).Floor == -m;
    }
  }

  /**
   * `Number(x.toFixed(2))` on an exact value: the nearest hundredth, a tie
   * rounded away from zero (toFixed works on the magnitude and restores the sign).
   */
  function Round2(x: real): (r: real)
    ensures x - 0.005 <= r <= x + 0.005
    ensures 0.0 <= x ==> x - 0.005 < r
    ensures x < 0.0 ==> r < x + 0.005
    ensures WholeHundredths(r)
    ensures 0.0 <= x ==> 0.0 <= r
    ensures WholeHundredths(x) ==> r == x
  {
    if x < 0.0 then
      var q := RoundUpHalf(-x);
      NegatedWholeHundredths(q);
      NegatedWholeHundredths(x);
      -q
    else RoundUpHalf(x)
  }

  /**
   * The submit handler's check and the entry it appends: rejected exactly when the
   * activity is empty after trimming, the date is empty, or either number is not
   * positive; otherwise the trimmed activity, the fields as given, and a total
   * computed once from them.
   */
  function Validate(f: Submission): (r: Option<Entry>)
    ensures r.None? <==> AllSpace(f.activity) || f.date == [] || f.arrowmen <= 0.0 || f.hours <= 0.0
    ensures r.Some? ==> r.value.event == Trim(f.activity) && r.value.event != []
    ensures r.Some? ==> r.value.date == f.date && r.value.arrowmen == f.arrowmen && r.value.hours == f.hours
    ensures r.Some? ==> r.value.arrowmen > 0.0 && r.value.hours > 0.0
    ensures r.Some? ==> r.value.totalHours == Round2(f.arrowmen * f.hours)
  {
    var activity := Trim(f.activity);
    if activity == [] || f.date == [] || f.arrowmen <= 0.0 || f.hours <= 0.0 then None
    else
      var total := Round2(f.arrowmen * f.hours);
      Some(Entry(activity, f.date, f.arrowmen, f.hours, total))
  }

  lemma ProductPositive(a: real, b: real)
    requires 0.0 < a && 0.0 < b
    ensures 0.0 < a * b
  {
  }

  /** A total computed from two positive numbers is never negative. */
  lemma RoundedProductNonNegative(a: real, b: real)
    requires 0.0 < a && 0.0 < b
    ensures 0.0 <= Round2(a * b)
  {
    ProductPositive(a, b);
  }

  /** A single participant working a quarter hour is accepted, with a total of 0.25. */
  lemma QuarterHourAccepted()
    ensures Validate(Submission("Camp", "2024-03-05", 1.0, 0.25)).Some?
    ensures Validate(Submission("Camp", "2024-03-05", 1.0, 0.25)).value.totalHours == 0.25
  {
    assert !IsSpace("Camp"[0]);
    assert WholeHundredths(1.0 * 0.25);
  }

  /** Zero participants, zero hours, a blank activity or an empty date are rejected. */
  lemma BoundaryRejected()
    ensures Validate(Submission("Camp", "2024-03-05", 0.0, 0.25)).None?
    ensures Validate(Submission("Camp", "2024-03-05", 1.0, 0.0)).None?
    ensures Validate(Submission(" \t ", "2024-03-05", 1.0, 0.25)).None?
    ensures Validate(Submission("Camp", "", 1.0, 0.25)).None?
  {
    assert AllSpace(" \t ");
  }

  /** Totals are computed once and rounded to hundredths: 10 x 2 = 20, 3 x 1.33 = 3.99. */
  lemma TotalHoursExamples()
    ensures Round2(10.0 * 2.0) == 20.0
    ensures Round2(3.0 * 1.33) == 3.99
    ensures Round2(1.0 / 3.0) == 0.33
    ensures Round2(0.125) == 0.13
  {
    assert WholeHundredths(20.0);
    assert WholeHundredths(3.99);
    assert (1.0 / 3.0 * 100.0 + 0.5).Floor == 33;
    assert (0.125 * 100.0 + 0.5).Floor == 13;
  }
}
