/**
 * The picker's bounds rules: `isOutsideRange`, which greys out days in the
 * calendar, and `validate`, which turns a candidate start and end into a range
 * that can be committed.
 *
 * Both are closures over one render of the picker: they read the bounds, the
 * current provisional start `startD`, the focused endpoint and the committed
 * `dateRange` of that render, which `Scope` gathers. They do not read the
 * candidate being validated for any of these.
 */
module RangeRules {
  import opened Wrappers
  import opened Calendar
  import opened DateText

  /** react-dates' focused endpoint: START_DATE, END_DATE, or null. */
  datatype Focus = NoFocus | StartDate | EndDate

  /** A pair of days that may each be missing: the `dateRange` prop, or `[startD, endD]`. */
  datatype Range = Range(start: Option<Day>, end: Option<Day>)

  /** A pair of present days: what `validate` returns. */
  datatype Span = Span(start: Day, end: Day)

  /**
   * The picker's bounds: the parsed `minDate` and `maxDate` (None when absent
   * or not a strict `YYYY/MM/DD` date) and `maxRange` (0 when absent: the
   * source tests it for truthiness).
   */
  datatype Limits = Limits(minDate: Option<Day>, maxDate: Option<Day>, maxRange: nat)

  /** The `[mMinDate, mMaxDate]` memo together with `maxRange`. */
  function LimitsOf(minDate: Option<string>, maxDate: Option<string>, maxRange: nat): (lim: Limits)
    ensures lim.minDate.Some? ==> minDate == Some(FormatDay(lim.minDate.value))
    ensures lim.maxDate.Some? ==> maxDate == Some(FormatDay(lim.maxDate.value))
    ensures lim.maxRange == maxRange
  {
    ParseMaybeExact(minDate);
    ParseMaybeExact(maxDate);
    Limits(ParseMaybe(minDate), ParseMaybe(maxDate), maxRange)
  }

  /** What one render's `isOutsideRange` and `validate` read. */
  datatype Scope = Scope(limits: Limits, startD: Option<Day>, focused: Focus, dateRange: Range)

  /**
   * `isOutsideRange`: before the minimum, after the maximum, or, while the end
   * is being picked and a start exists, more than `maxRange` days after it.
   */
  predicate IsOutsideRange(sc: Scope, date: Day) {
    if sc.limits.minDate.Some? && date < sc.limits.minDate.value then true
    else if sc.limits.maxDate.Some? && date > sc.limits.maxDate.value then true
    else if sc.limits.maxRange > 0 && sc.startD.Some? then
      sc.focused == EndDate && date > sc.startD.value + sc.limits.maxRange
    else false
  }

  /** Outside the `[minDate, maxDate]` bounds alone. */
  predicate OutsideBounds(lim: Limits, date: Day) {
    (lim.minDate.Some? && date < lim.minDate.value) || (lim.maxDate.Some? && date > lim.maxDate.value)
  }

  /** `validate` discards the candidate pair: its start is missing or greyed out. */
  predicate FallsBack(sc: Scope, start: Option<Day>) {
    start.None? || IsOutsideRange(sc, start.value)
  }

  /** `validate` does not throw: when it falls back, the committed range has both days. */
  predicate CanValidate(sc: Scope, start: Option<Day>) {
    FallsBack(sc, start) ==> sc.dateRange.start.Some? && sc.dateRange.end.Some?
  }

  function Abs(x: int): nat {
    if x < 0 then -x else x
  }

  /**
   * `validate(start, end)`: a bad start falls back to the committed range, a
   * bad end collapses to the start, and a span over `maxRange` is cut to
   * `start + maxRange`.
   */
  function Validate(sc: Scope, start: Option<Day>, end: Option<Day>): (r: Span)
    requires CanValidate(sc, start)
    ensures r.start <= r.end
    ensures sc.limits.maxRange > 0 ==> r.end - r.start <= sc.limits.maxRange
    ensures !FallsBack(sc, start) ==> r.start == start.value
    ensures FallsBack(sc, start) ==> r.start == sc.dateRange.start.value
  {
    var s := if FallsBack(sc, start) then sc.dateRange.start.value else start.value;
    var e := if FallsBack(sc, start) then sc.dateRange.end else end;
    var e1 := if e.None? || e.value < s || IsOutsideRange(sc, e.value) then s else e.value;
    var e2 := if sc.limits.maxRange > 0 && Abs(s - e1) > sc.limits.maxRange then s + sc.limits.maxRange else e1;
    Span(s, e2)
  }

  // ---------------------------------------------------------------------------
  // isOutsideRange

  /**
   * The maximum span applies only while the end is focused, a start has been
   * picked and `maxRange` is set: in every other render a day is greyed out
   * exactly when it is outside `[minDate, maxDate]`.
   */
  lemma OnlyBoundsWithoutAnchor(sc: Scope, date: Day)
    requires sc.focused != EndDate || sc.startD.None? || sc.limits.maxRange == 0
    ensures IsOutsideRange(sc, date) <==> OutsideBounds(sc.limits, date)
  {
  }

  /**
   * While the end is focused after a start was picked, the selectable days are
   * those within the bounds and at most `maxRange` days after the start.
   */
  lemma EndPickBoundedBySpan(sc: Scope, date: Day)
    requires sc.focused == EndDate && sc.startD.Some? && sc.limits.maxRange > 0
    ensures !IsOutsideRange(sc, date)
        <==> !OutsideBounds(sc.limits, date) && date <= sc.startD.value + sc.limits.maxRange
  {
  }

  /** The selectable days form an interval: a day between two selectable days is selectable. */
  lemma SelectableIsInterval(sc: Scope, a: Day, b: Day, c: Day)
    requires a <= b <= c && !IsOutsideRange(sc, a) && !IsOutsideRange(sc, c)
    ensures !IsOutsideRange(sc, b)
  {
  }

  // ---------------------------------------------------------------------------
  // validate

  /**
   * A missing or greyed-out start discards the whole candidate, whatever the
   * end: the result is that of validating the committed range itself.
   */
  lemma ValidateFallsBack(sc: Scope, start: Option<Day>, end: Option<Day>)
    requires FallsBack(sc, start) && CanValidate(sc, start)
    ensures CanValidate(sc, sc.dateRange.start)
    ensures Validate(sc, start, end) == Validate(sc, sc.dateRange.start, sc.dateRange.end)
  {
  }

  /** With the start accepted, a missing, earlier or greyed-out end collapses onto the start. */
  lemma ValidateCollapses(sc: Scope, start: Day, end: Option<Day>)
    requires !FallsBack(sc, Some(start))
    requires end.None? || end.value < start || IsOutsideRange(sc, end.value)
    ensures Validate(sc, Some(start), end) == Span(start, start)
  {
  }

  /** With start and end accepted, a span over `maxRange` days is cut to exactly `maxRange` days. */
  lemma ValidateCutsSpan(sc: Scope, start: Day, end: Day)
    requires !FallsBack(sc, Some(start)) && start <= end && !IsOutsideRange(sc, end)
    requires sc.limits.maxRange > 0 && end - start > sc.limits.maxRange
    ensures Validate(sc, Some(start), Some(end)) == Span(start, start + sc.limits.maxRange)
  {
  }

  /** A candidate that already satisfies every rule is returned unchanged. */
  lemma ValidateKeeps(sc: Scope, start: Day, end: Day)
    requires !FallsBack(sc, Some(start)) && start <= end && !IsOutsideRange(sc, end)
    requires sc.limits.maxRange == 0 || end - start <= sc.limits.maxRange
    ensures Validate(sc, Some(start), Some(end)) == Span(start, end)
  {
  }

  /**
   * When the start is accepted, both days of the result are selectable: cutting
   * the span only moves the end towards the start, so the cut end can never
   * pass `maxDate`.
   */
  lemma ValidateSelectable(sc: Scope, start: Day, end: Option<Day>)
    requires !FallsBack(sc, Some(start))
    ensures var r := Validate(sc, Some(start), end);
      !IsOutsideRange(sc, r.start) && !IsOutsideRange(sc, r.end)
      && !OutsideBounds(sc.limits, r.start) && !OutsideBounds(sc.limits, r.end)
  {
    var r := Validate(sc, Some(start), end);
    SelectableIsInterval(sc, r.start, r.end, if end.Some? && !IsOutsideRange(sc, end.value) && start <= end.value then end.value else start);
  }

  /**
   * The fallback is not re-checked: a committed range outside the bounds comes
   * back outside the bounds.
   */
  lemma FallbackNotRechecked(sc: Scope, end: Option<Day>)
    requires sc.dateRange.start.Some? && sc.dateRange.end.Some?
    requires sc.limits.maxDate.Some? && sc.dateRange.start.value > sc.limits.maxDate.value
    ensures var r := Validate(sc, sc.dateRange.start, end);
      r.start == sc.dateRange.start.value && OutsideBounds(sc.limits, r.start)
  {
  }

  /**
   * A result outside `[minDate, maxDate]` comes only from a committed range
   * outside them: when the fallback, if taken, starts within the bounds, so
   * does the whole result.
   */
  lemma ValidateWithinBounds(sc: Scope, start: Option<Day>, end: Option<Day>)
    requires CanValidate(sc, start)
    requires FallsBack(sc, start) ==> !OutsideBounds(sc.limits, sc.dateRange.start.value)
    ensures var r := Validate(sc, start, end);
      !OutsideBounds(sc.limits, r.start) && !OutsideBounds(sc.limits, r.end)
  {
    if !FallsBack(sc, start) {
      ValidateSelectable(sc, start.value, end);
    }
  }

  /** Validating a result of `validate` again, in the same render, changes nothing. */
  lemma {:induction false} ValidateIdempotent(sc: Scope, start: Option<Day>, end: Option<Day>)
    requires CanValidate(sc, start)
    ensures var r := Validate(sc, start, end);
      CanValidate(sc, Some(r.start)) && Validate(sc, Some(r.start), Some(r.end)) == r
  {
    var r := Validate(sc, start, end);
    if FallsBack(sc, start) {
      ValidateFallsBack(sc, start, end);
      if FallsBack(sc, sc.dateRange.start) {
        ValidateFallsBack(sc, Some(r.start), Some(r.end));
      } else {
        ValidateSelectable(sc, sc.dateRange.start.value, sc.dateRange.end);
        ValidateKeeps(sc, r.start, r.end);
      }
    } else {
      ValidateSelectable(sc, start.value, end);
      ValidateKeeps(sc, r.start, r.end);
    }
  }

  /**
   * With the end not focused (as at every close of the popover), `validate`
   * does not depend on the provisional start of the render.
   */
  lemma ValidateIgnoresAnchor(sc: Scope, other: Option<Day>, start: Option<Day>, end: Option<Day>)
    requires sc.focused != EndDate && CanValidate(sc, start)
    ensures CanValidate(sc.(startD := other), start)
    ensures Validate(sc.(startD := other), start, end) == Validate(sc, start, end)
  {
    forall d: Day ensures IsOutsideRange(sc.(startD := other), d) == IsOutsideRange(sc, d) {
      OnlyBoundsWithoutAnchor(sc, d);
      OnlyBoundsWithoutAnchor(sc.(startD := other), d);
    }
  }
}
