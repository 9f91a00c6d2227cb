/**
 * The demo page's configuration of the picker: the initial range and the
 * bounds it derives from a selection criterion, relative to today's date,
 * and the maximum span of 7 days it passes to the picker.
 */
module Album {
  import opened Wrappers
  import opened Calendar
  import opened DateText
  import opened RangeRules

  /** The `maxRange` the page passes to the picker. */
  const PickerMaxRange: nat := 7

  /** Subtracting from today stays within the calendar (today is not in January of year 0). */
  predicate TodayInModel(crit: string, today: Day) {
    (crit == "everyday" ==> today >= 31) && (crit == "7days" ==> today >= 6)
  }

  /** `getDateRangeFromCriteria`: the initial committed range for a criterion. */
  function RangeFromCriteria(crit: string, today: Day): (r: Range)
    requires TodayInModel(crit, today)
    ensures r.start.Some? <==> r.end.Some?
    ensures r.start.Some? ==> r.start.value <= r.end.value <= today
  {
    if crit == "today" then Range(Some(today), Some(today))
    else if crit == "everyday" then
      assert ToCivil(today).year > 0 || ToCivil(today).month > 1;
      Range(Some(MinusOneMonth(today)), Some(today - 1))
    else if crit == "7days" then Range(Some(today - 6), Some(today))
    else Range(None, None)
  }

  /** The `[minDate, maxDate]` memo: the bound strings for a criterion, `YYYY/MM/DD` or absent. */
  function BoundsFromCriteria(crit: string, today: Day): (b: (Option<string>, Option<string>))
    requires TodayInModel(crit, today)
    ensures crit != "today" ==> b.0.None?
    ensures crit in {"today", "everyday", "7days"} ==>
      b.1 == Some(FormatDay(RangeFromCriteria(crit, today).end.value))
  {
    if crit == "today" then (Some(FormatDay(today)), Some(FormatDay(today)))
    else if crit == "everyday" then (None, Some(FormatDay(today - 1)))
    else if crit == "7days" then (None, Some(FormatDay(today)))
    else (None, None)
  }

  /** The picker's limits for a criterion, as the picker parses the bound strings. */
  function LimitsFromCriteria(crit: string, today: Day): Limits
    requires TodayInModel(crit, today)
  {
    var b := BoundsFromCriteria(crit, today);
    LimitsOf(b.0, b.1, PickerMaxRange)
  }

  /** The bounds the picker reads back from the page's strings, for dates with four-digit years. */
  lemma {:induction false} LimitsForCriteria(crit: string, today: Day)
    requires TodayInModel(crit, today) && ToCivil(today).year < 10000
    ensures var lim := LimitsFromCriteria(crit, today);
      && lim.maxRange == 7
      && (crit == "today" ==> lim.minDate == Some(today) && lim.maxDate == Some(today))
      && (crit == "everyday" ==> lim.minDate.None? && lim.maxDate == Some(today - 1))
      && (crit == "7days" ==> lim.minDate.None? && lim.maxDate == Some(today))
      && (crit !in {"today", "everyday", "7days"} ==> lim.minDate.None? && lim.maxDate.None?)
  {
    ParseFormat(today);
    if crit == "everyday" {
      YearOfEarlierDay(today - 1, today);
      ParseFormat(today - 1);
    }
  }

  /** An earlier day does not have a later year. */
  lemma YearOfEarlierDay(d: Day, e: Day)
    requires d <= e
    ensures ToCivil(d).year <= ToCivil(e).year
  {
    var cd, ce := ToCivil(d), ToCivil(e);
    if cd.year > ce.year {
      YearsOrdered(ce.year, cd.year);
    }
  }

  /**
   * For "today" and "7days" the initial range lies within the criterion's own
   * bounds and spans at most the picker's 7 days, so closing the picker
   * without a new selection commits it unchanged.
   */
  lemma {:induction false} InitialRangeIsStable(crit: string, today: Day, focus: Focus)
    requires crit == "today" || crit == "7days"
    requires TodayInModel(crit, today) && ToCivil(today).year < 10000
    requires focus != EndDate
    ensures var r := RangeFromCriteria(crit, today);
      var sc := Scope(LimitsFromCriteria(crit, today), r.start, focus, r);
      && !OutsideBounds(sc.limits, r.start.value) && !OutsideBounds(sc.limits, r.end.value)
      && r.end.value - r.start.value <= PickerMaxRange
      && CanValidate(sc, r.start)
      && Validate(sc, r.start, r.end) == Span(r.start.value, r.end.value)
  {
    LimitsForCriteria(crit, today);
    var r := RangeFromCriteria(crit, today);
    var sc := Scope(LimitsFromCriteria(crit, today), r.start, focus, r);
    OnlyBoundsWithoutAnchor(sc, r.start.value);
    OnlyBoundsWithoutAnchor(sc, r.end.value);
    ValidateKeeps(sc, r.start.value, r.end.value);
  }

  /**
   * For "everyday" the initial range is a month long, more than the picker's
   * 7 days: closing the picker without a new selection commits its first 8
   * days instead.
   */
  lemma {:induction false} EverydayRangeIsCut(today: Day, focus: Focus)
    requires TodayInModel("everyday", today) && ToCivil(today).year < 10000
    requires focus != EndDate
    ensures var r := RangeFromCriteria("everyday", today);
      var sc := Scope(LimitsFromCriteria("everyday", today), r.start, focus, r);
      && r.end.value - r.start.value > PickerMaxRange
      && CanValidate(sc, r.start)
      && Validate(sc, r.start, r.end) == Span(r.start.value, r.start.value + PickerMaxRange)
  {
    LimitsForCriteria("everyday", today);
    var r := RangeFromCriteria("everyday", today);
    var sc := Scope(LimitsFromCriteria("everyday", today), r.start, focus, r);
    OnlyBoundsWithoutAnchor(sc, r.start.value);
    OnlyBoundsWithoutAnchor(sc, r.end.value);
    ValidateCutsSpan(sc, r.start.value, r.end.value);
  }

  /**
   * Any other criterion gives an empty committed range and no bounds: closing
   * the picker before picking a start would make `validate` throw.
   */
  lemma UnknownCriterionCannotFallBack(crit: string, today: Day, focus: Focus)
    requires crit !in {"today", "everyday", "7days"}
    ensures var r := RangeFromCriteria(crit, today);
      r == Range(None, None)
      && !CanValidate(Scope(LimitsFromCriteria(crit, today), None, focus, r), None)
  {
  }
}
