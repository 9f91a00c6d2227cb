/**
 * Whole interactions with the picker, from mount to the value `onChange`
 * receives, written against the event methods' contracts alone.
 */
module Scenarios {
  import opened Wrappers
  import opened Calendar
  import opened DateText
  import opened RangeRules
  import opened InputText
  import opened Picker

  /**
   * With `maxRange` 7 and no bounds: open the popover, click a start, then an
   * end, then click away. `onChange` is called once, with the end cut to at
   * most 7 days after the start.
   */
  method PickStartAndEnd(committed: Day, d: Day, e: Day) returns (onChange: seq<Span>)
    requires d <= e
    ensures onChange == [Span(d, if e - d > 7 then d + 7 else e)]
  {
    var p := new Datepicker(Range(Some(committed), Some(committed)), None, None, 7);
    p.OpenPicker();
    p.OnDatesChange(Some(d), Some(committed));
    p.OnFocusChange(EndDate);
    p.OnDatesChange(Some(d), Some(e));
    p.OnClickAway(true);
    assert p.showPicker && p.startD == Some(d) && p.endD == Some(e) && p.commits == [];
    ghost var closed := Scope(Limits(None, None, 7), Some(d), NoFocus, p.dateRange);
    if e - d > 7 {
      ValidateCutsSpan(closed, d, e);
    } else {
      ValidateKeeps(closed, d, e);
    }
    p.OnClickAway(false);
    assert p.CurrentScope() == closed;
    onChange := p.commits;
  }

  /**
   * With an empty committed range and no bounds: open the popover, click one
   * day, then click away. The committed range is that single day.
   */
  method PickOneDay(d: Day) returns (onChange: seq<Span>)
    ensures onChange == [Span(d, d)]
  {
    var p := new Datepicker(Range(None, None), None, None, 0);
    p.OpenPicker();
    p.OnDatesChange(Some(d), None);
    p.OnFocusChange(EndDate);
    p.OnClickAway(false);
    onChange := p.commits;
  }

  /**
   * With a `minDate`: focus the text field, type a range that starts before
   * it, leave the field, then click away. The typed range is discarded and the
   * committed range is committed again, unchanged; the field shows it.
   */
  method TypeBeforeMinDate(m: Day, c1: Day, c2: Day, a: Day, b: Day)
    returns (onChange: seq<Span>, shown: string)
    requires ToCivil(m).year < 10000 && ToCivil(a).year < 10000 && ToCivil(b).year < 10000
    requires a < m <= c1 <= c2
    ensures onChange == [Span(c1, c2)]
    ensures shown == DisplayText(Some(c1), Some(c2))
  {
    ParseFormat(m);
    var p := new Datepicker(Range(Some(c1), Some(c2)), Some(FormatDay(m)), None, 0);
    assert p.Bounds() == Limits(Some(m), None, 0);
    p.OnTextFocus();
    DisplayParse(a, b);
    ghost var typing := Scope(Limits(Some(m), None, 0), Some(c1), StartDate, Range(Some(c1), Some(c2)));
    assert p.CurrentScope() == typing;
    ValidateFallsBack(typing, Some(a), Some(b));
    ValidateKeeps(typing, c1, c2);
    p.OnTextChange(DisplayText(Some(a), Some(b)));
    assert p.startD == Some(c1) && p.endD == Some(c2);
    p.OnTextBlur();
    ghost var closed := typing.(focused := NoFocus);
    ValidateKeeps(closed, c1, c2);
    p.OnClickAway(false);
    assert p.CurrentScope() == closed;
    onChange, shown := p.commits, p.inputValue;
  }

  /**
   * Typing a valid range while editing moves the provisional range but does
   * not commit; the field keeps the text as typed (here with a trailing
   * "- x" the reading ignores), not the range's own display text, and the
   * commit happens when the popover closes.
   */
  method TypeThenClose(a: Day, b: Day) returns (beforeClose: seq<Span>, typedShown: string, onChange: seq<Span>)
    requires ToCivil(a).year < 10000 && ToCivil(b).year < 10000 && a <= b
    ensures beforeClose == []
    ensures typedShown == FormatDay(a) + " - " + FormatDay(b) + " - " + "x"
    ensures typedShown != DisplayText(Some(a), Some(b))
    ensures onChange == [Span(a, b)]
  {
    var p := new Datepicker(Range(None, None), None, None, 0);
    p.OnTextFocus();
    var text := FormatDay(a) + " - " + FormatDay(b) + " - " + "x";
    ExtraTokensIgnored(a, b, "x");
    DisplayBoth(a, b);
    ghost var typing := Scope(Limits(None, None, 0), None, StartDate, Range(None, None));
    assert p.CurrentScope() == typing;
    ValidateKeeps(typing, a, b);
    assert TypedRange(typing, text) == Some(Span(a, b));
    p.OnTextChange(text);
    assert p.startD == Some(a) && p.endD == Some(b);
    beforeClose, typedShown := p.commits, p.inputValue;
    assert |typedShown| != |DisplayText(Some(a), Some(b))|;
    ghost var closed := Scope(Limits(None, None, 0), Some(a), NoFocus, Range(None, None));
    ValidateKeeps(closed, a, b);
    p.TogglePicker();
    assert p.CurrentScope() == closed;
    onChange := p.commits;
  }
}
