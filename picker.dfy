/**
 * The picker component's interaction state and its event handlers.
 *
 * Each method is one event: the handler's state updates followed by the
 * component's effects, taken as one atomic step:
 *  - while the user is not typing, the text field shows `[startD, endD]`;
 *  - when the popover goes from shown to hidden, `onChange` receives
 *    `validate(startD, endD)`; `commits` records every such call.
 * The owner's pushing of a new `dateRange` is an event of its own.
 */
module Picker {
  import opened Wrappers
  import opened Calendar
  import opened RangeRules
  import opened InputText

  class Datepicker {
    // Configuration: the `minDate`, `maxDate` and `maxRange` props.
    const minDate: Option<string>
    const maxDate: Option<string>
    const maxRange: nat

    /** The committed range the owner passes in. */
    var dateRange: Range

    // Component state.
    var startD: Option<Day>
    var endD: Option<Day>
    var isEditing: bool
    var showPicker: bool
    var focusedInput: Focus
    var inputValue: string

    /** The arguments of every `onChange` call so far, oldest first. */
    var commits: seq<Span>

    function Bounds(): Limits {
      LimitsOf(minDate, maxDate, maxRange)
    }

    /** What this render's `isOutsideRange` and `validate` read. */
    function CurrentScope(): Scope
      reads this`startD, this`focusedInput, this`dateRange
    {
      Scope(Bounds(), startD, focusedInput, dateRange)
    }

    /**
     * The component's invariant: the idle text field shows the provisional
     * range, and the popover is never shown without a focused endpoint.
     */
    ghost predicate Valid()
      reads this
    {
      && (!isEditing ==> inputValue == DisplayText(startD, endD))
      && (showPicker ==> focusedInput != NoFocus)
    }

    /** Closing the popover now would not make `validate` throw. */
    predicate CanCommit()
      reads this`startD, this`focusedInput, this`dateRange
    {
      CanValidate(CurrentScope().(focused := NoFocus), startD)
    }

    /** What the commit effect hands to `onChange` in this render, given whether the popover was shown before. */
    function CommitEffect(wasShown: bool): seq<Span>
      reads this`startD, this`endD, this`focusedInput, this`dateRange, this`showPicker
      requires wasShown && !showPicker ==> CanValidate(CurrentScope(), startD)
    {
      if wasShown && !showPicker then [Validate(CurrentScope(), startD, endD)] else []
    }

    /** Mounting: the provisional range starts as the committed one. */
    constructor (dateRange: Range, minDate: Option<string>, maxDate: Option<string>, maxRange: nat)
      ensures this.dateRange == dateRange && this.minDate == minDate
      ensures this.maxDate == maxDate && this.maxRange == maxRange
      ensures startD == dateRange.start && endD == dateRange.end
      ensures !isEditing && !showPicker && focusedInput == NoFocus
      ensures inputValue == DisplayText(dateRange.start, dateRange.end)
      ensures commits == []
      ensures Valid()
    {
      this.dateRange := dateRange;
      this.minDate := minDate;
      this.maxDate := maxDate;
      this.maxRange := maxRange;
      startD := dateRange.start;
      endD := dateRange.end;
      isEditing := false;
      showPicker := false;
      focusedInput := NoFocus;
      inputValue := DisplayText(dateRange.start, dateRange.end);
      commits := [];
    }

    /**
     * The display effect, which follows every event: the idle field is
     * refreshed to the provisional range.
     */
    method RefreshText()
      modifies this`inputValue
      ensures inputValue == if isEditing then old(inputValue) else DisplayText(startD, endD)
    {
      if !isEditing {
        inputValue := DisplayText(startD, endD);
      }
    }

    /**
     * The commit effect, which follows the events that can hide the popover:
     * `onChange` is called when it went from shown to hidden. The other events
     * leave `showPicker` shown or unchanged, so the effect does nothing there.
     */
    method CommitOnClose(wasShown: bool)
      requires wasShown && !showPicker ==> CanValidate(CurrentScope(), startD)
      modifies this`commits
      ensures commits == old(commits) + CommitEffect(wasShown)
    {
      if wasShown && !showPicker {
        commits := commits + [Validate(CurrentScope(), startD, endD)];
      }
    }

    /** The owner passes a new `dateRange`: the provisional range is replaced by it. */
    method ReceiveDateRange(r: Range)
      requires Valid()
      modifies this
      ensures dateRange == r && startD == r.start && endD == r.end
      ensures isEditing == old(isEditing) && showPicker == old(showPicker)
      ensures focusedInput == old(focusedInput) && commits == old(commits)
      ensures inputValue == if isEditing then old(inputValue) else DisplayText(r.start, r.end)
      ensures Valid()
    {
      dateRange := r;
      startD, endD := r.start, r.end;
      RefreshText();
    }

    /** `openPicker`: shows the popover with the start focused. */
    method OpenPicker()
      requires Valid()
      modifies this
      ensures showPicker && focusedInput == StartDate
      ensures dateRange == old(dateRange) && startD == old(startD) && endD == old(endD)
      ensures isEditing == old(isEditing) && inputValue == old(inputValue)
      ensures commits == old(commits)
      ensures Valid()
    {
      focusedInput := StartDate;
      showPicker := true;
      RefreshText();
    }

    /** `closePicker`: hides the popover; if it was shown, the range is committed. */
    method ClosePicker()
      requires Valid()
      requires showPicker ==> CanCommit()
      modifies this
      ensures !showPicker && focusedInput == NoFocus
      ensures dateRange == old(dateRange) && startD == old(startD) && endD == old(endD)
      ensures isEditing == old(isEditing) && inputValue == old(inputValue)
      ensures commits == old(commits)
        + if old(showPicker) then [Validate(CurrentScope(), startD, endD)] else []
      ensures Valid()
    {
      var wasShown := showPicker;
      showPicker := false;
      focusedInput := NoFocus;
      RefreshText();
      CommitOnClose(wasShown);
    }

    /** `togglePicker`: the calendar icon closes a shown popover and opens a hidden one. */
    method TogglePicker()
      requires Valid()
      requires showPicker ==> CanCommit()
      modifies this
      ensures showPicker == !old(showPicker)
      ensures focusedInput == if showPicker then StartDate else NoFocus
      ensures dateRange == old(dateRange) && startD == old(startD) && endD == old(endD)
      ensures isEditing == old(isEditing) && inputValue == old(inputValue)
      ensures commits == old(commits)
        + if old(showPicker) then [Validate(CurrentScope(), startD, endD)] else []
      ensures Valid()
    {
      if showPicker {
        ClosePicker();
      } else {
        OpenPicker();
      }
    }

    /**
     * `onClickAway`: a click outside the component closes the popover, unless
     * it lands inside the popover itself.
     */
    method OnClickAway(targetInPopper: bool)
      requires Valid()
      requires !targetInPopper && showPicker ==> CanCommit()
      modifies this
      ensures targetInPopper ==> showPicker == old(showPicker) && focusedInput == old(focusedInput)
      ensures !targetInPopper ==> !showPicker && focusedInput == NoFocus
      ensures dateRange == old(dateRange) && startD == old(startD) && endD == old(endD)
      ensures isEditing == old(isEditing) && inputValue == old(inputValue)
      ensures commits == old(commits)
        + if !targetInPopper && old(showPicker) then [Validate(CurrentScope(), startD, endD)] else []
      ensures Valid()
    {
      if !targetInPopper {
        ClosePicker();
      }
    }

    /**
     * `onFocusChange`: the calendar moves the focus; losing it altogether
     * hides the popover (and commits, if it was shown).
     */
    method OnFocusChange(focus: Focus)
      requires Valid()
      requires focus == NoFocus && showPicker ==> CanCommit()
      modifies this
      ensures focusedInput == focus
      ensures showPicker == (old(showPicker) && focus != NoFocus)
      ensures dateRange == old(dateRange) && startD == old(startD) && endD == old(endD)
      ensures isEditing == old(isEditing) && inputValue == old(inputValue)
      ensures commits == old(commits)
        + if focus == NoFocus && old(showPicker) then [Validate(CurrentScope(), startD, endD)] else []
      ensures Valid()
    {
      var wasShown := showPicker;
      if focus == NoFocus {
        showPicker := false;
      }
      focusedInput := focus;
      RefreshText();
      CommitOnClose(wasShown);
    }

    /**
     * `onDatesChange`: a calendar click. While the start is focused the click
     * starts a new range, so the provisional end is cleared.
     */
    method OnDatesChange(startDate: Option<Day>, endDate: Option<Day>)
      requires Valid()
      modifies this
      ensures startD == startDate
      ensures endD == if old(focusedInput) == StartDate then None else endDate
      ensures dateRange == old(dateRange) && showPicker == old(showPicker)
      ensures focusedInput == old(focusedInput) && isEditing == old(isEditing)
      ensures inputValue == if isEditing then old(inputValue) else DisplayText(startD, endD)
      ensures commits == old(commits)
      ensures Valid()
    {
      startD := startDate;
      endD := if focusedInput == StartDate then None else endDate;
      RefreshText();
    }

    /** The text field gains focus: the popover opens and typing begins. */
    method OnTextFocus()
      requires Valid()
      modifies this
      ensures showPicker && focusedInput == StartDate && isEditing
      ensures dateRange == old(dateRange) && startD == old(startD) && endD == old(endD)
      ensures inputValue == old(inputValue) && commits == old(commits)
      ensures Valid()
    {
      focusedInput := StartDate;
      showPicker := true;
      isEditing := true;
      RefreshText();
    }

    /** The text field loses focus: typing ends and the field shows the provisional range again. */
    method OnTextBlur()
      requires Valid()
      modifies this
      ensures !isEditing && inputValue == DisplayText(startD, endD)
      ensures dateRange == old(dateRange) && startD == old(startD) && endD == old(endD)
      ensures showPicker == old(showPicker) && focusedInput == old(focusedInput)
      ensures commits == old(commits)
      ensures Valid()
    {
      isEditing := false;
      RefreshText();
    }

    /**
     * The text field's `onChange`: the typed text is kept; when it reads as two
     * strict dates, the provisional range becomes their validation in this
     * render's scope; otherwise the range is left alone.
     */
    method OnTextChange(text: string)
      requires Valid()
      requires CanType(CurrentScope(), text)
      modifies this
      ensures var typed := TypedRange(old(CurrentScope()), text);
        if typed.Some? then startD == Some(typed.value.start) && endD == Some(typed.value.end)
        else startD == old(startD) && endD == old(endD)
      ensures inputValue == if isEditing then text else DisplayText(startD, endD)
      ensures dateRange == old(dateRange) && showPicker == old(showPicker)
      ensures focusedInput == old(focusedInput) && isEditing == old(isEditing)
      ensures commits == old(commits)
      ensures Valid()
    {
      var typed := TypedRange(CurrentScope(), text);
      ApplyText(text, typed);
    }

    /** The state change of `OnTextChange`, once the typed text has been read. */
    method ApplyText(text: string, typed: Option<Span>)
      requires Valid()
      modifies this
      ensures if typed.Some? then startD == Some(typed.value.start) && endD == Some(typed.value.end)
        else startD == old(startD) && endD == old(endD)
      ensures inputValue == if isEditing then text else DisplayText(startD, endD)
      ensures dateRange == old(dateRange) && showPicker == old(showPicker)
      ensures focusedInput == old(focusedInput) && isEditing == old(isEditing)
      ensures commits == old(commits)
      ensures Valid()
    {
      inputValue := text;
      if typed.Some? {
        startD, endD := Some(typed.value.start), Some(typed.value.end);
      }
      RefreshText();
    }
  }

  /** Typed text that reads as two dates can be validated without throwing. */
  predicate CanType(sc: Scope, text: string) {
    ParseInput(text).Some? ==> CanValidate(sc, Some(ParseInput(text).value.0))
  }

  /** The range typed text sets, if it reads as two strict dates: their validation. */
  function TypedRange(sc: Scope, text: string): (r: Option<Span>)
    requires CanType(sc, text)
    ensures r.Some? <==> ParseInput(text).Some?
  {
    match ParseInput(text)
    case None => None
    case Some((a, b)) => Some(Validate(sc, Some(a), Some(b)))
  }
}
