# Date-range picker: a verified model

This project models the date-range picker of a small React demo page. The
picker is a text field with a calendar popover. The user types a range or
clicks one in the calendar. The picker keeps a provisional range
(`startD`, `endD`). When the popover closes, it hands the owner a validated,
committed range through `onChange`.

The model covers:

- `mmFormat` / `mmParse`: a day as `YYYY/MM/DD`, parsed strictly.
- The text the field shows, and how typed text is read.
- `isOutsideRange`: which calendar days are greyed out.
- `validate`: the fallback, collapse and span-cutting rules.
- The component's state and its event handlers, as a class.
- The demo page's criteria: the initial range and bounds derived from "today".

Modules, one per part of the program:

- `Calendar` (calendar.dfy): day numbers counted from 0000/01/01 of the
  proleptic Gregorian calendar. It converts between day numbers and
  year/month/day, and steps back one month. This is the part of moment.js
  the picker relies on.
- `DateText` (date_text.dfy): `mmFormat` and `mmParse`.
- `InputText` (input_text.dfy): the text field's shown value and the reading
  of typed text.
- `RangeRules` (range_rules.dfy): `isOutsideRange` and `validate`. Both read
  one render's values: the bounds, the current `startD`, the focused endpoint
  and the committed `dateRange`. `Scope` gathers these.
- `Picker` (picker.dfy): the class `Datepicker`, with one method per event.
  Each method runs the handler and then the component's effects, as one step:
  - the idle text field is refreshed (`RefreshText`);
  - `onChange(validate(startD, endD))` fires when the popover goes from shown
    to hidden (`CommitOnClose`). The `commits` field records each call.
- `Album` (album.dfy): the page's `getDateRangeFromCriteria`, its
  `[minDate, maxDate]` memo, and `maxRange={7}`. "Today" is a parameter.
- `Scenarios` (scenarios.dfy): whole interactions written against the event
  methods' contracts.

What the proofs establish:

- `validate` always returns start ≤ end, and the span is at most `maxRange`.
- A bad start makes `validate` use the committed range instead, whatever the
  end is.
- Once the start is accepted, both result days are selectable. Cutting the
  span only moves the end back toward the start, so a cut end can never pass
  `maxDate`. A result outside the bounds comes only from a committed range
  that is itself outside them.
- `validate` is idempotent.
- Formatting and strict parsing are inverse for years 0..9999. The text the
  field shows for a full range reads back as that range.
- Every event keeps the component's invariant. `onChange` fires only on a
  shown-to-hidden transition.

## Model

| member | source | states |
|---|---|---|
| `Calendar.ToCivil` | src/components/Datepicker/index.jsx:32-33 | every day number is a real calendar day (valid month, day within the month's length) whose number is that day number |
| `Calendar.ToCivilToDay` | src/components/Datepicker/index.jsx:32-33 | naming a calendar day by its number and back gives the same year, month and day (the naming is one-to-one) |
| `Calendar.MinusOneMonth` | src/components/Album/index.js:79 | `subtract(1, 'month')` gives the same day of the previous month, clamped to that month's length; January gives December of the previous year; the result is 28 to 31 days earlier |
| `DateText.FormatDay` | src/components/Datepicker/index.jsx:33 | `mmFormat`: zero-filled `YYYY/MM/DD`; its contracts are carried by `DateText.ParseFormat`, `DateText.FormatParse` and `DateText.LargeYearUnparseable` |
| `DateText.ParseDay` | src/components/Datepicker/index.jsx:32 | strict parsing accepts only ten-character text with '/' in the fifth and eighth places |
| `DateText.ParseFormat` | src/components/Datepicker/index.jsx:32-33 | `mmParse(mmFormat(d))` is `d` for every day with a year below 10000 |
| `DateText.FormatParse` | src/components/Datepicker/index.jsx:32-33 | strict parsing accepts one spelling per day: any accepted text is exactly `mmFormat` of the day it yields |
| `DateText.LargeYearUnparseable` | src/components/Datepicker/index.jsx:32-33 | a day after year 9999 is formatted with more than four year digits, which strict parsing refuses |
| `DateText.ParseMaybeExact` | src/components/Datepicker/index.jsx:89-92 | an absent or unparseable `minDate`/`maxDate` gives no bound; a present bound came from its own exact spelling |
| `RangeRules.LimitsOf` | src/components/Datepicker/index.jsx:89-92 | the parsed bounds are used only when the prop is the day's exact `YYYY/MM/DD` spelling; `maxRange` is passed through |
| `InputText.DisplayText` | src/components/Datepicker/index.jsx:111 | the present days, formatted and joined with `' - '`; its contracts are carried by `InputText.DisplayParse`, `InputText.DisplayBlank` and `InputText.DisplaySingleUnparsed` |
| `InputText.Tokens` | src/components/Datepicker/index.jsx:173 | split on '-', trim each piece, drop the empty ones; what it yields for the field's own text is carried by `InputText.DisplayParse` and `InputText.ExtraTokensIgnored` |
| `InputText.ParseInput` | src/components/Datepicker/index.jsx:173-175 | the first two tokens, each parsed strictly, both required; its contracts are carried by `InputText.ParseInputExact`, `InputText.ExtraTokensIgnored` and `InputText.DisplayParse` |
| `InputText.DisplayParse` | src/components/Datepicker/index.jsx:108-113 | the text shown for two days (years below 10000) is read back by the text handler as exactly those two days |
| `InputText.DisplayBlank` | src/components/Datepicker/index.jsx:111 | the shown text is empty exactly when neither day is present |
| `InputText.DisplaySingleUnparsed` | src/components/Datepicker/index.jsx:111 | with one day present the field shows just that day, and that text does not parse as a range |
| `InputText.ExtraTokensIgnored` | src/components/Datepicker/index.jsx:173-175 | only the first two '-'-separated tokens are read: anything after a further '-' is ignored |
| `InputText.ParseInputExact` | src/components/Datepicker/index.jsx:173-175 | typed text is accepted only when its first two trimmed, non-empty tokens are exactly the formatted spellings of the two days it yields |
| `RangeRules.Validate` | src/components/Datepicker/index.jsx:115-129 | the result has start ≤ end and a span of at most `maxRange` when that is set; its start is the candidate start unless that is missing or greyed out, and the committed start otherwise |
| `RangeRules.IsOutsideRange` | src/components/Datepicker/index.jsx:94-104 | which calendar days are greyed out in one render; its contracts are carried by `RangeRules.OnlyBoundsWithoutAnchor`, `RangeRules.EndPickBoundedBySpan` and `RangeRules.SelectableIsInterval` |
| `RangeRules.OnlyBoundsWithoutAnchor` | src/components/Datepicker/index.jsx:94-104 | unless the end is focused with a `startD` present and `maxRange` set, a day is greyed out exactly when it is before `minDate` or after `maxDate` |
| `RangeRules.EndPickBoundedBySpan` | src/components/Datepicker/index.jsx:94-104 | while the end is focused after a start was picked, a day is selectable exactly when it is within the bounds and at most `maxRange` days after the current `startD` |
| `RangeRules.SelectableIsInterval` | src/components/Datepicker/index.jsx:94-104 | a day between two selectable days is selectable |
| `RangeRules.ValidateFallsBack` | src/components/Datepicker/index.jsx:116-121 | a missing or greyed-out start gives the same result as validating the committed `dateRange` itself, whatever the candidate end |
| `RangeRules.ValidateCollapses` | src/components/Datepicker/index.jsx:122-124 | with the start accepted, a missing end, an end before the start, or a greyed-out end gives the one-day range `[start, start]` |
| `RangeRules.ValidateCutsSpan` | src/components/Datepicker/index.jsx:125-127 | with start and end accepted and more than `maxRange` days apart, the result's end is exactly `start + maxRange` |
| `RangeRules.ValidateKeeps` | src/components/Datepicker/index.jsx:115-129 | a candidate that meets every rule is returned unchanged |
| `RangeRules.ValidateSelectable` | src/components/Datepicker/index.jsx:118-127 | with the start accepted, both result days are selectable and within `[minDate, maxDate]`; the cut end never passes `maxDate` |
| `RangeRules.ValidateWithinBounds` | src/components/Datepicker/index.jsx:115-129 | when the fallback, if taken, starts inside `[minDate, maxDate]`, both result days are inside it: a result outside the bounds can come only from a committed start outside them |
| `RangeRules.FallbackNotRechecked` | src/components/Datepicker/index.jsx:118-121 | the fallback is not re-checked: a committed start after `maxDate` comes back as the result's start, still out of bounds |
| `RangeRules.ValidateIdempotent` | src/components/Datepicker/index.jsx:115-129 | validating a result of `validate` again in the same render cannot throw and returns it unchanged |
| `RangeRules.ValidateIgnoresAnchor` | src/components/Datepicker/index.jsx:94-129 | when the end is not focused (as at every close), `validate` does not depend on the provisional `startD` |
| `Picker.Datepicker.Valid` | src/components/Datepicker/index.jsx:72-113 | the component's invariant: an idle field shows the provisional range, and a shown popover has a focused endpoint; every event method's contract keeps it |
| `Picker.Datepicker.constructor` | src/components/Datepicker/index.jsx:46-113 | on mount the provisional range is the committed `dateRange`, the popover is hidden with no focus, the field shows the range, and nothing has been committed |
| `Picker.Datepicker.RefreshText` | src/components/Datepicker/index.jsx:108-113 | the display effect: the idle field is refreshed to the provisional range, and a field being edited keeps its text |
| `Picker.Datepicker.CommitOnClose` | src/components/Datepicker/index.jsx:131-136 | the commit effect: `onChange(validate(startD, endD))` is recorded exactly when the popover went from shown to hidden |
| `Picker.Datepicker.ReceiveDateRange` | src/components/Datepicker/index.jsx:48-52 | a new `dateRange` from the owner replaces the provisional range and commits nothing |
| `Picker.Datepicker.OpenPicker` | src/components/Datepicker/index.jsx:72-75 | shows the popover with the start focused, leaving the range alone and committing nothing |
| `Picker.Datepicker.ClosePicker` | src/components/Datepicker/index.jsx:77-80 | hides the popover and clears the focus; if it was shown, `validate(startD, endD)` is committed once |
| `Picker.Datepicker.TogglePicker` | src/components/Datepicker/index.jsx:82 | flips the popover; closing commits once, opening focuses the start |
| `Picker.Datepicker.OnClickAway` | src/components/Datepicker/index.jsx:84-87 | a click inside the popover changes nothing; any other click closes it like `closePicker` |
| `Picker.Datepicker.OnFocusChange` | src/components/Datepicker/index.jsx:62-65 | the focus becomes the given endpoint; clearing it hides the popover and commits once if it was shown |
| `Picker.Datepicker.OnDatesChange` | src/components/Datepicker/index.jsx:67-70 | a calendar click sets the start, and clears the provisional end while the start is focused; nothing is committed |
| `Picker.Datepicker.OnTextFocus` | src/components/Datepicker/index.jsx:157-160 | focusing the field opens the popover with the start focused and begins editing, leaving the shown text alone |
| `Picker.Datepicker.OnTextBlur` | src/components/Datepicker/index.jsx:161-163 | leaving the field ends editing and shows the provisional range again |
| `Picker.Datepicker.OnTextChange` | src/components/Datepicker/index.jsx:166-180 | the typed text is kept while editing; text that reads as two strict dates sets the provisional range to their validation in the current render, other text leaves it alone; nothing is committed |
| `Picker.Datepicker.ApplyText` | src/components/Datepicker/index.jsx:166-180 | after the typed text has been read: the field keeps the text while editing, the provisional range moves to the typed range if there is one, and the invariant holds |
| `Picker.TypedRange` | src/components/Datepicker/index.jsx:173-179 | typed text yields a range exactly when its first two tokens parse strictly |
| `Scenarios.PickStartAndEnd` | src/components/Datepicker/index.jsx:62-136 | with `maxRange` 7, picking a start and a later end and then clicking away calls `onChange` once, with the end cut to at most 7 days after the start |
| `Scenarios.PickOneDay` | src/components/Datepicker/index.jsx:62-136 | with an empty committed range, picking one day and clicking away commits the one-day range of that day |
| `Scenarios.TypeBeforeMinDate` | src/components/Datepicker/index.jsx:115-180 | typing a range that starts before `minDate` and then closing commits the previous committed range unchanged, and the field shows it again |
| `Scenarios.TypeThenClose` | src/components/Datepicker/index.jsx:131-180 | typing a valid range followed by an extra token commits nothing until the popover closes, then commits the range once; while editing the field keeps the typed text, which differs from the text the range would be shown as |
| `Album.RangeFromCriteria` | src/components/Album/index.js:73-85 | both days are present or both absent; when present, start ≤ end ≤ today |
| `Album.BoundsFromCriteria` | src/components/Album/index.js:97-109 | only the "today" criterion sets a `minDate`; for the three known criteria the `maxDate` is the formatted end of the initial range |
| `Album.LimitsFromCriteria` | src/components/Album/index.js:97-109 | the page's bounds as the picker reads them; its contract is carried by `Album.LimitsForCriteria` |
| `Album.LimitsForCriteria` | src/components/Album/index.js:97-109 | as read by the picker: "today" bounds both sides to today, "everyday" has no minimum and yesterday as maximum, "7days" has no minimum and today as maximum, anything else has no bounds; `maxRange` is 7 |
| `Album.InitialRangeIsStable` | src/components/Album/index.js:73-156 | for "today" and "7days" the initial range is within its own bounds and spans at most 7 days, so a close without a new selection commits it unchanged |
| `Album.EverydayRangeIsCut` | src/components/Album/index.js:73-156 | the "everyday" initial range spans more than 7 days, so a close without a new selection commits its first 8 days instead |
| `Album.UnknownCriterionCannotFallBack` | src/components/Album/index.js:73-109 | any other criterion gives an empty range with no bounds, and closing before a start is picked would make `validate` throw |

Notes on behaviour:

- Typed text is read from its first two tokens. Any further tokens are
  ignored (`InputText.ExtraTokensIgnored`).
- Typed text never commits by itself. `onChange` fires only when the popover
  closes. A range typed before `minDate` is therefore reverted at the next
  close, not on blur (`Scenarios.TypeBeforeMinDate`).
- `validate` tests "outside" with the render's `isOutsideRange`, not with
  `[minDate, maxDate]` alone. While the end is focused, that test also rejects
  days more than `maxRange` after the current `startD`. That `startD` is the
  provisional start, not the candidate being validated.
- A span-cut end cannot pass `maxDate` when the start is accepted
  (`RangeRules.ValidateSelectable`). Only the fallback can return days outside
  the bounds (`RangeRules.ValidateWithinBounds`,
  `RangeRules.FallbackNotRechecked`).
- `validate` is not total. Its fallback copies the committed range, and the
  source throws when that range has a missing day. The model makes this a
  precondition: `RangeRules.CanValidate` on `Validate`. The events that can
  commit need it too: `CanCommit` on `ClosePicker`, `TogglePicker`,
  `OnClickAway` and `OnFocusChange`, and `CanType` on `OnTextChange`.

## Left out

- Rendering: the Material-UI components, the icons, styling, `numberOfMonths` and the month label. They affect only what is drawn.
- The `disabled` prop. It disables the text field, which then sends no focus, change or blur events (`OnTextFocus`, `OnTextChange`, `OnTextBlur`). The calendar button and the calendar stay live, so `TogglePicker`, `OnDatesChange` and `OnFocusChange` still arrive. The model leaves this to the caller: a disabled picker is one that is never sent the text field's events.
- The calendar widget itself. It appears only as the `onDatesChange` and `onFocusChange` events it sends, with whatever arguments it passes.
- The DOM containment test in `onClickAway`. It is a boolean parameter: does the click target lie inside the popover?
- React scheduling. Each event and the effects after it form one atomic step. Batching of several events into one render is not modelled. Moment values are compared by day, not by object identity.
- Time of day. Moment values carry a time. The model works at day granularity, so `diff(..., 'days')` is the difference of day numbers. Its truncation when the two times of day differ is not modelled.
- Wall-clock reads. "Today" is a parameter, and one "today" serves both the initial range and the bounds. The source reads the clock separately for each.
- Time zones and locales. Strict parsing accepts ASCII digits only.
- Dates before 0000/01/01. Negative years are not represented.
- `Album.RangeFromCriteria`: requires today to be on or after 0000/02/01 for "everyday" and 0000/01/07 for "7days". Earlier days would need negative years.
- `Album.BoundsFromCriteria`: carries the same requirement on today as `Album.RangeFromCriteria`.
- `Picker.Datepicker.OnTextChange`: the source refreshes the idle field only when `isEditing`, `startD` or `endD` changes. The model refreshes it after every step. The two differ only for unparseable text arriving while the field is not being edited. A text field receives text only after it gains focus, which sets `isEditing`.
- An absent `dateRange` prop. The model takes `dateRange` as passed by the owner and stable between renders, as the page passes it. When the prop is absent, its default `[null, null]` is a new array on every render, so the `[dateRange]` effect runs after every render and resets `startD` and `endD` to null. Calendar picks are then lost, and the next close reaches the fallback with a null committed start and throws. `Scenarios.PickOneDay` holds only for an empty range that is passed explicitly.
- `minDate`, `maxDate` and `maxRange` are fixed for the component's lifetime. The page never changes its criterion.
- The page's plain `DateRangePicker` demo, its hidden inputs, the cards and the footer. They only forward widget state or render static content.
- `src/components/Row/index.js`, `src/components/TextInput/index.jsx` and `src/constants.jsx`. They are layout wrappers and style constants with no behaviour.
