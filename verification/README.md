# Weekly schedule calendar and schedule form — a Dafny model

The application collects a student's courses, clubs and goals in a form, sends
them to a hosted language model, and draws the weekly schedule the model
returns. Two parts of it compute something of their own, and this project
models both:

- **The weekly calendar** (`components/ScheduleCalendar.tsx`). This covers:
  - reading `"HH:MM"` times and printing them as `"h:MM AM/PM"` (`formatTime`);
  - the hour-axis labels;
  - grouping schedule items by day code (`Mo`..`Su`);
  - the rule for which hour slots an item occupies;
  - the two type-to-style lookup tables;
  - the "No schedule data" placeholder.
- **The schedule form** (`components/ScheduleForm.tsx`). This covers:
  - the course and club lists, edited by change, add and remove operations
    that never leave a list empty;
  - the submit handler, which drops blank entries and validates the rest in
    a fixed order.

Times are integer minutes past midnight. React state setters are pure
transitions on immutable sequences. `alert` followed by `return` is modelled
as a `Rejected` outcome, and `onSubmit` as a `Submitted` outcome.

Modules:

- `Seqs` (`seqs.dfy`): `Array.prototype.filter` as `Filter`, and the
  subsequence relation that pins down its result.
- `Text` (`text.dfy`): the JavaScript string operations involved. These are
  decimal `toString`, `Number` on a digit run, `padStart`, and `trim` with the
  ECMAScript whitespace set.
- `ClockTime` (`clock.dfy`): `parseTime`, `formatTime`, its inverse, and the
  hour label.
- `TypeStyles` (`styles.dfy`): the colour and badge tables, as written and as
  intended.
- `Calendar` (`calendar.dfy`): schedule items, day buckets, hour slots and the
  rendered grid.
- `ScheduleForm` (`form.dfy`): the list transitions, playable action traces,
  and submit.

The slot rule in the source compares the float `hours + minutes/60` against
whole hours. The model compares `60*hours + minutes` against multiples of 60
instead. `ClockTime.WholeHourComparisons` proves that the two give the same
answers when `hours + minutes/60` is read as an exact real number.

`components/ResponseDisplay.tsx` (lines 36-38) takes the body of the first
`json`-tagged fenced block if there is one, otherwise the first fenced block of
any kind, otherwise the whole response, and calls `JSON.parse` on it trimmed;
there is no repair of truncated JSON.
The calendar's only z-order handling is `zIndex: item.priority`; items that
overlap are drawn on top of each other. Neither is in scope.

## Model

| member | source | states |
|---|---|---|
| Seqs.Filter | components/ScheduleCalendar.tsx:101 | the filtered sequence is a subsequence of the input, no longer than it, and every element satisfies the predicate |
| Seqs.FilterContents | components/ScheduleCalendar.tsx:101 | each element of the input keeps its full multiplicity in the result if it satisfies the predicate and has none otherwise, and nothing else is in the result |
| Seqs.FilterUnique | components/ScheduleCalendar.tsx:101 | no other subsequence made of matching elements is as long as the filter result, so the result is exactly the matching elements in their original order |
| Text.DecimalString | components/ScheduleCalendar.tsx:54 | `toString` of a non-negative integer is canonical digit text (no leading zero) worth that integer, and is one character long exactly below 10 |
| Text.DecimalStringOfValue | components/ScheduleCalendar.tsx:54 | the reverse round trip: canonical digit text is the `toString` of its own value |
| Text.LeadingZeroValue | components/ScheduleCalendar.tsx:46 | `Number` ignores leading zeros: prefixing `"0"` to a digit run leaves its value unchanged |
| Text.PadStart | components/ScheduleCalendar.tsx:54 | `padStart` keeps the original text as the suffix, fills only the front with the fill character, and reaches the requested width |
| Text.TwoDigits | components/ScheduleCalendar.tsx:54 | the padded minutes of any minute value below 100 are exactly two digits, tens digit first, whose value is the minute |
| Text.TrimStartIndex | components/ScheduleForm.tsx:65 | the scan from the left stops at the first character that is not whitespace, and everything it passes over is whitespace |
| Text.TrimEndIndex | components/ScheduleForm.tsx:65 | the scan from the right stops after the last character that is not whitespace, and everything it passes over is whitespace |
| Text.TrimSpan | components/ScheduleForm.tsx:65-66 | the input is whitespace, then the kept middle, then whitespace, and a non-empty middle starts and ends with a character that is not whitespace |
| Text.Trim | components/ScheduleForm.tsx:65-66 | the result is no longer than the input, and a non-empty result neither starts nor ends with whitespace |
| Text.TrimUnique | components/ScheduleForm.tsx:81 | any cut of a string into whitespace, a middle that neither starts nor ends with whitespace, and whitespace has the trimmed string as its middle, so `trim` is fully determined by that description |
| Text.TrimEmptyIffAllWhitespace | components/ScheduleForm.tsx:73 | trimming leaves nothing exactly when every character is whitespace |
| Text.Blank | components/ScheduleForm.tsx:73 | `!s.trim()` holds exactly when every character of `s` is whitespace |
| Text.TrimIdempotent | components/ScheduleForm.tsx:81 | trimming an already trimmed string changes nothing |
| Text.TrimOfTrimmed | components/ScheduleForm.tsx:81 | a string that neither starts nor ends with whitespace is its own trim |
| ClockTime.ColonIndex | components/ScheduleCalendar.tsx:46 | the split point is the first `':'`: no colon comes before it, and it is a colon unless the text has none |
| ClockTime.ParseClock | components/ScheduleCalendar.tsx:45-47 | a time that parses has an hour below 24 and a minute below 60 |
| ClockTime.ParseFields | components/ScheduleCalendar.tsx:45-47 | any two non-empty digit runs around one colon, the first below 24 and the second below 60, read as exactly the numbers they spell |
| ClockTime.ParseClockAccepts | components/ScheduleCalendar.tsx:45-47 | a text parses exactly when it is two non-empty digit runs around one colon with the hour below 24 and the minute below 60, and then the time is the numbers those runs spell |
| ClockTime.ParseClockText | components/ScheduleCalendar.tsx:45-47 | every valid time printed as `"HH:MM"` parses back to itself |
| ClockTime.Minutes | components/ScheduleCalendar.tsx:45-47 | minutes past midnight are below 1440, their hour part is the hour and their remainder is the minute |
| ClockTime.ParseTimeValue | components/ScheduleCalendar.tsx:47 | `hours + minutes/60` times sixty is the minute count |
| ClockTime.WholeHourComparisons | components/ScheduleCalendar.tsx:172-174 | comparing `parseTime` with `hour + 1` and `hour` gives the same answers as comparing minutes with `60*(hour+1)` and `60*hour` |
| ClockTime.FromTwelveHour | components/ScheduleCalendar.tsx:52-53 | reading an hour 1..12 with a period gives an hour below 24 that has that period |
| ClockTime.DisplayHour | components/ScheduleCalendar.tsx:52-53 | the displayed hour is always in 1..12, and the displayed hour with its period gives back the 24-hour hour |
| ClockTime.PeriodOf | components/ScheduleCalendar.tsx:52 | the hours before noon are AM, noon and later are PM |
| ClockTime.TwelveHourRoundTrip | components/ScheduleCalendar.tsx:52-53 | the other direction: each 12-hour reading is displayed as itself |
| ClockTime.FormatClockRoundTrip | components/ScheduleCalendar.tsx:50-55 | reading the printed `"h:MM AM/PM"` text as a 12-hour time gives back the time that was printed |
| ClockTime.FormatTime | components/ScheduleCalendar.tsx:50-55 | `formatTime` of a well-formed time is the unpadded 12-hour hour as `toString` prints it, a colon, the minute as two zero-padded digits, a space and the period; it is 7 or 8 characters long and reads back as the same time |
| ClockTime.FormatClock | components/ScheduleCalendar.tsx:52-54 | the printed text is the canonical decimal text of the displayed hour, then `:`, then the minute's tens and units digit, a space and the period |
| ClockTime.InsertBeforePeriod | components/ScheduleCalendar.tsx:168 | inserting `":00"` before the last three characters of `"<h> <period>"` gives `"<h>:00 <period>"` |
| ClockTime.HourLabel | components/ScheduleCalendar.tsx:168 | whichever of the four cases applies, the label is the displayed hour and the period of `formatTime`, separated by a space |
| ClockTime.TopOfHour | components/ScheduleCalendar.tsx:50-55 | `formatTime` of `"HH:00"` is the displayed hour, `":00"`, a space and the period |
| ClockTime.FormatTimeOfClockText | components/ScheduleCalendar.tsx:50-55 | `formatTime` of a time printed as `"HH:MM"` is that time's 12-hour text |
| ClockTime.FormatClockTopOfHour | components/ScheduleCalendar.tsx:54 | on the hour, the minutes print as `"00"` |
| ClockTime.HourLabelMatchesFormatTime | components/ScheduleCalendar.tsx:168 | for every hour 0..23, the label is `formatTime("HH:00")` without its `":00"`: same 12-hour number, same period |
| TypeStyles.InheritedTypeBypassesColorDefault | components/ScheduleCalendar.tsx:69 | as written, the types `"constructor"` and `"toString"` get neither a listed colour nor the gray default |
| TypeStyles.InheritedTypeBypassesVariantDefault | components/ScheduleCalendar.tsx:84 | as written, the type `"valueOf"` gets no badge variant at all |
| TypeStyles.TypeColor | components/ScheduleCalendar.tsx:57-70 | each of the nine listed types gets its table colour, and every other string gets the gray default |
| TypeStyles.TypeBadgeVariant | components/ScheduleCalendar.tsx:72-85 | each of the nine listed types gets its table variant, and every other string gets `outline` |
| TypeStyles.TypeColorAsWritten | components/ScheduleCalendar.tsx:58-69 | the lookup as written: a listed type gets its colour, one of the twelve inherited member names gets that member instead of a colour, any other string gets the gray default |
| TypeStyles.TypeBadgeVariantAsWritten | components/ScheduleCalendar.tsx:73-84 | the lookup as written: a listed type gets its variant, an inherited member name gets that member instead of a variant, any other string gets `outline` |
| TypeStyles.AsWrittenAgreesOffPrototype | components/ScheduleCalendar.tsx:57-85 | for every type not named after an inherited member, the code as written and the intended tables give the same style |
| TypeStyles.ColorsIdentifyTypes | components/ScheduleCalendar.tsx:58-69 | distinct listed types get distinct colours, and none of them gets the default colour |
| TypeStyles.OutlineBadges | components/ScheduleCalendar.tsx:73-84 | a type gets the outline badge exactly when it is unlisted, `club` or `sleep` |
| Calendar.DayBucket | components/ScheduleCalendar.tsx:99-102 | a day's bucket is a subsequence of the schedule holding exactly the items whose `days` list that day, each with its full multiplicity |
| Calendar.DayBucketExact | components/ScheduleCalendar.tsx:101 | any equally long in-order selection of that day's items is the bucket, so the bucket is unique |
| Calendar.ScheduleByDay | components/ScheduleCalendar.tsx:99-102 | there are seven buckets, and an item is in bucket `d` exactly when it is scheduled and lists day `d` |
| Calendar.UnknownDaysInNoBucket | components/ScheduleCalendar.tsx:41 | an item whose day codes are all outside `Mo`..`Su` is in no bucket |
| Calendar.ItemsInSlot | components/ScheduleCalendar.tsx:171-175 | a slot is a subsequence of the bucket holding exactly the items that start before the end of the hour and end after its start, each with its full multiplicity |
| Calendar.ItemsInSlotExact | components/ScheduleCalendar.tsx:171-175 | any in-order selection of the bucket's slot items as long as the slot equals the slot, so the slot is all of them, in bucket order |
| Calendar.OccupiedHours | components/ScheduleCalendar.tsx:171-175 | an item that starts before it ends occupies exactly the hours `start/60` through `ceil(end/60) - 1` |
| Calendar.OccupiedHoursWithinDay | components/ScheduleCalendar.tsx:43 | every hour a well-formed item occupies lies in 0..23 |
| Calendar.WrappingItemInNoSlot | components/ScheduleCalendar.tsx:174 | an item that ends at or before the top of the hour it starts in occupies no slot, for example 23:00–07:00 |
| Calendar.Render | components/ScheduleCalendar.tsx:87-175 | a missing or empty schedule gives the placeholder and no grid; otherwise there are seven named day columns and 24 rows, each with seven cells and that hour's label |
| Calendar.CellContents | components/ScheduleCalendar.tsx:170-175 | the column of day `d` is that day's bucket, and its cell at hour `h` is the bucket filtered to the items meeting hour `h` |
| ScheduleForm.Initial | components/ScheduleForm.tsx:25-27 | the form starts with exactly one empty course, one empty club and empty goals |
| ScheduleForm.SetField | components/ScheduleForm.tsx:31 | the spread-and-override sets the named field and keeps the other one |
| ScheduleForm.ChangeField | components/ScheduleForm.tsx:29-39 | an edit keeps the length and every other entry; at `index` it sets the named field and keeps the other field |
| ScheduleForm.ChangeFieldUndo | components/ScheduleForm.tsx:29-39 | setting the field back to its previous value restores the list |
| ScheduleForm.AddEntry | components/ScheduleForm.tsx:41-43 | adding appends exactly one empty entry and leaves every existing entry as it was |
| ScheduleForm.WithoutIndex | components/ScheduleForm.tsx:47 | the index filter is one shorter than the list when the index is inside it and as long otherwise, and keeps only entries of the list |
| ScheduleForm.WithoutIndexSpec | components/ScheduleForm.tsx:47 | the index filter drops exactly position `index` and keeps the rest in order; an index outside the list drops nothing |
| ScheduleForm.RemoveEntry | components/ScheduleForm.tsx:45-49 | with more than one entry, removing deletes only the entry at `index` and keeps the others in order; with one entry it does nothing |
| ScheduleForm.RemoveUndoesAdd | components/ScheduleForm.tsx:41-49 | removing the entry just added gives the list back |
| ScheduleForm.ListOperationsKeepNonEmpty | components/ScheduleForm.tsx:29-59 | add, remove and edit all keep a non-empty list non-empty |
| ScheduleForm.Step | components/ScheduleForm.tsx:29-59 | each course or club action applies its change, add or remove operation to its own list; a course action leaves clubs and goals alone, a club action courses and goals, and a goals edit both lists |
| ScheduleForm.StepKeepsNonEmpty | components/ScheduleForm.tsx:29-59 | one action keeps both lists non-empty |
| ScheduleForm.RunKeepsNonEmpty | components/ScheduleForm.tsx:29-59 | any playable sequence of actions keeps both lists non-empty |
| ScheduleForm.ReachableStatesNonEmpty | components/ScheduleForm.tsx:25-59 | every state reachable from the initial one has at least one course and at least one club |
| ScheduleForm.Filled | components/ScheduleForm.tsx:65 | an entry is kept exactly when its name and its time each contain a character that is not whitespace |
| ScheduleForm.FilledEntries | components/ScheduleForm.tsx:65-66 | the submitted entries are exactly those whose name and time are both non-blank after trimming, in order, with full multiplicity and untrimmed strings |
| ScheduleForm.NoneFilledIffEmpty | components/ScheduleForm.tsx:65-68 | the filtered list is empty exactly when no entry is filled |
| ScheduleForm.Submit | components/ScheduleForm.tsx:61-83 | submit rejects for "no course or club" exactly when no entry is filled; it rejects for missing goals exactly when an entry is filled and the goals are all whitespace; otherwise it submits the filled entries with trimmed, non-empty goals |
| ScheduleForm.InitialSubmitRejected | components/ScheduleForm.tsx:68-71 | submitting the untouched form is rejected for want of a course or club, whatever the goals |
| ScheduleForm.SubmittedGoalsTrimmed | components/ScheduleForm.tsx:81 | the goals that are sent have no leading or trailing whitespace left to trim |

## Findings

| source | as written | input that shows it | evidently intended | confidence | as-written member | corrected member |
|---|---|---|---|---|---|---|
| components/ScheduleCalendar.tsx:57-70 | the colour lookup indexes an object literal, so a type named after an `Object.prototype` member finds that inherited function (truthy), and the `||` default is skipped | type `"constructor"`, so the class string becomes a function's source text | every unlisted type gets the gray default | medium, not executed | TypeStyles.InheritedTypeBypassesColorDefault | TypeStyles.TypeColor |
| components/ScheduleCalendar.tsx:72-85 | the badge lookup has the same inherited-member hole | type `"valueOf"`, so the variant is a function and not one of the four variants; latent, since no component of this repository calls `getTypeBadgeVariant` (only `getTypeColor` is used, at components/ScheduleCalendar.tsx:188) | every unlisted type gets `outline` | medium, not executed | TypeStyles.InheritedTypeBypassesVariantDefault | TypeStyles.TypeBadgeVariant |

The code as written is modelled by `TypeStyles.TypeColorAsWritten` and
`TypeStyles.TypeBadgeVariantAsWritten`. `TypeStyles.AsWrittenAgreesOffPrototype`
shows these inputs are the only ones where the two versions differ. The
calendar itself does not use the style tables in any proved statement.

## Left out

- Rendering is not modelled: JSX, Tailwind class strings other than the two lookup tables, and the cards for workload, notes, assumptions, trade-offs and conflicts. These only display fields of the data.
- The block position and height percentages are not modelled, nor their `Math.max`/`Math.min` clamping (components/ScheduleCalendar.tsx:182-191). They are display-only floating point. `zIndex: item.priority` is left out too.
- Floating-point rounding in `parseTime` is not modelled. The comparisons are proved over exact reals. For hours below 24 and whole minutes, `hours + minutes/60` stays clear of the next whole hour.
- Time strings outside `digits ':' digits` are not modelled. On such text `split(':').map(Number)` can give `NaN`, a fractional or out-of-range number, ignore a third `:SS` field, or give a valid time the model does not accept: `Number("")` is `0`, so `"9:"` reads as 9:00 and `":30"` as 0:30; `Number` skips surrounding whitespace, so `" 9:30"` reads as 9:30; and it reads `"0x9"` and `"9.5"`. `ParseClock` accepts exactly two non-empty digit runs around one colon with the hour below 24 and the minute below 60 (`ClockTime.ParseClockAccepts`), and returns `None` for everything else.
- ClockTime.FormatTime: requires a time that `ParseClock` accepts, because the source's result on other text (`"NaN:NaN AM"` and the like) is outside the model.
- Calendar.ItemsInSlot: requires every item in the bucket to have well-formed times, for the same reason.
- Calendar.Render: requires well-formed times on every item of a non-empty schedule, for the same reason. The empty and missing cases need nothing.
- ScheduleForm.ChangeField: requires `index` to be inside the list. The handlers are only called with the index of a rendered entry. An index past the end would make JavaScript grow a sparse array, and that is not modelled. `ScheduleForm.Playable` carries the same restriction for traces.
- The browser's `required`-attribute validation is not modelled. It runs before `handleSubmit` and covers the first course's fields and the goals. The `disabled` submit button while `loading` is not modelled either. Submit is modelled on the handler alone.
- `alert` and `e.preventDefault()` are side effects, represented only by the `Rejected` outcome and its message.
- The `trim` whitespace set is the ECMAScript WhiteSpace and LineTerminator code points, fixed at the Unicode space separators U+1680, U+2000–U+200A, U+202F, U+205F and U+3000. Strings are sequences of Unicode scalar values, not UTF-16 code units. No character these components test lies outside the Basic Multilingual Plane.
- `app/api/gemini/route.ts` is not part of this model. It is I/O glue: the prompt file read, the course-catalogue `fetch`, the language-model call with its timeout, prompt concatenation and HTTP status mapping.
- `components/ResponseDisplay.tsx` is not part of this model. It only does regular-expression fence extraction, `JSON.parse` and rendering.
- `app/page.tsx` and `next.config.mjs` are not part of this model. They hold a client `fetch` with loading and error state, and build configuration.
