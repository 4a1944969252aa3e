# Vencord plugins NotificationBadgeControl and MessageCorrector, modelled in Dafny

This project models two Vencord client plugins.

**NotificationBadgeControl** decides which number Discord's unread badge shows. It works from:
- the total notification count;
- the host's read state: the mention count and whether anything is unread;
- five settings: `showPlaceholder`, `showCountBadgeAtOrAbove`, `whatAreNotifs`, `customNumber` and `customLogic`.

A badge of -1 shows the placeholder dot, 0 shows no badge, and a positive number shows that count. The decision tries these in a fixed order, and the first that applies decides:
1. a user-supplied script;
2. a numeric override;
3. "always show the placeholder";
4. a count at or above a threshold;
5. "never show the placeholder";
6. "something is unread";
7. otherwise, nothing.

**MessageCorrector** hooks the host's message list (`reorder`). In debug mode it appends each message's server timestamp to the message content, as a line `-# ` followed by `Date.prototype.toISOString` of the timestamp. It skips messages whose content already matches the timestamp pattern. When reordering is allowed, it replaces the list's `_array` with a copy that is stably sorted by timestamp.

The Dafny modules follow the source:

- `NotificationBadgeControl` (`notification_badge_control.dfy`) is pure. It holds `Logic`, `IsNotif` and the helpers they need: the notification sum, the threshold, and `String.prototype.trim`. It also holds a table of rules that restates `Logic` as "the first applicable rule in priority order", with the lemma that connects the two.
- `IsoTimestamp` (`iso_timestamp.dfy`) holds two things:
  - the ECMAScript date arithmetic behind `toISOString`: day number, civil date and time of day, proved to round-trip;
  - the timestamp regular expression, as a sequence of atoms with an unanchored search.
- `MessageCorrector` (`message_corrector.dfy`) is imperative:
  - `Message` is a class with a constant timestamp and mutable content.
  - `MessageList` is a class whose `items` array stands for `_array`.
  - The debug pass is a loop over the array that updates the message objects in place. The timestamp test it runs is a parameter: `AsWritten` is the regular expression exactly as the source writes it, and `Corrected` also accepts the expanded years described under Findings. `Reorder` with `AsWritten` is the source's `reorder`.
  - The sort is an insertion sort in place on a fresh copy of the array. It is proved equal to a functional stable insertion sort `SortByTimestamp`.
  - The stability of `SortByTimestamp` is stated through `WithTimestamp(s, t)`, the subsequence of messages with timestamp `t`. Sortedness plus equal `WithTimestamp` for every `t` determine the result uniquely.

Some things the source gets from its host are parameters of the model instead:
- the read-state module lookup: `readState: Option<ReadState>`, None when nothing is found;
- the registration check `check()`: `registered`;
- the host's own unread-badge switch: `disabled`;
- the outcome of compiling and running the custom script: `script`, a function value that returns `Some(n)` for a number result `n` (already truncated) and `None` for a failure or a non-number.

## Model

| member | source | states |
|---|---|---|
| `NotificationBadgeControl.IsNotif` | src/plugins/notificationBadgeControl/index.ts:67-71 | A kind of notification counts exactly when it is among the kinds the setting enables. `all` enables every kind, and the query `all` always passes. |
| `NotificationBadgeControl.Notifs` | src/plugins/notificationBadgeControl/index.ts:145 | The notification count is the mentions, the other notifications, or their sum, depending on `whatAreNotifs`. |
| `NotificationBadgeControl.CountThreshold` | src/plugins/notificationBadgeControl/index.ts:143-144 | The threshold is never negative. It is 0 exactly when the setting is 0. A positive setting is used as it is. Unset and negative settings become 1. |
| `NotificationBadgeControl.TrimStart` | src/plugins/notificationBadgeControl/index.ts:118 | Removing leading whitespace never lengthens the string. The result is empty exactly when the string is all whitespace, and otherwise does not start with whitespace. |
| `NotificationBadgeControl.TrimEnd` | src/plugins/notificationBadgeControl/index.ts:118 | Removing trailing whitespace leaves an empty string exactly when the string is all whitespace. |
| `NotificationBadgeControl.Trim` | src/plugins/notificationBadgeControl/index.ts:118 | `custom.trim().length > 0` holds exactly when the script text is not all whitespace. |
| `NotificationBadgeControl.TrimStartRemovesLeadingBlank` | src/plugins/notificationBadgeControl/index.ts:118 | TrimStart removes an all-whitespace prefix and keeps the rest as a suffix of the input, and that suffix does not start with whitespace. |
| `NotificationBadgeControl.TrimEndRemovesTrailingBlank` | src/plugins/notificationBadgeControl/index.ts:118 | TrimEnd removes an all-whitespace suffix and keeps the rest as a prefix of the input, and that prefix does not end with whitespace. |
| `NotificationBadgeControl.TrimKeepsMiddle` | src/plugins/notificationBadgeControl/index.ts:118 | Trim returns the slice of the input between a whitespace prefix and a whitespace suffix, and that slice neither starts nor ends with whitespace. |
| `NotificationBadgeControl.Logic` | src/plugins/notificationBadgeControl/index.ts:104-154 | A failed module lookup or a missing registration gives 0. A script result is returned as it is. Without a script result the badge is at least -1. Past an override that is off, a positive badge is the notification count and is at least the threshold, and the placeholder appears only for "always", or for "default" with something unread. |
| `NotificationBadgeControl.LogicFollowsPriority` | src/plugins/notificationBadgeControl/index.ts:115-153 | Once the lookups succeed, `logic` equals the outcome of the first applicable rule in the order script, override, always, count, never, unread, nothing. |
| `NotificationBadgeControl.FirstApplicableAt` | src/plugins/notificationBadgeControl/index.ts:118-153 | One step of the rule table: the first applicable rule from position k is rule k if it applies, and otherwise the first applicable rule after it. |
| `NotificationBadgeControl.ScriptResultWins` | src/plugins/notificationBadgeControl/index.ts:118-128 | When the script text is not blank and the script yields a number, that number is the badge whatever the other settings are. |
| `NotificationBadgeControl.FailedScriptFallsThrough` | src/plugins/notificationBadgeControl/index.ts:118-135 | A blank script, or one that fails or returns a non-number, decides exactly as if no script were set. |
| `NotificationBadgeControl.OverrideWins` | src/plugins/notificationBadgeControl/index.ts:137-138 | Without a script result, an override of -1 or more is the badge. |
| `NotificationBadgeControl.OverrideBelowMinusOneIsOff` | src/plugins/notificationBadgeControl/index.ts:137-138 | An override below -1, including the default -2, decides exactly as an unset override. |
| `NotificationBadgeControl.AlwaysShowsPlaceholder` | src/plugins/notificationBadgeControl/index.ts:140-141 | Without a script result or an override, "always" gives the placeholder whatever the counts. |
| `NotificationBadgeControl.NegativeThresholdIsOne` | src/plugins/notificationBadgeControl/index.ts:143-144 | A negative threshold decides exactly as a threshold of 1. |
| `NotificationBadgeControl.ZeroThresholdShowsNoCount` | src/plugins/notificationBadgeControl/index.ts:143-153 | A threshold of 0 gives only no badge or the placeholder. The placeholder appears exactly for "always", or for "default" with something unread. |
| `NotificationBadgeControl.CountOrFallback` | src/plugins/notificationBadgeControl/index.ts:145-153 | Past the script, the override and "always", a count at or above a positive threshold is shown, and it is positive. Otherwise the badge is the placeholder exactly for "default" with something unread, and 0 in every other case. |
| `NotificationBadgeControl.MentionsScenario` | src/plugins/notificationBadgeControl/index.ts:143-148 | Three mentions, counting mentions only, with the default threshold of 1: the badge is 3. |
| `NotificationBadgeControl.UnreadScenario` | src/plugins/notificationBadgeControl/index.ts:147-153 | No notifications but something unread, with default settings: the badge is the placeholder. |
| `IsoTimestamp.YearOfEra` | src/plugins/messageCorrector/index.ts:64 | A day of a 400-year era splits into a year of era (0 to 399) and a day of year (0 to 365), which recompose it with 365 days a year plus the Gregorian leap days. Day 365 occurs only in a year whose following February has a leap day. |
| `IsoTimestamp.LeapDayInLeapYear` | src/plugins/messageCorrector/index.ts:64 | A year of era that ends with a leap day runs into a Gregorian leap year. |
| `IsoTimestamp.EraShift` | src/plugins/messageCorrector/index.ts:64 | Whole 400-year eras do not change a year's remainders modulo 4, 100 and 400. |
| `IsoTimestamp.MonthOfYear` | src/plugins/messageCorrector/index.ts:64 | A day of a March-based year splits into a month (1 to 12) and a day, which recompose it. The day never exceeds the month's length, and February 29 comes only from the 366th day. |
| `IsoTimestamp.CivilFromDays` | src/plugins/messageCorrector/index.ts:64 | The calendar date of a day number is a real Gregorian date: a month from 1 to 12 and a day from 1 to that month's length in that year. Within the time-value range the year lies within ±300000, so it fits the six-digit year field. |
| `IsoTimestamp.CivilRoundTrip` | src/plugins/messageCorrector/index.ts:64 | Converting a day number to a date and back gives the day number: no two days share a date. |
| `IsoTimestamp.CivilParts` | src/plugins/messageCorrector/index.ts:64 | The date CivilFromDays computes is described by an era, a year of era, a day of year and a day of era that recompose the day number. |
| `IsoTimestamp.DaysFromCivilParts` | src/plugins/messageCorrector/index.ts:64 | DaysFromCivil of a date given by its era, year of era and day of year is the matching day number. |
| `IsoTimestamp.ToDateTime` | src/plugins/messageCorrector/index.ts:64 | A time value's UTC fields lie in range: hour below 24, minute and second below 60, milliseconds below 1000, and a valid month and day. |
| `IsoTimestamp.DateTimeRoundTrip` | src/plugins/messageCorrector/index.ts:64 | Converting a time value to UTC fields and back gives the time value: the rendered fields lose nothing. |
| `IsoTimestamp.PadDigits` | src/plugins/messageCorrector/index.ts:64 | Zero padding yields only decimal digits, denotes the number padded, and has exactly the field width when the number fits in it. |
| `IsoTimestamp.IsoStringShape` | src/plugins/messageCorrector/index.ts:64 | `toISOString` writes four year digits for years 0 to 9999, otherwise a sign and six digits, followed by `-MM-DDTHH:mm:ss.sssZ`. |
| `IsoTimestamp.DateTailMatches` | src/plugins/messageCorrector/index.ts:13 | The part after the year matches the part of the pattern after the year. |
| `IsoTimestamp.AnnotationRecognized` | src/plugins/messageCorrector/index.ts:13 | Any content followed by an annotation line passes the timestamp test, whatever the year. |
| `IsoTimestamp.AsWrittenRecognizesFourDigitYears` | src/plugins/messageCorrector/index.ts:13 | The pattern as written recognises an annotation for a year from 0 to 9999. |
| `IsoTimestamp.AsWrittenMissesExpandedYears` | src/plugins/messageCorrector/index.ts:13 | The pattern as written does not find an annotation for a year outside 0 to 9999. |
| `IsoTimestamp.AsWrittenRejectsSignedYear` | src/plugins/messageCorrector/index.ts:13 | After a newline and `-# `, a sign where the pattern wants a year digit leaves no position where the pattern as written matches. |
| `IsoTimestamp.YearTenThousand` | src/plugins/messageCorrector/index.ts:64 | Time value 253402300800000 is 10000-01-01T00:00:00.000Z, the first instant with a year outside 0 to 9999. |
| `MessageCorrector.Annotated` | src/plugins/messageCorrector/index.ts:59-64 | The debug step under either test keeps the old content as a prefix. The content changes exactly when the test fails, and then it gains exactly one annotation line: a newline, `-# ` and the ISO timestamp. Afterwards the content passes the corrected test always, and the test as written for years 0 to 9999. |
| `MessageCorrector.AnnotatedIdempotent` | src/plugins/messageCorrector/index.ts:58-66 | A second debug step changes no content: under the corrected test for every timestamp, under the test as written for years 0 to 9999. |
| `MessageCorrector.TestsDifferOnFirstPass` | src/plugins/messageCorrector/index.ts:13 | Content that already holds an expanded-year timestamp line is left alone under the corrected test but annotated under the test as written, on the first pass. |
| `MessageCorrector.AnnotatedTimes` | src/plugins/messageCorrector/index.ts:58-66 | Any number of debug steps keeps the original content as a prefix. |
| `MessageCorrector.AnnotatedTimesStep` | src/plugins/messageCorrector/index.ts:58-66 | One debug step after `n` of them is `n + 1` steps. |
| `MessageCorrector.AnnotatedTimesIsOnce` | src/plugins/messageCorrector/index.ts:58-66 | Under the corrected test, and under the test as written for years 0 to 9999, one or more debug steps give the same content as one. |
| `MessageCorrector.AnnotateOne` | src/plugins/messageCorrector/index.ts:59-64 | One iteration of the loop body sets the message's content to its debug step. |
| `MessageCorrector.CountStep` | src/plugins/messageCorrector/index.ts:58 | Visiting one more array position adds one to the visit count of the message there and to no other. |
| `MessageCorrector.StartStepped` | src/plugins/messageCorrector/index.ts:58 | Before the loop no message has had a debug step. |
| `MessageCorrector.Visit` | src/plugins/messageCorrector/index.ts:58-66 | One iteration steps the message at the current position and keeps the loop's state description for every other message. |
| `MessageCorrector.FinishStepped` | src/plugins/messageCorrector/index.ts:58 | After the loop every message has had one debug step per position it holds in `_array`. |
| `MessageCorrector.AsWrittenAnnotationRepeats` | src/plugins/messageCorrector/index.ts:13 | With the test as written, a message from 10000-01-01 gains a second annotation on the second debug pass. |
| `MessageCorrector.AnnotateAll` | src/plugins/messageCorrector/index.ts:58-66 | After the loop over `_array`, every listed message's content is its content before the loop after one debug step per position it holds. A message listed twice is stepped twice, which `AnnotatedTimesIsOnce` shows is the same as once except for expanded years under the test as written. |
| `MessageCorrector.InsertByTimestamp` | src/plugins/messageCorrector/index.ts:72-76 | Inserting a message adds exactly that message to the multiset and keeps a sorted sequence sorted. |
| `MessageCorrector.SortByTimestamp` | src/plugins/messageCorrector/index.ts:72-76 | The sort result is a permutation of its input and ascends by timestamp. |
| `MessageCorrector.BoundedByLast` | src/plugins/messageCorrector/index.ts:72-76 | A rearrangement of messages that are no later than `last`, plus one more such message, is still no later than `last`. |
| `MessageCorrector.SortedAppend` | src/plugins/messageCorrector/index.ts:72-76 | Appending a message no earlier than the last keeps a sequence sorted. |
| `MessageCorrector.WithTimestamp` | src/plugins/messageCorrector/index.ts:72-76 | Filtering by a timestamp never lengthens a sequence. |
| `MessageCorrector.WithTimestampMembers` | src/plugins/messageCorrector/index.ts:72-76 | The filter keeps exactly the messages that have the given timestamp. |
| `MessageCorrector.WithTimestampConcat` | src/plugins/messageCorrector/index.ts:72-76 | Filtering a concatenation filters each part. |
| `MessageCorrector.InsertKeepsTies` | src/plugins/messageCorrector/index.ts:72-76 | Inserting a message never moves it past a message with the same timestamp. |
| `MessageCorrector.SwapUnderFilter` | src/plugins/messageCorrector/index.ts:72-76 | Moving a message in front of a strictly earlier one keeps every timestamp's subsequence. |
| `MessageCorrector.SortIsStable` | src/plugins/messageCorrector/index.ts:72-76 | The sort is stable: for every timestamp, the messages with that timestamp keep their relative order. |
| `MessageCorrector.StableSortIsUnique` | src/plugins/messageCorrector/index.ts:72-76 | Two sorted sequences with the same messages of each timestamp, in the same order, are equal. |
| `MessageCorrector.LastTimestampsAgree` | src/plugins/messageCorrector/index.ts:72-76 | Two sorted sequences with the same filters end in the same timestamp. |
| `MessageCorrector.NonEmptyFilter` | src/plugins/messageCorrector/index.ts:72-76 | Two sequences with the same filters are both empty or both non-empty. |
| `MessageCorrector.FilteredBelowLast` | src/plugins/messageCorrector/index.ts:72-76 | In a sorted sequence, every timestamp that occurs is at most the last one. |
| `MessageCorrector.DropLastFilter` | src/plugins/messageCorrector/index.ts:72-76 | Equal filters of two sequences that end in the same timestamp stay equal when the last messages are dropped. |
| `MessageCorrector.LastsAgree` | src/plugins/messageCorrector/index.ts:72-76 | Equal filters of two sequences that end in the same timestamp show that the two end in the same message. |
| `MessageCorrector.IsTheStableSort` | src/plugins/messageCorrector/index.ts:72-76 | Any sorted sequence that keeps the input's order within each timestamp is the sort result. |
| `MessageCorrector.SortKeepsSorted` | src/plugins/messageCorrector/index.ts:72-76 | A list already in timestamp order comes out unchanged. |
| `MessageCorrector.SortIdempotent` | src/plugins/messageCorrector/index.ts:72-76 | Sorting twice is the same as sorting once. |
| `MessageCorrector.InsertAt` | src/plugins/messageCorrector/index.ts:72-76 | Inserting a message puts it right after the last message that is not later than it. |
| `MessageCorrector.ShiftLater` | src/plugins/messageCorrector/index.ts:72-76 | The inner loop shifts the run of messages later than `a[i]` one place right and returns the gap. Everything before the gap and after `i` stays. |
| `MessageCorrector.InsertionSplice` | src/plugins/messageCorrector/index.ts:72-76 | Array contents shifted as the inner loop shifts them, with the element placed in the gap, are the sorted prefix with that element inserted. |
| `MessageCorrector.InsertLast` | src/plugins/messageCorrector/index.ts:72-76 | One insertion-sort step in place turns `a[..i + 1]` into InsertByTimestamp of `a[..i]` and `a[i]`, and leaves the rest of the array alone. |
| `MessageCorrector.Splice` | src/plugins/messageCorrector/index.ts:72-76 | An array that agrees with `sorted` before `j`, holds `m` at `j` and holds `sorted` shifted one place after `j` is `sorted` with `m` inserted at `j`. |
| `MessageCorrector.SortPrefixStep` | src/plugins/messageCorrector/index.ts:72-76 | Sorting one more element of a prefix is inserting it into the sorted prefix. |
| `MessageCorrector.SortInPlace` | src/plugins/messageCorrector/index.ts:72-76 | Sorting in place leaves the array equal to SortByTimestamp of its old contents, so it is a stable, sorted permutation. |
| `MessageCorrector.SortedCopy` | src/plugins/messageCorrector/index.ts:72-76 | `[..._array].sort(...)` is a new array holding the stable timestamp order of the old one. |
| `MessageCorrector.Reorder` | src/plugins/messageCorrector/index.ts:54-83 | `reorder` returns the same list. With reordering on, `_array` becomes a new array that is the stable sort of the old one; with it off, the array is kept. The old array object is never rearranged. In debug mode each listed message's content gets one debug step, under the given test, per position it holds in `_array`; otherwise it is unchanged. |

## Left out

- memberLeftBadge is not part of this model: it is a separate plugin.
- The `patches` descriptors are left out. They rewrite the host's minified code, which is not modelled.
- Compiling and running the custom script with `new Function` is left out. Only its outcome is modelled: the `script` parameter, which returns a truncated number or nothing.
- Floating point is not modelled. Counts, settings and script results are integers. `Math.trunc` is assumed already applied to the number settings and the script result.
- A NaN setting is not modelled. A NaN `customNumber` behaves like an unset one (`None`), and a NaN threshold behaves like 0. An infinite script result is not modelled either.
- The host lookups `findByProps`, `NotificationSettingsStore` and `check()` are parameters, not modelled code.
- `Date` parsing of `x.timestamp` is not modelled: a message's timestamp is already a time value in the ECMAScript range. For the same reason an invalid date, and the `RangeError` that `toISOString` would throw for it, are out of scope.
- The `try`/`catch` of `reorder` is not modelled: an exception, and the `undefined` that `reorder` then returns, are out of scope.
- Logging and the `start`/`stop` lifecycle are not modelled: they only write to the console.
- The engine's built-in sort is modelled by an insertion sort. Any stable sort gives the same result (`IsTheStableSort`), but the comparisons it makes are not modelled.
- The comparator `tA - tB` is modelled as a comparison of integer timestamps. The rounded floating-point difference of two time values always has the sign of the exact difference, so the two orders agree.
- `disabled` (the host's unread-badge switch) is passed only to the custom script, as in the source.
- NotificationBadgeControl.CustomResult carries no contract of its own. What it decides is stated through `Logic`, `ScriptResultWins` and `FailedScriptFallsThrough`.
- IsoTimestamp.ToIsoString carries no contract of its own. Its shape is stated by `IsoStringShape`, its fields by `PadDigits` and `DateTimeRoundTrip`, and its recognition by `AnnotationRecognized`.
- IsoTimestamp.YearString carries no contract of its own. It is the year field of `toISOString`, and `IsoStringShape` states its form.
- IsoTimestamp.DateTailString carries no contract of its own. It is the `-MM-DDTHH:mm:ss.sssZ` part of `toISOString`, and `IsoStringShape` and `DateTailMatches` state its form.
- IsoTimestamp.DaysFromCivil, IsoTimestamp.FromDateTime, IsoTimestamp.IsLeapYear, IsoTimestamp.MonthLength and IsoTimestamp.DaysInMonth carry no contract of their own. They are ECMAScript's MakeDay, MakeTime and DaysInYear, used as the reference that `CivilRoundTrip`, `DateTimeRoundTrip` and `CivilFromDays` are stated against.
- IsoTimestamp.AnnotationLine carries no contract of its own. It is the text appended at src/plugins/messageCorrector/index.ts:64. `Annotated` states where it goes, and `AnnotationRecognized`, `AsWrittenRecognizesFourDigitYears` and `AsWrittenMissesExpandedYears` state which test recognises it.
- IsoTimestamp.Contains carries no contract of its own. It is the unanchored search of `RegExp.prototype.test`. `ContainsAfterNewline` and `AsWrittenRejectsSignedYear` state when it finds a match and when it does not.
- IsoTimestamp.AsWrittenPattern carries no contract of its own. It is the regular expression at src/plugins/messageCorrector/index.ts:13, atom by atom. `AsWrittenRecognizesFourDigitYears` and `AsWrittenMissesExpandedYears` state what it matches.
- IsoTimestamp.ExpandedYearPattern and IsoTimestamp.DateTail carry no contract of their own. They are the parts of the corrected pattern, and `DateTailMatches` and `AnnotationRecognized` state what they match.
- IsoTimestamp.HasTimestampAsWritten carries no contract of its own. It is the test at src/plugins/messageCorrector/index.ts:61 as written, and `Annotated`, `AsWrittenRecognizesFourDigitYears` and `AsWrittenMissesExpandedYears` state its effect.
- IsoTimestamp.HasTimestamp carries no contract of its own. It is the corrected test, and `AnnotationRecognized` and `AnnotatedIdempotent` state its effect.
- IsoTimestamp.ShowsTimestamp carries no contract of its own. It selects one of the two tests, and `Annotated` states its effect.
- MessageCorrector.SteppedUpTo carries no contract of its own. It describes the state of the debug loop, and `StartStepped`, `Visit` and `FinishStepped` state how the loop establishes and keeps it.

## Findings

| source | as written | input that shows it | evidently intended | confidence | as-written member | corrected member |
|---|---|---|---|---|---|---|
| src/plugins/messageCorrector/index.ts:13 | The timestamp test accepts only a four-digit year (`\d{4}`). | A message with timestamp 253402300800000 (10000-01-01T00:00:00.000Z). `toISOString` writes its year as `+010000`, so every debug pass appends another timestamp line. | Recognise every annotation `toISOString` can produce, including the signed six-digit years, so that each message is annotated once. | not executed | `MessageCorrector.AsWrittenAnnotationRepeats` | `MessageCorrector.AnnotatedIdempotent` |
