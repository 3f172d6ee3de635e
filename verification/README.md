# MoodsDots (EmotionalFilling) — a Dafny model of the entry store and its derivations

EmotionalFilling is a SwiftUI mood journal: the user picks one of five moods
(plus an optional comment) for a calendar day, and the app shows a calendar
of past entries and a monthly analytics card. Everything except a small
layer is presentation. This project models that layer:

- **the data model** (`Models/MoodEntry.swift`): the closed five-case `Mood`
  enum with its emoji raw values and colour names, and the immutable
  `MoodEntry` record;
- **the entry store** (`ViewModels/MoodViewModel.swift`): `saveEntry` as a
  day-keyed upsert with the no-mood guard and the form reset,
  `clearAllData`, and `entriesForMonth`;
- **the monthly analytics** (`Views/AnalyticsView.swift`): the sorted month
  entries, the per-mood counts, the average mood, the day streak, and the
  `numericValue`/`fromNumeric` extension of `Mood`;
- **the history calendar** (`Views/HistoryView.swift`): the month grid built
  by `daysInMonth()` and the `entryForDate` lookup.

The view model is a mutable observable object in the app; here its state is
a value (`MoodViewModel.State`) and each operation is a function from the
old state to the new one. A `Date` is a whole number of seconds since
1970-01-01 UTC, its calendar day is that number divided by 86400 and rounded
down, and `Calendar` is the proleptic Gregorian calendar in UTC
(`Calendar.CivilFromDays`, `Calendar.Weekday`, `Calendar.DaysInMonth`). The
conversion from day numbers to year, month and day is proved to be a
bijection onto the valid dates, and every month is proved to be a run of
`DaysInMonth` consecutive days starting at its day 1.
Fresh UUIDs and the current time (`UUID()`, `Date()`) are parameters.

Files: `wrappers.dfy` (Swift's `Optional`), `seqs.dfy` (order-preserving
filter, insertion sort by an integer key), `calendar.dfy`, `mood_entry.dfy`,
`mood_view_model.dfy`, `analytics.dfy`, `history.dfy`.

The main invariant is "at most one entry per calendar day"
(`MoodViewModel.OnePerDay`). Saving preserves it, a month's slice inherits
it, and under it the calendar cell of a day shows that day's only entry.

`MoodViewModel` declares only `entries` and the form fields. The streak is
not stored anywhere: it is recomputed from the month's entries.

## Model

| member | source | states |
|---|---|---|
| `Models.FromRawValue` | EmotionalFilling/Models/MoodEntry.swift:17-22 | decoding a raw value yields a mood whose raw value is exactly that string |
| `Models.RawValueRoundTrip` | EmotionalFilling/Models/MoodEntry.swift:17-22 | decoding the raw value of any mood gives back that mood, so the five raw values are pairwise distinct |
| `Models.FromRawValueExact` | EmotionalFilling/Models/MoodEntry.swift:17-22 | a string decodes to a mood if and only if it is the raw value of some mood |
| `Models.AllMoodsEnumerates` | EmotionalFilling/Models/MoodEntry.swift:17-22 | `allCases` has five elements, contains every mood and repeats none |
| `Models.ColorInjective` | EmotionalFilling/Models/MoodEntry.swift:24-32 | two moods have the same colour name if and only if they are the same mood |
| `Models.MakeEntry` | EmotionalFilling/Models/MoodEntry.swift:9-14 | an entry holds exactly the id, date, mood and comment it was built with |
| `Models.DefaultCommentIsNil` | EmotionalFilling/Models/MoodEntry.swift:9 | an entry built without a comment argument has no comment |
| `Calendar.AddDays` | EmotionalFilling/Views/AnalyticsView.swift:30 | adding n days moves the calendar day by exactly n and keeps the time of day |
| `Calendar.DayMonotone` | EmotionalFilling/Views/AnalyticsView.swift:25 | a later instant never lies on an earlier calendar day |
| `Calendar.SameDaySameMonth` | EmotionalFilling/ViewModels/MoodViewModel.swift:58 | two instants on the same day are in the same year and month |
| `Calendar.Weekday` | EmotionalFilling/Views/HistoryView.swift:94 | the weekday component lies in 1..7 |
| `Calendar.DaysInMonth` | EmotionalFilling/Views/HistoryView.swift:92 | a month has 28 to 31 days, and 29 exactly for February of a leap year |
| `Calendar.DaysBeforeNextYear` | EmotionalFilling/ViewModels/MoodViewModel.swift:58 | each year starts one year length after the previous one: 366 days for a leap year, 365 otherwise |
| `Calendar.YearDayOf` | EmotionalFilling/ViewModels/MoodViewModel.swift:58 | every day number is the start of the computed year plus a day of year below that year's length |
| `Calendar.YearOfDay` | EmotionalFilling/ViewModels/MoodViewModel.swift:58 | a day lying between the start of a year and the start of the next is placed in that year, so each day has exactly one year |
| `Calendar.CivilFromDays` | EmotionalFilling/ViewModels/MoodViewModel.swift:58 | the year, month and day of a day number form a valid date (month 1..12, day 1 to that month's length) whose day number is the input |
| `Calendar.CivilRoundTrip` | EmotionalFilling/ViewModels/MoodViewModel.swift:58 | converting any valid date to its day number and back gives the same date |
| `Calendar.MonthSpan` | EmotionalFilling/Views/HistoryView.swift:92-93 | an instant is in the month of `d` exactly when its day lies in the month's span of `DaysInMonth` days, starting `DayOfMonth(d) - 1` days before `d`; its day of month counts from 1 at the start of that span |
| `Calendar.FirstOfMonth` | EmotionalFilling/Views/HistoryView.swift:93 | midnight of the day `DayOfMonth(d) - 1` days before `d` lies in `d`'s month and is day 1 of it |
| `Calendar.EpochIsFirstOfJanuary1970` | EmotionalFilling/ViewModels/MoodViewModel.swift:58 | the day-number to year/month/day conversion maps day 0 to 1970-01-01 |
| `Seqs.Filter` | EmotionalFilling/ViewModels/MoodViewModel.swift:57-59 | filtering keeps exactly the elements satisfying the predicate and never lengthens the list |
| `Seqs.FilterMultiplicity` | EmotionalFilling/ViewModels/MoodViewModel.swift:23-25 | each element satisfying the predicate is kept as many times as it occurs, every other element zero times |
| `Seqs.FilterIsSubsequence` | EmotionalFilling/ViewModels/MoodViewModel.swift:23-25 | the filtered list is an order-preserving subsequence of the original |
| `Seqs.SortByKey` | EmotionalFilling/Views/AnalyticsView.swift:10 | sorting returns a permutation of its input in non-decreasing key order |
| `MoodViewModel.Init` | EmotionalFilling/ViewModels/MoodViewModel.swift:6-15 | after `init` the form is empty (no mood, empty comment, date now) and the entries are the decoded stored list, or empty when nothing could be loaded |
| `MoodViewModel.StoredComment` | EmotionalFilling/ViewModels/MoodViewModel.swift:20 | an empty comment is stored as none, a non-empty one verbatim |
| `MoodViewModel.SaveEntry` | EmotionalFilling/ViewModels/MoodViewModel.swift:17-35 | without a selected mood the whole state is unchanged; otherwise the new entry is last, it is the only entry on its day, the length is the old length minus the old entries on that day plus one, the other entries are exactly the old entries on other days in their old order and multiplicity, and the form is reset to no mood, empty comment and the given now |
| `MoodViewModel.FilterKeepsOnePerDay` | EmotionalFilling/ViewModels/MoodViewModel.swift:23-25 | removing entries from a list with one entry per day leaves a list with one entry per day |
| `MoodViewModel.SaveEntryKeepsOnePerDay` | EmotionalFilling/ViewModels/MoodViewModel.swift:23-28 | if the store had at most one entry per calendar day before a save, it has after it |
| `MoodViewModel.ClearAllData` | EmotionalFilling/ViewModels/MoodViewModel.swift:50-53 | clearing leaves no entries and the form fields untouched |
| `MoodViewModel.EntriesForMonth` | EmotionalFilling/ViewModels/MoodViewModel.swift:55-60 | the result holds exactly the entries dated in the given date's year and month, with their multiplicities, as an order-preserving subsequence of the store |
| `MoodViewModel.EntriesForMonthKeepsOnePerDay` | EmotionalFilling/ViewModels/MoodViewModel.swift:55-60 | a month's entries keep the one-entry-per-day invariant of the store |
| `Analytics.NumericValue` | EmotionalFilling/Views/AnalyticsView.swift:136-144 | every mood scores between 1 and 5 |
| `Analytics.NumericValueBijective` | EmotionalFilling/Views/AnalyticsView.swift:136-144 | two moods score the same if and only if they are equal, and every score in 1..5 belongs to some mood |
| `Analytics.FromNumeric` | EmotionalFilling/Views/AnalyticsView.swift:145-153 | an average maps to the mood whose score is the average plus 0.3 rounded down and clamped to 1..5 |
| `Analytics.FromNumericBands` | EmotionalFilling/Views/AnalyticsView.swift:145-153 | the switch's ranges are disjoint and cover all reals: an average maps to a mood exactly when it lies in that mood's band, from 0.3 below its score to 0.7 above it, open-ended at both extremes |
| `Analytics.FromNumericRoundTrip` | EmotionalFilling/Views/AnalyticsView.swift:136-153 | a mood's own score maps back to that mood |
| `Analytics.FromNumericMonotone` | EmotionalFilling/Views/AnalyticsView.swift:145-153 | a higher average never maps to a lower-scoring mood |
| `Analytics.MonthEntries` | EmotionalFilling/Views/AnalyticsView.swift:8-11 | the month's entries are sorted by date, oldest first, and are a permutation of `entriesForMonth(now)` |
| `Analytics.MoodCounts` | EmotionalFilling/Views/AnalyticsView.swift:13-16 | a mood is a key exactly when some entry has it, and the count read with default 0 is the number of entries with that mood |
| `Analytics.OccurrencesPartition` | EmotionalFilling/Views/AnalyticsView.swift:14 | the numbers of entries with each of the five moods add up to the number of entries |
| `Analytics.MoodCountsSumToTotal` | EmotionalFilling/Views/AnalyticsView.swift:86-90 | the five counts of the breakdown card, read with default 0, add up to the number of month entries |
| `Analytics.TotalValue` | EmotionalFilling/Views/AnalyticsView.swift:20 | the sum of n scores lies between n and 5n |
| `Analytics.MeanBounds` | EmotionalFilling/Views/AnalyticsView.swift:21 | a total between n and 5n divided by n lies in [1, 5] |
| `Analytics.AverageMood` | EmotionalFilling/Views/AnalyticsView.swift:18-22 | the average is 0 for no entries; otherwise it times the count equals the total score and it lies in [1, 5] |
| `Analytics.AverageMoodCard` | EmotionalFilling/Views/AnalyticsView.swift:77 | the "Avg Mood" card shows "-" exactly when the month has no entries, and otherwise the emoji of the average's mood |
| `Analytics.NewestFirst` | EmotionalFilling/Views/AnalyticsView.swift:25 | sorting newest first gives a permutation in non-increasing date order |
| `Analytics.Streak` | EmotionalFilling/Views/AnalyticsView.swift:24-38 | the streak is 0 exactly for an empty month and at most the number of entries; for streak k the k newest entries lie on days L, L-1, ..., L-k+1 (L the newest entry's day) and the next entry, if any, is not on day L-k |
| `Analytics.StreakIsUnique` | EmotionalFilling/Views/AnalyticsView.swift:24-38 | the streak characterisation admits only one length for a given list |
| `Analytics.NewestFirstStartsAtLatestDay` | EmotionalFilling/Views/AnalyticsView.swift:25-28 | the streak counts back from the latest day among the month's entries |
| `Analytics.ClearedMonthIsEmpty` | EmotionalFilling/ViewModels/MoodViewModel.swift:50-53 | after clearing, the month entries are empty, every mood count is 0, the average is 0 and the card shows "-" |
| `History.MonthGrid` | EmotionalFilling/Views/HistoryView.swift:91-110 | the grid has firstWeekday-1 leading blanks, then the days 1..n of the month in order, then fewer than 7 trailing blanks, and its length is 7 times the number of weeks needed |
| `History.LayoutOf` | EmotionalFilling/Views/HistoryView.swift:92-94 | the first day shown is at midnight, lies in the selected date's month and is day 1 of it; the first weekday is that day's weekday, in 1..7; the day count is the month's length, 28 to 31 |
| `History.LayoutSpansMonth` | EmotionalFilling/Views/HistoryView.swift:92-93 | the selected month is exactly the `dayCount` consecutive days from `firstOfMonth`, and each of its days is numbered from 1 there |
| `History.GridCellsInMonth` | EmotionalFilling/Views/HistoryView.swift:97-101 | every date cell of the selected month's grid is a day of that month, whose day of month is its position after the leading blanks |
| `History.MonthDaysInGrid` | EmotionalFilling/Views/HistoryView.swift:97-101 | every day of the selected month has a cell in the grid, at its day of month after the leading blanks |
| `History.GridShowsMonth` | EmotionalFilling/Views/HistoryView.swift:91-110 | a grid of the selected month's layout shows exactly the month's days, each in its numbered place |
| `History.MonthGridFor` | EmotionalFilling/Views/HistoryView.swift:91-110 | the grid has one blank per weekday before the month's first day, then the month's days in order, then fewer than 7 blanks up to whole weeks; every date cell is in the selected month at its day-of-month position, and every day of the month has its cell there |
| `History.EntryForDate` | EmotionalFilling/Views/HistoryView.swift:112-116 | the result is none exactly when no entry lies on the day; otherwise it is the first entry in store order on that day |
| `History.EntryForDateIsTheDaysEntry` | EmotionalFilling/Views/HistoryView.swift:112-116 | with one entry per day, the lookup returns that day's entry |
| `History.SavedEntryIsShown` | EmotionalFilling/ViewModels/MoodViewModel.swift:23-28 | right after a save, the lookup for the selected day returns the entry just saved |

## Left out

- Persistence: `saveEntries`, `loadEntries` and the removal of the stored key in `clearAllData` are JSON encoding and `UserDefaults` I/O. `MoodViewModel.Init` takes the decoded list (or none) as a parameter instead.
- Fresh UUIDs and the clock: `UUID()` and `Date()` become the `id` and `now` parameters.
- `Calendar.current`: the model uses the Gregorian calendar in UTC. Other calendars, time zones, daylight-saving shifts and sub-second precision are not modelled.
- Analytics.MonthEntries: does not fix the order of entries with equal dates, because Swift's `sorted(by:)` does not promise one. The model's insertion sort is stable. `Analytics.NewestFirst` is stated the same way for the same reason.
- Analytics.AverageMood and Analytics.FromNumeric: use exact reals, not IEEE `Double`. The cut-offs are exactly 4.7, 3.7, 2.7 and 1.7, and rounding of the division is not modelled.
- The `if let` around `calendar.date(byAdding:)` in `daysInMonth()` always succeeds in the model, so no day is ever dropped from the grid.
- Charts plotting, gradients, sheets, navigation, and the onboarding, today and settings screens: presentation only.
- `AchievementsView` reads `viewModel.userStats`, which the view model does not declare. No points, statistics or achievement engine exists in the code to model.
- `@MainActor` isolation: there is no concurrent logic.
