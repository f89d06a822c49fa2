# Volunteer-hours tracker: a verified model

This project models the logic of `widget.js`, a browser widget that logs
volunteer-service sessions ("entries": an activity, a date, the number of
Arrowmen present, the hours each worked, and the total hours). It keeps the
entries in browser storage and shows running totals by month and by year. The
model covers:

- **Key derivation**: `toMonthKey` and `toYearKey`, which take prefixes of the
  date (module `Keys`). It also proves that for ISO `YYYY-MM-DD` dates, text
  order is chronological order.
- **The two descending sorts**: `sortKeysDescending` and the date sort in
  `render` (module `Sorting`, `Widget.SortByDateDesc`). Both are modelled as an
  insertion sort on a sequence, which is a copy, so the input is never reordered.
- **The aggregation fold** in `render`, as a loop over the entries that updates
  two maps (`Summary.Aggregate`). `renderSummaryList` is `Summary.SummaryList`.
- **The persistence adapter**: `saveEntries` and `loadEntries` (module `Storage`).
  Storage is modelled as a slot that holds the parsed JSON value, not the text.
- **The controller**: a `Tracker` class whose `entries` field is `state.entries`.
  It holds a reference to a `Store` object whose `slot` is the browser storage
  entry, which every tracker on the page shares. Its `Submit`, `Clear` and
  `Render` methods are the submit handler, the clear handler and `render`.

Numbers (`arrowmen`, `hours`, `totalHours`) are exact `real`s. Strings are
`seq<char>`, and JavaScript's `<` on strings is `Text.Less`.

The submit handler rejects a submission only when the trimmed activity or the
date is empty, or when a number is not positive (widget.js:197). It does not
check that the participant count is a whole number, or that the hours are at
least 0.25. Those limits exist only as attributes of the form's number inputs
(widget.js:93, widget.js:97), and the model leaves them out as well. The handler
has no guard against not-a-number input either.

## Model

| member | source | states |
|---|---|---|
| Keys.MonthKey | widget.js:13-15 | the month key is exactly the first 7 characters of the date, or the whole date when it is shorter |
| Keys.YearKey | widget.js:17-19 | the year key is exactly the first 4 characters of the date, or the whole date when it is shorter |
| Keys.YearKeyWithinMonthKey | widget.js:13-19 | a date's year key is a prefix of its month key and is the month key's own year key |
| Keys.DigitsOrder | widget.js:22 | digit strings of equal length compare as text exactly as the numbers they spell compare, and are equal exactly when the numbers are |
| Keys.YearKeyOrder | widget.js:21-23 | on ISO dates, year keys compare as text exactly as the years compare |
| Keys.MonthKeyOrder | widget.js:21-23 | on ISO dates, month keys compare as text exactly as (year, month) pairs compare |
| Keys.IsoDateOrder | widget.js:155 | on ISO dates, `a.date < b.date` holds exactly when `a` is earlier in time, so the date sort is chronological |
| Text.Less | widget.js:22 | JavaScript's string `<`, used by both comparators (also widget.js:155): lexicographic order with a proper prefix first, and no string below itself; totality, transitivity and asymmetry are the lemmas below |
| Text.LessTotal | widget.js:22 | the string `<` of the comparators is total: two distinct strings are ordered one way or the other |
| Text.LessTransitive | widget.js:22 | the string `<` of the comparators is transitive |
| Text.LessAtFirstDifference | widget.js:22 | strings that agree up to a position and differ there compare as their characters at that position |
| Text.Trim | widget.js:192 | the trimmed activity is empty exactly when the input is all whitespace; otherwise it is a slice of the input with no whitespace at either end, and every character cut from either end is whitespace |
| Text.TrimIdempotent | widget.js:192 | trimming an already trimmed activity changes nothing |
| Sorting.SortDesc | widget.js:21-23 | the sorted copy is a permutation of its input, of the same length |
| Sorting.SortDescDescending | widget.js:21-23 | the sorted copy is in non-increasing key order under the comparator `a < b ? 1 : -1` |
| Sorting.SortKeysDescending | widget.js:21-23 | `sortKeysDescending` returns a permutation of the keys, and in strictly descending order when the keys are distinct |
| Sorting.StrictlyDescendingUnique | widget.js:21-23 | two strictly descending sequences with the same elements are equal, so the sorted key list does not depend on the input order |
| Summary.SortedKeys | widget.js:26 | the keys of a map, each exactly once, in strictly descending order |
| Summary.SortedKeysIsSortKeysDescending | widget.js:26 | sorting any duplicate-free enumeration of a map's keys with `sortKeysDescending` gives `SortedKeys`, whatever order `Object.keys` uses |
| Summary.SortedPair | widget.js:26 | two keys are listed larger first |
| Summary.SummaryList | widget.js:25-33 | an empty map yields the single "No entries yet." item; otherwise one item per key, keys strictly descending, each key with its own sum |
| Summary.Items | widget.js:31-33 | one item per key, in key order, each carrying that key's value from the map |
| Summary.AddTo | widget.js:180-181 | `m[key] = (m[key] or 0) + hours` adds the key if missing, adds `hours` to its sum, and leaves every other key as it was |
| Summary.AddToKeepsSums | widget.js:177-182 | one step of the fold keeps the invariant: the map holds, for each key among the entries so far, the sum over the entries with that key |
| Summary.Aggregate | widget.js:175-182 | the month map's keys are exactly the month keys of the entries, and each value is the sum of `totalHours` over the entries with that month key; the same holds for the year map |
| Summary.SumsAreTotals | widget.js:175-182 | a map that holds those keys and sums is the `Totals` map of the entries |
| Summary.PeriodTotalAbsent | widget.js:180-181 | a key that no entry has sums to zero |
| Summary.PeriodTotalAppend | widget.js:177-182 | the per-key sum of a concatenation is the sum of the per-key sums of its parts, so one appended entry adds its total to its own key only |
| Summary.PeriodTotalNonNegative | widget.js:180-181 | when no entry has a negative total, no sum is negative |
| Summary.YearKeysFromMonthKeys | widget.js:178-179 | the year keys are exactly the year keys of the month keys |
| Entries.Round2 | widget.js:203 | `Number(x.toFixed(2))` is within half a hundredth of `x`, is a whole number of hundredths, is non-negative for non-negative `x`, rounds a tie away from zero (a tie above zero goes up, one below zero goes down), and leaves a value that is already a whole number of hundredths unchanged |
| Entries.RoundUpHalf | widget.js:203 | rounding to the nearest hundredth with ties going up stays within half a hundredth of the input and gives a whole number of hundredths |
| Entries.Validate | widget.js:192-211 | a submission is rejected exactly when the activity is all whitespace, the date is empty, or either number is not positive; an accepted one yields the trimmed non-empty activity, the other fields as given, and a total rounded from their product |
| Entries.RoundedProductNonNegative | widget.js:197-203 | the total of an accepted submission, whose two factors are positive, is never negative |
| Entries.QuarterHourAccepted | widget.js:197-203 | one Arrowman working 0.25 hours is accepted, with a total of 0.25 |
| Entries.BoundaryRejected | widget.js:197-201 | zero Arrowmen, zero hours, a blank activity or an empty date is rejected |
| Entries.TotalHoursExamples | widget.js:203 | 10 × 2 gives 20 and 3 × 1.33 gives 3.99; 1/3 rounds to 0.33 and 0.125 rounds up to 0.13 |
| Storage.Encode | widget.js:46 | a serialised entry passes the load filter's shape test and decodes to the same entry |
| Storage.EncodeAll | widget.js:46 | the serialised array has one element per entry, each the serialised entry at the same position |
| Storage.KeepEntries | widget.js:55-63 | the filter keeps only shaped elements, and keeps an element exactly when it is in the input and shaped |
| Storage.KeepEntriesAppend | widget.js:55-63 | the filter works element by element and keeps the original order: it distributes over concatenation |
| Storage.KeepEntriesAllShaped | widget.js:55-63 | an array whose elements are all shaped passes the filter unchanged |
| Storage.KeepEntriesIdempotent | widget.js:55-63 | filtering twice is filtering once |
| Storage.Save | widget.js:45-47 | the slot is overwritten with an array holding one element per entry |
| Storage.Load | widget.js:49-67 | a missing, empty, unreadable or unparsable slot, or one that does not hold an array, loads as the empty list; an array loads as at most as many entries as it has elements; `LoadAppend` and `LoadOne` state exactly which entries, in order |
| Storage.DecodeAll | widget.js:55-63 | each kept element becomes, at the same position, the entry it describes |
| Storage.LoadAppend | widget.js:49-67 | loading works element by element and keeps the order: the entries of a concatenated array are the entries of its parts, one after the other |
| Storage.LoadOne | widget.js:55-63 | a one-element array loads as that element's entry when it is shaped, and as nothing otherwise; with `LoadAppend` this fixes what any stored array loads as |
| Storage.DecodeEncodeAll | widget.js:45-67 | every serialised entry is shaped, and decoding the serialised list gives back the list |
| Storage.LoadSave | widget.js:45-67 | saving a list of entries and then loading gives back the same list, in the same order |
| Storage.LoadDropsMalformed | widget.js:55-63 | malformed elements around saved entries are dropped silently, and the entries load in their order |
| Widget.SortByDateDesc | widget.js:155 | the table order is a permutation of the entries in which dates never increase |
| Widget.SortThree | widget.js:155 | three entries whose dates are strictly ordered `b > c > a` are shown as `b, c, a` |
| Widget.NewestFirstExample | widget.js:155 | entries dated 2023-01-15, 2024-03-01 and 2023-12-25 are shown as 2024-03-01, 2023-12-25, 2023-01-15 |
| Widget.TwoYearKeys | widget.js:179 | the year keys of three entries whose first and last share a year are the year keys of the first two, and there are exactly two of them when those two years differ |
| Widget.YearsNewestFirst | widget.js:179-185 | three entries over two years, the middle one in the later year, list that year first and the earlier year second |
| Widget.YearsNewestFirstExample | widget.js:184-185 | for those entries the year summary lists 2024 before 2023 |
| Widget.TableRows | widget.js:155-173 | no entries give the single placeholder row; otherwise one row per entry, holding a permutation of the entries with non-increasing dates |
| Widget.EmptyView | widget.js:154-186 | with no entries the table and both summary lists show only their placeholders |
| Widget.Store.constructor | widget.js:51 | a storage slot starts with whatever the browser holds |
| Widget.Tracker.constructor | widget.js:75-77 | a new tracker's entries are what `loadEntries` finds in the shared slot |
| Widget.Tracker.Submit | widget.js:188-213 | a submission is accepted exactly when it validates; a rejected one changes neither the list nor the slot; an accepted one appends exactly its one entry after the unchanged earlier entries, and the slot then holds the new list and loads back as it |
| Widget.Tracker.Clear | widget.js:221-223 | the list and the slot are both emptied; the slot then loads as the empty list |
| Widget.Tracker.Render | widget.js:154-186 | the view is the date-sorted table and the summary lists of the month and year totals of the entries; with no `modifies` clause, it cannot change the list, its order or the slot |

## Left out

- DOM construction, the `innerHTML` templates, `querySelector`, event-listener wiring, `form.reset()` and the message texts. These are UI plumbing. `initVolunteerHoursTracker` returning early when the container is missing is left out for the same reason.
- `formatDate` and `monthLabel`: they wrap `Date` and `Intl.DateTimeFormat`, whose output is not part of the model. A summary item carries its raw key; a table row carries its raw entry.
- Widget.Tracker.Render: its view is what the page shows only when every stored date, and every month key taken from one, parses as a date. The load filter accepts any string as a date (widget.js:59). For a date that does not parse, such as `""`, `formatDate` builds an Invalid Date and `Intl.DateTimeFormat.format` throws a `RangeError` (widget.js:4-11, widget.js:164). `monthLabel` throws the same way on a key such as `""` (widget.js:36-43). `render` then stops before it writes the table, or before it writes the summaries. The page keeps showing stale content, and on the first render the exception escapes `initVolunteerHoursTracker`. The model does not capture this failure.
- Number formatting of the sums in the summary list (`${summaryMap[key]} hrs`) is left out.
- `Number(...)` parsing of the form fields: the model takes the numbers as already parsed. It does not model not-a-number, which passes the `<= 0` checks in the source. Browser number inputs normally give the empty string, which parses to 0 and is rejected.
- Floating point: products, `toFixed(2)` and the summed totals are exact reals. `Entries.Round2` rounds the exact product, not the nearest double, and the sums have no float drift. A product that overflows, such as `1e200 × 1e200`, becomes `Infinity`, which `JSON.stringify` writes as `null`. That entry then fails the shape test and is dropped on the next load. `Storage.LoadSave` holds only because the model uses exact reals.
- `JSON.stringify` and `JSON.parse` as text: the slot holds the parsed value. The model assumes that serialising and then parsing finite numbers and strings gives them back unchanged.
- Storage write failures, such as an exceeded quota, are not modelled: `Storage.Save` always succeeds.
- Storage.Load: returns records of the five entry fields. The source keeps the stored objects whole, including any extra fields, and writes those fields back on the next save.
- Widget.SortByDateDesc: does not say how entries with equal dates are ordered. The source's comparator never returns 0, so that order depends on the engine. The model's sort keeps such entries in list order.
- Text.Less: compares Unicode code points, while JavaScript compares UTF-16 code units. The two differ only for characters outside the Basic Multilingual Plane. The same holds for Keys.Prefix, and so for `Keys.MonthKey` and `Keys.YearKey`: `slice(0, n)` counts UTF-16 code units and the model counts code points. They differ only on a hand-edited stored date that has such a character among its first seven.
- Summary.AddTo: starts from an empty map. JavaScript's `{}` inherits properties, so a hand-edited date whose month key is `valueOf` would read an inherited function instead of `undefined`. Only stored data can produce such a key; the date input cannot.
- The `maxlength`, `min` and `step` attributes of the form inputs are enforced by the browser, not by the handler, and are not modelled.
- Re-initialising a container twice is not modelled. Two `Tracker`s sharing one `Store` show the last-write-wins behaviour of a shared slot (`Widget.SharedSlotLastWriteWins`).
