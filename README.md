# FlexTrack workout log and dashboard, in Dafny

FlexTrack is a fitness-tracking backend. A user posts a plain-text workout
log, and the backend turns it into workout records. It also serves a
dashboard of the day's calories and workouts, a per-category pie chart and a
seven-day trend. This project models the logic of
`src/controllers/userController.js` and proves properties of it. That logic
consists of:

- the parse loop of `workoutController`;
- the calorie estimate `calculateCaloriesBurnt`;
- the unused helper `parseWorkoutLine`;
- the arithmetic of `getUserDashboard` and `getWorkoutByDate`.

The record shape follows `src/models/workoutModel.js`.

Modules, one concept each:

- `Wrappers`: `Option` and `Result`. In this model NaN and `undefined` are `None`, and an HTTP error is `Err`.
- `Text`: JavaScript string operations.
  - `trim`, defined over JavaScript's white-space set.
  - `startsWith`.
  - `split(sep)[0]` as `Before`, and `split(sep)[1]` as `Between`. `split(sep)[1]` is the piece between the first and second separator, or `undefined`.
  - `split("\n")` as `SplitLines`, proved to undo `JoinLines`.
- `JsNumbers`: `parseInt` and `parseFloat` with JavaScript's prefix rules, plus decimal rendering of whole numbers and of decimals with a fraction.
  - `parseInt` skips leading white space and takes one sign. A `0x`/`0X` prefix switches to hexadecimal. It then takes the longest digit prefix.
  - `parseFloat` reads digits, a fraction and an exponent.
- `Calories`: `toFixed(2)` as rounding half away from zero to hundredths, and the calorie formula.
- `Workouts`: the stored record.
- `WorkoutParser`: the parse loop, proved against a specification function.
  - The loop is the method `ParseLines`.
  - The specification is `Scan`, a recursive function over the trimmed lines.
  - Also here: `parseWorkoutLine` and the error messages.
- `LogGrammar`: an independent description of a successful log, as a list of items. An item is a category line or a four-line entry block. This module proves:
  - the scan accepts exactly the renderings of item lists;
  - it yields one record per entry block, carrying the last category named before the block;
  - where it fails, it fails with the exact error.
- `EntryFields`: the number fields.
  - Lines in the intended format ("3setsX10reps", "50kg", "62.5kg", "20min") read back to the numbers written in them; weights and durations may carry a decimal fraction.
  - Other spellings parse as stated, e.g. "3X10" and "0X10".
- `WholeLogs`: end to end. A one-entry log parses to the record it describes. Cut short, it fails as incomplete.
- `Dashboard`:
  - the day filter, `$sum` and the `reduce` fold;
  - the count and the guarded average;
  - groups by category and the pie chart;
  - the seven-day trend loop;
  - the two endpoints with their user checks.

The sets/reps line is meant to look like "<sets>setsX<reps>reps". A looser
spelling "<sets>X<reps>", such as "3X10", is sometimes described as two
integers, 3 sets of 10 reps. The code disagrees, and the model follows the
code. The code splits on the literal "setsX", so "3X10" gives 3 sets, from
`parseInt`'s digit prefix, and 0 reps, because `split("setsX")[1]` is
undefined (`LooseSetsReps`, `LooseEntry`). The code also keeps parsing
after a number it cannot read: any unparsable count or amount becomes 0.

## Model

| member | source | states |
|---|---|---|
| Text.Trim | src/controllers/userController.js:97 | The trimmed line has no JavaScript white space at either end |
| Text.StartsWith | src/controllers/userController.js:104-107 | The one-character `startsWith` tests that tell a category line from an entry line; StartsWithHead states its meaning |
| Text.StartsWithHead | src/controllers/userController.js:104-107 | A line starts with the character exactly when it is that character followed by the rest of the line |
| Text.TrimPadded | src/controllers/userController.js:97 | Trimming white space + m + white space, with m trimmed, gives exactly m |
| Text.TrimIdempotent | src/controllers/userController.js:116-118 | Trimming twice is trimming once, so the entry branch re-trimming lines already trimmed on splitting changes nothing (RetrimChangesNothing) |
| Text.FirstEnd | src/controllers/userController.js:120 | The end of `split(sep)[0]`: no separator occurs before it, and one starts there exactly when it is inside the string |
| Text.Before | src/controllers/userController.js:120-123 | `split(sep)[0]`, the text before the first separator; its meaning is stated by FirstEnd, BeforeIsPrefix and BeforeHead |
| Text.BeforeIsPrefix | src/controllers/userController.js:120-123 | `split(sep)[0]` is the longest prefix in which no separator starts, followed by a separator unless it is the whole string |
| Text.Between | src/controllers/userController.js:121 | `split(sep)[1]` is undefined exactly when the separator does not occur; BetweenIsPiece states what it holds otherwise |
| Text.BetweenIsPiece | src/controllers/userController.js:121 | When the separator occurs, `split(sep)[1]` is the text from the end of its first occurrence up to the next occurrence, none starting inside it, or up to the end of the string |
| Text.BetweenMiddle | src/controllers/userController.js:121 | With a second separator, `split(sep)[1]` of head + sep + mid + sep + rest is exactly mid |
| Text.BeforeHead | src/controllers/userController.js:120 | When the head lacks the separator's first letter, `split(sep)[0]` of head + sep + rest is the head |
| Text.BetweenRest | src/controllers/userController.js:121 | `split(sep)[1]` of head + sep + rest is rest when rest holds no separator |
| Text.SplitLines | src/controllers/userController.js:97 | `split("\n")` yields at least one piece, no piece holds a line feed, and joining the pieces gives back the string |
| Text.SplitJoin | src/controllers/userController.js:97 | Splitting joined line-feed-free pieces gives back the pieces |
| Text.SplitLinesTrailingNewline | src/controllers/userController.js:97 | A trailing line feed adds exactly one empty last line |
| JsNumbers.DigitCount | src/controllers/userController.js:120-121 | `parseInt` reads the longest prefix of digits below the radix |
| JsNumbers.NatToString | src/controllers/userController.js:207 | A decimal rendering is non-empty, all digits, with no leading zero |
| JsNumbers.ValueOfNatToString | src/controllers/userController.js:120 | The digits of a rendering denote the number rendered |
| JsNumbers.ParseIntRoundTrip | src/controllers/userController.js:120-121 | `parseInt` reads back every decimal integer rendering, negative ones included |
| JsNumbers.ParseIntPrefix | src/controllers/userController.js:120-121 | `parseInt` stops at the first non-digit: a rendering followed by a non-digit reads as the number |
| JsNumbers.ParseFloatPrefix | src/controllers/userController.js:122-123 | `parseFloat` reads a whole-number rendering followed by text that cannot continue a literal as that number |
| JsNumbers.DecimalToString | src/controllers/userController.js:122-123 | A decimal rendering starts with a digit and, for a valid decimal, ends with one |
| JsNumbers.DecimalValue | src/controllers/userController.js:122-123 | The value of a decimal: its whole part plus its fraction digits moved right of the point; DecimalValueSplit states it as a quotient |
| JsNumbers.DecimalValueSplit | src/controllers/userController.js:122-123 | A decimal's value is its whole part plus its fraction digits over 10 to the fraction's length |
| JsNumbers.MantissaValue | src/controllers/userController.js:122-123 | All the digits of a decimal, read as one number and moved right by the fraction's length, denote the decimal |
| JsNumbers.ParseFloatDecimal | src/controllers/userController.js:122-123 | `parseFloat` reads back every decimal rendering, fraction included: "62.5" gives 62.5 |
| JsNumbers.DecimalExample | src/controllers/userController.js:122-123 | "62.5" is the rendering of the decimal 62.5 |
| JsNumbers.ParseInt | src/controllers/userController.js:120-121 | `parseInt` without a radix: leading white space, one sign, a `0x` prefix for base 16, then the longest digit prefix, NaN without digits; ParseIntRoundTrip, ParseIntPrefix and LooseZeroIsHex state what it reads |
| JsNumbers.ParseFloat | src/controllers/userController.js:122-123 | `parseFloat`: leading white space, one sign, then the longest decimal literal, NaN without one; ParseFloatDecimal and ParseFloatPrefix state what it reads |
| Calories.ToFixed2 | src/controllers/userController.js:311 | `toFixed(2)` yields whole hundredths within half a hundredth of the input, an exact half going away from zero, and keeps the sign |
| Calories.ToFixed2Unique | src/controllers/userController.js:311 | The contract of `ToFixed2` has exactly one solution, so it determines the rounding completely |
| Calories.ToFixed2Exact | src/controllers/userController.js:311 | A value already in hundredths is left unchanged |
| Calories.ToFixed2Idempotent | src/controllers/userController.js:311 | Rounding twice is rounding once |
| Calories.CaloriesBurnt | src/controllers/userController.js:307-312 | The estimate is minutes × 5 × (kg / 10) rounded to hundredths, an exact half going away from zero, NaN or missing meaning 0; it is 0 when either reading is 0 and non-negative for non-negative readings |
| Calories.CaloriesOfDefaults | src/controllers/userController.js:308-309 | Only the defaulted readings matter: a missing value estimates as 0 does |
| Calories.CaloriesExample | src/controllers/userController.js:307-312 | 20 minutes at 50 kg is 500 calories |
| WorkoutParser.MapSeq | src/controllers/userController.js:97 | `map` keeps the length and applies the function at every position |
| WorkoutParser.LinesOf | src/controllers/userController.js:97 | Splitting on line feeds and trimming gives at least one line, each without white space at either end; LinesOfJoin reads joined lines back |
| WorkoutParser.RetrimChangesNothing | src/controllers/userController.js:116-118 | Trimming a line of the split body again leaves it as it is |
| WorkoutParser.CategoryName | src/controllers/userController.js:106 | The category named by a `#` line is trimmed and shorter than the line |
| WorkoutParser.CategoryNamePadded | src/controllers/userController.js:106 | The category of "#" + white space + name + white space is the name |
| WorkoutParser.SetsOf | src/controllers/userController.js:120 | `parseInt` of the part before the first separator; CountsCanonical, LooseSetsReps and StrictSets state what it reads |
| WorkoutParser.RepsOf | src/controllers/userController.js:121 | `parseInt` of the part between the separator and "reps", NaN when the separator is missing; CountsCanonical, LooseSetsReps and StrictReps state what it reads |
| WorkoutParser.AmountOf | src/controllers/userController.js:122-123 | `parseFloat` of the part before the unit; AmountCanonical states that it reads back every decimal amount |
| WorkoutParser.Message | src/controllers/userController.js:93-143 | The four error texts of the parse: missing string (93), incomplete entry naming the category (112), unexpected line naming it (138), no workouts (143); MessageInjective states they tell the failures apart |
| WorkoutParser.MessageInjective | src/controllers/userController.js:93-143 | Distinct parse failures get distinct error texts, so the text names the failing check and the category or line involved |
| WorkoutParser.EntryRecord | src/controllers/userController.js:115-133 | An entry's record carries the user, the current category, the date of insertion, the trimmed name after the marker, and the calories of its own parsed duration and weight |
| WorkoutParser.ParseWorkoutLine | src/controllers/userController.js:286-303 | `parseWorkoutLine` gives details exactly when it has at least five parts, and null otherwise |
| WorkoutParser.Finish | src/controllers/userController.js:142-144 | The request succeeds exactly when the scan succeeds with at least one entry, yielding one record per entry |
| WorkoutParser.ParseLog | src/controllers/userController.js:92-94 | A missing or empty workout string fails before any scan, and a success holds at least one record |
| WorkoutParser.Scan | src/controllers/userController.js:102-140 | The `for` loop from a given line with a given current category; a success has at most one entry per four lines; ScanSucceeds, ScanRender and ScanFails characterize it |
| WorkoutParser.RecordsOf | src/controllers/userController.js:125-142 | The `parsedWorkouts` list the loop pushes to and the handler stores: one record per entry, in order; RecordsOfAppend and Finish state how it is built and returned |
| WorkoutParser.RecordsOfAppend | src/controllers/userController.js:125 | Pushing one more record appends that entry's record to the list |
| WorkoutParser.ParseWorkoutLog | src/controllers/userController.js:89-144 | The request handling up to insertion computes the parse result of its body |
| WorkoutParser.ParseLines | src/controllers/userController.js:98-144 | The cursor loop returns the scan's records, or the scan's error, or the no-valid-workouts error when the scan found no entry |
| LogGrammar.ScanRender | src/controllers/userController.js:102-140 | Scanning a rendered log followed by more lines yields the items' entries, then whatever the rest yields under the category left in force |
| LogGrammar.Decompose | src/controllers/userController.js:102-140 | Every list of lines is a rendering followed by nothing, or by lines on which the scan is stuck |
| LogGrammar.ScanSucceeds | src/controllers/userController.js:102-140 | The scan succeeds exactly on the renderings of item lists |
| LogGrammar.ScanFails | src/controllers/userController.js:111-113 | A rendering followed by stuck lines fails at the first stuck line, with the category the rendering leaves in force |
| LogGrammar.EntriesOfAppend | src/controllers/userController.js:99 | The entries, the final category and the entry count of a concatenation compose from those of its parts |
| LogGrammar.EntriesCount | src/controllers/userController.js:125-136 | There is one entry per entry block |
| LogGrammar.CategoryAfterIsLast | src/controllers/userController.js:99 | The category in force after some items is the name of the last category line, or the starting category |
| LogGrammar.EntryCategory | src/controllers/userController.js:127 | Each entry block yields the entry at its position among the blocks, carrying the last category named before it |
| LogGrammar.ParseLogAccepts | src/controllers/userController.js:97-144 | A body whose lines render some items gives those items' records, or the no-valid-workouts error when there is no entry block |
| LogGrammar.ParseLogRejects | src/controllers/userController.js:111-113 | A body whose lines are a rendering followed by stuck lines fails with the error of the first stuck line, with no records |
| LogGrammar.LinesOfTrailingNewline | src/controllers/userController.js:97 | A trailing line feed adds one empty trimmed line |
| LogGrammar.TrailingLineFeedRejected | src/controllers/userController.js:137-139 | Every accepted body is rejected with a trailing line feed appended: the empty last line has neither marker |
| LogGrammar.FollowLinesUnchecked | src/controllers/userController.js:109-136 | The three lines after an entry line are consumed as fields even when they carry `#` or `-` |
| EntryFields.CountsCanonical | src/controllers/userController.js:120-121 | "<a>setsX<b>reps" gives sets a and reps b; "<a>sets<b>reps" gives the same under the "sets" split |
| EntryFields.AmountCanonical | src/controllers/userController.js:122-123 | "<x>kg" and "<x>min" give the decimal x, whole ("50kg") or with a fraction ("62.5kg") |
| EntryFields.EntryCanonical | src/controllers/userController.js:115-133 | A block in the intended format yields exactly the counts and the decimal weight and duration written in it, the name after the marker, and the calories for that weight and duration |
| EntryFields.WorkoutLineCanonical | src/controllers/userController.js:290-299 | `parseWorkoutLine` on parts in its own format returns the counts and the decimal weight and duration written in them |
| EntryFields.LooseSetsReps | src/controllers/userController.js:120-121 | A line "<a>X<b>" with a > 0, such as "3X10", has no "setsX": the sets are a and the reps part is undefined |
| EntryFields.LooseEntry | src/controllers/userController.js:120-130 | An entry whose sets/reps line is "<a>X<b>" with a > 0 is stored with a sets and 0 reps |
| EntryFields.LooseZeroIsHex | src/controllers/userController.js:120-121 | With 0 sets the loose line starts "0X", which `parseInt` takes for a hexadecimal prefix: "0X<b>" gives the digits of b read in base 16 as the sets ("0X10" gives 16), and no reps |
| EntryFields.NoNumber | src/controllers/userController.js:120-123 | A line that opens with a letter other than a sign or point holds no number for `parseInt` or `parseFloat`, other than `Infinity` (listed under Left out) |
| EntryFields.VocabulariesDisagree | src/controllers/userController.js:120-121 | On every "<a>setsX<b>reps" line the parse loop reads both counts, while `parseWorkoutLine`'s "sets" split reads the sets and loses the reps |
| EntryFields.UnparsableFieldsAreZero | src/controllers/userController.js:120-133 | An entry whose number lines hold words, other than `Infinity` (listed under Left out), still yields a record, with sets, reps, weight, duration and calories all 0 |
| WholeLogs.LinesOfLog | src/controllers/userController.js:97 | Splitting and trimming a one-entry log gives back its five lines |
| WholeLogs.ParseOneEntryLog | src/controllers/userController.js:89-144 | A well-formed one-entry log, with whole or decimal weight and duration, parses to exactly the record it describes |
| WholeLogs.ParseTruncatedLog | src/controllers/userController.js:109-113 | That log cut after its sets/reps line fails as incomplete for its category |
| Dashboard.Status | src/controllers/userController.js:162-168 | Both failures, a missing id (400) and an unknown user (404), are answered with a client-error status |
| Dashboard.OnDay | src/controllers/userController.js:176-184 | The day filter keeps exactly the user's records dated that day |
| Dashboard.OnDayCounts | src/controllers/userController.js:181-184 | The day filter keeps each matching record exactly as often as the store holds it and no other record, so its length is the count `countDocuments` returns |
| Dashboard.TotalCalories | src/controllers/userController.js:178 | The `$sum` of the estimates; TotalAppend, TotalBounds and ReduceIsTotal state its properties |
| Dashboard.Reduce | src/controllers/userController.js:273-276 | The left fold of `getWorkoutByDate`; ReduceIsTotal states it equals the `$sum` |
| Dashboard.TotalAppend | src/controllers/userController.js:178 | The `$sum` of two lists is the sum of their sums |
| Dashboard.ReduceIsTotal | src/controllers/userController.js:273-276 | The left fold from a start value is the start plus the `$sum` |
| Dashboard.TotalNonNegative | src/controllers/userController.js:178 | With no negative estimate, no total is negative |
| Dashboard.DayAggregate | src/controllers/userController.js:176-179 | The `_id: null` group gives no document for an empty day, and otherwise one document holding the day's sum |
| Dashboard.DayTotalIsSum | src/controllers/userController.js:228 | The reported total is the day's sum, 0 for an empty day, and equals the by-date fold |
| Dashboard.DayTotal | src/controllers/userController.js:228 | The reported total: the aggregate's sum, or 0 for no document; DayTotalIsSum states it is the day's sum |
| Dashboard.Average | src/controllers/userController.js:186-188 | The average times the count is the total when there are workouts, and it is 0 when there are none |
| Dashboard.TotalBounds | src/controllers/userController.js:178 | A total lies between count × least and count × greatest estimate |
| Dashboard.AverageBounds | src/controllers/userController.js:186-188 | On a non-empty day the average lies between the least and the greatest estimate |
| Dashboard.Categories | src/controllers/userController.js:192 | Each category present appears once, and no other appears |
| Dashboard.OfCategory | src/controllers/userController.js:192 | A category's group holds exactly the records of that category |
| Dashboard.GroupsFor | src/controllers/userController.js:190-193 | There is one group per category, holding that category's sum |
| Dashboard.CategoryGroups | src/controllers/userController.js:190-193 | The `$group` by category over the day's records; CategoryGroupsSum and PieChartOfDay state its contents |
| Dashboard.CategoryTotalSnoc | src/controllers/userController.js:192 | One more record adds its estimate to its own category's sum only |
| Dashboard.GroupsSnoc | src/controllers/userController.js:192 | One more record adds its estimate to the group total exactly once when its category has a group |
| Dashboard.GroupsCover | src/controllers/userController.js:190-193 | Groups over distinct categories that cover every record sum to the whole total |
| Dashboard.CategoryGroupsSum | src/controllers/userController.js:176-193 | The category groups use the daily filter and sum to the day's total |
| Dashboard.PieChart | src/controllers/userController.js:195-199 | There is one slice per group |
| Dashboard.PieTotalIsGroupSum | src/controllers/userController.js:195-199 | The slice values sum to the group totals |
| Dashboard.PieChartOfDay | src/controllers/userController.js:190-199 | Slices are numbered 0, 1, …, one per category present and no other label; each value is its category's sum, and the values add up to the day's total |
| Dashboard.DayLabel | src/controllers/userController.js:207 | The label "<day of month>th"; DayLabelReadsBack and DayLabelInjective state that it identifies the day |
| Dashboard.DayLabelReadsBack | src/controllers/userController.js:207 | A trend label reads back to its day of the month |
| Dashboard.DayLabelInjective | src/controllers/userController.js:207 | Distinct days of the month get distinct labels |
| Dashboard.WeeklyTrend | src/controllers/userController.js:201-224 | The trend holds 7 labels and 7 values, from six days ago to today; each value is that day's sum, 0 for an empty day |
| Dashboard.WeekDays | src/controllers/userController.js:204-217 | The loop from six days ago to today pushes 7 labels, the k-th the label of the k-th day of the week, and issues one query per day, the k-th for that day |
| Dashboard.AwaitAll | src/controllers/userController.js:220 | `Promise.all` resolves the pending queries in order, the k-th to the aggregate of the k-th day |
| Dashboard.ReportedTotals | src/controllers/userController.js:219-224 | The values read off the awaited queries of the week are the sums of the user's records on its days |
| Dashboard.DayTotals | src/controllers/userController.js:222-224 | Each awaited aggregate becomes its sum, or 0 when it holds no document |
| Dashboard.UserDashboard | src/controllers/userController.js:159-236 | A missing id and an unknown user fail. Otherwise the response holds today's sum, count and guarded average, the pie chart of today's category groups, and the trend, whose last value is today's total |
| Dashboard.WorkoutsByDate | src/controllers/userController.js:243-279 | An unknown or missing user fails as not found. Otherwise the response holds the user's workouts on the queried day, or today, and their folded total |
| Dashboard.ByDateAgreesWithDashboard | src/controllers/userController.js:228 | Today's by-date total equals the dashboard's total |

## Left out

- `loginController`, `registerController`, the blog controller, the routes and the server: these are password hashing, token signing, Express wiring and store calls, with no local logic.
- The store. Several behaviours belong to it, and the model does not represent them:
  - `insertMany(..., {ordered: false})`;
  - the unique index on user, category and name;
  - schema validation of required fields, such as an empty category;
  - the `timestamps` fields.
- Storage is modelled instead as the records the parse returns. The insertion date is a parameter `now`.
- Dates and time zones. A record's date is a day number in local time, and the day window is that number. Three things are parameters or left out:
  - the moment the request is served, which is a parameter `today`;
  - the calendar behind `getDate()`, which is a parameter function `dayOfMonth`;
  - days that are not 24 hours long near daylight-saving changes; the model does not cover these.
- Store order and query order:
  - The order of the `$group` by category is the store's and is unspecified. The model takes categories in the order first seen. Every pie-chart lemma except slice numbering holds for any order.
  - `find` is modelled as returning matching records in store order.
- `Promise.all`: a pending query is represented by the day it asks about, and `AwaitAll` resolves the seven in index order. Concurrency is not modelled.
- IEEE doubles become Dafny reals. Overflow, precision and the value `-0` are not modelled.
- `parseFloat("Infinity")` is not modelled. It gives no number here.
- `toFixed(2)`:
  - It returns a string, which the store casts back to a number; the model returns the number directly.
  - Its rounding of binary doubles is modelled as exact rounding half away from zero on reals.
- User identifiers: `req.user?.id` is an `Option` of an opaque id, with falsy ids as `None`. The known users are a set parameter, and `findById` is membership in it.
- A parse with no user id is left to the store's validation.
- Request bodies whose workout string is not a string, query dates that do not parse, thrown store errors (the 500 path) and `console.log`: these are left out because they only involve I/O or JavaScript dynamic typing.
- `Text.Trim`: its contract states only that the result is trimmed. That the result is the input with its white-space ends removed is stated by `Text.TrimPadded`, for inputs given as padding + middle + padding.
- `EntryFields.AmountCanonical`: its read-back covers amounts written as digits with an optional fraction. An exponent ("6.25e1kg"), a sign, or a bare trailing point ("62.kg") is parsed by the model of `parseFloat`, but no lemma reads such a line back.
