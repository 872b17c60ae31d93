# DJFitness workout controller, modelled in Dafny

This project models and proves properties of the workout logic in the DJFitness server controller `server/controllers/User.js`. It covers:

- **addWorkout.** The user's submission text is split on `;` and each segment is trimmed. Each segment is parsed into one workout block: category, name, sets, reps, weight and duration. Each workout gets a calorie estimate. The workouts are then stored: a record keyed by (user, workout name) is overwritten if it exists, and created otherwise.
- **getUserDashboard.** For one day it reports the total calories, the workout count, the average, a per-category pie breakdown and a seven-day trend.
- **getWorkoutsByDate.** It lists the records of one day and sums their calories.

Modules, in dependency order:

| file | module | what it holds |
|---|---|---|
| wrappers.dfy | `Wrappers` | `Option` |
| js_string.dfy | `JsString` | String functions written with ECMAScript semantics. `trim` removes WhiteSpace and LineTerminator code points. Also `substring(1)`, `startsWith("#")`, `indexOf`, and `split` with a string separator. |
| js_number.dfy | `JsNumber` | The global `parseInt` without a radix and `parseFloat`, read exactly: sign, `0x` prefix, longest digit run, fraction, exponent, `Infinity`. Numbers are `NaN`, a finite real, or an infinity. `parseInt` applied to a number truncates toward zero. |
| calories.dfy | `Calories` | `calculateCaloriesBurnt` |
| workout_parser.dfy | `WorkoutParser` | `parseWorkoutLine`, the `forEach` callback and the `forEach` loop as a `while` loop (`ParseEach`) |
| workout_text.dfy | `WorkoutText` | Rendering workouts in the submission format, and the proof that the parser reads back what was rendered |
| workout_store.dfy | `WorkoutStore` | The workout collection as a class `Store` over `seq<Record>`, and the find-or-create loop as a method |
| add_workout.dfy | `AddWorkout` | The whole `addWorkout` handler and what a submission does to the response and the store |
| dashboard.dfy | `Dashboard` | The dashboard figures, the trend loop as a method, and `getWorkoutsByDate` |

Behaviour of the code that the model keeps:

- **Errors do not stop the parse loop.** The `return next(...)` calls for a segment that is not a category or has fewer than five lines run inside the `forEach` callback, so they only end that callback. The loop goes on, and the store loop after it still runs. The client gets the first error passed to `next`. `AddWorkout.ErrorStillStores` proves that such a submission is answered with an error yet still stores its good workouts.
- **A sets line without `sets` throws.** `parts[2].split("sets")[1]` is then `undefined`, and calling `.split("reps")` on it throws a TypeError. The TypeError leaves the `forEach` loop and is caught by the handler's `catch`, so nothing is stored, not even the workouts parsed before it (`AddWorkout.CrashStoresNothing`).
- **The "proper format" branch is dead.** `parseWorkoutLine` never returns `null` for five or more parts, so the branch at line 275 cannot be reached. `ParseEach` marks it with `assert false`.
- **The reps field drops the character after `sets`.** For reps, `substring(1)` drops the first character after `sets`, which in `-5 setsX15 reps` is the `X`.
- **A non-string body value.** A truthy `workoutString` that is not a string (a number, `true`, an array, an object) passes the check at line 242, and `.split` at line 246 then throws a TypeError that the handler's `catch` passes to `next`. The model's `AddWorkout.Body` has a case for such values, answered with that error and no change to the store (`AddWorkout.RejectedUntouched`). A falsy one such as `0`, `false` or `null` gets "Workout string is missing".
- **NaN is modelled.** A field that does not parse is NaN: `None` for sets and reps, `NaN` for weight and duration. A NaN weight or duration gives NaN calories (`None`), and NaN makes every sum it enters NaN. The trend's falsy test maps NaN and 0 to 0.

Time is an integer day index. A record lies in the window of day `d` exactly when its `date` is `d`. A new record is dated `today`. The trend labels use a caller-supplied `dayOfMonth` function in place of `getDate()`. The registered users are a set parameter.

Two consequences of the code that a reader might not expect:

- **The parse does not stop at a malformed segment.** A segment that is not a category, or has fewer than five lines, is reported, and the loop goes on. The good segments are then stored even though the response is an error (`AddWorkout.ErrorStillStores`). The parse is therefore not all-or-nothing.
- **A segment needs newlines.** A submission such as `#Legs;#Squats;#3sets10reps;#60kg;#20min` puts every line in a `;`-segment of its own. Each of the five segments then has one line, so the response is "Workout string is missing for 1th workout", five such errors are passed to `next`, and no block is kept. A workout is one `;`-segment whose lines are separated by newlines, in the form `WorkoutText.EntryLines` renders.

## Model

| member | source | states |
|---|---|---|
| JsString.TrimStart | server/controllers/User.js:246 | The result is a suffix of the input, everything cut off is ECMAScript white space, and the result does not start with white space. |
| JsString.TrimEnd | server/controllers/User.js:246 | The result is a prefix of the input, everything cut off is white space, and the result does not end with white space. |
| JsString.Trim | server/controllers/User.js:246 | `String.prototype.trim`: TrimEnd after TrimStart. TrimSlice, TrimIdentity, TrimIdempotent and TrimTrailing state its properties. |
| JsString.TrimSlice | server/controllers/User.js:246 | `trim` gives a contiguous slice of the input with no white space at either end. |
| JsString.TrimIdentity | server/controllers/User.js:261 | A string with no white space at its ends is left unchanged by `trim`. |
| JsString.TrimIdempotent | server/controllers/User.js:246-261 | Trimming twice is the same as trimming once. A one-line segment is trimmed at line 246 and again as its only part at line 261. |
| JsString.TrimTrailing | server/controllers/User.js:246 | Trailing white space after a trimmed string is removed by `trim`. |
| JsString.IndexOf | server/controllers/User.js:343 | `indexOf` returns the leftmost occurrence of the separator, and nothing when the separator does not occur. |
| JsString.Split | server/controllers/User.js:246 | `split` with a non-empty string separator gives at least one piece. No piece contains the separator, and joining the pieces with the separator gives back the input. |
| JsString.SplitAbsent | server/controllers/User.js:343 | Splitting a string that does not contain the separator gives the string itself (so `split("sets")[1]` is undefined). |
| JsString.SplitLeftmost | server/controllers/User.js:246 | Every cut of `split` is at the first occurrence of the separator in the text that remains. There is one piece exactly when the separator does not occur. |
| JsString.SplitUnique | server/controllers/User.js:246 | Pieces that join to the input, contain no separator and are cut at leftmost occurrences are exactly `split`'s pieces. Together with Split and SplitLeftmost, this fixes what `split` returns. |
| JsString.SplitOverlapping | server/controllers/User.js:343-345 | Overlapping occurrences: `"setsets".split("sets")` is `["", "ets"]`. |
| JsString.SplitAfter | server/controllers/User.js:261 | Split peels off the text before the first separator. |
| JsString.SplitJoin | server/controllers/User.js:246 | Split undoes Join when the separator's first code point occurs in no piece. |
| JsString.NotInJoin | server/controllers/User.js:246 | A code point in neither the separator nor any piece is not in the joined text. |
| JsString.JoinEnds | server/controllers/User.js:246 | Joined text starts with the first piece and ends with the last one. |
| JsString.FilterHash | server/controllers/User.js:248 | The filter keeps only segments starting with `#`. It is empty exactly when no segment starts with `#`. |
| JsString.Substring1 | server/controllers/User.js:261-271 | `substring(1)`: everything after the first code point, and the empty string for the empty string (used in `WorkoutParser.Field` and the category at line 271). |
| JsNumber.DigitRun | server/controllers/User.js:343-348 | The length of the longest digit prefix: those code points are digits and the next one is not. |
| JsNumber.ParseInt | server/controllers/User.js:343-346 | `parseInt` without a radix: skip leading white space, take one sign and a `0x` prefix, then read the longest digit run, or NaN without one. ParseIntDigits and ParseIntDecimal state what it reads back. |
| JsNumber.ParseFloat | server/controllers/User.js:347-348 | `parseFloat`: skip leading white space, take one sign, then read `Infinity` or the longest decimal literal, or NaN. ParseFloatDigits, ParseFloatUnsigned and ParseFloatDecimal state what it reads back. |
| JsNumber.NatToString | server/controllers/User.js:265 | `${count}` has at least one digit and no leading zero, and it reads back as `count`. |
| JsNumber.Trunc | server/controllers/User.js:357-358 | Truncation toward zero, with bounds stated for both signs. |
| JsNumber.DigitRunOf | server/controllers/User.js:343-348 | A digit string followed by a non-digit is read as exactly that digit string. |
| JsNumber.CanonicalNoHexPrefix | server/controllers/User.js:343-346 | A decimal digit string without a leading zero never looks like a `0x` prefix. |
| JsNumber.ParseIntDigits | server/controllers/User.js:343-346 | `parseInt` reads back a canonical digit string that is followed by any non-digit, non-`x` text. |
| JsNumber.ParseIntDecimal | server/controllers/User.js:343-346 | `parseInt(String(n) + rest) == n` for every natural `n`. |
| JsNumber.ParseFloatDigits | server/controllers/User.js:347-348 | `parseFloat` reads back a digit string that is followed by text that cannot continue a number. |
| JsNumber.DecimalDigits | server/controllers/User.js:347-348 | A digit string followed by text that cannot continue a number is a decimal literal with the value of its digits. |
| JsNumber.DigitsUntrimmed | server/controllers/User.js:347-348 | A string starting with a digit is left unchanged by the leading-space skip. |
| JsNumber.ParseFloatUnsigned | server/controllers/User.js:347-348 | For text starting with a digit, `parseFloat` reads an unsigned literal. |
| JsNumber.ParseUnsignedDigits | server/controllers/User.js:347-348 | An unsigned literal with no fraction or exponent has the value of its digits. |
| JsNumber.ParseFloatDecimal | server/controllers/User.js:347-348 | `parseFloat(String(n) + rest) == n` for every natural `n`. |
| JsNumber.NumberToIntIgnoresFraction | server/controllers/User.js:357-358 | `parseInt` of a number is NaN for NaN and the infinities and otherwise its truncation toward zero (`JsNumber.NumberToInt`), so it does not depend on the number's fractional part. |
| Calories.CaloriesBurnt | server/controllers/User.js:356-362 | The estimate is a number exactly when both weight and duration are finite. |
| Calories.CaloriesOfWholeNumbers | server/controllers/User.js:356-362 | For whole numbers the estimate is weight × duration / 10. |
| Calories.CaloriesIgnoreFractions | server/controllers/User.js:356-362 | The fractional parts of weight and duration never change the estimate. |
| Calories.CaloriesBelowOneUnit | server/controllers/User.js:356-362 | A weight or duration below one in magnitude gives 0. |
| Calories.CaloriesBounds | server/controllers/User.js:356-362 | For non-negative inputs the estimate lies between 0 and the untruncated weight × duration / 10. |
| WorkoutParser.ParseWorkoutLine | server/controllers/User.js:338-353 | The result is null exactly when there are fewer than 5 parts. It throws exactly when there are at least 5 parts and the third has no `sets`. |
| WorkoutParser.Field | server/controllers/User.js:343-348 | A field: the text before the first unit, without its first code point, trimmed. WorkoutText.FieldOf states it. |
| WorkoutParser.Parts | server/controllers/User.js:261 | A segment's lines: the newline split, each part trimmed. WorkoutText.PartsOfJoin states what it gives back. |
| WorkoutParser.ParseSegment | server/controllers/User.js:258-289 | What the `forEach` callback contributes for one segment. SegmentClassification states exactly when it is a block, a report or a throw. |
| WorkoutParser.SegmentClassification | server/controllers/User.js:258-289 | A segment yields a block exactly when it starts with `#`, has at least 5 lines and its third line contains `sets`. With only the last condition failing, it throws. Otherwise it is reported missing. The block's category is the first line minus `#`, trimmed. |
| WorkoutParser.Fold | server/controllers/User.js:258-289 | A loop that threw has reported at least one error, and the TypeError is the last one. |
| WorkoutParser.ParseAll | server/controllers/User.js:253-289 | The `forEach` loop over every segment of a submission. ParseEach computes it, and FoldCorrespondence states its blocks, reports and throw. |
| WorkoutParser.CrashIsFinal | server/controllers/User.js:343-345 | Once a segment has thrown, later segments change nothing. |
| WorkoutParser.ParseEach | server/controllers/User.js:253-289 | The loop, with `count`, `currentCategory` and `parsedWorkouts` as loop variables, produces exactly the fold over the segments. |
| WorkoutParser.GoodBlocksSnoc | server/controllers/User.js:282 | The blocks of one more segment are the blocks before it plus its own block, if it has one. |
| WorkoutParser.MissingReportsSnoc | server/controllers/User.js:259-266 | One more reported segment adds a report with its 1-based position. |
| WorkoutParser.FoldCorrespondence | server/controllers/User.js:253-289 | Without a throw, the loop keeps exactly the good segments' blocks, in order, and reports every other segment by its 1-based position. When segment c is the first to throw, the same holds for the segments before c, followed by the TypeError. |
| WorkoutParser.AllGoodBlocks | server/controllers/User.js:282 | Segments that all parse give exactly their blocks and no report. |
| WorkoutParser.NoErrorsAllGood | server/controllers/User.js:253-289 | If no error was reported, nothing threw and every segment gave a block. |
| WorkoutParser.EveryCategoryParsed | server/controllers/User.js:248-289 | If no error was reported, every segment is a category and there is one block per segment. |
| WorkoutParser.AllHash | server/controllers/User.js:248 | The `#` filter keeps a list of categories unchanged. |
| WorkoutText.TrimDigits | server/controllers/User.js:343 | A marker, digits and a space reduce to the digits after `substring(1).trim()`. |
| WorkoutText.FieldOf | server/controllers/User.js:343-348 | The field before a unit is the text before that unit, with its first code point dropped and trimmed. |
| WorkoutText.NoSetsInReps | server/controllers/User.js:344-346 | A reps text without `s` does not contain `sets`. |
| WorkoutText.SetsRepsDigits | server/controllers/User.js:343-346 | `-<d1> setsX<d2> reps` gives sets `d1` and reps `d2`. |
| WorkoutText.QuantityDigits | server/controllers/User.js:347-348 | `-<d> kg` and `-<d> min` give the value of `d`. |
| WorkoutText.SetsRepsLineClean | server/controllers/User.js:261 | The sets/reps line has no newline and no white space at its ends. |
| WorkoutText.QuantityLineClean | server/controllers/User.js:261 | The weight and duration lines have no newline and no white space at their ends. |
| WorkoutText.PartsOfJoin | server/controllers/User.js:261 | Trimmed lines without newlines come back from the newline split and trim. |
| WorkoutText.PartsOfSegment | server/controllers/User.js:261 | A rendered segment splits into exactly its five lines. |
| WorkoutText.LinesRoundTrip | server/controllers/User.js:338-353 | `parseWorkoutLine` reads the five rendered lines back into the entry's name, sets, reps, weight and duration. |
| WorkoutText.SegmentRoundTrip | server/controllers/User.js:258-283 | A rendered well-formed entry parses back to exactly its block, category included. |
| WorkoutText.LinesClean | server/controllers/User.js:246-261 | Every rendered line is free of newlines and `;` and has no white space at its ends. |
| WorkoutText.SegmentWithoutSemicolon | server/controllers/User.js:246 | A rendered segment contains no `;`. |
| WorkoutText.SegmentEnds | server/controllers/User.js:246-248 | A rendered segment starts with `#` and has no white space at its ends. |
| WorkoutText.SubmissionSegments | server/controllers/User.js:246-248 | A rendered submission splits and trims back into its segments, one per entry in order (`WorkoutText.SegmentTexts`), and every one is a category. |
| WorkoutText.TrimAllClean | server/controllers/User.js:246 | Trimming leaves rendered segments unchanged. |
| WorkoutText.SubmissionRoundTrip | server/controllers/User.js:246-289 | A rendered non-empty list of well-formed entries parses into exactly their blocks, in order, with no error. |
| WorkoutText.SegmentsRoundTrip | server/controllers/User.js:258-283 | Every rendered segment parses back to its own entry's block. |
| WorkoutText.ParseAllGood | server/controllers/User.js:253-289 | Segments that all parse give their blocks, in order, with no error and no throw. |
| WorkoutStore.FindKey | server/controllers/User.js:306-309 | `findOne` gives the first record with that user and name, or nothing exactly when there is none. |
| WorkoutStore.SetFields | server/controllers/User.js:312-316 | `$set` writes the parsed fields and calories and keeps the record's user and date. |
| WorkoutStore.NewRecord | server/controllers/User.js:320 | `create` makes a record of the user, dated today, carrying the workout. |
| WorkoutStore.UpsertOne | server/controllers/User.js:306-321 | One pass of the `for...of` loop: `$set` on the found record or `create`. UpsertOneFrame and CountKeyUpsertOne state what it changes. |
| WorkoutStore.UpsertAll | server/controllers/User.js:305-322 | The store after the loop over every block, in order. UpsertFrame, LastBlockWins and NoDuplicateCreated state it. |
| WorkoutStore.Store.constructor | server/controllers/User.js:305 | The store starts with the given records. |
| WorkoutStore.Store.UpdateOne | server/controllers/User.js:313-316 | Exactly the record at the found position is overwritten with `$set`. |
| WorkoutStore.Store.Create | server/controllers/User.js:320 | Exactly one record is appended. |
| WorkoutStore.Store.UpsertWorkouts | server/controllers/User.js:305-322 | The find-or-create loop leaves the store as `UpsertAll` of every block in order. It returns each block with its calorie estimate, in order (`WorkoutStore.EstimateAll`). |
| WorkoutStore.LastNamed | server/controllers/User.js:305-322 | The block chosen for a name is one of the blocks, has that name, and no later block has it. |
| WorkoutStore.CountKeyUpdate | server/controllers/User.js:313-316 | Overwriting with `$set` keeps the number of records of every key. |
| WorkoutStore.CountKeyAppend | server/controllers/User.js:320 | Creating adds one record to the created key only. |
| WorkoutStore.CountKeyFound | server/controllers/User.js:306-310 | `findOne` finds a key exactly when the key has a record. |
| WorkoutStore.FindKeyUpdate | server/controllers/User.js:313-316 | Overwriting with `$set` keeps every later lookup where it was. |
| WorkoutStore.FindKeyUnique | server/controllers/User.js:306-309 | Two stores with the same keys at the same positions have the same lookups. |
| WorkoutStore.FindKeyAppend | server/controllers/User.js:320 | A created record is found only for its own key, and only if that key had no record. |
| WorkoutStore.UpsertOneFrame | server/controllers/User.js:306-321 | One pass keeps the positions, users, dates and names of the old records and leaves other keys untouched. An appended record is the user's, dated today. |
| WorkoutStore.UpsertFrame | server/controllers/User.js:305-322 | Records of other users, or of names not submitted, are unchanged. Every old record keeps its user, date and name. New records are the user's, dated today, with a submitted name. |
| WorkoutStore.LastBlockWins | server/controllers/User.js:305-322 | After the loop every submitted name has a record for the user. That record carries the last block of that name (`WorkoutStore.LastNamed`) with its estimate (`WorkoutStore.Estimate`, as on lines 311 and 319). |
| WorkoutStore.CountKeyUpsertOne | server/controllers/User.js:306-321 | One pass creates a record only for its own key, and only when that key had none. |
| WorkoutStore.NoDuplicateCreated | server/controllers/User.js:305-322 | No key is duplicated. A key with records keeps its count, a submitted name without a record gets exactly one, and every other key keeps its count. |
| AddWorkout.EachWorkout | server/controllers/User.js:246 | The split on `;` gives at least one segment, and every segment is trimmed. |
| AddWorkout.Submit | server/controllers/User.js:238-251 | The response and the new store for one submission: the error for a missing or non-string value, or `SubmitText`. RejectedUntouched and HandleAddWorkout state it. |
| AddWorkout.SubmitText | server/controllers/User.js:242-251 | A string submission: the two emptiness checks, then `Conclude` of the parse. CreatedIffAllParsed and SubmitRoundTrip state it. |
| AddWorkout.Conclude | server/controllers/User.js:292-328 | After the parse loop: a throw stores nothing, and otherwise every kept block is stored and the first error, if any, is the response. CrashStoresNothing, ConcludeLines and ErrorStillStores state it. |
| AddWorkout.HandleAddWorkout | server/controllers/User.js:238-334 | The handler's response and the new store are those of `Submit`. |
| AddWorkout.RejectedUntouched | server/controllers/User.js:238-251 | A missing, empty or falsy value gives "Workout string is missing". A truthy non-string gives the TypeError of calling `split` on it. A string with no `#` segment gives "No categories found". In each case the store is unchanged. |
| AddWorkout.CrashStoresNothing | server/controllers/User.js:343-345 | If any segment throws, the response is an error and the store is unchanged. |
| AddWorkout.FirstCrash | server/controllers/User.js:258-289 | If some segment throws, the loop ends in the thrown state. |
| AddWorkout.CreatedIffAllParsed | server/controllers/User.js:253-328 | The submission succeeds exactly when every segment parses. The response then lists one workout per segment, in order, with its estimate. |
| AddWorkout.ConcludeLines | server/controllers/User.js:253-328 | The same property, stated for a parsed list of segments. |
| AddWorkout.GoodIsCategory | server/controllers/User.js:260 | Only a segment starting with `#` can parse. |
| AddWorkout.ConcludeCreated | server/controllers/User.js:292-328 | The same property, stated for the segment outcomes. |
| AddWorkout.GoodBlocksOfGood | server/controllers/User.js:282 | In a list of good segments, the kept blocks are the segments' blocks and there are no reports. |
| AddWorkout.ErrorStillStores | server/controllers/User.js:258-322 | A good segment followed by a non-category segment gets the error for segment 2, yet the good workout is stored. |
| AddWorkout.GoodThenStray | server/controllers/User.js:246-289 | A rendered segment plus a stray segment parses as one block and one report for position 2. |
| AddWorkout.GoodThenStrayLines | server/controllers/User.js:258-289 | The same property, stated for the two trimmed segments. |
| AddWorkout.FoldPair | server/controllers/User.js:258-289 | A good segment then a reported one give one block and one report. |
| AddWorkout.StraySplit | server/controllers/User.js:246 | Two `;`-free trimmed segments split back apart. |
| AddWorkout.SubmissionNotEmpty | server/controllers/User.js:242-244 | A rendered submission of at least one well-formed workout is not empty, so it passes the emptiness check. |
| AddWorkout.SubmitRoundTrip | server/controllers/User.js:238-328 | Submitting a rendered non-empty list of well-formed workouts is accepted with exactly those workouts and their estimates, in order, and stores them by upsert. |
| Dashboard.DayRecordsMembers | server/controllers/User.js:102-104 | The day's records are exactly the user's records with that date: each such record occurs as often as the store holds it, and every other record not at all. |
| Dashboard.DayRecordsAppend | server/controllers/User.js:102-104 | Matching a store made of two parts gives the first part's matches followed by the second's, so the match keeps store order. |
| Dashboard.DayRecords | server/controllers/User.js:102-104 | The user's records of one day, in store order. DayRecordsMembers states which they are and how often, DayRecordsAppend that the order is the store's. |
| Dashboard.GroupSum | server/controllers/User.js:105-110 | `$sum` of the calories, NaN-absorbing. GroupSumNaN and GroupSumSnoc state it. |
| Dashboard.ReduceCalories | server/controllers/User.js:226-229 | The `reduce` from 0 over the calories. ReduceIsGroupSum states that it equals GroupSum. |
| Dashboard.GroupSumNaN | server/controllers/User.js:105-110 | A `$sum` is NaN exactly when one of its terms is. |
| Dashboard.GroupSumSnoc | server/controllers/User.js:105-110 | The `$sum` can also be taken from the last record backwards. |
| Dashboard.ReduceIsGroupSum | server/controllers/User.js:226-229 | The `reduce` from 0 equals the `$sum` of the same records. |
| Dashboard.DailyTotal | server/controllers/User.js:102-110 | Today's total: the first group's sum, or 0 without records. DailyTotalIsSum states it. |
| Dashboard.WorkoutCount | server/controllers/User.js:113-116 | `countDocuments`: the number of the user's records of the day. WorkoutCountCounts states it; AverageTimesCount uses it. |
| Dashboard.WorkoutCountCounts | server/controllers/User.js:113-116 | The count is 0 for an empty store, 1 for a single record exactly when it is the user's and of that day, and adds up over the two parts of a store: each of the user's records of the day counts once, every other record not at all. |
| Dashboard.AverageCalories | server/controllers/User.js:119-122 | The average: total over count, or 0 without records. AverageTimesCount states it. |
| Dashboard.DailyTotalIsSum | server/controllers/User.js:102-110 | Today's total is the `$sum` of today's records: 0 without records, NaN exactly when a record's calories are NaN. |
| Dashboard.AverageTimesCount | server/controllers/User.js:113-122 | Without records the average is 0, so there is no division by zero. Otherwise it is NaN exactly when the total is, and average × count = total. |
| Dashboard.OtherCategoriesMembers | server/controllers/User.js:125-133 | Removing one category keeps exactly the records of the other categories. |
| Dashboard.PieChart | server/controllers/User.js:125-141 | One slice per category in the given group order, with its index, `$sum` and category. PieChartShape and PieChartSums state it. |
| Dashboard.PieChartShape | server/controllers/User.js:125-141 | One slice per distinct category of today's records, with ids 0..n-1 and distinct labels. Each slice holds the `$sum` of its category. |
| Dashboard.SplitSum | server/controllers/User.js:125-133 | The sum splits into one category's sum plus the rest. |
| Dashboard.OfCategoryOfOthers | server/controllers/User.js:125-133 | Removing a category leaves every other category's records as they were. |
| Dashboard.SliceTotalPeel | server/controllers/User.js:137-141 | The slice total is the first slice plus the total of the rest. |
| Dashboard.PieChartSums | server/controllers/User.js:125-141 | The slice values add up to today's total, whatever order the groups come in. |
| Dashboard.TrendLabels | server/controllers/User.js:143-149 | Seven labels, oldest day first, the last for today. |
| Dashboard.TrendValue | server/controllers/User.js:162-183 | One day's trend figure: the day's `$sum`, or 0 when the day has no records or the sum is falsy. TrendMeaning states it. |
| Dashboard.TrendValues | server/controllers/User.js:143-183 | Seven values, oldest day first, the last for today. |
| Dashboard.WeeklyTrend | server/controllers/User.js:143-183 | For any per-day label and value, the loop from `i = 6` down to `0` pushes exactly the seven labels and values of days `today - 6` to `today`, oldest first. |
| Dashboard.UserTrend | server/controllers/User.js:143-183 | The trend loop, run on one user's records, gives exactly the seven trend labels and values. |
| Dashboard.TrendMeaning | server/controllers/User.js:162-183 | A day with no records, or with a NaN sum, contributes 0; otherwise it contributes its sum. The last entry is today's total unless that is NaN. |
| Dashboard.GetUserDashboard | server/controllers/User.js:81-197 | An unknown user gets "not found"; otherwise the reply holds today's total, count, average, trend and pie data. |
| Dashboard.WorkoutsByDate | server/controllers/User.js:211-231 | An unknown user gets "not found". Otherwise the reply lists the user's records of the requested day (today by default), and their reduce-sum equals the `$sum` and the dashboard's total for that day. |

## Left out

- UserRegister and UserLogin (lines 12–78) are not modelled: they are thin wrappers over bcrypt, jsonwebtoken and database lookups.
- HTTP plumbing is not modelled: status codes, `res.json`, `createError` and `console.log`. Only the error kind and its message (`WorkoutParser.Message`) are kept.
- After an error was sent during the parse loop, the later `res.status(201).json` fails because the headers were already sent. That second error goes to `next` again. The model keeps only what the client receives: the first error.
- Dates, clocks and time zones are not modelled. `new Date()`, `getFullYear`/`getMonth`/`getDate` and the `i * 24 * 60 * 60 * 1000` step, with their calendar and daylight-saving effects, become integer day indices and a `dayOfMonth` parameter. An unparsable `req.query.date` is not modelled.
- Dashboard.WeeklyTrend: within a day the trend's `$group` by `$dateToString` has one group. Under a non-UTC server time zone, one local day can span two UTC dates, and the source then uses only the first group. The model does not capture that split.
- Dashboard.GetUserDashboard: the `$group` by category returns groups in an order the server chooses, so the pie data takes that order as a parameter. The properties hold for every order that lists each category once (`Dashboard.Lists`).
- Dashboard.WorkoutsByDate: the source filters on a field named `userId` (line 223) while records are stored with `user`. What that query matches depends on the Mongoose schema, which is not part of this model. The model takes it to be the user's records of that day.
- Strings are sequences of Unicode code points, while JavaScript strings are sequences of UTF-16 code units. For a character outside the Basic Multilingual Plane, such as an emoji, `substring(1)` (lines 261-271 and 342-348) removes only the first half of its surrogate pair and leaves a lone surrogate. The model removes the whole code point, so `#😀Legs` gets the category `Legs` where the code gives a lone low surrogate followed by `Legs`. Lengths and `indexOf` positions are likewise counted in code points.
- IEEE floating point is not modelled: calories, sums and averages are exact reals. `String(x)` renders very large or very small numbers in exponent notation (so `parseInt(1e21)` is 1), and that is not modelled either: `parseInt` of a number is truncation.
- How the Mongoose schema casts values on `create` and `updateOne` is not modelled, NaN calories included. `models/Workout.js` is not part of this model; records store whatever the parser produced.
- The `findOne`/`create` race between concurrent submissions for the same key is not modelled, because it is about concurrency.
- Database failures inside the store loop are not modelled.
- The dead code is not modelled: the commented-out older `addWorkout`, `parseWorkoutLine` and `calculateCaloriesBurnt` (lines 368 onward) and the commented block at lines 293–302.
- The `await` on `forEach` (line 258) has no effect and is not modelled: the callbacks run synchronously.
