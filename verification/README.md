# WorkoutRecorder, modelled in Dafny

WorkoutRecorder is a single-page browser app (`app.js`) for logging gym
sessions. You first describe the session: where you train, when, the focus
and the equipment. Then you build a workout as rows of exercises. Each row
has sets of reps × weight. When you finish and save, the app computes the
totals, appends a record to a history kept in local storage, and charts the
history per exercise or as total volume.

The app's logic sits inside DOM event handlers. This project pulls that
logic out as pure functions over immutable datatypes and proves what they
promise:

- `wrappers.dfy`: `Option` and `Result`.
- `seqs.dfy`: sequence toolkit.
  - Order-preserving de-duplication, the way `Array.from(new Set(...))` does it.
  - `filter`, `map` and the `reduce` sums.
  - Counting.
  - Sums and counts are invariant under permutation.
- `numbers.dfy`: `clamp`, `round1`, and the `+field || 0` coercion.
- `text.dfy`: JavaScript `trim` with the exact ECMAScript whitespace set, `split(",")` with its inverse `join`, and `escapeHtml` with a decoder that inverts it.
- `order.dfy`: string order, insertion sort, and uniqueness of strictly sorted lists.
- `catalog.dfy`: the 36-exercise library, the focus/equipment filter and the suggestion list.
- `session.dfy`: the setup form and the session descriptor it produces.
- `workout.dfy`: rows, set pairs, the set-count handler, workout collection, per-exercise figures, session totals and the running footer.
- `history.dfy`: the stored history, append and clear, and "finish and save".
- `projection.dfy`: the history tab, meaning the exercise dropdown and the chart points and table rows.

Modelling choices:

- **Numbers.** Numbers are exact `real`s, not IEEE-754 doubles.
- **Dates.** Dates are integer timestamps.
- **Form fields.** A numeric form field is an `Option<real>`, where `None` means blank or not a number.
- **String order.** `localeCompare` is replaced by code-point lexicographic order.
- **Storage.** The storage slot is `Absent`, `Corrupt` (text that does not parse) or `Stored(history)`.
- **Injected values.** The clock, the random record id and `parseInt` of the sets field are parameters.

Behaviour of the code that the model keeps:

- **Session totals.** `totals.sets` counts set pairs over all entries: one exercise with two pairs counts 2.
- **Changing the set count.** The handler passes no existing pairs to `renderSetPairs`, so every pair comes back blank.
- **Unparseable set count.** `parseInt` of text such as ".5" is `NaN`. `clamp` passes `NaN` through, the field is emptied and no pair is rendered.
- **Rounding.** `Math.round` rounds halves towards +∞, so `round1(-0.25)` is `-0.2`.
- **Sorting.** The history sort reorders only the loaded copy that is charted. The stored history keeps insertion order.

## Model

| member | source | states |
|---|---|---|
| Numbers.Clamp | app.js:539 | The result lies in lo..hi. A value already in range is kept, and one below or above is pulled to the nearer bound. When hi < lo the result is lo. |
| Numbers.Round1 | app.js:540 | The result is a whole number of tenths within 0.05 of the input. |
| Numbers.Round1Idempotent | app.js:540 | Rounding a rounded value changes nothing. |
| Numbers.Round1HalfGoesUp | app.js:540 | Halves round upwards for negative numbers too: 0.25 ↦ 0.3 and −0.25 ↦ −0.2. |
| Text.TrimStartCuts | app.js:156 | Trimming the start keeps a suffix, removes only whitespace, and stops at the first other character. |
| Text.TrimEndCuts | app.js:156 | Trimming the end keeps a prefix, removes only whitespace, and stops at the last other character. |
| Text.TrimIsInfix | app.js:156 | Trimming keeps an infix of the input and cuts only whitespace on either side. The result neither starts nor ends with whitespace. It is empty exactly when the input is all whitespace. |
| Text.Split | app.js:161 | Splitting gives one piece more than there are separators, none of the pieces contains the separator, and joining the pieces restores the input. |
| Text.SplitJoin | app.js:161 | Splitting a join of separator-free pieces gives back those pieces. |
| Text.EscapeHtmlSafe | app.js:541 | The escaped text contains none of `<`, `>`, `"`, `'`. |
| Text.EscapeHtmlPlain | app.js:541 | Escaping never shortens the text. Text without any of the five special characters comes back unchanged. |
| Text.EscapeHtmlAppend | app.js:541 | Escaping a concatenation escapes each part: every character is replaced in place, independently of its neighbours. |
| Text.UnescapeEscape | app.js:541 | Decoding the entities restores the input. So every character survives, in order, and `&` is escaped too. |
| Order.SortNames | app.js:203 | The result is sorted and is a permutation of the input. |
| Order.SortDistinct | app.js:203 | Sorting distinct names gives a strictly increasing list with the same members. |
| Order.StrictlySortedUnique | app.js:203 | Two strictly sorted lists with the same members are equal. |
| Catalog.LibraryNames | app.js:13-61 | There is one name per library exercise, and a string is a name exactly when some exercise carries it. |
| Catalog.Filtered | app.js:195-199 | An exercise passes exactly when it is in the library and both tests hold. The focus test passes when no focus is chosen or a tag is shared. The equipment test passes when no equipment is chosen, a tag is shared, or "Other" is chosen. |
| Catalog.OtherMatchesEverything | app.js:197 | With "Other" chosen and no focus, every library exercise passes the filter. |
| Catalog.Suggestions | app.js:189-203 | The suggestion list is strictly sorted, so it has no duplicates. A name is in it exactly when it is a library name. |
| Catalog.SuggestionsIgnoreSession | app.js:195-203 | Any two sessions get the same suggestion list, so the filter never narrows it. |
| Session.FocusTags | app.js:154-157 | The checked tags are kept in order. "specific muscle" is appended exactly when the specific text is non-blank and the tag is not already checked. The tag is present exactly when it was checked or a specific muscle is named. |
| Session.SpecificMuscleAtMostOnce | app.js:157 | "specific muscle" occurs at most once when it was checked at most once. |
| Session.OtherEquipment | app.js:161 | The extra tags are non-empty. A tag is present exactly when it is the non-blank trim of some comma piece of the text. The tags are the trimmed pieces in the order of the text, repeats included, with blank ones dropped. |
| Session.TrimmedPiecesInOrder | app.js:161 | Trimming the pieces and keeping the non-blank ones is `map(trim)` followed by `filter(Boolean)`, in the order of the pieces. |
| Seqs.DedupKeepsFirstOrder | app.js:162 | De-duplicating through a `Set` keeps the elements in the order of their first occurrence in the input. |
| Session.EquipmentTags | app.js:159-162 | The tags have no duplicates, and each is a checked tag or an extra tag. The empty string appears only if it was checked. When the checked tags are distinct they come first, in their original order. All tags, the extra ones included, appear in the order of their first occurrence in the checked tags followed by the extra tags. |
| Session.BuildConfig | app.js:143-164 | A form without a location is refused. Otherwise the config has that location, the clock time (or the chosen date when there is one), the trimmed specific text, and the focus and equipment tags above. |
| Workout.RenderSetPairs | app.js:266-279 | Builds max(count, 0) pairs. Pair i is `existing[i]` when there is one, otherwise blank. |
| Workout.RenderSetPairsTwice | app.js:266-279 | Rendering m pairs from n rendered ones equals rendering m pairs from the first n original values. Values beyond either count are lost and come back blank. |
| Workout.NewRow | app.js:221-243 | A new row has an empty name and empty notes, so it is not named and saving skips it. It has three blank pairs and shows 3 in its sets field. |
| Workout.ChangeSetCount | app.js:246-250 | A parsed count is clamped to 1..20, and the field shows the number of pairs. An unparseable count (`NaN`) empties the field and leaves no pair. Every pair is blank. Name and notes are unchanged. |
| Workout.Collect | app.js:307-320 | There is one entry per row whose trimmed name is non-empty, and every entry name is non-empty. |
| Workout.CollectKeepsNamedRows | app.js:307-320 | Collecting equals the order-preserving filter of the named rows, each row converted with trimmed name and notes and coerced numbers. |
| Workout.CollectAppend | app.js:309 | Collecting a concatenation collects each part. |
| Workout.Summaries | app.js:329-333 | There is one summary per entry, with the entry's name, its number of pairs, the sum of its reps and the sum of reps × weight. |
| Workout.SessionTotals | app.js:334-338 | Sets is the number of pairs across all entries. Reps is the sum of reps over all pairs. Volume is round1 of the sum of reps × weight over all pairs. |
| Workout.SummariesFlatten | app.js:329-338 | Summing the per-exercise figures equals summing over all pairs. |
| Workout.TotalsIgnoreEntryOrder | app.js:334-338 | Reordering the entries leaves the totals unchanged. |
| Workout.SummaryIgnoresSetOrder | app.js:330-332 | Reordering the sets of an entry leaves its summary unchanged. |
| Workout.BenchPressTotals | app.js:329-338 | Bench press with 10 × 60 and 8 × 65 gives 2 sets, 18 reps and volume 1120. |
| Workout.FooterOverAllPairs | app.js:291-304 | The footer's reps are the sum over every pair of every row, named or not, with blank or non-numeric fields counted as 0. The volume is round1 of reps × weight summed the same way, rounded once at the end. |
| Workout.FooterAgreesWithSave | app.js:287-305 | When every row is named and shows its real number of pairs, the footer equals the totals that saving stores. |
| History.LoadSave | app.js:547-553 | Loading what was saved gives it back, order included. |
| History.CorruptReadsEmpty | app.js:547-550 | Unparseable or missing storage reads as empty. Saving what a cleared store loads leaves the store cleared. |
| History.Append | app.js:351-353 | After appending, the loaded history is the previous one plus the record at the end. A corrupt store is replaced by that one record. |
| History.Clear | app.js:392 | After clearing, the history is empty. |
| History.NewRecord | app.js:341-350 | The record carries the id, the entries and totals computed from them. Config fields are copied, and the defaults "Unknown", now, [] and "" apply when no setup was made or the location is blank. |
| History.FinishAndSave | app.js:322-353 | Saving fails exactly when no row is named, and then the store is unchanged. Otherwise it appends exactly one record, the one `NewRecord` builds from the id, the clock, the setup and the collected entries, with their totals. The per-exercise rows sum to those totals. |
| History.SaveKeepsHistoryInvariant | app.js:322-353 | Saving keeps every record's totals consistent with its entries, and keeps ids distinct when the new id is fresh. |
| Projection.InsertByDateAdds | app.js:427 | Inserting adds exactly that one record. |
| Projection.InsertByDateSorted | app.js:427 | Inserting into a date-ordered list keeps it date-ordered. |
| Projection.SortByDateSorts | app.js:427 | The sorted history is date-ordered and is a permutation of the loaded one. |
| Projection.InsertByDateStable | app.js:427 | Among the records of one date, the inserted record comes after those already there, which keep their order. |
| Projection.SortByDateStable | app.js:427 | The sort is stable: for every date, the records of that date keep the order in which they were saved. |
| Projection.FindEntry | app.js:446 | `find` gives nothing exactly when no entry has the name. Otherwise it gives an entry with that name, and no earlier entry has the name. |
| Projection.BestWeightOf | app.js:448 | The best weight is ≥ 0 and ≥ every set's weight. It is 0 or some set's weight, and it is some set's weight whenever any weight is ≥ 0. With no sets it is 0. |
| Projection.Contribution | app.js:429-462 | With all exercises, a record contributes exactly one sample: the point is its total volume, and the row is "(all)" with its location and its stored sets, reps and volume. With one exercise, it contributes one sample exactly when it has an entry of that name. Samples carry the record's date and location. |
| Projection.ContributionUsesFirstEntry | app.js:444-458 | With one exercise, the sample comes from entry i whenever i is the first entry with the selected name. The plotted value is its best weight or its rounded volume. The row holds the record's date and location, the name, the entry's number of sets, its reps and its unrounded volume. |
| Projection.Samples | app.js:429-462 | With all exercises there is one sample per record. Otherwise there is one per record that has an entry of that name. |
| Projection.SamplesAreContributions | app.js:429-462 | The samples are exactly the contributions of the contributing records (all of them, or those with the exercise), one each, in record order. |
| Projection.SamplesDated | app.js:431-461 | Each sample's point and row share a date, which is the date of one of the records. |
| Projection.SamplesOrdered | app.js:427-462 | Samples of date-ordered records are in date order. |
| Projection.Project | app.js:417-469 | There are as many table rows as points. With all exercises there is one point per stored record. With one exercise there is one point per record that has it, counted on the unsorted history. |
| Projection.ProjectContents | app.js:427-469 | Let r be the date-sorted records that contribute. Point i is the point of r[i]'s sample. Table row n−1−i is r[i]'s row with its volume rounded for display. |
| Projection.ProjectOrder | app.js:427-469 | Points run in ascending date order. Table row i has the date of point n−1−i, so the table is newest first. |
| Projection.ProjectDates | app.js:427-462 | Every point is dated by a stored record. |
| Projection.AllExercisesInDateOrder | app.js:427-441 | Two records saved in either order are charted oldest first, each with its total volume. |
| Projection.AbsentExerciseProjectsNothing | app.js:445-447 | An exercise that no record has gives no points and no rows. |
| Projection.EntryNames | app.js:401 | A name is listed exactly when some record has an entry with it. |
| Projection.ExerciseOptions | app.js:399-407 | The "__ALL__" option comes first. The options after it are strictly sorted, and a name is among them exactly when some record has an entry with it. |
| Projection.Selection | app.js:410-412 | The previous choice is kept exactly when it is still offered. Otherwise the selection falls back to "__ALL__". |
| Projection.RenderHistory | app.js:397-414 | A previous choice that is still offered is charted again, and an exercise chosen that way always has at least one point. Otherwise the view is that of "__ALL__", with one point per stored record. |
| Projection.RestoredExerciseIsCharted | app.js:399-412 | An exercise offered in the dropdown is held by some record, so its chart is never empty. |
| Projection.ClearedHistoryShowsNothing | app.js:390-393 | After clearing, the history tab shows no points and no rows, whatever was selected. |

## Left out

- DOM querying, event wiring, tabs and `selectTab` (app.js:68-121, 525-528): these are user-interface plumbing. The handlers' inputs and outputs are modelled as values instead.
- The summary line, `populateSummaryDialog` and the HTML of the history table: these only render. What they show is `Summaries`, `SessionTotals` and `Displayed`.
- `drawChart`: Chart.js is a foreign library. The model stops at the points handed to it.
- `localStorage` and JSON: the stored history is the abstract `Blob`, and how it is encoded is not modelled.
- Stored text that parses as JSON but is not an array, such as `null` or `{}`: `loadHistory` returns it as is (app.js:548), and the history tab and saving then throw (app.js:401, 352). `Blob` has no such case, so the model does not cover this crash.
- `cryptoRandomId`: the id is a parameter, because randomness and browser crypto are outside the model.
- `formatDateShort` and `formatDateLong`: locale-dependent formatting. Dates are integer timestamps.
- ISO date parsing in the setup handler: the chosen date arrives as an optional timestamp.
- The debounce timer of `computeTotals`: timing only. `Footer` is its result.
- `alert`, `confirm` and `showModal`: user interaction. A refused form or an empty workout is an error value, and a declined "clear" is no call at all.
- `parseInt` of the sets field: its result is a parameter of `ChangeSetCount`, either the parsed integer or `None` for `NaN`.
- `Numbers.Round1`: IEEE-754 rounding errors are not modelled, because the arithmetic is exact real arithmetic.
- `Order.SortNames`: orders by code points, not by the locale rules of `localeCompare`.
- `Projection.Contribution`: the `|| 0` on `rec.totals.volume` guards against a missing or NaN total. Stored totals always exist here, so it is not modelled.
- `Session.EquipmentTags`: equipment values of the checked boxes are page constants, so "no empty tag" is stated as "only if an empty tag was checked".
