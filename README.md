# Amphetype core, modelled in Dafny

Amphetype is a typing tutor. This project models the four self-contained pieces of its logic and proves properties of them:

- **The typing session** (`amphetype/typer.py`).
  - `LessonDocument` holds a buffer made of three parts: the prologue, an active region that starts at `_start`, and the epilogue. It also holds the match and display texts, the current run, and a pending "first error".
  - `TyperWidget` turns key presses into calls on the document, under the input options.
  - Modules: `TyperText` (sanitizing and the display text), `QtText` (the few Qt cursor operations used, on values), `RunStats` (the run recorder the document drives), `Lesson` (each operation as a function on a document value) and `Typer` (the classes, proved to end in exactly those states).
- **Text selection** (`amphetype/TextManager.py`), module `TextManagement`.
  - `setSelect` installs a difficulty evaluator. It is either a constant, or a words-per-minute estimate from trigram times, where an "expected" cost stands in for unseen trigrams.
  - `nextText` picks the easiest, hardest, first or next-in-order text.
- **Graph damping and ages** (`amphetype/Performance.py`), module `Performance`:
  - the running-sum moving average `dampen`;
  - the unit ladder of `formatWhen`;
  - the x/y series of `updateGraph`.
- **The tree model** (`amphetype/QtUtil.py`), module `QtUtil`:
  - the None-aware comparator;
  - index paths and parents;
  - lazy population of child lists, which are kept in an extra cell of each row;
  - `data`, `sort` and `reset`.

Inputs that come from outside the program are parameters:
- the clock (`now`);
- the settings;
- the database's answers: the trigram medians, the random sample, the text table and the last typed text;
- `populateData`, given as a function from paths to rows.

Qt signals are recorded as a sequence of `Signal` values on the document.

Three places where the model follows the code rather than the prose description:
- With no trigram history, `setSelect` returns early and keeps the old evaluator. It does not fall back to scoring every text alike.
- In-order selection does not wrap around after the last text; it falls back to the default text.
- The estimator raises `ZeroDivisionError` for a text shorter than three characters or with a zero cost sum. The model returns a `Failure` there rather than a normal result.

## Model

| member | source | states |
|---|---|---|
| `TyperText.EffectiveText` | amphetype/typer.py:102 | an empty text becomes `default text`; any other text is kept |
| `TyperText.Sanitize` | amphetype/typer.py:141-145 | `sanitize` leaves no CR and no LF and never lengthens the text |
| `TyperText.Display` | amphetype/typer.py:115 | the display text is one character longer per return glyph |
| `TyperText.SanitizeIsOneGlyphPerLineEnd` | amphetype/typer.py:141-145 | the three chained replacements equal a one-pass rewrite: CR LF, a lone CR and a lone LF each become one return glyph; every other character is copied |
| `TyperText.OneGlyphPerLineEndHasNoLineBreaks` | amphetype/typer.py:141-145 | the one-pass rewrite leaves no CR or LF, is no longer than its input, and is non-empty for non-empty input |
| `TyperText.SanitizeHasNoLineBreaks` | amphetype/typer.py:141-145 | the match text holds no CR and no LF, is no longer than the text, and is empty only for an empty text |
| `TyperText.SanitizeKeepsPlainText` | amphetype/typer.py:141-145 | a text without CR and LF is unchanged by `sanitize` |
| `TyperText.OneGlyphPerLineEndKeepsPlainText` | amphetype/typer.py:141-145 | the one-pass rewrite is the identity on texts without CR and LF |
| `TyperText.DropNewlinesOfDisplay` | amphetype/typer.py:115 | removing every LF from the display text of a text without LF gives that text back |
| `TyperText.DisplayBreaksFollowGlyphs` | amphetype/typer.py:115 | in the display text, an LF stands exactly at the positions right after a return glyph |
| `TyperText.MatchText` | amphetype/typer.py:113-114 | the match text of any lesson text is non-empty and free of CR and LF |
| `TyperText.DisplayText` | amphetype/typer.py:115 | the display text is non-empty, and dropping its LFs gives the match text |
| `QtText.InsertText` | amphetype/typer.py:203 | the character lands at the cursor, and the cursor moves past it; the region end moves when it is at or after the cursor |
| `QtText.DeleteChar` | amphetype/typer.py:205 | removes the one character (one position, see "## Left out") after the cursor if there is one, otherwise changes nothing; the cursor stays |
| `QtText.DeletePreviousChar` | amphetype/typer.py:233 | removes the character before the cursor and moves the cursor left; at position 0 nothing changes |
| `QtText.NextCharacter` | amphetype/typer.py:207 | one character position right, except at the end of the document (see "## Left out") |
| `QtText.PreviousCharacter` | amphetype/typer.py:215 | one character position left, except at position 0 (see "## Left out") |
| `QtText.SkipSpacesBack` | amphetype/typer.py:217 | the start of the run of spaces ending at the position |
| `QtText.SkipWordBack` | amphetype/typer.py:217 | the start of the run of word characters ending at the position |
| `QtText.PreviousWord` | amphetype/typer.py:217 | a position strictly before a non-zero position, after a space or at the document start |
| `RunStats.Make` | amphetype/typer.py:169 | a fresh run over the match text: index 0, nothing undone, no position typed |
| `RunStats.Current` | amphetype/typer.py:172 | the target character under the run's index, or none at the end |
| `RunStats.Visit` | amphetype/typer.py:183 | records correct or wrong at the current position, counting a mistake; nothing else changes |
| `RunStats.Advance` | amphetype/typer.py:192 | moves the index on exactly when asked to and a character is left, and records the edit for undo |
| `RunStats.PopChar` | amphetype/typer.py:229 | undoes the newest edit; returns the character to put back exactly when that edit overwrote one |
| `RunStats.IsComplete` | amphetype/typer.py:197 | definition: the run's index is at the end of a non-empty text and the last character was typed correctly |
| `RunStats.LastWasError` | amphetype/typer.py:227 | definition: the newest edit inserted a character, or the position before the index was typed wrongly |
| `Lesson.ExactlyOnePhase` | amphetype/typer.py:148-158 | exactly one of ready, running and finished holds |
| `Lesson.IsReady` | amphetype/typer.py:156-158 | definition: no run has started; its relation to the other phases is `ExactlyOnePhase` |
| `Lesson.IsRunning` | amphetype/typer.py:148-150 | definition: a run that is not complete |
| `Lesson.IsFinished` | amphetype/typer.py:152-154 | definition: a complete run |
| `Lesson.Reset` | amphetype/typer.py:123-134 | the reset document satisfies the document invariant |
| `Lesson.SetText` | amphetype/typer.py:101-121 | the document `set_text` builds satisfies the document invariant |
| `Lesson.SetTextResets` | amphetype/typer.py:101-121 | the laid-out buffer of `set_text` (prologue, epilogue, all three cursors at the join) is well formed, and `reset` on it gives `SetText`'s state whatever run it held before |
| `Lesson.Start` | amphetype/typer.py:160-164 | a warm start keeps the invariant |
| `Lesson.ActualInsert` | amphetype/typer.py:202-207 | the buffer keeps its length on an overwrite that has a character to replace and grows by one otherwise; the text before the cursor is kept and the typed character is at the cursor; the cursor moves one or two steps |
| `Lesson.StartedRun` | amphetype/typer.py:167-170 | the run `insert` works on is over the match text: the current run, or a fresh one on a cold start |
| `Lesson.Insert` | amphetype/typer.py:166-200 | an insert keeps the invariant and always leaves a run |
| `Lesson.BackMark` | amphetype/typer.py:213-221 | the backspace mark lies between `_start` and the cursor |
| `Lesson.PopStep` | amphetype/typer.py:229-233 | one loop pass moves the cursor back by one and undoes the run's newest edit; the returned character replaces the one before the cursor, or that character is deleted; nothing else changes |
| `Lesson.Unwind` | amphetype/typer.py:226-234 | the loop never moves the cursor forward or below the mark and keeps the prologue; unprotected, it reaches the mark; in protected mode it stops at once when the last position is not an error, changing nothing, and otherwise stops early only on a non-error |
| `Lesson.Backspace` | amphetype/typer.py:209-238 | a backspace keeps the invariant |
| `Lesson.ResetRestoresReady` | amphetype/typer.py:123-134 | after `reset`: ready, no first error, cursor at `_start`, display text in the active region, prologue and epilogue kept, `Ready(match text)` emitted last |
| `Lesson.ResetIdempotent` | amphetype/typer.py:123-134 | resetting twice gives the state of resetting once; only the signals repeat |
| `Lesson.StartRuns` | amphetype/typer.py:160-164 | `start` on a ready document leaves it running at index 0 and emits `started` |
| `Lesson.InsertColdStart` | amphetype/typer.py:166-170 | an insert on a ready document creates the run over the match text and first emits `started` |
| `Lesson.InsertAdvances` | amphetype/typer.py:172-173 | when the key is correct or overwrite is on (`should_advance`), the run's index and undo stack move accordingly; an overwrite keeps the buffer length and an insert grows it by one; the prologue is kept |
| `Lesson.InsertWhileBlocked` | amphetype/typer.py:175-180 | with a pending first error, an insert only advances the run: no visit, no signal, the same first error |
| `Lesson.InsertUnblockedSignals` | amphetype/typer.py:182-200 | without a pending error: progress with the run's index before the advance when correct; then completion exactly when the run is complete, otherwise a position signal; the key is visited |
| `Lesson.InsertFirstError` | amphetype/typer.py:185-189 | a wrong key records the first error at the cursor unless lenient; lenient mode and a correct key leave none |
| `Lesson.BackspaceNeedsRunning` | amphetype/typer.py:209-211 | `backspace` is a no-op unless running |
| `Lesson.BackspaceBounds` | amphetype/typer.py:209-238 | the cursor ends between the mark and its old place, with the mark at or after `_start`; unprotected, it reaches the mark; a protected stop is at a non-error, and a protected backspace whose last position is not an error leaves the buffer and the run as they were; the prologue is kept; the first error is cleared iff the cursor ends at or before it |
| `Lesson.ProtectedBackspaceKeepsCorrectInput` | amphetype/typer.py:209-238 | with `limit_backspace`, a word backspace after three correct characters and one error removes only the error: the buffer is the correct text, the cursor and the run's index are 3, and the first error is cleared |
| `Typer.LessonDocument.constructor` | amphetype/typer.py:87-93 | a new document holds `default text` with no prologue or epilogue |
| `Typer.LessonDocument.SetText` | amphetype/typer.py:101-121 | the new state is `Lesson.SetText` of the old signals and the arguments; the invariant holds |
| `Typer.LessonDocument.Reset` | amphetype/typer.py:123-134 | the new state is `Lesson.Reset` of the old one |
| `Typer.LessonDocument.Start` | amphetype/typer.py:160-164 | the new state is `Lesson.Start` of the old one and the clock value |
| `Typer.LessonDocument.ActualInsert` | amphetype/typer.py:202-207 | the buffer and its cursors become `Lesson.ActualInsert` of the old ones; nothing else changes |
| `Typer.LessonDocument.Insert` | amphetype/typer.py:166-200 | the new state is `Lesson.Insert` of the old one |
| `Typer.LessonDocument.PopStep` | amphetype/typer.py:229-233 | the new state is `Lesson.PopStep` of the old one |
| `Typer.LessonDocument.Backspace` | amphetype/typer.py:209-238 | the loop ends in `Lesson.Backspace` of the old state |
| `Typer.WidgetInsert` | amphetype/typer.py:348-357 | the widget's insert keeps the document invariant |
| `Typer.WidgetBackspace` | amphetype/typer.py:359-362 | the widget's backspace keeps the document invariant |
| `Typer.WidgetKeyPress` | amphetype/typer.py:328-346 | a key press keeps the document invariant |
| `Typer.TyperWidget.constructor` | amphetype/typer.py:276-291 | a new widget has its settings and no lesson |
| `Typer.TyperWidget.SetLesson` | amphetype/typer.py:293-314 | the widget works on the given document afterwards |
| `Typer.TyperWidget.Insert` | amphetype/typer.py:348-357 | the document ends in `WidgetInsert` of its old state |
| `Typer.TyperWidget.Backspace` | amphetype/typer.py:359-362 | the document ends in `WidgetBackspace` of its old state |
| `Typer.TyperWidget.KeyPress` | amphetype/typer.py:328-346 | without a lesson the event is ignored; otherwise the document and the outcome are `WidgetKeyPress` of the old state |
| `Typer.FinishedTakesNoInput` | amphetype/typer.py:348-350 | a finished lesson is unchanged by insert and backspace |
| `Typer.RequireSpaceWaitsForSpace` | amphetype/typer.py:352-355 | with `require_space`, a ready lesson starts on a space and drops any other key; it is running afterwards iff the key was a space |
| `Typer.ColdStartWithoutRequireSpace` | amphetype/typer.py:352-357 | without `require_space`, the first key of a ready lesson is typed and `started` is emitted |
| `Typer.DefaultOptionsBehaviour` | amphetype/typer.py:244-249 | under the default options (`require_space` and `overwrite_mode` on, lenient and limited backspace off), a ready lesson starts only on a space, a running lesson types in overwrite mode without leniency, and backspace is unprotected |
| `Typer.KeyBindings` | amphetype/typer.py:333-339 | Enter and Return type the return glyph, Escape resets to ready, and Backspace or Back deletes by word when Control, Meta or Alt is held |
| `Typer.TextKeys` | amphetype/typer.py:340-344 | an empty text or a control character is ignored and leaves the document unchanged; a text of several characters raises; one printable character is typed |
| `TextManagement.DictItems` | amphetype/TextManager.py:168-176 | the items of `dict(rows)`: distinct keys, no more items than rows, each item holds the value `Dict` maps its key to, and every key of `Dict` has an item |
| `TextManagement.Dict` | amphetype/TextManager.py:168-176 | every row's key is in the map, every key comes from a row, and the value of a key is that of its last row |
| `TextManagement.DictValues` | amphetype/TextManager.py:178 | one value per item of `dict(rows)`, in item order, each the value `Dict` maps that item's key to |
| `TextManagement.DictValuesEmpty` | amphetype/TextManager.py:178-180 | there are no costs exactly when the query returned no rows |
| `TextManagement.InsertDesc` | amphetype/TextManager.py:181 | inserting into a descending list keeps it descending and adds one element |
| `TextManagement.SortDesc` | amphetype/TextManager.py:181 | `sort(reverse=True)` gives a descending list of the same length |
| `TextManagement.InsertDescPermutes` | amphetype/TextManager.py:181 | insertion adds exactly the new element to the multiset |
| `TextManagement.SortDescPermutes` | amphetype/TextManager.py:181 | the sorted costs are a permutation of the costs |
| `TextManagement.CountsOfSort` | amphetype/TextManager.py:181 | sorting does not change how many costs lie above or at a bound |
| `TextManagement.Expect` | amphetype/TextManager.py:181-182 | `g[len(g)//4]` after the descending sort is one of the costs |
| `TextManagement.ExpectIsUpperQuartile` | amphetype/TextManager.py:181-182 | `expect` is one of the costs; at most `len(g)//4` costs are strictly greater, and at least `len(g)//4 + 1` are greater or equal |
| `TextManagement.CostSumUniform` | amphetype/TextManager.py:188-194 | when every window costs `c`, the sum over `n` windows is `n * c` |
| `TextManagement.EstimateFails` | amphetype/TextManager.py:184-196 | the estimate raises exactly for a text of fewer than three characters or a zero cost sum |
| `TextManagement.UniformCostEstimate` | amphetype/TextManager.py:184-196 | when every window costs the same `c`, the estimate is `12 / c`, and it raises for `c == 0` |
| `TextManagement.AllUnseenEstimate` | amphetype/TextManager.py:188-196 | a text with no known trigram is estimated at `12 / expect` |
| `TextManagement.PredictedWpm` | amphetype/TextManager.py:184-196 | the only failure of `_func` is `ZeroDivisionError`; a successful estimate needs at least three characters and is never 0 |
| `TextManagement.CostSumMonotone` | amphetype/TextManager.py:188-194 | when every window's cost rises or stays, the cost sum rises or stays; with positive costs the sum is positive |
| `TextManagement.EstimateFallsAsCostsRise` | amphetype/TextManager.py:184-196 | with positive window costs that rise or stay, both estimates succeed and the estimate falls or stays |
| `TextManagement.Eval` | amphetype/TextManager.py:161-198 | only the trigram evaluator can raise, and only `ZeroDivisionError` |
| `TextManagement.Estimate` | amphetype/TextManager.py:184-196 | the summing loop returns `Eval`: 1 for the constant evaluator, else 12 over the mean window cost, or the division error |
| `TextManagement.SelectEvaluatorCases` | amphetype/TextManager.py:161-182 | methods 0 and 1 install the constant evaluator; other methods install nothing iff there is no history; an installed `expect` is one of the costs, with at most a quarter of them above it |
| `TextManagement.SelectEvaluator` | amphetype/TextManager.py:161-182 | an installed trigram evaluator looks costs up in `Dict` of the history, and its `expect` is one of the history's costs |
| `TextManagement.Keys` | amphetype/TextManager.py:274-276 | the keys are the evaluator's values for the sample, or an exception that some text of the sample raises |
| `TextManagement.FirstMin` | amphetype/TextManager.py:274 | `min` picks the first position of a least key |
| `TextManagement.FirstMax` | amphetype/TextManager.py:276 | `max` picks the first position of a greatest key |
| `TextManagement.RowidOf` | amphetype/TextManager.py:289 | the rowid of the first text whose id is the last typed id, and 0 when no text has that id |
| `TextManagement.NextInOrder` | amphetype/TextManager.py:290-294 | the enabled text with the least rowid above the bound; none iff no enabled text lies above it |
| `TextManagement.FromSample` | amphetype/TextManager.py:266-278 | no text iff the sample is empty; a chosen text is one of the sample; only the difficult and easy methods can raise, with the trigram evaluator's `ZeroDivisionError` |
| `TextManagement.NextTextChoice` | amphetype/TextManager.py:263-299 | outside in-order mode the text is the default or one of the sample; in-order mode never raises and gives the default or a stored text; only the difficult and easy methods raise, and only `ZeroDivisionError` |
| `TextManagement.SampleChoice` | amphetype/TextManager.py:266-278 | outside in-order mode, an empty sample gives the default text, and methods other than 2 and 3 take the first text |
| `TextManagement.DifficultChoice` | amphetype/TextManager.py:273-274 | method 2 emits the first text of least estimate, and raises only when estimating some text of the sample raises |
| `TextManagement.EasyChoice` | amphetype/TextManager.py:275-276 | method 3 emits the first text of greatest estimate, and raises only when estimating some text of the sample raises |
| `TextManagement.InOrderChoice` | amphetype/TextManager.py:279-299 | in-order mode emits the enabled text with the least rowid above the last typed one (0 if none), or the default text when there is none; there is no wrap-around |
| `TextManagement.TextManager.constructor` | amphetype/TextManager.py:80-159 | the manager starts with the evaluator and the text that `setSelect` of the configured method gives |
| `TextManagement.TextManager.NextText` | amphetype/TextManager.py:263-299 | returns `NextTextChoice` for the method and the database, and emits the text unless it raised |
| `TextManagement.TextManager.SetSelect` | amphetype/TextManager.py:161-199 | installs `SelectEvaluator`'s evaluator and emits the next text; with no history for a trigram method it changes nothing |
| `Performance.Damped` | amphetype/Performance.py:12-19 | the damped series has `max(0, len(x) - n)` values |
| `Performance.SumSlide` | amphetype/Performance.py:18 | sliding the window adds the entering value and drops the leaving one |
| `Performance.ScaledSumIsMean` | amphetype/Performance.py:15-17 | `s * (1 / n)` is the window's mean |
| `Performance.Dampen` | amphetype/Performance.py:12-19 | `n == 0` raises; otherwise output `k` is the mean of the window `x[k..k+n)`, for every window that ends before the end of `x` |
| `Performance.DampedBounded` | amphetype/Performance.py:12-19 | damping keeps the values within any bounds of the input |
| `Performance.DampedConstant` | amphetype/Performance.py:12-19 | a constant series damps to the same constant |
| `Performance.DampedShort` | amphetype/Performance.py:16-19 | a series no longer than the window damps to nothing, so `len(x) == n` gives an empty result |
| `Performance.FormatWhen` | amphetype/Performance.py:39-57 | the step-by-step ladder picks the first unit whose threshold the age is under (60 s, 60 min, 24 h, 7 d, 52 w, else years) and divides by 1, 60, 3600, 86400, 604800 or 31449600 |
| `Performance.UnitFor` | amphetype/Performance.py:39-57 | definition: the reference unit, by the age thresholds 60, 3600, 86400, 604800 and 31449600 seconds, that the ladder is proved against |
| `Performance.UnitForRange` | amphetype/Performance.py:39-57 | the shown value is below the next unit's size (except for years) and at least 1 (except for seconds) |
| `Performance.UnitForMonotone` | amphetype/Performance.py:39-57 | an older age is never shown in a smaller unit |
| `Performance.Reversed` | amphetype/Performance.py:129 | `list.reverse()` keeps the length and swaps the first and last values |
| `Performance.ReversedIndex` | amphetype/Performance.py:129 | reversing keeps the length and maps position `i` to `len - 1 - i` |
| `Performance.ReversedRange` | amphetype/Performance.py:128-129 | the reversed range is `[m-1, ..., 0]` |
| `Performance.XAxis` | amphetype/Performance.py:125-129 | one value per row; with the time scale, value `i` is row `i`'s `w`; without it, value `i` is `len - 1 - i` |
| `Performance.UpdateGraph` | amphetype/Performance.py:121-136 | undamped, the plot is the x axis and, at each position, the chosen column of that row; damped, both are damped with the same window, or the division error when it is 0; x and y always have equal length |
| `QtUtil.StrLessTotal` | amphetype/QtUtil.py:25 | string `<` is irreflexive, and for different strings exactly one direction holds |
| `QtUtil.StrLessTransitive` | amphetype/QtUtil.py:25 | string `<` is transitive |
| `QtUtil.MaybeCmp` | amphetype/QtUtil.py:16-29 | the comparator gives 0 exactly for equal keys |
| `QtUtil.MaybeCmpSign` | amphetype/QtUtil.py:16-27 | results are -1, 0 or 1; 0 exactly for equal keys; a None key comes before any other key; the comparison raises exactly for two different keys that are a number and a string |
| `QtUtil.MaybeCmpAntisymmetric` | amphetype/QtUtil.py:16-27 | swapping the keys negates the result, and two keys compare in one order iff they compare in the other |
| `QtUtil.MaybeCmpTransitive` | amphetype/QtUtil.py:16-27 | "not after" is transitive on keys that compare |
| `QtUtil.InsertRow` | amphetype/QtUtil.py:136 | inserting a row into a sorted list keeps it sorted, adds one row and adds no other |
| `QtUtil.InsertRowPermutes` | amphetype/QtUtil.py:136 | insertion adds exactly that row to the multiset |
| `QtUtil.SortRows` | amphetype/QtUtil.py:136 | the sorted rows are ordered by the comparator on the key column, reversed when descending, with the same length and no new rows |
| `QtUtil.SortRowsPermutes` | amphetype/QtUtil.py:136 | sorting is a permutation of the rows |
| `QtUtil.IndexList` | amphetype/QtUtil.py:76-79 | the path has one entry per level of the index: its path, then its row |
| `QtUtil.Parent` | amphetype/QtUtil.py:65-74 | the parent is one level up, and a valid parent is in column 0 |
| `QtUtil.IndexListOfParent` | amphetype/QtUtil.py:65-79 | the child list of an index's parent is the path of that index |
| `QtUtil.ParentOfChild` | amphetype/QtUtil.py:57-79 | the parent of a child of `P` is invalid for the root and otherwise `P`'s row, column 0 and `P`'s path |
| `QtUtil.SetListAt` | amphetype/QtUtil.py:91 | after the write-back, the list at the path is the new list |
| `QtUtil.SetListAtFrame` | amphetype/QtUtil.py:91 | the write-back changes only the row on the path, and of that row only its child cell |
| `QtUtil.SetListAtElsewhere` | amphetype/QtUtil.py:91 | every list at a path that parts from the written path is unchanged |
| `QtUtil.ListAtSnoc` | amphetype/QtUtil.py:87-92 | the list at `path + [i]` is the child slot of row `i` of the list at `path` |
| `QtUtil.Find` | amphetype/QtUtil.py:81-92 | a found list is the one now stored at `indexList(parent)`; the root is populated only while `rows` is None |
| `QtUtil.FindStep` | amphetype/QtUtil.py:87-92 | the step below the root: a list it finds is the one now stored at the index's path |
| `QtUtil.FindReadOnly` | amphetype/QtUtil.py:81-92 | along an already populated path, `findList` changes nothing and returns the stored list |
| `QtUtil.FindIdempotent` | amphetype/QtUtil.py:81-92 | a successful `findList` populates once: calling it again changes nothing and returns the same list |
| `QtUtil.FindAppendsChildren` | amphetype/QtUtil.py:89-92 | the first visit to a top-level row with `cols + hidden` cells appends its populated children at that position and returns them |
| `QtUtil.AmphModel.constructor` | amphetype/QtUtil.py:40-47 | `hidden`, two levels, the column count, no rows yet, no interned paths |
| `QtUtil.AmphModel.HasChildren` | amphetype/QtUtil.py:49-55 | the root has children; an index has children iff its depth is below the number of levels |
| `QtUtil.AmphModel.FindList` | amphetype/QtUtil.py:81-92 | the rows and the result are `Find` of the old rows |
| `QtUtil.AmphModel.Index` | amphetype/QtUtil.py:57-63 | a negative row or column gives an invalid index without looking up; otherwise the lookup happens, and an out-of-range row or column gives an invalid index; else the index with path `indexList(parent)`, interned in `idxs`; none where the lookup raises |
| `QtUtil.AmphModel.Data` | amphetype/QtUtil.py:101-124 | an invalid index or another role gives nothing; otherwise the rows are `Find` of the old rows and the result is read from the found list |
| `QtUtil.AmphModel.Sort` | amphetype/QtUtil.py:133-138 | with no rows, or with a missing or incomparable key among two or more rows, nothing changes; otherwise the rows become `SortRows` of the old ones and `idxs` is cleared |
| `QtUtil.AmphModel.Reset` | amphetype/QtUtil.py:140-144 | the rows are repopulated from the root and `idxs` is cleared |
| `QtUtil.DataOfPopulated` | amphetype/QtUtil.py:101-124 | on a populated list, `data` changes nothing; the user role gives the whole row; the display role gives the cell at `column + hidden`, with None shown as nothing |
| `QtUtil.HasChildrenTwoLevels` | amphetype/QtUtil.py:49-55 | with two levels, only the root and top-level rows have children, so the child of a top-level row is a leaf |

## Left out

- `RunStats`: `amphetype/timingtuple.py` is not part of this model. The run recorder is a small concrete stand-in with the interface the document uses. It keeps an index, per-position marks and an undo stack. Timing, `timed_words` and `timed_ngrams` are not modelled.
- `QtText`: a position counts one Dafny character, and `DeleteChar`, `NextCharacter` and `PreviousCharacter` move over exactly one. Qt's positions count UTF-16 code units, and its `deleteChar` and character moves go over a whole grapheme cluster. So a combining sequence such as "e\u0301" is deleted or stepped over one character at a time, and a character outside the Basic Multilingual Plane is one position, where Qt counts two. The run indexes code points, as the model does.
- `QtText.PreviousWord`: Qt's word boundaries are finer, because punctuation counts as a word of its own. The model skips spaces, then word characters. The document relies only on the result lying strictly before a non-zero position.
- Qt text styles, fonts, block formats and signal wiring are left out, because they are rendering. Signals are recorded as a sequence of values.
- The `"%.1f"` rendering, IEEE float rounding and the integer/float distinction are left out. Values are `real`.
- `Performance.Dampen`: a negative window size is not modelled. The window is a natural number.
- `Performance.UpdateGraph`: the plotter itself is not modelled, and the rows are taken as already read (the source fails while the model holds none). It reads only the plottable columns 3, 4 and 5 that the "Plot" setting offers.
- `TextManagement.Estimate`: the unused counter `v` of unseen windows is not modelled.
- `TextManagement.TextManager.SetSelect`: the method takes the selection method `v` as the value the setting holds when `nextText` reads it, as it does when the setting's signal calls it. The `time.time()` horizon of the history query is folded into the query's answer.
- `TextManagement.SortDesc`: stability is not stated, since equal costs are indistinguishable.
- `QtUtil.SortRows`: stability of Python's sort is not stated. The result is proved ordered and a permutation.
- `QtUtil.AmphModel.Sort`: where the source raises part-way through sorting it may leave the rows partly reordered. The model leaves them unchanged. Comparing two child lists is treated as incomparable.
- `QtUtil.AmphModel.Data`: the column format (`fmt[col]`) is not applied. The cell and its column are returned.
- `QtUtil.Find`: a child slot that holds something other than a list is treated as an error, where Python would go on with the value.
- `headerData`, the layout classes, `AmphTree`, SQL in `updateData`, `populateData` queries, `force_ascii`, the SHA-1 text ids and the commented-out statistics in `typingDone` are left out. They are Qt plumbing, database work or foreign calls.
