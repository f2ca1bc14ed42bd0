# Timetable extractor: a Dafny model

This project models the timetable extractor of a school-timetable web app. It also proves properties of the model.

The extractor is `parseTimetable` in `public/app.js`. It reads the school's weekly timetable page. It walks the rows of the schedule table once and threads a small state through the rows:
- an occupancy grid of (row, column) places below column 34;
- the current day and the row that opened it;
- a per-day map from column span to start column;
- an insertion-ordered map from day name to `{day, classes, note}`.

For each row, the pass does three things:
- it detects a weekday header;
- it places each cell, skipping taken columns, with a recovery rule for single-cell "concurrent class" rows;
- it marks each cell's extent and turns class cells into class entries.

At the end, each day's classes are sorted by period (slot).

The model also covers the small pure helpers that consume the extractor's output:
- `getTimeForSlot`, the time range shown for a class;
- `shouldShowClass`, the group (`skupina`) filter;
- `getSkupinasBySubject`, the subject-to-groups map.

It also covers the parser test's `compareSchedules`, which matches a parsed schedule against the classes expected for one week.

Modules, in dependency order:
- `Wrappers`: `Option`.
- `Text`: whitespace trimming, substring search, decimal digits, and the `/Skupina\s+(\d+)/i` group-number match.
- `Markup`: the page as the extractor sees it.
  - A cell is a record of the DOM queries the extractor makes: header text, note text, `bgcolor`, inner table, colspan and rowspan.
  - The HTML grammar itself is not modelled.
- `Grid`: the occupancy grid, the column cursor, the first taken column, the marking of a cell's extent, and the column-to-slot arithmetic.
- `Extract`: the fields of a class cell's inner table (teacher, group note, group number, subject, room) and the class entry built from them.
- `SlotSort`: a stable insertion sort by slot, as JavaScript's `Array.prototype.sort` with `(a, b) => a.slot - b.slot`.
- `Scan`: the state machine.
  - The header step, the start-column resolution, the colspan map, adding a class, and one cell.
  - The cell and row folds, and the frame of a row, meaning which day entries a row can change.
- `ScanFacts`: the invariant kept by every step, and the day-order theorem. The invariant covers distinct day names, noted days without classes, and classes filed under their own day.
- `Timetable`: `parseTimetable` and the test suite's copy of it.
- `Display`: `getTimeForSlot`, `shouldShowClass` with the per-day filter, and `getSkupinasBySubject`.
- `Harness`: the flattening of a parsed schedule, the match rule, the test's expected classes, `compareSchedules`, and the pass/fail verdict. The test fetches week 41 (the week of 6 October 2025); a comment in the test file calls the expected classes those of week 40.

The model keeps these behaviours of the code as written:
- **Start column 0 gives slot 0 with no warning.** This happens whenever a class cell starts at column 0, with or without the recovery. An example is the first cell of a two-cell row whose column 0 is free.
- **The grid can be overwritten.** The recovery fallback can start a cell at a column that is already taken, and the marking loop then overwrites those grid entries. The grid holds only occupancy, because the stored cell references are never read, so an overwrite leaves a taken place taken. `Scan.ResolveStart` states that the fallback column is a taken one.
- **There is no `specialNote` field.** This version of the code never collects other inner-row texts.
- **The teacher is the first non-empty text of inner row 0 that does not contain "Skupina".** An empty text is assigned, but a later text replaces it.
- **Some class cells go to the previous day.** A header row may name a day already seen, or a new day with a note. Class cells on such a row go to the day that was current before, if there is one. The code would drop them if that day had a note, but that cannot happen: `ScanFacts.Inv` shows that the current day never has a note.

The time range is computed with the duration in half periods (`halves = colspan = 2 * duration`). The source's `duration` is `colspan / 2`. `Extract.Duration` keeps it as a real, with `2 * duration == colspan`. JavaScript's `slot + duration - 1` and `===` on such numbers are exact, because every value involved is a whole or half number. Doubling the numbers therefore loses nothing.

## Model

| member | source | states |
|---|---|---|
| Text.Trim | public/app.js:201 | The class name is the banner text with leading and trailing whitespace removed: a contiguous slice of the text, with only whitespace cut from either end, and no whitespace at either end of the result. |
| Text.NatToStringRoundTrip | public/app.js:356 | Writing a group number in decimal and reading it back with `parseInt(..., 10)` gives the number again. |
| Text.GroupNumber | public/app.js:355-356 | The group number is read from the leftmost position where `/Skupina\s+(\d+)/i` matches, and there is none exactly when the pattern matches nowhere. |
| Text.GroupLabelRoundTrip | public/app.js:352-356 | The note text "Skupina n" yields group number n under `/Skupina\s+(\d+)/i`. |
| Grid.SkipOccupied | public/app.js:271-274 | The cursor moves past taken columns only. It stops at the first free column, or at column 34 if every column up to it is taken, and it never moves when it is already at 34 or beyond. |
| Grid.FirstOccupiedFrom | public/app.js:291-296 | The fallback search finds the first taken column of the row below 34, or reports that there is none. |
| Grid.Mark | public/app.js:309-322 | Marking adds exactly the places of rows `[row, row+rowspan)` × columns `[start, start+colspan)` below column 34, keeps every place already taken, and never marks a column at 34 or beyond. |
| Grid.SlotOf | public/app.js:329-331 | Column 0 gives slot 0. Any other column c gives the slot s with `2s-1 <= c <= 2s`. |
| Grid.SlotOfColumns | public/app.js:329-331 | Slot s is exactly the slot of columns `2s-1` and `2s`. Columns 1 to 32 give slots 1 to 16. |
| Extract.Duration | public/app.js:339 | A class's duration is half its column span: `2 * duration == colspan`. |
| Extract.HeadTeacher | public/app.js:346-362 | The teacher is the first non-empty inner-row-0 text that does not contain "Skupina", or "" if there is none. |
| Extract.HeadNote | public/app.js:346-362 | The note is the last inner-row-0 text containing "Skupina", or "" if there is none. |
| Extract.HeadGroup | public/app.js:346-362 | The group is the number of the last "Skupina" text matching `/Skupina\s+(\d+)/i`, or none if no text matches. A later non-matching "Skupina" text does not clear it. |
| Extract.HeadOfMeaning | public/app.js:346-362 | The teacher, note and group read from inner row 0 together, as the three lemmas above state them. |
| Extract.SubjectOfMeaning | public/app.js:364-368 | The subject is the trimmed text of the last bold size-3 font in inner row 1, or "" if there is none. |
| Extract.RoomOfMeaning | public/app.js:370-374 | The room is the last size-2 text in inner row 1 that is all digits (and not empty), or "" if there is none. |
| Extract.ExtractClass | public/app.js:328-343 | A class entry takes its slot from its start column, and takes its span, its colour and the current day's name from the cell. |
| Extract.ExtractClassFields | public/app.js:344-376 | A class entry's teacher, note, group, subject and room are those of its inner rows 0 and 1. A missing inner row leaves those fields at their empty defaults. |
| SlotSort.Insert | public/app.js:394 | Inserting a class into a slot-sorted list keeps it sorted, and adds exactly that class. |
| SlotSort.InsertWithSlot | public/app.js:394 | Inserting a class puts it after every class with the same slot. |
| SlotSort.Sort | public/app.js:394 | The sorted classes are non-decreasing by slot and are a permutation of the input. |
| SlotSort.SortIsStable | public/app.js:394 | Classes with equal slots keep their relative order, so the sort is stable. |
| Scan.FirstDayCell | public/app.js:230-239 | The header cell is the first cell whose bold size-4 text mentions a weekday (Ponedeljek, Torek, Sreda, Četrtek, Petek). |
| Scan.FirstNoteCell | public/app.js:246-250 | The note cell is the first cell whose size-3 text contains "Pred začet" or "šol.leta". |
| Scan.IndexOfDay | public/app.js:379 | The day map's lookup finds the entry with the day's name. |
| Scan.ResolveStart | public/app.js:280-298 | The start column stays at the cursor unless all four recovery conditions hold. The conditions are: first and only cell of its row, a `bgcolor`, cursor at 0, and a current day. When they hold, the start is the column recorded for the cell's span. Failing that, it is the first taken column of the row. Failing that, it is 0. |
| Scan.RecordColspan | public/app.js:300-306 | The colspan map changes only for a class cell on the current day's opening row. Such a cell whose span has no column yet records its start column under that span. A span already recorded keeps its column, so the first value seen per span wins. |
| Scan.AddClass | public/app.js:378-383 | A class is appended to the entry of its day exactly when its subject is non-empty and that entry has no note. No other entry changes, and no name or note changes. |
| Scan.ProcessCell | public/app.js:268-388 | After one cell, the cursor stands at `start + colspan` and the grid is marked with the cell's extent. The colspan map is updated as `RecordColspan` states. A class cell under a current day is collected into that day as `AddClass` states. Any other cell changes no entry. The current day, its opening row and the list of day names do not change. |
| Scan.OpenDay | public/app.js:241-262 | The header step leaves the grid as it was and keeps the day list as a prefix. It appends exactly one entry, with the row's note and no classes, exactly when the row names a day not yet in the list. When that day has no note, it becomes the current day, opened at this row, with an empty colspan map. Otherwise the current day, its opening row and the colspan map stay as they were. |
| Scan.CellsFrom | public/app.js:268-388 | Over the cells of a row, the current day and its opening row stay fixed, the day names stay fixed, and the grid only grows. |
| Scan.ProcessCellFrame | public/app.js:324-383 | One cell can change only the current day's entry, and never any entry's name or note. |
| Scan.CellsFromFrame | public/app.js:266-388 | All the cells of a row together change only the current day's entry, and never any name or note. |
| ScanFacts.OpenDayInv | public/app.js:241-262 | The header step keeps the invariant. The invariant says: the grid stays below column 34, day names are distinct, a noted day has no classes, every class has a subject and the name of its day, the current day has an entry and a colspan map, and that entry has no note. |
| ScanFacts.ClassCellCollected | public/app.js:324-383 | A class cell under a current day is collected: with a subject, its class is appended to the current day's entry; without one, the days stay as they were. |
| ScanFacts.OpeningRowSpanRecorded | public/app.js:300-306 | On the current day's opening row, a class cell whose span has no column yet records the column it was put at. A span already recorded keeps the first column. |
| ScanFacts.CellCollectsOne | public/app.js:324-383 | One cell adds one class to the current day's open entry when it is a class cell whose inner row 1 gives a subject, and none otherwise. The entry stays the current day's, first with its name, and without a note. |
| ScanFacts.CellsFromCollects | public/app.js:266-388 | Across the rest of a row, the current day's entry gains exactly one class per class cell with a subject, so every such cell of the row is collected. |
| ScanFacts.RowCollects | public/app.js:221-389 | A row whose header step leaves a day current adds to that day's entry one class for each of its class cells with a subject. |
| ScanFacts.ProcessCellInv | public/app.js:324-383 | Placing and collecting one cell keeps the invariant. |
| ScanFacts.CellsFromInv | public/app.js:266-388 | The cells of a row keep the invariant. |
| ScanFacts.ProcessRowInv | public/app.js:221-389 | A whole row keeps the invariant. |
| ScanFacts.RowsFromInv | public/app.js:221-389 | The rows from any point on keep the invariant. |
| ScanFacts.RowsInv | public/app.js:194-389 | After all rows, the invariant holds. In particular a noted day always has no classes, and every collected class has a subject. |
| ScanFacts.OpenDayNames | public/app.js:252-262 | The header step appends the header's day name to the day list when it is new, and otherwise leaves the list as it was. |
| ScanFacts.RowNames | public/app.js:221-263 | A whole row changes the day list exactly as its header does. |
| ScanFacts.DayOrderFrom | public/app.js:219 | The rows from any point on add their new header names to the day list in order of first appearance. |
| ScanFacts.DayOrder | public/app.js:392-396 | The days come out in the order their headers first appear, each name once. |
| ScanFacts.DuplicateHeaderIgnored | public/app.js:252 | A header naming a known day changes neither the current day, nor its opening row, nor the day list. |
| ScanFacts.NotedDayNeverCurrent | public/app.js:253-255 | A new day whose header row has a note gets an entry with that note and no classes, placed last. It does not become the current day, and its row's cells leave it untouched. |
| ScanFacts.NewDayBecomesCurrent | public/app.js:256-261 | A new day without a note becomes the current day, opened at this row, with an entry of its own without a note, placed last. |
| Timetable.SortDays | public/app.js:392-396 | Each day keeps its name and note. Its classes become sorted by slot and are a permutation of the collected ones. |
| Timetable.SortDaysStable | public/app.js:394 | Within a day, classes with equal slots keep their collection order. |
| Timetable.ExtractDaysMeaning | public/app.js:209-396 | The extracted days are named in first-header order, have distinct names, are well formed and sorted by slot, and hold exactly the classes the pass collected for them. |
| Timetable.WeekLabelOf | public/app.js:203-204 | The week label is the display text of the first week whose value is the selected week number, or its label text when the display text is empty. It is "" when the week is not listed. |
| Timetable.ParseTimetable | public/app.js:194-399 | A page without a schedule table yields no days. Otherwise the days are named in first-header order and are well formed, as `ExtractDaysMeaning` states. |
| Timetable.TestCopyAgrees | tests/parser.test.js:54-61 | The test suite's copy of the parser returns what the app's parser returns, except that its week label is always "". |
| Display.TimeSlotsNumbered | public/app.js:14-31 | The period table has sixteen periods, numbered 1 to 16 in order. |
| Display.FindSlotFromTable | public/app.js:402 | Searching a numbered table from entry `from` finds period n exactly when the number searched is the whole number n, n is a period of the table, and n lies at or after `from`. |
| Display.FindSlotTable | public/app.js:402 | Looking a number up in a numbered table finds period n exactly when the number is the whole number n of one of its periods. |
| Display.UnknownSlotTime | public/app.js:402-403 | A number that is no period shows as "Slot N". |
| Display.OnePeriodTime | public/app.js:405-407 | A duration of one shows the period's own start–end. |
| Display.EndPeriodTime | public/app.js:409-412 | When period `slot + duration - 1` exists, the range runs from the start period's start to that period's end. |
| Display.FallbackTime | public/app.js:409-412 | When period `slot + duration - 1` does not exist, the range falls back to the start period's own start–end. |
| Display.TimeForSlotMeaning | public/app.js:401-413 | The three outcomes of `getTimeForSlot` (`Display.TimeForSlot`), for every number and duration: a number that is no period gives "Slot N", a duration of one gives the period's own range, and a longer one gives the range to period `slot + duration - 1` when it exists and the period's own range otherwise. |
| Display.ClassTimeRange | public/app.js:401-413 | For a class, the range depends on its span. Two columns show one period. An even span of 2m columns, m ≥ 1, shows m periods when they end by the last period, and otherwise only the start period. An odd span (a fractional duration) shows only the start period. A span of 0 shows the start period's start up to the end of the period before it, or the first period's own range when the class is in period 1. |
| Display.HiddenExactly | public/app.js:767-772 | `shouldShowClass` (`Display.ShouldShowClass`) hides a class exactly when it has a subject and a group, a group is selected for its subject, and the selected group is another one. |
| Display.VisibleClasses | public/app.js:801 | The visible classes of a day are exactly the day's classes that `shouldShowClass` accepts. |
| Display.NothingSelectedShowsAll | public/app.js:801 | With no selection, every class of the day is shown, in order. |
| Display.SelectionIsLocal | public/app.js:767-772 | Selecting group g for subject s can hide only classes of s with another group. It can show again only classes of s with group g. |
| Display.AllClasses | public/app.js:519-520 | The classes visited are exactly the classes of all days. |
| Display.AllClassesAppend | public/app.js:519-520 | The classes are visited day by day: those of earlier days come first, and a single day contributes its classes in order. |
| Display.AddToExistingGroups | public/app.js:525 | Adding a new group to a subject's entry adds exactly that subject-group pair. |
| Display.ExtendEntry | public/app.js:525 | Adding a new group to an entry keeps subjects distinct, keeps groups unrepeated, and keeps the subject order. |
| Display.AddNewGroups | public/app.js:522-525 | A new subject's entry adds exactly the class's subject-group pair. |
| Display.AppendEntry | public/app.js:522-525 | A new subject is appended last, and the map stays free of repeats. |
| Display.AddGroupMeaning | public/app.js:521-526 | One class with a group and a subject adds exactly its own subject-group pair, and adds its subject last if it is new. Any other class changes nothing. |
| Display.GroupsFromMeaning | public/app.js:519-528 | The classes add exactly their own subject-group pairs and append new subjects in order of first appearance, keeping the map free of repeats. |
| Display.SkupinasBySubjectMeaning | public/app.js:515-531 | No timetable gives an empty map. Otherwise each subject appears once, in order of its first grouped class, and has each of its groups once. Subject s has group g exactly when some class of the timetable has the non-empty subject s and group g. |
| Harness.FlattenClasses | tests/parser.test.js:271-281 | A day's flattened records copy the day's name and each class's slot, subject, teacher, room and group, in class order. |
| Harness.FlattenAppend | tests/parser.test.js:270-282 | Flattening follows day order: the records of earlier days come first. |
| Harness.FlattenMembers | tests/parser.test.js:270-282 | A record is in the flattened schedule exactly when it is the record of some class of some day. |
| Harness.FindMatch | tests/parser.test.js:286-291 | The search finds the first parsed record that matches the expected entry: same day, slot and subject, and a null expected group or an equal group. If none matches, it finds nothing. |
| Harness.FindExpected | tests/parser.test.js:301-306 | The search for an extra record finds a class of the module's expected list that it matches, or finds none exactly when none matches. |
| Harness.CompareSchedules | tests/parser.test.js:262-314 | `correct` and `missing` together are as long as the expected list, and `extra` is no longer than the flattened schedule. |
| Harness.ExpectedIsPartitioned | tests/parser.test.js:285-298 | Every expected entry lands in exactly one of `correct` and `missing`. `correct` holds those some parsed record matches and `missing` those none matches. |
| Harness.ExtraMeaning | tests/parser.test.js:300-311 | `extra` holds exactly the parsed records that match no class of the module's expected list, and is no longer than the parsed list. |
| Harness.ExtraIgnoresExpected | tests/parser.test.js:300-311 | `extra` does not depend on the expected list passed in: it always reads the module's constant. |
| Harness.SuiteVerdict | tests/parser.test.js:417-423 | The suite passes exactly when every expected entry is matched by some parsed record and every parsed record matches some class of the module's expected list. |
| Harness.ExactSchedulePasses | tests/parser.test.js:13-37 | A parsed schedule whose flattened records are exactly the module's expected classes passes. |

## Left out

- The server (`server.js`): HTTP proxying, caches and week probing are I/O, outside the extractor.
- HTML parsing: `DOMParser`/JSDOM and `querySelector` are replaced by the `Markup` records. Each record field stands for one query's result, and the HTML grammar is not modelled.
- The user interface and persistence are not modelled: rendering, onboarding, settings, `localStorage`, event listeners, scrolling and error display.
- The calendar export (`downloadICS`, `generateICS`, public/app.js:415-503) is not modelled. It is string templating over browser APIs, and it uses the current year.
- Date-dependent code is not modelled, because it reads the clock: week display and current-week detection in `fetchOptions`, `getTodayName` and `isTodayByDate`. The week list is a parameter of `Timetable.ParseTimetable`.
- The test runner's network fetch, console output and process exit are not modelled; the exit code is `Harness.SuitePasses`.
- Markup.Cell: colspan and rowspan are natural numbers. A `parseInt` result of `NaN` or a negative number is not modelled.
- Display.ShouldShowClass: selected groups are integers. A `NaN` from `parseInt`, which matches no class, is not modelled. Subjects that coincide with inherited object properties, such as `constructor`, are not modelled either.
- Display.TimeForSlot: the duration is whole or half periods, given doubled as an integer. Other fractional durations cannot arise, because a duration is always a span divided by 2. The default parameter `duration = 1` is the call with `halves == 2`.
- Timetable.WeekLabelOf: `display || label` is modelled with both texts as strings. A week object without a `label` field, which would give `undefined`, is not modelled.
- Text.ParseDecimal: the model reads a digit run exactly. JavaScript's `parseInt` loses precision beyond about 15 digits, which a group number never reaches.
- Strings are sequences of Unicode scalar values rather than UTF-16 code units. Page text may hold characters outside the Basic Multilingual Plane, but the results agree: every pattern the extractor looks for is Basic Multilingual Plane text, and substring search, trimming, the digit and white-space tests and equality answer the same on code units as on scalar values.
