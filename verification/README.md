# Flow State Studio: a Dafny model of the task board's logic

Flow State Studio is a browser kanban board. Tasks are rows with a title,
priority, status, due date, time estimate, tags and a position. They appear
in three status columns, on a dashboard, and on a favourites page, and they
are created through an add-task dialog. This project models the logic under
that UI:

- the time-estimate codec and the relative due-date parser of
  `src/lib/date-utils.ts`, with the date label the cards show;
- the leading-emoji split and the priority labels of the favourite card;
- the dashboard counts, completion rate and recent-activity list;
- the favourites filter with its empty state;
- the board's columns and its drag-and-drop and add-task handlers;
- the task hooks (`useTasks`), over an abstract table that maps id to row;
- the add-task dialog's tag editor and submit.

Every operation is free of effects: pure functions, plus one method, `TaskStore.ListTasks`, whose loop sorts the rows into a local sequence. "Today" is a day
number: day 0 is Thursday 1970-01-01, and `WeekdayOf` numbers Sunday 0 to
Saturday 6, as `getDay` does.

Modules, one per file:

- `Wrappers`: `Option` and `Result`.
- `Text`: the JavaScript white-space class, `trim`, ASCII lower-casing and decimal numerals.
- `Numeric`: exact rounding, half up.
- `Seqs`: `filter` and subsequences.
- `TaskTypes`: the row and create-input records.
- `TimeEstimate`, `DueDate`, `FavoriteCard`, `Dashboard`, `Favorites`, `KanbanBoard`, `TaskStore`, `AddTaskDialog`: one module per source file.

Facts about the program that shape the model:

- The chat assistant has no command interpreter; it forwards text to a
  remote completion (`AIChatbot.tsx`). The text-parsing helpers are the ones
  in `src/lib/date-utils.ts`, and those are what is modelled.
- Rows are ordered by one global `position` (`.order('position')`), not by
  position within a status, and a new task takes the largest position in the
  list plus one, whatever its status. `TaskStore` models this global order.
- `src/types/task.ts` has no `time_estimate` field, yet the card and the
  dialog read and write one. The model adds an optional whole number of
  minutes to `Task` and to `CreateTaskInput`.

## Model

| member | source | states |
|---|---|---|
| TaskTypes.WithStatus | src/components/kanban/KanbanBoard.tsx:46-47 | a task is in the result exactly when it is in the list and carries that status |
| TaskTypes.WithStatusPartition | src/pages/Home.tsx:11-13 | the three status filters together hold every task exactly once: their sizes add up to the list's |
| Text.Trim | src/lib/date-utils.ts:47 | the result is the input minus leading and trailing white space: it is an infix flanked by blanks, has no white space at either end, and is empty exactly when the input is blank |
| Text.TrimIdempotent | src/components/kanban/AddTaskDialog.tsx:31 | trimming a trimmed string changes nothing |
| Text.NormalizeIdempotent | src/lib/date-utils.ts:47 | `toLowerCase().trim()` applied twice is applied once |
| Text.Show | src/lib/date-utils.ts:34-41 | the decimal rendering of a number is a digit string that reads back as that number and has no leading zero, as `${n}` gives |
| Numeric.RoundHalfUpNearest | src/lib/date-utils.ts:54 | `Math.round` on an exact ratio gives the nearest whole number, a half rounding up |
| Seqs.Filter | src/pages/Favorites.tsx:12 | membership both ways: every kept element satisfies the test and comes from the input, and every input element that satisfies it is kept |
| Seqs.FilterCount | src/pages/Favorites.tsx:12 | `filter` keeps each qualifying element exactly as often as the input holds it, and no other element |
| Seqs.FilterIsSubsequence | src/components/kanban/AddTaskDialog.tsx:64 | `filter` keeps the input's order |
| TimeEstimate.FormatTimeEstimate | src/lib/date-utils.ts:27-42 | the text is empty exactly for an absent, zero or negative estimate |
| TimeEstimate.FormatParseRoundTrip | src/lib/date-utils.ts:27-69 | every positive estimate, formatted, parses back to the same number of minutes |
| TimeEstimate.Match | src/lib/date-utils.ts:50-59 | a pattern's match is a well-formed capture that spells the input back exactly |
| TimeEstimate.MatchComplete | src/lib/date-utils.ts:50-59 | each pattern accepts every well-formed text of its shape, with that capture |
| TimeEstimate.FirstMatch | src/lib/date-utils.ts:61-66 | the loop stops at the first pattern that matches, or runs off the end when none does |
| TimeEstimate.ParseWith | src/lib/date-utils.ts:44-69 | the empty string is rejected and every accepted text gives a non-negative number of minutes, for any pattern table |
| TimeEstimate.ParseWithPrefix | src/lib/date-utils.ts:61-66 | cutting off the tail of a table changes no result when the first match never lies in that tail |
| TimeEstimate.MatchNeedsDigit | src/lib/date-utils.ts:51-58 | every pattern needs a leading digit |
| TimeEstimate.ParseTimeEstimate | src/lib/date-utils.ts:44-69 | the empty string is rejected, and every accepted text gives a non-negative number of minutes |
| TimeEstimate.ParseOfNormalized | src/lib/date-utils.ts:45-47 | case and surrounding white space do not matter: any text parses exactly as its lower-cased, trimmed form |
| TimeEstimate.ParseIgnoresCaseAndPadding | src/lib/date-utils.ts:45-47 | two texts with the same lower-cased, trimmed form parse to the same result |
| TimeEstimate.ParseNormalizedSpelling | src/lib/date-utils.ts:47-66 | any text that lower-cases and trims to something a pattern of the table spells, in whatever case and padding, parses to that spelling's value |
| TimeEstimate.ParseDisplayedAnyCase | src/lib/date-utils.ts:27-69 | a displayed estimate re-typed in any case and padding still parses back to its number of minutes |
| TimeEstimate.ParseWithRejects | src/lib/date-utils.ts:61-68 | a text is rejected exactly when it is empty or no pattern matches its normalised form |
| TimeEstimate.LaterPatternsNeverFire | src/lib/date-utils.ts:57-58 | neither the third nor the fourth pattern is ever the first to match |
| TimeEstimate.TwoPatternsSuffice | src/lib/date-utils.ts:50-59 | dropping the last two patterns changes no result |
| TimeEstimate.HoursWordSubsumed | src/lib/date-utils.ts:51-57 | whatever the third pattern accepts, the first accepts with the same capture |
| TimeEstimate.MinutesWordSubsumed | src/lib/date-utils.ts:56-58 | whatever the fourth pattern accepts, the second accepts with the same capture |
| TimeEstimate.ParseHoursAndMinutes | src/lib/date-utils.ts:51-54 | `<H>h <M>m` parses to 60H + M |
| TimeEstimate.ParseHours | src/lib/date-utils.ts:51-54 | `<H>h` parses to 60H |
| TimeEstimate.ParseMinutes | src/lib/date-utils.ts:56 | `<M>`, blanks and any minute word (m, min, mins, minute, minutes) parse to M |
| TimeEstimate.ParseShortMinutes | src/lib/date-utils.ts:56 | `<M>m` parses to M |
| TimeEstimate.ParseDecimalHours | src/lib/date-utils.ts:51-54 | `<w>.<f> hours` parses to 60 times the decimal, rounded half up |
| TimeEstimate.ParseNeedsLeadingDigit | src/lib/date-utils.ts:50-68 | a text whose normalised form does not start with a digit is rejected |
| TimeEstimate.SpellCanonical | src/lib/date-utils.ts:47 | a well-formed capture spells a text that lower-casing and trimming leave unchanged |
| DueDate.WeekdayOf | src/lib/date-utils.ts:92 | `getDay`: a weekday number below 7 |
| DueDate.DayIndex | src/lib/date-utils.ts:88-91 | `indexOf` finds a name's place in the Sunday-first table |
| DueDate.DayIndexOfName | src/lib/date-utils.ts:88-91 | `indexOf` inverts the weekday-name table |
| DueDate.NextWeekdayOffset | src/lib/date-utils.ts:92 | the offset is 1 to 7 days, lands on the target weekday, is 7 exactly when today has that weekday, and is the first such day |
| DueDate.MatchNextWeekday | src/lib/date-utils.ts:89 | a match gives the index of a weekday |
| DueDate.MatchNextWeekdaySound | src/lib/date-utils.ts:89 | a match is `next`, a non-empty run of white space and a weekday name, nothing else |
| DueDate.MatchNextWeekdayComplete | src/lib/date-utils.ts:89 | every `next`, white space, weekday-name text matches with that weekday |
| DueDate.MatchInDays | src/lib/date-utils.ts:99 | a match is `in`, white space, digits, white space and `day` or `days`, and spells the input back |
| DueDate.MatchInDaysComplete | src/lib/date-utils.ts:99 | every well-formed `in N days` text matches with its own pieces |
| DueDate.NextNeedsN | src/lib/date-utils.ts:89 | a text that does not start with `n` is not a next-weekday form |
| DueDate.KeywordDay | src/lib/date-utils.ts:77-104 | given what the two patterns found, the day a keyword form points `setDate` at (before any range check) is never in the past |
| DueDate.DueKeyword | src/lib/date-utils.ts:77-104 | the day a keyword form points `setDate` at: `today` is today, `tomorrow` the next day, and none lies in the past |
| DueDate.ParseDueDate | src/lib/date-utils.ts:71-117 | empty input gives nothing; a keyword form gives its day, and throws `RangeError` exactly when that day lies beyond the 100,000,000 days a `Date` can hold; anything else goes to the general date parser |
| DueDate.ParseKeyword | src/lib/date-utils.ts:77-104 | once a keyword form names a day, the parser returns it when a `Date` can hold it and throws `RangeError` otherwise |
| DueDate.NextWeekdayDue | src/lib/date-utils.ts:88-96 | `next <weekday>` is the first later day with that weekday, a week ahead when today already has it |
| DueDate.InDaysDue | src/lib/date-utils.ts:98-104 | `in N days` points `setDate` at N days after today |
| DueDate.ParseNextWeekday | src/lib/date-utils.ts:71-96 | through the whole parser, whatever the case and the surrounding white space, `next <weekday>` gives the keyword rule's day, which is always representable when today is at least a week inside the `Date` range |
| DueDate.ParseInDays | src/lib/date-utils.ts:71-104 | through the whole parser, `in N days` is due N days after today when a `Date` can hold that day, and throws `RangeError` when it cannot |
| DueDate.KeywordsIgnoreFallback | src/lib/date-utils.ts:106-116 | the general date parser is consulted only when no keyword rule applies |
| DueDate.FormatSmartDate | src/lib/date-utils.ts:3-25 | missing and invalid dates show nothing; a valid date always shows a label |
| DueDate.SmartDatePrecedence | src/lib/date-utils.ts:9-21 | `Today` exactly for today; `Tomorrow` exactly for the next day; a weekday name exactly for the other days of this week; the month-day form otherwise |
| DueDate.SameWeekNear | src/lib/date-utils.ts:17 | a day of the current week is within six days of today, offset by the weekday difference |
| DueDate.SaturdayTomorrow | src/lib/date-utils.ts:13-17 | on a Saturday, tomorrow falls in the next week and is still labelled `Tomorrow` |
| DueDate.NextWeekdayShown | src/lib/date-utils.ts:3-25 | a `next <weekday>` date shows as `Tomorrow` one day ahead, by its name later this week, and in month-day form otherwise |
| FavoriteCard.PriorityLabel | src/components/kanban/FavoriteTaskCard.tsx:14-27 | every priority has a non-empty label |
| FavoriteCard.PriorityOfLabel | src/components/kanban/FavoriteTaskCard.tsx:14-27 | reading a label back gives a priority that carries that label |
| FavoriteCard.PriorityLabelRoundTrip | src/components/kanban/FavoriteTaskCard.tsx:14-27 | a priority's label reads back as that priority |
| FavoriteCard.PriorityLabelInjective | src/components/kanban/FavoriteTaskCard.tsx:14-27 | two priorities share a label only when they are the same |
| FavoriteCard.SplitLeading | src/components/kanban/FavoriteTaskCard.tsx:31-39 | no emoji exactly when the title is empty or starts outside the run class. Otherwise the emoji is the longest leading run, and the clean title follows it after the white space and starts with none. |
| FavoriteCard.SplitLeadingOfParts | src/components/kanban/FavoriteTaskCard.tsx:31-37 | a run, white space and a rest are split back into exactly that run and rest |
| FavoriteCard.ExtractEmoji | src/components/kanban/FavoriteTaskCard.tsx:30-40 | no emoji exactly when the title does not start with an emoji or joiner; the emoji holds only emoji and joiners |
| FavoriteCard.ExtractEmojiDecomposes | src/components/kanban/FavoriteTaskCard.tsx:33-37 | the emoji, some white space and the clean title are the whole title |
| FavoriteCard.ExtractEmojiOfParts | src/components/kanban/FavoriteTaskCard.tsx:30-37 | a title written as emoji, white space and text splits into that emoji and that text |
| FavoriteCard.NumberTitleAsWritten | src/components/kanban/FavoriteTaskCard.tsx:31 | the title `2024 plan` yields the emoji `2024` |
| FavoriteCard.ExtractPictographs | src/components/kanban/FavoriteTaskCard.tsx:30-40 | the corrected split: same rules, with no ASCII character in the emoji |
| FavoriteCard.PictographsKeepAsciiTitles | src/components/kanban/FavoriteTaskCard.tsx:31 | under the corrected split, a title that starts with an ASCII character keeps it and has no emoji |
| FavoriteCard.PictographsAgreeOffAscii | src/components/kanban/FavoriteTaskCard.tsx:30-40 | the corrected split agrees with the original on every title whose ASCII characters are not emoji |
| FavoriteCard.NumberTitleCorrected | src/components/kanban/FavoriteTaskCard.tsx:31 | under the corrected split, `2024 plan` has no emoji and keeps its title |
| Dashboard.StatusCountIsOccurrences | src/pages/Home.tsx:11-13 | a status count is the number of tasks carrying that status |
| Dashboard.CompletionRate | src/pages/Home.tsx:14 | the rate is the whole percentage nearest to done/total, at most 100; it is 0 with no tasks or none done, and 100 when all are done |
| Dashboard.RateLabel | src/pages/Home.tsx:20 | the label is a numeral with no leading zero that reads back as the rate, followed by `%` |
| Dashboard.RecentActivity | src/pages/Home.tsx:54-58 | the empty message exactly for no tasks; otherwise the first five tasks, or all of them when fewer, in order |
| Dashboard.RecentIgnoresLaterTasks | src/pages/Home.tsx:58 | tasks after the first five never change the panel |
| Dashboard.DashboardStats | src/pages/Home.tsx:11-21 | each count is the number of tasks with that status, and the three add up to the number of tasks; the rate card shows `CompletionRate` of the task total and the done count, so it is at most 100, 0 with no tasks and 100 when all are done |
| Dashboard.DashboardCountsOccurrences | src/pages/Home.tsx:11-13 | each card counts exactly the tasks of its status |
| Favorites.FavoriteTasks | src/pages/Favorites.tsx:12 | the favourites are exactly the high-priority tasks of the list |
| Favorites.FavoritesKeepOrder | src/pages/Favorites.tsx:12 | favourites appear in list order |
| Favorites.FavoritesIdempotent | src/pages/Favorites.tsx:12 | filtering the favourites again changes nothing |
| Favorites.FavoritesPage | src/pages/Favorites.tsx:12-38 | the empty state appears exactly when no task is high priority; otherwise the cards are exactly the favourite list, `FavoriteTasks(tasks)`, which is non-empty and all high priority |
| KanbanBoard.ColumnOf | src/components/kanban/KanbanBoard.tsx:8-12 | every status has a column |
| KanbanBoard.ColumnsDistinct | src/components/kanban/KanbanBoard.tsx:8-12 | no two columns show the same status |
| KanbanBoard.BoardColumns | src/components/kanban/KanbanBoard.tsx:61-66 | three columns, each holding only its status, that together hold every task once |
| KanbanBoard.TaskInOneColumn | src/components/kanban/KanbanBoard.tsx:46-66 | a task appears in its own status's column and in no other |
| KanbanBoard.ColumnKeepsOrder | src/components/kanban/KanbanBoard.tsx:46-47 | a column lists its tasks in list order |
| KanbanBoard.HandleAddTask | src/components/kanban/KanbanBoard.tsx:20-23 | the dialog opens for the column's status; the drag state is untouched |
| KanbanBoard.HandleDragStart | src/components/kanban/KanbanBoard.tsx:25-28 | the dragged task is remembered and nothing else changes |
| KanbanBoard.HandleDrop | src/components/kanban/KanbanBoard.tsx:35-44 | one move is issued, for the dragged task and the target status, exactly when a task is dragged from another column; the drag state is cleared either way |
| KanbanBoard.DropTwiceMovesOnce | src/components/kanban/KanbanBoard.tsx:38-41 | a second drop issues no move |
| KanbanBoard.DragAndDropMoves | src/components/kanban/KanbanBoard.tsx:25-44 | dragging a stored task onto a column leaves it with that status and every other row as it was |
| KanbanBoard.SubmitDialog | src/components/kanban/KanbanBoard.tsx:78-83 | a submit creates a task with the dialog's status and closes the dialog; an ignored submit changes nothing |
| KanbanBoard.AddFromColumn | src/components/kanban/KanbanBoard.tsx:20-83 | a task added from a column's button lands in that column |
| TaskStore.MaxPosition | src/hooks/useTasks.ts:24 | `Math.max(0, ...positions)`: at least 0, no smaller than any position, and either 0 or some task's position |
| TaskStore.NextPosition | src/hooks/useTasks.ts:24 | a new task's position is above every listed position, at least 1, and 1 for an empty list |
| TaskStore.NextPositionLeast | src/hooks/useTasks.ts:24 | it is the least such position |
| TaskStore.NewRow | src/hooks/useTasks.ts:27-31 | the inserted row carries the input's fields, the next position, and the tags or `[]` |
| TaskStore.CreateTask | src/hooks/useTasks.ts:22-37 | an insert fails exactly on an id already present; otherwise it adds the new row under its id |
| TaskStore.CreateTaskAddsOne | src/hooks/useTasks.ts:22-37 | creating adds one id and changes no existing row |
| TaskStore.Apply | src/hooks/useTasks.ts:48-51 | every field the patch names takes the new value, the others and the id keep theirs |
| TaskStore.ApplyEmpty | src/hooks/useTasks.ts:48-51 | an empty patch leaves the row unchanged |
| TaskStore.UpdateTask | src/hooks/useTasks.ts:47-58 | an update fails exactly on a missing id; otherwise it returns and stores the patched row |
| TaskStore.UpdateTaskScoped | src/hooks/useTasks.ts:47-58 | an update changes only the addressed row and keeps the set of ids |
| TaskStore.MoveTask | src/hooks/useTasks.ts:81-92 | a move fails exactly on a missing id; otherwise the row gets the new status and nothing else changes |
| TaskStore.MoveTaskTwice | src/hooks/useTasks.ts:81-92 | moving twice is moving once, to the second status |
| TaskStore.MoveTaskToOwnStatus | src/hooks/useTasks.ts:81-92 | moving a row to the status it has changes nothing |
| TaskStore.DeleteTask | src/hooks/useTasks.ts:67-71 | deleting removes exactly that id and keeps every other row |
| TaskStore.DeleteTaskIdempotent | src/hooks/useTasks.ts:67-71 | deleting twice is deleting once, and deleting a missing id is a no-op |
| TaskStore.DeleteUndoesCreate | src/hooks/useTasks.ts:22-79 | deleting a freshly created row restores the table |
| TaskStore.InsertByPosition | src/hooks/useTasks.ts:15 | inserting into a position-sorted list keeps it sorted and adds exactly that row |
| TaskStore.ListTasks | src/hooks/useTasks.ts:9-20 | the list is sorted by position and holds every stored row and nothing else, each once when no row is filed twice |
| AddTaskDialog.AddTag | src/components/kanban/AddTaskDialog.tsx:56-61 | the trimmed input is appended and the input cleared exactly when it is non-empty and not yet a tag; otherwise nothing changes |
| AddTaskDialog.RemoveTag | src/components/kanban/AddTaskDialog.tsx:63-65 | the tag is gone, every other tag stays, and nothing new appears |
| AddTaskDialog.RemoveTagKeepsOrder | src/components/kanban/AddTaskDialog.tsx:63-65 | the remaining tags keep their order |
| AddTaskDialog.RemoveAbsentTag | src/components/kanban/AddTaskDialog.tsx:63-65 | removing a tag the list lacks changes nothing |
| AddTaskDialog.AddTagKeepsTagsValid | src/components/kanban/AddTaskDialog.tsx:56-61 | adding a tag keeps the tags distinct, non-empty and trimmed |
| AddTaskDialog.FilterKeepsTagsValid | src/components/kanban/AddTaskDialog.tsx:63-65 | removing a tag keeps the tags distinct, non-empty and trimmed |
| AddTaskDialog.SubmittedEstimate | src/components/kanban/AddTaskDialog.tsx:33-41 | no estimate when parsing fails or gives 0; otherwise the positive parsed minutes |
| AddTaskDialog.Submit | src/components/kanban/AddTaskDialog.tsx:29-54 | a blank title is ignored. Otherwise the input carries the trimmed title, the trimmed description or none, the priority, the column's status, the date or none, the estimate and the tags. The form resets and the dialog closes. |
| AddTaskDialog.SubmitTrims | src/components/kanban/AddTaskDialog.tsx:36-37 | the submitted title is non-empty, and title and description have no white space at either end |
| AddTaskDialog.SubmitResetIgnored | src/components/kanban/AddTaskDialog.tsx:45-53 | the reset form cannot be submitted again |
| AddTaskDialog.SubmitDisplayedEstimate | src/components/kanban/AddTaskDialog.tsx:33-41 | an estimate typed as a card displays it is submitted as that number of minutes |
| AddTaskDialog.TagsAlwaysValid | src/components/kanban/AddTaskDialog.tsx:21-65 | whatever the user does to the form, a valid tag list stays valid |
| AddTaskDialog.TagsValidFromEmpty | src/components/kanban/AddTaskDialog.tsx:27 | starting from the empty form, the tags are never duplicated, empty or untrimmed |

## Left out

- Network and persistence: the database client, react-query's cache and invalidation, the toasts and the loading spinner are not modelled. The table is a map from id to row. The id and the column defaults for an omitted priority or status are parameters, because the database supplies them.
- Row timestamps (`created_at`, `updated_at`) are not modelled, because no modelled logic reads them.
- TaskStore.ListTasks: rows with equal positions come back in an order the database chooses; the model fixes one such order and promises only sortedness and membership.
- TaskStore.CreateTask: the `DuplicateId` error stands for the primary-key violation an insert would raise; the hook itself never checks ids.
- The current date is a parameter (`today`) rather than `new Date()`.
- DueDate.ParseDueDate: the final `new Date(input)` branch is a parameter, `fallback`, because JavaScript's general date parser is implementation-defined. The model states only that it is consulted exactly when no keyword rule applies.
- DueDate.InDateRange: a `Date` holds 8.64e15 ms either side of 1970-01-01 UTC. The model cuts at whole days, ±100,000,000, so a day exactly at either end may in fact be representable or not depending on the time of day and the time zone. Very long digit runs that `parseInt` rounds or turns into `Infinity` all lie beyond the range and throw either way.
- `format(date, 'yyyy-MM-dd')` and `format(date, 'MMM d')` are left out: dates stay day numbers, and the month-day label is the day itself. The calendar conversion is not modelled.
- DueDate.FormatSmartDate: `parseISO` is abstracted to `DateField` (missing, invalid or a day). An invalid string is the case where `format` throws and the catch returns the empty string.
- DueDate.SameWeek: `isThisWeek` is made concrete as "same week, starting on Sunday", date-fns' default; locale-dependent week starts are not modelled.
- Date arithmetic across daylight-saving changes is not modelled: a day is a day.
- Floating point: `parseFloat` and `Math.round(hours * 60 + mins)` are computed exactly on decimals (`TimeEstimate.Value`, rounding half up), so binary-fraction rounding errors are not modelled. `Dashboard.CompletionRate` likewise computes `Math.round(done / total * 100)` exactly. Very large numbers that lose precision as IEEE doubles are not modelled.
- `toLowerCase` is modelled on ASCII letters only; lower-casing of other text is not modelled. Some non-ASCII characters do lower-case into pattern letters: `İ` (U+0130) becomes `i` followed by U+0307, and the Kelvin sign becomes `k`. Matching is still unaffected. No pattern uses `k`, and a U+0307 after the `i` is a character that no anchored pattern admits at that place, so such text is rejected with or without full lower-casing.
- FavoriteCard.ExtractEmoji: Unicode's `Emoji` property is a parameter, `isEmoji`, since the Unicode tables are not part of this model. `EmojiTable` pins down only what the finding needs: among ASCII, exactly the digits, `#` and `*` are emoji, and no white space is.
- The priority colours and class names, the card, column and page layout, the routing, sidebar, header, settings and help pages are UI and not modelled.
- The chat assistant (`AIChatbot.tsx`) is not part of this model: it streams text from a remote completion service.
- `handleDragOver` only sets the browser's drop effect and is not modelled.
- TimeEstimate.FormatTimeEstimate: its contract states only when the text is empty; its meaning is carried by `TimeEstimate.FormatParseRoundTrip`.

## Findings

| source | as written | input that shows it | evidently intended | confidence | as-written member | corrected member |
|---|---|---|---|---|---|---|
| src/components/kanban/FavoriteTaskCard.tsx:31 | `/^([\p{Emoji}\u200d]+)\s*/u` treats the ASCII digits, `#` and `*` as emoji, because Unicode gives them the Emoji property | the title `2024 plan` shows `2024` as its emoji and `plan` as its title | only pictographic emoji (and joiners) are split off; `2024 plan` keeps its whole title | not executed | FavoriteCard.NumberTitleAsWritten | FavoriteCard.ExtractPictographs |
