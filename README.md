# todo-cli: a Dafny model of the task list

This project models the in-memory logic of a small Rust to-do tool. The tool
has a command line and a terminal UI, and it stores the task list in
`todos.json`. Three parts are modelled:

- **The task record and its file** (`task.dfy`, module `Tasks`).
  - A `Task` has a `u32` id, a text, a done flag and an optional due date.
  - The JSON form of a task is an abstract JSON value. The `due_date` key is
    there only when the task has a due date.
  - `todos.json` is a class `TodoFile` with one state field. The file is
    missing, unreadable, holding text that is not JSON, or holding a JSON
    document.
  - `Load` falls back to the empty list whenever the file cannot be used.
    `Save` overwrites the file. A failed write is a panic, so `Save` reports
    it rather than succeeding silently.
- **The commands** (`commands.dfy`, module `Commands`).
  - add, toggle, delete, edit, set-due-date, search, list, archive-by-age and
    info, with the printing removed.
  - The loops over the task vector (`toggle_task`, `edit_task`,
    `set_due_date`, the `retain` calls) are methods with loop invariants.
    They are proved against specification functions such as `UpdateFirst`
    and `Seqs.Filter`.
  - The pure filters (search, the list selection, the stable "undone first"
    sort, the counts) are functions.
  - Each command also has a driver method. It loads `todos.json`, applies the
    list operation and saves only when the source does.
- **The terminal UI** (`tui.dfy`, module `Tui`).
  - Spec functions on an `AppState` value (tasks, selection, mode, input,
    message) define each `App` method and the key table of `run_app`, one key
    at a time.
  - The class `App` keeps that state in fields. Each method, and `HandleKey`,
    is proved to change the fields and the file exactly as its function says.
  - Lemmas on the key table give its properties: wrap-around navigation,
    selection repair, Esc, typing, quitting, and keeping the selection within
    the reachable states.

Helper modules:

- `seqs.dfy`: ordered filtering, subsequences and counting.
- `text.dfy`: lexicographic `String` order, `trim`, ASCII lower-casing,
  substring search, and the archive confirmation rule.
- `options.dfy`: `Option`.

The calendar (`get_today`, `get_date_with_offset`) and the confirmation line
read from standard input are parameters. The archive sink `add_to_removed`
becomes the `archived` out-parameter.

The repository's tests and its library exports expect more than the modelled
code does. The model follows the code:

- The tests expect empty, blank and over-long texts to be refused
  (tests/command_tests.rs:36-54) and bad dates to be rejected
  (tests/validation_tests.rs:17-28). The code checks nothing about text or
  dates, so the model rejects nothing.
- src/lib.rs:18 re-exports `save_tasks_safe`, `validate_date` and
  `restore_from_backup` from `task`, but src/task.rs defines only
  `load_tasks` and `save_tasks`. There is no backup or restore; the file is
  `todos.json` in the working directory.
- A failed write panics in the code. It is not reported as an error value.
- `toggle`/`delete` act on id 0 when such a task exists.
- The comment at src/commands.rs:142-143 says `days_ago = 1` removes tasks
  2+ days old. The code's cutoff is `today − (days_ago + 1)` compared with a
  strict `<`, so a task due exactly on the cutoff is kept and `days_ago = 1`
  removes only tasks 3+ days old; `days_ago = 0` keeps yesterday's tasks.
  `Commands.CutoffDayIsKept` and `Commands.DaysAgoZeroKeepsYesterday` prove
  what the code does.

## Model

| member | source | states |
|---|---|---|
| `Tasks.EncodeTask` | src/task.rs:6-13 | a task serializes to an object with keys id, text, done, plus `due_date` exactly when the due date is present |
| `Tasks.DecodeTask` | src/task.rs:6-13 | decodes exactly when the value is an object with a `u32` number `id`, a string `text`, a boolean `done` and a `due_date` that is missing, null or a string, whatever other keys it has; a decoded task takes each field from its key, and a missing or null `due_date` gives `None` |
| `Tasks.EncodeTasks` | src/task.rs:28 | `to_string_pretty` of the list is a JSON array holding each task's object, in order; `DecodeEncodeTasks` proves it decodes back |
| `Tasks.DecodeAll` | src/task.rs:23 | a list decodes only if every item does, item by item in order; one bad item fails the whole list |
| `Tasks.DecodeTasks` | src/task.rs:23 | `from_str::<Vec<Task>>` succeeds exactly on an array whose every item decodes, giving those tasks in order; a non-array fails |
| `Tasks.DecodeEncodeTask` | tests/task_tests.rs:67-106 | one task survives the round trip with all four fields, with or without a due date |
| `Tasks.DecodeEncodeTasks` | src/task.rs:23-29 | serializing then deserializing a list gives back the same tasks in the same order |
| `Tasks.Loaded` | src/task.rs:16-24 | the result of `load_tasks`: empty unless the file holds a JSON document, empty when that document is not a task list, and exactly the decoded list when it is one; `LoadFallsBack`, `LoadIgnoresBadDocument` and `SaveThenLoad` are proved about it |
| `Tasks.AfterSave` | src/task.rs:27-30 | the file after `save_tasks`: on a successful write it holds a document that decodes to exactly the saved list; on a failed write it is unchanged |
| `Tasks.LoadFallsBack` | src/task.rs:17-23 | a missing file, an unreadable file (empty buffer) or text that is not JSON loads as the empty list |
| `Tasks.LoadIgnoresBadDocument` | src/task.rs:23 | a JSON document that is not a task list loads as the empty list |
| `Tasks.SaveThenLoad` | src/task.rs:16-29 | after a successful save, loading gives back the saved list |
| `Tasks.TodoFile.Load` | src/task.rs:16-24 | returns the decoded list, or the empty list (never an error) when the file is missing, unreadable or malformed |
| `Tasks.TodoFile.Save` | src/task.rs:27-30 | on success the file holds exactly the serialized list; a failed write is reported (panic) and is never a silent success |
| `Text.Cmp` | src/commands.rs:151 | lexicographic comparison returns Equal exactly for equal strings |
| `Text.CmpAntisymmetric` | src/commands.rs:151 | swapping the operands reverses the comparison |
| `Text.LexLessTransitive` | src/commands.rs:151 | string `<` is transitive |
| `Text.LexLessTotal` | src/commands.rs:151 | string `<` is irreflexive, asymmetric and total on distinct strings |
| `Text.DigitStringOrder` | src/commands.rs:151 | of two digit strings of equal length, the string `<` holds exactly when the first denotes the smaller number |
| `Text.DateOrderIsChronological` | src/commands.rs:147-156 | on `YYYY-MM-DD` strings the string `<` is the calendar order: earlier year, else earlier month, else earlier day |
| `Text.LexGeIsNotLess` | src/commands.rs:219 | string `>=` is exactly the negation of `<`, i.e. equal or greater |
| `Text.TrimStart` | src/commands.rs:196 | removes exactly the leading whitespace: a suffix of the input, all dropped characters whitespace, result does not start with whitespace |
| `Text.TrimEnd` | src/commands.rs:196 | removes exactly the trailing whitespace, symmetrically |
| `Text.ContainsOccurrence` | src/commands.rs:310 | an occurrence of the query at any offset makes `contains` true |
| `Text.ContainsHasOffset` | src/commands.rs:310 | when `contains` holds, the query occurs at some offset |
| `Text.ConfirmedIff` | src/commands.rs:196-198 | the answer confirms exactly when, trimmed, it is `y` or `yes` in any letter case |
| `Commands.MaxId` | src/commands.rs:7 | the largest id in the list (an upper bound that is attained), 0 for the empty list |
| `Commands.NextId` | src/commands.rs:7 | the new id exceeds every existing id, is max+1, and is 1 on an empty list; requires the max below `u32::MAX` |
| `Commands.FirstIndex` | src/commands.rs:105-112 | the index of the first task with the id, or none exactly when no task has it |
| `Commands.UpdateFirst` | src/commands.rs:105-112 | only the first task with the id changes; with no match the list is unchanged |
| `Commands.UpdateFirstChangesOnlyMatch` | src/commands.rs:239-245 | toggle, edit and set-due-date change only `done`, the text or the due date of the matched task, keeping its id |
| `Commands.KeptIsNotOlder` | src/commands.rs:200-223 | the retain filter (`>=` cutoff or no date) is the exact complement of the archive filter (`<` cutoff) |
| `Commands.OlderThanIsEarlierDay` | src/commands.rs:147-156 | with a due date and cutoff in `YYYY-MM-DD` form, a task is archived exactly when it is due on a calendar day before the cutoff |
| `Commands.ArchiveIsIdempotent` | src/commands.rs:147-224 | after archiving, nothing left is older than the same cutoff, and retaining again keeps everything |
| `Commands.Retain` | src/commands.rs:126 | in-place `retain` leaves exactly the tasks that pass, in order |
| `Commands.AddTo` | src/commands.rs:6-15 | appends one pending task with id max+1 (1 if empty) and the given due date; earlier tasks unchanged |
| `Commands.Toggle` | src/commands.rs:100-112 | flips `done` on the first task with the id only; reports whether one was found and its new state |
| `Commands.ToggleTwiceRestores` | src/commands.rs:100-112 | toggling the same id twice gives back the original list |
| `Commands.Edit` | src/commands.rs:239-245 | replaces the text of the first task with the id only; found iff some task has the id |
| `Commands.SetDue` | src/commands.rs:260-266 | stores the date string as given on the first task with the id only; found iff some task has the id |
| `Commands.Delete` | src/commands.rs:123-128 | removes every task with the id and keeps the rest in order; reports removal iff the length dropped iff the id occurred; otherwise unchanged |
| `Commands.AddThenDeleteRestores` | src/commands.rs:6-15 | deleting (src/commands.rs:123-128) the id that add just assigned gives back the list as it was before the add |
| `Commands.Cutoff` | src/commands.rs:144-145 | the calendar date `days_ago + 1` days before today; `CutoffDayIsKept`, `DaysAgoZeroKeepsYesterday` and `RemoveByDate` state what archiving against it does |
| `Commands.RemoveByDate` | src/commands.rs:137-224 | cutoff is offset −(days_ago+1); no match or an unconfirmed answer leaves the list unchanged; else archived = due before cutoff, retained = the rest, removed count = number archived |
| `Commands.ArchivePartition` | src/commands.rs:200-224 | archived and retained are an order-preserving partition of the list; undated tasks are always retained |
| `Commands.CutoffDayIsKept` | src/commands.rs:148-156 | a task due exactly on the cutoff date is not archived |
| `Commands.DaysAgoZeroKeepsYesterday` | src/commands.rs:144-156 | with days_ago 0 and cutoff 2025-11-09, a task due 2025-11-09 is kept and one due 2025-11-08 is archived |
| `Commands.SearchResults` | src/commands.rs:309-311 | exactly the tasks whose lower-cased text contains the lower-cased query, in original order, one entry per matching task (duplicates included) |
| `Commands.SearchEmptyQuery` | src/commands.rs:309-311 | the empty query returns the whole list |
| `Commands.SearchIgnoresQueryCase` | src/commands.rs:309-311 | queries that lower-case alike return the same tasks |
| `Commands.UndoneFirstIsStableSort` | src/commands.rs:69-72 | the undone-first order is sorted by `done`, a permutation, and keeps the relative order within each group |
| `Commands.Selection` | src/commands.rs:45-56 | `today_only`: exactly the tasks due today; else `show_all`: the whole list; else exactly the pending tasks; the filtered cases keep the original order and every copy (their length is the count of matching tasks) |
| `Commands.Listed` | src/commands.rs:35-72 | `today_only` lists exactly the tasks due today; else `show_all` lists all; else only pending, in order; under either flag sorted undone-first with each group in its original order (the stable sort); empty list and empty selection distinguished: `NoneSelected` exactly when the list is non-empty and the selection is empty |
| `Commands.Info` | src/commands.rs:347-349 | completed + pending = total, each counted by its filter |
| `Commands.AddTask` | src/commands.rs:5-17 | loads, appends a pending task with id max+1 (1 if empty) due on the offset date, and saves |
| `Commands.ToggleTask` | src/commands.rs:100-119 | saves the toggled list only when the id is found; otherwise the file is untouched |
| `Commands.DeleteTask` | src/commands.rs:123-133 | saves the filtered list only when something was removed; otherwise the file is untouched |
| `Commands.EditTask` | src/commands.rs:235-252 | saves the edited list only when the id is found |
| `Commands.SetDueDate` | src/commands.rs:256-273 | saves the list with the unchecked date only when the id is found |
| `Commands.RemoveTasksByDate` | src/commands.rs:137-231 | archives and saves the retained list only on a confirmed answer with at least one match; otherwise nothing is archived or written |
| `Commands.Search` | src/commands.rs:307-311 | the search results of the loaded list; the file is not changed |
| `Commands.ListTasks` | src/commands.rs:35-72 | the listing of the loaded list |
| `Commands.ShowInfo` | src/commands.rs:341-349 | the counts of the loaded list |
| `Tui.Initial` | src/tui.rs:35-48 | index 0 is selected exactly when the loaded list is non-empty, otherwise nothing; normal mode, empty input, no message |
| `Tui.NextIndex` | src/tui.rs:50-62 | `next` is increment modulo the length (last goes to 0), `None` goes to 0, and the result is in range on a non-empty list |
| `Tui.PrevIndex` | src/tui.rs:64-76 | `previous` is decrement modulo the length (0 goes to last), `None` goes to 0, and an in-range selection stays in range; needs a non-empty list only at index 0 |
| `Tui.NextPrevInverse` | src/tui.rs:50-76 | `previous` undoes `next` and `next` undoes `previous` on an in-range index |
| `Tui.SelectionAfterRemove` | src/tui.rs:96-101 | after a delete the selection is none iff the list is empty, clamped to the last index if past the end, else unchanged |
| `Tui.ToggleCurrentEffect` | src/tui.rs:78-86 | flips `done` on the selected task only, and saves, when the index is in range; otherwise nothing changes |
| `Tui.SpaceTwiceRestoresTasks` | src/tui.rs:191 | in normal mode, space pressed twice leaves the task list as it was |
| `Tui.DeleteCurrentEffect` | src/tui.rs:88-104 | removes exactly the selected task and repairs the selection; otherwise nothing changes |
| `Tui.AddEffect` | src/tui.rs:106-121 | with input: appends a pending undated task with id max+1 (1 if empty), selects it, clears input, normal mode; without input: nothing |
| `Tui.EditEffect` | src/tui.rs:123-133 | with input: updates the first task with the id (saving only then), always clears input and returns to normal; without input: nothing |
| `Tui.SetDueEffect` | src/tui.rs:135-145 | the same for the due date, stored unchecked |
| `Tui.Step` | src/tui.rs:184-270 | one key event's transition of the `run_app` loop; its properties are `StepKeepsSelectionValid`, `EscCancels`, `TypingEditsInput`, `QuitOnlyFromNormal`, `NonPressIgnored`, `EditAndDueDateKeys`, `SpaceTwiceRestoresTasks` and `OnlyListChangesSave` |
| `Tui.NormalStep` | src/tui.rs:187-224 | the normal-mode arm: q quits, j/k and arrows move with the underflow guards, space/Enter toggle, d deletes, a/e/t open the text modes, Esc cancels; implemented by `App.HandleNormalKey` |
| `Tui.TextStep` | src/tui.rs:225-269 | the text-mode arm: Enter commits to add, edit or set-due-date (with the u32 guard on add), Esc cancels, characters and Backspace edit the input; implemented by `App.HandleTextKey` |
| `Tui.StepKeepsSelectionValid` | src/tui.rs:186-270 | every key keeps the selection in range on a non-empty list, and none or 0 on an empty one |
| `Tui.EscCancels` | src/tui.rs:218-262 | Esc in any mode gives normal mode, empty input and no message, and changes nothing else |
| `Tui.TypingEditsInput` | src/tui.rs:225-268 | in the text modes every character (q, j, d included) is appended to the input and Backspace drops the last one |
| `Tui.QuitOnlyFromNormal` | src/tui.rs:186-188 | a key quits exactly when it is a pressed `q` in normal mode |
| `Tui.NonPressIgnored` | src/tui.rs:185 | events that are not presses change nothing |
| `Tui.EditAndDueDateKeys` | src/tui.rs:198-217 | `e` enters editing of the selected id with its text as input, `t` enters due-date entry with empty input; both do nothing without an in-range selection |
| `Tui.OnlyListChangesSave` | src/tui.rs:186-270 | only Enter, space and `d` can write the file |
| `Tui.App.constructor` | src/tui.rs:35-48 | the new App holds the loaded list in the initial state |
| `Tui.App.Next` | src/tui.rs:50-62 | changes only the selection, as `NextIndex` |
| `Tui.App.Previous` | src/tui.rs:64-76 | changes only the selection, as `PrevIndex` |
| `Tui.App.ToggleCurrent` | src/tui.rs:78-86 | fields and file change as `ToggleCurrentEffect`; a failed save panics after the in-memory change |
| `Tui.App.DeleteCurrent` | src/tui.rs:88-104 | fields and file change as `DeleteCurrentEffect` |
| `Tui.App.AddTask` | src/tui.rs:106-121 | fields and file change as `AddEffect` |
| `Tui.App.EditTask` | src/tui.rs:123-133 | fields and file change as `EditEffect` |
| `Tui.App.SetDueDate` | src/tui.rs:135-145 | fields and file change as `SetDueEffect` |
| `Tui.App.HandleKey` | src/tui.rs:184-270 | one key changes fields and file as the key table `Step` says, and keeps the selection invariant unless it panics |
| `Tui.App.HandleNormalKey` | src/tui.rs:187-224 | the normal-mode arm of the key table |
| `Tui.App.HandleTextKey` | src/tui.rs:225-269 | the adding, editing and due-date arms of the key table |

## Left out

- Terminal set-up, the blocking event loop and drawing (`run_tui`, the loop of `run_app`, `ui`): they are terminal I/O. Only the handling of one key event is modelled. `ui` receives the selection state mutably (src/tui.rs:323) and runs before every key read (src/tui.rs:182); the model assumes drawing leaves the selected index as the previous key left it, and the reachability claims about the selection below rest on that assumption.
- Printing, colours and message wording in the commands and the UI. UI messages are kept as a `Message` value that records which event set them.
- `party`, `rand` (clock-based randomness), `sync_tasks` (it only prints), `show_removed_tasks`, argument parsing (src/cli.rs), dispatch (src/main.rs) and the re-exports (src/lib.rs): they are output only or outside the list logic.
- `get_today`, `get_date_with_offset`, `add_to_removed`, `load_removed_tasks`, `get_data_location`, `validate_date` and the backup functions are not defined in any modelled file. Today, the offset date and the calendar are parameters; the archived list is returned instead of stored.
- Reading the confirmation line from standard input: the answer is a parameter.
- The characters of JSON: `to_string_pretty` and `from_str` are modelled on JSON values, not on text. Floats, duplicate keys and serde's acceptance of a struct written as an array are not represented.
- `Tasks.TodoFile.Save`: a write that fails half-way could leave a truncated file. The model keeps the old file, and the caller stops at once (the panic).
- `Text.Lower`: lower-cases ASCII letters only, not the full Unicode mapping of `to_lowercase`; `Commands.SearchResults` and `Text.ConfirmedIff` inherit this.
- `Commands.NextId`: requires the largest id to be below `u32::MAX`. The source would overflow. The UI step reports this as `Overflow` instead of adding (the panic of a debug build); the wrap-around to 0 of a release build is not modelled.
- `Commands.RemoveByDate`: requires `days_ago < i32::MAX`, because `days_ago + 1` overflows at `i32::MAX`.
- `Tui.NextIndex`: requires a non-empty list when something is selected, because `len() - 1` underflows otherwise. This state can be reached: `next` on an empty list selects 0. The key table reports it as `Overflow` (the panic of a debug build); the wrap-around of a release build, where `next` on an empty list moves `Some(0)` to `Some(1)`, is not modelled.
- `Tui.PrevIndex`: requires a non-empty list only when index 0 is selected, the one case where `previous` evaluates `len() - 1` (src/tui.rs:67-68); the key table reports that case as `Overflow`. An index above 0 on an empty list is not reachable (`Tui.StepKeepsSelectionValid`).
- After a panic the terminal is not restored. That is not modelled.
