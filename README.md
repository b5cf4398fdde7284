# Task tracker CLI — a Dafny model

A model of the `task-cli` command-line task tracker, which keeps its tasks in one JSON file
(`tasks.json`). Every invocation of `main(argv)` checks its arguments, then either prints a
usage line or runs one operation on the whole file: load it, change the list in memory, save
it back. The operations are `add`, `update`, `delete`, `mark-in-progress`, `mark-done` and `list`.

The model has five modules:

- `Options` (options.dfy): the `Option` datatype, Python's `None`.
- `Text` (text.dfy): `str.strip()`, Python's `int()` on a command-line word, and printing an integer in decimal.
- `Tasks` (tasks.dfy): the `Task` record and `Status` enumeration. It also holds the pure functions that say what each operation does to the stored list:
  - `NextId` / `Appended` for add;
  - `ApplyFirst` for the first-match change made by mark and update;
  - `WithoutId` for delete;
  - `Selected` / `Render` for list;
  - lemmas proving the properties each operation promises.
- `TaskStore` (store.dfy): the file as a class `Store`.
  - The field `file` is the stored `seq<Task>`.
  - The field `wellFormed` is false when the file does not parse, so every load raises.
  - A ghost counter `saves` counts whole-file writes.
  - `AddTask`, `MarkTask`, `DeleteTask` and `UpdateTask` are methods on it. The loops in `MarkTask` and `UpdateTask` are as in the source, and each method is proved against the pure functions.
- `Cli` (cli.dfy): `Parse` holds the argument guards of `main`, `ListTasks` is the `list` loop, `AddCommand` … `MarkCommand` are the four operation branches, and `Run` is `main` itself.

The clock is a parameter `now` (a `Timestamp` string the model stores but never inspects). Printing is modelled as an `Output`
value naming the line that would be printed. A missing file is modelled as an empty,
well-formed one. A file that does not parse makes every operation that reads it end in
`Raised`. JSON decoding raises there and the invocation aborts.

Where the code and its docstrings or usual expectations differ, the model follows the code:

- Ids can be reused. add_task's docstring promises a unique id (task_cli.py:180), and
  delete_task's says the filter neither reorders nor reuses ids (task_cli.py:248-249). The
  code computes `max(ids) + 1` from the current list. The new id is therefore above every
  stored id (`NextId`), and unique ids stay unique. But an id freed by a delete can come
  back. Adding a task, deleting it and adding again hands out the same id twice
  (`IdReusedAfterUndoingAdd`). In general, deleting the largest id m and adding again
  hands m out again exactly when m - 1 is still stored, or when m was 1 and nothing is left
  (`IdReuseAfterDeletingMax`). With ids 1 and 5, deleting 5 makes the next id 2, not 5.
- Loaded records are not validated. load_tasks returns whatever `json.load` produces
  (task_cli.py:155-159), and the model only distinguishes "the file parses" from "it does not".
- `list` loads before it checks the filter. It reads the file before checking the filter
  word (task_cli.py:119 before :128), so a malformed file raises even when the filter is
  invalid. The model keeps that order.

## Model

| member | source | states |
|---|---|---|
| `TaskStore.Store.constructor` | task_cli.py:141-156 | the file starts with the given task list and parse state and no writes |
| `TaskStore.Store.Load` | task_cli.py:144-159 | load returns the whole stored list exactly when the file parses, and fails otherwise |
| `TaskStore.Store.Save` | task_cli.py:162-173 | save replaces the whole file with the given list, leaves it parseable and counts one write |
| `TaskStore.AddTask` | task_cli.py:176-214 | a blank description returns None without loading or saving, even when the file is malformed; otherwise a malformed file raises untouched, and a good one gets `Appended(old, strip(d), now)` saved once, with the new id returned |
| `TaskStore.MarkTask` | task_cli.py:217-241 | returns whether the id is stored; when it is not, the file is not saved; when it is, exactly `ApplyFirst(old, id, NewStatus(s), now)` is saved once; a malformed file raises |
| `TaskStore.DeleteTask` | task_cli.py:244-265 | returns whether the id is stored; when it is not, the file is not saved (the length test); when it is, the filtered list `WithoutId(old, id)` is saved once |
| `TaskStore.UpdateTask` | task_cli.py:268-297 | a blank description returns False without loading; otherwise returns whether the id is stored; only when it is stored is `ApplyFirst(old, id, NewDescription(strip(d)), now)` saved, once |
| `Tasks.MaxId` | task_cli.py:198 | the maximum is a stored id and no stored id exceeds it |
| `Tasks.NextId` | task_cli.py:196-200 | the new id is above every stored id, is 1 for an empty store, and is one above a stored id (no gap is filled) |
| `Tasks.Appended` | task_cli.py:202-212 | add keeps every earlier task in place and appends one task with the given description, status to-do, createdAt = updatedAt = now and the id `NextId(old)`, which is not already stored |
| `Tasks.AppendedKeepsUnique` | task_cli.py:196-212 | a store with unique ids still has unique ids after an add |
| `Tasks.IdReusedAfterUndoingAdd` | task_cli.py:196-212 | adding a task and deleting it restores the list, so the next add hands out the same id again |
| `Tasks.NextIdBelow` | task_cli.py:196-200 | when every stored id is below m, the next id is m exactly when m - 1 is stored, or the store is empty and m is 1 |
| `Tasks.IdReuseAfterDeletingMax` | task_cli.py:196-200 | after deleting the largest id m, the next id is m again exactly when m - 1 is still stored, or m was 1 and nothing is left |
| `Tasks.StatusName` | task_cli.py:127 | each status has its own spelling: to-do, in-progress, done |
| `Tasks.NextIdSkipsGaps` | task_cli.py:197-198 | with ids 1 and 3 stored the next id is 4 |
| `Tasks.ParseStatus` | task_cli.py:127-128 | a filter word is accepted exactly when it spells one of the three statuses, and then it names that status |
| `Tasks.Changed` | task_cli.py:237-238 | a change keeps id and createdAt, sets updatedAt to now, and sets either the status or the description while keeping the other |
| `Tasks.FindId` | task_cli.py:235-236 | the search finds a position exactly when the id is stored, and it is the first position holding that id |
| `Tasks.FirstMatch` | task_cli.py:235-236 | the first position holding the id is the one the search finds |
| `Tasks.ApplyFirstMissing` | task_cli.py:235-241 | when no task has the id, the scan changes nothing |
| `Tasks.ApplyFirstFound` | task_cli.py:235-240 | the scan changes exactly the task at the position the search finds |
| `Tasks.ApplyFirst` | task_cli.py:235-240 | no ensures of its own: its meaning is stated by `ApplyFirstAt`, `ApplyFirstFound` and `ApplyFirstMissing` |
| `Tasks.ApplyFirstAt` | task_cli.py:235-240 | the first-match change is the point update at the first position with the id, and the identity when no task has the id |
| `Tasks.ApplyFirstFrame` | task_cli.py:290-295 | a mark or update keeps the length, the order, every id and createdAt, and every task other than the first match |
| `Tasks.ApplyFirstKeepsUnique` | task_cli.py:235-240 | a store with unique ids still has unique ids after a mark or an update |
| `Tasks.FindIdSameIds` | task_cli.py:235-236 | the first-match search depends only on the ids, position by position |
| `Tasks.ApplyFirstKeepsIds` | task_cli.py:290-295 | after a mark or update every id is stored, and found first, exactly where it was before |
| `Tasks.RepeatedMark` | task_cli.py:232-241 | a second mark with the same status still finds the task, and the result equals one mark at the later time (only updatedAt moves) |
| `Tasks.WithoutId` | task_cli.py:259 | the filtered list is no longer than the original and holds no task with the id |
| `Tasks.WithoutIdLength` | task_cli.py:259-262 | the filtered list has the original length exactly when no task has the id, and is then the original list |
| `Tasks.WithoutIdMembers` | task_cli.py:259 | a task survives delete exactly when it was stored and has another id, unchanged (no renumbering) |
| `Tasks.WithoutIdAppend` | task_cli.py:259 | filtering a concatenation is concatenating the filtered parts, so relative order is kept |
| `Tasks.WithoutIdBelow` | task_cli.py:259 | deleting the largest id leaves only ids below it |
| `Tasks.WithoutIdHasId` | task_cli.py:259 | delete keeps every other id stored, and adds none |
| `Tasks.WithoutIdKeepsUnique` | task_cli.py:259-265 | a store with unique ids still has unique ids after a delete |
| `Tasks.Selected` | task_cli.py:133-134 | the listed tasks are no more than the stored ones, and each is admitted by the filter |
| `Tasks.SelectedAll` | task_cli.py:122-135 | with no filter every task is listed, in stored order |
| `Tasks.SelectedMembers` | task_cli.py:133-134 | a task is listed exactly when it is stored and the filter admits its status |
| `Tasks.SelectedAppend` | task_cli.py:133-134 | listing a concatenation lists each part in turn, so stored order is kept |
| `Tasks.Render` | task_cli.py:133-135 | one printed line per listed task, in order, each `FormatLine` of its task |
| `Tasks.FormatLine` | task_cli.py:135 | no ensures of its own: its meaning is stated by `FormatLineId` |
| `Tasks.IdTag` | task_cli.py:135 | no ensures of its own: the `[<id>]` prefix it builds is stated by `FormatLineId` |
| `Tasks.FormatLineId` | task_cli.py:135 | a listing line starts with `[<id>]`, the id there reads back as the task's id, and the line ends with the task's description |
| `Tasks.BuyMilkScenario` | task_cli.py:176-265 | add "Buy milk" to an empty store gives id 1 and to-do; mark done keeps it and moves updatedAt; `list done` prints `[1] (done) Buy milk`; `list to-do` prints nothing; delete leaves an empty store in which the id is gone |
| `Text.IsSpaceExactly` | task_cli.py:190 | the whitespace that strip removes is space, tab, line feed, vertical tab, form feed and carriage return |
| `Text.TextStart` | task_cli.py:190 | the start of the text proper: everything before it is whitespace and the character there is not |
| `Text.TextEnd` | task_cli.py:190 | the end of the text proper: everything from it on is whitespace and the character before it is not |
| `Text.Strip` | task_cli.py:190 | a non-empty strip result neither starts nor ends with whitespace |
| `Text.StripSlice` | task_cli.py:190 | strip keeps the middle slice of the input with only whitespace cut from either end |
| `Text.StripBlank` | task_cli.py:190-192 | a text strips to the empty string exactly when it is all whitespace |
| `Text.StripIdempotent` | task_cli.py:60 | stripping twice (main, then update_task at line 283) is stripping once |
| `Text.StripUnpadded` | task_cli.py:190 | a text without whitespace at either end is its own strip |
| `Text.NatDigits` | task_cli.py:135 | the decimal spelling of a number is a non-empty run of digits without a leading zero, except for 0 itself |
| `Text.FormatInt` | task_cli.py:135 | the printed id is non-empty and starts with a minus sign exactly when it is negative |
| `Text.ParseInt` | task_cli.py:55 | `int()` of a command-line word never succeeds on a blank word |
| `Text.NatDigitsValue` | task_cli.py:135 | the digits printed for a number denote that number |
| `Text.ParseSigned` | task_cli.py:55 | no ensures of its own: its meaning, reached through `ParseInt`, is stated by `ParseDigits`, `ParseNegated`, `ParseFormat` and `ParseRejects` |
| `Text.ParseDigits` | task_cli.py:55 | `int()` of a run of digits is its value |
| `Text.ParseNegated` | task_cli.py:55 | `int()` of a minus sign followed by digits is the negated value |
| `Text.ParseFormat` | task_cli.py:55 | `int(str(n)) == n` for every integer n: a printed id is accepted back as an id |
| `Text.ParseRejects` | task_cli.py:54-58 | `int()` refuses words that are not integers: `abc`, `1.5`, `0x1F` and a lone sign |
| `Cli.ParseMark` | task_cli.py:86-116 | a mark command runs exactly when its id word is present and is an integer, with that id and the status its word names; otherwise it prints the usage line of that mark |
| `Cli.Parse` | task_cli.py:25-138 | each command comes only from its own word; update is reached only with an integer id and a non-blank stripped description, delete and mark only with an integer id; mark-done marks done and mark-in-progress marks in-progress; add gets the raw description; list gets the optional filter word; an unknown command is none of the known words and keeps its word |
| `Cli.ParseGuardsArity` | task_cli.py:25-52 | fewer than two arguments prints the top-level usage line; `add`, `delete`, `mark-in-progress` and `mark-done` alone print their own usage line, and `update` with fewer than two operands prints the update usage line |
| `Cli.ParseGuardsId` | task_cli.py:54-111 | an id word that `int()` refuses makes update, delete and each mark print its own "id must be a number" usage line |
| `Cli.ParseDispatch` | task_cli.py:14-138 | a command word whose operands pass the guards runs the operation of that word, with the id `int()` read and, for update, the stripped description; any other word is an unknown command |
| `Cli.ParseExampleDelete` | task_cli.py:70-84 | `delete 1` deletes id 1, and `delete one` prints the delete usage line |
| `Cli.ParseExampleMark` | task_cli.py:102-116 | `mark-done " 2 "` marks id 2 done |
| `Cli.ParseExampleUpdate` | task_cli.py:49-65 | `update 3 " milk "` updates id 3 to `milk` |
| `Cli.ParseGuardsDescription` | task_cli.py:60-63 | an update whose description is blank after stripping prints the update usage line |
| `Cli.FilterWordMatches` | task_cli.py:133-134 | comparing a task's status spelling with a valid filter word is comparing statuses |
| `Cli.ListStep` | task_cli.py:133-135 | one more task of the loop adds one more line exactly when the filter admits it |
| `Cli.RenderAppend` | task_cli.py:135 | printing one more task appends its line |
| `Cli.ListTasks` | task_cli.py:118-135 | a malformed file raises; an invalid filter word prints only the usage line; otherwise `[id] (status) description` is printed for exactly the admitted tasks in stored order, or for all tasks without a filter; nothing is saved |
| `Cli.AddCommand` | task_cli.py:36-47 | a blank description prints the add usage line and leaves the file alone; otherwise the new id is printed and the store keeps unique ids |
| `Cli.UpdateCommand` | task_cli.py:65-68 | prints success and saves the changed list when the id is stored, and prints "no such task" and leaves the file alone otherwise |
| `Cli.DeleteCommand` | task_cli.py:81-84 | prints success and saves the filtered list when the id is stored, and prints "no such task" and leaves the file alone otherwise |
| `Cli.MarkCommand` | task_cli.py:97-116 | prints the new status and saves the marked list when the id is stored, and prints "no such task" and leaves the file alone otherwise |
| `Cli.Execute` | task_cli.py:36-135 | runs the operation the guards chose. Add prints the new id and saves the appended list, or prints the add usage line for a blank description. Update, delete and the marks print their success line and save the changed list exactly when the id is stored, and print "no such task" otherwise. List prints the listing of the admitted tasks, or the list usage line for a bad filter, and never saves. Rejected, help and unknown commands print their line and touch nothing. A loading command raises exactly on a malformed file. Each success path leaves a well-formed file saved exactly once. At most one save happens, and unique ids stay unique |
| `Cli.Run` | task_cli.py:14-138 | main as a whole: the guards, then the outcome of the operation they chose, stated per command as for `Execute`, with a well-formed file saved exactly once on each success path; a rejected, help or unknown command touches nothing; an invocation that loads raises exactly on a malformed file; at most one save per invocation; unique ids stay unique |

## Left out

- JSON encoding and decoding (task_cli.py:159, 173): the file is a sequence of typed records. Records with missing keys, non-integer ids or other status words are not modelled. Apart from that, a load only succeeds or fails.
- The file-existence check (task_cli.py:155): a missing file is represented as an empty, well-formed file.
- Writes that fail half-way, leaving a truncated file, are not modelled: save always succeeds.
- `datetime.now().isoformat(timespec="minutes")`: the time is an opaque `now` parameter, and its format is not modelled.
- `Text.IsSpace` covers ASCII whitespace only. Python's `str.strip()` also removes other Unicode whitespace (for example U+001C–U+001F, U+0085, U+00A0), which the model does not.
- `Text.ParseInt` accepts an optional sign and ASCII digits after stripping. Python's `int()` also accepts underscores between digits and non-ASCII decimal digits, which the model does not.
- `mark_task` accepts any status string, but `main` only ever passes `in-progress` or `done`. The model takes a `Status`.
- `print_help` text and the wording of every printed message (task_cli.py:300-325) are not modelled. The model only names which line is printed, except for listing lines, whose format is modelled.
- Concurrent invocations and lost updates are not modelled: there is no locking.
