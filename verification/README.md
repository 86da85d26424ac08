# A verified model of a single-user to-do list

The program keeps a list of tasks in memory and stores it in a flat text
file, one task per line. Each task has an integer id, a description, a
priority, an optional due date and a completion flag. This project models
that core in Dafny:

- the `Task` record (`TodoLists.Task`, a datatype whose constructor defaults
  match the record's: no due date, not completed) and its `is_done` query
  (`Task.IsDone`);
- the `TodoList` class (`TodoLists.TodoList`), which owns the ordered list
  `tasks` (the list `get_all_tasks` hands out). It can add a task, remove
  or mark the first task with a given id, filter by completion or priority,
  and look a task up by id;
- the storage format: the text the save writes (one line per task,
  `id,description,priority,True|False`), the lines that reading the file in
  text mode yields, the decoding of a stored line, the loader that folds
  those lines into a fresh `TodoList`, and the `completed`/`incompleted`
  status word;
- the Python primitives the format depends on (`PyText`): `str.strip()`,
  `str.split(",")`, `int()` on base-10 text, `str()` of an int or bool, and
  line iteration over a text file with universal newlines.

Modules: `Wrappers` (Option, Result), `PyText`, `Lists` (order-preserving
list comprehension), `TodoLists`, `Storage`.

Two quirks of the loader are modelled as written:

- The loader builds each task with the completion flag passed in the
  due-date position (zzzCd.py:130 against the parameter order at
  zzzCd.py:6). So the flag lands in `dueDate` (`StrayBool`) and `completed`
  stays false.
- `add_task` then overwrites the due date with `None` (zzzCd.py:40).

As a result, every loaded task is incomplete and has no due date. One would
expect a completed task to stay completed after a save and reload; the code
does not behave that way, and the model follows the code
(`Storage.CompletionLostOnReload`).

The fatal `exit(1)` on an invalid priority is modelled as `AddTask`
returning `ok == false` with the list unchanged. The fatal parse errors of
the loader are a `LoadError` result. The same result type says which
exception the line raises: `InvalidId` for `int()`'s `ValueError`, and
`MissingField` for the `IndexError` of a line with fewer than three fields.

## Model

| member | source | states |
|---|---|---|
| `PyText.LeadingSpaces` | zzzCd.py:120-121 | the number of leading blanks a trim removes: all of them are blanks of the chosen set (Python's `isspace` set for `strip`; for `int`, ASCII whitespace and the non-ASCII `isspace` characters) and the next character is not |
| `PyText.TrailingSpaces` | zzzCd.py:120-121 | the same for the blanks at the end of the text |
| `PyText.TrimRemovesBlanks` | zzzCd.py:120-121 | a trim (`strip()`, and the whitespace skipping of `int()`) keeps the middle of the text between its first and last non-blank character and drops only blanks around it; all-blank text trims to nothing |
| `PyText.TrimUnblanked` | zzzCd.py:120-121 | text whose two ends are not blank is unchanged by a trim |
| `PyText.TrimTrailingBlank` | zzzCd.py:120 | a trim removes only a blank appended after text whose ends are not blank, such as the line break after a written line |
| `PyText.Split` | zzzCd.py:120 | `split(",")` gives at least one piece, no piece contains the separator, and joining the pieces gives back the input |
| `PyText.SplitJoin` | zzzCd.py:120 | splitting separator-free fields joined by the separator gives exactly those fields back |
| `PyText.TranslateNewlines` | zzzCd.py:118-119 | reading in text mode leaves no carriage return, and leaves text without one unchanged |
| `PyText.SplitLines` | zzzCd.py:119 | iterating over the text yields pieces that concatenate back to it, each but the last ending in its only line feed, the last with no line feed before its end |
| `PyText.SplitLinesFront` | zzzCd.py:119 | a line followed by more text is yielded first, then the lines of the rest |
| `PyText.ReadConcatLines` | zzzCd.py:111-119 | reading back text written as lines that each end in their only line feed and hold no carriage return yields exactly those lines |
| `PyText.IntToString` | zzzCd.py:113 | `str(n)` has a minus sign exactly for a negative `n`, then decimal digits with no leading zero |
| `PyText.ParseIntToString` | zzzCd.py:121 | `int(str(n)) == n` for every integer, negative ones included |
| `PyText.ParseIntTrailingBlank` | zzzCd.py:121 | `int()` ignores whitespace after the digits: ASCII whitespace or a non-ASCII `isspace` character |
| `PyText.ParseIntTrailingSeparator` | zzzCd.py:120-121 | after the digits, a character from U+001C to U+001F makes `int()` fail, although `strip()` removes it |
| `PyText.ParseIntSeparatorThenSpace` | zzzCd.py:121 | a character from U+001C to U+001F after the digits makes `int()` fail even when non-ASCII whitespace such as U+00A0 follows it |
| `PyText.BoolToString` | zzzCd.py:113 | a flag is written as `"True"` exactly when it is true and as `"False"` otherwise, so the loader's comparison with `"True"` recovers it |
| `Lists.Filter` | zzzCd.py:67-74 | the comprehension keeps exactly the elements satisfying the condition, each with its multiplicity, as an order-preserving subsequence |
| `Lists.FilterPartition` | zzzCd.py:67-71 | filtering by a condition and by its negation splits the list: multisets add up and each element is in exactly one result |
| `Lists.FilterEmpty` | zzzCd.py:73-74 | the filter is empty exactly when no element satisfies the condition |
| `TodoLists.NewTaskDefaults` | zzzCd.py:6-14 | a task built with only id, description and priority has no due date and `is_done` is false |
| `TodoLists.FirstIndex` | zzzCd.py:76-80 | the position of the first task with the id, or `None` exactly when no task has it |
| `TodoLists.RemoveFirstAt` | zzzCd.py:46-50 | removal deletes exactly the first task with the id and keeps all others in order |
| `TodoLists.RemoveFirstMissing` | zzzCd.py:46-50 | removing an id that no task has leaves the list unchanged |
| `TodoLists.SetCompletionAt` | zzzCd.py:52-62 | marking sets the flag of the first task with the id only; length, order and every other task are unchanged |
| `TodoLists.SetCompletionMissing` | zzzCd.py:52-62 | marking an id that no task has leaves the list unchanged |
| `TodoLists.MarkIdempotent` | zzzCd.py:52-56 | marking twice with the same flag equals marking once |
| `TodoLists.TodoList.constructor` | zzzCd.py:22-23 | a new list is empty |
| `TodoLists.TodoList.AddTask` | zzzCd.py:25-44 | an invalid priority stops without appending; otherwise exactly one task is appended at the end, with the given priority (if any) and the given due date, even when that is none |
| `TodoLists.TodoList.RemoveTask` | zzzCd.py:46-50 | the new list is the old one with the first task with the id removed |
| `TodoLists.TodoList.SetFirstCompletion` | zzzCd.py:52-62 | the shared loop of both mark operations: the new list is the old one with the flag of the first task with the id set |
| `TodoLists.TodoList.MarkTaskAsCompleted` | zzzCd.py:52-56 | the new list is the old one with the first task with the id marked completed |
| `TodoLists.TodoList.MarkTaskAsIncomplete` | zzzCd.py:58-62 | the new list is the old one with the first task with the id marked not completed |
| `TodoLists.TodoList.GetCompletedTasks` | zzzCd.py:67-68 | an order-preserving subsequence holding exactly the completed tasks, each as often as in the list |
| `TodoLists.TodoList.GetIncompleteTasks` | zzzCd.py:70-71 | an order-preserving subsequence holding exactly the tasks not completed, each as often as in the list |
| `TodoLists.TodoList.CompletedIncompletePartition` | zzzCd.py:67-71 | the completed and incomplete lists partition the tasks: every task is in exactly one, with its multiplicity |
| `TodoLists.TodoList.GetTasksByPriority` | zzzCd.py:73-74 | the tasks with exactly that priority, in order and with multiplicity; empty exactly when no task has it, with no error for an unknown priority |
| `TodoLists.TodoList.GetTask` | zzzCd.py:76-80 | the first task with the id, or `None` exactly when no task has it |
| `TodoLists.TodoList.GetTaskById` | zzzCd.py:87-91 | the same first-match lookup |
| `Storage.StatusText` | zzzCd.py:135-139 | the word is `completed` exactly for a true flag and `incompleted` exactly for a false one |
| `Storage.EncodeLineFields` | zzzCd.py:113 | a stored line is the id text, description, priority and flag text joined by commas |
| `Storage.EncodeLineBreaks` | zzzCd.py:113 | a stored line holds a line feed or carriage return only when its description or priority does |
| `Storage.ReadSavedText` | zzzCd.py:110-119 | reading the saved file back yields one line per task, its encoded line, in order, when no description or priority holds a line break |
| `Storage.StripWrittenLine` | zzzCd.py:120 | stripping a written line removes only its line break |
| `Storage.SplitWrittenLine` | zzzCd.py:120 | a written line whose description and priority hold no comma splits into exactly its four fields |
| `Storage.DecodeLine` | zzzCd.py:120-130 | a line decodes exactly when its first field is an integer and it has at least three fields; a non-integer first field is `InvalidId`, too few fields otherwise `MissingField`; a decoded task has that id, the second and third fields as description and priority, `completed` false, and in its due-date slot the flag "fourth field is `True`" |
| `Storage.DecodeEncodeLine` | zzzCd.py:113-130 | decoding a written comma-free line gives back id, description and priority, with the flag in the due-date slot and `completed` false |
| `Storage.Loaded` | zzzCd.py:131 | adding a decoded task with no priority and no due date keeps its id, description, priority and flag and clears its due date |
| `Storage.DecodeAll` | zzzCd.py:119-130 | one decoding result per line; no decoded task is completed |
| `Storage.DecodeAllAt` | zzzCd.py:119-130 | the result at each position is the decoding of the line at that position |
| `Storage.DecodeAllPrefix` | zzzCd.py:119-130 | decoding a prefix of the lines gives the prefix of the results |
| `Storage.Collect` | zzzCd.py:116-132 | the load succeeds exactly when every line decodes, giving one task per line in order with its due date cleared; otherwise it fails with the error of the first failing line |
| `Storage.CollectFailsEarly` | zzzCd.py:116-132 | once a prefix of the lines fails, the whole load fails with that error |
| `Storage.LoadTasks` | zzzCd.py:116-132 | a successful load has one task per line, none completed and none with a due date |
| `Storage.LoadTasksOk` | zzzCd.py:116-132 | the load succeeds exactly when every line decodes |
| `Storage.LoadFromFile` | zzzCd.py:116-132 | reading the file's text yields its lines with universal newlines; the fresh list it returns holds the load's result for those lines, or it reports the first failing line's error |
| `Storage.LoadFromLines` | zzzCd.py:117-132 | the loop over the lines builds a fresh list whose tasks are the load's result, or returns the error of the first line that fails to decode |
| `Storage.LoadSavedLines` | zzzCd.py:113-132 | a line-level round trip: loading the lines written for comma-free tasks keeps their number, order, ids, descriptions and priorities, but clears every completion flag and due date |
| `Storage.LoadSaveRoundTrip` | zzzCd.py:110-132 | the file-level round trip: saving then loading tasks whose descriptions and priorities hold no comma, line feed or carriage return keeps their number, order, ids, descriptions and priorities, but clears every completion flag and due date |
| `Storage.CompletionLostOnReload` | zzzCd.py:124-131 | two tasks, the first saved as completed, come back from the file in order with the first no longer completed |

## Left out

- `main` and `print_menu` (zzzCd.py:142-205): the interactive menu loop, with its `input`/`print` calls, the `break` after option 7 and `exit(0)`. This is user-interface glue. The same goes for the count-based id that option 1 assigns and the due-date assignment of option 9.
- `display_task`, `list_all_tasks` and `Task.__str__`: printing and formatting only.
- `add_due_date_to_task` (zzzCd.py:98-108): it reads the console and parses a date through `datetime`.
- File access in `save_to_file` / `load_from_file`: opening and closing the file, and the `os.path.exists` test in `main`. The save is modelled as the text it writes (`Storage.SaveText`) and the load as a function of the file's text (`Storage.LoadFromFile`). Writing is modelled with `\n` line ends; on a system whose line separator is `\r\n`, reading with universal newlines turns it back into `\n`, so the loaded lines are the same.
- Text encoding: characters are Unicode code points; the locale encoding used by `open`, and the errors it raises for characters it cannot encode, are not modelled.
- The due date is a date record whose fields the model never inspects. Its calendar meaning is not modelled.
- Object identity and aliasing: tasks are values. In the program a `Task` is a mutable object. Appending the same object twice makes one mark change both entries. `add_task` also changes the caller's object, and `get_task` returns a live reference. None of this is captured.
- `exit(1)` on an invalid priority and the fatal load errors are results, not process termination. The error message printed first is left out.
- `PyText.ParseInt`: accepts only ASCII digits. Python's `int()` also accepts other Unicode decimal digits. CPython's limit of 4300 digits for integer/text conversion is not modelled. Its whitespace rule is modelled: it skips ASCII whitespace and the non-ASCII `isspace` characters, but not U+001C to U+001F, which `strip()` removes.
- `PyText.IntToString`: the same 4300-digit limit of `str()` is not modelled.
