# Task manager (`GestorTareas`) in Dafny

This project models the task store of `ex2.py`, a small personal task tracker.
The store keeps its pending tasks as tuples `(prioridad, nombre, dependencias,
fecha_vencimiento)` in a binary min-heap. It keeps the names of completed tasks
in a set. It loads both from the file `tareas.json` when it starts and rewrites
the file after every change.

The model has seven modules:

- `Options`: Python's `None` or a present value.
- `Dates`: the due date. `ParseDate` is what `datetime.strptime(text, "%Y-%m-%d")`
  accepts. It follows the regular expressions CPython uses for `%Y`, `%m` and
  `%d`, so it also accepts `2025-1-5` and `2025-01- 5`. It refuses trailing text,
  year 0 and days the month does not have. `FormatDate` is `strftime("%Y-%m-%d")`.
- `Tasks`: the task tuple and the order used by the heap and the listing. That
  order is priority first, then the name, with names compared by code point.
- `Heaps`: the heap invariant, `heapq.heappush` (sift-up), `heapq.heapify`
  (bottom-up sift-down) and `sorted`. Each is proved to return the same
  multiset of tasks in heap order or in sorted order.
- `Snapshot`: the JSON record as values. A key that may be absent is an
  `Option`, and the file is missing, unparseable, or a parsed document. It
  holds reading and writing a task, and the round trip from write to read.
- `Manager`: the class `TaskManager`. Its fields are `heap` (a `seq`),
  `completed` (a `set`) and `file`, which stands for the content of
  `tareas.json`. It has methods for loading, saving, adding, listing,
  completing and peeking.
- `Scenarios`: clients of the class. One saves a store and reloads it into a new
  one. Three more walk through the store's use: a task that waits until its
  dependency is completed, a task whose date does not parse, and a dated task
  that survives a save and a reload.

Three behaviours of `ex2.py` are easy to miss, and the model distinguishes them:

- A task in the file whose date text does not parse raises a ValueError at
  ex2.py:27, and the `except` at ex2.py:30 catches only JSONDecodeError and
  KeyError, so loading stops with that error instead of resetting the store.
  The model characterizes this case (`CrashesOnLoad`, `CrashIsFirstFailure`)
  and excludes it: `Load`, the constructor and `LoadStatusOf` require that the
  file does not hit it.
- `strptime` accepts unpadded months and days, and a day written as a space
  and a digit, besides the zero-padded `YYYY-MM-DD` form (`UnpaddedDateAccepted`).
- Names listed under `completadas` in the loaded file are taken whether or not
  they were ever pending (ex2.py:29).

## Model

| member | source | states |
|---|---|---|
| `Dates.ParseDate` | ex2.py:69-72 | a date comes back only where strptime succeeds, and every date that comes back is one `datetime` can hold (years 1 to 9999, a real day of the month) |
| `Dates.FormatDate` | ex2.py:49 | `strftime("%Y-%m-%d")` writes ten characters, with dashes at positions 4 and 7 |
| `Dates.FormatDateDigits` | ex2.py:49 | every position of the written date other than the two dashes holds a digit, so month and day are zero-padded; with `DateRoundTrip` this fixes every character of the text |
| `Dates.ReadDueDate` | ex2.py:67-74 | no date text or empty text means no due date; other text gives its parsed date, or the ValueError case when it does not parse |
| `Dates.DateRoundTrip` | ex2.py:49 | reading back the `YYYY-MM-DD` text written for any valid date gives the same date |
| `Dates.UnpaddedDateAccepted` | ex2.py:69 | `2025-1-5` parses as 5 January 2025: the parser does not insist on zero-padding |
| `Scenarios.ZeroPaddedDateRead` | ex2.py:67-69 | the zero-padded text `2025-01-15` is read as the due date 15 January 2025 |
| `Dates.InvalidDatesRefused` | ex2.py:69-72 | `not-a-date` and 29 February 2025 are refused; 29 February 2024 is accepted |
| `Tasks.LeRefl` | ex2.py:92 | every task is at most itself in the (priority, name) order |
| `Tasks.LeTotal` | ex2.py:92 | any two tasks are ordered one way or the other by (priority, name) |
| `Tasks.LeTrans` | ex2.py:92 | the (priority, name) order is transitive |
| `Heaps.HeapRootIsMin` | ex2.py:118-119 | in a heap, the element at index 0 is at most every element |
| `Heaps.HeapPush` | ex2.py:82 | pushing onto a heap gives a heap with exactly the old tasks plus the new one |
| `Heaps.SiftDown` | ex2.py:110 | sinking the element at `lo` extends the heap invariant to `lo` and keeps the same tasks |
| `Heaps.Heapify` | ex2.py:110 | any list becomes a heap holding exactly the same tasks |
| `Heaps.SortTasks` | ex2.py:92 | the result is in ascending order and is a permutation of the input |
| `Snapshot.TaskEntries` | ex2.py:20 | `datos.get("tareas", [])`: the entries of the `tareas` key, or none when the key is absent |
| `Snapshot.CompletedNames` | ex2.py:29 | `datos.get("completadas", [])`: the names of the `completadas` key, or none when the key is absent |
| `Snapshot.DecodeEntry` | ex2.py:21-27 | reading one entry raises KeyError exactly when one of the four keys is missing; it raises the date's ValueError exactly when all keys are there and the date text does not parse; otherwise it keeps priority, name and dependencies, and its date is the one the text reads as (none for empty or null text), always a valid date |
| `Snapshot.DecodeEntries` | ex2.py:20-28 | all entries are read exactly when each one reads, and then task i is entry i read, with valid dates; otherwise the error reported is that of the first entry that fails, all earlier entries having read |
| `Snapshot.CrashIsFirstFailure` | ex2.py:20-30 | `CrashesOnLoad` holds exactly when the file is a parsed document whose first failing entry fails on its date, the ValueError nothing catches |
| `Snapshot.LoadStatusOf` | ex2.py:15-38 | for a file that does not stop on a bad date: not found exactly when there is no file; loaded exactly when every entry reads; malformed exactly when the text is not JSON or the first failing entry lacks a key |
| `Snapshot.MissingKeyRejectsFile` | ex2.py:30-34 | in a file that does not stop on a bad date, one entry without a key makes the whole file malformed, with no partial recovery |
| `Snapshot.MissingTopLevelKeys` | ex2.py:20-29 | an absent `tareas` or `completadas` key reads as an empty list, not as an error |
| `Snapshot.ListNames` | ex2.py:53 | the written list holds every completed name exactly once |
| `Snapshot.EncodeTask` | ex2.py:45-50 | a written entry has all four keys, holds the task's priority, name and dependencies, and has a null date exactly when the task has none |
| `Snapshot.EncodeTaskWritesDate` | ex2.py:49 | a present due date is written as the text `FormatDate` gives for it, the zero-padded `YYYY-MM-DD` form |
| `Snapshot.EncodeTasks` | ex2.py:44-52 | one entry per pending task, entry i being task i written, in heap order |
| `Snapshot.EntryRoundTrip` | ex2.py:45-50 | a written task entry reads back as the same task |
| `Snapshot.EntriesRoundTrip` | ex2.py:44-52 | the written task list reads back as the same tasks in the same order |
| `Snapshot.SnapshotRoundTrip` | ex2.py:43-53 | a written snapshot loads without error, with the same pending tasks and the same completed set |
| `Manager.WithoutName` | ex2.py:102-107 | every task kept by completion was pending and has a different name |
| `Manager.WithoutNameCount` | ex2.py:102-107 | completion keeps each task with another name exactly as often as it was pending, and no task with that name |
| `Manager.TaskManager.constructor` | ex2.py:7-11 | a new store is a valid heap holding exactly the tasks and completed names of its file, or is empty when the file is missing or malformed |
| `Manager.TaskManager.Load` | ex2.py:13-38 | it reports loaded, not found or malformed as the file dictates; on success it pushes every task of the file and takes its completed names; otherwise both collections are empty; the heap stays valid |
| `Manager.TaskManager.Save` | ex2.py:40-54 | the file becomes a snapshot of the current heap and completed set |
| `Manager.TaskManager.Add` | ex2.py:57-84 | an empty name, a date that does not parse or an uncompleted dependency is refused with that reason, and nothing changes; otherwise exactly the one task joins the heap, the heap stays valid, the completed set stays the same and the file is rewritten |
| `Manager.TaskManager.List` | ex2.py:86-96 | the pending tasks come out in ascending order, all of them and nothing else, and the store does not change |
| `Manager.TaskManager.Complete` | ex2.py:98-114 | it succeeds exactly when some pending task has the name; then all such tasks go, every other task stays, the name joins the completed set, the heap is restored and the file is rewritten; otherwise nothing changes |
| `Manager.TaskManager.Peek` | ex2.py:116-122 | it reports nothing exactly when no task is pending, and otherwise reports `heap[0]`, which no pending task precedes, without changing the store |
| `Scenarios.SaveAndReload` | ex2.py:13-54 | saving a store and starting a new one from the written file gives the same pending tasks and completed names |

## Left out

- The interactive menu under `__main__` (ex2.py:124-164), including its comma-splitting of dependencies. It is input and output glue.
- Every `print`. The outcomes are returned instead: `AddOutcome`, a `bool` for completion, an `Option` for peek, a `LoadStatus` for loading.
- File input and output and the JSON text: `os.path.exists`, `open`, `json.load`, `json.dump` and its indentation. The file is the field `file`, holding a `Stored` value (missing, unparseable, or a parsed document).
- JSON values of other types than the ones `ex2.py` writes: a priority that is not an integer, dependencies that are not a list of strings, a date that is neither a string nor null, or a top level that is not an object. The record's types cannot hold them, so what the source does with them is not modelled.
- The ValueError raised while loading a task whose date text does not parse (ex2.py:27). The source does not catch it. `Load` and the constructor require `!CrashesOnLoad(file)`.
- The `isinstance(prioridad, int)` check (ex2.py:62). Priorities are typed `int`.
- Non-ASCII decimal digits, which strptime's `\d` also matches. The parser accepts ASCII digits only.
- The time-of-day part of `datetime`, which is always midnight here.
- Older C libraries whose `strftime` does not pad years below 1000 to four digits. `FormatDate` always pads.
- Tuple comparison beyond priority and name. When both agree, Python goes on to compare the dependency lists and then the dates, and comparing `None` with a date raises TypeError inside `heappush` or `sorted`. The model treats such ties as unordered and does not model that TypeError.
- The shared default list for `dependencias` (ex2.py:57). It is never mutated, so a fresh empty default behaves the same.
- Heaps.HeapPush: proved by "same tasks plus the new one, heap invariant holds", not by heapq's exact layout. It swaps with the parent where heapq moves a hole.
- Heaps.SiftDown: the textbook sift-down, not heapq's variant that first descends to a leaf and then climbs back. The contract (same tasks, invariant holds) is the same, but the resulting layout may differ.
- Manager.TaskManager.List: sorted by (priority, name) only. The relative order of tasks that agree on both is not fixed, whereas Python's `sorted` would order them by dependencies and date.
- Manager.TaskManager.Peek: the reported task is a minimum by (priority, name). Among tasks tied on both, which one is at the root is not fixed.
