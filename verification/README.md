# To-do store model

A Dafny model of the core of a small task-tracking command-line application.

- The task store, `TodoManager` in `src/todo.py`. It is a map from integer id to task, plus the next id to hand out. It offers add, get, list, update, mark-complete and delete. It loads its tasks from a JSON file and rewrites the file after every change.
- The task record, `TodoItem`, and its mapping to and from the JSON object written for it.
- The pure rules inside the command handlers of `src/main.py`:
  - the search filter;
  - the sort keys of `view`;
  - the reading of a `completed` value by `handle_update` (src/main.py:216-249), a handler that `main` does not call: the `update` command goes to `interactive_update` instead;
  - the case-insensitive title match used when deleting by title.

The model is written as immutable datatypes and pure functions. A raised `ValueError` becomes an `Err`/`Rejected` result. A `None` return becomes `None`/`NotFound`. Each mutating operation returns a `Step`: the new store together with the operation's result.

Modules:

- `Wrappers` (wrappers.dfy): `Option` and `Result`.
- `Text` (text.dfy): `str.lower()` and Python's string ordering.
- `Timestamps` (timestamps.dfy): timestamps and their text form.
  - A `datetime` is a `nat` count of ticks.
  - `isoformat`/`fromisoformat` are stood in for by a decimal digit encoding.
  - The exact round trip of that encoding is proved.
- `Items` (items.dfy): the `Task` record, JSON field values, `to_dict` and `from_dict`.
- `Manager` (manager.dfy): the store, its invariant `Valid`, loading, saving and the operations.
- `StoreProperties` (store_properties.dfy): properties that relate several store operations.
- `CliQueries` (cli_queries.dfy): search, title match, and the `completed` value.
- `CliView` (cli_view.dfy): the `view` orderings, as a stable insertion sort.

Quirks of the code that the model keeps:

- A rejected update can still change the store. `update_todo` mutates the stored task in place, field by field. An invalid priority is therefore reported after the title, description, completed flag and due date were already written. The store keeps those writes, and the file is not saved. `Manager.Update` models exactly this.
- Ids can be handed out twice. `load_todos` recomputes the counter from the surviving ids, so after the task with the largest id is deleted and the file is reloaded, that id is handed out again (`StoreProperties.IdReusedAfterReload`).
- A stored title can be empty, and a stored priority can be something other than high, medium or low. `add_todo` and `update_todo` refuse both, but loading checks neither, so a hand-edited file can hold an empty title or a priority such as "urgent". Such a priority sorts last in `view`.

## Model

| member | source | states |
|---|---|---|
| `Text.Lower` | src/todo.py:106 | The lowered text has the same length, and each character is the ASCII lower-case form of the one at the same place. |
| `Timestamps.ParseFormat` | src/todo.py:23-36 | A timestamp written as text and read back is the same timestamp. |
| `Items.ToDict` | src/todo.py:20-28 | All seven fields are written. A missing due date is an explicit null, not an absent key. The creation date is always non-empty text. |
| `Items.FromDict` | src/todo.py:30-39 | A record is read exactly when it is `Readable`: only known keys, an integer id, text title, description and priority, a boolean completed flag, a parseable creation date if one is given, and a parseable due date if a truthy one is given. On success every field is the record's own, and an absent field gets the dataclass default: empty description, "medium" priority, not completed, and the current time as creation date. The item has a due date exactly when the record's due date is truthy, and it is that text parsed. |
| `Items.RecordRoundTrip` | src/todo.py:20-39 | Reading back what `to_dict` wrote gives the same item, field for field, whatever the clock says. |
| `Items.FromDictDefaults` | src/todo.py:9-18 | A record with only id and title gets the dataclass defaults: empty description, not completed, no due date, priority "medium", and the current time as creation date. |
| `Items.FromDictFalsyDue` | src/todo.py:35-38 | A null or empty due date reads the same as an absent one, whether the record is read or refused. |
| `Manager.PriorityExamples` | src/todo.py:106-107 | The priority check ignores case ("HIGH" and "Medium" pass) and refuses "bogus" and "". |
| `Manager.DecodeAll` | src/todo.py:62 | When every record reads, the result holds the items in record order, one per record. |
| `Manager.DecodeAllReads` | src/todo.py:62 | The list reads exactly when every record reads on its own: one bad record makes it fail, and a list of good records never does. |
| `Manager.Index` | src/todo.py:64 | The keys are exactly the loaded ids. Each key maps to a loaded task carrying that id. |
| `Manager.MaxId` | src/todo.py:66 | The result is one of the ids, and no id is larger. |
| `Manager.NextIdFor` | src/todo.py:65-68 | The counter is one past the largest id, or 1 when there are no tasks. |
| `Manager.Load` | src/todo.py:52-72 | A loaded store satisfies the invariant (each key is its task's id and lies below the counter). The counter is max+1, or 1. A missing or unparsable file gives the empty store with counter 1. |
| `Manager.Save` | src/todo.py:74-79 | One record per listed task, in listing order, each the task's `to_dict`. `SaveLoadRoundTrip` reads them back. |
| `StoreProperties.LoadAllOrNothing` | src/todo.py:59-72 | One unreadable record empties the whole store. No partial recovery is made. |
| `StoreProperties.LoadKeys` | src/todo.py:62-64 | When every record reads, the loaded store holds exactly the records' ids. |
| `StoreProperties.LoadKeepsRecord` | src/todo.py:60-66 | In a file of readable records, each record's item is stored under its id, unless a later record repeats that id. |
| `StoreProperties.IndexLastWins` | src/todo.py:64 | Of several records with the same id, the last one is kept. |
| `StoreProperties.SaveLoadRoundTrip` | src/todo.py:52-79 | Saving any listing of a valid store and loading the file again gives back every task unchanged. The counter is recomputed from the ids. |
| `StoreProperties.ReloadCounterAtMost` | src/todo.py:64-68 | After a reload of a non-empty store, the counter is at most what it was before. |
| `StoreProperties.IdReusedAfterReload` | src/todo.py:64-68 | Add ids 1 and 2, delete 2, save and reload, then add: the new task gets id 2 again, where the store before the reload would have given 3. |
| `Manager.Get` | src/todo.py:123-125 | Returns a task exactly when the id is present, and then the stored one. |
| `Manager.GetAll` | src/todo.py:127-130 | Returns every stored task exactly once, in no promised order. This is stated for stores that keep the invariant, which `Load` establishes and every operation preserves. |
| `Manager.Add` | src/todo.py:104-121 | An empty title, then an invalid priority, is refused with the store unchanged. On success: the new task takes the old counter as its id, is not completed, has its priority lower-cased into high/medium/low, and is stored under that id. The counter grows by one, no other entry changes, and the invariant is kept. |
| `StoreProperties.AddFreshId` | src/todo.py:109-119 | In a valid store the id handed out is not in use, so the store grows by exactly one task. |
| `StoreProperties.AddIdsIncrease` | src/todo.py:104-121 | Two successive successful adds hand out strictly increasing ids, whatever their titles, descriptions, due dates, priorities and clock readings. |
| `Manager.WriteFields` | src/todo.py:144-153 | Each given field among title, description, completed and due date is written. Every other field, including id, creation date and priority, is kept. |
| `Manager.Update` | src/todo.py:132-161 | A missing id gives NotFound with nothing changed. An empty title is refused before any write. When the id is present and the title is not empty, the update succeeds exactly when no priority is given or the given one is valid. An invalid priority is refused after the other fields were written, and that partial write stays in the store. On success the given fields are written and the priority is lower-cased into high/medium/low. Other entries, the key set and the counter are unchanged, and the invariant is kept. |
| `StoreProperties.UpdateNoChanges` | src/todo.py:142-161 | An update with no fields returns the task unchanged and leaves the store as it was. |
| `StoreProperties.UpdateKeepsDueDate` | src/todo.py:152-153 | An update can never clear a due date. |
| `StoreProperties.UpdateInvalidPriorityAfterWrites` | src/todo.py:132-161 | For any patch with an acceptable title and an invalid priority, the result is a rejection. Yet the store is left exactly as the same patch without a priority leaves it, and that update succeeds. The old priority is kept. |
| `Manager.Delete` | src/todo.py:163-169 | Returns true exactly when the id was present. Exactly that key is removed, the other entries are unchanged, and the counter is not lowered. |
| `StoreProperties.DeleteTwice` | src/todo.py:163-169 | A second delete of the same id returns false and changes nothing. |
| `Manager.MarkComplete` | src/todo.py:171-178 | A missing id gives None with nothing changed. Otherwise only that task's completed flag becomes true, and the returned task is the stored one. |
| `StoreProperties.MarkCompleteIdempotent` | src/todo.py:171-178 | Completing twice leaves the same store as completing once. |
| `StoreProperties.Session` | src/todo.py:104-178 | Add "Buy milk" (high) gives task 1. Adding with priority "bogus" is refused and leaves one task. Completing task 1 sets its flag. Deleting it returns true, and deleting it again returns false. |
| `CliQueries.Filter` | src/main.py:290-301 | The result holds exactly the listed tasks that pass the test, and is no longer than the list. |
| `CliQueries.FilterAppend` | src/main.py:290-301 | The filter keeps order: filtering a concatenation concatenates the filtered parts. |
| `CliQueries.Search` | src/main.py:290-301 | The search loop returns the tasks whose id equals the given id (if any) and whose due date equals the given date (if any), in listing order. |
| `CliQueries.SearchWithoutFilters` | src/main.py:290-301 | With neither an id nor a date, search returns the whole list unchanged. |
| `CliQueries.SearchByIdAtMostOne` | src/main.py:294-295 | With unique ids, a search by id finds at most one task. |
| `CliQueries.TitleMatches` | src/main.py:491 | Selects exactly the tasks whose lower-cased title equals the lower-cased identifier. |
| `CliQueries.TitleMatchesIgnoresCase` | src/main.py:491 | Identifiers that differ only in case select the same tasks. |
| `CliQueries.ParseCompleted` | src/main.py:220-227 | Ignoring case, "true", "yes" and "1" give true and "false", "no" and "0" give false. Every other value is refused. |
| `CliQueries.ParseCompletedIgnoresCase` | src/main.py:221-224 | Lower-casing the value first changes nothing. |
| `CliQueries.ParseCompletedExamples` | src/main.py:221-227 | "Yes", "TRUE" and "1" read as true; "No" and "0" read as false; "maybe" and "" are refused. |
| `CliQueries.UpdateCompleted` | src/main.py:216-249 | A refused value leaves the store untouched. A readable one sets only that task's completed flag, or reports not found. |
| `CliView.PriorityRank` | src/main.py:159-160 | The rank is 1 to 4, and below 4 exactly for the stored spellings high, medium and low. |
| `CliView.Insert` | src/main.py:152-166 | Inserting into a list sorted by the key keeps it sorted and adds exactly the one task. |
| `CliView.Sort` | src/main.py:152-166 | The result is sorted by the chosen key and is a permutation of the input. |
| `CliView.View` | src/main.py:152-166 | An unknown sort name keeps the listed order. A known one sorts by its key. Either way the same tasks are shown. |
| `CliView.PriorityOrder` | src/main.py:158-160 | After the priority sort, high comes before medium, medium before low, and low before any other priority. |
| `CliView.DueDateOrder` | src/main.py:155-157 | After the due-date sort, every dated task comes before every undated one, and dated tasks are in ascending date order. |
| `CliView.StatusOrder` | src/main.py:161-162 | After the status sort, all pending tasks come before all completed ones. |
| `CliView.SortKeepsDistinctIds` | src/main.py:152-166 | Sorting keeps unique ids unique. |
| `CliView.IdOrder` | src/main.py:165-166 | With unique ids, the id sort gives strictly increasing ids. |

## Left out

- File I/O (`os.path.exists`, `open`, `json.load`, `json.dump`): the file is given to `Manager.Load` already parsed, as a `Persisted` value. `Manager.Save` gives the records that would be written. Write failures and the warning and error messages are not modelled.
- `Manager.Save`: the model does not record when the source calls `save_todos`. The partial write left by an invalid priority in `update_todo` is not saved by the rejected call, but the next successful add, update, delete or complete, or the `exit` command, writes it to the file with the rest of the store.
- The clock (`datetime.now()`): it is a parameter `now`.
- `Manager.Load`: uses one clock reading for every record without a creation date, where the source reads the clock once per record.
- `Items.FromDict`: refuses fields of the wrong JSON type, such as a numeric title, a `true` id or a null description. It also refuses a creation date that is present but null or empty. In those cases the source builds an ill-typed item and loads it. (A text id is no such case: the source's `max(...) + 1` raises `TypeError`, which it catches, so it too ends with the empty store.)
- JSON floats, nested arrays and objects as field values are not modelled. A file whose top level is not an array of objects is `Corrupt`.
- `Text.Lower`: maps only the ASCII letters A-Z, where `str.lower()` follows Unicode. This is exact for the priority and `completed` words. For titles with non-ASCII letters, the title match and the title sort are weaker than the source.
- `Timestamps.Format`: the ISO-8601 text of `isoformat()` is replaced by a decimal encoding of the tick count. Only its exact round trip is relied on.
- `parse_datetime` and the parsing of dates typed by the user depend on `date.fromisoformat`. Search takes the date already parsed.
- `CliView.Sort`: the model's insertion sort is stable like Python's `list.sort`, but stability is not proved.
- Sorting by creation date and by title is modelled in `CliView.KeyLe`, but no ordering lemma is stated for those keys beyond `CliView.Sort`.
- Colour codes, table layout, headers, argparse setup, `input()` prompt loops, `sys.exit`, `interactive_add`, `interactive_update`, and the choice among several title matches in `interactive_delete` are presentation and I/O. They are not modelled.
- The other fields of `handle_update` (title, description, due_date, priority and the extra flags) are not modelled. Only the `completed` branch is.
