# Todo replay-and-merge engine, modelled in Dafny

This project models the local core of the Heleus Todo app:

- **`TodoTask`**: a single task. It is identified by the transaction that created it. Its text and its status are each chosen last-write-wins by strictly greater transaction id. It keeps the set of every transaction id applied to it.
- **`TodoList`**: the per-group aggregate.
  - It replays the group's downloaded transactions, in ascending id order, into a list name and a dictionary of tasks.
  - It keeps a replay cursor (`LastProcessedTransactionId`) and a history of applied ids.
  - It remembers the secret keys that failed to decrypt a record (`MissingSecretKeys`). While any key is missing, it applies nothing.
- **`Todo`**: the collection of lists, keyed by list id. It is loaded fail-open from the local cache and grown by `AddGroupId` / `QueryTodoListIds`.
- **`UnlockedServiceState`**: the todo page's three-state tracker. It reports whether the "has an unlocked account" flag changed since the last look.

Classes whose fields the app updates in place are Dafny classes. Each has a function `Snapshot()` that gives its abstract value: `TaskData` for a task, `ListData` for a list. Each method is proved to map the old snapshot to a value-level specification function of it:

- `ApplyTask` and `ApplyStatus` for a task;
- `ProcessRecord`, `DecryptSpec`, `ProcessTransactionSpec` and `DownloadSpec` for a list.

The lemmas about the replay are stated over those functions. Task and list identity are `const` fields. The list invariant "every task is stored under its own id" gives object distinctness without footprint sets.

The collaborators are parameters:

- the key registry is a function from `(list id, secret id)` to the candidate keys;
- the status-record decoder, the envelope parser and decryption are oracles returning `Option`;
- the remote transaction download is a function `fetch(listId, minimalTransactionId)` returning `None` on failure;
- the group-id download is an `Option<seq<int>>` input;
- the cache file's content is an `Option` token stream;
- the decrypted-record cache of the transaction download manager is a map from transaction id to decoded record (`DecryptedStore`).

The binary packer is modelled abstractly: a packed blob is a sequence of primitive tokens, one per primitive `Pack` call. Encoders are ghost specifications. Decoders are executable and return `None` wherever the unpacker would throw.

## Model

| member | source | states |
|---|---|---|
| `TodoTasks.NewTask` | App/TodoTask.cs:54-59 | A new task has id and group id from its creation record, history exactly {creation id}, the creation record as current text, no status record and therefore status Open; it satisfies the task invariant |
| `TodoTasks.TaskData.Timestamp` | App/TodoTask.cs:22-32 | The display timestamp is the maximum of the text record's timestamp and the status record's timestamp (0 without a status) |
| `TodoTasks.TaskData.Status` | App/TodoTask.cs:44-52 | The shown status is `Open` until a status record arrives, then that record's status |
| `TodoTasks.UpdatesAreIndependent` | App/TodoTask.cs:83-106 | Neither update changes the creation record (so `Id`/`GroupId` never change); each adds exactly its id to the history; a task update never touches the status record and a status update never touches the text record; both keep the task invariant |
| `TodoTasks.UpdatesAreIdempotent` | App/TodoTask.cs:83-106 | Applying the same task or status record twice gives the same task as applying it once |
| `TodoTasks.ShownAfterUpdate` | App/TodoTask.cs:20 | After one update the shown text (`Text`) is the task record's only when its id is strictly greater, and the shown status (`Status`) is the status record's when there was none or its id is strictly greater; the other one is unchanged |
| `TodoTasks.LatestTaskWins` | App/TodoTask.cs:83-90 | After any run of task updates the current text record is the earlier one or one of those applied, and its id is at least every applied id and the earlier one, i.e. the maximum; history grows by exactly the applied ids |
| `TodoTasks.LatestStatusWins` | App/TodoTask.cs:92-106 | After any non-empty run of status updates a status record exists (the first one is installed unconditionally), it is one of those applied or the earlier one, and its id is the maximum of them |
| `TodoTasks.TaskOrderIrrelevant` | App/TodoTask.cs:83-90 | With unique transaction ids, any permutation of the same task records yields the same task |
| `TodoTasks.StatusOrderIrrelevant` | App/TodoTask.cs:92-106 | With unique transaction ids, any permutation of the same status records yields the same task |
| `TodoTasks.SameLatestStatus` | App/TodoTask.cs:92-106 | With unique transaction ids, any permutation of the same status records ends with the same status record |
| `Records.StatusRoundTrips` | App/TodoTask.cs:66-78 | A packed task-status record storage unpacks back to itself, whatever follows, so the optional status of a task round-trips through `Packing.OptionalRoundTrip` |
| `TodoTasks.TaskRoundTrip` | App/TodoTask.cs:61-81 | Unpacking a packed task gives back the same task and leaves the rest of the stream |
| `TodoTasks.TodoTask.constructor` | App/TodoTask.cs:54-59 | The new object's state is `NewTask` of the creation record |
| `TodoTasks.TodoTask.FromData` | App/TodoTask.cs:61-70 | The unpacking constructor's object holds exactly the unpacked task |
| `TodoTasks.TodoTask.UpdateTask` | App/TodoTask.cs:83-90 | The new state is `ApplyTask` of the old state: the id joins the history, the text record is replaced only by a strictly greater id |
| `TodoTasks.TodoTask.UpdateStatus` | App/TodoTask.cs:92-106 | The new state is `ApplyStatus` of the old state: the id joins the history, the first status record is taken, later ones only with a strictly greater id |
| `TodoTasks.TodoTask.GetAllTransactionIds` | App/TodoTask.cs:36-42 | The result contains exactly the history ids, in strictly descending order (so each once) |
| `TodoTasks.ListOfSet` | App/TodoTask.cs:38 | Copying the history set into a list gives each of its ids exactly once |
| `Sorting.SortBy` | App/TodoList.cs:168 | The sort used for the download and for `GetTasks`: the result is a permutation of the input, ordered ascending or descending by the key |
| `Packing.SetRoundTrip` | App/TodoTask.cs:69-80 | A packed set of ids unpacks back to the same set and leaves the rest of the stream |
| `Packing.DecodedMapKeyed` | App/TodoList.cs:34 | An unpacked dictionary stores every value under the key the value reports (`UnpackerKey`) |
| `Packing.MapRoundTrip` | App/TodoList.cs:120-136 | A dictionary whose values report their own keys, packed as count and values, unpacks back to the same dictionary |
| `Packing.MapDecodes` | App/Todo.cs:49-51 | A packed dictionary unpacks to the dictionary of its values' images when each value unpacks to an image that reports the value's key; the unchanged round trip is the case where every image is the value itself |
| `Records.TypedStorageRoundTrip` | App/TodoTask.cs:63-75 | A packed record storage of each kind (name, task, status) unpacks back, as that kind, to the same storage |
| `TodoLists.EmptyList` | App/TodoList.cs:100-111 | A new list has the given id and cursor, no tasks, no name, no last used key, no missing key, and history {transactionId} unless the cursor is the invalid id, in which case it is empty |
| `TodoLists.FirstDecryption` | App/TodoList.cs:259-267 | No result exactly when no candidate key decrypts; otherwise the result is the text from the first key, in registry order, that decrypts |
| `TodoLists.SortIds` | App/TodoList.cs:88-95 | The `GetTasks` sort on task ids: a permutation, ordered by id or by display timestamp, ascending or descending as the sort method says |
| `TodoLists.DecodedListWellKeyed` | App/TodoList.cs:113-127 | An unpacked list stores every task under its own id and has no missing key |
| `TodoLists.NewTasks` | App/TodoList.cs:120 | One fresh task object per unpacked task, under the same key, holding that task |
| `TodoLists.TodoList.constructor` | App/TodoList.cs:100-111 | The new list object's state is `EmptyList(listId, transactionId)` and it is valid |
| `TodoLists.TodoList.FromData` | App/TodoList.cs:113-127 | The unpacking constructor's object holds exactly the unpacked list, with no missing keys, and fresh task objects |
| `TodoLists.TodoList.UpdateTaskItem` | App/TodoList.cs:342-346 | Updating the task stored under an id applies `ApplyTask` to that task and changes no other task |
| `TodoLists.TodoList.UpdateStatusItem` | App/TodoList.cs:351-352 | Updating the task stored under an id applies `ApplyStatus` to that task and changes no other task |
| `TodoLists.TodoList.AddTask` | App/TodoList.cs:343-344 | A fresh `NewTask` object is stored under the record's own transaction id; every other entry keeps its object |
| `TodoLists.TodoList.Process` | App/TodoList.cs:320-354 | The new list state is `ProcessRecord` of the old one and the list stays valid |
| `TodoLists.TodoList.GetDecryptedRecord` | App/TodoList.cs:253-273 | The new list state and the result are `DecryptSpec` of the old state; the tasks are untouched |
| `TodoLists.TodoList.ReadTransaction` | App/TodoList.cs:200-218 | The new list state and the decoded record are `ReadRecord` of the old state: an empty target list or an undecodable status is malformed, a status record is decoded as is, task and list-name records go through `GetDecryptedRecord`, any other index yields no record; the tasks are untouched |
| `TodoLists.TodoList.ProcessTransaction` | App/TodoList.cs:183-233 | The new list state and cache are `ProcessTransactionSpec` of the old ones |
| `TodoLists.TodoList.PruneMissingSecretKeys` | App/TodoList.cs:144-152 | The missing keys become exactly those for which the registry still has no key; nothing else changes |
| `TodoLists.TodoList.DownloadTransactions` | App/TodoList.cs:142-181 | The new list state, cache and published result are `DownloadSpec` of the old ones |
| `TodoLists.TodoList.MatchingIds` | App/TodoList.cs:78-86 | The keys of exactly the tasks with the given status, each once |
| `TodoLists.TodoList.GetTasks` | App/TodoList.cs:76-98 | The result holds exactly the task objects with the given status, each once, ordered by id (strictly) or by display timestamp, ascending or descending, as the sort method says |
| `TodoListProperties.ProcessRecordRouting` | App/TodoList.cs:320-354 | `Process` sets the cursor to the larger of cursor and record id and adds the id to the history. A name record is taken when there is no name, else only when strictly newer. A task record updates its existing target, or else inserts `NewTask` under its own id. A status record updates its existing target, or else changes no task. All other tasks are unchanged |
| `TodoListProperties.ShownNameAfterProcess` | App/TodoList.cs:45-51 | After `Process` the list's `Name` is a name record's name when the list had none or the record is strictly newer; otherwise the name is unchanged |
| `TodoListProperties.EmptyListConsistent` | App/TodoList.cs:100-111 | A new list satisfies the list invariant (tasks keyed by id and valid, task histories inside the list history, no history id beyond the cursor) |
| `TodoListProperties.ProcessRecordConsistent` | App/TodoList.cs:320-354 | `Process` keeps the list invariant |
| `TodoListProperties.ProcessRecordGrows` | App/TodoList.cs:320-354 | `Process` keeps the list id and the missing keys, and never lowers the cursor or drops a history id or a task |
| `TodoListProperties.ProcessTransactionConsistent` | App/TodoList.cs:183-233 | `ProcessTransaction` keeps the list invariant |
| `TodoListProperties.ProcessAllConsistent` | App/TodoList.cs:169-173 | Applying any sequence of transactions keeps the list invariant |
| `TodoListProperties.DownloadConsistent` | App/TodoList.cs:142-181 | A download cycle keeps the list invariant |
| `TodoListProperties.TransactionMonotone` | App/TodoList.cs:183-233 | One transaction never lowers the cursor, never shrinks history, task keys or missing keys, never changes the list id, and never drops or changes a cache entry |
| `TodoListProperties.ReadRecordKeeps` | App/TodoList.cs:200-218 | Decoding a payload changes at most the last used key and the missing keys, and never forgets a missing key |
| `TodoListProperties.ProcessAllMonotone` | App/TodoList.cs:169-173 | The same for any sequence of transactions |
| `TodoListProperties.ProcessAllSplit` | App/TodoList.cs:169-173 | Applying a sequence in two parts is applying it at once |
| `TodoListProperties.BlockedTransaction` | App/TodoList.cs:226-227 | While a key is missing, a transaction changes neither the cursor, the history, the tasks nor the name, and the key stays missing |
| `TodoListProperties.BlockedDownload` | App/TodoList.cs:226-227 | While a key is missing, a whole sequence of transactions changes neither cursor, history, tasks nor name |
| `TodoListProperties.FailingTransactionAppliesNothing` | App/TodoList.cs:197-227 | A transaction after which a key is missing changed neither cursor, history, tasks nor name |
| `TodoListProperties.CursorStopsAtFirstFailure` | App/TodoList.cs:166-173 | When the i-th transaction of a download leaves a key missing, the final cursor, history, tasks and name are those before it, so the next download starts where it would have before that transaction |
| `TodoListProperties.DecryptOutcomes` | App/TodoList.cs:253-273 | Only the last used key and the missing keys can change. An unparsable envelope changes nothing. No record exactly when no candidate key decrypts, and then the secret id is added to the missing keys and the last used key is unchanged. On success, the last used key becomes the record's key info and the record carries the first successful key's text and the transaction's ids |
| `TodoListProperties.LastUsedKeyAfterDecryption` | App/TodoList.cs:63-74 | After a successful decryption the divergent-key check passes exactly for an account whose default key has the record's secret id |
| `TodoListProperties.NoKeyUsedYet` | App/TodoList.cs:63-66 | Before any successful decryption the divergent-key check passes for every account |
| `TodoLists.IsLastUsedKey` | App/TodoList.cs:63-74 | The divergent-key check passes when no key was used yet; otherwise it fails without a default key, and with one it passes exactly when the secret ids agree |
| `TodoLists.TodoList.IsLastUsedSecretKey` | App/TodoList.cs:63-74 | The object's check passes exactly when no key was used yet or the default key has the last used key's secret id |
| `TodoLists.ListData.Name` | App/TodoList.cs:45-51 | A list has a name exactly when it holds a name record, and it is that record's name |
| `TodoLists.TodoList.Name` | App/TodoList.cs:45-51 | The object's name is present exactly when it holds a name record, and is that record's name |
| `TodoLists.TodoList.HasMissingSecretKeys` | App/TodoList.cs:39 | True exactly when some secret id has no key yet |
| `TodoListProperties.DownloadCycle` | App/TodoList.cs:142-181 | The pruning removes exactly the missing ids that now have a key and changes nothing else. The download starts at the larger of cursor and first transaction id, and so never past the cursor unless the cursor is below the first id. A failed download applies nothing. A successful one applies a permutation of the download in ascending id order |
| `TodoListProperties.ReplayedCreationReopensTask` | App/TodoList.cs:338-347 | Re-processing a task's creation record after the task was closed replaces it with a fresh open task whose history is only the creation id (replay is not idempotent) |
| `TodoListProperties.ReplayScenario` | App/TodoList.cs:320-354 | Name, creation, edit and an out-of-order close replayed give the name, the edited text, status Closed, the later timestamp, cursor 6 and the four ids in the history |
| `Packing.OptionalRoundTrip` | App/TodoList.cs:134-139 | A flag followed by an optional value unpacks back to the same optional value |
| `TodoListProperties.KeyInfoRoundTrips` | App/TodoList.cs:118-119 | A packed secret key info unpacks back to itself, whatever follows |
| `Records.NameRoundTrips` | App/TodoList.cs:122-123 | A packed list-name record storage unpacks back to itself, whatever follows |
| `TodoListProperties.TasksRoundTrip` | App/TodoList.cs:120-136 | The packed task dictionary of a list unpacks back to the same dictionary |
| `TodoListProperties.ListRoundTrip` | App/TodoList.cs:113-140 | Unpacking a packed list gives back the same list, except that the missing keys, which are not packed, are empty |
| `Todos.LoadSpec` | App/Todo.cs:40-60 | No cache file, or a file whose unpacking fails anywhere, gives no lists; every loaded list is stored under its own id, keys its tasks by id and misses no key |
| `Todos.DecodedListsWellKeyed` | App/Todo.cs:49-52 | Every list of an unpacked collection keys its tasks by id and misses no key |
| `Todos.LoadRoundTrip` | App/Todo.cs:40-65 | A saved collection of well-keyed lists under their own ids loads back with every list, each with its missing keys emptied (`Reloaded`); when no key was missing it loads back unchanged |
| `Todos.Reloaded` | App/TodoList.cs:113-140 | A list as unpacking leaves it: no key missing, and unchanged when none was |
| `Todos.NewLists` | App/Todo.cs:51 | One fresh, valid list object per loaded list, under the same id, holding that list |
| `Todos.Todo.Load` | App/Todo.cs:40-60 | The loaded collection has exactly the lists `LoadSpec` gives, each under its own id, each a fresh object holding that list |
| `Todos.Todo.GetTodoList` | App/Todo.cs:67-71 | The list stored under the id, or none exactly when there is none; the list reports that id |
| `Todos.Todo.AddGroupId` | App/Todo.cs:92-100 | On a present id: returns that list and changes nothing. On a new id: inserts exactly one fresh empty list with that id and the invalid cursor, leaving every other entry untouched |
| `Todos.Todo.QueryTodoListIds` | App/Todo.cs:73-90 | No downloaded ids: returns false and adds nothing. Otherwise returns true, every downloaded id is present afterwards, no list is removed or replaced, and the new lists are fresh and empty |
| `UnlockedStates.Observed` | App/Page/TodoPage.cs:21-27 | `UpdateState` records the flag: the state is never Unknown afterwards and is HasUnlocked exactly when the flag is set |
| `UnlockedStates.Step` | App/Page/TodoPage.cs:31-54 | A call leaves the state recording the observed flag, and reports a change exactly when the state was Unknown or recorded the other flag |
| `UnlockedStates.Replay` | App/Page/TodoPage.cs:31-54 | After a series of calls there is one report per call and the state records the last flag observed |
| `UnlockedStates.FirstCallReports` | App/Page/TodoPage.cs:35-39 | The first call, from Unknown, reports a change |
| `UnlockedStates.RepeatedCallIsQuiet` | App/Page/TodoPage.cs:41-53 | A call observing the same flag as the call before it reports no change |
| `UnlockedStates.KnownReplayReportsEdges` | App/Page/TodoPage.cs:41-53 | From a known state, each call reports a change exactly when its flag differs from the previously observed one |
| `UnlockedStates.ReplayReportsEdges` | App/Page/TodoPage.cs:31-54 | From Unknown: the first call reports a change, each later call reports one exactly when its flag differs from the previous call's, and the state ends recording the last flag, never Unknown |
| `UnlockedStates.UnlockedServiceState.constructor` | App/Page/TodoPage.cs:19 | The tracker starts Unknown |
| `UnlockedStates.UnlockedServiceState.UpdateState` | App/Page/TodoPage.cs:21-27 | The state becomes `Observed(flag)` |
| `UnlockedStates.UnlockedServiceState.HasUnlockedState` | App/Page/TodoPage.cs:29 | True exactly in the `HasUnlocked` state, so an `Unknown` or `NoUnlocked` state reports no unlocked account |
| `UnlockedStates.UnlockedServiceState.HasNewState` | App/Page/TodoPage.cs:31-54 | The new state and the result are `Step` of the old state; afterwards the state is not Unknown and `HasUnlockedState` equals the flag just observed |

## Left out

- I/O and plumbing are not modelled:
  - the cache file read and write (`Save`, `SaveAsync`, `CacheStorage`);
  - `async`/`Task.Run`;
  - PubSub events;
  - `LastDownloadResult`.

  The published download outcome is modelled as the `QueryResult` that `DownloadTransactions` returns. The file content is an input to `Todo.Load`, and `Todo.Pack` is modelled only at value level (`EncodeTodo`).
- Cryptography (`EncrytpedRecord.GetRecord`) and the service node's key registry are oracles; they are parameters in `Env`.
- The unpacking of the status record (`new TodoTaskStatusRecord(unpacker)`) and of the encryption envelope are oracles too, so a payload that throws there is a `None`.
- `Todo.QueryTodoLists` (discover ids, then download every list) is not modelled as one operation. It is the composition of `QueryTodoListIds` and one `DownloadTransactions` per list.
- `LoadTodoStorage` and `SaveTodoStorage` (the decrypted-record attachment of a download) are modelled as lookups and inserts in a map from transaction id to record (`DecryptedStore`). An unreadable cached entry, which the source treats like an absent one, is not modelled separately. Write failures of the cache are not modelled.
- The back-references (`TodoList.Todo`, `ServiceNode`, `Index`) are not modelled. The key registry is queried with the list id, which stands for the list's chain index.
- The `Packer`/`Unpacker` library, `SecretKeyInfo.Restore` and the record storages' own pack layouts are not part of this model. Their token layouts here are chosen, and only the round trips are claimed. The same holds for the values of `Operation.InvalidTransactionId` (-1), `Operation.FirstTransactionId` (0), the `TodoServiceInfo` group indices (1, 2, 3), `TodoServiceInfo.DataVersion` (1) and the record-type and status codes, which are chosen constants.
- A transaction is reduced to its id, account, timestamp, `Group` feature, the first target of `TransactionTarget`, and the payload of its first data item.
- Ties in the `GetTasks` timestamp sort and the order of the `Ignored` sort (the dictionary's enumeration order) are not fixed by the source. `List.Sort` is not stable; the model picks one order.
- Integer widths (`long`, `ulong` secret ids) are unbounded here. Nothing in the core does arithmetic that could overflow.
- `Todos.Todo.GetTodoList` requires the collection invariant (lists under their own ids), which every constructor and method keeps.
- `Packing.DecodeMap`: a packed dictionary with two values under the same key unpacks with the later value winning. This is a choice of the model, since the `Unpacker` library is not part of it. The library may throw instead, and then `Todo` loads an empty collection (App/Todo.cs:55-59).

### Source behaviour the model keeps

- Replaying a task's creation record is not idempotent. The record's target is the invalid id, so `Process` replaces the task with a fresh one (App/TodoList.cs:342-344; `ReplayedCreationReopensTask`).
- The tasks' `Update` methods have no explicit "already applied" guard. Applying the same record twice is still a no-op, because history is a set and replacement needs a strictly greater id (`UpdatesAreIdempotent`).
- The list unpacker reads the data-version byte and ignores it. An unknown version does not fall back to an empty list.
- `AddGroupId` creates a list with the invalid cursor and an empty history.
- The cursor does not move while a key is missing. No record is applied then (`BlockedTransaction`), so the cursor stays where the first failure left it (`CursorStopsAtFirstFailure`), and the next download starts at the larger of the cursor and the first transaction id (`DownloadCycle`). Missing ids are removed only when the registry holds a key for them, not when their transactions are resolved.
