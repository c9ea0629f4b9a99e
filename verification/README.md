# np_queuey job queues, modelled in Dafny

This project models the two job tables of `np_queuey` and the input normalisation that feeds them:

- **The pipeline sorting queue** (`pipeline_sorting.dfy`, module `PipelineSorting`). This is a table of `Sorting` jobs keyed by session folder name.
  - Each job has a priority (default 0), an `added` timestamp, a hostname (default empty), a finished flag (default false) and probe letters (default `ABCDEF`).
  - `next` serves the eligible job with the highest priority. Ties go to the earliest `added`. A job is eligible when it is not finished and no host holds it.
  - `set_started` claims a job for a host.
  - The table is the class `SortingQueue`. Its `rows` field lists the stored records in table order.
  - `Add` and the state transitions are methods on the class. The query (`SelectUnprocessed`, `Next`) are functions of the rows; the job predicates (`Eligible`, `IsStarted`) are predicates of one job.
- **The behavior-session upload queue** (`mtrain_upload.dfy`, module `MtrainUpload`). This is a table keyed by integer behavior session id. Each row holds `added` and two flags, `processing` and `uploaded`; each flag is NULL, 0 or 1.
  - The table is the `queue` map of the class `UploadQueue`.
  - Each SQL statement (INSERT OR IGNORE, DELETE, the two UPDATEs) is a function of the map.
  - The module-level operations are methods that apply these functions.
  - The outstanding query is a read-only method with a loop.
- **Input normalisation** (`utils.dfy`, module `Utils`). `get_session` and `get_job` take a folder name, a parsed session or a job-like value.
  - The session parser of the foreign session library is a function parameter `parse`. A result of `None` stands for its `SessionError`.
  - Every property holds for any parser.
- `wrappers.dfy` holds the `Option` and `Result` datatypes.

Clock readings (`datetime.now`, `CURRENT_TIMESTAMP`, `time.time`) are integer parameters named `now`. Each table statement is one atomic step on the in-memory table.

Behaviour of the code worth noting:
- `add` with a key that is already stored fails with `IntegrityError` and leaves the table unchanged. It does not upsert.
- `set_started` is an unconditional write of the job instance, with no compare-and-swap on an empty hostname. It does not touch `finished` beyond writing back the instance's own value.
- `set_finished` and `set_queued` exist only as documented methods of the `JobQueue` protocol (src/np_queuey/jobs/pipeline_sorting.py:107-117). The concrete queue does not implement them.
  - `SortingQueue.SetFinished` and `SortingQueue.SetQueued` are derived from those doc-comments. They are built the same way as `set_started`: update the instance, then save it.
  - `SetQueued` only clears the hostname. It keeps `finished`, because the protocol calls `set_finished` "not reversible" (src/np_queuey/jobs/pipeline_sorting.py:109). So `SetQueued` on a finished job does not put it back in the queue. So for a finished job `SetQueued` does not do what "Mark a job as requiring processing" (src/np_queuey/jobs/pipeline_sorting.py:116) suggests.
  - Finishing is irreversible only while every instance in use is up to date. `set_started` saves all fields of its instance, so calling it on an instance read before the job was finished writes `finished = false` back (`StaleInstanceUndoesFinish`).

Saving a peewee instance writes all of its fields to the row with its primary key. So `Saved` replaces that row with the instance. When the instance is up to date, only the changed field differs (`SavedReplacesOneRow`).

## Model

| member | source | states |
|---|---|---|
| Utils.GetSession | src/np_queuey/utils.py:27-41 | A session is returned unchanged. Any other argument fails with `TypeError(argument)` exactly when the parser rejects it; otherwise the result is the parsed session. |
| Utils.GetJob | src/np_queuey/utils.py:44-55 | A job-like argument is returned unchanged. Otherwise the result fails exactly when `GetSession` fails (with the same `TypeError`), or it is a dataclass job whose session is the parsed session's folder and whose priority is 0. |
| Utils.GetJobUsesDataclassDefaults | src/np_queuey/utils.py:71-83 | The record built for a non-job argument has the session folder, the current time, priority 0 and no `started`, `hostname` or `finished` value. |
| Utils.GetJobIdempotent | src/np_queuey/utils.py:47-52 | Feeding a job returned by `get_job` back into `get_job` returns the same job. |
| Utils.GetSessionIdempotent | src/np_queuey/utils.py:30-35 | Feeding a session returned by `get_session` back into `get_session` returns the same session. |
| Utils.JobTupleHasDefaultPriority | src/np_queuey/utils.py:58-69 | Every named-tuple job reports priority 0, and `get_job` passes it through with priority 0. |
| PipelineSorting.Eligible | src/np_queuey/jobs/pipeline_sorting.py:176-178 | An unfinished job is eligible for selection exactly when it is not started; an eligible job is never started. |
| PipelineSorting.StartedAndFinishedAreNotEligible | src/np_queuey/jobs/pipeline_sorting.py:187-190 | A started job is not eligible for selection. A finished job is neither started nor eligible. An unfinished job is started exactly when it is not eligible. |
| PipelineSorting.Unprocessed | src/np_queuey/jobs/pipeline_sorting.py:176-178 | The filter keeps exactly the rows that are not finished and have an empty hostname, each as many times as it is stored, and drops the others entirely. |
| PipelineSorting.Insert | src/np_queuey/jobs/pipeline_sorting.py:179 | Inserting a job into a sequence ordered by priority descending, then `added` ascending, keeps it ordered and adds exactly that job. |
| PipelineSorting.SortByRank | src/np_queuey/jobs/pipeline_sorting.py:179 | The ordering is by priority descending, then `added` ascending. The result is a permutation of its input. |
| PipelineSorting.SelectUnprocessed | src/np_queuey/jobs/pipeline_sorting.py:170-180 | The selection holds exactly the eligible rows, each as often as the filter gives it, in serving order. |
| PipelineSorting.SelectionHasNoDuplicates | src/np_queuey/jobs/pipeline_sorting.py:176-180 | A row stored at most once appears at most once in the selection. |
| PipelineSorting.Next | src/np_queuey/jobs/pipeline_sorting.py:164-167 | `next` fails with `DoesNotExist` exactly when no row is eligible. Otherwise it returns a stored eligible row that ranks before every eligible row: no higher priority, and no earlier `added` at equal priority. |
| PipelineSorting.HigherPriorityServedFirst | src/np_queuey/jobs/pipeline_sorting.py:100-105 | Of two eligible jobs, the one with lower priority is not served next, whatever the insertion order. |
| PipelineSorting.EarlierAddedServedFirst | src/np_queuey/jobs/pipeline_sorting.py:63-73 | Of two eligible jobs with equal priority, the one added later is not served next. |
| PipelineSorting.TopPriorityJobIsNext | src/np_queuey/jobs/pipeline_sorting.py:23-28 | A job whose priority (for example 99) is above that of every other eligible job is served next. |
| PipelineSorting.NewRow | src/np_queuey/jobs/pipeline_sorting.py:127-136 | A new row has the given key, priority and time, the default probes `ABCDEF`, no host and finished false, so it is eligible and not started. |
| PipelineSorting.Created | src/np_queuey/jobs/pipeline_sorting.py:150-162 | `add` fails with the session error exactly when a name or another job's folder is rejected by the parser. Otherwise the row has the parsed (or given) session folder and the other job's priority, or 0. It also has `added = now`, an empty hostname, finished false and probes `ABCDEF`. |
| PipelineSorting.CreatedRowIsQueued | src/np_queuey/jobs/pipeline_sorting.py:127-136 | A freshly created row is eligible and not started. |
| PipelineSorting.AddedRowIsNextWhenAlone | src/np_queuey/jobs/pipeline_sorting.py:150-167 | When no stored row is eligible, `next` returns the row just added. |
| PipelineSorting.CreatedInOrderServedInOrder | src/np_queuey/jobs/pipeline_sorting.py:4-18 | Take two default jobs created one after the other. `next` returns the first. Once the first is saved as finished, `next` returns the second. |
| PipelineSorting.Saved | src/np_queuey/jobs/pipeline_sorting.py:184-185 | Saving overwrites exactly the rows with the instance's primary key and leaves every other row as it was. |
| PipelineSorting.SavedKeepsKeys | src/np_queuey/jobs/pipeline_sorting.py:193-195 | Saving never changes any stored primary key, so keys stay unique. |
| PipelineSorting.SavedReplacesOneRow | src/np_queuey/jobs/pipeline_sorting.py:182-185 | With unique keys, saving an instance replaces the one row with its key and nothing else. |
| PipelineSorting.SavedIneligibleLeavesSelection | src/np_queuey/jobs/pipeline_sorting.py:176-185 | After saving a job as claimed or finished, no job with its key is in the selection, and `next` never returns it. |
| PipelineSorting.SavedEligibleIsSelectable | src/np_queuey/jobs/pipeline_sorting.py:115-117 | After saving a stored job as unclaimed and unfinished, it is in the selection again, and `next` succeeds. |
| PipelineSorting.StaleInstanceUndoesFinish | src/np_queuey/jobs/pipeline_sorting.py:182-185 | Saving an instance read before its job was finished, with any hostname, writes `finished = false` to the stored row. With an empty hostname the job is selectable again. |
| PipelineSorting.QueuedUndoesStarted | src/np_queuey/jobs/pipeline_sorting.py:115-117 | With unique keys, claiming a stored eligible job for any host and then saving it with an empty hostname restores the table exactly as it was. |
| PipelineSorting.SortingQueue.constructor | src/np_queuey/jobs/pipeline_sorting.py:193-199 | A new table is empty and satisfies the unique-key invariant. |
| PipelineSorting.SortingQueue.Add | src/np_queuey/jobs/pipeline_sorting.py:150-162 | On a parser failure or an already stored key, the table is unchanged and the error is returned. Otherwise exactly the created row is appended. Keys stay unique. |
| PipelineSorting.SortingQueue.SetStarted | src/np_queuey/jobs/pipeline_sorting.py:182-185 | The instance gets the hostname and is saved. For an up-to-date instance only that row's hostname changes. The instance is started exactly when the hostname is non-empty and it is unfinished. With a non-empty hostname, `next` never returns it. |
| PipelineSorting.SortingQueue.SetFinished | src/np_queuey/jobs/pipeline_sorting.py:107-109 | Derived from the protocol doc-comment. The instance is saved as finished. For an up-to-date instance only `finished` changes. It is not started, and `next` never returns it. |
| PipelineSorting.SortingQueue.SetQueued | src/np_queuey/jobs/pipeline_sorting.py:115-117 | Derived from the protocol doc-comment. The instance is saved with an empty hostname and keeps its `finished` value, so it is not started. A stored, unfinished job is selectable again. A finished job is not: `next` never returns it. |
| PipelineSorting.SortingQueue.Save | src/np_queuey/jobs/pipeline_sorting.py:185 | Writes the instance to the row with its key. With unique keys this is a one-row replacement. |
| MtrainUpload.NewRow | src/np_queuey/jobs/dynamicrouting_behavior_session_mtrain_upload.py:82-86 | A new row has `added = now` and both flags NULL, so it is outstanding. |
| MtrainUpload.IsOutstanding | src/np_queuey/jobs/dynamicrouting_behavior_session_mtrain_upload.py:118 | A row whose `processing` or `uploaded` flag is 1 is not outstanding. |
| MtrainUpload.Outstanding | src/np_queuey/jobs/dynamicrouting_behavior_session_mtrain_upload.py:116-120 | The query returns only stored ids. It returns every id whose row is still as inserted, and no id marked as uploaded. |
| MtrainUpload.Inserted | src/np_queuey/jobs/dynamicrouting_behavior_session_mtrain_upload.py:38-43 | After INSERT OR IGNORE the id is stored, every stored row (including its `added`) is unchanged, and a new id has a row with both flags NULL. |
| MtrainUpload.Removed | src/np_queuey/jobs/dynamicrouting_behavior_session_mtrain_upload.py:98-103 | DELETE drops exactly the id and keeps every other row. |
| MtrainUpload.ProcessingSet | src/np_queuey/jobs/dynamicrouting_behavior_session_mtrain_upload.py:137-141 | The UPDATE sets `processing` to 1 on the id's row only, keeping its `added` and `uploaded`. It changes nothing when the id is absent. |
| MtrainUpload.UploadedSet | src/np_queuey/jobs/dynamicrouting_behavior_session_mtrain_upload.py:158-162 | The UPDATE sets the flags of the id's row to (0, 1), keeping its `added`. It changes nothing when the id is absent. |
| MtrainUpload.InsertIdempotent | src/np_queuey/jobs/dynamicrouting_behavior_session_mtrain_upload.py:30-43 | Adding an id a second time changes nothing, whatever the clock reads. |
| MtrainUpload.InsertedIsOutstanding | src/np_queuey/jobs/dynamicrouting_behavior_session_mtrain_upload.py:106-114 | Adding a new id adds exactly that id to the outstanding set. |
| MtrainUpload.RemovedDropsOnlyId | src/np_queuey/jobs/dynamicrouting_behavior_session_mtrain_upload.py:90-103 | After removal the id is absent. Removing an absent id is a no-op. The outstanding set loses exactly that id. |
| MtrainUpload.MarkedProcessing | src/np_queuey/jobs/dynamicrouting_behavior_session_mtrain_upload.py:123-141 | After add-then-update, the id is stored with `processing = 1` and keeps its `uploaded` and `added` values (or NULL and now if it was missing). Other rows are unchanged, and the id leaves the outstanding set. |
| MtrainUpload.MarkedUploaded | src/np_queuey/jobs/dynamicrouting_behavior_session_mtrain_upload.py:144-162 | After add-then-update, the id is stored with flags (0, 1) and its `added` value (or now if it was missing). Other rows are unchanged, and the id leaves the outstanding set. |
| MtrainUpload.MarksIdempotent | src/np_queuey/jobs/dynamicrouting_behavior_session_mtrain_upload.py:134-162 | Marking the same id again, as processing or as uploaded, changes nothing. |
| MtrainUpload.UploadQueue.constructor | src/np_queuey/jobs/dynamicrouting_behavior_session_mtrain_upload.py:76-87 | A newly created table has no rows. |
| MtrainUpload.UploadQueue.Add | src/np_queuey/jobs/dynamicrouting_behavior_session_mtrain_upload.py:30-43 | The table becomes `Inserted` of the old table. The id is present afterwards. A stored id leaves the table unchanged; a new id gets a row with `added = now` and NULL flags. |
| MtrainUpload.UploadQueue.Remove | src/np_queuey/jobs/dynamicrouting_behavior_session_mtrain_upload.py:90-103 | The id is absent afterwards and every other row is unchanged. |
| MtrainUpload.UploadQueue.GetOutstanding | src/np_queuey/jobs/dynamicrouting_behavior_session_mtrain_upload.py:106-120 | Returns each id whose `processing` and `uploaded` are each 0 or NULL, exactly once, and no other id. |
| MtrainUpload.UploadQueue.MarkProcessing | src/np_queuey/jobs/dynamicrouting_behavior_session_mtrain_upload.py:123-141 | The id is present with `processing = 1` and its old `uploaded` (NULL if it was missing). Other rows are unchanged, and the outstanding set loses exactly the id. |
| MtrainUpload.UploadQueue.MarkUploaded | src/np_queuey/jobs/dynamicrouting_behavior_session_mtrain_upload.py:144-162 | The id is present with flags (0, 1). Other rows are unchanged, and the outstanding set loses exactly the id. |

## Left out

- SQLite and peewee plumbing is left out: connections, pragmas, the exclusive-transaction cursor and its commit and rollback, and table creation. Each statement is one atomic step on an in-memory table that always exists. A call to the outstanding query on a database where the table was never created would fail; the model does not capture that.
- Concurrency is left out. `next` and `set_started` are separate unconditional steps, and each mark operation is two separate transactions (insert, then update). Interleavings with other workers are not modelled, and no compare-and-swap is added.
- The session library's folder-name parsing is not modelled. It is the parameter `parse`. Likewise `Sorting.session` is not modelled on its own; it matters only inside `add`.
- Clock values are integer parameters. Timestamp formats (`datetime`, SQL `CURRENT_TIMESTAMP` strings, `time.time` floats) are not modelled.
- `add_verbose_names_to_peewee_fields` is not modelled; it only copies field docstrings into peewee metadata.
- The base `PeeweeJobQueue` table with peewee's implicit auto-increment id is not modelled separately. Only the `Sorting` table keyed by `foldername` is modelled. The two-job scenario of the module docstring is stated with two distinct keys.
- Order among eligible jobs with equal priority and equal `added` is not specified by the SQL query. The model's sort picks some order, and no property depends on it.
- The order of the ids returned by the outstanding query is not promised (there is no ORDER BY). `GetOutstanding` may return them in any order.
- The flag columns are plain INTEGER columns. The model allows any integer in them, but the code only writes NULL, 0 and 1.
- `add` accepts a folder name, a session or a queue job (`AddArg`). For any other argument the source silently inserts nothing. That includes the utility records `JobDataclass` and `JobTuple`: they lack `is_started`, so they are not instances of the `Job` protocol (src/np_queuey/jobs/pipeline_sorting.py:159). The model has no case for such arguments.
- `set_started` defaults its hostname to the local machine's name (src/np_queuey/jobs/pipeline_sorting.py:182). The model has no host configuration, so `SetStarted` always takes the hostname as an argument.
- Integers are unbounded in the model. SQLite stores INTEGER values in 64 bits, and the database driver raises `OverflowError` when asked to bind a larger Python integer. That error path for a `priority` or a `behavior_session_id` outside the signed 64-bit range is not modelled.
- `add` returns nothing in the source. The model returns the created row, or the error the source raises.
- `src/np_queuey/queues.py` (a storage wrapper and subprocess launcher), the periodic upload tasks under `src/np_queuey/hueys/` and the scripts are not part of this model: they are process I/O, scheduling and network lookups.
