# DailyB cron runner: a Dafny model

DailyB is a small HTTP cron runner. A Flask dashboard stores jobs, which are a
URL, an HTTP method, headers, an optional payload and a five-field cron
expression. APScheduler fires the jobs, and each firing sends one HTTP request
and appends one record to a capped execution history. A standalone script
calls an earnings endpoint and decides from the reply whether the run
succeeded.

This project models the bookkeeping and decision logic of that system and
proves what it promises:

- `JobStore` (job_manager.dfy) is the job table and the execution history.
  The class `JobManager` holds them as two sequences in place of the two JSON
  files. Each operation that loads, changes and saves a file is a method that
  changes the matching field, specified by a function on the old state.
- `Scheduling` (scheduler.dfy) is `CronScheduler`: the table of cron bindings,
  kept as a map from job id to its five cron fields. It also covers
  request preparation, the classification of replies, and the history record
  each execution leaves.
- `Dashboard` (app.dfy) covers the handlers of app.py that decide something:
  - form validation and header-text parsing in `add_job`;
  - `toggle_job` and `delete_job`;
  - the `is_running` and `job_name` annotations of `index` and `job_history`.
- `Earnings` (earnings_cron.dfy) is the classification chain of
  `run_earnings_cron`.
- `Text` (text.dfy) models the Python `str` operations these rely on:
  - `strip()` and `split()`, over Python's full `isspace` set;
  - `split(sep)`, `startswith` and `in`;
  - ASCII `lower()`/`upper()`;
  - `str(int)`.
- `Json` (json.dfy) models the value `json.loads` returns, and Python
  truthiness.
- `Wrappers` (wrappers.dfy) holds `Option`.

Some inputs are abstract:
- The identifier supply (`uuid4`) is a counter, `nextId`, so ids are fresh and
  distinct.
- The clock (`datetime.now()`) is a `now` parameter.
- `json.loads` is a parameter `parse: string -> Parsed`.
- The network (`requests.request`, `requests.get`) is a parameter, or the
  reply is an input.

Two behaviours of the code worth noting:
- A failed HTTP response keeps no response content. Only its first 200
  characters appear, inside the error message (scheduler.py:158-159).
- `schedule_job` removes the old binding before it checks the new
  expression. A failed re-registration therefore leaves the job unbound
  (scheduler.py:43-49).

## Model

| member | source | states |
|---|---|---|
| JobStore.JobManager.constructor | job_manager.py:8-27 | a new manager starts with an empty job table and an empty history |
| JobStore.JobManager.AddJob | job_manager.py:63-85 | exactly one job is appended at the end with the given fields, a method, `active` true, no last run and no last status. Headers default to `{}`. Its id differs from every earlier id and is returned. Earlier jobs and the history are unchanged |
| JobStore.JobManager.GetAllJobs | job_manager.py:87-89 | returns the job table as stored |
| JobStore.FirstIndex | job_manager.py:94-97 | the position found is the first job with that id; `None` exactly when no job has it |
| JobStore.JobManager.GetJob | job_manager.py:91-97 | returns the first job whose id matches; `None` exactly when no job matches |
| JobStore.JobManager.FindFirst | job_manager.py:109-112 | the search loop stops at the first matching position, or finds none; same answer as `FirstIndex` |
| JobStore.FirstIndexSameIds | job_manager.py:106-124 | field updates that keep every id in place do not change which job a lookup finds |
| JobStore.Without | job_manager.py:102 | a job survives deletion exactly when it was present and its id differs; never longer than before |
| JobStore.WithoutConcat | job_manager.py:102 | deletion filters piecewise, so the kept jobs stay in their original order |
| JobStore.WithoutAbsent | job_manager.py:99-104 | deleting an id that no job has leaves the table unchanged |
| JobStore.JobManager.DeleteJob | job_manager.py:99-104 | the table becomes the filtered table; the history is unchanged |
| JobStore.WithActive | job_manager.py:109-112 | only the first job with the id gets the new `active` flag; every other job and field is unchanged; an absent id changes nothing |
| JobStore.JobManager.UpdateJobStatus | job_manager.py:106-114 | the table becomes `WithActive` of the old table; the history is unchanged |
| JobStore.StatusLabel | job_manager.py:122 | the label is 'success' exactly for a successful run, and 'failed' otherwise |
| JobStore.WithLastRun | job_manager.py:119-123 | only the first job with the id gets the run time and 'success' or 'failed'; everything else is unchanged; an absent id changes nothing |
| JobStore.JobManager.UpdateJobLastRun | job_manager.py:116-124 | the table becomes `WithLastRun` of the old table; the history is unchanged |
| JobStore.Appended | job_manager.py:144-148 | the new record is last. The length is `min(old + 1, 1000)`. The retained older records are the most recent ones, in order. At the cap, exactly the oldest is dropped |
| JobStore.Excerpt | job_manager.py:141 | the stored content is a prefix of the input, of length `min(len, 1000)`. It is `None` exactly when the input is `None` or empty |
| JobStore.JobManager.AddExecutionHistory | job_manager.py:126-151 | the job's last run is updated and the log becomes `Appended` of one fresh record carrying the given fields and the content excerpt |
| JobStore.Reverse | job_manager.py:157 | the reversed log has the same length, and element `i` is element `len-1-i` of the log |
| JobStore.JobManager.GetJobHistory | job_manager.py:153-158 | the records come newest first. The count is `min(limit, len)`. A negative limit cuts from the end as Python's `[:limit]` does |
| JobStore.JobManager.ClearHistory | job_manager.py:160-163 | the history is empty afterwards and the jobs are unchanged |
| JobStore.RecordsOf | job_manager.py:168 | keeps exactly the records of the job |
| JobStore.Successes | job_manager.py:179 | keeps exactly the successful records |
| JobStore.RecordsOfConcat | job_manager.py:168 | the per-job filter distributes over appending records |
| JobStore.SuccessesConcat | job_manager.py:179 | the success filter distributes over appending records |
| JobStore.Stats | job_manager.py:165-189 | `successful + failed == total`. `total` counts the job's records and `successful` its successes. `total` is 0 exactly when the job has no record, and then all counts are 0 |
| JobStore.StatsAfterRecord | job_manager.py:144-189 | before the 1000-record cap, appending one record raises its own job's total by one, and its successes by one when it succeeded. Other jobs' counts do not move |
| JobStore.JobManager.GetJobStats | job_manager.py:165-189 | `total` counts the retained records of the job and `successful` those that succeeded; `successful + failed == total`. `total` is 0 exactly when no retained record has the id, and then all counts are 0 |
| Text.TrimStart | app.py:49 | the result is a suffix of the input, and everything removed is whitespace. The result is empty or starts with non-whitespace |
| Text.TrimEnd | app.py:49 | the result is a prefix of the input, and everything removed is whitespace. The result is empty or ends with non-whitespace |
| Text.Strip | app.py:49-51 | the result sits inside the input with only whitespace around it, and has no whitespace at either end. It is empty exactly when the input is all whitespace |
| Text.WordLength | scheduler.py:46 | the leading run is whitespace-free and ends at whitespace or at the end |
| Text.Fields | scheduler.py:46 | every field of `split()` is non-empty and whitespace-free; `FieldsCharacterised` pins the whole result |
| Text.FieldsOfInterleave | scheduler.py:46 | non-empty, whitespace-free words with any whitespace runs around them, and a non-empty run between each two, split back into exactly those words |
| Text.Gaps | scheduler.py:46 | gives one whitespace run more than there are fields |
| Text.GapsSeparate | scheduler.py:46 | every string is its `split()` fields placed between whitespace runs, non-empty between two fields |
| Text.FieldsCharacterised | scheduler.py:46 | `split()` of `s` is `words` exactly when `s` is those words with whitespace runs around them and a non-empty run between each two |
| Text.WordLengthOfWord | scheduler.py:46 | a whitespace-free word followed by whitespace or nothing is read whole |
| Text.FieldsOfJoin | scheduler.py:46 | `split()` of space-joined non-empty, whitespace-free words gives the words back |
| Text.IndexOf | app.py:72 | the first occurrence of the character, or the length exactly when it is absent |
| Text.Split | app.py:70 | `split(sep)` gives at least one part. No part contains the separator, and joining the parts with it gives the input back |
| Text.SplitOfJoin | app.py:70 | splitting separator-free parts joined by the separator gives the parts back |
| Text.Contains | earnings_cron.py:44-48 | definition of `sub in s`; its meaning is given by `ContainsIff` |
| Text.ContainsIff | earnings_cron.py:44-48 | `sub in s` holds exactly when `sub` occurs at some offset of `s` |
| Text.Lower | earnings_cron.py:70 | the same length, no capital ASCII letter left, and every other character unchanged |
| Text.Upper | scheduler.py:116 | the same length, no small ASCII letter left, and every other character unchanged |
| Text.NatToString | scheduler.py:158 | the decimal rendering is a non-empty string of digits with no leading zero (`0` itself is the one digit) |
| Text.IntToString | scheduler.py:158 | `str(i)`: for a non-negative `i`, its digits; for a negative `i`, `-` then the digits of `-i`. The digits are non-empty, have no leading zero and read back as the number |
| Text.NatToStringRoundTrip | scheduler.py:158 | reading the digits back gives the number |
| Scheduling.ParseCron | scheduler.py:46-60 | an expression is accepted exactly when `split()` gives five fields, and the trigger holds those fields in order |
| Scheduling.CronRoundTrip | scheduler.py:46-60 | five non-empty, whitespace-free fields joined by spaces parse back to the same trigger |
| Scheduling.CronScheduler.constructor | scheduler.py:10-16 | a scheduler starts with no bindings, over the given manager |
| Scheduling.CronScheduler.ScheduleJob | scheduler.py:34-76 | an unknown job returns False and changes nothing. Otherwise the old binding goes. A new binding to the parsed trigger is added exactly when the expression has five fields, which is also the result |
| Scheduling.CronScheduler.RemoveJob | scheduler.py:78-85 | the binding of the id is gone and every other binding is unchanged; an unbound id is not an error |
| Scheduling.CronScheduler.GetRunningJobs | scheduler.py:87-93 | lists every bound id exactly once |
| Scheduling.Verb | scheduler.py:116 | GET when the job stores no method; otherwise the stored method character by character, each small ASCII letter replaced by its capital and every other character kept |
| Scheduling.CarriesBody | scheduler.py:132 | definition: the methods that carry a body are POST, PUT and PATCH; used by `Prepare` |
| Scheduling.HasPayload | scheduler.py:132 | definition: the payload is truthy, so present and non-empty; used by `Prepare` |
| Scheduling.DeclaresJson | scheduler.py:133 | definition: `Content-Type`, or the empty text when absent, starts with `application/json`; used by `Prepare` |
| Scheduling.WithDefaultAgent | scheduler.py:122-123 | `User-Agent` is always present. An existing value is kept, and the default `CronJobManager/1.0` is used only when the exact key is absent. No other header changes |
| Scheduling.Prepare | scheduler.py:115-136 | the request has the upper-cased method (default GET), the URL, the defaulted headers and a timeout of 30. A body is attached exactly for POST/PUT/PATCH with a non-empty payload: JSON when `Content-Type` starts with `application/json`, raw data otherwise. A JSON payload that does not parse aborts the request |
| Scheduling.BuildRequest | scheduler.py:115-136 | the step-by-step building of the method, headers and body yields exactly the request, or decode failure, that `Prepare` describes |
| Scheduling.Attempt | scheduler.py:139-196 | success holds exactly for a response with `200 <= status < 400`. A success keeps the whole text and no error. A failed response gets `HTTP <status>: ` plus at most 200 characters, and no content. A transport failure or undecodable payload gets no status, the matching message, and no content |
| Scheduling.IsSuccessStatus | scheduler.py:145 | definition: `200 <= status < 400`; `Attempt` states what it decides |
| Scheduling.HttpErrorMessage | scheduler.py:158 | `HTTP `, the decimal status and `: `, then the first min(200, len) characters of the reply text |
| Scheduling.RecordedContent | scheduler.py:153-160 | a stored body exists only for a success; it is at most 1000 characters and a prefix of the reply text |
| Scheduling.HttpErrorMessageCarriesStatus | scheduler.py:158 | an HTTP failure message starts with `HTTP `, the digits of the status and `: `; the digits read back as the status |
| Scheduling.CronScheduler.ExecuteJob | scheduler.py:103-196 | an unknown job records nothing and returns False. A known job gets exactly one record built from `Attempt`, its last run is updated, and the result is the success flag |
| Scheduling.CronScheduler.RunJobNow | scheduler.py:95-101 | the same effect and result as one execution |
| Dashboard.HasWebScheme | app.py:62 | definition: the URL starts with `http://` or `https://`; `Validate` states what it decides |
| Dashboard.Validate | app.py:49-64 | the required-fields error comes exactly when a stripped field is empty. The scheme error comes exactly when the fields are present and the stripped URL starts with neither `http://` nor `https://`. No error exactly when every field is present and the scheme is right |
| Dashboard.SplitAtColon | app.py:72 | the key part has no ':' and key, ':' and value rebuild the line |
| Dashboard.HeaderLine | app.py:71-73 | a line contributes an entry exactly when it contains ':' |
| Dashboard.HeaderLineOfKeyValue | app.py:71-73 | a line `key:value` with a colon-free key contributes the stripped key and the stripped value, even when the value contains ':' |
| Dashboard.HeaderMap | app.py:67-73 | definition of the dictionary the header loop builds; its meaning is given by `HeaderMapKeys`, `HeaderMapLastWins` and `HeaderMapStep` |
| Dashboard.HeaderMapKeys | app.py:67-73 | a key is in the parsed headers exactly when some line sets it |
| Dashboard.HeaderMapLastWins | app.py:67-73 | a key's value comes from the last line that sets it |
| Dashboard.HeaderMapStep | app.py:70-73 | each line extends the dictionary built from the lines before it |
| Dashboard.ParseHeaders | app.py:66-76 | the loop builds the dictionary `ParsedHeaders` defines: the lines of the text, split at '\n', each read by `HeaderLine` in order |
| Dashboard.AddJob | app.py:44-94 | an invalid form returns its error and changes nothing. A valid one stores exactly one job with the stripped fields, the parsed headers and the payload (empty becomes `None`), then reports whether it was scheduled. Scheduled means the cron expression has five fields |
| Dashboard.Register | app.py:78-92 | creates the job under a fresh id and schedules it, with the bindings updated exactly as `schedule_job` does |
| Dashboard.ToggleJob | app.py:121-144 | an unknown id changes nothing. Otherwise `active` becomes the negation of the stored flag, a missing flag counting as True. A job that became active is scheduled; an inactive one is unbound |
| Dashboard.DeleteJob | app.py:102-119 | a known job is unbound and removed from the table; an unknown id changes nothing |
| Dashboard.Index | app.py:32-42 | every job appears in table order, marked running exactly when its id is bound |
| Dashboard.NameLookup | app.py:168 | definition of the id-to-name dictionary; its meaning is given by `NameLookupKeys` and `NameLookupLastWins` |
| Dashboard.NameLookupKeys | app.py:168 | an id is in the lookup exactly when some job has it |
| Dashboard.NameLookupLastWins | app.py:168 | the lookup gives the name of the last job with the id |
| Dashboard.JobName | app.py:168-172 | the name of the last job with the id, or 'Unknown Job' when no job has it |
| Dashboard.JobHistory | app.py:161-174 | at most 100 records, newest first, each with its job's name |
| Json.Truthy | earnings_cron.py:60 | definition of Python's `bool` on a JSON value: `None`, `False`, zero and empty containers are false; used by `ReportsSuccess` |
| Earnings.ReportsSuccess | earnings_cron.py:60 | definition: the parsed value is an object whose `success` is truthy; `Classify` states when it decides the run |
| Earnings.Classify | earnings_cron.py:42-81 | either marker gives False whatever the status, and so does any non-200 status. A 200 that parses as JSON gives True exactly when its `success` is truthy. A 200 that does not parse gives True exactly when the text is under 1000 characters and its lowercase contains "success" |
| Earnings.RunEarningsCron | earnings_cron.py:15-94 | only a 200 response without either marker can succeed. A timeout, a connection error or any other exception gives False |
| Earnings.MarkersTakePrecedence | earnings_cron.py:44-51 | a body with either marker at any offset fails the run, whatever its status and content |

## Left out

- File persistence: the JSON load/save of jobs and history (job_manager.py:19-61). It becomes the manager's two fields. Load failures returning `[]` and swallowed save errors are not modelled.
- APScheduler's background thread, worker pool, `max_instances`, `coalesce` and fire-time computation (scheduler.py:12-32). A binding is only the job id and its five fields, and `start`/`shutdown` are not modelled.
- Scheduling.CronScheduler.ScheduleJob: `CronTrigger`'s per-field validation (ranges, names, step syntax) is not modelled. The source rejects a five-field expression with a bad field after removing the old binding. The model binds such an expression and returns True.
- Scheduling.CronScheduler.GetRunningJobs: the order APScheduler lists jobs in (by next fire time) is not modelled; only which ids appear, each once.
- The elapsed-time measurement and `round` (scheduler.py:105, 142; job_manager.py:138) are not modelled, and records carry no duration.
- JobStore.JobManager.GetJobStats: the float fields `success_rate` and `average_execution_time` (job_manager.py:175-188) are not modelled; only the three counts.
- `uuid4` and `datetime.now()`: ids come from a counter shared by jobs and records, and time stamps are a parameter.
- Flask routing, templates, `flash` messages, redirects, `format_datetime`, `clear_history`'s route and `run_job_now`'s route (app.py:11-30, 146-159, 176-186). Logging and `print` everywhere. The handlers return what they would flash.
- Dashboard.AddJob: the handler's outer `except Exception` and the header loop's own `except` are not modelled. For text input, no step of the POST branch raises. The GET branch only renders a template.
- The startup loop in `__main__` that schedules every active job (app.py:188-201).
- Text.Upper and Text.Lower map ASCII letters only. Python's `upper()` also maps other letters; for example `"poſt".upper()` is `"POST"`, which the model would not send as a POST.
- Scheduling.Attempt: only a `RequestException` from the network and a decode error from `json.loads` are modelled as failures. Other unexpected errors inside `_execute_job` are not modelled, such as a stored `headers` value that is not a dictionary.
- The JSON value model has no NaN or infinity numbers; `json.loads` itself is a parameter.
- The earnings request (earnings_cron.py:20-40): its URL, headers and 60-second timeout are not modelled. The reply or the kind of exception is an input, and `main`'s exit code is not modelled.
- Challenge-page bypass: none of scheduler.py, app.py, job_manager.py or earnings_cron.py resolves the cookie or anti-bot pages. Only the marker detection at earnings_cron.py:44-51 exists in them, and it is modelled.
