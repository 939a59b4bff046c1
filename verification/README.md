# slurm-job-tracker in Dafny

This project models the core of `SlurmJobTracker` in Dafny 4.11. `SlurmJobTracker` is the object at the centre of
slurm-job-tracker. Each iteration of its tracking loop does four things:

- It polls `squeue` for the user's jobs.
- It reconciles the jobs it knows (`job_files`) with what the poll reports.
- It moves the jobs that disappeared into the history (`completed_jobs`).
- It submits queued tasks with `sbatch` while fewer than `max_jobs` jobs are running.

An HTTP server hands requests to `handle_command`, which queues submissions and reports state.

The model is functional. The tracker's state is an immutable `Tracker` value. Everything the program asks of the
machine becomes a parameter:

- the poll output: `Option<string>`, where `None` means `squeue` failed;
- the clock: `now` at the poll and `stamp` for the cycle;
- the output-file search: `JobId -> Option<string>`;
- the host: `Host`, which answers `os.path.exists` and `os.path.isfile` and says what `sbatch` prints.

The project is organised as one module per file:

- `wrappers.dfy`: `Option`; `Key` for a dictionary slot that may be missing, present and `None`, or present with a
  value; `Call`, which is a return value or a raised exception.
- `text.dfy`: the Python string operations the tracker uses. These are `strip()`, `split(sep)`, `split()`,
  `list.index` and `int()`.
- `elapsed.dfy`: `time_to_seconds`.
- `squeue.dfy`: `is_slurm_reason` and the parsing of `squeue` output in `get_current_jobs`.
- `sbatch.dfy`: the job id read from `sbatch` output with `Submitted batch job (\d+)`.
- `paths.dfy`: `os.path.split` and `os.path.join`.
- `jobs.dfy`: the entries of `job_files` and `completed_jobs`, and loading the current-jobs file.
- `cycle.dfy`: `find_job_file` and the reconciliation half of one `track_jobs` iteration.
- `admission.dfy`: `process_submission_queue`.
- `dispatch.dfy`: `submit_task`, `handle_command` and one whole `track_jobs` iteration.

Where the program can raise an exception that nothing catches on the inputs the model has, it is modelled twice:

- an `…AsWritten` member returns `Call` and raises exactly where the program does;
- the corrected member, which the rest of the model uses, takes the evident intended path.

Each `…AsWritten` member is proved equal to the corrected one whenever it does not raise, and to raise exactly on the
inputs the program raises on. The three cases are listed
under "## Findings".

Behaviour follows the code where the code and the prose documentation disagree:

- A two-field elapsed time such as `03:04` reads as hours and minutes, giving 11040. It does not read as minutes
  and seconds.
- Four or more colon fields give the value of the first field.
- `get_status` lists only the ids of `job_files`.
- There is no `get_info` command; such a request gets `Unknown command`.

## Model

| member | source | states |
|---|---|---|
| Text.Strip | slurm_job_tracker/tracker.py:109 | `strip()` removes a leading and a trailing run of whitespace and nothing else, and leaves a text that neither starts nor ends with whitespace |
| Text.StripAround | slurm_job_tracker/tracker.py:239 | whitespace around a text that has none at its edges is removed exactly |
| Text.Split | slurm_job_tracker/tracker.py:109 | `split(sep)` gives at least one piece, no piece holds the separator, and joining the pieces gives the text back |
| Text.SplitJoin | slurm_job_tracker/tracker.py:158 | splitting the join of separator-free pieces gives the pieces back |
| Text.SplitWs | slurm_job_tracker/tracker.py:115 | `split()` yields only non-empty whitespace-free tokens, none at all exactly when the text is all whitespace, the first starting at the first character when that is not whitespace |
| Text.SplitWsSpaces | slurm_job_tracker/tracker.py:122 | `split()` ignores leading whitespace |
| Text.SplitWsToken | slurm_job_tracker/tracker.py:122 | `split()` of a token, whitespace and a rest is the token followed by the `split()` of the rest |
| Text.SplitWsSpaced | slurm_job_tracker/tracker.py:115-122 | `split()` of fields separated by whitespace runs of any length, with any indentation and padding, gives the fields back |
| Text.IndexOf | slurm_job_tracker/tracker.py:116-118 | `list.index` finds the first position holding the name, and fails exactly when the name is absent |
| Text.ParseInt | slurm_job_tracker/tracker.py:153 | `int()` accepts exactly an optional sign and decimal digits inside whitespace, and rejects any text holding one of the information separators U+001C to U+001F; it never yields a negative number from text without a minus sign |
| Text.ParseIntInfoSeparator | slurm_job_tracker/tracker.py:153 | a leading U+001C, which `strip()` would remove, makes `int()` raise |
| Text.ParseIntAccepts | slurm_job_tracker/tracker.py:159 | `int()` accepts digits wrapped in whitespace and reads them in base ten |
| Text.ParseIntAcceptsSigned | slurm_job_tracker/tracker.py:159 | `int()` accepts one leading sign and negates for a minus |
| Text.ParseIntRejects | slurm_job_tracker/tracker.py:167-169 | text starting with neither a digit nor a sign is rejected, which raises `ValueError` |
| Elapsed.TimeToSeconds | slurm_job_tracker/tracker.py:147-169 | the elapsed time in seconds is never negative, whatever the text |
| Elapsed.ReadInts | slurm_job_tracker/tracker.py:159 | `map(int, parts)` succeeds with one value per field, and the values are non-negative when no field has a minus |
| Elapsed.ReadIntsNumbers | slurm_job_tracker/tracker.py:159 | all-digit fields are all read, each to its decimal value |
| Elapsed.TimeDaysHoursMinutesSeconds | slurm_job_tracker/tracker.py:150-160 | `D-H:M:S` is `D*86400 + H*3600 + M*60 + S` |
| Elapsed.TimeHoursMinutesSeconds | slurm_job_tracker/tracker.py:154-160 | `H:M:S` is `H*3600 + M*60 + S` |
| Elapsed.TimeTwoFields | slurm_job_tracker/tracker.py:161-163 | two fields are hours and minutes: `A:B` is `A*3600 + B*60` |
| Elapsed.TimeDaysTwoFields | slurm_job_tracker/tracker.py:150-163 | `D-A:B` is `D*86400 + A*3600 + B*60` |
| Elapsed.TimeSingleField | slurm_job_tracker/tracker.py:164-166 | a single field `N` is `N` seconds, and `D-N` is `D*86400 + N` |
| Elapsed.TimeManyFields | slurm_job_tracker/tracker.py:164-166 | four or more numeric fields give the first field's value |
| Elapsed.TimeExtraDash | slurm_job_tracker/tracker.py:150-169 | more than one `-` gives 0 |
| Elapsed.TimeBadDays | slurm_job_tracker/tracker.py:152-169 | an unreadable day count gives 0 |
| Elapsed.TimeBadField | slurm_job_tracker/tracker.py:158-169 | an unreadable clock field that is read gives 0 |
| Elapsed.TimeExamples | slurm_job_tracker/tracker.py:147-169 | `1-02:03:04` is 93784, `02:03:04` is 7384, `03:04` is 11040, `45` is 45 and `garbage` is 0 |
| Elapsed.TimeWord | slurm_job_tracker/tracker.py:164-169 | a lower-case word gives 0 |
| Squeue.IsReasonCharacterization | slurm_job_tracker/tracker.py:409-411 | every parenthesised text is a reason, and a non-empty reason is a parenthesised text |
| Squeue.IsReasonExamples | slurm_job_tracker/tracker.py:409-411 | `(Resources)`, the empty text and a missing value are reasons; `node03` and `(` are not |
| Squeue.LocateColumns | slurm_job_tracker/tracker.py:115-118 | the header is accepted exactly when it names `TIME`, `JOBID` and `NODELIST(REASON)`, and each index is that name's first position |
| Squeue.ObservedStart | slurm_job_tracker/tracker.py:130-133 | a start is recorded exactly when the elapsed time is positive, and it is the poll time minus the elapsed time |
| Squeue.ParseRow | slurm_job_tracker/tracker.py:121-137 | a job line gives no row exactly when it is too short for `JOBID` or has no `TIME` field; a row holds the `JOBID` field, the start the `TIME` field gives, and the `NODELIST(REASON)` field or an empty text |
| Squeue.ParseRowWithoutNodelist | slurm_job_tracker/tracker.py:126-127 | a line too short for `NODELIST(REASON)` still gives a row, with an empty nodelist |
| Squeue.ParseRows | slurm_job_tracker/tracker.py:121-137 | at most one row per line, every start plausible for the poll |
| Squeue.ParseRowsAll | slurm_job_tracker/tracker.py:121-139 | when every line gives a row, row `k` is the row of line `k`, one per line |
| Squeue.ParseRowsSkip | slurm_job_tracker/tracker.py:121-137 | a line too short for JOBID or TIME adds no row, wherever it stands among the job lines |
| Squeue.ParseRowsKeep | slurm_job_tracker/tracker.py:121-137 | a line that parses adds exactly its row, between the rows of the lines before and after it |
| Squeue.ParseRowsAppend | slurm_job_tracker/tracker.py:121-139 | the rows of two runs of lines are the rows of the first followed by those of the second, so rows keep their lines' order |
| Squeue.Sections | slurm_job_tracker/tracker.py:109-118 | the job lines are all the lines after the first of the stripped output |
| Squeue.ParseSqueue | slurm_job_tracker/tracker.py:104-145 | a failed poll, fewer than two lines or a missing column gives no jobs; every job reported has a plausible start |
| Squeue.ParseSqueueMissingColumn | slurm_job_tracker/tracker.py:115-145 | a header without one of the three column names gives no jobs |
| Squeue.ParseSqueueSingleLine | slurm_job_tracker/tracker.py:110-112 | output of one line gives no jobs |
| Squeue.ListingLines | slurm_job_tracker/tracker.py:109 | stripping a printed listing and splitting it at line breaks gives back its lines |
| Squeue.ListingSections | slurm_job_tracker/tracker.py:109-118 | a printed listing splits into its header's columns and its job lines; the header alone gives nothing |
| Squeue.LocateHeader | slurm_job_tracker/tracker.py:115-118 | a printed header line locates the columns it names |
| Squeue.ListingRows | slurm_job_tracker/tracker.py:104-139 | the rows of a printed listing with job lines are the rows its job lines give |
| Squeue.ParseFullRow | slurm_job_tracker/tracker.py:121-137 | a job line with a field under every heading, padded in any way, gives the row of its `JOBID`, `TIME` and `NODELIST(REASON)` fields |
| Squeue.ParseFullRows | slurm_job_tracker/tracker.py:121-139 | full job lines give their rows, one per line and in order |
| Squeue.ParseSqueueRoundTrip | slurm_job_tracker/tracker.py:104-139 | parsing a printed listing, whatever its indentation, column padding and surrounding blank text, gives back one row per job line, whatever the column order |
| Squeue.ParseRowAsWritten | slurm_job_tracker/tracker.py:122-123 | as written, a line too short for `JOBID` raises, and otherwise the result is the corrected row |
| Squeue.ParseRowsAsWritten | slurm_job_tracker/tracker.py:121-139 | as written, the parse raises exactly when some job line is too short |
| Squeue.AllFitTail | slurm_job_tracker/tracker.py:121-123 | every line is long enough exactly when the first one is and all the rest are |
| Squeue.ParseSqueueAsWritten | slurm_job_tracker/tracker.py:104-145 | as written, the parse raises exactly when a job line is too short; otherwise it equals the corrected parse |
| Squeue.ShortRowRaises | slurm_job_tracker/tracker.py:122-123 | a printed listing whose only job line has no field at the `JOBID` position raises as written; the corrected parse reports no jobs |
| Squeue.ShortRowExample | slurm_job_tracker/tracker.py:122-123 | the header `TIME JOBID NODELIST(REASON)` followed by the job line `42` raises as written; the corrected parse reports no jobs |
| Sbatch.FirstMatch | slurm_job_tracker/tracker.py:240 | the search returns the leftmost position where the prefix and a digit follow, and none before it matches |
| Sbatch.DigitRun | slurm_job_tracker/tracker.py:240 | greedy `\d+` takes the longest run of digits |
| Sbatch.SubmittedId | slurm_job_tracker/tracker.py:240-242 | no id exactly when the pattern matches nowhere; otherwise the id is the whole digit run after the leftmost match |
| Sbatch.ExtractJobId | slurm_job_tracker/tracker.py:239-242 | the same, on the stripped standard output |
| Sbatch.DigitRunOf | slurm_job_tracker/tracker.py:240 | a digit run followed by a non-digit is taken whole |
| Sbatch.SubmittedIdOf | slurm_job_tracker/tracker.py:240-242 | the id printed after the prefix is read back whole |
| Sbatch.ExtractJobIdOfLine | slurm_job_tracker/tracker.py:239-242 | the success line `Submitted batch job <id>` and a newline gives the id |
| Sbatch.NoIdWithoutDigits | slurm_job_tracker/tracker.py:240-251 | output without a digit gives no id |
| Paths.LastSlash | slurm_job_tracker/tracker.py:188 | the last slash's position, with none after it; none exactly when the text has no slash |
| Paths.TrimSlashes | slurm_job_tracker/tracker.py:188 | removes exactly the trailing run of slashes |
| Paths.PathSplit | slurm_job_tracker/tracker.py:188 | the tail is the slash-free text after the last slash; the head is the text before it less its trailing slashes, kept whole when it has only slashes, and non-empty and slash-free at its end otherwise |
| Paths.PathJoin | slurm_job_tracker/tracker.py:224 | joining ends with the name, and an absolute name replaces the directory |
| Paths.SplitJoinedPath | slurm_job_tracker/tracker.py:188 | joining a directory and a name gives `dir/name`, and splitting that gives the pair back |
| Jobs.LoadJobs | slurm_job_tracker/tracker.py:73-81 | one entry per stored job, each with a start key |
| Jobs.LoadSavedSnapshot | slurm_job_tracker/tracker.py:75-99 | a cycle's entry survives a save and a load unchanged |
| Jobs.LoadSavedJobs | slurm_job_tracker/tracker.py:73-99 | saving and loading a cycle's `job_files` gives it back |
| Cycle.Searched | slurm_job_tracker/tracker.py:179-192 | a file is found exactly when the search printed something other than whitespace, and it is the split of the stripped output |
| Cycle.FindJobFile | slurm_job_tracker/tracker.py:171-196 | a tracked id is answered from `job_files`, which stays as it was; otherwise every entry is kept, and the only entry added is the start-less cache entry of the found file, added exactly when one is found |
| Cycle.FindTrackedIgnoresSearch | slurm_job_tracker/tracker.py:173-174 | for a tracked id the result does not depend on the search |
| Cycle.Observe | slurm_job_tracker/tracker.py:300-362 | a reported job gets an entry with the sticky start and the polled nodelist; a tracked job keeps its directory; `job_files` changes only by caching a found file |
| Cycle.Ids | slurm_job_tracker/tracker.py:374 | exactly the ids of the rows |
| Cycle.LastRow | slurm_job_tracker/tracker.py:300-362 | a row reporting the id after which no row reports it: the one that decides that id's entry |
| Cycle.ObserveAll | slurm_job_tracker/tracker.py:300-362 | the new entries are exactly the reported ids; tracked entries stay; cached ones are start-less and reported |
| Cycle.ObserveAllStart | slurm_job_tracker/tracker.py:303-343 | every reported job's start is the tracked start if set, else the last polled one; its nodelist is the last polled one |
| Cycle.ObserveAllTracked | slurm_job_tracker/tracker.py:314-337 | a tracked job keeps its directory and file name |
| Cycle.LastRowEarlier | slurm_job_tracker/tracker.py:300 | for ids other than the last row's, the last row is found among the earlier rows |
| Cycle.Archive | slurm_job_tracker/tracker.py:382-389 | the history gains exactly the finished ids, each archived; other records are unchanged |
| Cycle.ArchiveAsWritten | slurm_job_tracker/tracker.py:382-389 | as written, archiving raises exactly when a finished entry has no start key, and otherwise equals the corrected archive |
| Cycle.Reconcile | slurm_job_tracker/tracker.py:292-399 | after a cycle the tracked ids are exactly the reported ones, the running count is their number, the history gains exactly the tracked ids that were not reported, and only reported untracked ids are announced |
| Cycle.FinishedIds | slurm_job_tracker/tracker.py:374-379 | the finished ids are the tracked ids not reported, and the new ids are reported ids not tracked |
| Cycle.ReconcileAsWritten | slurm_job_tracker/tracker.py:374-389 | as written, a cycle raises exactly when a tracked, unreported entry has no start key |
| Cycle.ObserveAllDistinct | slurm_job_tracker/tracker.py:300-362 | with distinct ids, each row's entry is the one its branch of the loop builds |
| Cycle.ObserveExpected | slurm_job_tracker/tracker.py:300-362 | one row's entry is built from the tracked entry, never from a newer cache |
| Cycle.SearchOnlyForNewRunning | slurm_job_tracker/tracker.py:345-362 | the loop consults the search only for new jobs not in a reason state |
| Cycle.ObserveSameSearch | slurm_job_tracker/tracker.py:345-362 | one row consults the search only when its job is untracked and not in a reason state |
| Cycle.ReconcileSearchOnlyForNewRunning | slurm_job_tracker/tracker.py:300-362 | the same, for the whole cycle |
| Cycle.StartIsSticky | slurm_job_tracker/tracker.py:305-308 | a job with a recorded start keeps it |
| Cycle.TrackedKeepsFile | slurm_job_tracker/tracker.py:314-337 | a tracked job keeps its directory and file name; a job first seen pending never gets them |
| Cycle.NewPendingHasNoFile | slurm_job_tracker/tracker.py:345-353 | a new job in a reason state is tracked with no directory and no file name |
| Cycle.SnapshotHasStarts | slurm_job_tracker/tracker.py:314-361 | every entry a cycle writes has a start key |
| Cycle.HistoryDisjoint | slurm_job_tracker/tracker.py:382-397 | history and tracked ids are disjoint after a cycle exactly when the poll reports no id already in the history |
| Cycle.EmptyPollArchivesAll | slurm_job_tracker/tracker.py:374-397 | a failed or empty poll archives every tracked job and leaves none tracked |
| Cycle.ProvisionalVanishes | slurm_job_tracker/tracker.py:384 | a provisional entry that the next poll does not report makes the cycle raise as written; the corrected cycle archives it with no start |
| Cycle.LoadedNeverRaise | slurm_job_tracker/tracker.py:75-81 | loaded entries never make the cycle raise |
| Cycle.FoundJobNotAnnounced | slurm_job_tracker/tracker.py:375-379 | a job whose file is found in the cycle that first reports it is not logged as new |
| Admission.Attempt | slurm_job_tracker/tracker.py:219-257 | a task launches exactly when its directory exists, its script is a file there, and the stripped `sbatch` output matches `Submitted batch job (\d+)`; the launch carries the matched id and the directory |
| Admission.AttemptLaunches | slurm_job_tracker/tracker.py:219-248 | a task with an existing directory and script, whose `sbatch` prints the success line, launches that job from its directory |
| Admission.AttemptAsWritten | slurm_job_tracker/tracker.py:217-225 | as written, a task raises exactly when it has no directory, or has an existing directory and no script name |
| Admission.Launches | slurm_job_tracker/tracker.py:241-248 | a run of tasks launches at most one job per task |
| Admission.Register | slurm_job_tracker/tracker.py:247-248 | registering keeps every key, adds only launched ids, and leaves entries no launch names unchanged |
| Admission.RegisterLaunched | slurm_job_tracker/tracker.py:247-248 | every launched id is tracked afterwards, and the last launch of an id leaves its provisional entry |
| Admission.Admit | slurm_job_tracker/tracker.py:203-264 | tasks are popped from the front; only launches count toward the cap; a pass that starts at or over the cap pops nothing; the count never passes the cap; tasks are left only when the cap is reached |
| Admission.AdmitLaunched | slurm_job_tracker/tracker.py:212-251 | the launches are those of the popped tasks, in order |
| Admission.AdmitRegisters | slurm_job_tracker/tracker.py:247-248 | each launch writes its provisional entry, in order |
| Admission.RegisterCons | slurm_job_tracker/tracker.py:247-248 | registering a launch and then the rest is registering all of them |
| Admission.AdmitUnderCap | slurm_job_tracker/tracker.py:212-217 | before the last popped task, the count plus the launches so far was still under the cap: no task is popped once the cap is reached |
| Admission.AdmitStopsAtCap | slurm_job_tracker/tracker.py:212-246 | when tasks are left, the last popped task launched |
| Admission.AdmitIgnoresLater | slurm_job_tracker/tracker.py:212-216 | a pass that leaves tasks never reaches tasks queued behind them |
| Admission.AdmitAllLaunch | slurm_job_tracker/tracker.py:212-246 | when every task launches, exactly `min(queued, free slots)` are submitted |
| Admission.AllLaunch | slurm_job_tracker/tracker.py:241-246 | tasks that all launch give one launch each |
| Admission.AdmitAsWritten | slurm_job_tracker/tracker.py:203-264 | as written, a pass that does not raise is the corrected pass |
| Admission.AdmitAsWrittenRaises | slurm_job_tracker/tracker.py:212-227 | as written, a pass raises exactly when a task the corrected pass pops has no directory, or has an existing directory and no script name |
| Admission.TaskWithoutDirectory | slurm_job_tracker/tracker.py:219 | a task without a working directory and a free slot raises as written; the corrected pass drops it |
| Dispatch.Enqueue | slurm_job_tracker/tracker.py:198-201 | `submit_task` appends the task behind the waiting ones and changes nothing else |
| Dispatch.Recognize | slurm_job_tracker/tracker.py:268-289 | each command is selected exactly by its name |
| Dispatch.Handle | slurm_job_tracker/tracker.py:266-290 | raises exactly without a `command` key or for a `submit_task` with `null` args; only `submit_task` changes the state, by queuing one task; `get_status` lists the tracked ids, `get_queue` the queue, and anything else is `Unknown command` |
| Dispatch.SubmitThenList | slurm_job_tracker/tracker.py:269-285 | a submission is listed by the next `get_queue`, after the tasks queued before it |
| Dispatch.UnknownLeavesState | slurm_job_tracker/tracker.py:289-290 | an unknown command leaves the state as it was |
| Dispatch.SubmitWithoutArgs | slurm_job_tracker/tracker.py:269-273 | a `submit_task` without `args` queues a task with no directory and the default script |
| Dispatch.Tick | slurm_job_tracker/tracker.py:292-400 | after an iteration the queue left is a suffix of the old one; every reported job is tracked; every launched job holds the provisional entry of its last launch; every other tracked job is a start-less launch of a popped task; tasks were popped only while the reported jobs and the launches so far left a slot, and tasks are left only once they did not; the history gains exactly the tracked jobs no longer reported |
| Dispatch.AdmitAfter | slurm_job_tracker/tracker.py:397-400 | admission after a cycle keeps every entry no launch names as the cycle wrote it, gives every launched job the provisional entry of its last launch, and adds only start-less launched entries |
| Dispatch.AdmitAfterWhileFree | slurm_job_tracker/tracker.py:212-217 | admission after a cycle pops a task only while the cycle's count plus the launches before it is under the cap, and leaves tasks only once the count has reached it |
| Dispatch.AdmitAfterReported | slurm_job_tracker/tracker.py:397-400 | when the cycle's entries are those of the reported jobs, they stay tracked and every other entry was launched |
| Dispatch.RegisterAddsProvisional | slurm_job_tracker/tracker.py:247-248 | every id registration adds has no start key |
| Dispatch.RegisterKeepsUntouched | slurm_job_tracker/tracker.py:247-248 | a start-less entry stays start-less through registration |
| Dispatch.FullClusterSubmitsNothing | slurm_job_tracker/tracker.py:399-400 | when the cycle counted at least `max_jobs` running jobs, admission submits nothing and leaves queue and `job_files` as the cycle wrote them |
| Dispatch.HistoryGrows | slurm_job_tracker/tracker.py:382-389 | nothing ever leaves the history, and records of untracked ids are unchanged |
| Dispatch.SubmissionWaitsItsTurn | slurm_job_tracker/tracker.py:198-216 | a task submitted while an iteration would leave tasks waiting does not change that iteration, and stays at the back |
| Dispatch.AdmitAfterIgnoresLater | slurm_job_tracker/tracker.py:212-216 | the same, for admission alone |
| Dispatch.TickAsWritten | slurm_job_tracker/tracker.py:292-400 | as written, an iteration that does not raise is the corrected iteration |
| Dispatch.TickAsWrittenRaises | slurm_job_tracker/tracker.py:292-400 | as written, an iteration raises exactly when the poll has a job line too short for JOBID, or a tracked job no longer reported never had a start, or a task the corrected admission pops has no directory or script name |

## Left out

- Process and system calls are oracle parameters. This covers running `squeue`, `find` and `sbatch`, and the
  `os.path.exists` and `os.path.isfile` checks. An `sbatch` that exits non-zero, or raises any other exception inside
  the `try` block, is a `None` output.
- The clock is passed in as parameters. `now` is one value for every row of a poll; the program reads
  `datetime.now()` once per row.
- Timestamps are integers, not formatted `datetime` strings, so `strftime` is not modelled.
- Squeue.ObservedStart: does not model the `OverflowError` that `datetime` raises for an absurdly long elapsed
  time. Dates are integers here.
- Text.ParseInt: does not model the limit of 4300 digits on decimal text that recent Python versions enforce with a
  `ValueError`; every digit run is read.
- Text.ParseInt: reads only ASCII digits. It does not model Python's acceptance of other Unicode decimal digits,
  or of `_` between digits.
- Sbatch.ExtractJobId: `\d` matches only ASCII digits here, not every Unicode decimal digit.
- Dispatch.Handle: `get_status` returns the ids as a set, so the order of the list the program returns is not
  modelled.
- Dispatch.Handle: a request that is not a JSON object (a list, a string, a number or `null`) is not modelled.
  The program raises `TypeError` on it at `command['command']` (tracker.py:269). A `command` value that is
  not a string is read as `Present(None)`. Like the program, the model answers it `Unknown command`, because
  it equals none of the three names.
- Dispatch.Handle: a request whose `args` is neither an object nor `null` is not modelled. Nor is a
  `working_dir` or `script_name` that is not a string.
- Some parts of the program are not modelled at all:
  - JSON reading and writing of the history and current-jobs files, beyond the key-by-key projection in
    `Jobs.LoadEntry` and `Jobs.SaveEntry`;
  - logging, including the running summary text;
  - the lock, the thread, the `sleep` between iterations, and the infinite loop itself (one iteration is
    `Dispatch.Tick`);
  - `load_history`, which just replaces the history with the file's contents.
- Dispatch.Tick and Dispatch.Handle are atomic steps here, but that is an assumption. Only `handle_command` takes
  the lock (tracker.py:268). `track_jobs` takes none, so a request can arrive while an iteration is running,
  for example a `submit_task` while the queue is being admitted.
- Failures of the outside world that raise are not modelled; the oracles answer `None` or a text. A missing
  `squeue` binary or an unset `USER` raises outside the caught exceptions of tracker.py:140-145, and
  undecodable `find` output raises `UnicodeDecodeError` at tracker.py:184-185, which the
  `except subprocess.CalledProcessError` at line 194 does not catch. Either ends the tracking thread.
  Undecodable `squeue` output is caught as a `ValueError` and is the poll `None`.
- `server.py`, `client.py`, `cli.py`, `main.py` and `config.py` are not part of this model. `max_jobs` is a
  parameter.
- `find_job_file`'s `directory` and `max_search_time` arguments are not modelled. The tracker never passes them,
  and they only shape the `find` command line that the search oracle stands for.
- `submit_task`'s default script name `submit.sh` is not modelled. `handle_command` always passes a script name.

## Findings

| source | as written | input that shows it | evidently intended | confidence | as-written member | corrected member |
|---|---|---|---|---|---|---|
| slurm_job_tracker/tracker.py:384 | a finished job's record reads `job_files[id]['start_time']`, but the provisional entry written after `sbatch` (lines 247-248) has no `start_time` key, so `KeyError` ends the tracking thread | a job is submitted and disappears from `squeue` before the next poll sees it, for example because it failed at once | archive it with no start, as `.get` would | not executed | Cycle.ReconcileAsWritten, Cycle.ProvisionalVanishes | Cycle.Reconcile |
| slurm_job_tracker/tracker.py:122-123 | `columns[job_id_index]` is read without a length check; the `IndexError` is not caught by the `ValueError` handler | header `TIME JOBID NODELIST(REASON)` followed by the job line `42`, which holds one field | skip the short line, as is done when `TIME` is missing | not executed | Squeue.ParseSqueueAsWritten, Squeue.ShortRowRaises, Squeue.ShortRowExample | Squeue.ParseSqueue |
| slurm_job_tracker/tracker.py:219 | `os.path.exists(None)` raises `TypeError` outside the `try` block when a task was queued without `working_dir`; so does `os.path.join` (line 224) with no script name | `submit_task` with `args` lacking `working_dir`, and a free job slot | drop the task with an error, as is done for a missing directory | not executed | Admission.AdmitAsWritten, Admission.TaskWithoutDirectory | Admission.Admit |
