/** The tracker object: `handle_command`, which the server calls for each
    request, and one iteration of the `track_jobs` loop, which polls `squeue`,
    reconciles `job_files` and then admits queued submissions. */
module Dispatch {
  import opened Wrappers
  import opened Squeue
  import opened Jobs
  import opened Cycle
  import opened Admission

  /** The tracker's state: `job_files`, `completed_jobs` and the submission
      queue, front first. */
  datatype Tracker = Tracker(files: JobFiles, completed: History, queue: seq<Task>)

  /** `submit_task`: the task joins the back of the queue, behind every task
      already waiting, and nothing else changes. */
  function Enqueue(t: Tracker, task: Task): (r: Tracker)
    ensures |r.queue| == |t.queue| + 1 && r.queue[..|t.queue|] == t.queue && r.queue[|t.queue|] == task
    ensures r.files == t.files && r.completed == t.completed
  {
    t.(queue := t.queue + [task])
  }

  // ---------------------------------------------------------------------------
  // Commands
  // ---------------------------------------------------------------------------

  /** The `args` object of a request; a key may be missing, or present and
      `null`. */
  datatype Args = Args(workingDir: Key<string>, scriptName: Key<string>)

  /** A decoded request: its `command` and `args` keys. */
  datatype Request = Request(command: Key<string>, args: Key<Args>)

  datatype Command = SubmitTask | GetStatus | GetQueue

  /** What `handle_command` returns: a bare status, the running-jobs listing,
      or the queue listing. */
  datatype Response =
    | Status(status: string)
    | RunningJobs(ids: set<JobId>)
    | Queued(status: string, tasks: seq<Task>)

  const SubmitTaskName := "submit_task"
  const GetStatusName := "get_status"
  const GetQueueName := "get_queue"

  const TaskAdded := "Task added to queue"
  const QueueRetrieved := "Queue retrieved"
  const UnknownCommand := "Unknown command"

  /** The script a submission names when its `args` carry no `script_name`. */
  const DefaultScript := "submit_gpaw_alec.sh"

  /** The command a name selects; any other name, `null` included, selects none. */
  function Recognize(name: Option<string>): (c: Option<Command>)
    ensures c == Some(SubmitTask) <==> name == Some(SubmitTaskName)
    ensures c == Some(GetStatus) <==> name == Some(GetStatusName)
    ensures c == Some(GetQueue) <==> name == Some(GetQueueName)
  {
    if name == Some(SubmitTaskName) then Some(SubmitTask)
    else if name == Some(GetStatusName) then Some(GetStatus)
    else if name == Some(GetQueueName) then Some(GetQueue)
    else None
  }

  /** The task a `submit_task` request queues: `args` defaults to `{}`, the
      directory is read with `.get` and the script with `.get` and a default.
      `None` when `args` is `null`, which has no `.get`. */
  function SubmittedTask(args: Key<Args>): (r: Option<Task>)
    ensures r.None? <==> args == Present(None)
    ensures r.Some? && args.Absent? ==> r.value == Task(None, Some(DefaultScript))
    ensures r.Some? && args.Present? ==> r.value.workingDir == args.held.value.workingDir.Get()
    ensures r.Some? && args.Present? && args.held.value.scriptName.Absent? ==>
              r.value.scriptName == Some(DefaultScript)
    ensures r.Some? && args.Present? && args.held.value.scriptName.Present? ==>
              r.value.scriptName == args.held.value.scriptName.held
  {
    match args
    case Absent => Some(Task(None, Some(DefaultScript)))
    case Present(None) => None
    case Present(Some(a)) =>
      var script := match a.scriptName case Absent => Some(DefaultScript) case Present(v) => v;
      Some(Task(a.workingDir.Get(), script))
  }

  /** `handle_command`.  A request without a `command` key raises `KeyError`,
      and a `submit_task` whose `args` is `null` raises `AttributeError`.
      Otherwise only `submit_task` changes the state, by appending one task to
      the queue; `job_files` and the history are never touched. */
  function Handle(t: Tracker, req: Request): (r: Call<(Tracker, Response)>)
    ensures r.Raised? <==> req.command.Absent?
                           || (req.command == Present(Some(SubmitTaskName)) && req.args == Present(None))
    ensures r.Returned? ==> r.value.0.files == t.files && r.value.0.completed == t.completed
    ensures r.Returned? && req.command != Present(Some(SubmitTaskName)) ==> r.value.0 == t
    ensures r.Returned? && req.command == Present(Some(SubmitTaskName)) ==>
              SubmittedTask(req.args).Some?
              && r.value == (Enqueue(t, SubmittedTask(req.args).value), Status(TaskAdded))
    ensures r.Returned? && req.command == Present(Some(GetStatusName)) ==> r.value.1 == RunningJobs(t.files.Keys)
    ensures r.Returned? && req.command == Present(Some(GetQueueName)) ==> r.value.1 == Queued(QueueRetrieved, t.queue)
    ensures r.Returned? && Recognize(req.command.Get()).None? ==> r.value.1 == Status(UnknownCommand)
  {
    match req.command
    case Absent => Raised("KeyError")
    case Present(name) =>
      match Recognize(name)
      case None => Returned((t, Status(UnknownCommand)))
      case Some(SubmitTask) =>
        (match SubmittedTask(req.args)
         case None => Raised("AttributeError")
         case Some(task) => Returned((Enqueue(t, task), Status(TaskAdded))))
      case Some(GetStatus) => Returned((t, RunningJobs(t.files.Keys)))
      case Some(GetQueue) => Returned((t, Queued(QueueRetrieved, t.queue)))
  }

  /** A submission is listed by the next `get_queue`, after every task queued
      before it. */
  lemma SubmitThenList(t: Tracker, args: Args)
    ensures var submitted := Handle(t, Request(Present(Some(SubmitTaskName)), Present(Some(args))));
            submitted.Returned?
            && var listed := Handle(submitted.value.0, Request(Present(Some(GetQueueName)), Absent));
               listed.Returned?
               && listed.value.1 == Queued(QueueRetrieved, t.queue + [Task(args.workingDir.Get(),
                                             if args.scriptName.Absent? then Some(DefaultScript)
                                             else args.scriptName.held)])
  {
  }

  /** A request naming no known command leaves the state as it was and says so. */
  lemma UnknownLeavesState(t: Tracker, name: Option<string>, args: Key<Args>)
    requires Recognize(name).None?
    ensures Handle(t, Request(Present(name), args)) == Returned((t, Status(UnknownCommand)))
  {
  }

  /** A `submit_task` without `args` queues a task with no directory and the
      default script. */
  lemma SubmitWithoutArgs(t: Tracker)
    ensures Handle(t, Request(Present(Some(SubmitTaskName)), Absent))
            == Returned((Enqueue(t, Task(None, Some(DefaultScript))), Status(TaskAdded)))
  {
  }

  // ---------------------------------------------------------------------------
  // One iteration of the tracking loop
  // ---------------------------------------------------------------------------

  /** The world one iteration sees: the output of the `squeue` poll (`None` when
      it fails), the clock at the poll and at the cycle's timestamp, the output
      file search, and the host that runs `sbatch`. */
  datatype World = World(poll: Option<string>, now: Time, stamp: Time, search: Search, host: Host)

  /** One iteration of `track_jobs`: the polled rows reconcile `job_files` and
      the history, and then the queue is admitted against the number of jobs
      the poll reported.  The queue left is a suffix of the old one, every
      reported job is tracked, every other tracked job is one the tasks popped
      in this iteration launched, each launched job carries the provisional
      entry of its last launch, and the history gains exactly the tracked jobs
      the poll no longer reports. */
  function Tick(t: Tracker, w: World, maxJobs: int): (r: Tracker)
    ensures |r.queue| <= |t.queue| && r.queue == t.queue[|t.queue| - |r.queue|..]
    ensures Ids(ParseSqueue(w.poll, w.now)) <= r.files.Keys
    ensures LaunchesTracked(Popped(t.queue, |r.queue|, w.host), r.files)
    ensures AddedByLaunch(Popped(t.queue, |r.queue|, w.host), Ids(ParseSqueue(w.poll, w.now)), r.files)
    ensures PoppedWhileFree(t.queue, |r.queue|, |Ids(ParseSqueue(w.poll, w.now))|, maxJobs, w.host)
    ensures r.completed.Keys == t.completed.Keys + (t.files.Keys - Ids(ParseSqueue(w.poll, w.now)))
  {
    var rows := ParseSqueue(w.poll, w.now);
    var o := Reconcile(t.files, t.completed, rows, w.stamp, w.search);
    AdmitAfterReported(o, t.queue, maxJobs, w.host, Ids(rows));
    AdmitAfterWhileFree(o, t.queue, maxJobs, w.host);
    AdmitAfter(o, t.queue, maxJobs, w.host)
  }

  /** The second half of an iteration: the queue is admitted against the
      cycle's running count, and the tasks popped leave the queue.  Every job
      the popped tasks launched is tracked with the provisional entry of its
      last launch, every entry no launch names stays as the cycle wrote it, and
      every entry added is a launched, provisional one. */
  function AdmitAfter(o: Outcome, queue: seq<Task>, maxJobs: int, host: Host): (r: Tracker)
    ensures |r.queue| <= |queue| && r.queue == queue[|queue| - |r.queue|..]
    ensures o.files.Keys <= r.files.Keys && r.completed == o.completed
    ensures LaunchesTracked(Popped(queue, |r.queue|, host), r.files)
    ensures forall id :: id in o.files && NotLaunched(Popped(queue, |r.queue|, host), id) ==>
              r.files[id] == o.files[id]
    ensures AddedByLaunch(Popped(queue, |r.queue|, host), o.files.Keys, r.files)
  {
    var a := Admit(queue, 0, o.running, maxJobs, o.files, Submitter(host));
    AdmitLaunched(queue, 0, o.running, maxJobs, o.files, Submitter(host));
    AdmitRegisters(queue, 0, o.running, maxJobs, o.files, Submitter(host));
    RegisterAddsProvisional(o.files, a.launched);
    RegisterLaunched(o.files, a.launched);
    var r := Tracker(a.files, o.completed, queue[a.popped..]);
    assert |queue| - |r.queue| == a.popped;
    r
  }

  /** The jobs launched by the tasks popped from the front of `queue` when
      `left` tasks remain. */
  function Popped(queue: seq<Task>, left: nat, host: Host): (ls: seq<Launch>)
    requires left <= |queue|
    ensures |ls| <= |queue| - left
  {
    Launches(queue, 0, |queue| - left, Submitter(host))
  }

  /** The tasks popped from the front of `queue`, `left` being left, were popped
      while slots were free: before the last of them fewer than `maxJobs` jobs
      ran, and tasks are left only once the launches filled the free slots. */
  predicate PoppedWhileFree(queue: seq<Task>, left: nat, running: int, maxJobs: int, host: Host)
    requires left <= |queue|
  {
    (left < |queue| ==> running + |Popped(queue, left + 1, host)| < maxJobs)
    && (left > 0 ==> running + |Popped(queue, left, host)| >= maxJobs)
  }

  /** Admission after a cycle pops tasks only while slots are free, and leaves
      tasks only once none is. */
  lemma AdmitAfterWhileFree(o: Outcome, queue: seq<Task>, maxJobs: int, host: Host)
    ensures PoppedWhileFree(queue, |AdmitAfter(o, queue, maxJobs, host).queue|, o.running, maxJobs, host)
  {
    AdmitAfterIs(o, queue, maxJobs, host);
    AdmitWhileFree(queue, o.running, maxJobs, o.files, host);
  }

  lemma AdmitWhileFree(queue: seq<Task>, running: int, maxJobs: int, files: JobFiles, host: Host)
    ensures var a := Admit(queue, 0, running, maxJobs, files, Submitter(host));
            PoppedWhileFree(queue, |queue| - a.popped, running, maxJobs, host)
  {
    var a := Admit(queue, 0, running, maxJobs, files, Submitter(host));
    AdmitLaunched(queue, 0, running, maxJobs, files, Submitter(host));
    AdmitUnderCap(queue, 0, running, maxJobs, files, Submitter(host));
    assert |queue| - (|queue| - a.popped) == a.popped;
  }

  /** Every launched job is tracked, with the provisional entry of its last launch. */
  predicate LaunchesTracked(ls: seq<Launch>, files: JobFiles) {
    forall k :: 0 <= k < |ls| ==>
      ls[k].id in files && (LastLaunch(ls, k) ==> files[ls[k].id] == Provisional(ls[k].id, ls[k].workingDir))
  }

  /** No launch names `id`. */
  predicate NotLaunched(ls: seq<Launch>, id: JobId) {
    forall k :: 0 <= k < |ls| ==> ls[k].id != id
  }

  /** Every entry outside `before` was launched and has no start yet. */
  predicate AddedByLaunch(ls: seq<Launch>, before: set<JobId>, files: JobFiles) {
    forall id :: id in files && id !in before ==>
      files[id].start == Absent && exists k :: 0 <= k < |ls| && ls[k].id == id
  }

  /** Admission after a cycle whose entries are those of the reported jobs:
      the reported jobs stay tracked and every other entry was launched. */
  lemma AdmitAfterReported(o: Outcome, queue: seq<Task>, maxJobs: int, host: Host, reported: set<JobId>)
    requires o.files.Keys == reported
    ensures var r := AdmitAfter(o, queue, maxJobs, host);
            reported <= r.files.Keys && AddedByLaunch(Popped(queue, |r.queue|, host), reported, r.files)
  {
  }

  /** Every id `Register` adds carries a provisional entry, without a start. */
  lemma {:induction false} RegisterAddsProvisional(files: JobFiles, launches: seq<Launch>)
    ensures var r := Register(files, launches);
            forall id :: id in r && id !in files ==> r[id].start == Absent
    decreases |launches|
  {
    if |launches| > 0 {
      var l := launches[0];
      var files' := files[l.id := Provisional(l.id, l.workingDir)];
      RegisterAddsProvisional(files', launches[1..]);
      var r := Register(files', launches[1..]);
      assert r == Register(files, launches);
      forall id | id in r && id !in files ensures r[id].start == Absent {
        if id !in files' {
        } else {
          assert id == l.id;
          RegisterKeepsUntouched(files', launches[1..], id);
        }
      }
    }
  }

  /** An entry `Register` does not launch over keeps its value; an entry
      launched over is provisional. */
  lemma {:induction false} RegisterKeepsUntouched(files: JobFiles, launches: seq<Launch>, id: JobId)
    requires id in files && files[id].start == Absent
    ensures Register(files, launches)[id].start == Absent
    decreases |launches|
  {
    if |launches| > 0 {
      var l := launches[0];
      RegisterKeepsUntouched(files[l.id := Provisional(l.id, l.workingDir)], launches[1..], id);
    }
  }

  /** With every slot taken by the jobs a cycle counted (`Reconcile` counts the
      reported jobs), admission submits nothing: the queue and the reconciled
      `job_files` stand. */
  lemma FullClusterSubmitsNothing(o: Outcome, queue: seq<Task>, maxJobs: int, host: Host)
    requires o.running >= maxJobs
    ensures AdmitAfter(o, queue, maxJobs, host) == Tracker(o.files, o.completed, queue)
  {
    AdmitRegisters(queue, 0, o.running, maxJobs, o.files, Submitter(host));
  }

  /** Nothing leaves the history: every job completed before an iteration is
      still there after it, with the same record unless it was tracked again
      and has finished once more. */
  lemma HistoryGrows(t: Tracker, w: World, maxJobs: int)
    ensures var r := Tick(t, w, maxJobs);
            t.completed.Keys <= r.completed.Keys
            && forall id :: id in t.completed && id !in t.files ==> r.completed[id] == t.completed[id]
  {
  }

  /** A task submitted while an iteration would leave tasks waiting waits its
      turn: the iteration runs as before and the task stays at the back. */
  lemma SubmissionWaitsItsTurn(t: Tracker, task: Task, w: World, maxJobs: int)
    requires Tick(t, w, maxJobs).queue != []
    ensures Tick(Enqueue(t, task), w, maxJobs) == Enqueue(Tick(t, w, maxJobs), task)
  {
    var o := Reconcile(t.files, t.completed, ParseSqueue(w.poll, w.now), w.stamp, w.search);
    assert Tick(Enqueue(t, task), w, maxJobs) == AdmitAfter(o, t.queue + [task], maxJobs, w.host);
    AdmitAfterIgnoresLater(o, t.queue, task, maxJobs, w.host);
  }

  lemma AdmitAfterIgnoresLater(o: Outcome, queue: seq<Task>, task: Task, maxJobs: int, host: Host)
    requires AdmitAfter(o, queue, maxJobs, host).queue != []
    ensures AdmitAfter(o, queue + [task], maxJobs, host).queue == AdmitAfter(o, queue, maxJobs, host).queue + [task]
    ensures AdmitAfter(o, queue + [task], maxJobs, host).files == AdmitAfter(o, queue, maxJobs, host).files
    ensures AdmitAfter(o, queue + [task], maxJobs, host).completed == o.completed
  {
    var a := Admit(queue, 0, o.running, maxJobs, o.files, Submitter(host));
    AdmitIgnoresLater(queue, [task], 0, o.running, maxJobs, o.files, Submitter(host));
    assert (queue + [task])[a.popped..] == queue[a.popped..] + [task];
  }

  lemma AdmitAfterIs(o: Outcome, queue: seq<Task>, maxJobs: int, host: Host)
    ensures var a := Admit(queue, 0, o.running, maxJobs, o.files, Submitter(host));
            AdmitAfter(o, queue, maxJobs, host) == Tracker(a.files, o.completed, queue[a.popped..])
  {
  }

  /** One iteration as written: a short `squeue` row, archiving an entry that
      never had a start, and a task without a directory or script each raise;
      when it returns, it agrees with the corrected iteration. */
  function TickAsWritten(t: Tracker, w: World, maxJobs: int): (r: Call<Tracker>)
    ensures r.Returned? ==> r.value == Tick(t, w, maxJobs)
  {
    match ParseSqueueAsWritten(w.poll, w.now)
    case Raised(e) => Raised(e)
    case Returned(rows) =>
      match ReconcileAsWritten(t.files, t.completed, rows, w.stamp, w.search)
      case Raised(e) => Raised(e)
      case Returned(o) =>
        match AdmitAsWritten(t.queue, 0, o.running, maxJobs, o.files, w.host)
        case Raised(e) => Raised(e)
        case Returned(a) => Returned(Tracker(a.files, o.completed, t.queue[a.popped..]))
  }

  /** The iteration as written raises exactly when one of its three stages
      would, each stage judged on what the corrected stages before it give:
      a short job line in the poll, a tracked job that is no longer reported
      and never had a start, or a popped task without a directory or script. */
  lemma TickAsWrittenRaises(t: Tracker, w: World, maxJobs: int)
    ensures var rows := ParseSqueue(w.poll, w.now);
            var o := Reconcile(t.files, t.completed, rows, w.stamp, w.search);
            TickAsWritten(t, w, maxJobs).Raised? <==>
              (w.poll.Some? && HasShortLine(w.poll.value))
              || (exists id :: id in t.files && id !in Ids(rows) && t.files[id].start.Absent?)
              || SomeTaskRaises(t.queue, 0, Admit(t.queue, 0, o.running, maxJobs, o.files, Submitter(w.host)).popped, w.host)
  {
    var rows := ParseSqueue(w.poll, w.now);
    var o := Reconcile(t.files, t.completed, rows, w.stamp, w.search);
    TickRaisesByStage(t, w, maxJobs);
    AdmitAsWrittenRaises(t.queue, 0, o.running, maxJobs, o.files, w.host);
  }

  /** An iteration as written raises exactly when one of its stages does, each
      run on what the corrected stages before it give. */
  lemma TickRaisesByStage(t: Tracker, w: World, maxJobs: int)
    ensures var rows := ParseSqueue(w.poll, w.now);
            var o := Reconcile(t.files, t.completed, rows, w.stamp, w.search);
            TickAsWritten(t, w, maxJobs).Raised? <==>
              ParseSqueueAsWritten(w.poll, w.now).Raised?
              || ReconcileAsWritten(t.files, t.completed, rows, w.stamp, w.search).Raised?
              || AdmitAsWritten(t.queue, 0, o.running, maxJobs, o.files, w.host).Raised?
  {
  }
}
