/** `process_submission_queue`: queued submissions are popped in FIFO order and
    handed to `sbatch` while fewer than `max_jobs` jobs run.  The file system
    checks and `sbatch` itself are the parameter `host`. */
module Admission {
  import opened Wrappers
  import opened Text
  import opened Squeue
  import opened Sbatch
  import opened Paths
  import opened Jobs

  /** A queued submission `(working_dir, script_name)`; either may be `None`
      when the command that queued it carried no value. */
  datatype Task = Task(workingDir: Option<string>, scriptName: Option<string>)

  /** What the program asks of the machine: whether a path exists (`os.path.exists`),
      whether a file exists (`os.path.isfile`), and what `sbatch <script>` run in
      a directory prints on standard output (`None` when it fails). */
  datatype Host = Host(pathExists: string -> bool, isFile: string -> bool,
                       sbatch: (string, string) -> Option<string>)

  /** A job `sbatch` accepted: its id and the directory it was submitted from. */
  datatype Launch = Launch(id: JobId, workingDir: string)

  /** Submitting one task: it is dropped when its directory or script is missing,
      when `sbatch` fails, or when its output names no job; otherwise it launches
      the job its output names, from its directory.
      A task without a directory or script name is dropped too (see
      `AttemptAsWritten` for what the program does). */
  function Attempt(task: Task, host: Host): (r: Option<Launch>)
    ensures r.Some? ==> task.workingDir == Some(r.value.workingDir) && task.scriptName.Some?
    ensures r.Some? ==> host.pathExists(r.value.workingDir)
                        && host.isFile(PathJoin(r.value.workingDir, task.scriptName.value))
    ensures r.Some? ==> host.sbatch(r.value.workingDir, task.scriptName.value).Some?
                        && ExtractJobId(host.sbatch(r.value.workingDir, task.scriptName.value).value)
                           == Some(r.value.id)
    ensures task.workingDir.Some? && task.scriptName.Some?
            && host.pathExists(task.workingDir.value)
            && host.isFile(PathJoin(task.workingDir.value, task.scriptName.value))
            && host.sbatch(task.workingDir.value, task.scriptName.value).Some?
            && ExtractJobId(host.sbatch(task.workingDir.value, task.scriptName.value).value).Some?
            ==> r == Some(Launch(ExtractJobId(host.sbatch(task.workingDir.value, task.scriptName.value).value).value,
                                 task.workingDir.value))
  {
    if task.workingDir.None? || task.scriptName.None? then None
    else
      var dir := task.workingDir.value;
      var script := task.scriptName.value;
      if !host.pathExists(dir) || !host.isFile(PathJoin(dir, script)) then None
      else
        match host.sbatch(dir, script)
        case None => None
        case Some(out) =>
          match ExtractJobId(out)
          case None => None
          case Some(id) => Some(Launch(id, dir))
  }

  /** A task whose directory and script exist, and whose `sbatch` prints the
      usual success line, launches the printed job from its directory. */
  lemma AttemptLaunches(dir: string, script: string, id: JobId, host: Host)
    requires host.pathExists(dir) && host.isFile(PathJoin(dir, script))
    requires host.sbatch(dir, script) == Some(SubmitPrefix + id + "\n")
    requires |id| > 0 && AllDigits(id)
    ensures Attempt(Task(Some(dir), Some(script)), host) == Some(Launch(id, dir))
  {
    ExtractJobIdOfLine(id);
  }

  /** One task as written: `os.path.exists(None)` and `os.path.join(dir, None)`
      raise `TypeError` outside the `try` block, so a task without a directory,
      or without a script name in an existing directory, ends the loop. */
  function AttemptAsWritten(task: Task, host: Host): (r: Call<Option<Launch>>)
    ensures r.Raised? <==> task.workingDir.None?
                           || (host.pathExists(task.workingDir.value) && task.scriptName.None?)
    ensures r.Returned? ==> r.value == Attempt(task, host)
  {
    match task.workingDir
    case None => Raised("TypeError")
    case Some(dir) =>
      if !host.pathExists(dir) then Returned(None)
      else if task.scriptName.None? then Raised("TypeError")
      else Returned(Attempt(task, host))
  }

  /** `Attempt` against a fixed host, as a function of the task alone: the
      pass over the queue is stated for any such submitter. */
  function Submitter(host: Host): (submit: Task -> Option<Launch>)
    ensures forall task :: submit(task) == Attempt(task, host)
  {
    task => Attempt(task, host)
  }

  /** The launches of the tasks `tasks[lo..hi]`, in order. */
  function Launches(tasks: seq<Task>, lo: nat, hi: nat, submit: Task -> Option<Launch>): (r: seq<Launch>)
    requires lo <= hi <= |tasks|
    ensures |r| <= hi - lo
    decreases hi - lo
  {
    if lo == hi then []
    else
      var first := match submit(tasks[lo]) case None => [] case Some(l) => [l];
      first + Launches(tasks, lo + 1, hi, submit)
  }

  /** `job_files` after the provisional entries of `launches` are written, in order. */
  function Register(files: JobFiles, launches: seq<Launch>): (r: JobFiles)
    ensures forall id :: id in files ==> id in r
    ensures forall id :: id in r && id !in files ==> exists k :: 0 <= k < |launches| && launches[k].id == id
    ensures forall id :: id in files && (forall k :: 0 <= k < |launches| ==> launches[k].id != id) ==>
              r[id] == files[id]
    decreases |launches|
  {
    if |launches| == 0 then files
    else
      var l := launches[0];
      var r := Register(files[l.id := Provisional(l.id, l.workingDir)], launches[1..]);
      assert forall k :: 1 <= k < |launches| ==> launches[k] == launches[1..][k - 1];
      r
  }

  /** Every launched id is tracked afterwards, and the last launch of an id
      leaves its provisional entry: its working directory, no start yet. */
  lemma {:induction false} RegisterLaunched(files: JobFiles, launches: seq<Launch>)
    ensures forall k :: 0 <= k < |launches| ==> launches[k].id in Register(files, launches)
    ensures forall k :: 0 <= k < |launches| && LastLaunch(launches, k) ==>
              Register(files, launches)[launches[k].id] == Provisional(launches[k].id, launches[k].workingDir)
    decreases |launches|
  {
    if |launches| > 0 {
      var l := launches[0];
      var files' := files[l.id := Provisional(l.id, l.workingDir)];
      var tail := launches[1..];
      RegisterLaunched(files', tail);
      assert Register(files, launches) == Register(files', tail);
      forall k | 0 <= k < |launches|
        ensures launches[k].id in Register(files, launches)
        ensures LastLaunch(launches, k) ==>
                  Register(files, launches)[launches[k].id] == Provisional(launches[k].id, launches[k].workingDir)
      {
        if k == 0 {
          if LastLaunch(launches, 0) {
            assert forall j :: 0 <= j < |tail| ==> tail[j].id != l.id by {
              forall j | 0 <= j < |tail| ensures tail[j].id != l.id {
                assert tail[j] == launches[j + 1];
              }
            }
          }
        } else {
          assert launches[k] == tail[k - 1];
          if LastLaunch(launches, k) {
            assert LastLaunch(tail, k - 1) by {
              forall j | k - 1 < j < |tail| ensures tail[j].id != tail[k - 1].id {
                assert tail[j] == launches[j + 1];
              }
            }
          }
        }
      }
    }
  }

  /** No launch after position `k` has the same job id: `launches[k]` is the one
      whose entry survives. */
  predicate LastLaunch(launches: seq<Launch>, k: nat)
    requires k < |launches|
  {
    forall j :: k < j < |launches| ==> launches[j].id != launches[k].id
  }

  /** The state after a pass over the queue: how many tasks were popped from its
      front, `job_files`, the running count, and the jobs launched. */
  datatype Admission = Admission(popped: nat, files: JobFiles, running: int, launched: seq<Launch>)

  /** `process_submission_queue(running)` from the task at index `next` on:
      tasks are popped from the front while fewer than `maxJobs` jobs run, and
      only a launch adds to the running count.  Popping stops once the count
      reaches the cap, and never before: tasks are left only when it did.  The
      program returns the number of tasks left, `|queue| - r.popped`.  `submit`
      is `Submitter(host)`. */
  function Admit(queue: seq<Task>, next: nat, running: int, maxJobs: int, files: JobFiles,
                 submit: Task -> Option<Launch>): (r: Admission)
    requires next <= |queue|
    ensures next <= r.popped <= |queue|
    ensures r.running == running + |r.launched| && |r.launched| <= r.popped - next
    ensures running >= maxJobs ==> r.popped == next && r.launched == []
    ensures running < maxJobs ==> r.running <= maxJobs
    ensures r.popped < |queue| ==> r.running >= maxJobs
    decreases |queue| - next
  {
    if next == |queue| || running >= maxJobs then Admission(next, files, running, [])
    else
      match submit(queue[next])
      case None => Admit(queue, next + 1, running, maxJobs, files, submit)
      case Some(l) =>
        var r := Admit(queue, next + 1, running + 1, maxJobs, files[l.id := Provisional(l.id, l.workingDir)], submit);
        Admission(r.popped, r.files, r.running, [l] + r.launched)
  }

  /** The launches of a pass are those of the tasks it popped, in order. */
  lemma {:induction false} AdmitLaunched(queue: seq<Task>, next: nat, running: int, maxJobs: int,
                                         files: JobFiles, submit: Task -> Option<Launch>)
    requires next <= |queue|
    ensures var r := Admit(queue, next, running, maxJobs, files, submit);
            r.launched == Launches(queue, next, r.popped, submit)
    decreases |queue| - next
  {
    if next < |queue| && running < maxJobs {
      match submit(queue[next])
      case None =>
        AdmitLaunched(queue, next + 1, running, maxJobs, files, submit);
      case Some(l) =>
        AdmitLaunched(queue, next + 1, running + 1, maxJobs, files[l.id := Provisional(l.id, l.workingDir)], submit);
    }
  }

  /** Each launch of a pass writes its provisional entry into `job_files`, in
      launch order. */
  lemma {:induction false} AdmitRegisters(queue: seq<Task>, next: nat, running: int, maxJobs: int,
                                          files: JobFiles, submit: Task -> Option<Launch>)
    requires next <= |queue|
    ensures var r := Admit(queue, next, running, maxJobs, files, submit);
            r.files == Register(files, r.launched)
    decreases |queue| - next
  {
    if next < |queue| && running < maxJobs {
      match submit(queue[next])
      case None =>
        AdmitRegisters(queue, next + 1, running, maxJobs, files, submit);
      case Some(l) =>
        var files' := files[l.id := Provisional(l.id, l.workingDir)];
        var s := Admit(queue, next + 1, running + 1, maxJobs, files', submit);
        AdmitRegisters(queue, next + 1, running + 1, maxJobs, files', submit);
        RegisterCons(files, l, s.launched);
    }
  }

  lemma RegisterCons(files: JobFiles, l: Launch, launches: seq<Launch>)
    ensures Register(files, [l] + launches)
            == Register(files[l.id := Provisional(l.id, l.workingDir)], launches)
  {
    assert ([l] + launches)[1..] == launches;
  }

  /** Popping stops as soon as the cap is reached: when tasks are left and some
      were popped, the last popped task launched. */
  lemma {:induction false} AdmitStopsAtCap(queue: seq<Task>, next: nat, running: int, maxJobs: int,
                                           files: JobFiles, submit: Task -> Option<Launch>)
    requires next <= |queue|
    ensures var r := Admit(queue, next, running, maxJobs, files, submit);
            next < r.popped < |queue| ==> submit(queue[r.popped - 1]).Some?
    decreases |queue| - next
  {
    if next < |queue| && running < maxJobs {
      match submit(queue[next])
      case None =>
        AdmitStopsAtCap(queue, next + 1, running, maxJobs, files, submit);
      case Some(l) =>
        AdmitStopsAtCap(queue, next + 1, running + 1, maxJobs, files[l.id := Provisional(l.id, l.workingDir)], submit);
    }
  }

  /** Popping stops as soon as the count reaches the cap: before each task the
      pass pops, fewer than `maxJobs` jobs ran, so no task is popped once the
      launches so far fill the free slots. */
  lemma {:induction false} AdmitUnderCap(queue: seq<Task>, next: nat, running: int, maxJobs: int,
                                         files: JobFiles, submit: Task -> Option<Launch>)
    requires next <= |queue|
    ensures var r := Admit(queue, next, running, maxJobs, files, submit);
            r.popped > next ==> running + |Launches(queue, next, r.popped - 1, submit)| < maxJobs
    decreases |queue| - next
  {
    if next < |queue| && running < maxJobs {
      var r := Admit(queue, next, running, maxJobs, files, submit);
      match submit(queue[next])
      case None =>
        AdmitUnderCap(queue, next + 1, running, maxJobs, files, submit);
        if r.popped > next + 1 {
          LaunchesFrom(queue, next, r.popped - 1, submit);
        }
      case Some(l) =>
        AdmitUnderCap(queue, next + 1, running + 1, maxJobs, files[l.id := Provisional(l.id, l.workingDir)], submit);
        if r.popped > next + 1 {
          LaunchesFrom(queue, next, r.popped - 1, submit);
        }
    }
  }

  /** `Launches` counts the first task and then the rest. */
  lemma LaunchesFrom(tasks: seq<Task>, lo: nat, hi: nat, submit: Task -> Option<Launch>)
    requires lo < hi <= |tasks|
    ensures |Launches(tasks, lo, hi, submit)|
            == (if submit(tasks[lo]).Some? then 1 else 0) + |Launches(tasks, lo + 1, hi, submit)|
  {
  }

  /** The queue is first in, first out: a pass that stops with tasks left
      never reaches tasks queued behind them, so it is the same pass as
      without them. */
  lemma {:induction false} AdmitIgnoresLater(queue: seq<Task>, extra: seq<Task>, next: nat, running: int,
                                             maxJobs: int, files: JobFiles, submit: Task -> Option<Launch>)
    requires next <= |queue|
    requires Admit(queue, next, running, maxJobs, files, submit).popped < |queue|
    ensures Admit(queue + extra, next, running, maxJobs, files, submit)
            == Admit(queue, next, running, maxJobs, files, submit)
    decreases |queue| - next
  {
    if running < maxJobs {
      assert (queue + extra)[next] == queue[next];
      match submit(queue[next])
      case None =>
        AdmitIgnoresLater(queue, extra, next + 1, running, maxJobs, files, submit);
      case Some(l) =>
        AdmitIgnoresLater(queue, extra, next + 1, running + 1, maxJobs,
                          files[l.id := Provisional(l.id, l.workingDir)], submit);
    }
  }

  /** When every task launches, exactly `min(|queue| - next, max(0, maxJobs - running))`
      tasks are submitted. */
  lemma AdmitAllLaunch(queue: seq<Task>, next: nat, running: int, maxJobs: int, files: JobFiles,
                       submit: Task -> Option<Launch>)
    requires next <= |queue|
    requires forall k :: next <= k < |queue| ==> submit(queue[k]).Some?
    ensures var slots := if running >= maxJobs then 0 else maxJobs - running;
            var r := Admit(queue, next, running, maxJobs, files, submit);
            |r.launched| == r.popped - next
            && r.popped - next == (if |queue| - next < slots then |queue| - next else slots)
  {
    var r := Admit(queue, next, running, maxJobs, files, submit);
    AdmitLaunched(queue, next, running, maxJobs, files, submit);
    AllLaunch(queue, next, r.popped, submit);
  }

  lemma {:induction false} AllLaunch(tasks: seq<Task>, lo: nat, hi: nat, submit: Task -> Option<Launch>)
    requires lo <= hi <= |tasks|
    requires forall k :: lo <= k < hi ==> submit(tasks[k]).Some?
    ensures |Launches(tasks, lo, hi, submit)| == hi - lo
    decreases hi - lo
  {
    if lo < hi {
      AllLaunch(tasks, lo + 1, hi, submit);
    }
  }

  /** Some task of `queue[lo..hi]` raises when the program submits it. */
  predicate SomeTaskRaises(queue: seq<Task>, lo: nat, hi: nat, host: Host)
    requires lo <= hi <= |queue|
  {
    exists k :: lo <= k < hi && AttemptAsWritten(queue[k], host).Raised?
  }

  /** `process_submission_queue` as written, where a task without a directory or
      script name raises; when it returns, it agrees with the corrected pass. */
  function AdmitAsWritten(queue: seq<Task>, next: nat, running: int, maxJobs: int, files: JobFiles,
                          host: Host): (r: Call<Admission>)
    requires next <= |queue|
    ensures r.Returned? ==> r.value == Admit(queue, next, running, maxJobs, files, Submitter(host))
    decreases |queue| - next
  {
    if next == |queue| || running >= maxJobs then Returned(Admission(next, files, running, []))
    else
      match AttemptAsWritten(queue[next], host)
      case Raised(e) => Raised(e)
      case Returned(popped) =>
        var running' := match popped case None => running case Some(_) => running + 1;
        var files' := match popped case None => files case Some(l) => files[l.id := Provisional(l.id, l.workingDir)];
        match AdmitAsWritten(queue, next + 1, running', maxJobs, files', host)
        case Raised(e) => Raised(e)
        case Returned(r) =>
          var launched := match popped case None => r.launched case Some(l) => [l] + r.launched;
          Returned(Admission(r.popped, r.files, r.running, launched))
  }

  /** The pass as written raises exactly when one of the tasks the corrected
      pass pops raises when submitted. */
  lemma {:induction false} AdmitAsWrittenRaises(queue: seq<Task>, next: nat, running: int, maxJobs: int,
                                                files: JobFiles, host: Host)
    requires next <= |queue|
    ensures AdmitAsWritten(queue, next, running, maxJobs, files, host).Raised? <==>
              SomeTaskRaises(queue, next, Admit(queue, next, running, maxJobs, files, Submitter(host)).popped, host)
    decreases |queue| - next
  {
    if next < |queue| && running < maxJobs {
      var a := Admit(queue, next, running, maxJobs, files, Submitter(host));
      SomeTaskRaisesFirst(queue, next, a.popped, host);
      match AttemptAsWritten(queue[next], host)
      case Raised(_) =>
        AdmitPopsFirst(queue, next, running, maxJobs, files, Submitter(host));
        assert AdmitAsWritten(queue, next, running, maxJobs, files, host).Raised?;
      case Returned(None) =>
        AdmitDrops(queue, next, running, maxJobs, files, host);
        AdmitAsWrittenRaises(queue, next + 1, running, maxJobs, files, host);
      case Returned(Some(l)) =>
        AdmitLaunchesFirst(queue, next, running, maxJobs, files, host, l);
        AdmitAsWrittenRaises(queue, next + 1, running + 1, maxJobs, files[l.id := Provisional(l.id, l.workingDir)], host);
    } else {
      assert Admit(queue, next, running, maxJobs, files, Submitter(host)).popped == next;
    }
  }

  /** With a task queued and a slot free, the pass pops at least that task. */
  lemma AdmitPopsFirst(queue: seq<Task>, next: nat, running: int, maxJobs: int, files: JobFiles,
                       submit: Task -> Option<Launch>)
    requires next < |queue| && running < maxJobs
    ensures next < Admit(queue, next, running, maxJobs, files, submit).popped
  {
  }

  /** A task that is dropped without raising leaves both passes to go on from
      the next task with the same state. */
  lemma AdmitDrops(queue: seq<Task>, next: nat, running: int, maxJobs: int, files: JobFiles, host: Host)
    requires next < |queue| && running < maxJobs
    requires AttemptAsWritten(queue[next], host) == Returned(None)
    ensures AdmitAsWritten(queue, next, running, maxJobs, files, host).Raised?
            == AdmitAsWritten(queue, next + 1, running, maxJobs, files, host).Raised?
    ensures Admit(queue, next, running, maxJobs, files, Submitter(host)).popped
            == Admit(queue, next + 1, running, maxJobs, files, Submitter(host)).popped
  {
    assert Submitter(host)(queue[next]).None?;
  }

  /** A task that launches `l` leaves both passes to go on from the next task
      with one more job running and `l` registered. */
  lemma AdmitLaunchesFirst(queue: seq<Task>, next: nat, running: int, maxJobs: int, files: JobFiles,
                           host: Host, l: Launch)
    requires next < |queue| && running < maxJobs
    requires AttemptAsWritten(queue[next], host) == Returned(Some(l))
    ensures var files' := files[l.id := Provisional(l.id, l.workingDir)];
            AdmitAsWritten(queue, next, running, maxJobs, files, host).Raised?
            == AdmitAsWritten(queue, next + 1, running + 1, maxJobs, files', host).Raised?
            && Admit(queue, next, running, maxJobs, files, Submitter(host)).popped
               == Admit(queue, next + 1, running + 1, maxJobs, files', Submitter(host)).popped
  {
    assert Submitter(host)(queue[next]) == Some(l);
  }

  /** Whether some task of a non-empty range raises splits into its first task
      and the rest. */
  lemma SomeTaskRaisesFirst(queue: seq<Task>, lo: nat, hi: nat, host: Host)
    requires lo < hi <= |queue|
    ensures SomeTaskRaises(queue, lo, hi, host)
            <==> AttemptAsWritten(queue[lo], host).Raised? || SomeTaskRaises(queue, lo + 1, hi, host)
  {
    if SomeTaskRaises(queue, lo, hi, host) {
      var k :| lo <= k < hi && AttemptAsWritten(queue[k], host).Raised?;
      assert k == lo || SomeTaskRaises(queue, lo + 1, hi, host);
    }
  }

  /** A task queued without a working directory, with a free slot: the program
      raises `TypeError`, the corrected pass drops the task and goes on. */
  lemma TaskWithoutDirectory(script: Option<string>, running: int, maxJobs: int, files: JobFiles, host: Host)
    requires running < maxJobs
    ensures var queue := [Task(None, script)];
            AdmitAsWritten(queue, 0, running, maxJobs, files, host).Raised?
            && Admit(queue, 0, running, maxJobs, files, Submitter(host)) == Admission(1, files, running, [])
  {
  }
}
