/** The tracker's records: the entries of `job_files` (jobs being tracked) and of
    `completed_jobs` (the history), and how entries are read back from the
    current-jobs file. */
module Jobs {
  import opened Wrappers
  import opened Squeue

  /** One entry of `job_files`.  The `directory` and `filename` keys are present
      in every entry the program builds; `start_time` is missing from the
      entries `find_job_file` caches and from the provisional entries written
      after a submission, so it is a `Key`.  `nodelist` is only ever read with
      `.get`, so a missing key and `None` are the same to the program. */
  datatype Entry = Entry(start: Key<Time>, directory: Option<string>, filename: Option<string>,
                         nodelist: Option<string>)

  /** One entry of `completed_jobs`. */
  datatype Completed = Completed(start: Option<Time>, end: Time, directory: Option<string>,
                                 filename: Option<string>, nodelist: Option<string>)

  type JobFiles = map<JobId, Entry>
  type History = map<JobId, Completed>

  /** The entry a tracking cycle writes for a reported job: all four keys. */
  function Snapshot(start: Option<Time>, directory: Option<string>, filename: Option<string>,
                    nodelist: string): (e: Entry)
    ensures e.start == Present(start) && e.nodelist == Some(nodelist)
  {
    Entry(Present(start), directory, filename, Some(nodelist))
  }

  /** The entry `find_job_file` caches for a located output file: no start, no
      nodelist. */
  function Found(directory: string, filename: string): (e: Entry)
    ensures e.start == Absent && e.directory == Some(directory) && e.filename == Some(filename)
  {
    Entry(Absent, Some(directory), Some(filename), None)
  }

  /** The name Slurm gives a job's output file by default. */
  function OutputName(id: JobId): (r: string) {
    "slurm-" + id + ".out"
  }

  /** The provisional entry written after a successful `sbatch`: the working
      directory and the default output name, and no start. */
  function Provisional(id: JobId, workingDir: string): (e: Entry)
    ensures e.start == Absent && e.directory == Some(workingDir)
    ensures e.filename == Some(OutputName(id))
  {
    Entry(Absent, Some(workingDir), Some(OutputName(id)), None)
  }

  /** Python truthiness of an optional text: present and non-empty. */
  predicate Truthy(s: Option<string>) {
    s.Some? && s.value != ""
  }

  // ---------------------------------------------------------------------------
  // The current-jobs file
  // ---------------------------------------------------------------------------

  /** One job object of the current-jobs file, any of whose keys may be missing. */
  datatype StoredJob = StoredJob(start: Key<Time>, directory: Key<string>, filename: Key<string>,
                                 nodelist: Key<string>)

  /** `load_current_files` reads each stored job with `.get`, so every loaded
      entry has all four keys, a missing one reading as `None`. */
  function LoadEntry(s: StoredJob): (e: Entry)
    ensures e.start.Present? && e.start.held == s.start.Get()
    ensures e.directory == s.directory.Get() && e.filename == s.filename.Get()
    ensures e.nodelist == s.nodelist.Get()
  {
    Entry(Present(s.start.Get()), s.directory.Get(), s.filename.Get(), s.nodelist.Get())
  }

  /** How `save_current` writes an entry: every key it has. */
  function SaveEntry(e: Entry): (s: StoredJob)
    ensures s.start == e.start && s.directory == Present(e.directory)
  {
    StoredJob(e.start, Present(e.directory), Present(e.filename),
              if e.nodelist.Some? then Present(e.nodelist) else Absent)
  }

  /** The loaded `job_files`: one entry per stored job, each with a start key. */
  function LoadJobs(stored: map<JobId, StoredJob>): (r: JobFiles)
    ensures r.Keys == stored.Keys
    ensures forall id :: id in r ==> r[id].start.Present?
  {
    map id | id in stored :: LoadEntry(stored[id])
  }

  /** An entry a tracking cycle wrote survives a save and a load unchanged. */
  lemma LoadSavedSnapshot(start: Option<Time>, directory: Option<string>, filename: Option<string>,
                          nodelist: string)
    ensures var e := Snapshot(start, directory, filename, nodelist);
            LoadEntry(SaveEntry(e)) == e
  {
  }

  /** Saving and loading a snapshot of cycle entries gives it back. */
  lemma LoadSavedJobs(files: JobFiles)
    requires forall id :: id in files ==> files[id].start.Present? && files[id].nodelist.Some?
    ensures LoadJobs(map id | id in files :: SaveEntry(files[id])) == files
  {
    var stored := map id | id in files :: SaveEntry(files[id]);
    forall id | id in files ensures LoadEntry(stored[id]) == files[id] {
      var e := files[id];
      assert e == Snapshot(e.start.held, e.directory, e.filename, e.nodelist.value);
      LoadSavedSnapshot(e.start.held, e.directory, e.filename, e.nodelist.value);
    }
  }
}
