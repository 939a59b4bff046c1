/** One iteration of `track_jobs`: the polled rows are merged into `job_files`,
    jobs that are no longer reported are archived into `completed_jobs`, and the
    number of reported jobs is handed on to admission.  The file search the
    program runs through the shell (`timeout find ...`) is the parameter
    `search`: it maps a job id to the printed search result, or to `None` when
    the command failed or timed out. */
module Cycle {
  import opened Wrappers
  import opened Text
  import opened Squeue
  import opened Paths
  import opened Jobs

  type Search = JobId -> Option<string>

  // ---------------------------------------------------------------------------
  // find_job_file
  // ---------------------------------------------------------------------------

  /** What `find_job_file` returns, with `job_files` after the call. */
  datatype Lookup = Lookup(directory: Option<string>, filename: Option<string>, files: JobFiles)

  /** The directory and file name a search for `id` reports: the printed path,
      stripped and split at its last slash; nothing when the search failed or
      printed nothing. */
  function Searched(id: JobId, search: Search): (r: Option<(string, string)>)
    ensures r.Some? <==> search(id).Some? && Strip(search(id).value) != ""
    ensures r.Some? ==> r.value == PathSplit(Strip(search(id).value))
  {
    match search(id)
    case None => None
    case Some(out) =>
      var path := Strip(out);
      if path == "" then None else Some(PathSplit(path))
  }

  /** `find_job_file(job_id)`: the cached entry when the id is tracked (the search
      is not run); otherwise the search, whose result, when there is one, is
      cached under the id with no start. */
  function FindJobFile(files: JobFiles, id: JobId, search: Search): (r: Lookup)
    ensures id in files ==> r.directory == files[id].directory && r.filename == files[id].filename
                            && r.files == files
    ensures forall k :: k in files ==> k in r.files && r.files[k] == files[k]
    ensures r.files.Keys <= files.Keys + {id}
    ensures id !in files ==> (id in r.files <==> Searched(id, search).Some?)
    ensures id !in files && id in r.files ==>
              var (d, f) := Searched(id, search).value;
              r.directory == Some(d) && r.filename == Some(f) && r.files[id] == Found(d, f)
    ensures id !in files && id !in r.files ==> r.directory.None? && r.filename.None?
  {
    if id in files then Lookup(files[id].directory, files[id].filename, files)
    else
      match Searched(id, search)
      case None => Lookup(None, None, files)
      case Some((d, f)) => Lookup(Some(d), Some(f), files[id := Found(d, f)])
  }

  /** For a tracked id the search is never consulted: any search gives the same
      answer and the same `job_files`. */
  lemma FindTrackedIgnoresSearch(files: JobFiles, id: JobId, s1: Search, s2: Search)
    requires id in files
    ensures FindJobFile(files, id, s1) == FindJobFile(files, id, s2)
    ensures FindJobFile(files, id, s1).files == files
  {
  }

  // ---------------------------------------------------------------------------
  // The loop over the polled rows
  // ---------------------------------------------------------------------------

  /** The state of the loop: `job_files` (which `find_job_file` may grow) and the
      entries built so far for the current snapshot. */
  datatype Pass = Pass(files: JobFiles, jobs: JobFiles)

  /** The start a cycle records for a reported job: the start already known for
      it, if any, else the start just observed. */
  function Sticky(files: JobFiles, id: JobId, observed: Option<Time>): Option<Time> {
    if id in files && files[id].start.Get().Some? then files[id].start.Get() else observed
  }

  /** The loop body for one row. */
  function Observe(p: Pass, row: Row, search: Search): (q: Pass)
    ensures row.id in q.jobs && q.jobs == p.jobs[row.id := q.jobs[row.id]]
    ensures q.jobs[row.id].start == Present(Sticky(p.files, row.id, row.start))
    ensures q.jobs[row.id].nodelist == Some(row.nodelist)
    ensures row.id in p.files ==> q.files == p.files
    ensures row.id in p.files ==> q.jobs[row.id].directory == p.files[row.id].directory
                                  && q.jobs[row.id].filename == p.files[row.id].filename
    ensures row.id !in p.files && IsReason(Some(row.nodelist)) ==>
              q.files == p.files && q.jobs[row.id].directory == None && q.jobs[row.id].filename == None
    ensures q.files == p.files || (row.id !in p.files && row.id in q.files && q.files == p.files[row.id := q.files[row.id]]
                                   && q.files[row.id].start == Absent)
  {
    var nodelist := row.nodelist;
    if row.id in p.files then
      var info := p.files[row.id];
      var start := Sticky(p.files, row.id, row.start);
      if IsReason(Some(nodelist)) then
        Pass(p.files, p.jobs[row.id := Snapshot(start, info.directory, info.filename, nodelist)])
      else if Truthy(info.filename) then
        Pass(p.files, p.jobs[row.id := Snapshot(start, info.directory, info.filename, nodelist)])
      else
        var found := FindJobFile(p.files, row.id, search);
        Pass(found.files, p.jobs[row.id := Snapshot(start, found.directory, found.filename, nodelist)])
    else if IsReason(Some(nodelist)) then
      Pass(p.files, p.jobs[row.id := Snapshot(row.start, None, None, nodelist)])
    else
      var found := FindJobFile(p.files, row.id, search);
      Pass(found.files, p.jobs[row.id := Snapshot(row.start, found.directory, found.filename, nodelist)])
  }

  /** The ids of the rows. */
  function Ids(rows: seq<Row>): (r: set<JobId>)
    ensures forall k :: 0 <= k < |rows| ==> rows[k].id in r
    ensures forall id :: id in r ==> exists k :: 0 <= k < |rows| && rows[k].id == id
  {
    if |rows| == 0 then {} else Ids(rows[..|rows| - 1]) + {rows[|rows| - 1].id}
  }

  /** The last of the rows that report `id`. */
  function LastRow(rows: seq<Row>, id: JobId): (r: Row)
    requires id in Ids(rows)
    ensures r.id == id && r in rows
    ensures exists k :: 0 <= k < |rows| && rows[k] == r && NoLaterRow(rows, k, id)
  {
    if rows[|rows| - 1].id == id then
      assert NoLaterRow(rows, |rows| - 1, id);
      rows[|rows| - 1]
    else
      var init := rows[..|rows| - 1];
      assert rows == init + [rows[|rows| - 1]];
      var r := LastRow(init, id);
      var k :| 0 <= k < |init| && init[k] == r && NoLaterRow(init, k, id);
      assert rows[k] == r && NoLaterRow(rows, k, id);
      r
  }

  /** No row after position `k` reports `id`. */
  predicate NoLaterRow(rows: seq<Row>, k: nat, id: JobId) {
    forall j :: k < j < |rows| ==> rows[j].id != id
  }

  /** The loop over the rows, in order.  Every reported id gets an entry, and
      `job_files` only gains cache entries, without a start, for reported ids
      that were not tracked. */
  function ObserveAll(files: JobFiles, rows: seq<Row>, search: Search): (p: Pass)
    ensures p.jobs.Keys == Ids(rows)
    ensures forall id :: id in files ==> id in p.files && p.files[id] == files[id]
    ensures forall id :: id in p.files && id !in files ==> id in Ids(rows) && p.files[id].start == Absent
    decreases |rows|
  {
    if |rows| == 0 then Pass(files, map[])
    else Observe(ObserveAll(files, rows[..|rows| - 1], search), rows[|rows| - 1], search)
  }

  /** Each entry of the snapshot is built from the last row reporting its id:
      the start already known or else the one observed, and the reported
      nodelist. */
  lemma {:induction false} ObserveAllStart(files: JobFiles, rows: seq<Row>, search: Search)
    ensures var p := ObserveAll(files, rows, search);
            forall id :: id in p.jobs ==>
              p.jobs[id].start == Present(Sticky(files, id, LastRow(rows, id).start))
              && p.jobs[id].nodelist == Some(LastRow(rows, id).nodelist)
  {
    if |rows| > 0 {
      var init := rows[..|rows| - 1];
      var row := rows[|rows| - 1];
      ObserveAllStart(files, init, search);
      var p := ObserveAll(files, init, search);
      var q := Observe(p, row, search);
      assert q == ObserveAll(files, rows, search);
      LastRowEarlier(rows);
      forall id | id in q.jobs
        ensures q.jobs[id].start == Present(Sticky(files, id, LastRow(rows, id).start))
        ensures q.jobs[id].nodelist == Some(LastRow(rows, id).nodelist)
      {
        if id == row.id {
          assert LastRow(rows, id) == row;
          StickyAfterPass(files, init, search, id, row.start);
        } else {
          assert q.jobs[id] == p.jobs[id];
        }
      }
    }
  }

  /** The loop adds entries without a start only, so the start it keeps for an
      id is the one known before the loop. */
  lemma StickyAfterPass(files: JobFiles, rows: seq<Row>, search: Search, id: JobId, observed: Option<Time>)
    ensures Sticky(ObserveAll(files, rows, search).files, id, observed) == Sticky(files, id, observed)
  {
  }

  /** An already-tracked id keeps the directory and file name it had, whatever
      state the job is in and whatever the search would report. */
  lemma {:induction false} ObserveAllTracked(files: JobFiles, rows: seq<Row>, search: Search)
    ensures var p := ObserveAll(files, rows, search);
            forall id :: id in p.jobs && id in files ==>
              p.jobs[id].directory == files[id].directory && p.jobs[id].filename == files[id].filename
  {
    if |rows| > 0 {
      var init := rows[..|rows| - 1];
      ObserveAllTracked(files, init, search);
      assert Observe(ObserveAll(files, init, search), rows[|rows| - 1], search) == ObserveAll(files, rows, search);
    }
  }

  /** An id other than the last row's was reported, last, before it. */
  lemma LastRowEarlier(rows: seq<Row>)
    requires |rows| > 0
    ensures forall id :: id in Ids(rows) && id != rows[|rows| - 1].id ==>
              id in Ids(rows[..|rows| - 1]) && LastRow(rows, id) == LastRow(rows[..|rows| - 1], id)
  {
  }

  // ---------------------------------------------------------------------------
  // Archiving
  // ---------------------------------------------------------------------------

  /** The history entry for a finished job: its last known start, directory,
      file name and nodelist, ended at the cycle's timestamp.  A missing start
      reads as `None`. */
  function Archived(e: Entry, stamp: Time): (c: Completed)
    ensures c.end == stamp && c.start == e.start.Get()
    ensures c.directory == e.directory && c.filename == e.filename && c.nodelist == e.nodelist
  {
    Completed(e.start.Get(), stamp, e.directory, e.filename, e.nodelist)
  }

  /** Writing every finished job into the history; other history entries stay. */
  function Archive(completed: History, files: JobFiles, finished: set<JobId>, stamp: Time): (r: History)
    requires finished <= files.Keys
    ensures r.Keys == completed.Keys + finished
    ensures forall id :: id in finished ==> r[id] == Archived(files[id], stamp)
    ensures forall id :: id in completed && id !in finished ==> r[id] == completed[id]
  {
    map id | id in completed.Keys + finished :: if id in finished then Archived(files[id], stamp) else completed[id]
  }

  /** The archive loop as written: it reads `['start_time']`, which raises
      `KeyError` for an entry that has no start key. */
  function ArchiveAsWritten(completed: History, files: JobFiles, finished: set<JobId>, stamp: Time)
    : (r: Call<History>)
    requires finished <= files.Keys
    ensures r.Raised? <==> exists id :: id in finished && files[id].start.Absent?
    ensures r.Returned? ==> r.value == Archive(completed, files, finished, stamp)
  {
    if exists id :: id in finished && files[id].start.Absent? then Raised("KeyError")
    else Returned(Archive(completed, files, finished, stamp))
  }

  // ---------------------------------------------------------------------------
  // One cycle
  // ---------------------------------------------------------------------------

  /** The state a cycle leaves: the new `job_files`, the history, the running
      count handed to admission, and the ids the cycle logs as newly detected. */
  datatype Outcome = Outcome(files: JobFiles, completed: History, running: nat, announced: set<JobId>)

  /** One cycle of `track_jobs` for the rows of one poll, at timestamp `stamp`. */
  function Reconcile(files: JobFiles, completed: History, rows: seq<Row>, stamp: Time, search: Search)
    : (r: Outcome)
    ensures r.files.Keys == Ids(rows)
    ensures r.running == |Ids(rows)|
    ensures r.completed.Keys == completed.Keys + (files.Keys - Ids(rows))
    ensures forall id :: id in files && id !in Ids(rows) ==> r.completed[id] == Archived(files[id], stamp)
    ensures forall id :: id in completed && (id !in files || id in Ids(rows)) ==> r.completed[id] == completed[id]
    ensures r.announced <= Ids(rows) - files.Keys
  {
    var p := ObserveAll(files, rows, search);
    var finished := p.files.Keys - p.jobs.Keys;
    FinishedIds(files, rows, search);
    Outcome(p.jobs, Archive(completed, p.files, finished, stamp), |p.jobs.Keys|, p.jobs.Keys - p.files.Keys)
  }

  /** The jobs the loop leaves unreported are the tracked ids missing from the
      poll, and their entries are the tracked ones. */
  lemma FinishedIds(files: JobFiles, rows: seq<Row>, search: Search)
    ensures var p := ObserveAll(files, rows, search);
            p.files.Keys - p.jobs.Keys == files.Keys - Ids(rows)
            && (forall id :: id in files.Keys - Ids(rows) ==> p.files[id] == files[id])
            && p.jobs.Keys - p.files.Keys <= Ids(rows) - files.Keys
  {
  }

  /** The cycle as written, where archiving an entry without a start raises. */
  function ReconcileAsWritten(files: JobFiles, completed: History, rows: seq<Row>, stamp: Time,
                              search: Search): (r: Call<Outcome>)
    ensures r.Returned? ==> r.value == Reconcile(files, completed, rows, stamp, search)
    ensures r.Raised? <==> exists id :: id in files && id !in Ids(rows) && files[id].start.Absent?
  {
    var p := ObserveAll(files, rows, search);
    var finished := p.files.Keys - p.jobs.Keys;
    match ArchiveAsWritten(completed, p.files, finished, stamp)
    case Raised(e) => Raised(e)
    case Returned(history) =>
      Returned(Outcome(p.jobs, history, |p.jobs.Keys|, p.jobs.Keys - p.files.Keys))
  }

  // ---------------------------------------------------------------------------
  // Properties of one cycle
  // ---------------------------------------------------------------------------

  /** Each job reported once, as `squeue` lists it. */
  predicate Distinct(rows: seq<Row>) {
    forall i, j :: 0 <= i < j < |rows| ==> rows[i].id != rows[j].id
  }

  /** The entry a cycle should build for a row, read off the tracked entries and
      the search alone: a tracked id keeps its directory and file name; a new id
      in a reason state gets none; any other new id gets what the search reports. */
  function Expected(files: JobFiles, row: Row, search: Search): Entry {
    var start := Sticky(files, row.id, row.start);
    if row.id in files then Snapshot(start, files[row.id].directory, files[row.id].filename, row.nodelist)
    else if IsReason(Some(row.nodelist)) then Snapshot(start, None, None, row.nodelist)
    else
      match Searched(row.id, search)
      case None => Snapshot(start, None, None, row.nodelist)
      case Some((d, f)) => Snapshot(start, Some(d), Some(f), row.nodelist)
  }

  /** When every job is reported once, each snapshot entry is the expected one. */
  lemma {:induction false} ObserveAllDistinct(files: JobFiles, rows: seq<Row>, search: Search)
    requires Distinct(rows)
    ensures forall k :: 0 <= k < |rows| ==>
              ObserveAll(files, rows, search).jobs[rows[k].id] == Expected(files, rows[k], search)
  {
    if |rows| > 0 {
      var init := rows[..|rows| - 1];
      var row := rows[|rows| - 1];
      assert Distinct(init);
      ObserveAllDistinct(files, init, search);
      var p := ObserveAll(files, init, search);
      var q := Observe(p, row, search);
      assert q == ObserveAll(files, rows, search);
      assert row.id !in Ids(init);
      ObserveExpected(files, p, row, search);
      forall k | 0 <= k < |rows| ensures q.jobs[rows[k].id] == Expected(files, rows[k], search) {
        if k < |rows| - 1 {
          assert rows[k] == init[k] && rows[k].id != row.id;
        }
      }
    }
  }

  /** The loop body builds the expected entry for a row whose id the loop has not
      cached yet. */
  lemma ObserveExpected(files: JobFiles, p: Pass, row: Row, search: Search)
    requires forall id :: id in files ==> id in p.files && p.files[id] == files[id]
    requires row.id in p.files ==> row.id in files
    ensures Observe(p, row, search).jobs[row.id] == Expected(files, row, search)
  {
    assert Sticky(p.files, row.id, row.start) == Sticky(files, row.id, row.start);
  }

  /** The search is consulted only for ids that were not tracked and are not in a
      reason state: two searches that agree on those give the same cycle. */
  lemma {:induction false} SearchOnlyForNewRunning(files: JobFiles, rows: seq<Row>, s1: Search, s2: Search)
    requires forall k :: 0 <= k < |rows| && rows[k].id !in files && !IsReason(Some(rows[k].nodelist)) ==>
               s1(rows[k].id) == s2(rows[k].id)
    ensures ObserveAll(files, rows, s1) == ObserveAll(files, rows, s2)
  {
    if |rows| > 0 {
      var init := rows[..|rows| - 1];
      var row := rows[|rows| - 1];
      assert forall k :: 0 <= k < |init| ==> init[k] == rows[k];
      SearchOnlyForNewRunning(files, init, s1, s2);
      var p := ObserveAll(files, init, s1);
      assert row.id !in p.files ==> row.id !in files;
      ObserveSameSearch(p, row, s1, s2);
    }
  }

  /** One row consults the search only when its job is untracked and running. */
  lemma ObserveSameSearch(p: Pass, row: Row, s1: Search, s2: Search)
    requires row.id !in p.files && !IsReason(Some(row.nodelist)) ==> s1(row.id) == s2(row.id)
    ensures Observe(p, row, s1) == Observe(p, row, s2)
  {
    if row.id !in p.files && !IsReason(Some(row.nodelist)) {
      assert Searched(row.id, s1) == Searched(row.id, s2);
    }
  }

  /** The same holds for the whole cycle. */
  lemma ReconcileSearchOnlyForNewRunning(files: JobFiles, completed: History, rows: seq<Row>, stamp: Time,
                                         s1: Search, s2: Search)
    requires forall k :: 0 <= k < |rows| && rows[k].id !in files && !IsReason(Some(rows[k].nodelist)) ==>
               s1(rows[k].id) == s2(rows[k].id)
    ensures Reconcile(files, completed, rows, stamp, s1) == Reconcile(files, completed, rows, stamp, s2)
  {
    SearchOnlyForNewRunning(files, rows, s1, s2);
  }

  /** A job that was already tracked with a known start keeps that start while it
      is reported, whatever start the poll shows. */
  lemma StartIsSticky(files: JobFiles, completed: History, rows: seq<Row>, stamp: Time, search: Search,
                      id: JobId)
    requires id in files && id in Ids(rows) && files[id].start.Get().Some?
    ensures Reconcile(files, completed, rows, stamp, search).files[id].start == files[id].start
  {
    ObserveAllStart(files, rows, search);
  }

  /** A tracked job keeps its directory and file name, whatever the search would
      report: in particular a job first seen in a reason state (with neither)
      never gets them. */
  lemma TrackedKeepsFile(files: JobFiles, completed: History, rows: seq<Row>, stamp: Time, search: Search,
                         id: JobId)
    requires id in files && id in Ids(rows)
    ensures var e := Reconcile(files, completed, rows, stamp, search).files[id];
            e.directory == files[id].directory && e.filename == files[id].filename
  {
    ObserveAllTracked(files, rows, search);
  }

  /** A new job first reported in a reason state is tracked with no directory and
      no file name. */
  lemma NewPendingHasNoFile(files: JobFiles, completed: History, rows: seq<Row>, stamp: Time, search: Search,
                            k: nat)
    requires Distinct(rows) && k < |rows|
    requires rows[k].id !in files && IsReason(Some(rows[k].nodelist))
    ensures var e := Reconcile(files, completed, rows, stamp, search).files[rows[k].id];
            e.directory == None && e.filename == None
  {
    ObserveAllDistinct(files, rows, search);
  }

  /** Every entry a cycle writes carries a start key, so a job tracked only since
      a cycle can be archived without error. */
  lemma SnapshotHasStarts(files: JobFiles, completed: History, rows: seq<Row>, stamp: Time, search: Search)
    ensures var r := Reconcile(files, completed, rows, stamp, search);
            forall id :: id in r.files ==> r.files[id].start.Present?
  {
    ObserveAllStart(files, rows, search);
  }

  /** History and tracked jobs share no id exactly when the poll reports no id
      the history already holds: the history is never pruned. */
  lemma HistoryDisjoint(files: JobFiles, completed: History, rows: seq<Row>, stamp: Time, search: Search)
    ensures var r := Reconcile(files, completed, rows, stamp, search);
            r.completed.Keys !! r.files.Keys <==> completed.Keys !! Ids(rows)
  {
    var r := Reconcile(files, completed, rows, stamp, search);
    if !(completed.Keys !! Ids(rows)) {
      var id :| id in completed.Keys && id in Ids(rows);
      assert id in r.completed.Keys && id in r.files.Keys;
    }
  }

  /** A failed or empty poll archives every tracked job and tracks none. */
  lemma EmptyPollArchivesAll(files: JobFiles, completed: History, stamp: Time, search: Search)
    ensures var r := Reconcile(files, completed, [], stamp, search);
            r.files == map[] && r.running == 0
            && r.completed.Keys == completed.Keys + files.Keys
            && forall id :: id in files ==> r.completed[id] == Archived(files[id], stamp)
  {
    var p := ObserveAll(files, [], search);
    assert p == Pass(files, map[]);
    assert p.files.Keys - p.jobs.Keys == files.Keys;
    var h := Archive(completed, files, files.Keys, stamp);
    assert Reconcile(files, completed, [], stamp, search) == Outcome(map[], h, 0, {});
  }

  /** A job tracked only from its provisional entry (written after `sbatch`) that
      the next poll does not report: the cycle as written raises `KeyError`, the
      corrected one archives it with no start. */
  lemma ProvisionalVanishes(id: JobId, workingDir: string, completed: History, stamp: Time, search: Search)
    ensures var files := map[id := Provisional(id, workingDir)];
            ReconcileAsWritten(files, completed, [], stamp, search).Raised?
            && Reconcile(files, completed, [], stamp, search).completed[id]
               == Completed(None, stamp, Some(workingDir), Some(OutputName(id)), None)
  {
    var files := map[id := Provisional(id, workingDir)];
    assert id in files && id !in Ids([]) && files[id].start.Absent?;
  }

  /** Entries loaded from the current-jobs file always carry a start key, so the
      cycle as written never raises on them. */
  lemma LoadedNeverRaise(stored: map<JobId, StoredJob>, completed: History, rows: seq<Row>, stamp: Time,
                         search: Search)
    ensures ReconcileAsWritten(LoadJobs(stored), completed, rows, stamp, search)
            == Returned(Reconcile(LoadJobs(stored), completed, rows, stamp, search))
  {
  }

  /** A job found by the file search in the cycle that first reports it is never
      logged as newly detected: the search cached it in `job_files` before the
      previous ids were taken. */
  lemma FoundJobNotAnnounced(row: Row, completed: History, stamp: Time, search: Search)
    requires !IsReason(Some(row.nodelist)) && Searched(row.id, search).Some?
    ensures var r := Reconcile(map[], completed, [row], stamp, search);
            row.id in r.files && r.announced == {}
  {
    assert [row][..0] == [];
  }
}
