/** The replicated database as a value, and the effect of each log command on it. */
module StoreSpec {
  import opened Wrappers
  import opened Types
  import opened Keys
  import opened ScheduleHash

  const MAX_EXECUTIONS := 100

  datatype Db = Db(
    jobs: map<string, Job>,
    executions: map<string, Execution>,
    stats: map<int, Stat>)

  const EMPTY := Db(map[], map[], map[])

  datatype Reply =
    | Done
    | Deleted(job: Job)
    | Saved(key: string)
    | Recorded(counted: bool)
    | Updated(job: Job)
    | Failed(error: Error)

  datatype Command =
    | SetJobCommand(job: Job)
    | DeleteJobCommand(name: string)
    | SetExecutionCommand(execution: Execution)
    | ExecutionDoneCommand(execution: Execution)
    | DeleteExecutionsCommand(name: string)

  // ----- Jobs and their parent links -----

  function Stored(jobs: map<string, Job>, name: string): Option<Job> {
    if name in jobs then Some(jobs[name]) else None
  }

  /** The parent on record, "" for a job that is not stored. */
  function ParentOnRecord(jobs: map<string, Job>, name: string): string {
    if name in jobs then jobs[name].parentJob else ""
  }

  /** What runs have recorded on the stored job survives a write of the job. */
  function Progressed(stored: Job, job: Job, copyDependentJobs: bool): Job {
    job.(lastError := if After(stored.lastError, job.lastError) then stored.lastError else job.lastError,
         lastSuccess := if After(stored.lastSuccess, job.lastSuccess) then stored.lastSuccess else job.lastSuccess,
         successCount := if stored.successCount > job.successCount then stored.successCount else job.successCount,
         errorCount := if stored.errorCount > job.errorCount then stored.errorCount else job.errorCount,
         dependentJobs := if stored.dependentJobs != [] && copyDependentJobs then stored.dependentJobs
                          else job.dependentJobs,
         status := if stored.status != "" then stored.status else job.status)
  }

  /** With its next run: a new one for a schedule that differs from the stored one. */
  function Rescheduled(env: Env, clock: Clock, stored: Option<Job>, job: Job): Option<Job> {
    var schedule := if stored.Some? then stored.value.schedule else "";
    var next := if stored.Some? then stored.value.next else EPOCH;
    if job.schedule != schedule then
      var computed := GetNext(env, clock, job);
      if computed.None? then None else Some(job.(next := computed.value))
    else Some(job.(next := if job.next < next then next else job.next))
  }

  /** The job that SetJob writes; None when its next run cannot be computed. */
  function Merged(env: Env, clock: Clock, stored: Option<Job>, job: Job, copyDependentJobs: bool): Option<Job> {
    Rescheduled(env, clock, stored, if stored.Some? then Progressed(stored.value, job, copyDependentJobs) else job)
  }

  /** The later of two times, either of which may be missing. */
  predicate IsLatest(t: Option<Time>, u: Option<Time>, v: Option<Time>) {
    && t in {u, v}
    && (u.Some? ==> t.Some? && u.value <= t.value)
    && (v.Some? ==> t.Some? && v.value <= t.value)
  }

  /** Counters and last times are the larger ones of those stored and given; a recorded status stays, a
      stored list stays where it is to be copied, and the settings are the given ones. */
  predicate ProgressKept(stored: Job, given: Job, copyDependentJobs: bool, job: Job) {
    && job.successCount in {stored.successCount, given.successCount}
    && stored.successCount <= job.successCount && given.successCount <= job.successCount
    && job.errorCount in {stored.errorCount, given.errorCount}
    && stored.errorCount <= job.errorCount && given.errorCount <= job.errorCount
    && IsLatest(job.lastSuccess, stored.lastSuccess, given.lastSuccess)
    && IsLatest(job.lastError, stored.lastError, given.lastError)
    && job.status == (if stored.status != "" then stored.status else given.status)
    && job.dependentJobs == (if copyDependentJobs && stored.dependentJobs != [] then stored.dependentJobs
                             else given.dependentJobs)
    && job.(lastError := given.lastError, lastSuccess := given.lastSuccess, successCount := given.successCount,
            errorCount := given.errorCount, dependentJobs := given.dependentJobs, status := given.status) == given
  }

  lemma ProgressIsKept(stored: Job, given: Job, copyDependentJobs: bool)
    ensures ProgressKept(stored, given, copyDependentJobs, Progressed(stored, given, copyDependentJobs))
  {
  }

  /** A new or changed schedule brings a new next run: the start still to come, or else the one that cron
      gives, or none. With the schedule that is stored it is the later one of those stored and given. */
  predicate NextRunFits(env: Env, clock: Clock, stored: Option<Job>, job: Job, next: Time) {
    if job.schedule == (if stored.Some? then stored.value.schedule else "") then
      var before := if stored.Some? then stored.value.next else EPOCH;
      next in {before, job.next} && next >= before && next >= job.next
    else if job.startsAt.Some? && clock.now < job.startsAt.value then next == job.startsAt.value
    else if job.schedule == "" then next == ZERO_TIME
    else next == env.nextAfter(Hashed(job.schedule, job.name), clock.later)
  }

  function Without(names: seq<string>, name: string): seq<string> {
    if names == [] then []
    else (if names[0] == name then [] else [names[0]]) + Without(names[1..], name)
  }

  function Unlink(jobs: map<string, Job>, parent: string, child: string): map<string, Job> {
    if parent == "" || parent !in jobs then jobs
    else jobs[parent := jobs[parent].(dependentJobs := Without(jobs[parent].dependentJobs, child))]
  }

  function Link(jobs: map<string, Job>, parent: string, child: string): map<string, Job> {
    if parent == "" || parent !in jobs then jobs
    else jobs[parent := jobs[parent].(dependentJobs := jobs[parent].dependentJobs + [child])]
  }

  /** A job that changes parents leaves the list of the old one and joins the list of the new one. */
  function Relinked(jobs: map<string, Job>, child: string, from: string, to: string): map<string, Job> {
    if from == to then jobs else Link(Unlink(jobs, from, child), to, child)
  }

  function SetJob(env: Env, clock: Clock, db: Db, job: Job, copyDependentJobs: bool): (Db, Reply) {
    var invalid := Validate(env, job);
    if invalid.Some? then (db, Failed(invalid.value))
    else if job.parentJob != "" && job.parentJob !in db.jobs then (db, Failed(ParentNotFound))
    else
      var merged := Merged(env, clock, Stored(db.jobs, job.name), job, copyDependentJobs);
      if merged.None? then (db, Failed(ScheduleParse))
      else
        var jobs := db.jobs[job.name := merged.value];
        (db.(jobs := Relinked(jobs, job.name, ParentOnRecord(db.jobs, job.name), job.parentJob)), Done)
  }

  function DeleteJob(db: Db, name: string): (Db, Reply) {
    if name !in db.jobs then (db, Failed(NotFound))
    else if db.jobs[name].dependentJobs != [] then (db, Failed(HasDependentJobs))
    else (Db(Unlink(db.jobs - {name}, db.jobs[name].parentJob, name), Sweep(db.executions, name), db.stats),
          Deleted(db.jobs[name]))
  }

  // ----- Executions -----

  function Write(executions: map<string, Execution>, e: Execution): map<string, Execution> {
    var key := FullKey(e);
    if key in executions && executions[key].finishedAt > e.finishedAt then executions else executions[key := e]
  }

  /** Retention: all but the MAX_EXECUTIONS listed last by start time go. */
  function Prune(env: Env, executions: map<string, Execution>, jobName: string): map<string, Execution> {
    var order := env.byStart(Listing(executions, jobName));
    if |order| <= MAX_EXECUTIONS then executions
    else map k | k in executions && k !in order[..|order| - MAX_EXECUTIONS] :: executions[k]
  }

  /** Started and not finished. */
  predicate IsRunning(e: Execution) {
    e.startedAt != ZERO_TIME && e.finishedAt == ZERO_TIME
  }

  function SetExecution(env: Env, db: Db, e: Execution): (Db, Reply) {
    (db.(executions := Prune(env, Write(db.executions, e), e.jobName)), Saved(FullKey(e)))
  }

  // ----- Completions -----

  datatype Verdict = Ignored | Repeated | Counted

  /** Whether a completion is stale, a repetition of the last one recorded, or counted. */
  function Judge(db: Db, e: Execution): Verdict
    requires e.jobName in db.jobs
  {
    var key, job := FullKey(e), db.jobs[e.jobName];
    if key !in db.executions then Counted
    else
      var previous := db.executions[key];
      if previous.finishedAt > e.finishedAt then Ignored
      else if previous.finishedAt == e.finishedAt && previous.success == e.success
              && (if e.success then job.lastSuccess else job.lastError) == Some(e.finishedAt) then Repeated
      else Counted
  }

  predicate GroupHas(listing: map<string, Execution>, group: int, success: bool) {
    exists k | k in listing :: listing[k].group == group && listing[k].success == success
  }

  /** The status of a job after a completion of the given group. */
  function GroupStatus(listing: map<string, Execution>, group: int): string {
    if !GroupHas(listing, group, false) then STATUS_SUCCESS
    else if !GroupHas(listing, group, true) then STATUS_FAILED
    else STATUS_PARTIALLY_FAILED
  }

  function StatOn(stats: map<int, Stat>, day: int): Stat {
    if day in stats then stats[day] else Stat(0, 0)
  }

  function Bump(stats: map<int, Stat>, day: int, success: bool): map<int, Stat> {
    var stat := StatOn(stats, day);
    stats[day := if success then stat.(succeeded := stat.succeeded + 1) else stat.(failed := stat.failed + 1)]
  }

  function Credit(job: Job, e: Execution): Job {
    if e.success then job.(lastSuccess := Some(e.finishedAt), successCount := Wrap32(job.successCount + 1))
    else job.(lastError := Some(e.finishedAt), errorCount := Wrap32(job.errorCount + 1))
  }

  function ExecutionDone(db: Db, e: Execution): (Db, Reply) {
    if e.jobName !in db.jobs then (db, Failed(DoneForDeletedJob))
    else
      match Judge(db, e)
      case Ignored => (db, Recorded(false))
      case Repeated => (db.(executions := db.executions[FullKey(e) := e]), Recorded(false))
      case Counted =>
        var executions := db.executions[FullKey(e) := e];
        var status := GroupStatus(Listing(executions, e.jobName), e.group);
        (Db(db.jobs[e.jobName := Credit(db.jobs[e.jobName], e).(status := status)],
            executions,
            Bump(db.stats, DayOf(e.finishedAt), e.success)),
         Recorded(true))
  }

  function DeleteExecutions(db: Db, name: string): (Db, Reply) {
    if name !in db.jobs then (db, Failed(NotFound))
    else
      var job := db.jobs[name].(successCount := 0, errorCount := 0, lastSuccess := None, lastError := None);
      (Db(db.jobs[name := job], Sweep(db.executions, name), db.stats), Updated(job))
  }

  // ----- The log -----

  function Step(env: Env, clock: Clock, db: Db, command: Command): (Db, Reply) {
    match command
    case SetJobCommand(job) => SetJob(env, clock, db, job, true)
    case DeleteJobCommand(name) => DeleteJob(db, name)
    case SetExecutionCommand(e) => SetExecution(env, db, e)
    case ExecutionDoneCommand(e) => ExecutionDone(db, e)
    case DeleteExecutionsCommand(name) => DeleteExecutions(db, name)
  }

  /** The state after a log, under the clock that the replica read at each entry. */
  function Run(env: Env, clock: nat -> Clock, db: Db, log: seq<Command>): Db {
    if log == [] then db
    else
      var n := |log| - 1;
      Step(env, clock(n), Run(env, clock, db, log[..n]), log[n]).0
  }

  // ----- Invariants -----

  /** Stored jobs carry their own name, are acceptable, and name stored parents. */
  ghost predicate JobsSound(env: Env, jobs: map<string, Job>) {
    forall n | n in jobs ::
      && jobs[n].name == n
      && Valid(env, jobs[n])
      && (jobs[n].parentJob != "" ==> jobs[n].parentJob in jobs)
  }

  ghost predicate Sound(env: Env, db: Db) {
    JobsSound(env, db.jobs) && KeysMatch(db.executions)
  }

  /** Every parent lists its children. */
  ghost predicate Linked(env: Env, db: Db) {
    && Sound(env, db)
    && forall n | n in db.jobs && db.jobs[n].parentJob != "" ::
         n in db.jobs[db.jobs[n].parentJob].dependentJobs
  }

  predicate IsChild(jobs: map<string, Job>, child: string, parent: string) {
    child in jobs && jobs[child].parentJob == parent
  }

  ghost predicate ListExact(jobs: map<string, Job>, p: string)
    requires p in jobs
  {
    && Distinct(jobs[p].dependentJobs)
    && forall c :: c in jobs[p].dependentJobs <==> IsChild(jobs, c, p)
  }

  ghost predicate ListsExact(jobs: map<string, Job>) {
    forall p | p in jobs :: ListExact(jobs, p)
  }

  /** Every job lists exactly its children, each once. */
  ghost predicate Exact(env: Env, db: Db) {
    Sound(env, db) && ListsExact(db.jobs)
  }
}
