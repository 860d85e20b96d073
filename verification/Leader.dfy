/** The leader's request handlers over the store and the scheduler: while the scheduler runs it is an
    index of the stored jobs. */
module Leader {
  import opened Wrappers
  import opened Types
  import opened ScheduleHash
  import opened StoreSpec
  import opened Links
  import opened Completions
  import opened JobStore
  import opened Scheduling

  /** The leader's state as a value. */
  datatype LeaderView = LeaderView(db: Db, started: bool, index: map<string, string>)

  datatype Operation =
    | Establish(orphans: seq<Execution>)                        // the stale executions marked done on the way
    | Revoke
    | SetJobRequest(job: Job, committed: bool, clock: Clock)    // committed: Raft took the command
    | DeleteJobRequest(name: string, committed: bool)
    | RunRequest(name: string, next: Time, committed: bool, clock: Clock)
    | Replicated(command: Command, clock: Clock)                // a command that another handler or leader issued

  /** What the scheduler should hold for the stored jobs. */
  function Expected(jobs: map<string, Job>): map<string, string> {
    map n | n in jobs && Schedulable(jobs[n]) :: CronSpec(jobs[n])
  }

  predicate InSync(v: LeaderView) {
    v.started ==> v.index == Expected(v.db.jobs)
  }

  /** An entry for each stored job that is enabled and has no parent, with the job's spec, and no other. */
  ghost predicate Holds(v: LeaderView) {
    forall n :: (n in v.index <==> n in v.db.jobs && v.db.jobs[n].disabled == false && v.db.jobs[n].parentJob == "")
                && (n in v.index ==> v.index[n] == CronSpec(v.db.jobs[n]))
  }

  lemma InSyncHolds(v: LeaderView)
    requires InSync(v)
    ensures v.started ==> Holds(v)
  {
  }

  // ----- The handlers as functions -----

  /** applySetJob turns these two replies into errors and no others. */
  predicate Refused(reply: Reply) {
    reply == Failed(ParentNotFound) || reply == Failed(SameParent)
  }

  function AfterSetJob(env: Env, v: LeaderView, job: Job, committed: bool, clock: Clock): LeaderView {
    if !committed then v
    else
      var (db, reply) := StoreSpec.SetJob(env, clock, v.db, job, true);
      if Refused(reply) then v.(db := db) else v.(db := db, index := AfterAdd(env, v.index, job))
  }

  function AfterDeleteJob(v: LeaderView, name: string, committed: bool): LeaderView {
    if !committed then v
    else
      var (db, reply) := StoreSpec.DeleteJob(v.db, name);
      if reply.Deleted? then v.(db := db, index := v.index - {reply.job.name}) else v.(db := db)
  }

  /** Run refreshes the next run time of a parentless job that has a cron entry. */
  function AfterRun(env: Env, v: LeaderView, name: string, next: Time, committed: bool, clock: Clock): LeaderView {
    if !committed || name !in v.db.jobs || v.db.jobs[name].parentJob != "" || name !in v.index then v
    else v.(db := StoreSpec.SetJob(env, clock, v.db, v.db.jobs[name].(next := next), true).0)
  }

  function AfterEstablish(env: Env, v: LeaderView, orphans: seq<Execution>, list: seq<Job>): LeaderView {
    var cleaned := v.(db := DoneAll(v.db, orphans));
    if v.started then cleaned
    else
      var (index, ok) := Filled(env, list, |list|);
      cleaned.(started := ok, index := index)
  }

  /** One operation; the list is the order in which the store returns the jobs that Start adds. */
  function LeaderStep(env: Env, v: LeaderView, op: Operation, list: seq<Job>): LeaderView {
    match op
    case Establish(orphans) => AfterEstablish(env, v, orphans, list)
    case Revoke => v.(started := false)
    case SetJobRequest(job, committed, clock) => AfterSetJob(env, v, job, committed, clock)
    case DeleteJobRequest(name, committed) => AfterDeleteJob(v, name, committed)
    case RunRequest(name, next, committed, clock) => AfterRun(env, v, name, next, committed, clock)
    case Replicated(command, clock) => v.(db := Step(env, clock, v.db, command).0)
  }

  /** Requests carry validated jobs; jobs written by another leader arrive only while this node does
      not schedule. */
  ghost predicate Admissible(env: Env, v: LeaderView, op: Operation, list: seq<Job>) {
    match op
    case Establish(_) => IsJobList(list, v.db.jobs)
    case SetJobRequest(job, _, _) => Valid(env, job)
    case Replicated(command, _) => OnExecutions(command) || !v.started
    case _ => true
  }

  // ----- The scheduler as an index -----

  lemma ValidJobSchedules(env: Env, job: Job)
    requires AcceptsZones(env) && Valid(env, job)
    ensures !AddFails(env, job)
  {
    var spec := Hashed(job.schedule, job.name);
    assert Schedulable(job) ==> env.parses(spec) && env.zoneKnown(job.timezone);
  }

  lemma {:induction false} FilledAt(env: Env, list: seq<Job>, k: nat, i: nat)
    requires i < k <= |list| && AllAddable(env, list)
    requires forall i, j | 0 <= i < j < |list| :: list[i].name != list[j].name
    ensures Filled(env, list, k).1
    ensures var filled, job := Filled(env, list, k).0, list[i];
            if Schedulable(job) then job.name in filled && filled[job.name] == CronSpec(job) else job.name !in filled
  {
    if i < k - 1 {
      FilledAt(env, list, k - 1, i);
    } else if k > 1 {
      FilledAt(env, list, k - 1, 0);
    }
  }

  lemma {:induction false} FilledOnly(env: Env, list: seq<Job>, k: nat, n: string)
    requires k <= |list| && n in Filled(env, list, k).0
    ensures exists i :: 0 <= i < k && list[i].name == n
  {
    if list[k - 1].name != n {
      FilledOnly(env, list, k - 1, n);
    }
  }

  lemma EstablishedInSync(env: Env, jobs: map<string, Job>, list: seq<Job>)
    requires AcceptsZones(env) && JobsSound(env, jobs) && IsJobList(list, jobs)
    ensures AllAddable(env, list)
    ensures Filled(env, list, |list|) == (Expected(jobs), true)
    ensures forall n :: n in Filled(env, list, |list|).0 <==>
                        n in jobs && jobs[n].disabled == false && jobs[n].parentJob == ""
  {
    forall i | 0 <= i < |list| ensures !AddFails(env, list[i]) {
      ValidJobSchedules(env, list[i]);
    }
    FilledIsExpected(env, jobs, list);
  }

  /** Establishing leaves the scheduler started, and with the entries of the stored jobs if it was not. */
  lemma EstablishStarts(env: Env, v: LeaderView, orphans: seq<Execution>, list: seq<Job>)
    requires AcceptsZones(env) && Linked(env, v.db) && IsJobList(list, v.db.jobs)
    ensures var after := AfterEstablish(env, v, orphans, list);
            && after.started && after.db == DoneAll(v.db, orphans)
            && if v.started then after.index == v.index else Holds(after)
  {
    OrphansKeepLinks(env, v.db, orphans);
    SameLinksExpected(v.db.jobs, DoneAll(v.db, orphans).jobs);
    EstablishedInSync(env, v.db.jobs, list);
  }

  lemma FilledIsExpected(env: Env, jobs: map<string, Job>, list: seq<Job>)
    requires IsJobList(list, jobs) && AllAddable(env, list)
    requires forall n | n in jobs :: jobs[n].name == n
    ensures Filled(env, list, |list|) == (Expected(jobs), true)
  {
    var filled := Filled(env, list, |list|).0;
    forall n
      ensures n in filled <==> n in Expected(jobs)
      ensures n in filled ==> filled[n] == Expected(jobs)[n]
    {
      FilledIsExpectedAt(env, jobs, list, n);
    }
    MapsEqual(filled, Expected(jobs));
    FilledWell(env, list);
  }

  lemma FilledWell(env: Env, list: seq<Job>)
    requires AllAddable(env, list)
    requires forall i, j | 0 <= i < j < |list| :: list[i].name != list[j].name
    ensures Filled(env, list, |list|).1
  {
    if list != [] {
      FilledAt(env, list, |list|, 0);
    }
  }

  lemma MapsEqual(a: map<string, string>, b: map<string, string>)
    requires forall n :: n in a <==> n in b
    requires forall n | n in a :: a[n] == b[n]
    ensures a == b
  {
  }

  lemma FilledIsExpectedAt(env: Env, jobs: map<string, Job>, list: seq<Job>, n: string)
    requires IsJobList(list, jobs) && AllAddable(env, list)
    requires forall n | n in jobs :: jobs[n].name == n
    ensures n in Filled(env, list, |list|).0 <==> n in Expected(jobs)
    ensures n in Expected(jobs) ==> Filled(env, list, |list|).0[n] == Expected(jobs)[n]
  {
    if n in jobs {
      var i :| 0 <= i < |list| && list[i] == jobs[n];
      FilledAt(env, list, |list|, i);
    } else if n in Filled(env, list, |list|).0 {
      FilledOnly(env, list, |list|, n);
    }
  }

  /** Only links and settings matter to the scheduler. */
  lemma SameLinksExpected(jobs: map<string, Job>, after: map<string, Job>)
    requires SameLinks(jobs, after)
    ensures Expected(after) == Expected(jobs)
  {
  }

  lemma SameLinksTransitive(a: map<string, Job>, b: map<string, Job>, c: map<string, Job>)
    requires SameLinks(a, b) && SameLinks(b, c)
    ensures SameLinks(a, c)
  {
  }

  lemma OrphansKeepLinks(env: Env, db: Db, orphans: seq<Execution>)
    requires Linked(env, db)
    ensures SameLinks(db.jobs, DoneAll(db, orphans).jobs) && Linked(env, DoneAll(db, orphans))
  {
    var good := LinkedLike(env, db.jobs);
    forall d: Db, e | good(d) ensures good(ExecutionDone(d, e).0) {
      CompletionKeepsLinks(d, e);
      SameLinksTransitive(db.jobs, d.jobs, ExecutionDone(d, e).0.jobs);
      CompletionLinked(env, d, e);
    }
    DoneAllKeeps(good, db, orphans);
  }

  ghost function LinkedLike(env: Env, jobs: map<string, Job>): Db -> bool {
    (d: Db) => SameLinks(jobs, d.jobs) && Linked(env, d)
  }

  lemma CompletionLinked(env: Env, db: Db, e: Execution)
    requires Linked(env, db)
    ensures Linked(env, ExecutionDone(db, e).0)
  {
    assert Step(env, Clock(0, 0), db, ExecutionDoneCommand(e)) == ExecutionDone(db, e);
    StepLinked(env, Clock(0, 0), db, ExecutionDoneCommand(e));
  }

  lemma {:induction false} DoneAllKeeps(good: Db -> bool, db: Db, es: seq<Execution>)
    requires good(db) && forall d, e {:trigger ExecutionDone(d, e)} :: good(d) ==> good(ExecutionDone(d, e).0)
    ensures good(DoneAll(db, es))
  {
    if es != [] {
      DoneAllKeeps(good, db, es[..|es| - 1]);
    }
  }

  /** An accepted SetJob changes, for the scheduler, the entry of its job and no other. */
  lemma SetJobExpected(env: Env, clock: Clock, db: Db, job: Job)
    requires AcceptsZones(env) && Accepted(env, db, job)
    ensures Expected(StoreSpec.SetJob(env, clock, db, job, true).0.jobs) == AfterAdd(env, Expected(db.jobs), job)
  {
    AcceptedSetJob(env, clock, db, job);
    MergedKeepsSettings(env, clock, Stored(db.jobs, job.name), job, true);
    ValidJobSchedules(env, job);
    var merged := Merged(env, clock, Stored(db.jobs, job.name), job, true).value;
    StoredExpected(db.jobs, job, merged);
  }

  lemma StoredExpected(jobs: map<string, Job>, job: Job, merged: Job)
    requires merged.name == job.name && merged.schedule == job.schedule && merged.timezone == job.timezone
    requires merged.parentJob == job.parentJob && merged.disabled == job.disabled
    ensures var after := Relinked(jobs[job.name := merged], job.name, ParentOnRecord(jobs, job.name), job.parentJob);
            Expected(after) ==
            if Schedulable(job) then Expected(jobs)[job.name := CronSpec(job)] else Expected(jobs) - {job.name}
  {
    var stored := jobs[job.name := merged];
    RelinkedRest(stored, job.name, ParentOnRecord(jobs, job.name), job.parentJob);
    ListsUnseen(stored, Relinked(stored, job.name, ParentOnRecord(jobs, job.name), job.parentJob));
    PutExpected(jobs, job, merged);
  }

  lemma PutExpected(jobs: map<string, Job>, job: Job, merged: Job)
    requires merged.name == job.name && merged.schedule == job.schedule && merged.timezone == job.timezone
    requires merged.parentJob == job.parentJob && merged.disabled == job.disabled
    ensures Expected(jobs[job.name := merged]) ==
            if Schedulable(job) then Expected(jobs)[job.name := CronSpec(job)] else Expected(jobs) - {job.name}
  {
    assert Schedulable(merged) == Schedulable(job) && CronSpec(merged) == CronSpec(job);
  }

  /** The scheduler does not look at lists of children. */
  lemma ListsUnseen(jobs: map<string, Job>, after: map<string, Job>)
    requires after.Keys == jobs.Keys
    requires forall n | n in jobs :: after[n] == jobs[n].(dependentJobs := after[n].dependentJobs)
    ensures Expected(after) == Expected(jobs)
  {
    forall n | n in jobs
      ensures Schedulable(after[n]) == Schedulable(jobs[n]) && CronSpec(after[n]) == CronSpec(jobs[n])
    {
    }
  }

  lemma DeleteJobExpected(db: Db, name: string)
    requires name in db.jobs && db.jobs[name].dependentJobs == []
    ensures Expected(StoreSpec.DeleteJob(db, name).0.jobs) == Expected(db.jobs) - {name}
  {
  }

  // ----- Every run -----

  lemma StepInSync(env: Env, v: LeaderView, op: Operation, list: seq<Job>)
    requires AcceptsZones(env) && Linked(env, v.db) && InSync(v) && Admissible(env, v, op, list)
    ensures var after := LeaderStep(env, v, op, list);
            && Linked(env, after.db) && InSync(after)
            && after.started == (op.Establish? || (v.started && !op.Revoke?))
  {
    match op
    case Establish(orphans) =>
      OrphansKeepLinks(env, v.db, orphans);
      SameLinksExpected(v.db.jobs, DoneAll(v.db, orphans).jobs);
      EstablishedInSync(env, v.db.jobs, list);
    case Revoke =>
    case SetJobRequest(job, committed, clock) =>
      SetJobInSync(env, v, job, committed, clock);
    case DeleteJobRequest(name, committed) =>
      DeleteJobLinked(env, v.db, name);
      if name in v.db.jobs && v.db.jobs[name].dependentJobs == [] {
        DeleteJobExpected(v.db, name);
      }
    case RunRequest(name, next, committed, clock) =>
      RunInSync(env, v, name, next, committed, clock);
    case Replicated(command, clock) =>
      StepLinked(env, clock, v.db, command);
      if OnExecutions(command) {
        ExecutionCommandsKeepLinks(env, clock, v.db, command);
        SameLinksExpected(v.db.jobs, Step(env, clock, v.db, command).0.jobs);
      }
  }

  lemma SetJobInSync(env: Env, v: LeaderView, job: Job, committed: bool, clock: Clock)
    requires AcceptsZones(env) && Linked(env, v.db) && InSync(v) && Valid(env, job)
    ensures var after := AfterSetJob(env, v, job, committed, clock);
            Linked(env, after.db) && InSync(after)
  {
    SetJobLinked(env, clock, v.db, job);
    if Accepted(env, v.db, job) {
      AcceptedSetJob(env, clock, v.db, job);
      SetJobExpected(env, clock, v.db, job);
    } else {
      assert StoreSpec.SetJob(env, clock, v.db, job, true) == (v.db, Failed(ParentNotFound));
    }
  }

  lemma RunInSync(env: Env, v: LeaderView, name: string, next: Time, committed: bool, clock: Clock)
    requires AcceptsZones(env) && Linked(env, v.db) && InSync(v)
    ensures var after := AfterRun(env, v, name, next, committed, clock);
            Linked(env, after.db) && InSync(after)
  {
    if name in v.db.jobs && v.db.jobs[name].parentJob == "" && name in v.index {
      var job := v.db.jobs[name].(next := next);
      NextKeepsSettings(env, v.db.jobs[name], next);
      SetJobLinked(env, clock, v.db, job);
      if v.started {
        SetJobExpected(env, clock, v.db, job);
        SameEntry(env, v.db.jobs, job);
      }
    }
  }

  lemma NextKeepsSettings(env: Env, job: Job, next: Time)
    ensures Validate(env, job.(next := next)) == Validate(env, job)
  {
  }

  /** Adding again what is there changes nothing. */
  lemma SameEntry(env: Env, jobs: map<string, Job>, job: Job)
    requires AcceptsZones(env) && Valid(env, job) && job.name in Expected(jobs)
    requires job.name in jobs && jobs[job.name].name == job.name
    requires CronSpec(job) == CronSpec(jobs[job.name]) && Schedulable(job) == Schedulable(jobs[job.name])
    ensures AfterAdd(env, Expected(jobs), job) == Expected(jobs)
  {
    ValidJobSchedules(env, job);
  }

  /** A run of operations, each admissible where it happens. */
  ghost predicate IsRun(env: Env, vs: seq<LeaderView>, ops: seq<Operation>, lists: seq<seq<Job>>) {
    && |vs| == |ops| + 1 && |lists| == |ops|
    && forall i | 0 <= i < |ops| ::
         Admissible(env, vs[i], ops[i], lists[i]) && vs[i + 1] == LeaderStep(env, vs[i], ops[i], lists[i])
  }

  /** Over every run, rejected requests included, a started scheduler holds exactly one entry per
      enabled parentless stored job, with the spec of that job, and no other entry. */
  lemma {:induction false} RunStaysInSync(env: Env, vs: seq<LeaderView>, ops: seq<Operation>, lists: seq<seq<Job>>)
    requires AcceptsZones(env) && IsRun(env, vs, ops, lists)
    requires Linked(env, vs[0].db) && InSync(vs[0])
    ensures forall i | 0 <= i < |vs| :: Linked(env, vs[i].db) && InSync(vs[i]) && (vs[i].started ==> Holds(vs[i]))
  {
    for k := 0 to |ops|
      invariant forall i | 0 <= i <= k :: Linked(env, vs[i].db) && InSync(vs[i])
    {
      StepInSync(env, vs[k], ops[k], lists[k]);
    }
    forall i | 0 <= i < |vs| ensures vs[i].started ==> Holds(vs[i]) {
      InSyncHolds(vs[i]);
    }
  }

  /** Without validation the claim fails: SetJob rejects a job with an unknown concurrency policy, and
      the handler schedules it all the same. */
  lemma InvalidJobScheduled(env: Env, v: LeaderView, job: Job, clock: Clock)
    requires AcceptsZones(env) && v.started && InSync(v)
    requires Validate(env, job) == Some(WrongConcurrency) && Schedulable(job) && job.name !in v.db.jobs
    requires job.timezone == ""
    ensures var after := AfterSetJob(env, v, job, true, clock);
            after.db == v.db && job.name in after.index && !InSync(after)
  {
  }

  /** For a job that Validate refuses, the handler keeps the index in step exactly when the refusal is
      the one about a job being its own parent, or the entry it leaves for the name is the one it found. */
  lemma InvalidSetJobInSyncIff(env: Env, v: LeaderView, job: Job, clock: Clock)
    requires v.started && InSync(v) && !Valid(env, job)
    ensures InSync(AfterSetJob(env, v, job, true, clock)) <==>
            || Validate(env, job) == Some(SameParent)
            || (if Schedulable(job) && !AddFails(env, job)
                then job.name in v.index && v.index[job.name] == CronSpec(job)
                else job.name !in v.index)
  {
    var index := AfterAdd(env, v.index, job);
    if Schedulable(job) && !AddFails(env, job) {
      if index == v.index {
        assert index[job.name] == CronSpec(job);
      }
      assert job.name in v.index && v.index[job.name] == CronSpec(job) ==> index == v.index;
    } else {
      assert job.name !in index;
      assert job.name !in v.index ==> index == v.index;
    }
  }
}
