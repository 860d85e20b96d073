/** The store object: its transactions, loops and recursive parent updates, each proved against the
    effect that StoreSpec gives the same command. */
module JobStore {
  import opened Wrappers
  import opened Types
  import opened Keys
  import opened StoreSpec
  import opened Links
  import Completions

  lemma OrderedKeys(env: Env, executions: map<string, Execution>, jobName: string)
    requires ValidEnv(env) && KeysMatch(executions)
    ensures var listing := Listing(executions, jobName);
            var execs := env.byStart(listing);
            forall i | 0 <= i < |execs| :: execs[i] in listing && FullKey(listing[execs[i]]) == execs[i]
  {
    var listing := Listing(executions, jobName);
    var execs := env.byStart(listing);
    assert SortedByStart(execs, listing);
    forall i | 0 <= i < |execs|
      ensures execs[i] in listing && FullKey(listing[execs[i]]) == execs[i]
    {
      assert execs[i] in execs;
    }
  }

  lemma WrittenKeysMatch(executions: map<string, Execution>, e: Execution)
    requires KeysMatch(executions)
    ensures KeysMatch(Write(executions, e))
  {
  }

  class Store {
    const env: Env
    var jobs: map<string, Job>
    var executions: map<string, Execution>
    var stats: map<int, Stat>

    ghost function View(): Db
      reads this
    {
      Db(jobs, executions, stats)
    }

    constructor (env: Env)
      ensures View() == EMPTY && this.env == env
    {
      this.env := env;
      jobs, executions, stats := map[], map[], map[];
    }

    // ----- Jobs -----

    method GetJob(name: string) returns (job: Option<Job>)
      ensures job == Stored(jobs, name)
    {
      job := if name in jobs then Some(jobs[name]) else None;
    }

    /** What runs have recorded on the stored job survives, and the settings are the given ones. */
    static method KeepProgress(ej: Job, given: Job, copyDependentJobs: bool) returns (job: Job)
      ensures job == Progressed(ej, given, copyDependentJobs) && ProgressKept(ej, given, copyDependentJobs, job)
    {
      var lastError, lastSuccess := given.lastError, given.lastSuccess;
      var successCount, errorCount := given.successCount, given.errorCount;
      var dependentJobs, status := given.dependentJobs, given.status;
      if After(ej.lastError, lastError) {
        lastError := ej.lastError;
      }
      if After(ej.lastSuccess, lastSuccess) {
        lastSuccess := ej.lastSuccess;
      }
      if ej.successCount > successCount {
        successCount := ej.successCount;
      }
      if ej.errorCount > errorCount {
        errorCount := ej.errorCount;
      }
      if |ej.dependentJobs| != 0 && copyDependentJobs {
        dependentJobs := ej.dependentJobs;
      }
      if ej.status != "" {
        status := ej.status;
      }
      job := given.(lastError := lastError, lastSuccess := lastSuccess, successCount := successCount,
                    errorCount := errorCount, dependentJobs := dependentJobs, status := status);
      ProgressIsKept(ej, given, copyDependentJobs);
    }

    /** The part of the transaction that decides on the next run, on the job with its progress kept. */
    static method SetNext(env: Env, before: Option<Job>, job: Job, clock: Clock) returns (updated: Option<Job>)
      ensures updated == Rescheduled(env, clock, before, job)
    {
      var schedule, next := "", EPOCH;
      if before.Some? {
        schedule, next := before.value.schedule, before.value.next;
      }
      updated := Some(job);
      if job.schedule != schedule {
        var computed := GetNext(env, clock, job);
        if computed.None? {
          return None;
        }
        updated := Some(job.(next := computed.value));
      } else if job.next < next {
        updated := Some(job.(next := next));
      }
    }

    /** The read-merge-write transaction of SetJob; a failure leaves the database alone. */
    method SetJobTx(given: Job, copyDependentJobs: bool, clock: Clock) returns (before: Option<Job>, err: Option<Error>)
      modifies this`jobs
      ensures before == Stored(old(jobs), given.name)
      ensures var merged := Merged(env, clock, before, given, copyDependentJobs);
              if merged.Some? then err == None && jobs == old(jobs)[given.name := merged.value]
              else err == Some(ScheduleParse) && jobs == old(jobs)
      ensures err == None ==>
                given.name in jobs && NextRunFits(env, clock, before, given, jobs[given.name].next)
    {
      var job := given;
      before := GetJob(job.name);
      if before.Some? {
        job := KeepProgress(before.value, job, copyDependentJobs);
      }
      MergedFits(env, clock, before, given, copyDependentJobs);
      var updated := SetNext(env, before, job, clock);
      if updated.None? {
        return before, Some(ScheduleParse);
      }
      jobs := jobs[job.name := updated.value];
      err := None;
    }

    /** The nested call that a parent update makes finds the parent's own parent unchanged, so the
        recursion stops there: the measure allows one level and no more. */
    method SetJob(job: Job, copyDependentJobs: bool, clock: Clock) returns (err: Option<Error>)
      requires Sound(env, View())
      modifies this`jobs
      ensures (View(), if err.Some? then Failed(err.value) else Done)
              == StoreSpec.SetJob(env, clock, old(View()), job, copyDependentJobs)
      ensures Sound(env, View())
      decreases if ParentOnRecord(jobs, job.name) == job.parentJob then 0 else 1, 2
    {
      SetJobSound(env, clock, View(), job, copyDependentJobs);
      err := Validate(env, job);
      if err.Some? {
        return;
      }
      if job.parentJob != "" {
        var parent := GetJob(job.parentJob);
        if parent.None? {
          return Some(ParentNotFound);
        }
      }
      StoredSound(env, clock, jobs, job, copyDependentJobs);
      var before;
      before, err := SetJobTx(job, copyDependentJobs, clock);
      if err.Some? {
        return;
      }
      if job.parentJob != (if before.Some? then before.value.parentJob else "") {
        err := ChangeParent(before, job, clock);
      }
    }

    /** The part of SetJob that moves the stored job between the lists of its old and its new parent. */
    method ChangeParent(before: Option<Job>, job: Job, clock: Clock) returns (err: Option<Error>)
      requires Sound(env, View())
      requires before.Some? ==> before.value.name == job.name
      requires before.Some? && before.value.parentJob != "" ==>
                 before.value.parentJob in jobs && before.value.parentJob != job.name
      requires job.parentJob != "" ==> job.parentJob in jobs && job.parentJob != job.name
      requires job.parentJob != if before.Some? then before.value.parentJob else ""
      modifies this`jobs
      ensures err == None && Sound(env, View())
      ensures jobs == Relinked(old(jobs), job.name, if before.Some? then before.value.parentJob else "", job.parentJob)
      decreases 1, 1
    {
      err := RemoveFromParent(before, clock);
      if err.Some? {
        return;
      }
      err := AddToParent(job, clock);
    }

    static method RemoveAll(names: seq<string>, name: string) returns (djs: seq<string>)
      ensures djs == Without(names, name)
    {
      djs := [];
      for i := 0 to |names|
        invariant djs == Without(names[..i], name)
      {
        WithoutAppended(names[..i], names[i], name);
        assert names[..i + 1] == names[..i] + [names[i]];
        if names[i] != name {
          djs := djs + [names[i]];
        }
      }
      assert names[..|names|] == names;
    }

    /** Removes every occurrence of the child from the list of its parent. */
    method RemoveFromParent(child: Option<Job>, clock: Clock) returns (err: Option<Error>)
      requires Sound(env, View())
      requires child.Some? && child.value.parentJob != "" ==>
                 child.value.parentJob in jobs && child.value.parentJob != child.value.name
      modifies this`jobs
      ensures err == None && Sound(env, View())
      ensures child.None? ==> jobs == old(jobs)
      ensures child.Some? ==> jobs == Unlink(old(jobs), child.value.parentJob, child.value.name)
      decreases 1, 0
    {
      if child.None? || child.value.parentJob == "" {
        return None;
      }
      var parent;
      parent, err := GetParent(child.value);
      if err.Some? {
        return;
      }
      var djs := RemoveAll(parent.dependentJobs, child.value.name);
      NestedSetJob(env, clock, View(), child.value.parentJob, djs);
      err := SetJob(parent.(dependentJobs := djs), false, clock);
    }

    method AddToParent(child: Job, clock: Clock) returns (err: Option<Error>)
      requires Sound(env, View())
      requires child.parentJob != "" ==> child.parentJob in jobs && child.parentJob != child.name
      modifies this`jobs
      ensures err == None && Sound(env, View())
      ensures jobs == Link(old(jobs), child.parentJob, child.name)
      decreases 1, 0
    {
      if child.parentJob == "" {
        return None;
      }
      var parent;
      parent, err := GetParent(child);
      if err.Some? {
        return;
      }
      NestedSetJob(env, clock, View(), child.parentJob, parent.dependentJobs + [child.name]);
      err := SetJob(parent.(dependentJobs := parent.dependentJobs + [child.name]), false, clock);
    }

    method GetParent(child: Job) returns (parent: Job, err: Option<Error>)
      ensures err == if child.parentJob == child.name then Some(SameParent)
                     else if child.parentJob == "" then Some(NoParent)
                     else if child.parentJob !in jobs then Some(ParentNotFound)
                     else None
      ensures err.None? ==> parent == jobs[child.parentJob]
    {
      parent := child;
      if child.name == child.parentJob {
        return child, Some(SameParent);
      }
      if child.parentJob == "" {
        return child, Some(NoParent);
      }
      var found := GetJob(child.parentJob);
      if found.None? {
        return child, Some(ParentNotFound);
      }
      return found.value, None;
    }

    method DeleteJob(name: string, clock: Clock) returns (job: Option<Job>, err: Option<Error>)
      requires Linked(env, View())
      modifies this
      ensures job.Some? <==> err.None?
      ensures err == if name !in old(jobs) then Some(NotFound)
                     else if old(jobs)[name].dependentJobs != [] then Some(HasDependentJobs)
                     else None
      ensures err == None ==> job == Some(old(jobs)[name]) && name !in jobs
      ensures (View(), if err.Some? then Failed(err.value) else Deleted(job.value))
              == StoreSpec.DeleteJob(old(View()), name)
      ensures Linked(env, View())
    {
      DeleteJobLinked(env, View(), name);
      job := GetJob(name);
      if job.None? {
        return None, Some(NotFound);
      }
      if |job.value.dependentJobs| > 0 {
        return None, Some(HasDependentJobs);
      }
      RemovedSound(env, View(), name);
      DeleteExecutionsTx(name);
      jobs := jobs - {name};
      if job.value.parentJob != "" {
        err := RemoveFromParent(job, clock);
        if err.Some? {
          return None, err;
        }
      }
      err := None;
    }

    /** All jobs, in the order of the name index. */
    method GetJobs() returns (list: seq<Job>)
      requires forall n | n in jobs :: jobs[n].name == n
      ensures IsJobList(list, jobs)
    {
      list := [];
      var rest := jobs.Keys;
      while rest != {}
        invariant rest <= jobs.Keys
        invariant IsJobList(list, jobs - rest)
        decreases |rest|
      {
        var n :| n in rest;
        JobListGrows(list, jobs - rest, jobs[n]);
        assert jobs - (rest - {n}) == (jobs - rest)[n := jobs[n]];
        rest := rest - {n};
        list := list + [jobs[n]];
      }
      assert jobs - rest == jobs;
    }

    // ----- Executions -----

    method DeleteExecutionsTx(jobName: string)
      modifies this`executions
      ensures executions == Sweep(old(executions), jobName)
    {
      var delkeys, rest := [], executions.Keys;
      while rest != {}
        invariant rest <= executions.Keys
        invariant forall k :: k in delkeys <==> k in executions && k !in rest && Swept(jobName, k)
        decreases |rest|
      {
        var k :| k in rest;
        rest := rest - {k};
        if Swept(jobName, k) {
          delkeys := delkeys + [k];
        }
      }
      for i := 0 to |delkeys|
        invariant executions == map k | k in old(executions) && k !in delkeys[..i] :: old(executions)[k]
      {
        executions := executions - {delkeys[i]};
        assert delkeys[..i + 1] == delkeys[..i] + [delkeys[i]];
      }
    }

    method ListExecutions(jobName: string) returns (listing: map<string, Execution>)
      ensures listing == Listing(executions, jobName)
    {
      listing := map[];
      var rest := executions.Keys;
      while rest != {}
        invariant rest <= executions.Keys
        invariant listing == map k | k in executions && k !in rest && Listed(jobName, k) :: executions[k]
        decreases |rest|
      {
        var k :| k in rest;
        rest := rest - {k};
        if Listed(jobName, k) {
          listing := listing[k := executions[k]];
        }
      }
    }

    method GetRunningExecutions(jobName: string) returns (running: map<string, Execution>)
      ensures running == map k | k in Listing(executions, jobName) && IsRunning(executions[k]) :: executions[k]
      ensures forall k :: k in running <==>
                && k in executions && Listed(jobName, k)
                && executions[k].startedAt != ZERO_TIME && executions[k].finishedAt == ZERO_TIME
    {
      var all := ListExecutions(jobName);
      running := map[];
      var rest := all.Keys;
      while rest != {}
        invariant rest <= all.Keys
        invariant running == map k | k in all && k !in rest && IsRunning(all[k]) :: all[k]
        decreases |rest|
      {
        var k :| k in rest;
        rest := rest - {k};
        if all[k].startedAt != ZERO_TIME && all[k].finishedAt == ZERO_TIME {
          running := running[k := all[k]];
        }
      }
    }

    method SetExecutionTx(key: string, e: Execution) returns (written: bool)
      requires key == FullKey(e)
      modifies this`executions
      ensures executions == Write(old(executions), e)
      ensures written <==> !(key in old(executions) && old(executions)[key].finishedAt > e.finishedAt)
      ensures executions == if written then old(executions)[key := e] else old(executions)
    {
      if key in executions {
        var p := executions[key];
        if p.finishedAt > e.finishedAt {
          return false;
        }
      }
      executions := executions[key := e];
      written := true;
    }

    method SetExecution(e: Execution) returns (key: string)
      requires ValidEnv(env) && KeysMatch(executions)
      modifies this`executions
      ensures executions == Prune(env, Write(old(executions), e), e.jobName)
      ensures key == FullKey(e)
    {
      key := FullKey(e);
      WrittenKeysMatch(executions, e);
      var _ := SetExecutionTx(key, e);
      var listing := ListExecutions(e.jobName);
      var execs := env.byStart(listing);
      OrderedKeys(env, executions, e.jobName);
      if |execs| > MAX_EXECUTIONS {
        DeleteOverflow(execs, listing);
      }
    }

    method DeleteOverflow(execs: seq<string>, listing: map<string, Execution>)
      requires |execs| > MAX_EXECUTIONS
      requires forall i | 0 <= i < |execs| :: execs[i] in listing && FullKey(listing[execs[i]]) == execs[i]
      modifies this`executions
      ensures executions ==
              map k | k in old(executions) && k !in execs[..|execs| - MAX_EXECUTIONS] :: old(executions)[k]
    {
      for i := 0 to |execs| - MAX_EXECUTIONS
        invariant executions == map k | k in old(executions) && k !in execs[..i] :: old(executions)[k]
      {
        executions := executions - {FullKey(listing[execs[i]])};
        assert execs[..i + 1] == execs[..i] + [execs[i]];
      }
    }

    method ComputeStatus(jobName: string, group: int) returns (status: string)
      ensures status == GroupStatus(Listing(executions, jobName), group)
      ensures Completions.Shows(View(), jobName, group, status)
    {
      Completions.GroupShows(View(), jobName, group);
      var listing := ListExecutions(jobName);
      var success, failed := 0, 0;
      var rest := listing.Keys;
      while rest != {}
        invariant rest <= listing.Keys && success >= 0 && failed >= 0
        invariant success > 0 <==> exists k | k in listing && k !in rest ::
                    listing[k].group == group && listing[k].success
        invariant failed > 0 <==> exists k | k in listing && k !in rest ::
                    listing[k].group == group && !listing[k].success
        decreases |rest|
      {
        var k :| k in rest;
        rest := rest - {k};
        if listing[k].group == group {
          if listing[k].success {
            success := success + 1;
          } else {
            failed := failed + 1;
          }
        }
      }
      if failed == 0 {
        status := STATUS_SUCCESS;
      } else if failed > 0 && success == 0 {
        status := STATUS_FAILED;
      } else {
        status := STATUS_PARTIALLY_FAILED;
      }
    }

    method IncrementStat(date: Time, success: bool)
      modifies this`stats
      ensures stats == Bump(old(stats), DayOf(date), success)
      ensures forall day :: StatOn(stats, day) ==
                var stat := StatOn(old(stats), day);
                if day != DayOf(date) then stat
                else if success then Stat(stat.succeeded + 1, stat.failed) else Stat(stat.succeeded, stat.failed + 1)
    {
      var day := DayOf(date);
      var stat := Stat(0, 0);
      if day in stats {
        stat := stats[day];
      }
      if success {
        stat := stat.(succeeded := stat.succeeded + 1);
      } else {
        stat := stat.(failed := stat.failed + 1);
      }
      stats := stats[day := stat];
    }

    method SetExecutionDone(e: Execution) returns (counted: bool, err: Option<Error>)
      modifies this
      ensures (View(), if err.Some? then Failed(err.value) else Recorded(counted)) == ExecutionDone(old(View()), e)
      ensures err == if e.jobName in old(jobs) then None else Some(DoneForDeletedJob)
    {
      counted, err := false, None;
      if e.jobName !in jobs {
        return false, Some(DoneForDeletedJob);
      }
      var job, key := jobs[e.jobName], FullKey(e);
      var shouldCount := true;
      if key in executions {
        var previous := executions[key];
        if previous.finishedAt > e.finishedAt {
          return;
        }
        if previous.finishedAt == e.finishedAt && previous.success == e.success {
          if e.success {
            shouldCount := job.lastSuccess.None? || job.lastSuccess.value != e.finishedAt;
          } else {
            shouldCount := job.lastError.None? || job.lastError.value != e.finishedAt;
          }
        }
      }
      var _ := SetExecutionTx(key, e);
      if !shouldCount {
        return;
      }
      counted := true;
      if e.success {
        job := job.(lastSuccess := Some(e.finishedAt), successCount := Wrap32(job.successCount + 1));
      } else {
        job := job.(lastError := Some(e.finishedAt), errorCount := Wrap32(job.errorCount + 1));
      }
      var status := ComputeStatus(e.jobName, e.group);
      jobs := jobs[e.jobName := job.(status := status)];
      IncrementStat(e.finishedAt, e.success);
    }

    /** One transaction: without a job to reset, the deletions are rolled back. */
    method DeleteExecutions(jobName: string) returns (err: Option<Error>)
      modifies this
      ensures View() == StoreSpec.DeleteExecutions(old(View()), jobName).0
      ensures err == if jobName in old(jobs) then None else Some(NotFound)
      ensures err == None ==>
                && jobName in jobs && jobs[jobName].successCount == jobs[jobName].errorCount == 0
                && jobs[jobName].lastSuccess == jobs[jobName].lastError == None
    {
      var before := executions;
      DeleteExecutionsTx(jobName);
      if jobName !in jobs {
        executions := before;
        return Some(NotFound);
      }
      var job := jobs[jobName];
      job := job.(successCount := 0, errorCount := 0);
      job := job.(lastSuccess := None, lastError := None);
      jobs := jobs[jobName := job];
      err := None;
    }

    // ----- The state machine that Raft drives -----

    method Apply(command: Command, clock: Clock) returns (reply: Reply)
      requires ValidEnv(env) && Linked(env, View())
      modifies this
      ensures (View(), reply) == Step(env, clock, old(View()), command)
      ensures Linked(env, View())
    {
      StepLinked(env, clock, View(), command);
      match command {
        case SetJobCommand(job) =>
          var err := SetJob(job, true, clock);
          reply := if err.Some? then Failed(err.value) else Done;
        case DeleteJobCommand(name) =>
          var job, err := DeleteJob(name, clock);
          reply := if err.Some? then Failed(err.value) else Deleted(job.value);
        case DeleteExecutionsCommand(name) =>
          var err := DeleteExecutions(name);
          if err.Some? {
            reply := Failed(err.value);
          } else {
            reply := Updated(jobs[name]);
          }
        case ExecutionDoneCommand(e) =>
          var counted, err := SetExecutionDone(e);
          reply := if err.Some? then Failed(err.value) else Recorded(counted);
        case SetExecutionCommand(e) =>
          var key := SetExecution(e);
          reply := Saved(key);
      }
    }
  }

  /** Every stored job, once. */
  ghost predicate IsJobList(list: seq<Job>, jobs: map<string, Job>) {
    && (forall i | 0 <= i < |list| :: list[i].name in jobs && list[i] == jobs[list[i].name])
    && (forall n | n in jobs :: jobs[n] in list)
    && (forall i, j | 0 <= i < j < |list| :: list[i].name != list[j].name)
  }

  lemma JobListGrows(list: seq<Job>, jobs: map<string, Job>, job: Job)
    requires IsJobList(list, jobs) && job.name !in jobs
    ensures IsJobList(list + [job], jobs[job.name := job])
  {
    var longer, more := list + [job], jobs[job.name := job];
    forall n | n in more
      ensures more[n] in longer
    {
      assert n == job.name || jobs[n] in list;
      assert longer[|list|] == job;
    }
  }

  lemma {:induction false} WithoutAppended(names: seq<string>, last: string, name: string)
    ensures Without(names + [last], name) == Without(names, name) + if last == name then [] else [last]
  {
    if names == [] {
      assert names + [last] == [last];
    } else {
      WithoutAppended(names[1..], last, name);
      assert (names + [last])[1..] == names[1..] + [last];
    }
  }
}
