/** What the log does to the stored executions: finish times, keys and bounded history; and to the next
    runs of jobs. */
module History {
  import opened Wrappers
  import opened Types
  import opened Keys
  import opened StoreSpec
  import opened Links

  // ----- Finish times -----

  lemma StepFinishMonotone(env: Env, clock: Clock, db: Db, command: Command, key: string)
    requires KeysMatch(db.executions)
    requires key in db.executions && key in Step(env, clock, db, command).0.executions
    ensures Step(env, clock, db, command).0.executions[key].finishedAt >= db.executions[key].finishedAt
  {
    match command
    case ExecutionDoneCommand(e) =>
      if e.jobName in db.jobs && Judge(db, e) != Ignored {
        assert ExecutionDone(db, e).0.executions == db.executions[FullKey(e) := e];
      }
    case _ =>
  }

  predicate StoredThroughout(env: Env, clock: nat -> Clock, db: Db, log: seq<Command>, key: string) {
    && key in Run(env, clock, db, log).executions
    && (log != [] ==> StoredThroughout(env, clock, db, log[..|log| - 1], key))
  }

  /** As long as a key stays stored its finish time never moves back, so a late start message cannot
      make a finished execution run again. */
  lemma {:induction false} RunFinishMonotone(env: Env, clock: nat -> Clock, db: Db, log: seq<Command>, key: string)
    requires KeysMatch(db.executions)
    requires StoredThroughout(env, clock, db, log, key) && key in db.executions
    ensures var e := Run(env, clock, db, log).executions[key];
            && e.finishedAt >= db.executions[key].finishedAt
            && (db.executions[key].finishedAt > ZERO_TIME ==> !IsRunning(e))
  {
    if log != [] {
      var n := |log| - 1;
      RunFinishMonotone(env, clock, db, log[..n], key);
      RunKeysMatch(env, clock, db, log[..n]);
      StepFinishMonotone(env, clock(n), Run(env, clock, db, log[..n]), log[n], key);
    }
  }

  // ----- Keys -----

  lemma {:induction false} RunKeysMatch(env: Env, clock: nat -> Clock, db: Db, log: seq<Command>)
    requires KeysMatch(db.executions)
    ensures KeysMatch(Run(env, clock, db, log).executions)
  {
    if log != [] {
      var n := |log| - 1;
      RunKeysMatch(env, clock, db, log[..n]);
      StepKeysMatch(env, clock(n), Run(env, clock, db, log[..n]), log[n]);
    }
  }

  ghost predicate ColonFree(executions: map<string, Execution>) {
    forall k | k in executions :: NoColon(executions[k].jobName)
  }

  /** Start messages name jobs without colons, as every job that can be stored does. */
  ghost predicate StartsColonFree(log: seq<Command>) {
    forall i | 0 <= i < |log| :: log[i].SetExecutionCommand? ==> NoColon(log[i].execution.jobName)
  }

  lemma ValidNameHasNoColon(env: Env, job: Job)
    requires ValidEnv(env) && Valid(env, job)
    ensures NoColon(job.name)
  {
    assert forall i | 0 <= i < |job.name| :: SlugChar(env, job.name[i]) && job.name[i] != ':';
  }

  lemma StepColonFree(env: Env, clock: Clock, db: Db, command: Command)
    requires ValidEnv(env) && JobsSound(env, db.jobs) && ColonFree(db.executions)
    requires command.SetExecutionCommand? ==> NoColon(command.execution.jobName)
    ensures ColonFree(Step(env, clock, db, command).0.executions)
  {
    match command
    case ExecutionDoneCommand(e) =>
      if e.jobName in db.jobs {
        ValidNameHasNoColon(env, db.jobs[e.jobName]);
        assert ExecutionDone(db, e).0.executions in {db.executions, db.executions[FullKey(e) := e]};
      }
    case _ =>
  }

  /** In every state a log reaches, listing a job by prefix yields exactly its executions. */
  lemma {:induction false} RunListsByJob(env: Env, clock: nat -> Clock, db: Db, log: seq<Command>, jobName: string)
    requires ValidEnv(env) && Linked(env, db) && ColonFree(db.executions) && StartsColonFree(log)
    requires NoColon(jobName)
    ensures var executions := Run(env, clock, db, log).executions;
            && ColonFree(executions)
            && forall k :: k in Listing(executions, jobName) <==>
                           k in executions && executions[k].jobName == jobName
  {
    if log != [] {
      var n := |log| - 1;
      RunListsByJob(env, clock, db, log[..n], jobName);
      RunLinked(env, clock, db, log[..n]);
      StepColonFree(env, clock(n), Run(env, clock, db, log[..n]), log[n]);
    }
    var executions := Run(env, clock, db, log).executions;
    RunKeysMatch(env, clock, db, log);
    forall k | k in executions
      ensures Listed(jobName, k) <==> executions[k].jobName == jobName
    {
      ListedIffOfJob(jobName, executions[k]);
    }
  }

  // ----- Bounded history -----

  function Elements(s: seq<string>): set<string> {
    set x | x in s
  }

  lemma {:induction false} DistinctSize(s: seq<string>)
    requires Distinct(s)
    ensures |Elements(s)| == |s|
  {
    if s == [] {
      assert Elements(s) == {};
    } else {
      var n := |s| - 1;
      DistinctSize(s[..n]);
      assert s == s[..n] + [s[n]];
      assert s[n] !in s[..n];
      assert Elements(s) == Elements(s[..n]) + {s[n]};
    }
  }

  lemma OwnKeyListed(e: Execution)
    ensures Listed(e.jobName, FullKey(e))
  {
    assert FullKey(e)[|e.jobName| + 1] == ShortKey(e)[0] != ':';
    assert (e.jobName + "::")[|e.jobName| + 1] == ':';
  }

  lemma DistinctHalves(s: seq<string>, n: nat)
    requires Distinct(s) && n <= |s|
    ensures Distinct(s[n..])
    ensures forall x :: x in s <==> x in s[..n] || x in s[n..]
    ensures forall x | x in s[n..] :: x !in s[..n]
  {
    assert s == s[..n] + s[n..];
  }

  lemma PruneListing(env: Env, executions: map<string, Execution>, jobName: string)
    requires ValidEnv(env)
    ensures var before, order := Listing(executions, jobName), env.byStart(Listing(executions, jobName));
            && SortedByStart(order, before) && |order| == |before|
            && (|order| > MAX_EXECUTIONS ==>
                  && Listing(Prune(env, executions, jobName), jobName).Keys
                     == Elements(order[|order| - MAX_EXECUTIONS..])
                  && |Listing(Prune(env, executions, jobName), jobName)| == MAX_EXECUTIONS)
  {
    var before := Listing(executions, jobName);
    var order := env.byStart(before);
    assert SortedByStart(order, before);
    DistinctSize(order);
    assert Elements(order) == before.Keys;
    if |order| > MAX_EXECUTIONS {
      var n := |order| - MAX_EXECUTIONS;
      DistinctHalves(order, n);
      DistinctSize(order[n..]);
      var after := Listing(Prune(env, executions, jobName), jobName);
      assert forall k :: k in after <==> k in before && k !in order[..n];
      assert after.Keys == Elements(order[n..]);
    }
  }

  lemma PruneSize(env: Env, executions: map<string, Execution>, jobName: string)
    requires ValidEnv(env)
    ensures var before, after := Listing(executions, jobName), Prune(env, executions, jobName);
            && |Listing(after, jobName)| == (if |before| <= MAX_EXECUTIONS then |before| else MAX_EXECUTIONS)
            && (|before| <= MAX_EXECUTIONS ==> after == executions)
  {
    PruneListing(env, executions, jobName);
  }

  lemma PruneTakesListed(env: Env, executions: map<string, Execution>, jobName: string, k: string)
    requires ValidEnv(env)
    ensures var after := Prune(env, executions, jobName);
            && (k in executions && !Listed(jobName, k) ==> k in after)
            && (k in after ==> k in executions && after[k] == executions[k])
  {
    var before := Listing(executions, jobName);
    var order := env.byStart(before);
    assert SortedByStart(order, before);
    if |order| > MAX_EXECUTIONS && k in order[..|order| - MAX_EXECUTIONS] {
      assert k in order;
      assert k in before;
    }
  }

  /** Pruning keeps the youngest MAX_EXECUTIONS of one job's listing and every other key. */
  lemma PruneKeepsYoungest(env: Env, executions: map<string, Execution>, jobName: string)
    requires ValidEnv(env)
    ensures var before, after := Listing(executions, jobName), Prune(env, executions, jobName);
            && |Listing(after, jobName)| == (if |before| <= MAX_EXECUTIONS then |before| else MAX_EXECUTIONS)
            && (|before| <= MAX_EXECUTIONS ==> after == executions)
            && (forall k | k in executions && !Listed(jobName, k) :: k in after)
            && (forall k | k in after :: k in executions && after[k] == executions[k])
            && forall gone, kept | gone in before && gone !in after && kept in Listing(after, jobName) ::
                 executions[gone].startedAt <= executions[kept].startedAt
  {
    var before, after := Listing(executions, jobName), Prune(env, executions, jobName);
    PruneSize(env, executions, jobName);
    forall k
      ensures k in executions && !Listed(jobName, k) ==> k in after
      ensures k in after ==> k in executions && after[k] == executions[k]
    {
      PruneTakesListed(env, executions, jobName, k);
    }
    forall gone, kept | gone in before && gone !in after && kept in Listing(after, jobName)
      ensures executions[gone].startedAt <= executions[kept].startedAt
    {
      EvictedOlder(env, executions, jobName, gone, kept);
    }
  }

  lemma EvictedOlder(env: Env, executions: map<string, Execution>, jobName: string, gone: string, kept: string)
    requires ValidEnv(env)
    requires gone in Listing(executions, jobName) && gone !in Prune(env, executions, jobName)
    requires kept in Listing(Prune(env, executions, jobName), jobName)
    ensures kept in executions && executions[gone].startedAt <= executions[kept].startedAt
  {
    var before := Listing(executions, jobName);
    var order := env.byStart(before);
    PruneListing(env, executions, jobName);
    DistinctHalves(order, |order| - MAX_EXECUTIONS);
    EarlierHalf(order, before, |order| - MAX_EXECUTIONS, gone, kept);
  }

  lemma EarlierHalf(keys: seq<string>, m: map<string, Execution>, n: nat, early: string, late: string)
    requires SortedByStart(keys, m) && n <= |keys| && early in keys[..n] && late in keys[n..]
    ensures early in m && late in m && m[early].startedAt <= m[late].startedAt
  {
    var i :| 0 <= i < n && keys[..n][i] == early;
    var j :| 0 <= j < |keys| - n && keys[n..][j] == late;
    assert keys[i] == early && keys[n + j] == late;
  }

  /** SetExecution bounds the history of its job, evicts only what started no later than any
      survivor, and leaves all else alone. */
  lemma SetExecutionRetention(env: Env, db: Db, e: Execution)
    requires ValidEnv(env) && KeysMatch(db.executions)
    ensures var after, written := SetExecution(env, db, e).0, Write(db.executions, e);
            && after.jobs == db.jobs && after.stats == db.stats
            && |Listing(after.executions, e.jobName)| <= MAX_EXECUTIONS
            && (|Listing(written, e.jobName)| <= MAX_EXECUTIONS ==> after.executions == written)
            && (forall k | k in after.executions :: k in written && after.executions[k] == written[k])
            && (forall gone, kept |
                  gone in written && gone !in after.executions && kept in Listing(after.executions, e.jobName) ::
                  written[gone].startedAt <= written[kept].startedAt)
    ensures ColonFree(db.executions) && NoColon(e.jobName) ==>
              Spares(db.executions, SetExecution(env, db, e).0.executions, e.jobName)
  {
    var written := Write(db.executions, e);
    PruneKeepsYoungest(env, written, e.jobName);
    OwnKeyListed(e);
    if ColonFree(db.executions) && NoColon(e.jobName) {
      OthersSpared(env, db.executions, e);
    }
  }

  lemma OthersSpared(env: Env, executions: map<string, Execution>, e: Execution)
    requires ValidEnv(env) && KeysMatch(executions) && ColonFree(executions) && NoColon(e.jobName)
    ensures Spares(executions, Prune(env, Write(executions, e), e.jobName), e.jobName)
  {
    var written := Write(executions, e);
    forall k | k in executions && executions[k].jobName != e.jobName
      ensures k in Prune(env, written, e.jobName) && Prune(env, written, e.jobName)[k] == executions[k]
    {
      OwnKeyListed(e);
      ListedIffOfJob(e.jobName, executions[k]);
      assert k in written && written[k] == executions[k];
      PruneTakesListed(env, written, e.jobName, k);
    }
  }

  /** Completions never prune: one more of them takes a full history over the bound. */
  lemma CompletionsDoNotPrune(db: Db, e: Execution)
    requires e.jobName in db.jobs && FullKey(e) !in db.executions
    ensures |Listing(ExecutionDone(db, e).0.executions, e.jobName)| == |Listing(db.executions, e.jobName)| + 1
  {
    OwnKeyListed(e);
    var after := ExecutionDone(db, e).0.executions;
    assert after == db.executions[FullKey(e) := e];
    assert Listing(after, e.jobName) == Listing(db.executions, e.jobName)[FullKey(e) := e];
  }

  // ----- What a delete takes with it -----

  /** Deleting a job, or its executions, leaves the executions of all other jobs alone if and only if none
      of them is of a job whose name properly extends the name of this one. */
  lemma DeleteSparesIff(env: Env, db: Db, name: string)
    requires ValidEnv(env) && Sound(env, db) && name in db.jobs
    ensures var extended := exists k | k in db.executions :: name < db.executions[k].jobName;
            && (db.jobs[name].dependentJobs == [] ==>
                  (Spares(db.executions, DeleteJob(db, name).0.executions, name) <==> !extended))
            && (Spares(db.executions, DeleteExecutions(db, name).0.executions, name) <==> !extended)
  {
    ValidNameHasNoColon(env, db.jobs[name]);
    SweepSparesIff(db.executions, name);
  }

  // ----- The next run of a stored job -----

  /** No command moves the next run of a job back, unless it changes the schedule of the job. */
  lemma StepNextMonotone(env: Env, clock: Clock, db: Db, command: Command, name: string)
    requires name in db.jobs && name in Step(env, clock, db, command).0.jobs
    requires Step(env, clock, db, command).0.jobs[name].schedule == db.jobs[name].schedule
    ensures Step(env, clock, db, command).0.jobs[name].next >= db.jobs[name].next
  {
    match command
    case SetJobCommand(job) => SetJobNextMonotone(env, clock, db, job, name);
    case ExecutionDoneCommand(e) => CompletionKeepsNext(db, e, name);
    case _ =>
  }

  lemma CompletionKeepsNext(db: Db, e: Execution, name: string)
    requires name in db.jobs
    ensures name in ExecutionDone(db, e).0.jobs && ExecutionDone(db, e).0.jobs[name].next == db.jobs[name].next
  {
  }

  lemma SetJobNextMonotone(env: Env, clock: Clock, db: Db, job: Job, name: string)
    requires name in db.jobs && name in SetJob(env, clock, db, job, true).0.jobs
    requires SetJob(env, clock, db, job, true).0.jobs[name].schedule == db.jobs[name].schedule
    ensures SetJob(env, clock, db, job, true).0.jobs[name].next >= db.jobs[name].next
  {
    if Accepted(env, db, job) {
      AcceptedSetJob(env, clock, db, job);
      var stored := Stored(db.jobs, job.name);
      var merged := Merged(env, clock, stored, job, true).value;
      RelinkedRest(db.jobs[job.name := merged], job.name, ParentOnRecord(db.jobs, job.name), job.parentJob);
      if job.name == name {
        MergedKeepsSettings(env, clock, stored, job, true);
        MergedNext(env, clock, db.jobs[name], job);
      }
    } else {
      RefusedSetJob(env, clock, db, job);
    }
  }

  lemma MergedNext(env: Env, clock: Clock, stored: Job, job: Job)
    requires job.schedule == stored.schedule
    ensures Merged(env, clock, Some(stored), job, true).Some?
    ensures Merged(env, clock, Some(stored), job, true).value.next >= stored.next
  {
  }

  /** The job is stored, and with this schedule, after each entry of the log. */
  predicate ScheduledThroughout(env: Env, clock: nat -> Clock, db: Db, log: seq<Command>, name: string,
                                schedule: string)
  {
    && name in Run(env, clock, db, log).jobs && Run(env, clock, db, log).jobs[name].schedule == schedule
    && (log != [] ==> ScheduledThroughout(env, clock, db, log[..|log| - 1], name, schedule))
  }

  /** While a job stays stored with one schedule its next run never moves back, whatever next runs the
      requests of the log carry and whatever clocks the replica reads. */
  lemma {:induction false} RunNextMonotone(env: Env, clock: nat -> Clock, db: Db, log: seq<Command>, name: string,
                                           schedule: string)
    requires ScheduledThroughout(env, clock, db, log, name, schedule) && name in db.jobs
    ensures Run(env, clock, db, log).jobs[name].next >= db.jobs[name].next
  {
    if log != [] {
      var n := |log| - 1;
      RunNextMonotone(env, clock, db, log[..n], name, schedule);
      StepNextMonotone(env, clock(n), Run(env, clock, db, log[..n]), log[n], name);
    }
  }
}
