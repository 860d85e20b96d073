/** Parent and child links over whole logs. */
module Links {
  import opened Wrappers
  import opened Types
  import opened Keys
  import opened StoreSpec
  import opened ScheduleHash

  // ----- Lists of children -----

  lemma {:induction false} WithoutMembers(names: seq<string>, name: string)
    ensures forall c :: c in Without(names, name) <==> c in names && c != name
    ensures Distinct(names) ==> Distinct(Without(names, name))
  {
    if names != [] {
      WithoutMembers(names[1..], name);
      assert names == [names[0]] + names[1..];
      if Distinct(names) {
        assert names[0] !in names[1..];
        assert Distinct(names[1..]);
        DistinctCons(names[0], Without(names[1..], name));
      }
    }
  }

  lemma DistinctCons<T(!new)>(x: T, s: seq<T>)
    requires Distinct(s) && x !in s
    ensures Distinct([x] + s)
  {
  }

  lemma ValidateSame(env: Env, a: Job, b: Job)
    requires a.name == b.name && a.schedule == b.schedule && a.parentJob == b.parentJob
    requires a.concurrency == b.concurrency && a.timezone == b.timezone
    requires a.executor == b.executor && a.executorConfig == b.executorConfig
    ensures Validate(env, a) == Validate(env, b)
  {
  }

  /** Apart from the next run, what SetJob writes does not depend on the clock. */
  lemma MergedIs(env: Env, clock: Clock, stored: Option<Job>, job: Job, copy: bool)
    ensures var merged := Merged(env, clock, stored, job, copy);
            var base := if stored.Some? then Progressed(stored.value, job, copy) else job;
            merged.Some? ==> merged.value == base.(next := merged.value.next)
  {
  }

  /** The next run that SetJob stores: for a new or changed schedule the start still to come, or else the
      time that cron gives, or none; for the same schedule the later one of those stored and given. */
  lemma NextRunIs(env: Env, clock: Clock, db: Db, job: Job)
    requires SetJob(env, clock, db, job, true).1 == Done
    ensures var after := SetJob(env, clock, db, job, true).0.jobs;
            var stored := if job.name in db.jobs then db.jobs[job.name].schedule else "";
            var next := if job.name in db.jobs then db.jobs[job.name].next else EPOCH;
            && job.name in after
            && after[job.name].next ==
               if job.schedule == stored then (if next < job.next then job.next else next)
               else if job.startsAt.Some? && clock.now < job.startsAt.value then job.startsAt.value
               else if job.schedule != "" then env.nextAfter(Hashed(job.schedule, job.name), clock.later)
               else ZERO_TIME
  {
    NextRunStored(env, clock, db, job, true);
  }

  lemma NextRunStored(env: Env, clock: Clock, db: Db, job: Job, copyDependentJobs: bool)
    ensures var (after, reply) := SetJob(env, clock, db, job, copyDependentJobs);
            reply == Done ==>
              && job.name in after.jobs
              && NextRunFits(env, clock, Stored(db.jobs, job.name), job, after.jobs[job.name].next)
  {
    var merged := Merged(env, clock, Stored(db.jobs, job.name), job, copyDependentJobs);
    MergedFits(env, clock, Stored(db.jobs, job.name), job, copyDependentJobs);
    if merged.Some? {
      RelinkedRest(db.jobs[job.name := merged.value], job.name, ParentOnRecord(db.jobs, job.name), job.parentJob);
    }
  }

  lemma MergedFits(env: Env, clock: Clock, stored: Option<Job>, job: Job, copyDependentJobs: bool)
    ensures var merged := Merged(env, clock, stored, job, copyDependentJobs);
            merged.Some? ==> NextRunFits(env, clock, stored, job, merged.value.next)
  {
  }

  /** Apart from the next run SetJob writes the given job with the progress of the stored one. */
  lemma MergedKeepsProgress(env: Env, clock: Clock, stored: Job, job: Job, copyDependentJobs: bool)
    ensures var merged := Merged(env, clock, Some(stored), job, copyDependentJobs);
            merged.Some? ==> ProgressKept(stored, job, copyDependentJobs, merged.value.(next := job.next))
  {
    MergedIs(env, clock, Some(stored), job, copyDependentJobs);
    ProgressIsKept(stored, job, copyDependentJobs);
  }

  /** The merge of SetJob keeps everything that Validate looks at. */
  lemma MergedKeepsSettings(env: Env, clock: Clock, stored: Option<Job>, job: Job, copy: bool)
    ensures var merged := Merged(env, clock, stored, job, copy);
            merged.Some? ==>
              && merged.value.name == job.name && merged.value.schedule == job.schedule
              && merged.value.parentJob == job.parentJob && merged.value.disabled == job.disabled
              && merged.value.timezone == job.timezone
              && Validate(env, merged.value) == Validate(env, job)
  {
    MergedIs(env, clock, stored, job, copy);
    if Merged(env, clock, stored, job, copy).Some? {
      ValidateSame(env, Merged(env, clock, stored, job, copy).value, job);
    }
  }

  /** A job that passed Validate always gets a next run. */
  lemma ValidMerges(env: Env, clock: Clock, stored: Option<Job>, job: Job, copy: bool)
    requires Valid(env, job)
    ensures Merged(env, clock, stored, job, copy).Some?
  {
  }

  /** SetJob takes a job that passes Validate and names no unknown parent. */
  predicate Accepted(env: Env, db: Db, job: Job) {
    Valid(env, job) && (job.parentJob != "" ==> job.parentJob in db.jobs)
  }

  lemma AcceptedSetJob(env: Env, clock: Clock, db: Db, job: Job)
    requires Accepted(env, db, job)
    ensures var merged := Merged(env, clock, Stored(db.jobs, job.name), job, true);
            && merged.Some?
            && SetJob(env, clock, db, job, true) ==
               (db.(jobs := Relinked(db.jobs[job.name := merged.value], job.name,
                                     ParentOnRecord(db.jobs, job.name), job.parentJob)), Done)
  {
    ValidMerges(env, clock, Stored(db.jobs, job.name), job, true);
  }

  lemma RefusedSetJob(env: Env, clock: Clock, db: Db, job: Job)
    requires !Accepted(env, db, job)
    ensures SetJob(env, clock, db, job, true).0 == db && SetJob(env, clock, db, job, true).1.Failed?
  {
  }

  /** The write back of a parent whose child list changed stores exactly the changed list, and never
      fails: this is the whole of the nested SetJob call. */
  lemma NestedSetJob(env: Env, clock: Clock, db: Db, parent: string, children: seq<string>)
    requires Sound(env, db) && parent in db.jobs
    ensures var job := db.jobs[parent].(dependentJobs := children);
            SetJob(env, clock, db, job, false) == (db.(jobs := db.jobs[parent := job]), Done)
  {
    var job := db.jobs[parent].(dependentJobs := children);
    assert Validate(env, job) == Validate(env, db.jobs[parent]);
    assert job.name == parent;
    assert Merged(env, clock, Stored(db.jobs, parent), job, false) == Some(job);
  }

  // ----- Soundness -----

  lemma RelinkedSound(env: Env, jobs: map<string, Job>, child: string, from: string, to: string)
    requires JobsSound(env, jobs)
    ensures JobsSound(env, Relinked(jobs, child, from, to))
    ensures JobsSound(env, Unlink(jobs, from, child))
  {
    UnlinkSound(env, jobs, from, child);
    LinkSound(env, Unlink(jobs, from, child), to, child);
  }

  lemma UnlinkSound(env: Env, jobs: map<string, Job>, parent: string, child: string)
    requires JobsSound(env, jobs)
    ensures JobsSound(env, Unlink(jobs, parent, child))
  {
    ListChangeSound(env, jobs, parent,
                    if parent in jobs then Without(jobs[parent].dependentJobs, child) else []);
  }

  lemma LinkSound(env: Env, jobs: map<string, Job>, parent: string, child: string)
    requires JobsSound(env, jobs)
    ensures JobsSound(env, Link(jobs, parent, child))
  {
    ListChangeSound(env, jobs, parent,
                    if parent in jobs then jobs[parent].dependentJobs + [child] else []);
  }

  lemma ListChangeSound(env: Env, jobs: map<string, Job>, parent: string, children: seq<string>)
    requires JobsSound(env, jobs)
    ensures parent in jobs ==> JobsSound(env, jobs[parent := jobs[parent].(dependentJobs := children)])
  {
    if parent in jobs {
      var changed := jobs[parent].(dependentJobs := children);
      assert Validate(env, changed) == Validate(env, jobs[parent]);
    }
  }

  /** The intermediate state of SetJob, after its first transaction. */
  lemma StoredSound(env: Env, clock: Clock, jobs: map<string, Job>, job: Job, copy: bool)
    requires JobsSound(env, jobs) && Valid(env, job)
    requires job.parentJob != "" ==> job.parentJob in jobs
    ensures var merged := Merged(env, clock, Stored(jobs, job.name), job, copy);
            merged.Some? && JobsSound(env, jobs[job.name := merged.value])
  {
    ValidMerges(env, clock, Stored(jobs, job.name), job, copy);
    MergedKeepsSettings(env, clock, Stored(jobs, job.name), job, copy);
  }

  lemma SetJobSound(env: Env, clock: Clock, db: Db, job: Job, copy: bool)
    requires Sound(env, db)
    ensures Sound(env, SetJob(env, clock, db, job, copy).0)
  {
    if Valid(env, job) && (job.parentJob != "" ==> job.parentJob in db.jobs) {
      StoredSound(env, clock, db.jobs, job, copy);
      var merged := Merged(env, clock, Stored(db.jobs, job.name), job, copy).value;
      RelinkedSound(env, db.jobs[job.name := merged], job.name, ParentOnRecord(db.jobs, job.name), job.parentJob);
    }
  }

  /** A job with no children on record can go without leaving an orphan. */
  lemma RemovedSound(env: Env, db: Db, name: string)
    requires Linked(env, db)
    requires name in db.jobs && db.jobs[name].dependentJobs == []
    ensures JobsSound(env, db.jobs - {name})
    ensures var parent := db.jobs[name].parentJob; parent != "" ==> parent in db.jobs - {name}
  {
    forall n | n in db.jobs - {name} && db.jobs[n].parentJob != ""
      ensures db.jobs[n].parentJob != name
    {
      assert n in db.jobs[db.jobs[n].parentJob].dependentJobs;
    }
  }

  // ----- Every parent lists its children -----

  ghost predicate ListsHold(jobs: map<string, Job>) {
    forall n | n in jobs && jobs[n].parentJob != "" ::
      jobs[n].parentJob in jobs && n in jobs[jobs[n].parentJob].dependentJobs
  }

  lemma UnlinkList(jobs: map<string, Job>, parent: string, child: string, p: string)
    requires p in jobs
    ensures var after := Unlink(jobs, parent, child);
            && after.Keys == jobs.Keys
            && after[p] == jobs[p].(dependentJobs := after[p].dependentJobs)
            && after[p].dependentJobs ==
               if p == parent && parent != "" then Without(jobs[p].dependentJobs, child) else jobs[p].dependentJobs
  {
  }

  lemma LinkList(jobs: map<string, Job>, parent: string, child: string, p: string)
    requires p in jobs
    ensures var after := Link(jobs, parent, child);
            && after.Keys == jobs.Keys
            && after[p] == jobs[p].(dependentJobs := after[p].dependentJobs)
            && after[p].dependentJobs ==
               if p == parent && parent != "" then jobs[p].dependentJobs + [child] else jobs[p].dependentJobs
  {
  }

  lemma DistinctSnoc<T(!new)>(s: seq<T>, x: T)
    requires Distinct(s) && x !in s
    ensures Distinct(s + [x])
  {
  }

  /** Moving a child between parents changes two lists and nothing else. */
  lemma RelinkedLists(jobs: map<string, Job>, child: string, from: string, to: string, p: string)
    requires p in jobs
    ensures var after := Relinked(jobs, child, from, to);
            && after.Keys == jobs.Keys
            && after[p] == jobs[p].(dependentJobs := after[p].dependentJobs)
            && (forall c :: c in after[p].dependentJobs <==>
                  if from == to || c != child then c in jobs[p].dependentJobs
                  else (p == to && to != "") || (c in jobs[p].dependentJobs && (p != from || from == "")))
            && (&& Distinct(jobs[p].dependentJobs)
                && (from == to || p != to || child !in jobs[p].dependentJobs)
                ==> Distinct(after[p].dependentJobs))
  {
    if from != to {
      var names := jobs[p].dependentJobs;
      WithoutMembers(names, child);
      UnlinkList(jobs, from, child, p);
      LinkList(Unlink(jobs, from, child), to, child, p);
      if p == to && to != "" && Distinct(names) && child !in names {
        DistinctSnoc(names, child);
      }
    }
  }

  lemma RelinkedRest(jobs: map<string, Job>, child: string, from: string, to: string)
    ensures var after := Relinked(jobs, child, from, to);
            && after.Keys == jobs.Keys
            && forall n | n in jobs :: after[n] == jobs[n].(dependentJobs := after[n].dependentJobs)
  {
    forall n | n in jobs
      ensures var after := Relinked(jobs, child, from, to);
              n in after && after[n] == jobs[n].(dependentJobs := after[n].dependentJobs)
    {
      RelinkedLists(jobs, child, from, to, n);
    }
  }

  lemma StoredLists(jobs: map<string, Job>, child: string, merged: Job)
    requires ListsHold(jobs)
    requires merged.parentJob != "" ==> merged.parentJob in jobs && merged.parentJob != child
    requires forall c | c in jobs && c != child && jobs[c].parentJob == child :: c in merged.dependentJobs
    requires child != ""
    ensures ListsHold(Relinked(jobs[child := merged], child, ParentOnRecord(jobs, child), merged.parentJob))
  {
    var stored, from, to := jobs[child := merged], ParentOnRecord(jobs, child), merged.parentJob;
    var after := Relinked(stored, child, from, to);
    RelinkedLists(stored, child, from, to, child);
    forall n | n in after && after[n].parentJob != ""
      ensures after[n].parentJob in after && n in after[after[n].parentJob].dependentJobs
    {
      RelinkedLists(stored, child, from, to, n);
      RelinkedLists(stored, child, from, to, after[n].parentJob);
      if n != child {
        assert jobs[n].parentJob == after[n].parentJob;
      }
    }
  }

  /** SetJob keeps on record the children it finds there. */
  lemma MergedKeepsChildren(env: Env, clock: Clock, jobs: map<string, Job>, job: Job)
    requires ListsHold(jobs) && job.name != ""
    ensures var merged := Merged(env, clock, Stored(jobs, job.name), job, true);
            merged.Some? ==>
              forall c | c in jobs && c != job.name && jobs[c].parentJob == job.name :: c in merged.value.dependentJobs
  {
  }

  lemma SetJobLinked(env: Env, clock: Clock, db: Db, job: Job)
    requires Linked(env, db)
    ensures Linked(env, SetJob(env, clock, db, job, true).0)
  {
    SetJobSound(env, clock, db, job, true);
    if Valid(env, job) && (job.parentJob != "" ==> job.parentJob in db.jobs) {
      ValidMerges(env, clock, Stored(db.jobs, job.name), job, true);
      MergedKeepsSettings(env, clock, Stored(db.jobs, job.name), job, true);
      MergedKeepsChildren(env, clock, db.jobs, job);
      StoredLists(db.jobs, job.name, Merged(env, clock, Stored(db.jobs, job.name), job, true).value);
    }
  }

  lemma DeleteJobLinked(env: Env, db: Db, name: string)
    requires Linked(env, db)
    ensures Linked(env, DeleteJob(db, name).0)
  {
    if name in db.jobs && db.jobs[name].dependentJobs == [] {
      RemovedSound(env, db, name);
      var parent := db.jobs[name].parentJob;
      UnlinkSound(env, db.jobs - {name}, parent, name);
      UnlinkListed(env, db, name);
    }
  }

  lemma UnlinkListed(env: Env, db: Db, name: string)
    requires Linked(env, db) && name in db.jobs
    ensures var after := Unlink(db.jobs - {name}, db.jobs[name].parentJob, name);
            forall n | n in after && after[n].parentJob in after && after[n].parentJob != "" ::
              n in after[after[n].parentJob].dependentJobs
  {
    var parent := db.jobs[name].parentJob;
    if parent != "" {
      WithoutMembers(db.jobs[parent].dependentJobs, name);
    }
  }

  /** Commands on executions touch no name, no link and nothing that Validate looks at. */
  predicate SameLinks(jobs: map<string, Job>, after: map<string, Job>) {
    && after.Keys == jobs.Keys
    && forall n | n in jobs ::
         && after[n].name == jobs[n].name && after[n].schedule == jobs[n].schedule
         && after[n].parentJob == jobs[n].parentJob && after[n].dependentJobs == jobs[n].dependentJobs
         && after[n].disabled == jobs[n].disabled && after[n].timezone == jobs[n].timezone
         && after[n].concurrency == jobs[n].concurrency && after[n].executor == jobs[n].executor
         && after[n].executorConfig == jobs[n].executorConfig
  }

  predicate OnExecutions(command: Command) {
    !command.SetJobCommand? && !command.DeleteJobCommand?
  }

  lemma ExecutionCommandsKeepLinks(env: Env, clock: Clock, db: Db, command: Command)
    requires OnExecutions(command)
    ensures SameLinks(db.jobs, Step(env, clock, db, command).0.jobs)
  {
    match command
    case ExecutionDoneCommand(e) => CompletionKeepsLinks(db, e);
    case DeleteExecutionsCommand(name) => ResetKeepsLinks(db, name);
    case SetExecutionCommand(e) => assert Step(env, clock, db, command).0.jobs == db.jobs;
  }

  lemma ResetKeepsLinks(db: Db, name: string)
    ensures SameLinks(db.jobs, DeleteExecutions(db, name).0.jobs)
  {
  }

  lemma CompletionKeepsLinks(db: Db, e: Execution)
    ensures SameLinks(db.jobs, ExecutionDone(db, e).0.jobs)
  {
    if e.jobName in db.jobs && Judge(db, e) == Counted {
      var before, after := db.jobs[e.jobName], ExecutionDone(db, e).0.jobs[e.jobName];
      assert after == Credit(before, e).(status := after.status);
    }
  }

  lemma StepKeysMatch(env: Env, clock: Clock, db: Db, command: Command)
    requires KeysMatch(db.executions)
    ensures KeysMatch(Step(env, clock, db, command).0.executions)
  {
    if command.ExecutionDoneCommand? {
      var e := command.execution;
      assert ExecutionDone(db, e).0.executions in {db.executions, db.executions[FullKey(e) := e]};
    }
  }

  lemma SameLinksLinked(env: Env, db: Db, after: Db)
    requires SameLinks(db.jobs, after.jobs) && KeysMatch(after.executions)
    ensures Linked(env, db) ==> Linked(env, after)
    ensures Exact(env, db) ==> Exact(env, after)
  {
    if Sound(env, db) {
      forall n | n in after.jobs
        ensures after.jobs[n].name == n && Valid(env, after.jobs[n])
      {
        assert Validate(env, after.jobs[n]) == Validate(env, db.jobs[n]);
      }
      assert Sound(env, after);
    }
    if Exact(env, db) {
      forall p | p in after.jobs
        ensures ListExact(after.jobs, p)
      {
        assert ListExact(db.jobs, p);
        assert forall c :: IsChild(after.jobs, c, p) == IsChild(db.jobs, c, p);
      }
    }
  }

  lemma StepLinked(env: Env, clock: Clock, db: Db, command: Command)
    requires Linked(env, db)
    ensures Linked(env, Step(env, clock, db, command).0)
  {
    match command
    case SetJobCommand(job) => SetJobLinked(env, clock, db, job);
    case DeleteJobCommand(name) => DeleteJobLinked(env, db, name);
    case _ =>
      ExecutionCommandsKeepLinks(env, clock, db, command);
      StepKeysMatch(env, clock, db, command);
      SameLinksLinked(env, db, Step(env, clock, db, command).0);
  }

  /** In every state that any log reaches, each job with a parent names a stored job that lists it. */
  lemma {:induction false} RunLinked(env: Env, clock: nat -> Clock, db: Db, log: seq<Command>)
    requires Linked(env, db)
    ensures Linked(env, Run(env, clock, db, log))
  {
    if log != [] {
      var n := |log| - 1;
      RunLinked(env, clock, db, log[..n]);
      StepLinked(env, clock(n), Run(env, clock, db, log[..n]), log[n]);
    }
  }

  lemma EmptyExact(env: Env)
    ensures Exact(env, EMPTY) && Linked(env, EMPTY)
  {
  }

  lemma ExactImpliesLinked(env: Env, db: Db)
    requires Exact(env, db)
    ensures Linked(env, db)
  {
    forall n | n in db.jobs && db.jobs[n].parentJob != ""
      ensures n in db.jobs[db.jobs[n].parentJob].dependentJobs
    {
      assert ListExact(db.jobs, db.jobs[n].parentJob) && IsChild(db.jobs, n, db.jobs[n].parentJob);
    }
  }

  // ----- When every parent lists exactly its children -----

  /** Whether SetJob takes over a list of children that the caller sent. */
  predicate ListFromCaller(jobs: map<string, Job>, job: Job) {
    job.dependentJobs != [] && (job.name !in jobs || jobs[job.name].dependentJobs == [])
  }

  ghost predicate ParentsStored(jobs: map<string, Job>) {
    && "" !in jobs
    && forall n | n in jobs && jobs[n].parentJob != "" :: jobs[n].parentJob in jobs && jobs[n].parentJob != n
  }

  lemma RelinkedExact(jobs: map<string, Job>, child: string, merged: Job, p: string)
    requires ListsExact(jobs) && ParentsStored(jobs) && child != ""
    requires merged.parentJob != child
    requires p in jobs && p != child && p != ""
    ensures var after := Relinked(jobs[child := merged], child, ParentOnRecord(jobs, child), merged.parentJob);
            p in after && ListExact(after, p)
  {
    var stored, from, to := jobs[child := merged], ParentOnRecord(jobs, child), merged.parentJob;
    var after := Relinked(stored, child, from, to);
    RelinkedLists(stored, child, from, to, p);
    assert ListExact(jobs, p);
    forall c
      ensures IsChild(after, c, p) <==> if c == child then p == to else IsChild(jobs, c, p)
    {
      if c in stored {
        RelinkedLists(stored, child, from, to, c);
      }
    }
    assert child in jobs[p].dependentJobs <==> IsChild(jobs, child, p);
    assert child in jobs ==> from == jobs[child].parentJob;
  }

  lemma OwnListExactIff(jobs: map<string, Job>, job: Job, merged: Job, after: map<string, Job>)
    requires ListsExact(jobs) && ParentsStored(jobs)
    requires job.name != "" && merged.parentJob != job.name
    requires merged.dependentJobs ==
             if job.name in jobs && jobs[job.name].dependentJobs != [] then jobs[job.name].dependentJobs
             else job.dependentJobs
    requires after == Relinked(jobs[job.name := merged], job.name, ParentOnRecord(jobs, job.name), merged.parentJob)
    ensures job.name in after && after[job.name].dependentJobs == merged.dependentJobs
    ensures ListExact(after, job.name) <==> !ListFromCaller(jobs, job)
  {
    var stored, from := jobs[job.name := merged], ParentOnRecord(jobs, job.name);
    RelinkedLists(stored, job.name, from, merged.parentJob, job.name);
    forall c
      ensures IsChild(after, c, job.name) <==> job.name in jobs && c in jobs[job.name].dependentJobs
    {
      if c in stored {
        RelinkedLists(stored, job.name, from, merged.parentJob, c);
      }
      if job.name in jobs {
        assert ListExact(jobs, job.name);
      }
    }
    if job.name in jobs {
      assert ListExact(jobs, job.name);
    }
    if ListFromCaller(jobs, job) {
      assert job.dependentJobs[0] in merged.dependentJobs;
    }
  }

  lemma StoredExactIff(jobs: map<string, Job>, job: Job, merged: Job)
    requires ListsExact(jobs) && ParentsStored(jobs)
    requires job.name != "" && merged.parentJob != job.name
    requires merged.dependentJobs ==
             if job.name in jobs && jobs[job.name].dependentJobs != [] then jobs[job.name].dependentJobs
             else job.dependentJobs
    ensures ListsExact(Relinked(jobs[job.name := merged], job.name, ParentOnRecord(jobs, job.name), merged.parentJob))
            <==> !ListFromCaller(jobs, job)
  {
    var after := Relinked(jobs[job.name := merged], job.name, ParentOnRecord(jobs, job.name), merged.parentJob);
    OwnListExactIff(jobs, job, merged, after);
    forall p | p in after && p != job.name
      ensures ListExact(after, p)
    {
      RelinkedExact(jobs, job.name, merged, p);
    }
  }

  /** SetJob keeps the lists exact if and only if it does not take one over from the caller. */
  lemma SetJobExactIff(env: Env, clock: Clock, db: Db, job: Job)
    requires Exact(env, db) && Accepted(env, db, job)
    ensures Exact(env, SetJob(env, clock, db, job, true).0) <==> !ListFromCaller(db.jobs, job)
  {
    SetJobSound(env, clock, db, job, true);
    AcceptedListsIff(env, clock, db, job);
  }

  lemma AcceptedListsIff(env: Env, clock: Clock, db: Db, job: Job)
    requires Exact(env, db) && Accepted(env, db, job)
    ensures ListsExact(SetJob(env, clock, db, job, true).0.jobs) <==> !ListFromCaller(db.jobs, job)
  {
    var merged := Merged(env, clock, Stored(db.jobs, job.name), job, true);
    AcceptedSetJob(env, clock, db, job);
    MergedIs(env, clock, Stored(db.jobs, job.name), job, true);
    StoredExactIff(db.jobs, job, merged.value);
  }

  lemma RemovedExact(jobs: map<string, Job>, name: string)
    requires ListsExact(jobs) && ParentsStored(jobs)
    requires name in jobs && name != ""
    ensures ListsExact(Unlink(jobs - {name}, jobs[name].parentJob, name))
  {
    var parent := jobs[name].parentJob;
    var after := Unlink(jobs - {name}, parent, name);
    forall p | p in after
      ensures ListExact(after, p)
    {
      WithoutMembers(jobs[p].dependentJobs, name);
      assert ListExact(jobs, p);
      assert forall c :: IsChild(after, c, p) <==> IsChild(jobs, c, p) && c != name;
      assert p != parent ==> !IsChild(jobs, name, p);
    }
  }

  lemma DeleteJobExact(env: Env, db: Db, name: string)
    requires Exact(env, db)
    ensures Exact(env, DeleteJob(db, name).0)
  {
    ExactImpliesLinked(env, db);
    DeleteJobLinked(env, db, name);
    if name in db.jobs && db.jobs[name].dependentJobs == [] {
      RemovedExact(db.jobs, name);
    }
  }

  /** No SetJob of the log brings its own list of children. */
  predicate ListsLeftToStore(log: seq<Command>) {
    forall i | 0 <= i < |log| :: log[i].SetJobCommand? ==> log[i].job.dependentJobs == []
  }

  lemma {:induction false} RunExact(env: Env, clock: nat -> Clock, db: Db, log: seq<Command>)
    requires Exact(env, db) && ListsLeftToStore(log)
    ensures Exact(env, Run(env, clock, db, log))
  {
    if log != [] {
      var n := |log| - 1;
      var before := Run(env, clock, db, log[..n]);
      RunExact(env, clock, db, log[..n]);
      match log[n]
      case SetJobCommand(job) =>
        assert job.dependentJobs == [];
        if Accepted(env, before, job) {
          SetJobExactIff(env, clock(n), before, job);
        }
      case DeleteJobCommand(name) => DeleteJobExact(env, before, name);
      case _ =>
        ExecutionCommandsKeepLinks(env, clock(n), before, log[n]);
        StepKeysMatch(env, clock(n), before, log[n]);
        SameLinksLinked(env, before, Step(env, clock(n), before, log[n]).0);
    }
  }
}
