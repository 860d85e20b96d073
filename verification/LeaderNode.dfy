/** The leader's handlers as methods on the store and scheduler objects, proved against Leader. */
module LeaderNode {
  import opened Wrappers
  import opened Types
  import opened Keys
  import opened StoreSpec
  import opened Completions
  import opened JobStore
  import opened Scheduling
  import opened Leader
  import opened Runnable
  import Cascade
  import History
  import Links

  lemma {:induction false} DoneAllAppend(db: Db, es: seq<Execution>, fs: seq<Execution>)
    ensures DoneAll(db, es + fs) == DoneAll(DoneAll(db, es), fs)
  {
    if fs == [] {
      assert es + fs == es;
    } else {
      var n := |fs| - 1;
      DoneAllAppend(db, es, fs[..n]);
      assert (es + fs)[..|es + fs| - 1] == es + fs[..n];
    }
  }

  /** A completion that ends as a failure a stored running execution which no node runs and which started
      longer ago than the threshold. */
  predicate IsOrphan(stored: map<string, Execution>, mark: Execution, active: set<string>) {
    var k := FullKey(mark);
    && k in stored && IsRunning(stored[k])
    && mark == stored[k].(finishedAt := mark.finishedAt, success := false, output := mark.output)
    && ShortKey(mark) !in active && mark.finishedAt - mark.startedAt > STALE_THRESHOLD
  }

  lemma MarksAreOrphans(stored: map<string, Execution>, executions: map<string, Execution>, jobName: string,
                        active: set<string>, now: Time, marks: seq<Execution>)
    requires AllComeFrom(stored, executions) && KeysMatch(executions)
    requires MarksStale(marks, RunningOf(executions, jobName), active, now)
    ensures forall m | m in marks :: IsOrphan(stored, m, active) && ComesFrom(stored, m)
  {
    forall i | 0 <= i < |marks| ensures IsOrphan(stored, marks[i], active) && ComesFrom(stored, marks[i]) {
      assert IsMark(marks[i], RunningOf(executions, jobName), active, now);
      var e := executions[FullKey(marks[i])];
      assert ComesFrom(stored, e) && FullKey(e) == FullKey(marks[i]);
    }
  }

  function NamesOf(jobs: seq<Job>): seq<string> {
    seq(|jobs|, i requires 0 <= i < |jobs| => jobs[i].name)
  }

  /** The jobs are stored, and no stored execution or job has a colon in its name. */
  ghost predicate PlainNames(db: Db, jobs: seq<Job>) {
    && History.ColonFree(db.executions)
    && forall i | 0 <= i < |jobs| :: jobs[i].name in db.jobs && NoColon(jobs[i].name)
  }

  lemma ListedIsPlain(env: Env, db: Db, jobs: seq<Job>)
    requires Linked(env, db) && IsJobList(jobs, db.jobs)
    ensures ValidEnv(env) && History.ColonFree(db.executions) ==> PlainNames(db, jobs)
  {
    if ValidEnv(env) {
      forall i | 0 <= i < |jobs| ensures NoColon(jobs[i].name) {
        History.ValidNameHasNoColon(env, jobs[i]);
      }
    }
  }

  /** Every command of every clean-up applies, at times past the zero time. */
  ghost predicate AllGoWell(now: nat -> Time, answers: nat -> nat -> Answer) {
    forall i :: now(i) > ZERO_TIME && AllApplied(answers(i))
  }

  /** Where the clean-up has arrived: what it wrote and, when all goes well, what it has settled. */
  ghost predicate CleanedJobs(stored: Db, db: Db, jobs: seq<Job>, active: set<string>, now: nat -> Time,
                              answers: nat -> nat -> Answer, orphans: seq<Execution>)
  {
    && db == DoneAll(stored, orphans)
    && AllComeFrom(stored.executions, db.executions)
    && (forall m | m in orphans :: IsOrphan(stored.executions, m, active))
    && (AllGoWell(now, answers) && PlainNames(stored, jobs) ==>
          History.ColonFree(db.executions) && NoneStale(db.executions, NamesOf(jobs), active, now))
  }

  lemma NothingCleaned(db: Db, active: set<string>, now: nat -> Time, answers: nat -> nat -> Answer)
    requires KeysMatch(db.executions)
    ensures CleanedJobs(db, db, [], active, now, answers, [])
  {
  }

  lemma NamesGrow(jobs: seq<Job>, job: Job)
    ensures NamesOf(jobs + [job]) == NamesOf(jobs) + [job.name]
  {
  }

  lemma PlainSoFar(env: Env, stored: Db, jobs: seq<Job>, job: Job, orphans: seq<Execution>)
    requires Linked(env, stored) && PlainNames(stored, jobs + [job])
    ensures PlainNames(stored, jobs) && NoColon(job.name) && job.name in DoneAll(stored, orphans).jobs
  {
    assert (jobs + [job])[|jobs|] == job;
    assert forall i | 0 <= i < |jobs| :: (jobs + [job])[i] == jobs[i];
    OrphansKeepLinks(env, stored, orphans);
  }

  lemma OneMoreJobSettled(env: Env, stored: Db, db: Db, jobs: seq<Job>, job: Job, active: set<string>, now: nat -> Time,
                          answers: nat -> nat -> Answer, orphans: seq<Execution>, remaining: seq<Execution>,
                          marks: seq<Execution>)
    requires Linked(env, stored) && Linked(env, db) && CleanedJobs(stored, db, jobs, active, now, answers, orphans)
    requires CleanedUp(RunningOf(db.executions, job.name), active, now(|jobs|), remaining, marks, answers(|jobs|))
    requires AllGoWell(now, answers) && PlainNames(stored, jobs + [job])
    ensures var after := DoneAll(db, marks).executions;
            History.ColonFree(after) && NoneStale(after, NamesOf(jobs + [job]), active, now)
  {
    PlainSoFar(env, stored, jobs, job, orphans);
    NamesGrow(jobs, job);
    OneMoreSettled(db, NamesOf(jobs), job.name, active, now, remaining, marks, answers(|jobs|));
  }

  lemma OneMoreCleaned(env: Env, stored: Db, db: Db, jobs: seq<Job>, job: Job, active: set<string>, now: nat -> Time,
                       answers: nat -> nat -> Answer, orphans: seq<Execution>, remaining: seq<Execution>,
                       marks: seq<Execution>)
    requires Linked(env, stored) && Linked(env, db) && CleanedJobs(stored, db, jobs, active, now, answers, orphans)
    requires CleanedUp(RunningOf(db.executions, job.name), active, now(|jobs|), remaining, marks, answers(|jobs|))
    ensures CleanedJobs(stored, DoneAll(db, marks), jobs + [job], active, now, answers, orphans + marks)
  {
    DoneAllAppend(stored, orphans, marks);
    MarksAreOrphans(stored.executions, db.executions, job.name, active, now(|jobs|), marks);
    MarksComeFrom(stored.executions, db, marks);
    if AllGoWell(now, answers) && PlainNames(stored, jobs + [job]) {
      OneMoreJobSettled(env, stored, db, jobs, job, active, now, answers, orphans, remaining, marks);
    }
  }

  /** What comes of a completion, given the store with the completion in it: a failure with attempts left is
      retried. Otherwise the dependents of a successful job run, if all are stored, and the job is deleted if
      it is ephemeral and lists none. In no other case does the job go. */
  ghost predicate FollowsUp(done: Db, e: Execution, decision: Option<Cascade.Decision>, deleteCommitted: bool,
                            after: LeaderView)
  {
    && e.jobName in done.jobs && decision.Some?
    && var job := done.jobs[e.jobName];
    var retried := !e.success && e.attempt <= job.retries;
    var complete := job.status == "success" && forall d | d in job.dependentJobs :: d in done.jobs;
    && (retried <==> decision.value.Retry?)
    && (retried ==> decision.value.execution == e.(attempt := e.attempt + 1, output := ""))
    && (!retried && complete ==> decision.value == Cascade.RunAll(job.dependentJobs, job.ephemeral))
    && (!retried && job.status != "success" ==> decision.value == Cascade.RunAll([], false))
    && if !retried && job.status == "success" && job.ephemeral && job.dependentJobs == [] && deleteCommitted
       then e.jobName !in after.db.jobs && e.jobName !in after.index
       else after.db == done
  }

  lemma WhatFollows(env: Env, v: LeaderView, e: Execution, decision: Cascade.Decision, deleteCommitted: bool)
    requires Linked(env, v.db) && e.jobName in v.db.jobs
    requires decision == Cascade.Decide(v.db.jobs, v.db.jobs[e.jobName], e)
    ensures FollowsUp(v.db, e, Some(decision), deleteCommitted,
                      if decision.RunAll? && decision.delete then AfterDeleteJob(v, e.jobName, deleteCommitted) else v)
  {
    var job := v.db.jobs[e.jobName];
    Cascade.KnownAll(v.db.jobs, job.dependentJobs);
    Cascade.KnownIsPrefix(v.db.jobs, job.dependentJobs);
  }

  lemma RefreshIsAccepted(env: Env, db: Db, name: string, next: Time, clock: Clock)
    requires Linked(env, db) && name in db.jobs && db.jobs[name].parentJob == ""
    ensures var (after, reply) := StoreSpec.SetJob(env, clock, db, db.jobs[name].(next := next), true);
            && reply == Done && name in after.jobs
            && next <= after.jobs[name].next && after.jobs[name].next in {next, db.jobs[name].next}
  {
    var job := db.jobs[name].(next := next);
    NextKeepsSettings(env, db.jobs[name], next);
    Links.AcceptedSetJob(env, clock, db, job);
    Links.NextRunIs(env, clock, db, job);
  }

  class Node {
    const env: Env
    const store: Store
    const sched: Scheduler

    ghost predicate Valid()
      reads store, sched
    {
      && store.env == env && sched.env == env
      && Linked(env, store.View()) && sched.Valid()
    }

    ghost function View(): LeaderView
      reads store, sched
    {
      LeaderView(store.View(), sched.started, sched.Index())
    }

    constructor (env: Env)
      ensures Valid() && View() == LeaderView(EMPTY, false, map[]) && this.env == env
      ensures fresh(store) && fresh(sched)
    {
      this.env := env;
      store := new Store(env);
      sched := new Scheduler(env);
    }

    method SetJob(job: Job, committed: bool, clock: Clock) returns (ok: bool)
      requires Valid() && ValidEnv(env)
      modifies store, sched
      ensures Valid() && View() == AfterSetJob(env, old(View()), job, committed, clock)
      ensures ok <==> && committed && !AddFails(env, job)
                      && !Refused(StoreSpec.SetJob(env, clock, old(View()).db, job, true).1)
    {
      if !committed {
        return false;
      }
      var reply := store.Apply(SetJobCommand(job), clock);
      if reply == Failed(ParentNotFound) || reply == Failed(SameParent) {
        return false;
      }
      ok := sched.AddJob(job);
    }

    method DeleteJob(name: string, committed: bool, clock: Clock) returns (job: Option<Job>)
      requires Valid() && ValidEnv(env)
      modifies store, sched
      ensures Valid() && View() == AfterDeleteJob(old(View()), name, committed)
      ensures var reply := StoreSpec.DeleteJob(old(View()).db, name).1;
              job == if committed && reply.Deleted? then Some(reply.job) else None
    {
      if !committed {
        return None;
      }
      var reply := store.Apply(DeleteJobCommand(name), clock);
      if !reply.Deleted? {
        return None;
      }
      sched.RemoveJob(reply.job.name);
      job := Some(reply.job);
    }

    /** The part of Run before any node is chosen; next is the cron entry's next time. */
    method RefreshNext(name: string, next: Time, committed: bool, clock: Clock) returns (ok: bool)
      requires Valid() && ValidEnv(env)
      modifies store
      ensures Valid() && View() == AfterRun(env, old(View()), name, next, committed, clock)
      ensures ok <==> var v := old(View());
                      name in v.db.jobs && (v.db.jobs[name].parentJob == "" ==> name in v.index && committed)
      ensures ok && old(store.jobs)[name].parentJob == "" ==>
                && name in store.jobs && next <= store.jobs[name].next
                && store.jobs[name].next in {next, old(store.jobs)[name].next}
    {
      var job := store.GetJob(name);
      if job.None? {
        return false;
      }
      if job.value.parentJob == "" {
        var found, _ := sched.GetEntryJob(name);
        if !found || !committed {
          return false;
        }
        RefreshIsAccepted(env, store.View(), name, next, clock);
        var _ := store.Apply(SetJobCommand(job.value.(next := next)), clock);
      }
      ok := true;
    }

    /** The completion of an execution, already processed by plugins: a retry to run, or the dependent
        jobs to run and, for an ephemeral job, its deletion. The runs are operations of their own. */
    method ExecutionDone(e: Execution, committed: bool, deleteCommitted: bool, clock: Clock)
      returns (decision: Option<Cascade.Decision>)
      requires Valid() && ValidEnv(env)
      modifies store, sched
      ensures Valid()
      ensures decision == None <==> !committed || e.jobName !in old(store.jobs)
      ensures decision == None ==> View() == old(View())
      ensures decision.Some? ==>
                var done := StoreSpec.ExecutionDone(old(View()).db, e).0;
                && e.jobName in done.jobs
                && decision.value == Cascade.Decide(done.jobs, done.jobs[e.jobName], e)
                && View() == if decision.value.RunAll? && decision.value.delete
                             then AfterDeleteJob(old(View()).(db := done), e.jobName, deleteCommitted)
                             else old(View()).(db := done)
      ensures committed && e.jobName in old(store.jobs) ==>
                FollowsUp(StoreSpec.ExecutionDone(old(View()).db, e).0, e, decision, deleteCommitted, View())
    {
      var known := store.GetJob(e.jobName);
      if known.None? || !committed {
        return None;
      }
      var job := RecordCompletion(e, clock);
      ghost var before := View();
      var next := FollowUp(job, e);
      if next.RunAll? && next.delete {
        var _ := DeleteJob(e.jobName, deleteCommitted, clock);
      }
      decision := Some(next);
      WhatFollows(store.env, before, e, next, deleteCommitted);
    }

    method RecordCompletion(e: Execution, clock: Clock) returns (job: Job)
      requires Valid() && ValidEnv(env) && e.jobName in store.jobs
      modifies store
      ensures Valid()
      ensures View() == old(View()).(db := StoreSpec.ExecutionDone(old(View()).db, e).0)
      ensures e.jobName in store.jobs && job == store.jobs[e.jobName]
    {
      var _ := store.Apply(ExecutionDoneCommand(e), clock);
      var found := store.GetJob(e.jobName);
      job := found.value;
    }

    /** A failure is retried while attempts are left, as the same execution with the next number. Nothing
        else runs but stored dependents, in their order and after a success of the group; the job goes
        only if it is ephemeral and all of them were found. */
    method FollowUp(job: Job, e: Execution) returns (decision: Cascade.Decision)
      ensures decision == Cascade.Decide(store.jobs, job, e)
      ensures decision.Retry? <==> !e.success && e.attempt <= job.retries
      ensures match decision
              case Retry(again) =>
                && again.(attempt := e.attempt, output := e.output) == e
                && again.attempt == e.attempt + 1 && again.output == ""
              case RunAll(names, delete) =>
                && names == (if job.status == "success" then job.dependentJobs else [])
                && (forall n | n in names :: n in store.jobs)
                && (delete <==> job.status == "success" && job.ephemeral)
              case RunSome(names) =>
                && job.status == "success" && names < job.dependentJobs && job.dependentJobs[|names|] !in store.jobs
                && forall n | n in names :: n in store.jobs
    {
      if !e.success && e.attempt < job.retries + 1 {
        var again := e.(attempt := e.attempt + 1, output := "");
        return Cascade.Retry(again);
      }
      if job.status != STATUS_SUCCESS {
        return Cascade.RunAll([], false);
      }
      var names, complete := FindDependents(job.dependentJobs);
      Cascade.KnownIsPrefix(store.jobs, job.dependentJobs);
      Cascade.KnownStops(store.jobs, job.dependentJobs);
      decision := if complete then Cascade.RunAll(names, job.ephemeral) else Cascade.RunSome(names);
    }

    /** Looks the dependent jobs up one by one; the first one missing ends the handler. */
    method FindDependents(dependents: seq<string>) returns (names: seq<string>, complete: bool)
      ensures names == Cascade.Known(store.jobs, dependents)
      ensures complete <==> |names| == |dependents|
    {
      names := [];
      for i := 0 to |dependents|
        invariant names == dependents[..i]
        invariant Cascade.Known(store.jobs, dependents) == names + Cascade.Known(store.jobs, dependents[i..])
      {
        var dj := store.GetJob(dependents[i]);
        if dj.None? {
          return names, false;
        }
        assert dependents[i..][1..] == dependents[i + 1..];
        names := names + [dependents[i]];
      }
      complete := true;
    }

    method RevokeLeadership()
      requires Valid()
      modifies sched
      ensures Valid() && View() == old(View()).(started := false)
    {
      sched.Stop();
    }

    /** active is None when the servers could not be asked; then no orphan is looked for. The jobs go to
        the scheduler as they were read before the clean-up. */
    method EstablishLeadership(active: Option<set<string>>, now: nat -> Time, answers: nat -> nat -> Answer)
      returns (ok: bool, ghost orphans: seq<Execution>, ghost list: seq<Job>)
      requires Valid()
      modifies store, sched
      ensures Valid() && IsJobList(list, old(store.jobs))
      ensures View() == AfterEstablish(env, old(View()), orphans, list)
      ensures ok <==> !old(View()).started && View().started
      ensures AcceptsZones(env) ==> View().started && if ok then Holds(View()) else sched.Index() == old(sched.Index())
      ensures if active.None? then orphans == []
              else && (forall m | m in orphans :: IsOrphan(old(store.executions), m, active.value))
                   && (ValidEnv(env) && AllGoWell(now, answers) && History.ColonFree(old(store.executions)) ==>
                         NoneStale(store.executions, NamesOf(list), active.value, now))
    {
      ghost var before := View();
      var jobs := store.GetJobs();
      list, orphans := jobs, [];
      if active.Some? {
        ListedIsPlain(env, before.db, jobs);
        orphans := ReconcileRunningExecutionOrphans(jobs, active.value, now, answers);
      }
      ok := StartScheduler(jobs, before, orphans);
      if AcceptsZones(env) {
        EstablishStarts(env, before, orphans, jobs);
      }
    }

    method StartScheduler(jobs: seq<Job>, ghost before: LeaderView, ghost orphans: seq<Execution>) returns (ok: bool)
      requires Valid() && View() == before.(db := DoneAll(before.db, orphans))
      modifies sched
      ensures Valid() && View() == AfterEstablish(env, before, orphans, jobs)
      ensures ok <==> !before.started && View().started
    {
      ok := sched.Start(jobs);
    }

    /** Every mark ends a stored running execution that is stale. When every command applies and no name
        has a colon, none of the jobs is left with a stale execution. */
    method ReconcileRunningExecutionOrphans(jobs: seq<Job>, active: set<string>, now: nat -> Time,
                                            answers: nat -> nat -> Answer)
      returns (ghost orphans: seq<Execution>)
      requires Valid()
      modifies store
      ensures Valid() && store.View() == DoneAll(old(store.View()), orphans)
      ensures forall m | m in orphans :: IsOrphan(old(store.executions), m, active)
      ensures AllGoWell(now, answers) && PlainNames(old(store.View()), jobs) ==>
                NoneStale(store.executions, NamesOf(jobs), active, now)
    {
      orphans := [];
      NothingCleaned(store.View(), active, now, answers);
      for i := 0 to |jobs|
        invariant Valid()
        invariant CleanedJobs(old(store.View()), store.View(), jobs[..i], active, now, answers, orphans)
      {
        ghost var before := store.View();
        var remaining, marks := CleanupStaleRunningExecutions(store, jobs[i].name, active, now(i), answers(i));
        OrphansKeepLinks(env, before, marks);
        OneMoreCleaned(env, old(store.View()), before, jobs[..i], jobs[i], active, now, answers, orphans, remaining,
                       marks);
        assert jobs[..i] + [jobs[i]] == jobs[..i + 1];
        orphans := orphans + marks;
      }
      assert jobs[..|jobs|] == jobs;
    }
  }
}
