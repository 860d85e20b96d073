/** Replicas that apply the same log at different times. */
module Replicas {
  import opened Wrappers
  import opened Types
  import opened StoreSpec
  import opened Links

  predicate SameJob(a: Job, b: Job) {
    a.(next := b.next) == b
  }

  predicate SameJobs(a: map<string, Job>, b: map<string, Job>) {
    a.Keys == b.Keys && forall n | n in a :: SameJob(a[n], b[n])
  }

  /** Agreement on everything but the computed next run of each job. */
  predicate Agree(a: Db, b: Db) {
    SameJobs(a.jobs, b.jobs) && a.executions == b.executions && a.stats == b.stats
  }

  predicate SameReply(r: Reply, s: Reply) {
    match (r, s)
    case (Deleted(j), Deleted(k)) => SameJob(j, k)
    case (Updated(j), Updated(k)) => SameJob(j, k)
    case _ => r == s
  }

  lemma SameUnlinked(a: map<string, Job>, b: map<string, Job>, parent: string, child: string)
    requires SameJobs(a, b)
    ensures SameJobs(Unlink(a, parent, child), Unlink(b, parent, child))
  {
    if parent in a {
      assert SameJob(a[parent], b[parent]);
      assert a[parent].dependentJobs == b[parent].dependentJobs;
    }
  }

  lemma SameLinked(a: map<string, Job>, b: map<string, Job>, parent: string, child: string)
    requires SameJobs(a, b)
    ensures SameJobs(Link(a, parent, child), Link(b, parent, child))
  {
    if parent in a {
      assert SameJob(a[parent], b[parent]);
      assert a[parent].dependentJobs == b[parent].dependentJobs;
    }
  }

  lemma SameRelinked(a: map<string, Job>, b: map<string, Job>, child: string, from: string, to: string)
    requires SameJobs(a, b)
    ensures SameJobs(Relinked(a, child, from, to), Relinked(b, child, from, to))
  {
    SameUnlinked(a, b, from, child);
    SameLinked(Unlink(a, from, child), Unlink(b, from, child), to, child);
  }

  lemma SameMerged(env: Env, c: Clock, d: Clock, a: Option<Job>, b: Option<Job>, job: Job, copy: bool)
    requires Valid(env, job)
    requires a.Some? == b.Some? && (a.Some? ==> SameJob(a.value, b.value))
    ensures var x, y := Merged(env, c, a, job, copy), Merged(env, d, b, job, copy);
            x.Some? && y.Some? && SameJob(x.value, y.value)
  {
    ValidMerges(env, c, a, job, copy);
    ValidMerges(env, d, b, job, copy);
    MergedIs(env, c, a, job, copy);
    MergedIs(env, d, b, job, copy);
    if a.Some? {
      assert Progressed(a.value, job, copy) == Progressed(b.value, job, copy);
    }
  }

  lemma SetJobAgrees(env: Env, c: Clock, d: Clock, a: Db, b: Db, job: Job)
    requires Agree(a, b)
    ensures var (x, r), (y, s) := SetJob(env, c, a, job, true), SetJob(env, d, b, job, true);
            Agree(x, y) && r == s
  {
    if Valid(env, job) && (job.parentJob != "" ==> job.parentJob in a.jobs) {
      SameMerged(env, c, d, Stored(a.jobs, job.name), Stored(b.jobs, job.name), job, true);
      var x := Merged(env, c, Stored(a.jobs, job.name), job, true).value;
      var y := Merged(env, d, Stored(b.jobs, job.name), job, true).value;
      var from := ParentOnRecord(a.jobs, job.name);
      assert from == ParentOnRecord(b.jobs, job.name);
      SameRelinked(a.jobs[job.name := x], b.jobs[job.name := y], job.name, from, job.parentJob);
    }
  }

  lemma CompletionAgrees(a: Db, b: Db, e: Execution)
    requires Agree(a, b)
    ensures var (x, r), (y, s) := ExecutionDone(a, e), ExecutionDone(b, e);
            Agree(x, y) && r == s
  {
    if e.jobName in a.jobs {
      assert SameJob(a.jobs[e.jobName], b.jobs[e.jobName]);
      assert Judge(a, e) == Judge(b, e);
      assert SameJob(Credit(a.jobs[e.jobName], e), Credit(b.jobs[e.jobName], e));
    }
  }

  lemma StepAgrees(env: Env, c: Clock, d: Clock, a: Db, b: Db, command: Command)
    requires Agree(a, b)
    ensures var (x, r), (y, s) := Step(env, c, a, command), Step(env, d, b, command);
            Agree(x, y) && SameReply(r, s)
  {
    match command
    case SetJobCommand(job) => SetJobAgrees(env, c, d, a, b, job);
    case DeleteJobCommand(name) =>
      if name in a.jobs {
        assert SameJob(a.jobs[name], b.jobs[name]);
        SameUnlinked(a.jobs - {name}, b.jobs - {name}, a.jobs[name].parentJob, name);
      }
    case SetExecutionCommand(e) =>
    case ExecutionDoneCommand(e) => CompletionAgrees(a, b, e);
    case DeleteExecutionsCommand(name) =>
      if name in a.jobs {
        assert SameJob(a.jobs[name], b.jobs[name]);
      }
  }

  /** Replicas that start alike and apply the same log, each under its own clock, agree on every
      execution and statistic and on every job field but the next run. */
  lemma {:induction false} ReplicasAgree(env: Env, c: nat -> Clock, d: nat -> Clock, a: Db, b: Db, log: seq<Command>)
    requires Agree(a, b)
    ensures Agree(Run(env, c, a, log), Run(env, d, b, log))
  {
    if log != [] {
      var n := |log| - 1;
      ReplicasAgree(env, c, d, a, b, log[..n]);
      StepAgrees(env, c(n), d(n), Run(env, c, a, log[..n]), Run(env, d, b, log[..n]), log[n]);
    }
  }

  /** They also give the same reply to every command of the log. */
  lemma RepliesAgree(env: Env, c: nat -> Clock, d: nat -> Clock, a: Db, b: Db, log: seq<Command>, i: nat)
    requires Agree(a, b) && i < |log|
    ensures SameReply(Step(env, c(i), Run(env, c, a, log[..i]), log[i]).1,
                      Step(env, d(i), Run(env, d, b, log[..i]), log[i]).1)
  {
    ReplicasAgree(env, c, d, a, b, log[..i]);
    StepAgrees(env, c(i), d(i), Run(env, c, a, log[..i]), Run(env, d, b, log[..i]), log[i]);
  }
}
