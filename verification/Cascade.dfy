/** What a completed execution sets off: a retry on its node, or the runs of dependent jobs. */
module Cascade {
  import opened Wrappers
  import opened Types
  import opened Keys
  import opened StoreSpec
  import opened Links
  import Completions
  import Runnable

  /** The decision of the ExecutionDone handler on the job as stored after the completion. */
  datatype Decision =
    | Retry(execution: Execution)
    | RunAll(names: seq<string>, delete: bool)   // every dependent job found
    | RunSome(names: seq<string>)                // the lookup after these failed

  predicate Retries(job: Job, e: Execution) {
    !e.success && e.attempt < job.retries + 1
  }

  /** The dependent jobs up to the first one that is not stored. */
  function Known(jobs: map<string, Job>, names: seq<string>): seq<string> {
    if names == [] || names[0] !in jobs then [] else [names[0]] + Known(jobs, names[1..])
  }

  function Decide(jobs: map<string, Job>, job: Job, e: Execution): Decision {
    if Retries(job, e) then Retry(e.(attempt := e.attempt + 1, output := ""))
    else if job.status != STATUS_SUCCESS then RunAll([], false)
    else
      var known := Known(jobs, job.dependentJobs);
      if |known| < |job.dependentJobs| then RunSome(known) else RunAll(known, job.ephemeral)
  }

  lemma {:induction false} KnownAll(jobs: map<string, Job>, names: seq<string>)
    ensures Known(jobs, names) == names <==> forall n | n in names :: n in jobs
  {
    if names != [] {
      KnownAll(jobs, names[1..]);
      assert names == [names[0]] + names[1..];
    }
  }

  /** After a completion that counts, a failure anywhere in its group keeps all dependents from running. */
  lemma FailureStopsDependents(db: Db, e: Execution)
    requires ExecutionDone(db, e).1 == Recorded(true)
    requires Completions.SomeWith(ExecutionDone(db, e).0, e.jobName, e.group, false)
    ensures var jobs := ExecutionDone(db, e).0.jobs;
            && e.jobName in jobs
            && (Decide(jobs, jobs[e.jobName], e).Retry? || Decide(jobs, jobs[e.jobName], e) == RunAll([], false))
  {
    Completions.StatusTells(db, e);
  }

  // ----- The retry chain of one execution -----

  /** The attempts that follow from one, itself included; outcomes(a) tells whether attempt a succeeds. */
  function Chain(job: Job, e: Execution, outcomes: nat -> bool): seq<Execution>
    decreases if e.attempt < job.retries + 1 then job.retries + 1 - e.attempt else 0
  {
    var done := e.(success := outcomes(e.attempt));
    if Retries(job, done) then [e] + Chain(job, Decide(map[], job, done).execution, outcomes) else [e]
  }

  /** From the first attempt on: at most retries + 1 attempts, numbered one after the other, all on the
      node of the first, only the last of which can have succeeded; it fails only as the last allowed. */
  lemma {:induction false} RetryChain(job: Job, e: Execution, outcomes: nat -> bool)
    requires 1 <= e.attempt <= job.retries + 1
    ensures var chain := Chain(job, e, outcomes);
            var last := e.attempt + |chain| - 1;
            && (forall i | 0 <= i < |chain| :: chain[i].attempt == e.attempt + i && chain[i].nodeName == e.nodeName)
            && last <= job.retries + 1
            && (forall a | e.attempt <= a < last :: !outcomes(a))
            && (outcomes(last) || last == job.retries + 1)
    decreases job.retries + 1 - e.attempt
  {
    var done := e.(success := outcomes(e.attempt));
    if Retries(job, done) {
      RetryChain(job, Decide(map[], job, done).execution, outcomes);
    }
  }

  // ----- The cascade of executions in flight -----

  /** The jobs with their settings, those that a success of each runs, the most nodes that one run of each
      can reach, and how often the client may dispatch to one node: each dispatch may end in a completion of
      its own. */
  datatype Plan = Plan(
    jobs: map<string, Job>, dependents: string -> seq<string>, nodes: string -> nat, dispatches: nat)

  /** One dispatch that may still complete, and when its run was launched. */
  datatype Flight = Flight(job: string, attempt: nat, since: Time)

  /** A success runs the dependents that the handler's lookup finds. */
  function PlanOf(jobs: map<string, Job>, nodes: string -> nat, dispatches: nat): Plan {
    Plan(jobs, n => if n in jobs then Known(jobs, jobs[n].dependentJobs) else [], nodes, dispatches)
  }

  function Most(plan: Plan, d: string): nat {
    plan.nodes(d) * plan.dispatches
  }

  /** The job can be dispatched by a run that begins now. The check for executions of a job that forbids
      concurrency is an outcome: it passes whenever no server reports one. */
  predicate CanStart(plan: Plan, d: string, t: Time) {
    d in plan.jobs && Runnable.MayStart(plan.jobs[d], false, t, t) && Most(plan, d) > 0
  }

  /** Copies of one flight, for every dispatch to every node that is reached. */
  predicate Dispatched(flights: seq<Flight>, job: string, attempt: nat, since: Time, most: nat) {
    && |flights| <= most
    && forall i | 0 <= i < |flights| ::
         flights[i] == Flight(job, attempt, flights[0].since) && since <= flights[0].since
  }

  /** A run of a dependent job: first attempts, if it can start. */
  predicate Started(plan: Plan, d: string, since: Time, flights: seq<Flight>) {
    && Dispatched(flights, d, 1, since, Most(plan, d))
    && (flights != [] ==> CanStart(plan, d, flights[0].since))
  }

  /** What one completion may launch: one retry on one node; or, if nothing is retried and the status is
      success, runs of the dependent jobs, in the order of the list. */
  predicate Launches(plan: Plan, f: Flight, success: bool, statusSuccess: bool, runs: seq<seq<Flight>>) {
    if f.job !in plan.jobs then runs == []
    else if !success && f.attempt < plan.jobs[f.job].retries + 1 then
      |runs| == 1 && Dispatched(runs[0], f.job, f.attempt + 1, f.since, plan.dispatches)
    else if statusSuccess then
      && |runs| <= |plan.dependents(f.job)|
      && forall i | 0 <= i < |runs| :: Started(plan, plan.dependents(f.job)[i], f.since, runs[i])
    else runs == []
  }

  function Flatten(runs: seq<seq<Flight>>): seq<Flight> {
    if runs == [] then [] else runs[0] + Flatten(runs[1..])
  }

  ghost predicate CascadeStep(plan: Plan, before: seq<Flight>, after: seq<Flight>) {
    exists i, success, statusSuccess, runs ::
      0 <= i < |before| && Launches(plan, before[i], success, statusSuccess, runs) &&
      after == before[..i] + before[i + 1..] + Flatten(runs)
  }

  ghost predicate IsCascade(plan: Plan, states: seq<seq<Flight>>) {
    |states| > 1 ==> CascadeStep(plan, states[0], states[1]) && IsCascade(plan, states[1..])
  }

  // ----- The handler's runs -----

  lemma {:induction false} KnownIsPrefix(jobs: map<string, Job>, names: seq<string>)
    ensures Known(jobs, names) <= names
  {
    if names != [] && names[0] in jobs {
      KnownIsPrefix(jobs, names[1..]);
    }
  }

  lemma {:induction false} KnownStops(jobs: map<string, Job>, names: seq<string>)
    ensures var known := Known(jobs, names);
            && (forall n | n in known :: n in jobs)
            && (known < names ==> names[|known|] !in jobs)
  {
    KnownIsPrefix(jobs, names);
    if names != [] && names[0] in jobs {
      KnownStops(jobs, names[1..]);
      KnownIsPrefix(jobs, names[1..]);
    }
  }

  /** The settings that a cascade depends on. */
  predicate SameSettings(jobs: map<string, Job>, after: map<string, Job>) {
    && jobs.Keys == after.Keys
    && forall n | n in jobs ::
         && after[n].retries == jobs[n].retries && after[n].dependentJobs == jobs[n].dependentJobs
         && after[n].disabled == jobs[n].disabled
         && after[n].startsAt == jobs[n].startsAt && after[n].expiresAt == jobs[n].expiresAt
  }

  /** Completions keep them. */
  lemma CompletionKeepsSettings(db: Db, e: Execution)
    ensures SameSettings(db.jobs, ExecutionDone(db, e).0.jobs)
  {
  }

  /** Job.Run goes on, with clock readings that begin at t. */
  ghost predicate GoAhead(job: Job, t: Time) {
    exists globalLock, expiryCheck ::
      t <= expiryCheck && Runnable.MayStart(job, globalLock, t, expiryCheck)
  }

  /** The flights that the runs of a decision put in the air. */
  ghost predicate RunsOf(plan: Plan, jobs: map<string, Job>, decision: Decision, since: Time, runs: seq<seq<Flight>>) {
    match decision
    case Retry(again) => |runs| == 1 && Dispatched(runs[0], again.jobName, again.attempt, since, plan.dispatches)
    case RunAll(names, _) => FirstAttempts(plan, jobs, names, since, runs)
    case RunSome(names) => FirstAttempts(plan, jobs, names, since, runs)
  }

  ghost predicate FirstAttempts(plan: Plan, jobs: map<string, Job>, names: seq<string>, since: Time,
                                runs: seq<seq<Flight>>)
  {
    && |runs| <= |names|
    && forall i | 0 <= i < |runs| ::
         && Dispatched(runs[i], names[i], 1, since, Most(plan, names[i]))
         && (runs[i] != [] ==> names[i] in jobs && GoAhead(jobs[names[i]], runs[i][0].since))
  }

  lemma {:induction false} KnownSame(jobs: map<string, Job>, after: map<string, Job>, names: seq<string>)
    requires jobs.Keys == after.Keys
    ensures Known(jobs, names) == Known(after, names)
  {
    if names != [] {
      KnownSame(jobs, after, names[1..]);
    }
  }

  /** Whatever the handler decides to run, on however many nodes and however often dispatched, is such a
      launch. */
  lemma DecisionLaunches(plan: Plan, jobs: map<string, Job>, e: Execution, since: Time, runs: seq<seq<Flight>>)
    requires plan == PlanOf(plan.jobs, plan.nodes, plan.dispatches)
    requires SameSettings(plan.jobs, jobs) && e.jobName in jobs
    requires RunsOf(plan, jobs, Decide(jobs, jobs[e.jobName], e), since, runs)
    ensures Launches(plan, Flight(e.jobName, e.attempt, since), e.success,
                     jobs[e.jobName].status == STATUS_SUCCESS, runs)
  {
    var names := jobs[e.jobName].dependentJobs;
    KnownSame(plan.jobs, jobs, names);
    if !Retries(jobs[e.jobName], e) && jobs[e.jobName].status == STATUS_SUCCESS {
      forall i | 0 <= i < |runs| ensures Started(plan, Known(jobs, names)[i], since, runs[i]) {
        StartedWhenRun(plan, jobs, Known(jobs, names)[i], since, runs[i]);
      }
    }
  }

  lemma StartedWhenRun(plan: Plan, jobs: map<string, Job>, d: string, since: Time, flights: seq<Flight>)
    requires SameSettings(plan.jobs, jobs) && Dispatched(flights, d, 1, since, Most(plan, d))
    requires flights != [] ==> d in jobs && GoAhead(jobs[d], flights[0].since)
    ensures Started(plan, d, since, flights)
  {
  }

  /** The start of a retry still carries the finish of the attempt that failed. Recorded, it is no running
      execution, and the check of a job that forbids concurrency does not find it in the store. */
  lemma RetryNotFound(env: Env, db: Db, job: Job, e: Execution, startedAt: Time, nodeName: string)
    requires Retries(job, e) && e.finishedAt > ZERO_TIME
    ensures var start := Decide(db.jobs, job, e).execution.(startedAt := startedAt, nodeName := nodeName);
            && !IsRunning(start)
            && FullKey(start) !in Runnable.RunningOf(SetExecution(env, db, start).0.executions, start.jobName)
  {
    var start := Decide(db.jobs, job, e).execution.(startedAt := startedAt, nodeName := nodeName);
    assert Write(db.executions, start)[FullKey(start)].finishedAt > ZERO_TIME;
  }

  // ----- Phases -----

  /** The jobs whose start is still to come, and those not expired: as time goes by both only lose. */
  function Waiting(plan: Plan, t: Time): set<string> {
    set n | n in plan.jobs && plan.jobs[n].startsAt.Some? && t < plan.jobs[n].startsAt.value
  }

  function Lasting(plan: Plan, t: Time): set<string> {
    set n | n in plan.jobs && plan.jobs[n].expiresAt.Some? && t <= plan.jobs[n].expiresAt.value
  }

  /** How many starts and expiries are ahead. */
  function Phase(plan: Plan, t: Time): nat {
    |Waiting(plan, t)| + |Lasting(plan, t)|
  }

  lemma SubsetSize<T>(a: set<T>, b: set<T>)
    requires a <= b
    ensures |a| <= |b| && (|a| == |b| ==> a == b)
  {
    assert b == a + (b - a) && |b| == |a| + |b - a|;
    if |a| == |b| {
      assert b - a == {};
    }
  }

  lemma PhaseFalls(plan: Plan, s: Time, t: Time)
    requires s <= t
    ensures Phase(plan, t) <= Phase(plan, s)
    ensures Phase(plan, t) == Phase(plan, s) ==> forall d :: CanStart(plan, d, t) <==> CanStart(plan, d, s)
  {
    SubsetSize(Waiting(plan, t), Waiting(plan, s));
    SubsetSize(Lasting(plan, t), Lasting(plan, s));
    if Phase(plan, t) == Phase(plan, s) {
      forall d ensures CanStart(plan, d, t) <==> CanStart(plan, d, s) {
        assert d in Waiting(plan, t) <==> d in Waiting(plan, s);
        assert d in Lasting(plan, t) <==> d in Lasting(plan, s);
      }
    }
  }

  ghost predicate OpenIn(plan: Plan, d: string, p: nat) {
    exists t :: Phase(plan, t) == p && CanStart(plan, d, t)
  }

  /** The earliest phase, from this one on, in which the job can start; phases count down. */
  ghost function NextOpen(plan: Plan, d: string, p: nat): (q: Option<nat>)
    ensures q.Some? ==> q.value <= p && OpenIn(plan, d, q.value)
    ensures forall r: nat | r <= p && OpenIn(plan, d, r) :: q.Some? && r <= q.value
  {
    if OpenIn(plan, d, p) then Some(p)
    else if p == 0 then None
    else NextOpen(plan, d, p - 1)
  }

  // ----- The measure: phase, dependency rank and remaining attempts -----

  /** A ranking witnesses that the dependencies on jobs that can start now are acyclic. */
  ghost predicate Ranked(plan: Plan, t: Time, rank: string -> nat) {
    forall n, d | n in plan.jobs && d in plan.dependents(n) && CanStart(plan, d, t) :: rank(d) < rank(n)
  }

  /** A ranking for each phase. */
  ghost predicate AlwaysRanked(plan: Plan, ranks: nat -> string -> nat) {
    forall t {:trigger Phase(plan, t)} :: Ranked(plan, t, ranks(Phase(plan, t)))
  }

  lemma OpenRanks(plan: Plan, ranks: nat -> string -> nat, p: nat, n: string, d: string)
    requires AlwaysRanked(plan, ranks) && n in plan.jobs && d in plan.dependents(n) && OpenIn(plan, d, p)
    ensures ranks(p)(d) < ranks(p)(n)
  {
    var t :| Phase(plan, t) == p && CanStart(plan, d, t);
    assert Ranked(plan, t, ranks(p));
  }

  function Remaining(plan: Plan, job: string, attempt: nat): nat
    requires job in plan.jobs
  {
    if attempt <= plan.jobs[job].retries then plan.jobs[job].retries + 1 - attempt else 0
  }

  /** More than what all executions set off by this one can weigh together, from this phase on. */
  ghost function Weight(plan: Plan, ranks: nat -> string -> nat, p: nat, job: string, attempt: nat): nat
    requires AlwaysRanked(plan, ranks)
    decreases p, ranks(p)(job), if job in plan.jobs then 1 + Remaining(plan, job, attempt) else 0, 0
  {
    1 + (if p > 0 then Weight(plan, ranks, p - 1, job, attempt) else 0)
    + if job !in plan.jobs then 0
      else RetryWeight(plan, ranks, p, job, attempt) + DependentWeight(plan, ranks, p, job, 0)
  }

  ghost function RetryWeight(plan: Plan, ranks: nat -> string -> nat, p: nat, job: string, attempt: nat): nat
    requires AlwaysRanked(plan, ranks) && job in plan.jobs
    decreases p, ranks(p)(job), Remaining(plan, job, attempt), 1
  {
    if attempt > plan.jobs[job].retries then 0
    else plan.dispatches * Weight(plan, ranks, p, job, attempt + 1)
  }

  ghost function DependentWeight(plan: Plan, ranks: nat -> string -> nat, p: nat, job: string, k: nat): nat
    requires AlwaysRanked(plan, ranks) && job in plan.jobs && k <= |plan.dependents(job)|
    decreases p, ranks(p)(job), 0, |plan.dependents(job)| - k
  {
    if k == |plan.dependents(job)| then 0
    else
      var d := plan.dependents(job)[k];
      var rest := DependentWeight(plan, ranks, p, job, k + 1);
      match NextOpen(plan, d, p)
      case None => rest
      case Some(q) =>
        OpenRanks(plan, ranks, q, job, d);
        Most(plan, d) * Weight(plan, ranks, q, d, 1) + rest
  }

  ghost function FlightWeight(plan: Plan, ranks: nat -> string -> nat, f: Flight): nat
    requires AlwaysRanked(plan, ranks)
  {
    Weight(plan, ranks, Phase(plan, f.since), f.job, f.attempt)
  }

  ghost function Total(plan: Plan, ranks: nat -> string -> nat, flights: seq<Flight>): nat
    requires AlwaysRanked(plan, ranks)
  {
    if flights == [] then 0 else FlightWeight(plan, ranks, flights[0]) + Total(plan, ranks, flights[1..])
  }

  lemma {:induction false} LaterWeighsLess(plan: Plan, ranks: nat -> string -> nat, q: nat, p: nat, job: string,
                                           attempt: nat)
    requires AlwaysRanked(plan, ranks) && q <= p
    ensures Weight(plan, ranks, q, job, attempt) <= Weight(plan, ranks, p, job, attempt)
    decreases p
  {
    if q < p {
      LaterWeighsLess(plan, ranks, q, p - 1, job, attempt);
    }
  }

  lemma {:induction false} TotalAppend(plan: Plan, ranks: nat -> string -> nat, a: seq<Flight>, b: seq<Flight>)
    requires AlwaysRanked(plan, ranks)
    ensures Total(plan, ranks, a + b) == Total(plan, ranks, a) + Total(plan, ranks, b)
  {
    if a == [] {
      assert a + b == b;
    } else {
      TotalAppend(plan, ranks, a[1..], b);
      assert (a + b)[1..] == a[1..] + b;
    }
  }

  lemma TimesMonotone(a: nat, b: nat, v: nat, w: nat)
    requires a <= b && v <= w
    ensures a * v <= b * w
  {
    assert b * w == a * v + (b - a) * w + a * (w - v);
  }

  lemma {:induction false} TotalSame(plan: Plan, ranks: nat -> string -> nat, flights: seq<Flight>, f: Flight)
    requires AlwaysRanked(plan, ranks) && forall i | 0 <= i < |flights| :: flights[i] == f
    ensures Total(plan, ranks, flights) == |flights| * FlightWeight(plan, ranks, f)
  {
    if flights != [] {
      var w := FlightWeight(plan, ranks, f);
      TotalSame(plan, ranks, flights[1..], f);
      assert flights[0] == f && |flights| * w == (|flights| - 1) * w + w;
    }
  }

  /** Dispatches in a later phase weigh at most what was set aside for them. */
  lemma DispatchedWeight(plan: Plan, ranks: nat -> string -> nat, flights: seq<Flight>, job: string, attempt: nat,
                         since: Time, most: nat, p: nat)
    requires AlwaysRanked(plan, ranks) && Dispatched(flights, job, attempt, since, most)
    requires flights != [] ==> Phase(plan, flights[0].since) <= p
    ensures Total(plan, ranks, flights) <= most * Weight(plan, ranks, p, job, attempt)
  {
    if flights != [] {
      TotalSame(plan, ranks, flights, flights[0]);
      LaterWeighsLess(plan, ranks, Phase(plan, flights[0].since), p, job, attempt);
      TimesMonotone(|flights|, most, FlightWeight(plan, ranks, flights[0]), Weight(plan, ranks, p, job, attempt));
    }
  }

  lemma StartedWeight(plan: Plan, ranks: nat -> string -> nat, job: string, since: Time, flights: seq<Flight>, k: nat)
    requires AlwaysRanked(plan, ranks) && job in plan.jobs && k < |plan.dependents(job)|
    requires Started(plan, plan.dependents(job)[k], since, flights)
    ensures var p := Phase(plan, since);
            Total(plan, ranks, flights) + DependentWeight(plan, ranks, p, job, k + 1)
            <= DependentWeight(plan, ranks, p, job, k)
  {
    var d, p := plan.dependents(job)[k], Phase(plan, since);
    if flights != [] {
      var t := flights[0].since;
      PhaseFalls(plan, since, t);
      assert OpenIn(plan, d, Phase(plan, t));
      var q := NextOpen(plan, d, p).value;
      DispatchedWeight(plan, ranks, flights, d, 1, since, Most(plan, d), q);
    }
  }

  /** Runs of the dependents from the k-th on. */
  predicate StartedFrom(plan: Plan, job: string, since: Time, runs: seq<seq<Flight>>, k: nat) {
    && k + |runs| <= |plan.dependents(job)|
    && forall i | 0 <= i < |runs| :: Started(plan, plan.dependents(job)[k + i], since, runs[i])
  }

  lemma StartedParts(plan: Plan, job: string, since: Time, runs: seq<seq<Flight>>, k: nat)
    requires StartedFrom(plan, job, since, runs, k) && runs != []
    ensures Started(plan, plan.dependents(job)[k], since, runs[0])
    ensures StartedFrom(plan, job, since, runs[1..], k + 1)
  {
    assert Started(plan, plan.dependents(job)[k + 0], since, runs[0]);
    forall i | 0 <= i < |runs| - 1 ensures Started(plan, plan.dependents(job)[k + 1 + i], since, runs[1..][i]) {
      assert Started(plan, plan.dependents(job)[k + (i + 1)], since, runs[i + 1]);
    }
  }

  lemma {:induction false} RunsWeight(plan: Plan, ranks: nat -> string -> nat, job: string, since: Time,
                                      runs: seq<seq<Flight>>, k: nat)
    requires AlwaysRanked(plan, ranks) && job in plan.jobs && StartedFrom(plan, job, since, runs, k)
    ensures Total(plan, ranks, Flatten(runs)) <= DependentWeight(plan, ranks, Phase(plan, since), job, k)
    decreases |runs|
  {
    if runs != [] {
      StartedParts(plan, job, since, runs, k);
      RunsWeight(plan, ranks, job, since, runs[1..], k + 1);
      TotalAppend(plan, ranks, runs[0], Flatten(runs[1..]));
      StartedWeight(plan, ranks, job, since, runs[0], k);
    }
  }

  lemma RetriesWeight(plan: Plan, ranks: nat -> string -> nat, f: Flight, runs: seq<seq<Flight>>)
    requires AlwaysRanked(plan, ranks) && f.job in plan.jobs && f.attempt < plan.jobs[f.job].retries + 1
    requires |runs| == 1 && Dispatched(runs[0], f.job, f.attempt + 1, f.since, plan.dispatches)
    ensures Total(plan, ranks, Flatten(runs)) <= RetryWeight(plan, ranks, Phase(plan, f.since), f.job, f.attempt)
  {
    assert Flatten(runs[1..]) == [] && Flatten(runs) == runs[0];
    if runs[0] != [] {
      PhaseFalls(plan, f.since, runs[0][0].since);
    }
    DispatchedWeight(plan, ranks, runs[0], f.job, f.attempt + 1, f.since, plan.dispatches, Phase(plan, f.since));
  }

  lemma LaunchesWeighLess(plan: Plan, ranks: nat -> string -> nat, f: Flight, success: bool, statusSuccess: bool,
                          runs: seq<seq<Flight>>)
    requires AlwaysRanked(plan, ranks) && Launches(plan, f, success, statusSuccess, runs)
    ensures Total(plan, ranks, Flatten(runs)) < FlightWeight(plan, ranks, f)
  {
    if runs == [] {
      assert Total(plan, ranks, []) == 0;
    } else if !success && f.attempt < plan.jobs[f.job].retries + 1 {
      RetriesWeight(plan, ranks, f, runs);
    } else {
      assert StartedFrom(plan, f.job, f.since, runs, 0);
      RunsWeight(plan, ranks, f.job, f.since, runs, 0);
    }
  }

  lemma TotalReplaced(plan: Plan, ranks: nat -> string -> nat, before: seq<Flight>, i: nat, more: seq<Flight>)
    requires AlwaysRanked(plan, ranks) && i < |before|
    ensures Total(plan, ranks, before[..i] + before[i + 1..] + more) ==
            Total(plan, ranks, before) - FlightWeight(plan, ranks, before[i]) + Total(plan, ranks, more)
  {
    var a, b, c := before[..i], [before[i]], before[i + 1..];
    assert before == a + (b + c);
    TotalAppend(plan, ranks, a, b + c);
    TotalAppend(plan, ranks, b, c);
    TotalAppend(plan, ranks, a, c);
    TotalAppend(plan, ranks, a + c, more);
    TotalSame(plan, ranks, b, before[i]);
  }

  lemma StepWeighsLess(plan: Plan, ranks: nat -> string -> nat, before: seq<Flight>, after: seq<Flight>)
    requires AlwaysRanked(plan, ranks) && CascadeStep(plan, before, after)
    ensures Total(plan, ranks, after) < Total(plan, ranks, before)
  {
    var i, success, statusSuccess, runs :|
      0 <= i < |before| && Launches(plan, before[i], success, statusSuccess, runs) &&
      after == before[..i] + before[i + 1..] + Flatten(runs);
    LaunchesWeighLess(plan, ranks, before[i], success, statusSuccess, runs);
    TotalReplaced(plan, ranks, before, i, Flatten(runs));
  }

  /** With a ranking for each phase every interleaving of completions, retries and dependent runs ends:
      no cascade is longer than the weight of where it began. */
  lemma {:induction false} CascadeTerminates(plan: Plan, ranks: nat -> string -> nat, states: seq<seq<Flight>>)
    requires AlwaysRanked(plan, ranks) && IsCascade(plan, states) && |states| > 0
    ensures |states| - 1 <= Total(plan, ranks, states[0])
  {
    if |states| > 1 {
      StepWeighsLess(plan, ranks, states[0], states[1]);
      CascadeTerminates(plan, ranks, states[1..]);
    }
  }

  // ----- Cycles -----

  ghost predicate HasDependentIn(plan: Plan, t: Time, jobs: set<string>, n: string) {
    n in plan.jobs && exists d | d in plan.dependents(n) :: d in jobs && CanStart(plan, d, t)
  }

  /** Some jobs of which each has one of them that can start now among its dependents: a cycle. */
  ghost predicate Cyclic(plan: Plan, t: Time, jobs: set<string>) {
    jobs != {} && forall n {:trigger HasDependentIn(plan, t, jobs, n)} | n in jobs :: HasDependentIn(plan, t, jobs, n)
  }

  lemma {:induction false} OneAfterNone(i: nat, f: Flight)
    ensures Flatten(seq(i, _ => []) + [[f]]) == [f]
  {
    var runs: seq<seq<Flight>> := seq(i, _ => []) + [[f]];
    if i == 0 {
      assert runs[1..] == [];
    } else {
      OneAfterNone(i - 1, f);
      assert runs[0] == [] && runs[1..] == seq(i - 1, _ => []) + [[f]];
    }
  }

  /** On a cycle a cascade can go on for any number of steps. */
  lemma {:induction false} CycleNeverEnds(plan: Plan, t: Time, jobs: set<string>, start: string, n: nat)
    returns (states: seq<seq<Flight>>)
    requires Cyclic(plan, t, jobs) && start in jobs
    ensures IsCascade(plan, states) && |states| == n + 1 && states[0] == [Flight(start, 1, t)]
    decreases n
  {
    if n == 0 {
      return [[Flight(start, 1, t)]];
    }
    assert HasDependentIn(plan, t, jobs, start);
    var d :| d in plan.dependents(start) && d in jobs && CanStart(plan, d, t);
    var rest := CycleNeverEnds(plan, t, jobs, d, n - 1);
    OneDependentRuns(plan, t, start, d);
    states := [[Flight(start, 1, t)]] + rest;
    OneMoreStep(plan, [Flight(start, 1, t)], rest);
  }

  lemma OneMoreStep(plan: Plan, before: seq<Flight>, rest: seq<seq<Flight>>)
    requires rest != [] && CascadeStep(plan, before, rest[0]) && IsCascade(plan, rest)
    ensures IsCascade(plan, [before] + rest)
  {
    assert ([before] + rest)[1..] == rest;
  }

  lemma OneDependentRuns(plan: Plan, t: Time, job: string, d: string)
    requires job in plan.jobs && d in plan.dependents(job) && CanStart(plan, d, t)
    ensures CascadeStep(plan, [Flight(job, 1, t)], [Flight(d, 1, t)])
  {
    var i :| 0 <= i < |plan.dependents(job)| && plan.dependents(job)[i] == d;
    var before, runs := [Flight(job, 1, t)], seq(i, _ => []) + [[Flight(d, 1, t)]];
    OneAfterNone(i, Flight(d, 1, t));
    assert Launches(plan, before[0], true, true, runs);
    assert before[..0] + before[1..] + Flatten(runs) == [Flight(d, 1, t)];
  }

  // ----- Ranked or cyclic -----

  ghost predicate Settled(plan: Plan, t: Time, done: set<string>, n: string)
    requires n in plan.jobs
  {
    forall d | d in plan.dependents(n) :: CanStart(plan, d, t) ==> d in done
  }

  /** A ranking of some jobs, each above its dependents that can start now. */
  ghost predicate PartlyRanked(plan: Plan, t: Time, done: set<string>, rank: string -> nat) {
    && done <= plan.jobs.Keys
    && forall n | n in done ::
         && rank(n) <= |done| && Settled(plan, t, done, n)
         && forall d | d in plan.dependents(n) && CanStart(plan, d, t) :: rank(d) < rank(n)
  }

  /** Either the jobs can be ranked, or some of them form a cycle: rank again and again a job whose
      dependents all are ranked, until none is left or none can be. */
  lemma {:induction false} RankOrCycle(plan: Plan, t: Time, done: set<string>, rank: string -> nat)
    returns (r: string -> nat, cycle: set<string>)
    requires PartlyRanked(plan, t, done, rank)
    ensures Ranked(plan, t, r) || Cyclic(plan, t, cycle)
    decreases plan.jobs.Keys - done
  {
    var left := plan.jobs.Keys - done;
    r, cycle := rank, left;
    if n :| n in left && Settled(plan, t, done, n) {
      RankOne(plan, t, done, rank, n);
      r, cycle := RankOrCycle(plan, t, done + {n}, Above(rank, n, |done| + 1));
    } else if left == {} {
      forall n | n in plan.jobs ensures n in done {
        assert n !in left;
      }
    } else {
      forall n | n in left ensures HasDependentIn(plan, t, left, n) {
        assert !Settled(plan, t, done, n);
      }
    }
  }

  function Above(rank: string -> nat, n: string, height: nat): string -> nat {
    m => if m == n then height else rank(m)
  }

  lemma RankOne(plan: Plan, t: Time, done: set<string>, rank: string -> nat, n: string)
    requires PartlyRanked(plan, t, done, rank) && n in plan.jobs && n !in done && Settled(plan, t, done, n)
    ensures PartlyRanked(plan, t, done + {n}, Above(rank, n, |done| + 1))
  {
    var more, above := done + {n}, Above(rank, n, |done| + 1);
    assert |more| == |done| + 1;
    forall m | m in more
      ensures above(m) <= |more| && Settled(plan, t, more, m)
      ensures forall d | d in plan.dependents(m) && CanStart(plan, d, t) :: above(d) < above(m)
    {
      assert Settled(plan, t, done, m);
    }
  }

  /** No cascade from here takes more steps than this. */
  ghost predicate Bounded(plan: Plan, start: seq<Flight>, bound: nat) {
    forall states {:trigger IsCascade(plan, states)} ::
      IsCascade(plan, states) && |states| > 0 && states[0] == start ==> |states| - 1 <= bound
  }

  ghost predicate Ends(plan: Plan, start: seq<Flight>) {
    exists bound: nat :: Bounded(plan, start, bound)
  }

  /** A ranking for the phase, from any moment in it. */
  ghost function RankIn(plan: Plan, p: nat): string -> nat {
    if exists t, rank :: Phase(plan, t) == p && Ranked(plan, t, rank) then
      var t, rank :| Phase(plan, t) == p && Ranked(plan, t, rank);
      rank
    else _ => 0
  }

  lemma RankedInPhase(plan: Plan, t: Time, rank: string -> nat)
    requires Ranked(plan, t, rank)
    ensures Ranked(plan, t, RankIn(plan, Phase(plan, t)))
  {
    var s, r :| Phase(plan, s) == Phase(plan, t) && Ranked(plan, s, r) && r == RankIn(plan, Phase(plan, t));
    if s <= t {
      PhaseFalls(plan, s, t);
    } else {
      PhaseFalls(plan, t, s);
    }
  }

  /** Cascades end, each within a bound known where it starts, if and only if at no time some jobs that can
      all start form a cycle. */
  lemma EndsIffAcyclic(plan: Plan)
    ensures (forall start :: Ends(plan, start)) <==> forall t, cycle :: !Cyclic(plan, t, cycle)
  {
    if t, cycle :| Cyclic(plan, t, cycle) {
      var n :| n in cycle;
      CycleUnbounded(plan, t, cycle, n);
    } else {
      var ranks := AcyclicIsRanked(plan);
      forall start ensures Ends(plan, start) {
        RankBounds(plan, ranks, start);
      }
    }
  }

  lemma AcyclicIsRanked(plan: Plan) returns (ranks: nat -> string -> nat)
    requires forall t, cycle :: !Cyclic(plan, t, cycle)
    ensures AlwaysRanked(plan, ranks)
  {
    ranks := (p: nat) => RankIn(plan, p);
    forall t ensures Ranked(plan, t, ranks(Phase(plan, t))) {
      var r, cycle := RankOrCycle(plan, t, {}, _ => 0);
      RankedInPhase(plan, t, r);
    }
  }

  lemma CycleUnbounded(plan: Plan, t: Time, cycle: set<string>, n: string)
    requires Cyclic(plan, t, cycle) && n in cycle
    ensures !Ends(plan, [Flight(n, 1, t)])
  {
    forall bound: nat ensures !Bounded(plan, [Flight(n, 1, t)], bound) {
      var states := CycleNeverEnds(plan, t, cycle, n, bound + 1);
      assert IsCascade(plan, states);
    }
  }

  lemma RankBounds(plan: Plan, ranks: nat -> string -> nat, start: seq<Flight>)
    requires AlwaysRanked(plan, ranks)
    ensures Ends(plan, start)
  {
    forall states | IsCascade(plan, states) && |states| > 0 && states[0] == start
      ensures |states| - 1 <= Total(plan, ranks, start)
    {
      CascadeTerminates(plan, ranks, states);
    }
    assert Bounded(plan, start, Total(plan, ranks, start));
  }

  // ----- The store accepts a cycle -----

  /** Nothing that decides when the job may start differs. */
  predicate SameWindow(given: Job, job: Job) {
    job.disabled == given.disabled && job.startsAt == given.startsAt && job.expiresAt == given.expiresAt
  }

  /** Three accepted requests, a job, a second one under it, and then the first one under the second,
      leave a store in which each lists the other. Its cascades end if and only if the two can at no time
      both start. */
  lemma StoreAcceptsCycle(env: Env, clock: nat -> Clock, a: Job, b: Job, nodes: string -> nat, dispatches: nat)
    requires Valid(env, a) && Valid(env, b) && Valid(env, a.(parentJob := b.name))
    requires a.parentJob == "" && b.parentJob == a.name && a.dependentJobs == b.dependentJobs == []
    ensures var log := [SetJobCommand(a), SetJobCommand(b), SetJobCommand(a.(parentJob := b.name))];
            var jobs := Run(env, clock, EMPTY, log).jobs;
            && jobs.Keys == {a.name, b.name}
            && jobs[a.name].dependentJobs == [b.name] && jobs[b.name].dependentJobs == [a.name]
            && ((forall start :: Ends(PlanOf(jobs, nodes, dispatches), start)) <==>
                nodes(a.name) * dispatches == 0 || nodes(b.name) * dispatches == 0 || NeverBoth(a, b))
  {
    RunThree(env, clock, SetJobCommand(a), SetJobCommand(b), SetJobCommand(a.(parentJob := b.name)));
    var jobs := ThreeStored(env, clock, a, b);
    MutualJobs(jobs, a, b, nodes, dispatches);
  }

  predicate StartsPast(a: Job, b: Job) {
    a.startsAt.Some? && b.expiresAt.Some? && a.startsAt.value > b.expiresAt.value
  }

  /** One of them is disabled, or the start of one is past the expiry of one. */
  predicate NeverBoth(a: Job, b: Job) {
    || a.disabled || b.disabled
    || StartsPast(a, a) || StartsPast(a, b) || StartsPast(b, a) || StartsPast(b, b)
  }

  predicate BothMayStart(a: Job, b: Job, t: Time) {
    Runnable.MayStart(a, false, t, t) && Runnable.MayStart(b, false, t, t)
  }

  lemma NeverBothIff(a: Job, b: Job)
    ensures NeverBoth(a, b) <==> forall t :: !BothMayStart(a, b, t)
  {
    if !NeverBoth(a, b) {
      var starts := if b.startsAt.Some? && (a.startsAt.None? || a.startsAt.value < b.startsAt.value) then b.startsAt
                    else a.startsAt;
      var expires := if b.expiresAt.Some? && (a.expiresAt.None? || b.expiresAt.value < a.expiresAt.value)
                     then b.expiresAt else a.expiresAt;
      assert BothMayStart(a, b, if starts.Some? then starts.value else expires.GetOr(0));
    }
  }

  lemma KnownOne(jobs: map<string, Job>, n: string)
    requires n in jobs
    ensures Known(jobs, [n]) == [n]
  {
    assert [n][1..] == [];
  }

  lemma MutualJobs(jobs: map<string, Job>, a: Job, b: Job, nodes: string -> nat, dispatches: nat)
    requires jobs.Keys == {a.name, b.name}
    requires jobs[a.name].dependentJobs == [b.name] && jobs[b.name].dependentJobs == [a.name]
    requires SameWindow(a, jobs[a.name]) && SameWindow(b, jobs[b.name])
    ensures (forall start :: Ends(PlanOf(jobs, nodes, dispatches), start)) <==>
            nodes(a.name) * dispatches == 0 || nodes(b.name) * dispatches == 0 || NeverBoth(a, b)
  {
    var plan := PlanOf(jobs, nodes, dispatches);
    KnownOne(jobs, a.name);
    KnownOne(jobs, b.name);
    MutualCycle(plan, a.name, b.name);
    NeverBothIff(a, b);
    forall t
      ensures CanStart(plan, a.name, t) && CanStart(plan, b.name, t) <==>
              BothMayStart(a, b, t) && nodes(a.name) * dispatches > 0 && nodes(b.name) * dispatches > 0
    {
    }
  }

  lemma ThreeStored(env: Env, clock: nat -> Clock, a: Job, b: Job) returns (jobs: map<string, Job>)
    requires Valid(env, a) && Valid(env, b) && Valid(env, a.(parentJob := b.name))
    requires a.parentJob == "" && b.parentJob == a.name && a.dependentJobs == b.dependentJobs == []
    ensures var one := SetJob(env, clock(0), EMPTY, a, true).0;
            var two := SetJob(env, clock(1), one, b, true).0;
            jobs == SetJob(env, clock(2), two, a.(parentJob := b.name), true).0.jobs
    ensures jobs.Keys == {a.name, b.name} && SameWindow(a, jobs[a.name]) && SameWindow(b, jobs[b.name])
    ensures jobs[a.name].dependentJobs == [b.name] && jobs[b.name].dependentJobs == [a.name]
  {
    var one := SetJob(env, clock(0), EMPTY, a, true).0;
    var two := SetJob(env, clock(1), one, b, true).0;
    FirstStored(env, clock(0), a);
    SecondStored(env, clock(1), one, a.name, b);
    FirstMoves(env, clock(2), two, a.(parentJob := b.name), b.name);
    jobs := SetJob(env, clock(2), two, a.(parentJob := b.name), true).0.jobs;
  }

  lemma RunThree(env: Env, clock: nat -> Clock, c: Command, d: Command, e: Command)
    ensures Run(env, clock, EMPTY, [c, d, e]) ==
            Step(env, clock(2), Step(env, clock(1), Step(env, clock(0), EMPTY, c).0, d).0, e).0
  {
    assert [c, d, e][..2] == [c, d] && [c, d][..1] == [c];
    assert Run(env, clock, EMPTY, [c]) == Step(env, clock(0), EMPTY, c).0;
  }

  lemma MutualCycle(plan: Plan, a: string, b: string)
    requires plan.jobs.Keys == {a, b} && plan.dependents(a) == [b] && plan.dependents(b) == [a]
    ensures (forall start :: Ends(plan, start)) <==> forall t :: !(CanStart(plan, a, t) && CanStart(plan, b, t))
  {
    EndsIffAcyclic(plan);
    forall t, cycle | Cyclic(plan, t, cycle) ensures CanStart(plan, a, t) && CanStart(plan, b, t) {
      OnlyMutual(plan, a, b, t, cycle);
    }
    forall t | CanStart(plan, a, t) && CanStart(plan, b, t) ensures Cyclic(plan, t, {a, b}) {
      assert HasDependentIn(plan, t, {a, b}, a) && HasDependentIn(plan, t, {a, b}, b);
    }
  }

  lemma OnlyMutual(plan: Plan, a: string, b: string, t: Time, cycle: set<string>)
    requires plan.jobs.Keys == {a, b} && plan.dependents(a) == [b] && plan.dependents(b) == [a]
    requires Cyclic(plan, t, cycle)
    ensures CanStart(plan, a, t) && CanStart(plan, b, t)
  {
    var n :| n in cycle;
    assert HasDependentIn(plan, t, cycle, n);
    var d :| d in plan.dependents(n) && d in cycle && CanStart(plan, d, t);
    assert HasDependentIn(plan, t, cycle, d);
  }

  lemma FirstStored(env: Env, clock: Clock, a: Job)
    requires Valid(env, a) && a.parentJob == "" && a.dependentJobs == []
    ensures var jobs := SetJob(env, clock, EMPTY, a, true).0.jobs;
            jobs.Keys == {a.name} && jobs[a.name].dependentJobs == [] && jobs[a.name].parentJob == ""
  {
    AcceptedSetJob(env, clock, EMPTY, a);
    MergedIs(env, clock, None, a, true);
  }

  lemma SecondStored(env: Env, clock: Clock, db: Db, parent: string, b: Job)
    requires Valid(env, b) && b.parentJob == parent != "" && b.dependentJobs == []
    requires db.jobs.Keys == {parent} && db.jobs[parent].dependentJobs == [] && db.jobs[parent].parentJob == ""
    ensures var jobs := SetJob(env, clock, db, b, true).0.jobs;
            && jobs.Keys == {parent, b.name} && b.name != parent
            && jobs[parent].dependentJobs == [b.name] && jobs[parent].parentJob == ""
            && jobs[b.name].dependentJobs == [] && jobs[b.name].parentJob == parent && SameWindow(b, jobs[b.name])
  {
    AcceptedSetJob(env, clock, db, b);
    MergedIs(env, clock, None, b, true);
  }

  lemma FirstMoves(env: Env, clock: Clock, db: Db, a: Job, parent: string)
    requires Valid(env, a) && a.parentJob == parent != "" && a.dependentJobs == []
    requires db.jobs.Keys == {a.name, parent} && db.jobs[a.name].dependentJobs == [parent]
    requires db.jobs[a.name].parentJob == "" && db.jobs[parent].dependentJobs == []
    ensures var jobs := SetJob(env, clock, db, a, true).0.jobs;
            && jobs.Keys == {a.name, parent}
            && jobs[a.name].dependentJobs == [parent] && jobs[parent].dependentJobs == [a.name]
            && SameWindow(a, jobs[a.name]) && SameWindow(db.jobs[parent], jobs[parent])
  {
    AcceptedSetJob(env, clock, db, a);
    MergedIs(env, clock, Some(db.jobs[a.name]), a, true);
  }
}
