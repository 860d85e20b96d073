/** Whether a job may run now, and the clean-up of executions that no node runs any more. */
module Runnable {
  import opened Wrappers
  import opened Types
  import opened Keys
  import opened StoreSpec
  import opened Completions
  import opened JobStore
  import History

  const STALE_THRESHOLD: Time := 4 * 3600 * SECOND

  const STALE_NOTE := "\nExecution marked as failed: detected as stale (not active on any node)"

  /** How Raft answers an Apply: a command can be applied although the caller sees an error. */
  datatype Answer = Applied | AppliedWithError | NotApplied

  function RunningOf(executions: map<string, Execution>, jobName: string): map<string, Execution> {
    map k | k in Listing(executions, jobName) && IsRunning(executions[k]) :: executions[k]
  }

  function ActiveKeys(active: seq<Execution>): set<string> {
    set e | e in active :: ShortKey(e)
  }

  /** Not active on any node, and started longer ago than the threshold. */
  predicate Stale(e: Execution, active: set<string>, now: Time) {
    ShortKey(e) !in active && now - e.startedAt > STALE_THRESHOLD
  }

  function Marked(e: Execution, now: Time): Execution {
    e.(finishedAt := now, success := false, output := e.output + STALE_NOTE)
  }

  ghost predicate AllApplied(answers: nat -> Answer) {
    forall i :: answers(i) == Applied
  }

  /** The completions mark stale running executions, each at most once. */
  ghost predicate MarksStale(marks: seq<Execution>, running: map<string, Execution>, active: set<string>, now: Time) {
    && (forall i, j | 0 <= i < j < |marks| :: FullKey(marks[i]) != FullKey(marks[j]))
    && forall i | 0 <= i < |marks| :: IsMark(marks[i], running, active, now)
  }

  ghost predicate IsMark(mark: Execution, running: map<string, Execution>, active: set<string>, now: Time) {
    var k := FullKey(mark);
    k in running && Stale(running[k], active, now) && mark == Marked(running[k], now)
  }

  /** Every stale execution is marked, or left over because its Apply failed; the inactive others are
      left over. */
  ghost predicate Settled(e: Execution, active: set<string>, now: Time, remaining: seq<Execution>,
                          marks: seq<Execution>, answers: nat -> Answer) {
    if ShortKey(e) in active then true
    else if !Stale(e, active, now) then e in remaining
    else Marked(e, now) in marks || (!AllApplied(answers) && Marked(e, now) in remaining)
  }

  ghost predicate OnlyYoung(remaining: seq<Execution>, active: set<string>, now: Time) {
    forall e | e in remaining :: !Stale(e, active, now) && ShortKey(e) !in active && IsRunning(e)
  }

  ghost predicate CleanedUp(running: map<string, Execution>, active: set<string>, now: Time,
                            remaining: seq<Execution>, marks: seq<Execution>, answers: nat -> Answer) {
    && MarksStale(marks, running, active, now)
    && (forall k | k in running :: Settled(running[k], active, now, remaining, marks, answers))
    && (AllApplied(answers) ==> OnlyYoung(remaining, active, now))
  }

  lemma CleanedGrows(running: map<string, Execution>, e: Execution, active: set<string>, now: Time,
                     remaining: seq<Execution>, marks: seq<Execution>, moreRemaining: seq<Execution>,
                     moreMarks: seq<Execution>, answers: nat -> Answer)
    requires CleanedUp(running, active, now, remaining, marks, answers)
    requires FullKey(e) !in running && IsRunning(e)
    requires moreMarks == marks || (Stale(e, active, now) && moreMarks == marks + [Marked(e, now)])
    requires moreRemaining == remaining
             || (!Stale(e, active, now) && ShortKey(e) !in active && moreRemaining == remaining + [e])
             || (Stale(e, active, now) && !AllApplied(answers) && moreRemaining == remaining + [Marked(e, now)])
    requires Settled(e, active, now, moreRemaining, moreMarks, answers)
    ensures CleanedUp(running[FullKey(e) := e], active, now, moreRemaining, moreMarks, answers)
  {
    var more := running[FullKey(e) := e];
    forall k | k in more
      ensures Settled(more[k], active, now, moreRemaining, moreMarks, answers)
    {
      assert k in running ==> Settled(running[k], active, now, remaining, marks, answers);
    }
    forall i | 0 <= i < |marks|
      ensures IsMark(marks[i], more, active, now) && FullKey(marks[i]) != FullKey(e)
    {
      assert IsMark(marks[i], running, active, now);
    }
    assert FullKey(Marked(e, now)) == FullKey(e);
  }

  /** active holds the keys that GetActiveExecutions returned; answers(i) is Raft's answer to the i-th
      Apply. What is left over blocks the job. */
  method CleanupStaleRunningExecutions(store: Store, jobName: string, active: set<string>, now: Time,
                                       answers: nat -> Answer)
    returns (remaining: seq<Execution>, ghost marks: seq<Execution>)
    requires KeysMatch(store.executions)
    modifies store
    ensures store.View() == DoneAll(old(store.View()), marks)
    ensures CleanedUp(RunningOf(old(store.executions), jobName), active, now, remaining, marks, answers)
  {
    var running := store.GetRunningExecutions(jobName);
    assert running == RunningOf(store.executions, jobName);
    remaining, marks := SettleAll(store, running, active, now, answers);
  }

  method SettleAll(store: Store, running: map<string, Execution>, active: set<string>, now: Time,
                   answers: nat -> Answer)
    returns (remaining: seq<Execution>, ghost marks: seq<Execution>)
    requires forall k | k in running :: FullKey(running[k]) == k && IsRunning(running[k])
    modifies store
    ensures store.View() == DoneAll(old(store.View()), marks)
    ensures CleanedUp(running, active, now, remaining, marks, answers)
  {
    ghost var done: map<string, Execution> := map[];
    remaining, marks := [], [];
    var applies := 0;
    var rest := running.Keys;
    while rest != {}
      invariant rest <= running.Keys && done == running - rest
      invariant store.View() == DoneAll(old(store.View()), marks)
      invariant CleanedUp(done, active, now, remaining, marks, answers)
      decreases |rest|
    {
      var k :| k in rest;
      ghost var left, marked := remaining, marks;
      var asked;
      remaining, asked, marks :=
        SettleOne(store, running[k], active, now, answers(applies), answers, remaining, old(store.View()), marks);
      if asked {
        applies := applies + 1;
      }
      CleanedGrows(done, running[k], active, now, left, marked, remaining, marks, answers);
      rest, done := rest - {k}, done[k := running[k]];
      assert done == running - rest;
    }
    assert done == running;
  }

  /** The body of the loop for one running execution. */
  method SettleOne(store: Store, exec: Execution, active: set<string>, now: Time, answer: Answer,
                   ghost answers: nat -> Answer, remaining: seq<Execution>, ghost start: Db,
                   ghost marks: seq<Execution>)
    returns (moreRemaining: seq<Execution>, asked: bool, ghost moreMarks: seq<Execution>)
    requires store.View() == DoneAll(start, marks)
    requires answer != Applied ==> !AllApplied(answers)
    modifies store
    ensures store.View() == DoneAll(start, moreMarks)
    ensures moreMarks == marks || (Stale(exec, active, now) && moreMarks == marks + [Marked(exec, now)])
    ensures moreRemaining == remaining
            || (!Stale(exec, active, now) && ShortKey(exec) !in active && moreRemaining == remaining + [exec])
            || (Stale(exec, active, now) && !AllApplied(answers) && moreRemaining == remaining + [Marked(exec, now)])
    ensures Settled(exec, active, now, moreRemaining, moreMarks, answers)
    ensures asked <==> Stale(exec, active, now)
  {
    moreRemaining, asked, moreMarks := remaining, false, marks;
    if ShortKey(exec) in active {
      return;
    }
    var runningFor := now - exec.startedAt;
    if runningFor <= STALE_THRESHOLD {
      moreRemaining := remaining + [exec];
      return;
    }
    asked := true;
    var failed := exec.(finishedAt := now, success := false, output := exec.output + STALE_NOTE);
    if answer != NotApplied {
      var _, _ := store.SetExecutionDone(failed);
      moreMarks := marks + [failed];
      assert moreMarks[..|marks|] == marks;
    }
    if answer != Applied {
      moreRemaining := remaining + [failed];
    }
  }

  // ----- What a clean-up has done -----

  /** Under a clock past the zero time, the markings of stored, still running executions all count as
      failures: they form a batch in which every member is taken. */
  lemma MarksAreTaken(db: Db, jobName: string, active: set<string>, now: Time, marks: seq<Execution>)
    requires KeysMatch(db.executions) && jobName in db.jobs && now > ZERO_TIME
    requires MarksStale(marks, RunningOf(db.executions, jobName), active, now)
    requires forall k | k in Listing(db.executions, jobName) :: db.executions[k].jobName == jobName
    ensures Batch(db, marks, jobName)
    ensures forall i | 0 <= i < |marks| :: Taken(db, marks[i]) && !marks[i].success
  {
    forall i | 0 <= i < |marks|
      ensures marks[i].jobName == jobName && Taken(db, marks[i]) && !marks[i].success
      ensures FullKey(marks[i]) in db.executions && db.executions[FullKey(marks[i])].finishedAt == ZERO_TIME
    {
      assert IsMark(marks[i], RunningOf(db.executions, jobName), active, now);
    }
  }

  lemma {:induction false} AllTakenCount(db: Db, marks: seq<Execution>, success: bool)
    requires forall i | 0 <= i < |marks| :: Taken(db, marks[i]) && !marks[i].success
    ensures Count(marks, TakenWith(db, success)) == if success then 0 else |marks|
  {
    if marks != [] {
      AllTakenCount(db, marks[..|marks| - 1], success);
    }
  }

  /** Clean-up rewrites exactly the executions it marked, as failed now, and the job's error count
      rises by their number. */
  lemma CleanupEffect(db: Db, jobName: string, active: set<string>, now: Time, marks: seq<Execution>)
    requires KeysMatch(db.executions) && jobName in db.jobs && now > ZERO_TIME
    requires MarksStale(marks, RunningOf(db.executions, jobName), active, now)
    requires forall k | k in Listing(db.executions, jobName) :: db.executions[k].jobName == jobName
    ensures var after := DoneAll(db, marks);
            && (forall k :: MarkedProperly(db, after, jobName, now, marks, k))
            && jobName in after.jobs
            && after.jobs[jobName].errorCount == Wrap32(db.jobs[jobName].errorCount + |marks|)
            && after.jobs[jobName].successCount == db.jobs[jobName].successCount
  {
    MarksAreTaken(db, jobName, active, now, marks);
    BatchClosedForm(db, marks, jobName);
    CleanupCounts(db, DoneAll(db, marks), jobName, marks);
    forall k
      ensures MarkedProperly(db, DoneAll(db, marks), jobName, now, marks, k)
    {
      MarkedAt(db, DoneAll(db, marks), jobName, active, now, marks, k);
    }
  }

  ghost predicate MarkedProperly(db: Db, after: Db, jobName: string, now: Time, marks: seq<Execution>, k: string) {
    if k !in db.executions then k !in after.executions
    else k in after.executions && after.executions[k] ==
         if k in RunningOf(db.executions, jobName) && Marked(db.executions[k], now) in marks
         then Marked(db.executions[k], now) else db.executions[k]
  }

  lemma CleanupCounts(db: Db, after: Db, jobName: string, marks: seq<Execution>)
    requires jobName in db.jobs && BatchApplied(db, after, marks, jobName)
    requires forall i | 0 <= i < |marks| :: Taken(db, marks[i]) && !marks[i].success
    ensures after.jobs[jobName].errorCount == Wrap32(db.jobs[jobName].errorCount + |marks|)
    ensures after.jobs[jobName].successCount == db.jobs[jobName].successCount
  {
    AllTakenCount(db, marks, false);
    AllTakenCount(db, marks, true);
    OnlyFailuresAdd(db.jobs[jobName], after.jobs[jobName], |marks|);
  }

  lemma OnlyFailuresAdd(before: Job, after: Job, failed: nat)
    requires JobAdds(before, after, 0, failed)
    ensures after.errorCount == Wrap32(before.errorCount + failed) && after.successCount == before.successCount
  {
  }

  lemma MarkedAt(db: Db, after: Db, jobName: string, active: set<string>, now: Time, marks: seq<Execution>, k: string)
    requires KeysMatch(db.executions)
    requires MarksStale(marks, RunningOf(db.executions, jobName), active, now)
    requires forall i | 0 <= i < |marks| :: Taken(db, marks[i])
    requires OverlaidAt(db, after.executions, marks, k)
    ensures MarkedProperly(db, after, jobName, now, marks, k)
  {
    var running := RunningOf(db.executions, jobName);
    if Hit(db, marks, k) {
      var i :| 0 <= i < |marks| && marks[i] == after.executions[k];
      assert IsMark(marks[i], running, active, now);
    }
    assert k in db.executions ==> FullKey(Marked(db.executions[k], now)) == k;
  }

  lemma MarkedOnlyIfStale(running: map<string, Execution>, active: set<string>, now: Time, marks: seq<Execution>,
                          k: string)
    requires MarksStale(marks, running, active, now) && k in running && FullKey(running[k]) == k
    ensures Marked(running[k], now) in marks ==> Stale(running[k], active, now)
  {
    assert FullKey(Marked(running[k], now)) == k;
    if i :| 0 <= i < |marks| && marks[i] == Marked(running[k], now) {
      assert IsMark(marks[i], running, active, now);
    }
  }

  function StaleKeys(running: map<string, Execution>, active: set<string>, now: Time): set<string> {
    set k | k in running && Stale(running[k], active, now)
  }

  lemma MarkKeys(running: map<string, Execution>, active: set<string>, now: Time,
                 remaining: seq<Execution>, marks: seq<Execution>, answers: nat -> Answer)
    requires CleanedUp(running, active, now, remaining, marks, answers) && AllApplied(answers)
    requires forall k | k in running :: FullKey(running[k]) == k && IsRunning(running[k])
    requires now > ZERO_TIME
    ensures |marks| == |StaleKeys(running, active, now)|
    ensures forall k | k in running :: Marked(running[k], now) in marks <==> Stale(running[k], active, now)
  {
    var keys := seq(|marks|, i requires 0 <= i < |marks| => FullKey(marks[i]));
    History.DistinctSize(keys);
    forall k | k in running
      ensures Marked(running[k], now) in marks <==> Stale(running[k], active, now)
    {
      assert Settled(running[k], active, now, remaining, marks, answers);
      MarkedOnlyIfStale(running, active, now, marks, k);
    }
    forall k | k in StaleKeys(running, active, now) ensures k in keys {
      var i :| 0 <= i < |marks| && marks[i] == Marked(running[k], now);
      assert keys[i] == k;
    }
    forall k | k in keys ensures k in StaleKeys(running, active, now) {
      var i :| 0 <= i < |marks| && keys[i] == k;
      assert IsMark(marks[i], running, active, now);
    }
    assert History.Elements(keys) == StaleKeys(running, active, now);
  }

  /** When Raft takes every command, clean-up marks exactly the inactive executions older than the
      threshold, and the error count rises by their number. */
  lemma CleanupMarksExactlyTheStale(db: Db, jobName: string, active: set<string>, now: Time,
                                    remaining: seq<Execution>, marks: seq<Execution>, answers: nat -> Answer)
    requires KeysMatch(db.executions) && jobName in db.jobs && now > ZERO_TIME && AllApplied(answers)
    requires CleanedUp(RunningOf(db.executions, jobName), active, now, remaining, marks, answers)
    requires forall k | k in Listing(db.executions, jobName) :: db.executions[k].jobName == jobName
    ensures forall k | k in db.executions ::
              StaleMarked(RunningOf(db.executions, jobName), active, now, db.executions[k],
                          DoneAll(db, marks).executions, k)
    ensures |marks| == |StaleKeys(RunningOf(db.executions, jobName), active, now)|
    ensures jobName in DoneAll(db, marks).jobs
    ensures DoneAll(db, marks).jobs[jobName].errorCount == Wrap32(db.jobs[jobName].errorCount + |marks|)
  {
    RunningKeysMatch(db.executions, jobName);
    assert |marks| == |StaleKeys(RunningOf(db.executions, jobName), active, now)| by {
      MarkKeys(RunningOf(db.executions, jobName), active, now, remaining, marks, answers);
    }
    CleanupErrorCount(db, jobName, active, now, marks);
    forall k | k in db.executions
      ensures StaleMarked(RunningOf(db.executions, jobName), active, now, db.executions[k],
                          DoneAll(db, marks).executions, k)
    {
      MarkedExactly(db, jobName, active, now, remaining, marks, answers, k);
    }
  }

  lemma CleanupErrorCount(db: Db, jobName: string, active: set<string>, now: Time, marks: seq<Execution>)
    requires KeysMatch(db.executions) && jobName in db.jobs && now > ZERO_TIME
    requires MarksStale(marks, RunningOf(db.executions, jobName), active, now)
    requires forall k | k in Listing(db.executions, jobName) :: db.executions[k].jobName == jobName
    ensures jobName in DoneAll(db, marks).jobs
    ensures DoneAll(db, marks).jobs[jobName].errorCount == Wrap32(db.jobs[jobName].errorCount + |marks|)
  {
    CleanupEffect(db, jobName, active, now, marks);
  }

  lemma RunningKeysMatch(executions: map<string, Execution>, jobName: string)
    requires KeysMatch(executions)
    ensures var running := RunningOf(executions, jobName);
            forall k | k in running :: FullKey(running[k]) == k && IsRunning(running[k])
  {
  }

  lemma MarkedExactly(db: Db, jobName: string, active: set<string>, now: Time,
                      remaining: seq<Execution>, marks: seq<Execution>, answers: nat -> Answer, k: string)
    requires KeysMatch(db.executions) && jobName in db.jobs && now > ZERO_TIME && AllApplied(answers)
    requires CleanedUp(RunningOf(db.executions, jobName), active, now, remaining, marks, answers)
    requires forall k | k in Listing(db.executions, jobName) :: db.executions[k].jobName == jobName
    requires k in db.executions
    ensures StaleMarked(RunningOf(db.executions, jobName), active, now, db.executions[k],
                        DoneAll(db, marks).executions, k)
  {
    MarkKeys(RunningOf(db.executions, jobName), active, now, remaining, marks, answers);
    CleanupEffect(db, jobName, active, now, marks);
    ProperlyIsStale(db, DoneAll(db, marks), jobName, active, now, marks, k);
  }

  lemma ProperlyIsStale(db: Db, after: Db, jobName: string, active: set<string>, now: Time, marks: seq<Execution>,
                        k: string)
    requires k in db.executions && MarkedProperly(db, after, jobName, now, marks, k)
    requires k in RunningOf(db.executions, jobName) ==>
               (Marked(db.executions[k], now) in marks <==> Stale(db.executions[k], active, now))
    ensures StaleMarked(RunningOf(db.executions, jobName), active, now, db.executions[k], after.executions, k)
  {
  }

  predicate StaleMarked(running: map<string, Execution>, active: set<string>, now: Time, before: Execution,
                        after: map<string, Execution>, k: string)
  {
    k in after && after[k] ==
      if k in running && ShortKey(before) !in active && now - before.startedAt > 14_400 * SECOND
      then before.(finishedAt := now, success := false,
                   output := before.output
                             + "\nExecution marked as failed: detected as stale (not active on any node)")
      else before
  }

  // ----- May the job run? -----

  /** Enabled, started, not expired, and no global lock. */
  predicate MayStart(job: Job, globalLock: bool, startCheck: Time, expiryCheck: Time) {
    && !job.disabled && !globalLock
    && (job.startsAt.Some? ==> startCheck >= job.startsAt.value)
    && (job.expiresAt.Some? ==> expiryCheck <= job.expiresAt.value)
  }

  /** active is None when a server could not be asked. Only a job that forbids concurrency and has no
      active execution gets its stale executions marked, and then what is left over decides. */
  method IsRunnable(store: Store, job: Job, globalLock: bool, startCheck: Time, expiryCheck: Time,
                    active: Option<seq<Execution>>, now: Time, answers: nat -> Answer)
    returns (ok: bool, ghost left: seq<Execution>, ghost marks: seq<Execution>)
    requires KeysMatch(store.executions)
    modifies store
    ensures store.View() == DoneAll(old(store.View()), marks)
    ensures if && !job.disabled && !globalLock
               && (job.startsAt.Some? ==> job.startsAt.value <= startCheck)
               && (job.expiresAt.Some? ==> expiryCheck <= job.expiresAt.value)
               && job.concurrency == "forbid" && active.Some? && forall e | e in active.value :: e.jobName != job.name
            then CleanedUp(RunningOf(old(store.executions), job.name), ActiveKeys(active.value), now, left, marks,
                           answers)
            else marks == []
    ensures ok ==> MayStart(job, globalLock, startCheck, expiryCheck)
    ensures ok <==> && !job.disabled && !globalLock
                    && (job.startsAt.Some? ==> job.startsAt.value <= startCheck)
                    && (job.expiresAt.Some? ==> expiryCheck <= job.expiresAt.value)
                    && (job.concurrency == "forbid" ==>
                          active.Some? && (forall e | e in active.value :: e.jobName != job.name) && left == [])
  {
    ok, left, marks := false, [], [];
    if job.disabled {
      return;
    }
    if job.startsAt.Some? && startCheck < job.startsAt.value {
      return;
    }
    if job.expiresAt.Some? && expiryCheck > job.expiresAt.value {
      return;
    }
    if globalLock {
      return;
    }
    if job.concurrency == "forbid" {
      if active.None? {
        return;
      }
      for i := 0 to |active.value|
        invariant forall k | 0 <= k < i :: active.value[k].jobName != job.name
      {
        if active.value[i].jobName == job.name {
          return;
        }
      }
      var remaining;
      remaining, marks := CleanupStaleRunningExecutions(store, job.name, ActiveKeys(active.value), now, answers);
      left := remaining;
      if |remaining| > 0 {
        return;
      }
    }
    ok := true;
  }

  /** A go-ahead for a stored forbid-concurrency job leaves it without stored running executions exactly when
      none of them shares its key with an execution that some node runs, which then is another job's. */
  lemma NothingRunsIff(db: Db, jobName: string, active: seq<Execution>, now: Time, marks: seq<Execution>,
                       answers: nat -> Answer)
    requires KeysMatch(db.executions) && jobName in db.jobs && now > ZERO_TIME
    requires forall k | k in Listing(db.executions, jobName) :: db.executions[k].jobName == jobName
    requires forall e | e in active :: e.jobName != jobName
    requires CleanedUp(RunningOf(db.executions, jobName), ActiveKeys(active), now, [], marks, answers)
    ensures RunningOf(DoneAll(db, marks).executions, jobName) == map[] <==>
            forall k, e | k in RunningOf(db.executions, jobName) && e in active ::
              ShortKey(db.executions[k]) != ShortKey(e)
  {
    var after, keys := DoneAll(db, marks), ActiveKeys(active);
    CleanupEffect(db, jobName, keys, now, marks);
    forall k
      ensures k in RunningOf(after.executions, jobName) <==>
              k in RunningOf(db.executions, jobName) && ShortKey(db.executions[k]) in keys
    {
      StillRuns(db, after, jobName, keys, now, marks, answers, k);
    }
    assert forall k :: k in RunningOf(db.executions, jobName) ==>
                         (ShortKey(db.executions[k]) in keys <==>
                          exists e :: e in active && ShortKey(db.executions[k]) == ShortKey(e));
  }

  lemma StillRuns(db: Db, after: Db, jobName: string, keys: set<string>, now: Time, marks: seq<Execution>,
                  answers: nat -> Answer, k: string)
    requires KeysMatch(db.executions) && now > ZERO_TIME
    requires CleanedUp(RunningOf(db.executions, jobName), keys, now, [], marks, answers)
    requires MarkedProperly(db, after, jobName, now, marks, k)
    ensures k in RunningOf(after.executions, jobName) <==>
            k in RunningOf(db.executions, jobName) && ShortKey(db.executions[k]) in keys
  {
    var running := RunningOf(db.executions, jobName);
    if k in running {
      assert Settled(running[k], keys, now, [], marks, answers);
      MarkedOnlyIfStale(running, keys, now, marks, k);
    }
  }

  /** Such a collision: the one running execution of the job shares start time and node with an active one
      of another job. The job gets its go-ahead and its execution is still running. */
  lemma AnotherJobHides(db: Db, e: Execution, f: Execution, now: Time, answers: nat -> Answer)
    requires IsRunning(e) && RunningOf(db.executions, e.jobName) == map[FullKey(e) := e]
    requires f.jobName != e.jobName && f.startedAt == e.startedAt && f.nodeName == e.nodeName
    ensures CleanedUp(RunningOf(db.executions, e.jobName), ActiveKeys([f]), now, [], [], answers)
    ensures RunningOf(DoneAll(db, []).executions, e.jobName) != map[]
  {
    assert f in [f] && ShortKey(f) == ShortKey(e);
    assert FullKey(e) in RunningOf(db.executions, e.jobName);
  }

  // ----- Clean-ups of several jobs -----

  /** No execution of these jobs that is still running is stale. */
  ghost predicate NoneStale(executions: map<string, Execution>, names: seq<string>, active: set<string>,
                            now: nat -> Time)
  {
    forall i, k | 0 <= i < |names| && k in Listing(executions, names[i]) && IsRunning(executions[k]) ::
      !Stale(executions[k], active, now(i))
  }

  /** One more clean-up, with every command applied, leaves the next job without stale executions and
      spoils nothing for the jobs before. */
  lemma OneMoreSettled(db: Db, names: seq<string>, name: string, active: set<string>, now: nat -> Time,
                       remaining: seq<Execution>, marks: seq<Execution>, answers: nat -> Answer)
    requires KeysMatch(db.executions) && History.ColonFree(db.executions) && NoColon(name) && name in db.jobs
    requires now(|names|) > ZERO_TIME && AllApplied(answers) && NoneStale(db.executions, names, active, now)
    requires CleanedUp(RunningOf(db.executions, name), active, now(|names|), remaining, marks, answers)
    ensures var after := DoneAll(db, marks).executions;
            History.ColonFree(after) && NoneStale(after, names + [name], active, now)
  {
    var after, at := DoneAll(db, marks).executions, now(|names|);
    forall k | k in Listing(db.executions, name) ensures db.executions[k].jobName == name {
      ListedIffOfJob(name, db.executions[k]);
    }
    CleanupMarksExactlyTheStale(db, name, active, at, remaining, marks, answers);
    CleanupEffect(db, name, active, at, marks);
    forall k | k in after
      ensures k in db.executions && after[k].jobName == db.executions[k].jobName
      ensures IsRunning(after[k]) ==> after[k] == db.executions[k]
      ensures k in RunningOf(db.executions, name) && IsRunning(after[k]) ==> !Stale(after[k], active, at)
    {
      assert MarkedProperly(db, DoneAll(db, marks), name, at, marks, k);
      assert StaleMarked(RunningOf(db.executions, name), active, at, db.executions[k], after, k);
      MarkedOrKept(RunningOf(db.executions, name), active, at, db.executions[k], after, k);
    }
    SettledMeans(db.executions, after, names, name, active, now);
  }

  lemma MarkedOrKept(running: map<string, Execution>, active: set<string>, at: Time, before: Execution,
                     after: map<string, Execution>, k: string)
    requires at > ZERO_TIME && StaleMarked(running, active, at, before, after, k)
    ensures after[k].jobName == before.jobName && (IsRunning(after[k]) ==> after[k] == before)
    ensures k in running && IsRunning(after[k]) ==> !Stale(after[k], active, at)
  {
  }

  lemma SettledMeans(before: map<string, Execution>, after: map<string, Execution>, names: seq<string>, name: string,
                     active: set<string>, now: nat -> Time)
    requires NoneStale(before, names, active, now)
    requires forall k | k in after :: k in before && (IsRunning(after[k]) ==> after[k] == before[k])
    requires forall k | k in RunningOf(before, name) && k in after && IsRunning(after[k]) ::
               !Stale(after[k], active, now(|names|))
    ensures NoneStale(after, names + [name], active, now)
  {
    var more := names + [name];
    forall i, k | 0 <= i < |more| && k in Listing(after, more[i]) && IsRunning(after[k])
      ensures !Stale(after[k], active, now(i))
    {
      if i < |names| {
        assert k in Listing(before, names[i]);
      } else {
        assert k in RunningOf(before, name);
      }
    }
  }

  // ----- What a mark was before -----

  /** The same execution, apart from how it ended, was stored, and running if this one is. */
  predicate ComesFrom(stored: map<string, Execution>, e: Execution) {
    var k := FullKey(e);
    && k in stored && (IsRunning(e) ==> IsRunning(stored[k]))
    && e == stored[k].(finishedAt := e.finishedAt, success := e.success, output := e.output)
  }

  ghost predicate AllComeFrom(stored: map<string, Execution>, executions: map<string, Execution>) {
    forall k | k in executions :: ComesFrom(stored, executions[k])
  }

  lemma {:induction false} MarksComeFrom(stored: map<string, Execution>, db: Db, marks: seq<Execution>)
    requires AllComeFrom(stored, db.executions) && forall m | m in marks :: ComesFrom(stored, m)
    ensures AllComeFrom(stored, DoneAll(db, marks).executions)
  {
    if marks != [] {
      var n := |marks| - 1;
      MarksComeFrom(stored, db, marks[..n]);
      var before := DoneAll(db, marks[..n]);
      assert marks[n] in marks;
      assert ExecutionDone(before, marks[n]).0.executions
             in {before.executions, before.executions[FullKey(marks[n]) := marks[n]]};
    }
  }
}
