/** Counters against the completions that a log has counted. */
module Ledger {
  import opened Wrappers
  import opened Types
  import opened StoreSpec
  import opened Links
  import Completions

  /** What one command did to the books. */
  datatype Entry =
    | Quiet
    | Completed(name: string, day: int, success: bool)
    | Opened(name: string, succeeded: int, failed: int)  // a new job, with the counters it came with
    | Raised(name: string, succeeded: int, failed: int)  // a stored job whose counters a SetJob raised
    | Closed(name: string)                               // a deleted job
    | Cleared(name: string)                              // a job whose executions were deleted

  function Excess(given: int, stored: int): nat {
    if given > stored then given - stored else 0
  }

  function EntryOf(db: Db, command: Command, reply: Reply): Entry {
    match (command, reply)
    case (ExecutionDoneCommand(e), Recorded(true)) => Completed(e.jobName, DayOf(e.finishedAt), e.success)
    case (SetJobCommand(job), Done) =>
      if job.name !in db.jobs then Opened(job.name, job.successCount, job.errorCount)
      else Raised(job.name, Excess(job.successCount, db.jobs[job.name].successCount),
                  Excess(job.errorCount, db.jobs[job.name].errorCount))
    case (DeleteJobCommand(name), Deleted(_)) => Closed(name)
    case (DeleteExecutionsCommand(name), Updated(_)) => Cleared(name)
    case _ => Quiet
  }

  /** The entries that a log writes when it runs from the empty database. */
  function Entries(env: Env, clock: nat -> Clock, log: seq<Command>): seq<Entry> {
    if log == [] then []
    else
      var n := |log| - 1;
      var before := Run(env, clock, EMPTY, log[..n]);
      Entries(env, clock, log[..n]) + [EntryOf(before, log[n], Step(env, clock(n), before, log[n]).1)]
  }

  // ----- Reading the books, backwards from the last entry -----

  predicate StartsOver(entry: Entry, name: string) {
    match entry
    case Opened(n, _, _) => n == name
    case Closed(n) => n == name
    case Cleared(n) => n == name
    case _ => false
  }

  predicate Counts(entry: Entry, name: string, success: bool) {
    entry.Completed? && entry.name == name && entry.success == success
  }

  /** Completions of a job counted since it was created or last cleared. */
  function Since(entries: seq<Entry>, name: string, success: bool): nat {
    if entries == [] then 0
    else
      var n := |entries| - 1;
      if StartsOver(entries[n], name) then 0
      else Since(entries[..n], name, success) + if Counts(entries[n], name, success) then 1 else 0
  }

  /** What callers of SetJob put on the counters themselves, over the same stretch. */
  function Carried(entries: seq<Entry>, name: string, success: bool): int {
    if entries == [] then 0
    else
      var n := |entries| - 1;
      match entries[n]
      case Opened(m, s, f) => if m == name then if success then s else f else Carried(entries[..n], name, success)
      case Raised(m, s, f) =>
        Carried(entries[..n], name, success) + if m != name then 0 else if success then s else f
      case Closed(m) => if m == name then 0 else Carried(entries[..n], name, success)
      case Cleared(m) => if m == name then 0 else Carried(entries[..n], name, success)
      case _ => Carried(entries[..n], name, success)
  }

  function CountedOn(entries: seq<Entry>, day: int, success: bool): nat {
    if entries == [] then 0
    else
      var n := |entries| - 1;
      CountedOn(entries[..n], day, success) +
      if entries[n].Completed? && entries[n].day == day && entries[n].success == success then 1 else 0
  }

  /** Counted completions that left with deleted jobs and cleared counters. */
  function Dropped(entries: seq<Entry>, success: bool): nat {
    if entries == [] then 0
    else
      var n := |entries| - 1;
      Dropped(entries[..n], success) + DroppedBy(entries[n], entries[..n], success)
  }

  function DroppedBy(entry: Entry, entries: seq<Entry>, success: bool): nat {
    if entry.Closed? || entry.Cleared? then Since(entries, entry.name, success) else 0
  }

  // ----- Sums over finite sets -----

  ghost function Sum<T(!new)>(keys: set<T>, f: T -> int): int {
    if keys == {} then 0
    else
      var k :| k in keys;
      f(k) + Sum(keys - {k}, f)
  }

  lemma {:induction false} SumWithout<T(!new)>(keys: set<T>, f: T -> int, x: T)
    requires x in keys
    ensures Sum(keys, f) == f(x) + Sum(keys - {x}, f)
  {
    var k :| k in keys && Sum(keys, f) == f(k) + Sum(keys - {k}, f);
    if k != x {
      SumWithout(keys - {k}, f, x);
      SumWithout(keys - {x}, f, k);
      assert keys - {k} - {x} == keys - {x} - {k};
    }
  }

  lemma {:induction false} SumEqual<T(!new)>(keys: set<T>, f: T -> int, g: T -> int)
    requires forall k | k in keys :: f(k) == g(k)
    ensures Sum(keys, f) == Sum(keys, g)
  {
    if keys != {} {
      var k :| k in keys;
      SumEqual(keys - {k}, f, g);
      SumWithout(keys, f, k);
      SumWithout(keys, g, k);
    }
  }

  /** Two functions that differ at one key only. */
  lemma SumChanged<T(!new)>(keys: set<T>, f: T -> int, g: T -> int, x: T)
    requires x in keys && forall k | k in keys && k != x :: f(k) == g(k)
    ensures Sum(keys, g) == Sum(keys, f) + g(x) - f(x)
  {
    SumWithout(keys, f, x);
    SumWithout(keys, g, x);
    SumEqual(keys - {x}, f, g);
  }

  // ----- One command, one entry -----

  function CountOf(job: Job, success: bool): Int32 {
    if success then job.successCount else job.errorCount
  }

  predicate SameCounts(before: map<string, Job>, after: map<string, Job>, except: string) {
    forall n | n in before && n in after && n != except ::
      after[n].successCount == before[n].successCount && after[n].errorCount == before[n].errorCount
  }

  predicate CountsTo(job: Job, succeeded: int, failed: int) {
    job.successCount == Wrap32(succeeded) && job.errorCount == Wrap32(failed)
  }

  /** How the counters and statistics follow an entry. */
  predicate Follows(before: Db, after: Db, entry: Entry) {
    match entry
    case Quiet =>
      after.stats == before.stats && after.jobs.Keys == before.jobs.Keys && SameCounts(before.jobs, after.jobs, "")
    case Completed(n, day, success) =>
      && n in before.jobs && after.jobs.Keys == before.jobs.Keys && SameCounts(before.jobs, after.jobs, n)
      && after.stats == Bump(before.stats, day, success)
      && CountsTo(after.jobs[n], before.jobs[n].successCount + (if success then 1 else 0),
                  before.jobs[n].errorCount + (if success then 0 else 1))
    case Opened(n, s, f) =>
      && n !in before.jobs && after.jobs.Keys == before.jobs.Keys + {n} && SameCounts(before.jobs, after.jobs, n)
      && after.stats == before.stats && CountsTo(after.jobs[n], s, f)
    case Raised(n, s, f) =>
      && n in before.jobs && after.jobs.Keys == before.jobs.Keys && SameCounts(before.jobs, after.jobs, n)
      && after.stats == before.stats
      && CountsTo(after.jobs[n], before.jobs[n].successCount + s, before.jobs[n].errorCount + f)
    case Closed(n) =>
      && n in before.jobs && after.jobs.Keys == before.jobs.Keys - {n} && SameCounts(before.jobs, after.jobs, n)
      && after.stats == before.stats
    case Cleared(n) =>
      && n in before.jobs && after.jobs.Keys == before.jobs.Keys && SameCounts(before.jobs, after.jobs, n)
      && after.stats == before.stats && CountsTo(after.jobs[n], 0, 0)
  }

  lemma RelinkedCounts(jobs: map<string, Job>, child: string, from: string, to: string)
    ensures var after := Relinked(jobs, child, from, to);
            after.Keys == jobs.Keys &&
            forall n | n in jobs ::
              after[n].successCount == jobs[n].successCount && after[n].errorCount == jobs[n].errorCount
  {
    RelinkedRest(jobs, child, from, to);
  }

  lemma UnlinkedCounts(jobs: map<string, Job>, parent: string, child: string)
    ensures var after := Unlink(jobs, parent, child);
            after.Keys == jobs.Keys &&
            forall n | n in jobs ::
              after[n].successCount == jobs[n].successCount && after[n].errorCount == jobs[n].errorCount
  {
  }

  lemma WrapIdentity(x: Int32)
    ensures Wrap32(x) == x
  {
  }

  lemma MergedCounts(env: Env, clock: Clock, stored: Option<Job>, job: Job)
    ensures var merged := Merged(env, clock, stored, job, true);
            merged.Some? ==>
              if stored.None? then CountsTo(merged.value, job.successCount, job.errorCount)
              else CountsTo(merged.value,
                            stored.value.successCount + Excess(job.successCount, stored.value.successCount),
                            stored.value.errorCount + Excess(job.errorCount, stored.value.errorCount))
  {
    MergedIs(env, clock, stored, job, true);
    WrapIdentity(job.successCount);
    WrapIdentity(job.errorCount);
    if stored.Some? {
      WrapIdentity(stored.value.successCount);
      WrapIdentity(stored.value.errorCount);
    }
  }

  lemma StoredFollows(db: Db, job: Job, merged: Job, jobs: map<string, Job>)
    requires jobs.Keys == db.jobs.Keys + {job.name}
    requires forall n | n in jobs ::
               var now := if n == job.name then merged else db.jobs[n];
               jobs[n].successCount == now.successCount && jobs[n].errorCount == now.errorCount
    requires MergedTo(db, job, merged)
    ensures Follows(db, db.(jobs := jobs), EntryOf(db, SetJobCommand(job), Done))
  {
  }

  lemma SetJobFollows(env: Env, clock: Clock, db: Db, job: Job, after: Db, reply: Reply)
    requires (after, reply) == SetJob(env, clock, db, job, true)
    ensures Follows(db, after, EntryOf(db, SetJobCommand(job), reply))
  {
    if Accepted(env, db, job) {
      AcceptedFollows(env, clock, db, job);
    } else {
      RefusedSetJob(env, clock, db, job);
    }
  }

  lemma AcceptedFollows(env: Env, clock: Clock, db: Db, job: Job)
    requires Accepted(env, db, job)
    ensures SetJob(env, clock, db, job, true).1 == Done
    ensures Follows(db, SetJob(env, clock, db, job, true).0, EntryOf(db, SetJobCommand(job), Done))
  {
    var merged := Merged(env, clock, Stored(db.jobs, job.name), job, true);
    AcceptedSetJob(env, clock, db, job);
    AcceptedCounts(env, clock, db, job, merged.value);
    StoredCounts(db, job, merged.value);
  }

  /** The counters with which a job is stored: those given, or raised to them. */
  predicate MergedTo(db: Db, job: Job, merged: Job) {
    if job.name !in db.jobs then CountsTo(merged, job.successCount, job.errorCount)
    else CountsTo(merged,
                  db.jobs[job.name].successCount + Excess(job.successCount, db.jobs[job.name].successCount),
                  db.jobs[job.name].errorCount + Excess(job.errorCount, db.jobs[job.name].errorCount))
  }

  lemma AcceptedCounts(env: Env, clock: Clock, db: Db, job: Job, merged: Job)
    requires Merged(env, clock, Stored(db.jobs, job.name), job, true) == Some(merged)
    ensures MergedTo(db, job, merged)
  {
    MergedCounts(env, clock, Stored(db.jobs, job.name), job);
  }

  lemma StoredCounts(db: Db, job: Job, merged: Job)
    requires MergedTo(db, job, merged)
    ensures var from := ParentOnRecord(db.jobs, job.name);
            Follows(db, db.(jobs := Relinked(db.jobs[job.name := merged], job.name, from, job.parentJob)),
                    EntryOf(db, SetJobCommand(job), Done))
  {
    var jobs, from := db.jobs[job.name := merged], ParentOnRecord(db.jobs, job.name);
    RelinkedCounts(jobs, job.name, from, job.parentJob);
    StoredFollows(db, job, merged, Relinked(jobs, job.name, from, job.parentJob));
  }

  lemma CreditCounts(job: Job, e: Execution, status: string)
    ensures CountsTo(Credit(job, e).(status := status),
                     job.successCount + (if e.success then 1 else 0), job.errorCount + (if e.success then 0 else 1))
  {
    WrapIdentity(job.successCount);
    WrapIdentity(job.errorCount);
  }

  lemma CompletionFollows(db: Db, e: Execution)
    ensures var (after, reply) := ExecutionDone(db, e);
            Follows(db, after, EntryOf(db, ExecutionDoneCommand(e), reply))
  {
    if e.jobName in db.jobs && Judge(db, e) == Counted {
      Completions.CountedFields(db, e);
      CreditCounts(db.jobs[e.jobName], e, ExecutionDone(db, e).0.jobs[e.jobName].status);
    }
  }

  lemma StepFollows(env: Env, clock: Clock, db: Db, command: Command)
    ensures var (after, reply) := Step(env, clock, db, command);
            Follows(db, after, EntryOf(db, command, reply))
  {
    match command
    case SetJobCommand(job) =>
      var (after, reply) := SetJob(env, clock, db, job, true);
      SetJobFollows(env, clock, db, job, after, reply);
    case ExecutionDoneCommand(e) => CompletionFollows(db, e);
    case DeleteJobCommand(name) =>
      if name in db.jobs {
        UnlinkedCounts(db.jobs - {name}, db.jobs[name].parentJob, name);
      }
    case _ =>
  }

  // ----- The books against the database -----

  ghost predicate CountersMatch(jobs: map<string, Job>, entries: seq<Entry>) {
    && (forall n, success | n in jobs ::
          CountOf(jobs[n], success) == Wrap32(Since(entries, n, success) + Carried(entries, n, success)))
    && (forall n, success | n !in jobs :: Since(entries, n, success) == 0)
  }

  function StatCount(stat: Stat, success: bool): nat {
    if success then stat.succeeded else stat.failed
  }

  ghost predicate DaysMatch(stats: map<int, Stat>, entries: seq<Entry>) {
    && (forall day, success :: StatCount(StatOn(stats, day), success) == CountedOn(entries, day, success))
    && (forall day | day in stats :: CountedOn(entries, day, true) + CountedOn(entries, day, false) > 0)
  }

  function DayCount(stats: map<int, Stat>, success: bool): int -> int {
    day => StatCount(StatOn(stats, day), success)
  }

  function LiveCount(entries: seq<Entry>, success: bool): string -> int {
    n => Since(entries, n, success)
  }

  ghost function AllDays(stats: map<int, Stat>, success: bool): int {
    Sum(stats.Keys, DayCount(stats, success))
  }

  ghost function AllLive(jobs: set<string>, entries: seq<Entry>, success: bool): int {
    Sum(jobs, LiveCount(entries, success))
  }

  ghost predicate TotalsMatch(db: Db, entries: seq<Entry>, success: bool) {
    AllDays(db.stats, success) == AllLive(db.jobs.Keys, entries, success) + Dropped(entries, success)
  }

  lemma SinceAppended(entries: seq<Entry>, entry: Entry, n: string, success: bool)
    ensures Since(entries + [entry], n, success) ==
            if StartsOver(entry, n) then 0
            else Since(entries, n, success) + if Counts(entry, n, success) then 1 else 0
  {
    assert (entries + [entry])[..|entries|] == entries;
  }

  lemma CarriedAppended(entries: seq<Entry>, entry: Entry, n: string, success: bool)
    ensures Carried(entries + [entry], n, success) ==
            match entry
            case Opened(m, s, f) => if m == n then if success then s else f else Carried(entries, n, success)
            case Raised(m, s, f) => Carried(entries, n, success) + if m != n then 0 else if success then s else f
            case Closed(m) => if m == n then 0 else Carried(entries, n, success)
            case Cleared(m) => if m == n then 0 else Carried(entries, n, success)
            case _ => Carried(entries, n, success)
  {
    assert (entries + [entry])[..|entries|] == entries;
  }

  lemma WrapSum(x: int, y: int, d: int)
    requires Wrap32(x) == Wrap32(y)
    ensures Wrap32(Wrap32(x) + d) == Wrap32(y + d)
  {
  }

  lemma CountersKept(before: Db, after: Db, entries: seq<Entry>, entry: Entry)
    requires CountersMatch(before.jobs, entries) && Follows(before, after, entry)
    requires "" !in before.jobs
    ensures CountersMatch(after.jobs, entries + [entry])
  {
    forall n, success
      ensures n in after.jobs ==>
                CountOf(after.jobs[n], success)
                == Wrap32(Since(entries + [entry], n, success) + Carried(entries + [entry], n, success))
      ensures n !in after.jobs ==> Since(entries + [entry], n, success) == 0
    {
      SinceAppended(entries, entry, n, success);
      CarriedAppended(entries, entry, n, success);
      CounterKept(before, after, entries, entry, n, success);
    }
  }

  lemma CounterKept(before: Db, after: Db, entries: seq<Entry>, entry: Entry, n: string, success: bool)
    requires Follows(before, after, entry) && "" !in before.jobs
    requires n in before.jobs ==>
               CountOf(before.jobs[n], success) == Wrap32(Since(entries, n, success) + Carried(entries, n, success))
    requires n !in before.jobs ==> Since(entries, n, success) == 0
    ensures n in after.jobs ==>
              CountOf(after.jobs[n], success)
              == Wrap32(Since(entries + [entry], n, success) + Carried(entries + [entry], n, success))
    ensures n !in after.jobs ==> Since(entries + [entry], n, success) == 0
  {
    SinceAppended(entries, entry, n, success);
    CarriedAppended(entries, entry, n, success);
    if n in before.jobs && n in after.jobs {
      CountMoves(before, after, entry, n, success, Since(entries, n, success) + Carried(entries, n, success));
    }
  }

  /** By how much an entry moves a counter that it does not set. */
  function Moved(entry: Entry, n: string, success: bool): int {
    match entry
    case Completed(name, _, s) => if name == n && s == success then 1 else 0
    case Raised(name, s, f) => if name != n then 0 else if success then s else f
    case _ => 0
  }

  lemma CountMoves(before: Db, after: Db, entry: Entry, n: string, success: bool, books: int)
    requires Follows(before, after, entry) && "" !in before.jobs && n in before.jobs && n in after.jobs
    requires CountOf(before.jobs[n], success) == Wrap32(books)
    ensures !(entry.Cleared? && entry.name == n) ==>
              CountOf(after.jobs[n], success) == Wrap32(books + Moved(entry, n, success))
    ensures entry.Cleared? && entry.name == n ==> CountOf(after.jobs[n], success) == Wrap32(0)
  {
    WrapSum(books, books, Moved(entry, n, success));
  }

  lemma CountedAppended(entries: seq<Entry>, entry: Entry, day: int, success: bool)
    ensures CountedOn(entries + [entry], day, success) ==
            CountedOn(entries, day, success) +
            if entry.Completed? && entry.day == day && entry.success == success then 1 else 0
  {
    assert (entries + [entry])[..|entries|] == entries;
  }

  lemma DaysKept(before: Db, after: Db, entries: seq<Entry>, entry: Entry)
    requires DaysMatch(before.stats, entries) && Follows(before, after, entry)
    ensures DaysMatch(after.stats, entries + [entry])
  {
    forall day, success
      ensures StatCount(StatOn(after.stats, day), success) == CountedOn(entries + [entry], day, success)
    {
      CountedAppended(entries, entry, day, success);
      assert StatCount(StatOn(before.stats, day), success) == CountedOn(entries, day, success);
    }
    forall day | day in after.stats
      ensures CountedOn(entries + [entry], day, true) + CountedOn(entries + [entry], day, false) > 0
    {
      CountedAppended(entries, entry, day, true);
      CountedAppended(entries, entry, day, false);
    }
  }

  lemma BumpTotal(stats: map<int, Stat>, day: int, s: bool, success: bool)
    ensures AllDays(Bump(stats, day, s), success) == AllDays(stats, success) + if s == success then 1 else 0
  {
    var after := Bump(stats, day, s);
    var f, g := DayCount(stats, success), DayCount(after, success);
    assert forall d | d in stats.Keys && d != day :: f(d) == g(d);
    assert g(day) == f(day) + if s == success then 1 else 0;
    if day in stats {
      assert after.Keys == stats.Keys;
      SumChanged(stats.Keys, f, g, day);
    } else {
      assert after.Keys - {day} == stats.Keys;
      SumWithout(after.Keys, g, day);
      SumEqual(stats.Keys, f, g);
    }
  }

  /** The live total moves by what the entry does to the one job it is about. */
  lemma LiveTotal(jobs: set<string>, after: set<string>, entries: seq<Entry>, entry: Entry, n: string, success: bool)
    requires !entry.Quiet? && entry.name == n
    requires after == if entry.Closed? then jobs - {n} else jobs + {n}
    requires n !in jobs ==> Since(entries, n, success) == 0
    ensures AllLive(after, entries + [entry], success) - AllLive(jobs, entries, success) ==
            if StartsOver(entry, n) then 0 - Since(entries, n, success)
            else if Counts(entry, n, success) then 1 else 0
  {
    var f, g := LiveCount(entries, success), LiveCount(entries + [entry], success);
    forall m
      ensures g(m) == if StartsOver(entry, m) then 0 else f(m) + if Counts(entry, m, success) then 1 else 0
    {
      SinceAppended(entries, entry, m, success);
    }
    var others := jobs - {n};
    SumEqual(others, f, g);
    assert after - {n} == others;
    if n in jobs {
      SumWithout(jobs, f, n);
    } else {
      assert jobs == others;
    }
    if n in after {
      SumWithout(after, g, n);
    } else {
      assert after == others;
    }
  }

  lemma QuietTotal(jobs: set<string>, entries: seq<Entry>, success: bool)
    ensures AllLive(jobs, entries + [Quiet], success) == AllLive(jobs, entries, success)
  {
    var f, g := LiveCount(entries, success), LiveCount(entries + [Quiet], success);
    forall m
      ensures f(m) == g(m)
    {
      SinceAppended(entries, Quiet, m, success);
    }
    SumEqual(jobs, f, g);
  }

  lemma DroppedAppended(entries: seq<Entry>, entry: Entry, success: bool)
    ensures Dropped(entries + [entry], success) ==
            Dropped(entries, success) + DroppedBy(entry, entries, success)
  {
    assert (entries + [entry])[..|entries|] == entries;
  }

  lemma TotalsKept(before: Db, after: Db, entries: seq<Entry>, entry: Entry, success: bool)
    requires CountersMatch(before.jobs, entries) && TotalsMatch(before, entries, success)
    requires Follows(before, after, entry)
    ensures TotalsMatch(after, entries + [entry], success)
  {
    DroppedAppended(entries, entry, success);
    if entry.Quiet? {
      QuietTotal(before.jobs.Keys, entries, success);
    } else {
      LiveTotal(before.jobs.Keys, after.jobs.Keys, entries, entry, entry.name, success);
      if entry.Completed? {
        BumpTotal(before.stats, entry.day, entry.success, success);
      }
    }
  }

  ghost predicate BooksMatch(db: Db, entries: seq<Entry>) {
    && CountersMatch(db.jobs, entries)
    && DaysMatch(db.stats, entries)
    && TotalsMatch(db, entries, true) && TotalsMatch(db, entries, false)
  }

  /** For every log: each counter is the completions counted since the job began or was last cleared,
      plus what callers carried in (modulo the width of an int32); each day's statistic is the
      completions counted for it; and all days together are the live completions plus the dropped. */
  lemma {:induction false} RunKeepsBooks(env: Env, clock: nat -> Clock, log: seq<Command>)
    ensures BooksMatch(Run(env, clock, EMPTY, log), Entries(env, clock, log))
  {
    if log != [] {
      var n := |log| - 1;
      var before, entries := Run(env, clock, EMPTY, log[..n]), Entries(env, clock, log[..n]);
      RunKeepsBooks(env, clock, log[..n]);
      EmptyExact(env);
      RunLinked(env, clock, EMPTY, log[..n]);
      StepFollows(env, clock(n), before, log[n]);
      var (after, reply) := Step(env, clock(n), before, log[n]);
      var entry := EntryOf(before, log[n], reply);
      CountersKept(before, after, entries, entry);
      DaysKept(before, after, entries, entry);
      TotalsKept(before, after, entries, entry, true);
      TotalsKept(before, after, entries, entry, false);
    }
  }

  // ----- Logs whose SetJob commands carry no counters of their own -----

  predicate BringsNoCounts(jobs: map<string, Job>, job: Job) {
    if job.name in jobs then
      job.successCount <= jobs[job.name].successCount && job.errorCount <= jobs[job.name].errorCount
    else job.successCount == 0 && job.errorCount == 0
  }

  /** Every SetJob carries counters no larger than the stored ones, and none for a new job. */
  predicate CarriesNothing(env: Env, clock: nat -> Clock, log: seq<Command>) {
    log != [] ==>
      var n := |log| - 1;
      && CarriesNothing(env, clock, log[..n])
      && (log[n].SetJobCommand? ==> BringsNoCounts(Run(env, clock, EMPTY, log[..n]).jobs, log[n].job))
  }

  lemma EntryCarriesNothing(db: Db, command: Command, reply: Reply, name: string, success: bool, entries: seq<Entry>)
    requires command.SetJobCommand? ==> BringsNoCounts(db.jobs, command.job)
    requires Carried(entries, name, success) == 0
    ensures Carried(entries + [EntryOf(db, command, reply)], name, success) == 0
  {
    CarriedAppended(entries, EntryOf(db, command, reply), name, success);
  }

  lemma {:induction false} NothingCarried(env: Env, clock: nat -> Clock, log: seq<Command>, name: string, success: bool)
    requires CarriesNothing(env, clock, log)
    ensures Carried(Entries(env, clock, log), name, success) == 0
  {
    if log != [] {
      var n := |log| - 1;
      NothingCarried(env, clock, log[..n], name, success);
      var before := Run(env, clock, EMPTY, log[..n]);
      EntryCarriesNothing(before, log[n], Step(env, clock(n), before, log[n]).1, name, success,
                          Entries(env, clock, log[..n]));
    }
  }

  /** On such logs the counters are the counted completions and nothing else. */
  lemma CountersAreCompletions(env: Env, clock: nat -> Clock, log: seq<Command>, name: string, success: bool)
    requires CarriesNothing(env, clock, log)
    requires name in Run(env, clock, EMPTY, log).jobs
    ensures CountOf(Run(env, clock, EMPTY, log).jobs[name], success)
            == Wrap32(Since(Entries(env, clock, log), name, success))
  {
    RunKeepsBooks(env, clock, log);
    NothingCarried(env, clock, log, name, success);
    BooksGiveCounter(Run(env, clock, EMPTY, log), Entries(env, clock, log), name, success);
  }

  lemma BooksGiveCounter(db: Db, entries: seq<Entry>, name: string, success: bool)
    requires BooksMatch(db, entries) && name in db.jobs && Carried(entries, name, success) == 0
    ensures CountOf(db.jobs[name], success) == Wrap32(Since(entries, name, success))
  {
  }
}
