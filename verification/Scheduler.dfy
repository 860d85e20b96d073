/** The leader's cron scheduler and its entry table. */
module Scheduling {
  import opened Text
  import opened Types
  import opened ScheduleHash

  datatype Entry = Entry(job: Job, schedule: string)

  /** The spec handed to cron: the job's timezone goes in front unless the spec has its own or is a
      descriptor. */
  function CronSpec(job: Job): string {
    var schedule := Hashed(job.schedule, job.name);
    if job.timezone != "" && !IsDescriptor(schedule) && !IsTimezone(schedule)
    then "CRON_TZ=" + job.timezone + " " + schedule
    else schedule
  }

  /** The parts that stand for cron fields. */
  function Fields(parts: seq<string>): seq<string> {
    if parts == [] then []
    else (if IsTimezone(parts[0]) then [] else [parts[0]]) + Fields(parts[1..])
  }

  lemma ZoneKeepsFields(zone: string, schedule: string)
    requires IsTimezone(zone)
    ensures ' ' !in zone ==> Fields(Split(zone + " " + schedule, ' ')) == Fields(Split(schedule, ' '))
    ensures IsTimezone(zone + " " + schedule)
  {
    if ' ' !in zone {
      SplitOfPrefix(zone, schedule, ' ');
      assert ([zone] + Split(schedule, ' '))[1..] == Split(schedule, ' ');
    }
  }

  predicate Schedulable(job: Job) {
    !job.disabled && job.parentJob == ""
  }

  /** Job name to spec, for an entry table without two entries of one name. */
  function IndexOf(entries: seq<Entry>): map<string, string> {
    if entries == [] then map[]
    else
      var last := entries[|entries| - 1];
      IndexOf(entries[..|entries| - 1])[last.job.name := last.schedule]
  }

  function AfterAdd(env: Env, index: map<string, string>, job: Job): map<string, string> {
    if Schedulable(job) && env.parses(CronSpec(job)) then index[job.name := CronSpec(job)] else index - {job.name}
  }

  predicate AddFails(env: Env, job: Job) {
    Schedulable(job) && !env.parses(CronSpec(job))
  }

  predicate AllAddable(env: Env, jobs: seq<Job>) {
    forall i | 0 <= i < |jobs| :: !AddFails(env, jobs[i])
  }

  /** The table after Start has tried the first k jobs, and whether it got that far without a failure. */
  function Filled(env: Env, jobs: seq<Job>, k: nat): (map<string, string>, bool)
    requires k <= |jobs|
  {
    if k == 0 then (map[], true)
    else
      var (index, ok) := Filled(env, jobs, k - 1);
      if ok then (AfterAdd(env, index, jobs[k - 1]), !AddFails(env, jobs[k - 1])) else (index, false)
  }

  lemma {:induction false} FillingStops(env: Env, jobs: seq<Job>, k: nat, l: nat)
    requires k <= l <= |jobs| && !Filled(env, jobs, k).1
    ensures Filled(env, jobs, l) == Filled(env, jobs, k)
  {
    if k < l {
      FillingStops(env, jobs, k, l - 1);
    }
  }

  ghost predicate NamesDiffer(entries: seq<Entry>) {
    forall i, j | 0 <= i < j < |entries| :: entries[i].job.name != entries[j].job.name
  }

  lemma {:induction false} IndexMember(entries: seq<Entry>, name: string)
    ensures name in IndexOf(entries) <==> exists i :: 0 <= i < |entries| && entries[i].job.name == name
  {
    if entries != [] {
      var n := |entries| - 1;
      IndexMember(entries[..n], name);
      if name in IndexOf(entries[..n]) {
        var i :| 0 <= i < n && entries[..n][i].job.name == name;
        assert entries[i].job.name == name;
      }
      if i :| 0 <= i < n && entries[i].job.name == name {
        assert entries[..n][i].job.name == name;
      }
    }
  }

  lemma FirstIndexed(entries: seq<Entry>)
    ensures entries != [] ==> entries[0].job.name in IndexOf(entries)
  {
    if entries != [] {
      IndexMember(entries, entries[0].job.name);
    }
  }

  lemma LastIndexed(entries: seq<Entry>)
    requires entries != []
    ensures var n := |entries| - 1;
            IndexOf(entries) == IndexOf(entries[..n])[entries[n].job.name := entries[n].schedule]
  {
  }

  lemma PutThenTake(m: map<string, string>, put: string, value: string, take: string)
    requires put != take
    ensures (m - {take})[put := value] == m[put := value] - {take}
  {
  }

  lemma {:induction false} IndexWithout(entries: seq<Entry>, i: nat, rest: seq<Entry>)
    requires i < |entries| && NamesDiffer(entries) && rest == entries[..i] + entries[i + 1..]
    ensures IndexOf(rest) == IndexOf(entries) - {entries[i].job.name}
  {
    var n := |entries| - 1;
    var front := entries[..n];
    if i == n {
      assert rest == front;
      IndexMember(front, entries[n].job.name);
    } else {
      IndexWithout(front, i, front[..i] + front[i + 1..]);
      assert rest == front[..i] + front[i + 1..] + [entries[n]];
      assert rest[..n - 1] == front[..i] + front[i + 1..];
      LastIndexed(rest);
      LastIndexed(entries);
      PutThenTake(IndexOf(front), entries[n].job.name, entries[n].schedule, entries[i].job.name);
    }
  }

  ghost predicate NamedFrom(entries: seq<Entry>, i: nat, name: string) {
    exists k :: i <= k < |entries| && entries[k].job.name == name
  }

  class Scheduler {
    const env: Env
    var started: bool
    var entries: seq<Entry>

    ghost predicate Valid()
      reads this
    {
      NamesDiffer(entries)
    }

    ghost function Index(): map<string, string>
      reads this
    {
      IndexOf(entries)
    }

    constructor (env: Env)
      ensures Valid() && !started && Index() == map[] && this.env == env
    {
      this.env := env;
      started, entries := false, [];
    }

    method GetEntryJob(name: string) returns (found: bool, entry: nat)
      ensures found ==> entry < |entries| && entries[entry].job.name == name
      ensures found <==> name in Index()
    {
      IndexMember(entries, name);
      entry := 0;
      for i := 0 to |entries|
        invariant forall k | 0 <= k < i :: entries[k].job.name != name
      {
        if entries[i].job.name == name {
          return true, i;
        }
      }
      found := false;
    }

    method RemoveJob(name: string)
      requires Valid()
      modifies this`entries
      ensures Valid() && Index() == old(Index()) - {name}
    {
      var found, entry := GetEntryJob(name);
      if found {
        IndexWithout(entries, entry, entries[..entry] + entries[entry + 1..]);
        entries := entries[..entry] + entries[entry + 1..];
      }
    }

    method ClearCron()
      requires Valid()
      modifies this`entries
      ensures Valid() && entries == []
    {
      var snapshot := entries;
      forall name | name in Index() ensures NamedFrom(snapshot, 0, name) {
        IndexMember(entries, name);
      }
      for i := 0 to |snapshot|
        invariant Valid()
        invariant forall name | name in Index() :: NamedFrom(snapshot, i, name)
      {
        RemoveJob(snapshot[i].job.name);
      }
      FirstIndexed(entries);
      assert entries != [] ==> entries[0].job.name in Index();
    }

    /** An entry of the same name goes first, whatever happens next. */
    method AddJob(job: Job) returns (ok: bool)
      requires Valid()
      modifies this`entries
      ensures Valid() && Index() == AfterAdd(env, old(Index()), job)
      ensures ok == !AddFails(env, job)
      ensures job.disabled || job.parentJob != "" ==> ok && Index() == old(Index()) - {job.name}
      ensures !job.disabled && job.parentJob == "" ==>
                && ok == env.parses(CronSpec(job))
                && Index() == if ok then old(Index())[job.name := CronSpec(job)] else old(Index()) - {job.name}
    {
      var found, _ := GetEntryJob(job.name);
      if found {
        RemoveJob(job.name);
      }
      if job.disabled || job.parentJob != "" {
        return true;
      }
      var schedule := SpecWithZone(job);
      if !env.parses(schedule) {
        return false;
      }
      AddEntry(job, schedule);
      ok := true;
    }

    /** The spec has a timezone whenever the job has one and cron can take it, and its fields are those
        of the hashed schedule. */
    static method SpecWithZone(job: Job) returns (schedule: string)
      ensures schedule == CronSpec(job)
      ensures var hashed := Hashed(job.schedule, job.name);
              schedule == if job.timezone == "" || "@" <= hashed || "TZ=" <= hashed || "CRON_TZ=" <= hashed then hashed
                          else "CRON_TZ=" + job.timezone + " " + hashed
      ensures job.timezone != "" && !IsDescriptor(Hashed(job.schedule, job.name)) ==> IsTimezone(schedule)
      ensures ' ' !in job.timezone ==>
                Fields(Split(schedule, ' ')) == Fields(Split(Hashed(job.schedule, job.name), ' '))
    {
      schedule := Hashed(job.schedule, job.name);
      ZoneKeepsFields("CRON_TZ=" + job.timezone, schedule);
      if job.timezone != "" && !("@" <= schedule) && !("TZ=" <= schedule) && !("CRON_TZ=" <= schedule) {
        schedule := "CRON_TZ=" + job.timezone + " " + schedule;
      }
    }

    method AddEntry(job: Job, schedule: string)
      requires Valid() && job.name !in Index()
      modifies this`entries
      ensures Valid() && Index() == old(Index())[job.name := schedule]
    {
      forall i | 0 <= i < |entries| ensures entries[i].job.name != job.name {
        IndexMember(entries, job.name);
      }
      ghost var before := entries;
      entries := entries + [Entry(job, schedule)];
      assert entries[..|entries| - 1] == before;
    }

    /** A failing job leaves the scheduler stopped with the entries added so far. */
    method Start(jobs: seq<Job>) returns (ok: bool)
      requires Valid()
      modifies this
      ensures Valid()
      ensures old(started) ==> !ok && started && Index() == old(Index())
      ensures !old(started) ==> started == ok && (Index(), ok) == Filled(env, jobs, |jobs|)
    {
      if started {
        return false;
      }
      ClearCron();
      for i := 0 to |jobs|
        invariant Valid() && !started
        invariant (Index(), true) == Filled(env, jobs, i)
      {
        var added := AddJob(jobs[i]);
        if !added {
          FillingStops(env, jobs, i + 1, |jobs|);
          return false;
        }
      }
      started := true;
      ok := true;
    }

    /** Stopping keeps the entries. */
    method Stop()
      modifies this`started
      ensures !started
    {
      if started {
        started := false;
      }
    }
  }
}
