/** Jobs, executions and the parts of the environment that the replicated store depends on. */
module Types {
  import opened Wrappers
  import opened ScheduleHash

  /** Nanoseconds since the Unix epoch. */
  type Time = int

  const EPOCH: Time := 0
  const SECOND: Time := 1_000_000_000
  /** Go's zero time, 0001-01-01T00:00:00Z, which marks a time as not set. */
  const ZERO_TIME: Time := -62_135_596_800 * SECOND
  const DAY: Time := 86_400 * SECOND

  /** The UTC day a time falls on. */
  function DayOf(t: Time): int {
    t / DAY
  }

  /** Days begin at midnight: the d-th day since the epoch lasts from d times 24 hours on for 24 hours. */
  lemma DayIff(t: Time, d: int)
    ensures DayOf(t) == d <==> d * 86_400_000_000_000 <= t < (d + 1) * 86_400_000_000_000
  {
  }

  /** Job counters are int32 on the wire and in the database. */
  type Int32 = x: int | -0x8000_0000 <= x < 0x8000_0000

  function Wrap32(x: int): (w: Int32)
    ensures (x - w) % 0x1_0000_0000 == 0
  {
    (x + 0x8000_0000) % 0x1_0000_0000 - 0x8000_0000
  }

  const STATUS_SUCCESS := "success"
  const STATUS_FAILED := "failed"
  const STATUS_PARTIALLY_FAILED := "partially_failed"

  datatype Job = Job(
    name: string,
    schedule: string,
    timezone: string,
    disabled: bool,
    parentJob: string,
    dependentJobs: seq<string>,
    concurrency: string,
    retries: nat,
    ephemeral: bool,
    tags: map<string, string>,
    executor: string,
    executorConfig: map<string, string>,
    other: string,  // display name, owner, processors, metadata: stored, never branched on
    startsAt: Option<Time>,
    expiresAt: Option<Time>,
    successCount: Int32,
    errorCount: Int32,
    lastSuccess: Option<Time>,
    lastError: Option<Time>,
    status: string,
    next: Time)

  datatype Execution = Execution(
    jobName: string,
    startedAt: Time,
    finishedAt: Time,
    success: bool,
    output: string,
    nodeName: string,
    group: int,
    attempt: nat)

  datatype Stat = Stat(succeeded: nat, failed: nat)

  /** No value is after anything, and every value is after none. */
  predicate After(t: Option<Time>, u: Option<Time>) {
    t.Some? && (u.None? || t.value > u.value)
  }

  /** The clock readings of one GetNext call. */
  datatype Clock = Clock(now: Time, later: Time)

  datatype Error =
    | EmptyName
    | IllegalName
    | SameParent
    | ScheduleParse
    | WrongConcurrency
    | BadTimezone
    | BadExecutorConfig
    | NoParent
    | ParentNotFound
    | NotFound
    | HasDependentJobs
    | DoneForDeletedJob

  /** What the store calls but does not define: the cron library, the timezone database,
      the executor checks, the Unicode tables and the sort of executions by start time. */
  datatype Env = Env(
    parses: string -> bool,
    nextAfter: (string, Time) -> Time,
    zoneKnown: string -> bool,
    executorOk: (string, map<string, string>) -> bool,
    lowerCase: char -> bool,
    byStart: map<string, Execution> -> seq<string>)

  ghost predicate ValidEnv(env: Env) {
    && !env.lowerCase(':')
    && forall m :: SortedByStart(env.byStart(m), m)
  }

  /** The cron parser accepts a known timezone in front of a spec of fields that it accepts alone. */
  ghost predicate AcceptsZones(env: Env) {
    forall spec, zone {:trigger env.parses(spec), env.zoneKnown(zone)} ::
      env.parses(spec) && env.zoneKnown(zone) && zone != "" && !IsDescriptor(spec) && !IsTimezone(spec) ==>
        env.parses("CRON_TZ=" + zone + " " + spec)
  }

  ghost predicate Distinct<T(!new)>(s: seq<T>) {
    forall i, j | 0 <= i < j < |s| :: s[i] != s[j]
  }

  /** The keys of m, each once, those of the oldest executions first. */
  ghost predicate SortedByStart(keys: seq<string>, m: map<string, Execution>) {
    && Distinct(keys)
    && (forall k :: k in keys <==> k in m)
    && (forall i, j | 0 <= i < j < |keys| :: m[keys[i]].startedAt <= m[keys[j]].startedAt)
  }

  predicate SlugChar(env: Env, c: char) {
    env.lowerCase(c) || '0' <= c <= '9' || c == '_' || c == '-'
  }

  predicate IsSlug(env: Env, s: string) {
    forall i | 0 <= i < |s| :: SlugChar(env, s[i])
  }

  /** The checks of Job.Validate in their order; None when the job is acceptable. */
  function Validate(env: Env, job: Job): Option<Error> {
    if job.name == "" then Some(EmptyName)
    else if !IsSlug(env, job.name) then Some(IllegalName)
    else if job.parentJob == job.name then Some(SameParent)
    else if (job.schedule != "" || job.parentJob == "") && !env.parses(Hashed(job.schedule, job.name)) then
      Some(ScheduleParse)
    else if job.concurrency != "allow" && job.concurrency != "forbid" && job.concurrency != "" then
      Some(WrongConcurrency)
    else if !env.zoneKnown(job.timezone) then Some(BadTimezone)
    else if !env.executorOk(job.executor, job.executorConfig) then Some(BadExecutorConfig)
    else None
  }

  predicate Valid(env: Env, job: Job) {
    Validate(env, job).None?
  }

  /** What Validate asks for, check by check. */
  lemma ValidIff(env: Env, job: Job)
    ensures Valid(env, job) <==>
            && job.name != "" && job.parentJob != job.name
            && (forall c | c in job.name :: env.lowerCase(c) || c in "0123456789_-")
            && (job.schedule != "" || job.parentJob == "" ==> env.parses(Hashed(job.schedule, job.name)))
            && job.concurrency in {"", "allow", "forbid"}
            && env.zoneKnown(job.timezone) && env.executorOk(job.executor, job.executorConfig)
  {
    SlugChars(env, job.name);
  }

  lemma SlugChars(env: Env, s: string)
    ensures IsSlug(env, s) <==> forall c | c in s :: env.lowerCase(c) || c in "0123456789_-"
  {
    forall c ensures SlugChar(env, c) <==> env.lowerCase(c) || c in "0123456789_-" {
      var others := "0123456789_-";
      if '0' <= c <= '9' {
        assert others[c as int - '0' as int] == c;
      }
      assert others[10] == '_' && others[11] == '-';
    }
  }

  /** The next run after the clock reading; None when the schedule does not parse. */
  function GetNext(env: Env, clock: Clock, job: Job): Option<Time> {
    if job.startsAt.Some? && clock.now < job.startsAt.value then job.startsAt
    else if job.schedule != "" then
      var spec := Hashed(job.schedule, job.name);
      if env.parses(spec) then Some(env.nextAfter(spec, clock.later)) else None
    else Some(ZERO_TIME)
  }
}
