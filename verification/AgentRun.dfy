/** Running an execution on an agent: the retry loop of the client and the stream protocol of one
    attempt. Every outcome of a network call is an input. */
module AgentRun {
  import opened Wrappers
  import opened Types
  import opened Keys

  // ----- Errors of network calls -----

  datatype Code = Unavailable | DeadlineExceeded | ResourceExhausted | Aborted | Internal | OtherCode

  /** An error with its gRPC status code, if it has one, and its text. */
  datatype Failure = Failure(code: Option<Code>, text: string)

  predicate Contains(text: string, part: string) {
    exists i | 0 <= i <= |text| :: part <= text[i..]
  }

  predicate Retryable(f: Failure) {
    match f.code
    case Some(code) => code != OtherCode
    case None =>
      || Contains(f.text, "transport is closing")
      || Contains(f.text, "connection refused")
      || Contains(f.text, "connection reset")
      || Contains(f.text, "broken pipe")
      || Contains(f.text, "context deadline exceeded")
  }

  const NOT_LEADER :=
    "rpc error: code = Unknown desc = grpc: Error, server is not leader, this operation should be run on the leader"
  const BROKEN_STREAM := "grpc: Error on execution streaming, agent connection was abruptly terminated"

  /** A completion sent to a server that is not the leader counts as delivered. */
  function Delivered(reply: Option<Failure>): Option<Failure> {
    if reply.Some? && reply.value.text == NOT_LEADER then None else reply
  }

  // ----- One attempt -----

  datatype Ending = Eof | Broken(error: Failure, now: Time)

  /** What the network does during one attempt: messages arrive before the stream ends, and recorded
      and finished answer the SetExecution and ExecutionDone calls, when they are made. */
  datatype Attempt =
    | NoConnection(error: Failure)
    | NoStream(error: Failure)
    | Streamed(messages: seq<Execution>, ending: Ending, recorded: Option<Failure>, finished: Option<Failure>)

  /** The calls that a run makes, in order; ok says that the client saw no error. */
  datatype Action =
    | Sleep(pause: int)
    | Dispatch(execution: Execution)
    | Record(execution: Execution, ok: bool)
    | Finish(execution: Execution, ok: bool)

  function BrokenOff(e: Execution, ending: Ending): Execution
    requires ending.Broken?
  {
    e.(finishedAt := ending.now, success := false, output := BROKEN_STREAM + ": " + ending.error.text)
  }

  /** The execution reported when the stream ends: the last one received, or the one sent. */
  function Final(e: Execution, a: Attempt): Execution
    requires a.Streamed?
  {
    var last := if a.messages == [] then e else a.messages[|a.messages| - 1];
    if a.ending.Eof? then last else BrokenOff(last, a.ending)
  }

  predicate LostRecord(a: Attempt) {
    a.Streamed? && a.messages != [] && a.recorded.Some?
  }

  function AttemptTrace(e: Execution, a: Attempt): seq<Action> {
    match a
    case NoConnection(_) => []
    case NoStream(_) => [Dispatch(e)]
    case Streamed(messages, _, recorded, finished) =>
      var finish := Finish(Final(e, a), Delivered(finished).None?);
      if messages == [] then [Dispatch(e), finish]
      else if recorded.Some? then [Dispatch(e), Record(messages[0], false)]
      else [Dispatch(e), Record(messages[0], true), finish]
  }

  function AttemptResult(a: Attempt): Option<Failure> {
    match a
    case NoConnection(error) => Some(error)
    case NoStream(error) => Some(error)
    case Streamed(_, _, recorded, finished) => if LostRecord(a) then recorded else Delivered(finished)
  }

  /** The caller's execution afterwards: the attempt writes to it only when the stream breaks before
      the first message. */
  function Left(e: Execution, a: Attempt): Execution {
    if a.Streamed? && a.messages == [] && a.ending.Broken? then BrokenOff(e, a.ending) else e
  }

  function KeysOf(messages: seq<Execution>): set<string> {
    set m | m in messages :: ShortKey(m)
  }

  /** The active executions that the attempt registers. */
  function Registered(a: Attempt): set<string> {
    if !a.Streamed? then {}
    else if LostRecord(a) then {ShortKey(a.messages[0])}
    else KeysOf(a.messages)
  }

  // ----- Pauses -----

  function Wrap64(x: int): int {
    (x + 0x8000_0000_0000_0000) % 0x1_0000_0000_0000_0000 - 0x8000_0000_0000_0000
  }

  function Pow2(n: nat): (p: nat)
    ensures p > 0
  {
    if n == 0 then 1 else 2 * Pow2(n - 1)
  }

  function Min(a: int, b: int): int {
    if a < b then a else b
  }

  const HALF: int := 0x4000_0000_0000_0000  // 2^62

  datatype Config = Config(maxRetries: int, initial: int, maxInterval: int)

  /** Doubling with the width of time.Duration, cut off at the maximum. */
  function Grown(backoff: int, maxInterval: int, doublings: nat): int
    decreases doublings
  {
    if doublings == 0 then backoff
    else
      var doubled := Wrap64(backoff * 2);
      if doubled > maxInterval then maxInterval else Grown(doubled, maxInterval, doublings - 1)
  }

  /** The pause before the k-th retry. */
  function Pause(c: Config, k: nat): int
    requires k > 0
  {
    Min(Grown(c.initial, c.maxInterval, k - 1), c.maxInterval)
  }

  /** A doubling that would leave 64 bits is cut off before: its operand is past the maximum, and it is
      not the initial interval, which nothing cuts off before its doubling. */
  predicate SafeAt(initial: int, maxInterval: int, j: nat) {
    HALF <= initial * Pow2(j) < 2 * HALF ==> j > 0 && initial * Pow2(j) > maxInterval
  }

  ghost predicate DoublesSafely(initial: int, maxInterval: int) {
    forall j: nat :: SafeAt(initial, maxInterval, j)
  }

  lemma DoubleFirst(b: nat, n: nat)
    ensures b * Pow2(n + 1) == (b * 2) * Pow2(n) >= b * 2
  {
    assert b * Pow2(n + 1) == b * (2 * Pow2(n)) == (b * 2) * Pow2(n);
    MoreThanOnce(b * 2, Pow2(n));
  }

  lemma MoreThanOnce(b: nat, p: nat)
    requires p > 0
    ensures b * p >= b
  {
    assert b * p == b + b * (p - 1);
  }

  lemma SafeOnce(b: nat, maxInterval: int)
    requires b < 2 * HALF && DoublesSafely(b, maxInterval)
    ensures b < HALF && Wrap64(b * 2) == b * 2
    ensures b * 2 <= maxInterval ==> b * 2 < HALF && DoublesSafely(b * 2, maxInterval)
  {
    assert SafeAt(b, maxInterval, 0) && b * Pow2(0) == b;
    if b * 2 <= maxInterval {
      DoubleFirst(b, 0);
      assert SafeAt(b, maxInterval, 1);
      forall j: nat ensures SafeAt(b * 2, maxInterval, j) {
        DoubleFirst(b, j);
        assert SafeAt(b, maxInterval, j + 1);
        assert b * 2 * Pow2(0) == b * 2;
      }
    }
  }

  lemma {:induction false} GrownIs(backoff: nat, maxInterval: int, doublings: nat)
    requires backoff < 2 * HALF && DoublesSafely(backoff, maxInterval)
    ensures Min(Grown(backoff, maxInterval, doublings), maxInterval) == Min(backoff * Pow2(doublings), maxInterval)
    decreases doublings
  {
    if doublings > 0 {
      DoubleFirst(backoff, doublings - 1);
      SafeOnce(backoff, maxInterval);
      if backoff * 2 <= maxInterval {
        GrownIs(backoff * 2, maxInterval, doublings - 1);
      }
    }
  }

  /** While no operand is past the maximum the doublings are exact. */
  lemma {:induction false} GrownReaches(backoff: nat, maxInterval: int, j: nat, n: nat, reached: int)
    requires reached == backoff * Pow2(j) && (j > 0 ==> reached <= maxInterval < 2 * HALF)
    ensures Grown(backoff, maxInterval, j + n) == Grown(reached, maxInterval, n)
    decreases j
  {
    if j == 0 {
      assert backoff * Pow2(0) == backoff;
    } else {
      DoubleFirst(backoff, j - 1);
      assert Wrap64(backoff * 2) == backoff * 2;
      GrownReaches(backoff * 2, maxInterval, j - 1, n, reached);
    }
  }

  /** Where a doubling is not safe it wraps, and the pause after it is negative. */
  lemma PauseWraps(c: Config, j: nat)
    requires c.initial >= 0 && 0 <= c.maxInterval < 2 * HALF && !SafeAt(c.initial, c.maxInterval, j)
    ensures Pause(c, j + 2) < 0 <= Min(c.initial * Pow2(j + 1), c.maxInterval)
  {
    var b := c.initial * Pow2(j);
    GrownReaches(c.initial, c.maxInterval, j, 1, b);
    assert Grown(b, c.maxInterval, 1) == Wrap64(b * 2) == b * 2 - 4 * HALF;
    DoubleFirst(c.initial, j);
  }

  ghost predicate PauseDoublesAt(c: Config, k: nat) {
    k > 0 ==> Pause(c, k) == Min(c.initial * Pow2(k - 1), c.maxInterval)
  }

  /** Every pause is the initial interval doubled once for each retry before, but at most the maximum, if
      and only if no doubling that would leave 64 bits is reached. */
  lemma PauseDoublesIff(c: Config)
    requires 0 <= c.initial < 2 * HALF && 0 <= c.maxInterval < 2 * HALF
    ensures (forall k :: PauseDoublesAt(c, k)) <==> DoublesSafely(c.initial, c.maxInterval)
  {
    if DoublesSafely(c.initial, c.maxInterval) {
      forall k: nat ensures PauseDoublesAt(c, k) {
        if k > 0 {
          GrownIs(c.initial, c.maxInterval, k - 1);
        }
      }
    } else {
      var j: nat :| !SafeAt(c.initial, c.maxInterval, j);
      PauseWraps(c, j);
      assert !PauseDoublesAt(c, j + 2);
    }
  }

  lemma SmallIsSafe(c: Config)
    requires 0 <= c.initial < HALF && c.maxInterval < HALF
    ensures DoublesSafely(c.initial, c.maxInterval)
  {
    forall j: nat ensures SafeAt(c.initial, c.maxInterval, j) {
      assert c.initial * Pow2(0) == c.initial;
    }
  }

  /** In particular no doubling leaves 64 bits while both bounds are below 2^62. */
  lemma PauseDoubles(c: Config, k: nat)
    requires k > 0 && 0 <= c.initial < HALF && c.maxInterval < HALF
    ensures Pause(c, k) == Min(c.initial * Pow2(k - 1), c.maxInterval)
  {
    SmallIsSafe(c);
    GrownIs(c.initial, c.maxInterval, k - 1);
  }

  // ----- The whole run -----

  /** The calls made, the error returned, the caller's execution afterwards, and the keys registered on
      the way. */
  datatype Summary = Summary(trace: seq<Action>, result: Option<Failure>, execution: Execution, registered: set<string>)

  function Following(trace: seq<Action>, registered: set<string>, rest: Summary): Summary {
    rest.(trace := trace + rest.trace, registered := registered + rest.registered)
  }

  lemma FollowingTwice(trace: seq<Action>, registered: set<string>, here: Summary, rest: Summary)
    ensures Following(trace, registered, Following(here.trace, here.registered, rest)) ==
            Following(trace + here.trace, registered + here.registered, rest)
  {
    assert trace + (here.trace + rest.trace) == trace + here.trace + rest.trace;
  }

  lemma Longer(s: seq<Action>, t: seq<Action>, u: seq<Action>)
    ensures s + t + u == s + (t + u)
  {
  }

  /** What the k-th attempt does, given the caller's execution. */
  type Trial = (Execution, nat) -> Summary

  /** One attempt with the pause before it. */
  function Tried(c: Config, a: Attempt, e: Execution, k: nat): Summary {
    Summary((if k > 0 then [Sleep(Pause(c, k))] else []) + AttemptTrace(e, a), AttemptResult(a), Left(e, a),
            Registered(a))
  }

  ghost predicate TrialIs(trial: Trial, c: Config, attempts: nat -> Attempt, e: Execution, k: nat) {
    trial(e, k) == Tried(c, attempts(k), e, k)
  }

  function Trials(c: Config, attempts: nat -> Attempt): Trial {
    (e: Execution, k: nat) => Tried(c, attempts(k), e, k)
  }

  predicate GoesOn(attempt: Summary) {
    attempt.result.Some? && Retryable(attempt.result.value)
  }

  /** The run from the k-th attempt on; last is the error of the attempt before. */
  function RunFrom(trial: Trial, maxRetries: int, e: Execution, k: nat, last: Option<Failure>): Summary
    decreases maxRetries + 1 - k
  {
    if k > maxRetries then Summary([], last, e, {})
    else
      var here := trial(e, k);
      if GoesOn(here) then
        Following(here.trace, here.registered, RunFrom(trial, maxRetries, here.execution, k + 1, here.result))
      else here
  }

  function Run(c: Config, attempts: nat -> Attempt, e: Execution): Summary {
    RunFrom(Trials(c, attempts), c.maxRetries, e, 0, None)
  }

  function Dispatches(trace: seq<Action>): nat {
    if trace == [] then 0 else (if trace[0].Dispatch? then 1 else 0) + Dispatches(trace[1..])
  }

  function Pauses(trace: seq<Action>): seq<int> {
    if trace == [] then []
    else (if trace[0].Sleep? then [trace[0].pause] else []) + Pauses(trace[1..])
  }

  lemma {:induction false} DispatchesAppend(s: seq<Action>, t: seq<Action>)
    ensures Dispatches(s + t) == Dispatches(s) + Dispatches(t)
  {
    if s == [] {
      assert s + t == t;
    } else {
      DispatchesAppend(s[1..], t);
      assert (s + t)[1..] == s[1..] + t;
    }
  }

  lemma {:induction false} PausesAppend(s: seq<Action>, t: seq<Action>)
    ensures Pauses(s + t) == Pauses(s) + Pauses(t)
  {
    if s == [] {
      assert s + t == t;
    } else {
      PausesAppend(s[1..], t);
      var first := if s[0].Sleep? then [s[0].pause] else [];
      assert (s + t)[0] == s[0] && (s + t)[1..] == s[1..] + t;
      assert Pauses(s + t) == first + (Pauses(s[1..]) + Pauses(t)) && Pauses(s) == first + Pauses(s[1..]);
    }
  }

  lemma CountsAppend(s: seq<Action>, t: seq<Action>)
    ensures Dispatches(s + t) == Dispatches(s) + Dispatches(t)
    ensures Pauses(s + t) == Pauses(s) + Pauses(t)
  {
    DispatchesAppend(s, t);
    PausesAppend(s, t);
  }

  lemma FirstCounts(a: Action, rest: seq<Action>)
    ensures Dispatches([a] + rest) == (if a.Dispatch? then 1 else 0) + Dispatches(rest)
    ensures Pauses([a] + rest) == (if a.Sleep? then [a.pause] else []) + Pauses(rest)
  {
    assert ([a] + rest)[1..] == rest;
  }

  lemma TriedCounts(c: Config, a: Attempt, e: Execution, k: nat)
    ensures Dispatches(Tried(c, a, e, k).trace) <= 1
    ensures Pauses(Tried(c, a, e, k).trace) == if k > 0 then [Pause(c, k)] else []
  {
    var pause := if k > 0 then [Sleep(Pause(c, k))] else [];
    CountsAppend(pause, AttemptTrace(e, a));
    AttemptCounts(e, a);
    if k > 0 {
      assert pause == [Sleep(Pause(c, k))] + [];
      FirstCounts(pause[0], []);
    }
  }

  lemma AttemptCounts(e: Execution, a: Attempt)
    ensures Dispatches(AttemptTrace(e, a)) <= 1 && Pauses(AttemptTrace(e, a)) == []
  {
    var trace := AttemptTrace(e, a);
    if |trace| > 0 {
      assert trace == [trace[0]] + trace[1..];
      FirstCounts(trace[0], trace[1..]);
    }
    if |trace| > 1 {
      assert trace[1..] == [trace[1]] + trace[2..];
      FirstCounts(trace[1], trace[2..]);
    }
    if |trace| > 2 {
      assert trace[2..] == [trace[2]] + [];
      FirstCounts(trace[2], []);
    }
  }

  function ExpectedPauses(c: Config, k: nat, n: nat): seq<int>
    requires k > 0
  {
    seq(n, i requires 0 <= i < n => Pause(c, k + i))
  }

  function Most(a: int, b: int): int {
    if a < b then b else a
  }

  lemma MorePauses(c: Config, k: nat, n: nat)
    requires k > 0
    ensures ExpectedPauses(c, k, n + 1) == [Pause(c, k)] + ExpectedPauses(c, k + 1, n)
  {
  }

  ghost predicate TriesOnce(c: Config, trial: Trial) {
    forall e, k {:trigger trial(e, k)} ::
      && Dispatches(trial(e, k).trace) <= 1
      && Pauses(trial(e, k).trace) == if k > 0 then [Pause(c, k)] else []
  }

  /** The pauses of a run from the k-th attempt on are those due, in their order, and few enough. */
  lemma {:induction false} RunCounts(c: Config, trial: Trial, e: Execution, k: nat, last: Option<Failure>, run: Summary)
    requires TriesOnce(c, trial) && run == RunFrom(trial, c.maxRetries, e, k, last)
    ensures Dispatches(run.trace) <= Most(c.maxRetries + 1 - k, 0)
    ensures |Pauses(run.trace)| <= Most(c.maxRetries + 1 - Most(k, 1), 0)
    ensures Pauses(run.trace) == ExpectedPauses(c, Most(k, 1), |Pauses(run.trace)|)
    decreases c.maxRetries + 1 - k
  {
    if k <= c.maxRetries {
      var here := trial(e, k);
      if GoesOn(here) {
        var rest := RunFrom(trial, c.maxRetries, here.execution, k + 1, here.result);
        RunCounts(c, trial, here.execution, k + 1, here.result, rest);
        CountsAppend(here.trace, rest.trace);
        if k > 0 {
          MorePauses(c, k, |Pauses(rest.trace)|);
        }
      }
    }
  }

  lemma TrialsTryOnce(c: Config, attempts: nat -> Attempt)
    ensures TriesOnce(c, Trials(c, attempts))
  {
    forall e, k: nat
      ensures Dispatches(Tried(c, attempts(k), e, k).trace) <= 1
      ensures Pauses(Tried(c, attempts(k), e, k).trace) == if k > 0 then [Pause(c, k)] else []
    {
      TriedCounts(c, attempts(k), e, k);
    }
  }

  /** At most maxRetries + 1 dispatches, none when that is negative, and before the i-th retry a pause of
      the initial interval doubled each time up to the maximum, unless a doubling is not safe. */
  lemma RunIsBounded(c: Config, attempts: nat -> Attempt, e: Execution)
    ensures var trace := Run(c, attempts, e).trace;
            && Dispatches(trace) <= Most(c.maxRetries + 1, 0)
            && |Pauses(trace)| <= Most(c.maxRetries, 0)
            && (forall i | 0 <= i < |Pauses(trace)| :: Pauses(trace)[i] == Pause(c, i + 1))
            && (0 <= c.initial < 2 * HALF && DoublesSafely(c.initial, c.maxInterval) ==>
                  forall i | 0 <= i < |Pauses(trace)| :: Pauses(trace)[i] == Min(c.initial * Pow2(i), c.maxInterval))
  {
    TrialsTryOnce(c, attempts);
    RunCounts(c, Trials(c, attempts), e, 0, None, Run(c, attempts, e));
    PausesDouble(c, Pauses(Run(c, attempts, e).trace));
  }

  lemma PausesDouble(c: Config, pauses: seq<int>)
    requires pauses == ExpectedPauses(c, 1, |pauses|)
    ensures forall i | 0 <= i < |pauses| :: pauses[i] == Pause(c, i + 1)
    ensures 0 <= c.initial < 2 * HALF && DoublesSafely(c.initial, c.maxInterval) ==>
              forall i | 0 <= i < |pauses| :: pauses[i] == Min(c.initial * Pow2(i), c.maxInterval)
  {
    if 0 <= c.initial < 2 * HALF && DoublesSafely(c.initial, c.maxInterval) {
      forall i | 0 <= i < |pauses|
        ensures pauses[i] == Min(c.initial * Pow2(i), c.maxInterval)
      {
        assert pauses[i] == Pause(c, 1 + i) == Min(Grown(c.initial, c.maxInterval, i), c.maxInterval);
        GrownIs(c.initial, c.maxInterval, i);
      }
    }
  }

  // ----- What one attempt does -----

  /** The last message, or the execution sent before any came; failed at once when the stream broke. */
  predicate Reports(e: Execution, a: Attempt, reported: Execution)
    requires a.Streamed?
  {
    var last := if a.messages == [] then e else a.messages[|a.messages| - 1];
    if a.ending.Eof? then reported == last
    else
      && reported.finishedAt == a.ending.now && !reported.success
      && reported.output == BROKEN_STREAM + ": " + a.ending.error.text
      && reported == last.(finishedAt := reported.finishedAt, success := false, output := reported.output)
  }

  /** The calls of an attempt: a dispatch once there is a connection, the first message recorded if one comes, and
      unless that failed the end reported. It writes to the caller's execution what it reports of it itself. */
  lemma AttemptCalls(e: Execution, a: Attempt)
    ensures var trace := AttemptTrace(e, a);
            && (forall x :: Dispatch(x) in trace <==> !a.NoConnection? && x == e)
            && (forall x, ok :: Record(x, ok) in trace <==>
                                && a.Streamed? && a.messages != [] && x == a.messages[0] && ok == a.recorded.None?)
            && (forall x, ok | Finish(x, ok) in trace ::
                  && a.Streamed? && Reports(e, a, x)
                  && (ok <==> a.finished.None? || a.finished.value.text == NOT_LEADER))
            && ((exists x, ok :: Finish(x, ok) in trace) <==>
                  a.Streamed? && (a.messages == [] || a.recorded.None?))
    ensures if a.Streamed? && a.messages == [] then Reports(e, a, Left(e, a)) else Left(e, a) == e
    ensures forall key :: key in Registered(a) <==>
              && a.Streamed?
              && exists i | 0 <= i < |a.messages| && (i == 0 || a.recorded.None?) :: key == ShortKey(a.messages[i])
  {
    if a.Streamed? && (a.messages == [] || a.recorded.None?) {
      var trace := AttemptTrace(e, a);
      assert trace[|trace| - 1] == Finish(Final(e, a), Delivered(a.finished).None?);
    }
  }

  // ----- When a run goes on -----

  /** Why an attempt fails, if it does: no connection, no stream, a SetExecution that failed on the first message,
      or an ExecutionDone that failed other than for being sent to a server that does not lead. */
  lemma FailsIff(a: Attempt, f: Failure)
    ensures AttemptResult(a) == Some(f) <==>
            match a
            case NoConnection(error) => f == error
            case NoStream(error) => f == error
            case Streamed(messages, _, recorded, finished) =>
              if messages != [] && recorded.Some? then recorded == Some(f)
              else finished == Some(f) && f.text != NOT_LEADER
  {
  }

  ghost predicate Has(text: string, part: string) {
    exists before, after :: text == before + part + after
  }

  /** A failure that may pass: one of five codes, or without a code one of five texts. */
  ghost predicate Passing(f: Failure) {
    || f.code in {Some(Unavailable), Some(DeadlineExceeded), Some(ResourceExhausted), Some(Aborted), Some(Internal)}
    || (f.code == None && exists part | part in PASSING_TEXTS :: Has(f.text, part))
  }

  const PASSING_TEXTS := {
    "transport is closing", "connection refused", "connection reset", "broken pipe", "context deadline exceeded"}

  lemma ContainsIff(text: string, part: string)
    ensures Contains(text, part) <==> Has(text, part)
  {
    if i :| 0 <= i <= |text| && part <= text[i..] {
      assert text == text[..i] + part + text[i + |part|..];
    }
    if before, after :| text == before + part + after {
      assert text[|before|..] == part + after;
    }
  }

  lemma PassingIff(f: Failure)
    ensures Passing(f) <==> Retryable(f)
  {
    forall part ensures Contains(f.text, part) <==> Has(f.text, part) {
      ContainsIff(f.text, part);
    }
    SomePassing(f.text);
  }

  lemma SomePassing(text: string)
    ensures (exists part | part in PASSING_TEXTS :: Has(text, part)) <==>
            || Has(text, "transport is closing") || Has(text, "connection refused") || Has(text, "connection reset")
            || Has(text, "broken pipe") || Has(text, "context deadline exceeded")
  {
    var found := exists part | part in PASSING_TEXTS :: Has(text, part);
    assert Has(text, "transport is closing") ==> found;
    assert Has(text, "connection refused") ==> found;
    assert Has(text, "connection reset") ==> found;
    assert Has(text, "broken pipe") ==> found;
    assert Has(text, "context deadline exceeded") ==> found;
  }

  ghost predicate TriesAgain(a: Attempt) {
    AttemptResult(a).Some? && Passing(AttemptResult(a).value)
  }

  /** The last attempt of a run from the k-th on: the first not to be tried again, if one comes in time. */
  ghost predicate LastTry(again: nat -> bool, maxRetries: int, k: nat, n: nat) {
    && k <= n <= maxRetries
    && (forall j | k <= j < n :: again(j))
    && (n < maxRetries ==> !again(n))
  }

  ghost predicate ResultsAre(trial: Trial, results: nat -> Option<Failure>, again: nat -> bool) {
    forall e, k: nat {:trigger trial(e, k)} :: trial(e, k).result == results(k) && (GoesOn(trial(e, k)) <==> again(k))
  }

  lemma {:induction false} RunTries(c: Config, trial: Trial, results: nat -> Option<Failure>, again: nat -> bool,
                                    e: Execution, k: nat, last: Option<Failure>, run: Summary)
    requires TriesOnce(c, trial) && ResultsAre(trial, results, again)
    requires k <= c.maxRetries && run == RunFrom(trial, c.maxRetries, e, k, last)
    ensures var n := k + |Pauses(run.trace)| - if k > 0 then 1 else 0;
            n >= 0 && LastTry(again, c.maxRetries, k, n) && run.result == results(n)
    decreases c.maxRetries + 1 - k
  {
    var here := trial(e, k);
    if GoesOn(here) {
      var rest := RunFrom(trial, c.maxRetries, here.execution, k + 1, here.result);
      PausesAppend(here.trace, rest.trace);
      if k < c.maxRetries {
        RunTries(c, trial, results, again, here.execution, k + 1, here.result, rest);
      } else {
        assert rest.trace == [];
      }
    }
  }

  lemma GoesOnIff(a: Attempt, here: Summary)
    requires here.result == AttemptResult(a)
    ensures GoesOn(here) <==> TriesAgain(a)
  {
    if here.result.Some? {
      PassingIff(here.result.value);
    }
  }

  ghost function Again(attempts: nat -> Attempt): nat -> bool {
    (k: nat) => TriesAgain(attempts(k))
  }

  /** A run tries again exactly while an attempt fails in passing and retries are left, and it returns what its
      last attempt returns; with n pauses that is the n-th after the first. */
  lemma RetriesIff(c: Config, attempts: nat -> Attempt, e: Execution)
    requires c.maxRetries >= 0
    ensures var run := Run(c, attempts, e);
            var n := |Pauses(run.trace)|;
            && n <= c.maxRetries && (forall j | 0 <= j < n :: TriesAgain(attempts(j)))
            && (n < c.maxRetries ==> !TriesAgain(attempts(n)))
            && run.result == AttemptResult(attempts(n))
  {
    var trial, results, again := Trials(c, attempts), (k: nat) => AttemptResult(attempts(k)), Again(attempts);
    TrialsTryOnce(c, attempts);
    forall e, k: nat
      ensures trial(e, k).result == results(k) && (GoesOn(trial(e, k)) <==> again(k))
    {
      GoesOnIff(attempts(k), Tried(c, attempts(k), e, k));
    }
    RunTries(c, trial, results, again, e, 0, None, Run(c, attempts, e));
    assert forall j: nat :: again(j) == TriesAgain(attempts(j));
  }

  // ----- The order of the calls -----

  /** An execution is recorded only right after it was dispatched, so at most once in an attempt, and
      finished only right after it was dispatched or recorded; nothing follows a successful finish. */
  predicate Ordered(trace: seq<Action>) {
    forall i | 0 <= i < |trace| :: OrderedAt(trace, i)
  }

  predicate OrderedAt(trace: seq<Action>, i: nat)
    requires i < |trace|
  {
    match trace[i]
    case Record(_, _) => i > 0 && trace[i - 1].Dispatch?
    case Finish(_, ok) =>
      && i > 0 && (trace[i - 1].Dispatch? || (trace[i - 1].Record? && trace[i - 1].ok))
      && (ok ==> i == |trace| - 1)
    case _ => true
  }

  predicate Completed(trace: seq<Action>) {
    trace != [] && trace[|trace| - 1].Finish? && trace[|trace| - 1].ok
  }

  lemma OrderedJoined(s: seq<Action>, t: seq<Action>)
    requires Ordered(s) && Ordered(t) && !Completed(s)
    requires t != [] ==> t[0].Sleep?
    ensures Ordered(s + t)
  {
    forall i | 0 <= i < |s + t| ensures OrderedAt(s + t, i) {
      if i < |s| {
        assert OrderedAt(s, i);
      } else {
        assert OrderedAt(t, i - |s|);
      }
    }
  }

  lemma TriedOrdered(c: Config, a: Attempt, e: Execution, k: nat)
    ensures var here := Tried(c, a, e, k);
            && Ordered(here.trace)
            && (here.result.None? <==> Completed(here.trace))
            && (k > 0 ==> here.trace[0].Sleep?)
  {
  }

  ghost predicate TriesInOrder(trial: Trial) {
    forall e, k {:trigger trial(e, k)} ::
      && Ordered(trial(e, k).trace)
      && (trial(e, k).result.None? <==> Completed(trial(e, k).trace))
      && (k > 0 ==> trial(e, k).trace != [] && trial(e, k).trace[0].Sleep?)
  }

  lemma {:induction false} RunOrdered(trial: Trial, maxRetries: int, e: Execution, k: nat, last: Option<Failure>,
                                      run: Summary)
    requires TriesInOrder(trial) && run == RunFrom(trial, maxRetries, e, k, last)
    ensures Ordered(run.trace)
    ensures k > 0 && run.trace != [] ==> run.trace[0].Sleep?
    ensures k <= maxRetries ==> (run.result.None? <==> Completed(run.trace))
    decreases maxRetries + 1 - k
  {
    if k <= maxRetries {
      var here := trial(e, k);
      if GoesOn(here) {
        var rest := RunFrom(trial, maxRetries, here.execution, k + 1, here.result);
        RunOrdered(trial, maxRetries, here.execution, k + 1, here.result, rest);
        OrderedJoined(here.trace, rest.trace);
        assert rest.trace == [] ==> here.trace + rest.trace == here.trace;
      }
    }
  }

  /** A run keeps to the protocol, and it returns without an error exactly when its last call is a
      successful ExecutionDone, or when a negative number of retries keeps it from trying at all. */
  lemma RunKeepsProtocol(c: Config, attempts: nat -> Attempt, e: Execution)
    ensures var run := Run(c, attempts, e);
            && Ordered(run.trace)
            && (run.result.None? <==> Completed(run.trace) || c.maxRetries < 0)
  {
    var trial := Trials(c, attempts);
    forall e, k: nat
      ensures var here := Tried(c, attempts(k), e, k);
              && Ordered(here.trace)
              && (here.result.None? <==> Completed(here.trace))
              && (k > 0 ==> here.trace != [] && here.trace[0].Sleep?)
    {
      TriedOrdered(c, attempts(k), e, k);
    }
    RunOrdered(trial, c.maxRetries, e, 0, None, Run(c, attempts, e));
  }

  // ----- What is dispatched -----

  predicate BreaksFirst(a: Attempt) {
    a.Streamed? && a.messages == [] && a.ending.Broken?
  }

  /** The caller's execution when the k-th attempt begins. */
  function Given(attempts: nat -> Attempt, e: Execution, k: nat): Execution {
    if k == 0 then e else Left(Given(attempts, e, k - 1), attempts(k - 1))
  }

  function GivenAt(attempts: nat -> Attempt, e: Execution): nat -> Execution {
    (k: nat) => Given(attempts, e, k)
  }

  /** The attempt before the first pause of a run from the k-th attempt on. */
  function Before(k: nat): nat {
    if k == 0 then 0 else k - 1
  }

  /** The attempt that a call belongs to is told by the pauses before the call. */
  predicate CarriedAt(trace: seq<Action>, given: nat -> Execution, from: nat, i: nat)
    requires i < |trace|
  {
    trace[i].Dispatch? ==> trace[i].execution == given(from + |Pauses(trace[..i])|)
  }

  ghost predicate Carried(trace: seq<Action>, given: nat -> Execution, from: nat) {
    forall i | 0 <= i < |trace| :: CarriedAt(trace, given, from, i)
  }

  ghost predicate TriesCarry(trial: Trial, given: nat -> Execution) {
    forall k: nat {:trigger TriesCarryAt(trial, given, k)} :: TriesCarryAt(trial, given, k)
  }

  ghost predicate TriesCarryAt(trial: Trial, given: nat -> Execution, k: nat) {
    var here := trial(given(k), k);
    && Carried(here.trace, given, Before(k))
    && Before(k) + |Pauses(here.trace)| == k && here.execution == given(k + 1)
  }

  lemma CarriedLeft(s: seq<Action>, t: seq<Action>, given: nat -> Execution, from: nat, i: nat)
    requires i < |s| && CarriedAt(s, given, from, i)
    ensures CarriedAt(s + t, given, from, i)
  {
    assert (s + t)[..i] == s[..i];
  }

  lemma CarriedRight(s: seq<Action>, t: seq<Action>, given: nat -> Execution, from: nat, i: nat, pauses: nat)
    requires i < |t| && pauses == |Pauses(s)| && CarriedAt(t, given, from + pauses, i)
    ensures CarriedAt(s + t, given, from, |s| + i)
  {
    assert (s + t)[..|s| + i] == s + t[..i];
    CountsAppend(s, t[..i]);
  }

  lemma CarriedJoined(s: seq<Action>, t: seq<Action>, given: nat -> Execution, from: nat, pauses: nat)
    requires pauses == |Pauses(s)| && Carried(s, given, from) && Carried(t, given, from + pauses)
    ensures Carried(s + t, given, from)
  {
    forall i | 0 <= i < |s + t| ensures CarriedAt(s + t, given, from, i) {
      if i < |s| {
        CarriedLeft(s, t, given, from, i);
      } else {
        CarriedRight(s, t, given, from, i - |s|, pauses);
      }
    }
  }

  lemma {:induction false} RunCarries(trial: Trial, given: nat -> Execution, maxRetries: int, k: nat,
                                      last: Option<Failure>, run: Summary)
    requires TriesCarry(trial, given) && run == RunFrom(trial, maxRetries, given(k), k, last)
    ensures Carried(run.trace, given, Before(k))
    decreases maxRetries + 1 - k
  {
    if k <= maxRetries {
      assert TriesCarryAt(trial, given, k);
      var here := trial(given(k), k);
      if GoesOn(here) {
        var rest := RunFrom(trial, maxRetries, here.execution, k + 1, here.result);
        RunCarries(trial, given, maxRetries, k + 1, here.result, rest);
        CarriedJoined(here.trace, rest.trace, given, Before(k), |Pauses(here.trace)|);
      }
    }
  }

  lemma OneDispatch(e: Execution, a: Attempt, i: nat)
    requires i < |AttemptTrace(e, a)| && AttemptTrace(e, a)[i].Dispatch?
    ensures i == 0 && AttemptTrace(e, a)[i].execution == e
  {
  }

  lemma AttemptCarries(trace: seq<Action>, e: Execution, a: Attempt, given: nat -> Execution, k: nat)
    requires trace == AttemptTrace(e, a) && e == given(k)
    ensures Carried(trace, given, k)
  {
    forall i | 0 <= i < |trace| ensures CarriedAt(trace, given, k, i) {
      if trace[i].Dispatch? {
        OneDispatch(e, a, i);
        assert trace[..0] == [];
      }
    }
  }

  lemma SleepCarries(pause: int, given: nat -> Execution, from: nat)
    ensures Carried([Sleep(pause)], given, from) && Pauses([Sleep(pause)]) == [pause]
  {
    assert [Sleep(pause)][1..] == [];
  }

  lemma PausedCarries(trace: seq<Action>, given: nat -> Execution, k: nat, pause: int)
    requires Carried(trace, given, k)
    ensures Carried((if k > 0 then [Sleep(pause)] else []) + trace, given, Before(k))
  {
    if k > 0 {
      SleepCarries(pause, given, k - 1);
      CarriedJoined([Sleep(pause)], trace, given, k - 1, 1);
    } else {
      assert [] + trace == trace;
    }
  }

  lemma TriedCarries(c: Config, attempts: nat -> Attempt, e: Execution, k: nat)
    ensures TriesCarryAt(Trials(c, attempts), GivenAt(attempts, e), k)
  {
    var a, mine, given := attempts(k), Given(attempts, e, k), GivenAt(attempts, e);
    var trace := AttemptTrace(mine, a);
    TriedCounts(c, a, mine, k);
    AttemptCarries(trace, mine, a, given, k);
    PausedCarries(trace, given, k, if k > 0 then Pause(c, k) else 0);
  }

  /** No stream breaks at the moment at which the caller's execution finished, if it did. */
  ghost predicate BreaksElsewhen(attempts: nat -> Attempt, e: Execution) {
    forall j :: BreaksFirst(attempts(j)) ==> attempts(j).ending.now != e.finishedAt
  }

  /** A failure as of the moment at which one of the attempts before broke. */
  ghost predicate BrokenBefore(attempts: nat -> Attempt, sent: Execution, attempt: nat) {
    && !sent.success
    && exists j | 0 <= j < attempt :: BreaksFirst(attempts(j)) && sent.finishedAt == attempts(j).ending.now
  }

  /** The caller's execution is as it was exactly as long as no attempt broke before its first message. */
  lemma {:induction false} GivenIff(attempts: nat -> Attempt, e: Execution, k: nat)
    requires BreaksElsewhen(attempts, e)
    ensures Given(attempts, e, k) == e <==> forall j | 0 <= j < k :: !BreaksFirst(attempts(j))
    ensures Given(attempts, e, k) != e ==> BrokenBefore(attempts, Given(attempts, e, k), k)
  {
    if k > 0 {
      GivenIff(attempts, e, k - 1);
      if BreaksFirst(attempts(k - 1)) {
        assert BrokenBefore(attempts, Given(attempts, e, k), k);
      }
    }
  }

  /** What each dispatch of a run carries: the execution as the caller gave it, finished or not, if and only
      if no earlier attempt broke before its first message; otherwise one that failed when one of them did. */
  lemma BrokenStreamMarksRetry(c: Config, attempts: nat -> Attempt, e: Execution, i: nat)
    requires BreaksElsewhen(attempts, e)
    requires i < |Run(c, attempts, e).trace| && Run(c, attempts, e).trace[i].Dispatch?
    ensures var trace := Run(c, attempts, e).trace;
            var sent, attempt := trace[i].execution, |Pauses(trace[..i])|;
            && sent == Given(attempts, e, attempt)
            && (sent == e <==> forall j | 0 <= j < attempt :: !BreaksFirst(attempts(j)))
            && (sent != e ==> BrokenBefore(attempts, sent, attempt))
  {
    var trial, given, run := Trials(c, attempts), GivenAt(attempts, e), Run(c, attempts, e);
    forall k: nat ensures TriesCarryAt(trial, given, k) {
      TriedCarries(c, attempts, e, k);
    }
    RunCarries(trial, given, c.maxRetries, 0, None, run);
    assert CarriedAt(run.trace, given, 0, i);
    GivenIff(attempts, e, |Pauses(run.trace[..i])|);
  }

  // ----- The client -----

  lemma OneMoreKey(messages: seq<Execution>, deferred: seq<string>, i: nat)
    requires i < |messages| && (set k | k in deferred) == KeysOf(messages[..i])
    ensures (set k | k in deferred + [ShortKey(messages[i])]) == KeysOf(messages[..i + 1])
    ensures KeysOf(messages[..i + 1]) == KeysOf(messages[..i]) + {ShortKey(messages[i])}
  {
    var more := deferred + [ShortKey(messages[i])];
    assert messages[..i + 1] == messages[..i] + [messages[i]];
    forall key ensures key in more <==> key in deferred || key == ShortKey(messages[i]) {
    }
    assert (set k | k in more) == (set k | k in deferred) + {ShortKey(messages[i])};
  }

  /** The client on the leader: the keys of its active streams and the calls it has made. */
  class Client {
    const c: Config
    var active: set<string>
    var trace: seq<Action>

    constructor (c: Config)
      ensures this.c == c && active == {} && trace == []
    {
      this.c := c;
      active, trace := {}, [];
    }

    /** No key that the attempt registered is active afterwards, and every other key is as it was. */
    method AgentRunAttempt(a: Attempt, given: Execution) returns (result: Option<Failure>, mine: Execution)
      modifies this
      ensures trace == old(trace) + AttemptTrace(given, a)
      ensures result == AttemptResult(a) && mine == Left(given, a)
      ensures active == old(active) - Registered(a)
    {
      mine := given;
      if a.NoConnection? {
        return Some(a.error), mine;
      }
      trace := trace + [Dispatch(given)];
      if a.NoStream? {
        return Some(a.error), mine;
      }
      var execution, deferred, first := given, [], false;
      for i := 0 to |a.messages|
        invariant first <==> i > 0
        invariant LostRecord(a) ==> i == 0
        invariant execution == (if i == 0 then given else a.messages[i - 1])
        invariant trace == old(trace) + if i > 0 then [Dispatch(given), Record(a.messages[0], true)]
                                        else [Dispatch(given)]
        invariant (set k | k in deferred) == KeysOf(a.messages[..i])
        invariant active == old(active) + KeysOf(a.messages[..i])
      {
        OneMoreKey(a.messages, deferred, i);
        active := active + {ShortKey(a.messages[i])};
        execution := a.messages[i];
        deferred := deferred + [ShortKey(execution)];
        if !first {
          trace := trace + [Record(a.messages[i], a.recorded.None?)];
          if a.recorded.Some? {
            assert trace == old(trace) + AttemptTrace(given, a);
            RunDeferred(deferred);
            return a.recorded, mine;
          }
          first := true;
        }
      }
      assert a.messages[..|a.messages|] == a.messages;
      if a.ending.Broken? {
        execution := BrokenOff(execution, a.ending);
        if |a.messages| == 0 {
          mine := execution;
        }
      }
      result := Delivered(a.finished);
      trace := trace + [Finish(execution, result.None?)];
      assert trace == old(trace) + AttemptTrace(given, a);
      RunDeferred(deferred);
    }

    method RunDeferred(deferred: seq<string>)
      modifies this`active
      ensures active == old(active) - set k | k in deferred
    {
      for i := |deferred| downto 0
        invariant active == old(active) - set k | k in deferred[i..]
      {
        active := active - {deferred[i]};
      }
    }

    method Backoff(attempt: nat) returns (backoff: int)
      requires attempt > 0
      ensures backoff == Pause(c, attempt)
    {
      backoff := c.initial;
      for i := 1 to attempt
        invariant Grown(c.initial, c.maxInterval, attempt - 1) == Grown(backoff, c.maxInterval, attempt - i)
      {
        backoff := Wrap64(backoff * 2);
        if backoff > c.maxInterval {
          backoff := c.maxInterval;
          break;
        }
      }
      if backoff > c.maxInterval {
        backoff := c.maxInterval;
      }
    }

    /** The k-th attempt, after its pause. */
    method TryAgain(ghost trial: Trial, a: Attempt, given: Execution, k: nat)
      returns (result: Option<Failure>, mine: Execution)
      requires trial(given, k) == Tried(c, a, given, k)
      modifies this
      ensures trace == old(trace) + trial(given, k).trace && active == old(active) - trial(given, k).registered
      ensures result == trial(given, k).result && mine == trial(given, k).execution
    {
      if k > 0 {
        var backoff := Backoff(k);
        trace := trace + [Sleep(backoff)];
      }
      result, mine := AgentRunAttempt(a, given);
    }

    method AgentRun(ghost trial: Trial, attempts: nat -> Attempt, given: Execution)
      returns (result: Option<Failure>, mine: Execution)
      requires forall e, k {:trigger TrialIs(trial, c, attempts, e, k)} :: TrialIs(trial, c, attempts, e, k)
      modifies this
      ensures var run := RunFrom(trial, c.maxRetries, given, 0, None);
              && trace == old(trace) + run.trace && active == old(active) - run.registered
              && result == run.result && mine == run.execution
    {
      result, mine := None, given;
      var attempt := 0;
      ghost var run := RunFrom(trial, c.maxRetries, given, 0, None);
      ghost var made: seq<Action>, registered: set<string> := [], {};
      while attempt <= c.maxRetries
        invariant attempt >= 0 && trace == old(trace) + made && active == old(active) - registered
        invariant run == Following(made, registered, RunFrom(trial, c.maxRetries, mine, attempt, result))
        decreases c.maxRetries - attempt
      {
        ghost var here := trial(mine, attempt);
        ghost var rest := RunFrom(trial, c.maxRetries, here.execution, attempt + 1, here.result);
        FollowingTwice(made, registered, here, rest);
        assert run == if GoesOn(here) then Following(made, registered, Following(here.trace, here.registered, rest))
                      else Following(made, registered, here);
        assert TrialIs(trial, c, attempts, mine, attempt);
        result, mine := TryAgain(trial, attempts(attempt), mine, attempt);
        Longer(old(trace), made, here.trace);
        made, registered := made + here.trace, registered + here.registered;
        assert trace == old(trace) + made;
        if result.None? || !Retryable(result.value) {
          return;
        }
        attempt := attempt + 1;
      }
    }
  }
}
