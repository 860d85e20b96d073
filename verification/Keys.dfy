/** Execution keys and listings by key prefix. Keys are written without the bucket prefix
    "executions:", which all of them share. */
module Keys {
  import opened Text
  import opened Types

  /** time.UnixNano: the nanosecond count wrapped to 64 bits. */
  function UnixNano(t: Time): int {
    (t + 0x8000_0000_0000_0000) % 0x1_0000_0000_0000_0000 - 0x8000_0000_0000_0000
  }

  /** Execution.Key: the start time and the node, without the job name. */
  function ShortKey(e: Execution): string {
    Itoa(UnixNano(e.startedAt)) + "-" + e.nodeName
  }

  function FullKey(e: Execution): string {
    e.jobName + ":" + ShortKey(e)
  }

  /** GetExecutions and computeStatus: every key under the job's directory except the directory's
      own key. */
  predicate Listed(jobName: string, key: string) {
    jobName + ":" <= key && key != jobName + "::"
  }

  function Listing(executions: map<string, Execution>, jobName: string): map<string, Execution> {
    map k | k in executions && Listed(jobName, k) :: executions[k]
  }

  /** deleteExecutionsTxFunc: the prefix has no closing colon. */
  predicate Swept(jobName: string, key: string) {
    jobName <= key
  }

  function Sweep(executions: map<string, Execution>, jobName: string): map<string, Execution> {
    map k | k in executions && !Swept(jobName, k) :: executions[k]
  }

  ghost predicate KeysMatch(executions: map<string, Execution>) {
    forall k | k in executions :: k == FullKey(executions[k])
  }

  ghost predicate NoColon(s: string) {
    ':' !in s
  }

  // ----- Injectivity -----

  /** Text up to the first separator is determined. */
  lemma {:induction false} FirstFieldUnique(a: string, x: string, b: string, y: string, sep: char)
    requires sep !in a && sep !in b
    requires a + [sep] + x == b + [sep] + y
    ensures a == b && x == y
  {
    var s, t := a + [sep] + x, b + [sep] + y;
    assert s[|a|] == sep && t[|b|] == sep;
    assert |a| == |b|;
    assert a == s[..|a|] == t[..|b|] == b;
    assert x == s[|a| + 1..] == t[|b| + 1..] == y;
  }

  lemma ShortKeyInjective(e: Execution, f: Execution)
    ensures ShortKey(e) == ShortKey(f) <==>
            UnixNano(e.startedAt) == UnixNano(f.startedAt) && e.nodeName == f.nodeName
    ensures UnixNano(e.startedAt) == UnixNano(f.startedAt) <==>
            (e.startedAt - f.startedAt) % 0x1_0000_0000_0000_0000 == 0
  {
    NanoIff(e.startedAt, f.startedAt);
    SameShortKey(e, f);
  }

  lemma NanoIff(t: Time, u: Time)
    ensures UnixNano(t) == UnixNano(u) <==> (t - u) % 0x1_0000_0000_0000_0000 == 0
    ensures MIN_INT64 <= UnixNano(t) <= MAX_INT64
  {
  }

  lemma SameShortKey(e: Execution, f: Execution)
    ensures ShortKey(e) == ShortKey(f) <==>
            UnixNano(e.startedAt) == UnixNano(f.startedAt) && e.nodeName == f.nodeName
  {
    if ShortKey(e) == ShortKey(f) {
      var m, n := Itoa(UnixNano(e.startedAt)), Itoa(UnixNano(f.startedAt));
      assert ShortKey(e)[0] == m[0] && ShortKey(f)[0] == n[0];
      if m[0] == '-' {
        assert m == "-" + m[1..] && n == "-" + n[1..];
        assert ShortKey(e)[1..] == m[1..] + ['-'] + e.nodeName;
        assert ShortKey(f)[1..] == n[1..] + ['-'] + f.nodeName;
        FirstFieldUnique(m[1..], e.nodeName, n[1..], f.nodeName, '-');
      } else {
        FirstFieldUnique(m, e.nodeName, n, f.nodeName, '-');
      }
      ItoaInjective(UnixNano(e.startedAt), UnixNano(f.startedAt));
    }
  }

  /** For colon-free job names the stored key determines job, start time and node. */
  lemma FullKeyInjective(e: Execution, f: Execution)
    requires NoColon(e.jobName) && NoColon(f.jobName)
    ensures FullKey(e) == FullKey(f) <==>
            && e.jobName == f.jobName && e.nodeName == f.nodeName
            && UnixNano(e.startedAt) == UnixNano(f.startedAt)
  {
    ShortKeyInjective(e, f);
    if FullKey(e) == FullKey(f) {
      FirstFieldUnique(e.jobName, ShortKey(e), f.jobName, ShortKey(f), ':');
    }
  }

  predicate Collide(a: string, e: Execution, b: string, f: Execution) {
    e.jobName == a && f.jobName == b && FullKey(e) == FullKey(f)
  }

  ghost predicate CanCollide(a: string, b: string) {
    exists e, f :: Collide(a, e, b, f)
  }

  predicate ContinuesAs(a: string, b: string, start: Time, node: string) {
    MIN_INT64 <= start <= MAX_INT64 && b == a + ":" + Itoa(start) + "-" + node
  }

  /** b goes on behind a like a stored key: a colon, a number, a dash and any text. */
  ghost predicate Continues(a: string, b: string) {
    exists start, node :: ContinuesAs(a, b, start, node)
  }

  /** Without that restriction two jobs can share a stored key if and only if they have one name or the
      name of one goes on behind the other's like a key. */
  lemma CollideIff(a: string, b: string)
    ensures CanCollide(a, b) <==> a == b || Continues(a, b) || Continues(b, a)
  {
    if CanCollide(a, b) {
      var e, f :| Collide(a, e, b, f);
      if |a| == |b| {
        assert a == FullKey(e)[..|a|] == FullKey(f)[..|b|] == b;
      } else if |a| < |b| {
        LongerContinues(e, f);
      } else {
        LongerContinues(f, e);
      }
    }
    if a == b {
      assert Collide(a, At(a, 0, ""), b, At(a, 0, ""));
    }
    if Continues(a, b) {
      ContinuedCollides(a, b);
    }
    if Continues(b, a) {
      ContinuedCollides(b, a);
      var e, f :| Collide(b, e, a, f);
      assert Collide(a, f, b, e);
    }
  }

  function At(job: string, start: Time, node: string): Execution {
    Execution(job, start, ZERO_TIME, false, "", node, 0, 1)
  }

  lemma LongerContinues(e: Execution, f: Execution)
    requires FullKey(e) == FullKey(f) && |e.jobName| < |f.jobName|
    ensures Continues(e.jobName, f.jobName)
  {
    var a, b, key := e.jobName, f.jobName, FullKey(e);
    var number := Itoa(UnixNano(e.startedAt));
    assert key == a + ":" + number + "-" + e.nodeName && key == b + (":" + ShortKey(f));
    LongerHas(key, a, number, e.nodeName, b);
    NanoIff(e.startedAt, e.startedAt);
    ContinuedBy(a, b, UnixNano(e.startedAt), b[|a| + |number| + 2..]);
  }

  lemma ContinuedBy(a: string, b: string, start: Time, node: string)
    requires ContinuesAs(a, b, start, node)
    ensures Continues(a, b)
  {
  }

  lemma LongerHas(key: string, a: string, number: string, node: string, b: string)
    requires key == a + ":" + number + "-" + node && ':' !in number
    requires |a| < |b| < |key| && b == key[..|b|] && key[|b|] == ':'
    ensures |b| >= |a| + |number| + 2 && b == a + ":" + number + "-" + b[|a| + |number| + 2..]
  {
    var head := a + ":" + number + "-";
    assert forall i | 0 <= i < |number| :: key[|a| + 1 + i] == number[i];
    assert key[|a| + 1 + |number|] == '-';
    assert |b| >= |head| && key[..|head|] == head;
    assert b[..|head|] == head;
  }

  lemma ContinuedCollides(a: string, b: string)
    requires Continues(a, b)
    ensures CanCollide(a, b)
  {
    var start, node :| ContinuesAs(a, b, start, node);
    var f := At(b, 0, "");
    var e := At(a, start, node + ":" + ShortKey(f));
    assert UnixNano(start) == start;
    Glued(a, Itoa(start), node, ShortKey(f));
    assert Collide(a, e, b, f);
  }

  lemma Glued(a: string, number: string, node: string, key: string)
    ensures a + ":" + (number + "-" + (node + ":" + key)) == a + ":" + number + "-" + node + ":" + key
  {
  }

  /** A listing by prefix finds the executions of exactly this job. */
  lemma ListedIffOfJob(jobName: string, e: Execution)
    requires NoColon(jobName) && NoColon(e.jobName)
    ensures Listed(jobName, FullKey(e)) <==> e.jobName == jobName
  {
    var key := FullKey(e);
    var c := ShortKey(e)[0];
    assert key[|e.jobName|] == ':' && key[|e.jobName| + 1] == c != ':';
    if jobName + ":" <= key {
      FirstFieldUnique(jobName, key[|jobName| + 1..], e.jobName, ShortKey(e), ':');
    }
    if e.jobName == jobName {
      assert (jobName + "::")[|jobName| + 1] == ':';
    }
  }

  /** The sweep of a delete takes the executions of every job whose name extends the given one. */
  lemma SweptIffExtends(jobName: string, e: Execution)
    requires NoColon(jobName)
    ensures Swept(jobName, FullKey(e)) <==> jobName <= e.jobName
  {
    var key := FullKey(e);
    assert key[|e.jobName|] == ':';
    if jobName <= key {
      assert |jobName| <= |e.jobName|;
      assert jobName == key[..|jobName|] == e.jobName[..|jobName|];
    }
    if jobName <= e.jobName {
      assert key[..|jobName|] == e.jobName[..|jobName|];
    }
  }

  /** A sweep leaves the executions of all other jobs alone if and only if no stored execution is of a
      job whose name properly extends the given one. */
  lemma SweepSparesIff(executions: map<string, Execution>, jobName: string)
    requires KeysMatch(executions) && NoColon(jobName)
    ensures Spares(executions, Sweep(executions, jobName), jobName) <==>
            forall k | k in executions :: !(jobName < executions[k].jobName)
  {
    forall k | k in executions ensures k in Sweep(executions, jobName) <==> !(jobName <= executions[k].jobName) {
      SweptIffExtends(jobName, executions[k]);
    }
  }

  /** The executions of the other jobs are as they were. */
  ghost predicate Spares(before: map<string, Execution>, after: map<string, Execution>, jobName: string) {
    forall k | k in before && before[k].jobName != jobName :: k in after && after[k] == before[k]
  }
}
