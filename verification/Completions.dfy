/** Repeated and reordered completions. */
module Completions {
  import opened Wrappers
  import opened Types
  import opened Keys
  import opened StoreSpec

  // ----- Repetition -----

  /** Applying a completion twice in a row equals applying it once. */
  lemma DoneTwice(db: Db, e: Execution)
    ensures ExecutionDone(ExecutionDone(db, e).0, e).0 == ExecutionDone(db, e).0
  {
    var once := ExecutionDone(db, e).0;
    if e.jobName in db.jobs && Judge(db, e) != Ignored {
      assert once.executions == db.executions[FullKey(e) := e];
      assert Judge(once, e) == Repeated;
      assert once.executions[FullKey(e) := e] == once.executions;
    }
  }

  // ----- Reordering -----

  function DoneAll(db: Db, es: seq<Execution>): Db {
    if es == [] then db
    else ExecutionDone(DoneAll(db, es[..|es| - 1]), es[|es| - 1]).0
  }

  /** Completions of one job under distinct keys, none a repetition of a stored one. */
  ghost predicate Batch(db: Db, es: seq<Execution>, job: string) {
    && job in db.jobs
    && (forall i | 0 <= i < |es| ::
          && es[i].jobName == job
          && (FullKey(es[i]) in db.executions ==>
                var stored := db.executions[FullKey(es[i])];
                stored.finishedAt != es[i].finishedAt || stored.success != es[i].success))
    && (forall i, j | 0 <= i < j < |es| :: FullKey(es[i]) != FullKey(es[j]))
  }

  /** Not overtaken by a later stored finish. */
  predicate Taken(db: Db, e: Execution) {
    !(FullKey(e) in db.executions && db.executions[FullKey(e)].finishedAt > e.finishedAt)
  }

  function Count(es: seq<Execution>, p: Execution -> bool): nat {
    if es == [] then 0 else Count(es[..|es| - 1], p) + if p(es[|es| - 1]) then 1 else 0
  }

  function TakenWith(db: Db, success: bool): Execution -> bool {
    e => Taken(db, e) && e.success == success
  }

  function TakenOn(db: Db, success: bool, day: int): Execution -> bool {
    e => Taken(db, e) && e.success == success && DayOf(e.finishedAt) == day
  }

  ghost predicate Hit(db: Db, es: seq<Execution>, key: string) {
    exists e | e in es :: Taken(db, e) && FullKey(e) == key
  }

  ghost predicate OverlaidAt(db: Db, after: map<string, Execution>, es: seq<Execution>, k: string) {
    if Hit(db, es, k) then k in after && after[k] in es && FullKey(after[k]) == k
    else (k in after <==> k in db.executions) && (k in after ==> after[k] == db.executions[k])
  }

  ghost predicate Overlays(db: Db, after: map<string, Execution>, es: seq<Execution>) {
    forall k :: OverlaidAt(db, after, es, k)
  }

  ghost predicate StatsAdd(before: map<int, Stat>, after: map<int, Stat>, db: Db, es: seq<Execution>) {
    forall day ::
      && StatOn(after, day).succeeded == StatOn(before, day).succeeded + Count(es, TakenOn(db, true, day))
      && StatOn(after, day).failed == StatOn(before, day).failed + Count(es, TakenOn(db, false, day))
      && (day in after <==> day in before || Count(es, TakenOn(db, true, day)) + Count(es, TakenOn(db, false, day)) > 0)
  }

  /** The job after a batch: only progress changes, and the counters grow by the completions taken. */
  ghost predicate JobAdds(before: Job, after: Job, succeeded: nat, failed: nat) {
    && after == before.(successCount := after.successCount, errorCount := after.errorCount,
                        lastSuccess := after.lastSuccess, lastError := after.lastError, status := after.status)
    && after.successCount == Wrap32(before.successCount + succeeded)
    && after.errorCount == Wrap32(before.errorCount + failed)
  }

  lemma {:induction false} CountSplit(es: seq<Execution>, p: Execution -> bool, i: nat)
    requires i < |es|
    ensures Count(es, p) == Count(es[..i] + es[i + 1..], p) + if p(es[i]) then 1 else 0
  {
    var n := |es| - 1;
    var rest := es[..i] + es[i + 1..];
    if i == n {
      assert rest == es[..n];
    } else {
      CountSplit(es[..n], p, i);
      assert rest[..n - 1] == es[..n][..i] + es[..n][i + 1..];
      assert rest[n - 1] == es[n];
    }
  }

  lemma Cancel<T>(a: multiset<T>, b: multiset<T>, x: T)
    requires a + multiset{x} == b + multiset{x}
    ensures a == b
  {
    forall y
      ensures a[y] == b[y]
    {
      assert (a + multiset{x})[y] == (b + multiset{x})[y];
    }
  }

  lemma {:induction false} CountPermuted(es: seq<Execution>, fs: seq<Execution>, p: Execution -> bool)
    requires multiset(es) == multiset(fs)
    ensures Count(es, p) == Count(fs, p)
  {
    if es == [] {
      assert |multiset(fs)| == 0;
    } else {
      var n := |es| - 1;
      assert es == es[..n] + [es[n]];
      assert multiset(es) == multiset(es[..n]) + multiset{es[n]};
      assert es[n] in multiset(fs);
      var i :| 0 <= i < |fs| && fs[i] == es[n];
      var rest := fs[..i] + fs[i + 1..];
      assert fs == fs[..i] + [fs[i]] + fs[i + 1..];
      assert multiset(fs) == multiset(fs[..i]) + multiset{fs[i]} + multiset(fs[i + 1..]);
      assert multiset(rest) == multiset(fs[..i]) + multiset(fs[i + 1..]);
      Cancel(multiset(es[..n]), multiset(rest), es[n]);
      CountPermuted(es[..n], rest, p);
      CountSplit(fs, p, i);
    }
  }

  /** What a batch has done to the database, whatever the order of its members. */
  ghost predicate BatchApplied(db: Db, after: Db, es: seq<Execution>, job: string)
    requires job in db.jobs
  {
    && Overlays(db, after.executions, es)
    && StatsAdd(db.stats, after.stats, db, es)
    && after.jobs.Keys == db.jobs.Keys
    && (forall n | n in db.jobs && n != job :: after.jobs[n] == db.jobs[n])
    && JobAdds(db.jobs[job], after.jobs[job], Count(es, TakenWith(db, true)), Count(es, TakenWith(db, false)))
  }

  lemma HitAppended(db: Db, es: seq<Execution>, e: Execution, k: string)
    ensures Hit(db, es + [e], k) <==> Hit(db, es, k) || (Taken(db, e) && FullKey(e) == k)
  {
    if Hit(db, es, k) {
      var f :| f in es && Taken(db, f) && FullKey(f) == k;
      assert f in es + [e];
    }
    assert e in es + [e];
  }

  lemma OverlayGrows(db: Db, before: map<string, Execution>, es: seq<Execution>, e: Execution)
    requires Overlays(db, before, es)
    requires forall f | f in es :: FullKey(f) != FullKey(e)
    ensures Overlays(db, if Taken(db, e) then before[FullKey(e) := e] else before, es + [e])
  {
    var after := if Taken(db, e) then before[FullKey(e) := e] else before;
    forall k
      ensures OverlaidAt(db, after, es + [e], k)
    {
      HitAppended(db, es, e, k);
      assert OverlaidAt(db, before, es, k);
    }
  }

  lemma CountAppended(es: seq<Execution>, e: Execution, p: Execution -> bool)
    ensures Count(es + [e], p) == Count(es, p) + if p(e) then 1 else 0
  {
    assert (es + [e])[..|es|] == es;
  }

  lemma StatsGrow(db: Db, before: map<int, Stat>, es: seq<Execution>, e: Execution)
    requires StatsAdd(db.stats, before, db, es)
    ensures Taken(db, e) ==> StatsAdd(db.stats, Bump(before, DayOf(e.finishedAt), e.success), db, es + [e])
    ensures !Taken(db, e) ==> StatsAdd(db.stats, before, db, es + [e])
  {
    var after := if Taken(db, e) then Bump(before, DayOf(e.finishedAt), e.success) else before;
    forall day
      ensures
        && StatOn(after, day).succeeded == StatOn(db.stats, day).succeeded + Count(es + [e], TakenOn(db, true, day))
        && StatOn(after, day).failed == StatOn(db.stats, day).failed + Count(es + [e], TakenOn(db, false, day))
        && (day in after <==>
              day in db.stats || Count(es + [e], TakenOn(db, true, day)) + Count(es + [e], TakenOn(db, false, day)) > 0)
    {
      CountAppended(es, e, TakenOn(db, true, day));
      CountAppended(es, e, TakenOn(db, false, day));
      assert StatOn(before, day).succeeded == StatOn(db.stats, day).succeeded + Count(es, TakenOn(db, true, day));
    }
  }

  /** In the middle of a batch the next completion is judged by what was stored before the batch. */
  lemma JudgedByStart(db: Db, now: Db, es: seq<Execution>, e: Execution, job: string)
    requires Batch(db, es + [e], job) && BatchApplied(db, now, es, job)
    ensures e.jobName == job && job in now.jobs
    ensures forall f | f in es :: FullKey(f) != FullKey(e)
    ensures Judge(now, e) == if Taken(db, e) then Counted else Ignored
  {
    var more := es + [e];
    assert more[|es|] == e;
    assert forall i | 0 <= i < |es| :: FullKey(more[i]) != FullKey(more[|es|]) && more[i] == es[i];
    assert !Hit(db, es, FullKey(e));
    assert OverlaidAt(db, now.executions, es, FullKey(e));
  }

  lemma WrapAfterWrap(x: int)
    ensures Wrap32(Wrap32(x) + 1) == Wrap32(x + 1)
  {
  }

  lemma JobGrows(before: Job, now: Job, e: Execution, status: string, succeeded: nat, failed: nat)
    requires JobAdds(before, now, succeeded, failed)
    ensures JobAdds(before, Credit(now, e).(status := status),
                    succeeded + (if e.success then 1 else 0), failed + (if e.success then 0 else 1))
  {
    WrapAfterWrap(before.successCount + succeeded);
    WrapAfterWrap(before.errorCount + failed);
  }

  lemma BatchGrows(db: Db, now: Db, es: seq<Execution>, e: Execution, job: string)
    requires Batch(db, es + [e], job) && BatchApplied(db, now, es, job)
    ensures BatchApplied(db, ExecutionDone(now, e).0, es + [e], job)
  {
    JudgedByStart(db, now, es, e, job);
    var after := ExecutionDone(now, e).0;
    if Taken(db, e) {
      CountedFields(now, e);
    } else {
      assert after == now;
    }
    assert Overlays(db, after.executions, es + [e]) by {
      OverlayGrows(db, now.executions, es, e);
    }
    assert StatsAdd(db.stats, after.stats, db, es + [e]) by {
      StatsGrow(db, now.stats, es, e);
    }
    BatchJobGrows(db, now, after, es, e, job);
  }

  lemma BatchJobGrows(db: Db, now: Db, after: Db, es: seq<Execution>, e: Execution, job: string)
    requires job in db.jobs && job in now.jobs && job in after.jobs
    requires JobAdds(db.jobs[job], now.jobs[job], Count(es, TakenWith(db, true)), Count(es, TakenWith(db, false)))
    requires if Taken(db, e) then after.jobs[job] == Credit(now.jobs[job], e).(status := after.jobs[job].status)
             else after == now
    ensures JobAdds(db.jobs[job], after.jobs[job],
                    Count(es + [e], TakenWith(db, true)), Count(es + [e], TakenWith(db, false)))
  {
    var succeeded, failed := Count(es, TakenWith(db, true)), Count(es, TakenWith(db, false));
    TakenCounts(db, es, e, Count(es + [e], TakenWith(db, true)), Count(es + [e], TakenWith(db, false)));
    if Taken(db, e) {
      JobGrows(db.jobs[job], now.jobs[job], e, after.jobs[job].status, succeeded, failed);
    }
  }

  lemma TakenCounts(db: Db, es: seq<Execution>, e: Execution, succeeded: nat, failed: nat)
    requires succeeded == Count(es + [e], TakenWith(db, true)) && failed == Count(es + [e], TakenWith(db, false))
    ensures succeeded == Count(es, TakenWith(db, true)) + if Taken(db, e) && e.success then 1 else 0
    ensures failed == Count(es, TakenWith(db, false)) + if Taken(db, e) && !e.success then 1 else 0
  {
    CountAppended(es, e, TakenWith(db, true));
    CountAppended(es, e, TakenWith(db, false));
  }

  lemma CountedFields(now: Db, e: Execution)
    requires e.jobName in now.jobs && Judge(now, e) == Counted
    ensures var after := ExecutionDone(now, e).0;
            && after.executions == now.executions[FullKey(e) := e]
            && after.stats == Bump(now.stats, DayOf(e.finishedAt), e.success)
            && after.jobs.Keys == now.jobs.Keys
            && (forall n | n in now.jobs && n != e.jobName :: after.jobs[n] == now.jobs[n])
            && after.jobs[e.jobName] == Credit(now.jobs[e.jobName], e).(
                 status := GroupStatus(Listing(after.executions, e.jobName), e.group))
  {
  }

  /** The effect of a batch in closed form: what is stored, counted and shown does not depend on
      the order of arrival. */
  lemma {:induction false} BatchClosedForm(db: Db, es: seq<Execution>, job: string)
    requires Batch(db, es, job)
    ensures BatchApplied(db, DoneAll(db, es), es, job)
  {
    if es != [] {
      var n := |es| - 1;
      assert es == es[..n] + [es[n]];
      BatchClosedForm(db, es[..n], job);
      BatchGrows(db, DoneAll(db, es[..n]), es[..n], es[n], job);
    }
  }

  predicate InGroup(es: seq<Execution>, group: int) {
    forall i | 0 <= i < |es| :: es[i].group == group
  }

  function TakenCount(db: Db, es: seq<Execution>): nat {
    Count(es, TakenWith(db, true)) + Count(es, TakenWith(db, false))
  }

  /** After a batch of one group the job shows the status of the whole group. */
  lemma {:induction false} BatchStatus(db: Db, es: seq<Execution>, job: string, group: int)
    requires Batch(db, es, job) && InGroup(es, group)
    ensures job in DoneAll(db, es).jobs
    ensures DoneAll(db, es).jobs[job].status ==
            if TakenCount(db, es) > 0 then GroupStatus(Listing(DoneAll(db, es).executions, job), group)
            else db.jobs[job].status
  {
    if es != [] {
      var n := |es| - 1;
      var e, now := es[n], DoneAll(db, es[..n]);
      assert es == es[..n] + [e];
      BatchStatus(db, es[..n], job, group);
      BatchClosedForm(db, es[..n], job);
      JudgedByStart(db, now, es[..n], e, job);
      CountAppended(es[..n], e, TakenWith(db, true));
      CountAppended(es[..n], e, TakenWith(db, false));
      if Taken(db, e) {
        CountedFields(now, e);
      }
    }
  }

  /** Some execution listed for the job in this group has the outcome; one still running has not succeeded. */
  ghost predicate SomeWith(db: Db, job: string, group: int, success: bool) {
    exists k | k in db.executions && Listed(job, k) ::
      db.executions[k].group == group && db.executions[k].success == success
  }

  /** The job shows success if and only if none of the group failed, and a failure of the whole group or of
      a part of it if and only if that is so. */
  ghost predicate Shows(db: Db, job: string, group: int, status: string) {
    var failed, succeeded := SomeWith(db, job, group, false), SomeWith(db, job, group, true);
    && (status == "success" <==> !failed)
    && (status == "failed" <==> failed && !succeeded)
    && (status == "partially_failed" <==> failed && succeeded)
  }

  lemma GroupShows(db: Db, job: string, group: int)
    ensures Shows(db, job, group, GroupStatus(Listing(db.executions, job), group))
  {
    SomeListed(db, job, group, true);
    SomeListed(db, job, group, false);
  }

  /** A counted completion stores the status of its whole group. */
  lemma StatusTells(db: Db, e: Execution)
    requires ExecutionDone(db, e).1 == Recorded(true)
    ensures var after := ExecutionDone(db, e).0;
            e.jobName in after.jobs && Shows(after, e.jobName, e.group, after.jobs[e.jobName].status)
  {
    CountedFields(db, e);
    GroupShows(ExecutionDone(db, e).0, e.jobName, e.group);
  }

  /** So does a batch of one group of which some member counts. */
  lemma BatchStatusTells(db: Db, es: seq<Execution>, job: string, group: int, i: nat)
    requires Batch(db, es, job) && InGroup(es, group) && i < |es| && Taken(db, es[i])
    ensures var after := DoneAll(db, es); job in after.jobs && Shows(after, job, group, after.jobs[job].status)
  {
    BatchStatus(db, es, job, group);
    GroupShows(DoneAll(db, es), job, group);
    CountedSome(es, TakenWith(db, es[i].success), i);
  }

  lemma {:induction false} CountedSome(es: seq<Execution>, p: Execution -> bool, i: nat)
    requires i < |es| && p(es[i])
    ensures Count(es, p) > 0
  {
    if i < |es| - 1 {
      CountedSome(es[..|es| - 1], p, i);
    }
  }

  lemma SomeListed(db: Db, job: string, group: int, success: bool)
    ensures SomeWith(db, job, group, success) <==> GroupHas(Listing(db.executions, job), group, success)
  {
    var listing := Listing(db.executions, job);
    if SomeWith(db, job, group, success) {
      var k :| k in db.executions && Listed(job, k)
               && db.executions[k].group == group && db.executions[k].success == success;
      assert k in listing;
    }
    if GroupHas(listing, group, success) {
      var k :| k in listing && listing[k].group == group && listing[k].success == success;
      assert k in db.executions && Listed(job, k);
    }
  }

  predicate SameButTimes(a: Job, b: Job) {
    a.(lastSuccess := b.lastSuccess, lastError := b.lastError) == b
  }

  lemma SameStats(a: map<int, Stat>, b: map<int, Stat>)
    requires forall day :: StatOn(a, day) == StatOn(b, day) && (day in a <==> day in b)
    ensures a == b
  {
    forall day | day in a
      ensures day in b && a[day] == b[day]
    {
      assert StatOn(a, day) == StatOn(b, day);
    }
    forall day | day in b
      ensures day in a
    {
      assert StatOn(a, day) == StatOn(b, day);
    }
  }

  lemma SameOverlay(db: Db, a: map<string, Execution>, b: map<string, Execution>, es: seq<Execution>,
                    fs: seq<Execution>)
    requires Overlays(db, a, es) && Overlays(db, b, fs)
    requires forall e :: e in es <==> e in fs
    requires forall i, j | 0 <= i < j < |es| :: FullKey(es[i]) != FullKey(es[j])
    ensures a == b
  {
    forall k
      ensures (k in a <==> k in b) && (k in a ==> a[k] == b[k])
    {
      assert OverlaidAt(db, a, es, k) && OverlaidAt(db, b, fs, k);
      assert Hit(db, es, k) <==> Hit(db, fs, k);
    }
  }

  lemma {:induction false} OnceEach(es: seq<Execution>, e: Execution)
    requires Distinct(es)
    ensures multiset(es)[e] <= 1
  {
    if es != [] {
      var n := |es| - 1;
      OnceEach(es[..n], e);
      assert es == es[..n] + [es[n]];
      assert es[n] !in es[..n];
      assert multiset(es[..n])[es[n]] == 0;
    }
  }

  lemma TwiceCounted(fs: seq<Execution>, i: nat, j: nat)
    requires i < j < |fs| && fs[i] == fs[j]
    ensures multiset(fs)[fs[i]] >= 2
  {
    assert fs == fs[..i] + [fs[i]] + fs[i + 1..j] + [fs[j]] + fs[j + 1..];
  }

  lemma BatchPermuted(db: Db, es: seq<Execution>, fs: seq<Execution>, job: string)
    requires Batch(db, es, job) && multiset(es) == multiset(fs)
    ensures Batch(db, fs, job)
  {
    forall i | 0 <= i < |fs|
      ensures fs[i] in es
    {
      assert fs[i] in multiset(es);
    }
    forall i, j | 0 <= i < j < |fs|
      ensures FullKey(fs[i]) != FullKey(fs[j])
    {
      if fs[i] == fs[j] {
        OnceEach(es, fs[i]);
        TwiceCounted(fs, i, j);
      }
      var k :| 0 <= k < |es| && es[k] == fs[i];
      var l :| 0 <= l < |es| && es[l] == fs[j];
    }
  }

  /** Any order of a batch gives the same executions, counters, status and daily statistics. */
  lemma OrderDoesNotMatter(db: Db, es: seq<Execution>, fs: seq<Execution>, job: string, group: int)
    requires Batch(db, es, job) && InGroup(es, group) && multiset(es) == multiset(fs)
    ensures var a, b := DoneAll(db, es), DoneAll(db, fs);
            && a.executions == b.executions && a.stats == b.stats
            && a.jobs.Keys == b.jobs.Keys && forall n | n in a.jobs :: SameButTimes(a.jobs[n], b.jobs[n])
  {
    BatchPermuted(db, es, fs, job);
    BatchClosedForm(db, es, job);
    BatchClosedForm(db, fs, job);
    forall i | 0 <= i < |fs| ensures fs[i].group == group {
      assert fs[i] in multiset(es);
      assert fs[i] in es;
    }
    BatchStatus(db, es, job, group);
    BatchStatus(db, fs, job, group);
    SameBatches(db, DoneAll(db, es), DoneAll(db, fs), es, fs, job, group);
  }

  lemma SameBatches(db: Db, a: Db, b: Db, es: seq<Execution>, fs: seq<Execution>, job: string, group: int)
    requires multiset(es) == multiset(fs) && job in db.jobs
    requires BatchApplied(db, a, es, job) && BatchApplied(db, b, fs, job)
    requires a.jobs[job].status ==
             if TakenCount(db, es) > 0 then GroupStatus(Listing(a.executions, job), group) else db.jobs[job].status
    requires b.jobs[job].status ==
             if TakenCount(db, fs) > 0 then GroupStatus(Listing(b.executions, job), group) else db.jobs[job].status
    requires forall i, j | 0 <= i < j < |es| :: FullKey(es[i]) != FullKey(es[j])
    ensures a.executions == b.executions && a.stats == b.stats
    ensures a.jobs.Keys == b.jobs.Keys && forall n | n in a.jobs :: SameButTimes(a.jobs[n], b.jobs[n])
  {
    ExecutionsPermuted(db, a.executions, b.executions, es, fs);
    StatsPermuted(db, a.stats, b.stats, es, fs);
    CountPermuted(es, fs, TakenWith(db, true));
    CountPermuted(es, fs, TakenWith(db, false));
    SameAdds(db.jobs[job], a.jobs[job], b.jobs[job], Count(es, TakenWith(db, true)), Count(es, TakenWith(db, false)));
    forall n | n in a.jobs
      ensures SameButTimes(a.jobs[n], b.jobs[n])
    {
      assert n != job ==> a.jobs[n] == db.jobs[n] && b.jobs[n] == db.jobs[n];
    }
  }

  lemma SameAdds(before: Job, a: Job, b: Job, succeeded: nat, failed: nat)
    requires JobAdds(before, a, succeeded, failed) && JobAdds(before, b, succeeded, failed)
    requires a.status == b.status
    ensures SameButTimes(a, b)
  {
  }

  lemma ExecutionsPermuted(db: Db, a: map<string, Execution>, b: map<string, Execution>, es: seq<Execution>,
                           fs: seq<Execution>)
    requires multiset(es) == multiset(fs)
    requires Overlays(db, a, es) && Overlays(db, b, fs)
    requires forall i, j | 0 <= i < j < |es| :: FullKey(es[i]) != FullKey(es[j])
    ensures a == b
  {
    forall e
      ensures e in es <==> e in fs
    {
      assert e in multiset(es) <==> e in multiset(fs);
    }
    SameOverlay(db, a, b, es, fs);
  }

  lemma StatsPermuted(db: Db, a: map<int, Stat>, b: map<int, Stat>, es: seq<Execution>, fs: seq<Execution>)
    requires multiset(es) == multiset(fs)
    requires StatsAdd(db.stats, a, db, es) && StatsAdd(db.stats, b, db, fs)
    ensures a == b
  {
    forall day
      ensures StatOn(a, day) == StatOn(b, day) && (day in a <==> day in b)
    {
      CountPermuted(es, fs, TakenOn(db, true, day));
      CountPermuted(es, fs, TakenOn(db, false, day));
      assert StatOn(a, day).succeeded == StatOn(db.stats, day).succeeded + Count(es, TakenOn(db, true, day));
      assert StatOn(b, day).succeeded == StatOn(db.stats, day).succeeded + Count(fs, TakenOn(db, true, day));
    }
    SameStats(a, b);
  }

  lemma PairBatch(db: Db, e: Execution, f: Execution, job: string)
    requires Batch(db, [e, f], job)
    ensures Batch(db, [f, e], job) && multiset([e, f]) == multiset([f, e])
  {
    var es := [e, f];
    assert es[0] == e && es[1] == f;
  }

  lemma EqualIffTimes(a: Db, b: Db, job: string)
    requires a.executions == b.executions && a.stats == b.stats && a.jobs.Keys == b.jobs.Keys && job in a.jobs
    requires forall n | n in a.jobs && n != job :: a.jobs[n] == b.jobs[n]
    requires SameButTimes(a.jobs[job], b.jobs[job])
    ensures a == b <==>
            a.jobs[job].lastSuccess == b.jobs[job].lastSuccess && a.jobs[job].lastError == b.jobs[job].lastError
  {
    if a.jobs[job] == b.jobs[job] {
      assert a.jobs == b.jobs;
    }
  }

  lemma OthersKept(db: Db, es: seq<Execution>, job: string)
    requires Batch(db, es, job)
    ensures DoneAll(db, es).jobs.Keys == db.jobs.Keys
    ensures forall n | n in db.jobs && n != job :: DoneAll(db, es).jobs[n] == db.jobs[n]
  {
    BatchClosedForm(db, es, job);
  }

  // ----- The times of the last success and the last error -----

  /** The finish time of the last member with this outcome that is not overtaken, if there is one. */
  function LastTime(db: Db, es: seq<Execution>, success: bool, before: Option<Time>): Option<Time> {
    if es == [] then before
    else
      var n := |es| - 1;
      if Taken(db, es[n]) && es[n].success == success then Some(es[n].finishedAt)
      else LastTime(db, es[..n], success, before)
  }

  function TimeOf(job: Job, success: bool): Option<Time> {
    if success then job.lastSuccess else job.lastError
  }

  lemma CountedTime(now: Db, e: Execution, success: bool)
    requires e.jobName in now.jobs && Judge(now, e) == Counted
    ensures e.jobName in ExecutionDone(now, e).0.jobs
    ensures TimeOf(ExecutionDone(now, e).0.jobs[e.jobName], success) ==
            if e.success == success then Some(e.finishedAt) else TimeOf(now.jobs[e.jobName], success)
  {
    CountedFields(now, e);
  }

  /** After a batch the last-success and last-error times are those of its members that came last. */
  lemma {:induction false} LastTimes(db: Db, es: seq<Execution>, job: string, success: bool)
    requires Batch(db, es, job)
    ensures job in DoneAll(db, es).jobs
    ensures TimeOf(DoneAll(db, es).jobs[job], success) == LastTime(db, es, success, TimeOf(db.jobs[job], success))
  {
    if es != [] {
      var n := |es| - 1;
      var e, now := es[n], DoneAll(db, es[..n]);
      assert es == es[..n] + [e];
      LastTimes(db, es[..n], job, success);
      BatchClosedForm(db, es[..n], job);
      JudgedByStart(db, now, es[..n], e, job);
      if Taken(db, e) {
        CountedTime(now, e, success);
      }
    }
  }

  /** An order of a batch gives entirely the same database as another one if and only if the same
      finish time comes last among the successes, and among the failures. */
  lemma PermutedIff(db: Db, es: seq<Execution>, fs: seq<Execution>, job: string, group: int)
    requires Batch(db, es, job) && InGroup(es, group) && multiset(es) == multiset(fs)
    ensures DoneAll(db, es) == DoneAll(db, fs) <==>
            && LastTime(db, es, true, db.jobs[job].lastSuccess) == LastTime(db, fs, true, db.jobs[job].lastSuccess)
            && LastTime(db, es, false, db.jobs[job].lastError) == LastTime(db, fs, false, db.jobs[job].lastError)
  {
    BatchPermuted(db, es, fs, job);
    OrderDoesNotMatter(db, es, fs, job, group);
    OthersKept(db, es, job);
    OthersKept(db, fs, job);
    LastTimes(db, es, job, true);
    LastTimes(db, es, job, false);
    LastTimes(db, fs, job, true);
    LastTimes(db, fs, job, false);
    EqualIffTimes(DoneAll(db, es), DoneAll(db, fs), job);
  }

  /** Two completions commute exactly when their outcomes differ or they finished together. */
  lemma PairCommutesIff(db: Db, e: Execution, f: Execution, job: string, group: int)
    requires Batch(db, [e, f], job) && Taken(db, e) && Taken(db, f)
    requires e.group == group && f.group == group
    ensures DoneAll(db, [e, f]) == DoneAll(db, [f, e]) <==> e.success != f.success || e.finishedAt == f.finishedAt
  {
    PairBatch(db, e, f, job);
    PermutedIff(db, [e, f], [f, e], job, group);
    LastOfPair(db, e, f, true, db.jobs[job].lastSuccess);
    LastOfPair(db, e, f, false, db.jobs[job].lastError);
    LastOfPair(db, f, e, true, db.jobs[job].lastSuccess);
    LastOfPair(db, f, e, false, db.jobs[job].lastError);
  }

  lemma LastOfPair(db: Db, e: Execution, f: Execution, success: bool, before: Option<Time>)
    requires Taken(db, e) && Taken(db, f)
    ensures LastTime(db, [e, f], success, before) ==
            if f.success == success then Some(f.finishedAt)
            else if e.success == success then Some(e.finishedAt) else before
  {
    assert [e, f][..1] == [e] && [e][..0] == [];
    assert LastTime(db, [e], success, before) == if e.success == success then Some(e.finishedAt) else before;
  }

  // ----- Late repetitions -----

  /** The finish time of the last completion of the job with this outcome that counts on the way. */
  function LastCounted(db: Db, es: seq<Execution>, job: string, success: bool, before: Option<Time>): Option<Time> {
    if es == [] then before
    else
      var n := |es| - 1;
      var e, now := es[n], DoneAll(db, es[..n]);
      if e.jobName == job && e.success == success && job in now.jobs && Judge(now, e) == Counted then Some(e.finishedAt)
      else LastCounted(db, es[..n], job, success, before)
  }

  lemma StepTimes(now: Db, e: Execution, job: string, success: bool)
    requires job in now.jobs
    ensures var after := ExecutionDone(now, e).0;
            && job in after.jobs
            && TimeOf(after.jobs[job], success) ==
               if e.jobName == job && e.success == success && Judge(now, e) == Counted then Some(e.finishedAt)
               else TimeOf(now.jobs[job], success)
  {
    if e.jobName in now.jobs && Judge(now, e) == Counted {
      CountedFields(now, e);
      if e.jobName == job {
        CountedTime(now, e, success);
      }
    }
  }

  lemma {:induction false} CountedTimes(db: Db, es: seq<Execution>, job: string, success: bool)
    requires job in db.jobs
    ensures var after := DoneAll(db, es);
            && job in after.jobs
            && TimeOf(after.jobs[job], success) == LastCounted(db, es, job, success, TimeOf(db.jobs[job], success))
  {
    if es != [] {
      var n := |es| - 1;
      CountedTimes(db, es[..n], job, success);
      StepTimes(DoneAll(db, es[..n]), es[n], job, success);
    }
  }

  /** Whether the completion goes under this key and is neither stale nor of an unknown job. */
  predicate StoredUnder(now: Db, e: Execution, key: string) {
    FullKey(e) == key && e.jobName in now.jobs && Judge(now, e) != Ignored
  }

  /** The last completion stored under the key on the way, if there is one. */
  function LastStored(db: Db, es: seq<Execution>, key: string, before: Execution): Execution {
    if es == [] then before
    else
      var n := |es| - 1;
      if StoredUnder(DoneAll(db, es[..n]), es[n], key) then es[n] else LastStored(db, es[..n], key, before)
  }

  lemma StepKey(now: Db, e: Execution, key: string)
    requires key in now.executions
    ensures var after := ExecutionDone(now, e).0.executions;
            && key in after && after[key] == (if StoredUnder(now, e, key) then e else now.executions[key])
            && after[key].finishedAt >= now.executions[key].finishedAt
  {
    if e.jobName in now.jobs && Judge(now, e) != Ignored {
      assert ExecutionDone(now, e).0.executions == now.executions[FullKey(e) := e];
    }
  }

  lemma {:induction false} StoredLast(db: Db, es: seq<Execution>, key: string)
    requires key in db.executions
    ensures var after, before := DoneAll(db, es).executions, db.executions[key];
            && key in after && after[key] == LastStored(db, es, key, before)
            && after[key].finishedAt >= before.finishedAt
  {
    if es != [] {
      var n := |es| - 1;
      StoredLast(db, es[..n], key);
      StepKey(DoneAll(db, es[..n]), es[n], key);
    }
  }

  /** A repetition of a completion after any others, of whatever jobs, counts again if and only if the
      completion was not stale to begin with, what is now stored under its key has its finish time, and
      either not its outcome or not the last finish time that counted for the job and the outcome. */
  lemma RepetitionCountsAgainIff(db: Db, e: Execution, es: seq<Execution>)
    requires e.jobName in db.jobs
    ensures var one := ExecutionDone(db, e).0;
            var stored := LastStored(one, es, FullKey(e), e);
            var last := LastCounted(one, es, e.jobName, e.success, Some(e.finishedAt));
            ExecutionDone(DoneAll(one, es), e).1 == Recorded(true) <==>
              && Judge(db, e) != Ignored && stored.finishedAt == e.finishedAt
              && (stored.success != e.success || last != Some(e.finishedAt))
  {
    var one := ExecutionDone(db, e).0;
    CountedTimes(one, es, e.jobName, e.success);
    if Judge(db, e) == Ignored {
      StoredLast(db, es, FullKey(e));
      StaleStays(DoneAll(db, es), e);
    } else {
      OnceStored(db, e);
      StoredLast(one, es, FullKey(e));
      CountsAgain(DoneAll(one, es), e);
    }
  }

  lemma StaleStays(now: Db, e: Execution)
    requires e.jobName in now.jobs && FullKey(e) in now.executions
    requires now.executions[FullKey(e)].finishedAt > e.finishedAt
    ensures ExecutionDone(now, e).1 == Recorded(false)
  {
  }

  lemma CountsAgain(now: Db, e: Execution)
    requires e.jobName in now.jobs && FullKey(e) in now.executions
    requires now.executions[FullKey(e)].finishedAt >= e.finishedAt
    ensures var stored := now.executions[FullKey(e)];
            ExecutionDone(now, e).1 == Recorded(true) <==>
              && stored.finishedAt == e.finishedAt
              && (stored.success != e.success || TimeOf(now.jobs[e.jobName], e.success) != Some(e.finishedAt))
  {
  }

  lemma OnceStored(db: Db, e: Execution)
    requires e.jobName in db.jobs && Judge(db, e) != Ignored
    ensures var one := ExecutionDone(db, e).0;
            && FullKey(e) in one.executions && one.executions[FullKey(e)] == e
            && e.jobName in one.jobs && TimeOf(one.jobs[e.jobName], e.success) == Some(e.finishedAt)
  {
    assert ExecutionDone(db, e).0.executions == db.executions[FullKey(e) := e];
  }

  /** Within a batch what counts on the way is what the start of the batch decides. */
  lemma {:induction false} BatchCounted(db: Db, es: seq<Execution>, job: string, success: bool, before: Option<Time>)
    requires Batch(db, es, job)
    ensures LastCounted(db, es, job, success, before) == LastTime(db, es, success, before)
  {
    if es != [] {
      var n := |es| - 1;
      assert es == es[..n] + [es[n]];
      BatchCounted(db, es[..n], job, success, before);
      BatchClosedForm(db, es[..n], job);
      JudgedByStart(db, DoneAll(db, es[..n]), es[..n], es[n], job);
    }
  }

  /** After a batch this can be told from the batch and the database alone. */
  lemma RepetitionAfterBatchIff(db: Db, e: Execution, es: seq<Execution>)
    requires e.jobName in db.jobs && Judge(db, e) != Ignored
    requires Batch(ExecutionDone(db, e).0, es, e.jobName) && forall i | 0 <= i < |es| :: FullKey(es[i]) != FullKey(e)
    ensures var one := ExecutionDone(db, e).0;
            ExecutionDone(DoneAll(one, es), e).1 == Recorded(true) <==>
              LastTime(one, es, e.success, Some(e.finishedAt)) != Some(e.finishedAt)
  {
    RepetitionCountsAgainIff(db, e, es);
    OthersLeave(ExecutionDone(db, e).0, es, FullKey(e), e);
    BatchCounted(ExecutionDone(db, e).0, es, e.jobName, e.success, Some(e.finishedAt));
  }

  lemma {:induction false} OthersLeave(db: Db, es: seq<Execution>, key: string, before: Execution)
    requires forall i | 0 <= i < |es| :: FullKey(es[i]) != key
    ensures LastStored(db, es, key, before) == before
  {
    if es != [] {
      OthersLeave(db, es[..|es| - 1], key, before);
    }
  }
}
