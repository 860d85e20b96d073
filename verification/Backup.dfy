/** Lists of children in backups: what a restore makes of them. */
module Backup {
  import opened Wrappers
  import opened Types
  import opened StoreSpec
  import opened Links
  import opened Forest
  import opened Leader
  import opened Restore

  /** A backup carries the lists of children, and every restored child is appended once more: restoring
      a parent and then its child into an empty store lists the child twice. */
  lemma RestoreDoublesChildren(env: Env, c: Clock, d: Clock, parent: Job, child: Job)
    requires Valid(env, parent) && Valid(env, child)
    requires parent.parentJob == "" && child.parentJob == parent.name && parent.dependentJobs == [child.name]
    ensures var one := StoreSpec.SetJob(env, c, EMPTY, parent, true).0;
            var two := StoreSpec.SetJob(env, d, one, child, true).0;
            && parent.name in two.jobs && two.jobs[parent.name].dependentJobs == [child.name, child.name]
            && !ListsExact(two.jobs)
  {
    AcceptedSetJob(env, c, EMPTY, parent);
    var one := StoreSpec.SetJob(env, c, EMPTY, parent, true).0;
    FirstJobStored(env, c, parent);
    AcceptedSetJob(env, d, one, child);
    var merged := Merged(env, d, Stored(one.jobs, child.name), child, true).value;
    SecondJobLinked(one.jobs, parent.name, child.name, merged);
  }

  lemma FirstJobStored(env: Env, c: Clock, job: Job)
    requires Valid(env, job) && job.parentJob == ""
    ensures var jobs := StoreSpec.SetJob(env, c, EMPTY, job, true).0.jobs;
            jobs.Keys == {job.name} && jobs[job.name].dependentJobs == job.dependentJobs
  {
    AcceptedSetJob(env, c, EMPTY, job);
  }

  lemma SecondJobLinked(jobs: map<string, Job>, parent: string, child: string, merged: Job)
    requires jobs.Keys == {parent} && jobs[parent].dependentJobs == [child] && child != parent && parent != ""
    ensures var after := Relinked(jobs[child := merged], child, "", parent);
            && parent in after && after[parent].dependentJobs == [child, child] && !ListsExact(after)
  {
    var after := Relinked(jobs[child := merged], child, "", parent);
    assert after[parent].dependentJobs == [child] + [child] == [child, child];
    assert after[parent].dependentJobs[0] == after[parent].dependentJobs[1];
  }

  // ----- A replay without a failure as a sequence of calls -----

  /** The jobs in the order in which a replay without a failure sets them. */
  function Preorder(ts: seq<Tree>): seq<Job> {
    if ts == [] then [] else [ts[0].job] + Preorder(ts[0].children) + Preorder(ts[1..])
  }

  /** The leader after the first n of these calls, the first one being the k-th of all. */
  function After(handle: Handler, v: LeaderView, jobs: seq<Job>, calls: nat -> Call, k: nat, n: nat): LeaderView
    requires n <= |jobs|
  {
    if n == 0 then v else handle(After(handle, v, jobs, calls, k, n - 1), jobs[n - 1], calls(k + n - 1)).view
  }

  predicate CallOk(handle: Handler, v: LeaderView, jobs: seq<Job>, calls: nat -> Call, k: nat, i: nat)
    requires i < |jobs|
  {
    handle(After(handle, v, jobs, calls, k, i), jobs[i], calls(k + i)).ok
  }

  ghost predicate CallsOk(handle: Handler, v: LeaderView, jobs: seq<Job>, calls: nat -> Call, k: nat) {
    forall i | 0 <= i < |jobs| :: CallOk(handle, v, jobs, calls, k, i)
  }

  lemma {:induction false} AfterFirst(handle: Handler, v: LeaderView, a: seq<Job>, b: seq<Job>, calls: nat -> Call,
                                      k: nat, n: nat)
    requires n <= |a|
    ensures After(handle, v, a + b, calls, k, n) == After(handle, v, a, calls, k, n)
  {
    if n > 0 {
      AfterFirst(handle, v, a, b, calls, k, n - 1);
    }
  }

  lemma {:induction false} AfterSecond(handle: Handler, v: LeaderView, a: seq<Job>, b: seq<Job>, calls: nat -> Call,
                                       k: nat, n: nat)
    requires n <= |b|
    ensures After(handle, v, a + b, calls, k, |a| + n) ==
            After(handle, After(handle, v, a, calls, k, |a|), b, calls, k + |a|, n)
  {
    if n == 0 {
      AfterFirst(handle, v, a, b, calls, k, |a|);
    } else {
      AfterSecond(handle, v, a, b, calls, k, n - 1);
      assert (a + b)[|a| + n - 1] == b[n - 1] && k + (|a| + n) - 1 == k + |a| + n - 1;
    }
  }

  lemma CallsJoined(handle: Handler, v: LeaderView, a: seq<Job>, b: seq<Job>, calls: nat -> Call, k: nat)
    requires CallsOk(handle, v, a, calls, k)
    requires CallsOk(handle, After(handle, v, a, calls, k, |a|), b, calls, k + |a|)
    ensures CallsOk(handle, v, a + b, calls, k)
  {
    forall i | 0 <= i < |a + b| ensures CallOk(handle, v, a + b, calls, k, i) {
      if i < |a| {
        AfterFirst(handle, v, a, b, calls, k, i);
        assert CallOk(handle, v, a, calls, k, i);
      } else {
        AfterSecond(handle, v, a, b, calls, k, i - |a|);
        assert CallOk(handle, After(handle, v, a, calls, k, |a|), b, calls, k + |a|, i - |a|);
      }
    }
  }

  /** The replay sets these jobs, one after the other, with these calls. */
  ghost predicate Sets(handle: Handler, v: LeaderView, jobs: seq<Job>, calls: nat -> Call, k: nat, replay: Outcome) {
    && |replay.issued| == |jobs| && (forall i | 0 <= i < |jobs| :: replay.issued[i].job == jobs[i])
    && CallsOk(handle, v, jobs, calls, k) && replay.view == After(handle, v, jobs, calls, k, |jobs|)
  }

  lemma SetsJoined(handle: Handler, v: LeaderView, a: seq<Job>, b: seq<Job>, calls: nat -> Call, k: nat,
                   first: Outcome, second: Outcome)
    requires Sets(handle, v, a, calls, k, first) && Sets(handle, first.view, b, calls, k + |a|, second)
    ensures Sets(handle, v, a + b, calls, k, Outcome(second.view, first.issued + second.issued))
  {
    CallsJoined(handle, v, a, b, calls, k);
    AfterSecond(handle, v, a, b, calls, k, |b|);
  }

  lemma SetsOne(handle: Handler, v: LeaderView, t: Tree, calls: nat -> Call, k: nat, effect: Effect)
    requires effect == handle(v, t.job, calls(k)) && effect.ok
    ensures Sets(handle, v, [t.job], calls, k, Outcome(effect.view, [IssuedFor(t, effect)]))
  {
    assert After(handle, v, [t.job], calls, k, 0) == v;
    assert CallOk(handle, v, [t.job], calls, k, 0);
    assert After(handle, v, [t.job], calls, k, 1) == effect.view;
  }

  lemma {:induction false} ReplaySets(handle: Handler, play: Player, v: LeaderView, ts: seq<Tree>, calls: nat -> Call,
                                      k: nat)
    requires Plays(handle, calls, play) && AllOk(play(v, ts, k).issued)
    ensures Sets(handle, v, Preorder(ts), calls, k, play(v, ts, k))
    decreases ts
  {
    assert PlaysAt(handle, calls, play, v, ts, k);
    if ts != [] {
      var effect := handle(v, ts[0].job, calls(k));
      var one, children := IssuedFor(ts[0], effect), ts[0].children;
      var below := PlayedBelow(play, effect, children, k);
      var rest := play(below.view, ts[1..], k + 1 + |below.issued|);
      OkJoined(one, below.issued, rest.issued);
      ReplaySets(handle, play, effect.view, children, calls, k + 1);
      ReplaySets(handle, play, below.view, ts[1..], calls, k + 1 + |below.issued|);
      SetsOne(handle, v, ts[0], calls, k, effect);
      SetsJoined(handle, v, [ts[0].job], Preorder(children), calls, k, Outcome(effect.view, [one]), below);
      SetsJoined(handle, v, [ts[0].job] + Preorder(children), Preorder(ts[1..]), calls, k,
                 Outcome(below.view, [one] + below.issued), rest);
    }
  }

  // ----- The jobs of that sequence -----

  lemma {:induction false} PreorderNodes(ts: seq<Tree>, job: Job) returns (id: nat)
    requires job in Preorder(ts)
    ensures Tally(ts, Is(id, job)) > 0
  {
    if ts[0].job == job {
      id := ts[0].id;
    } else if job in Preorder(ts[0].children) {
      id := PreorderNodes(ts[0].children, job);
    } else {
      id := PreorderNodes(ts[1..], job);
    }
  }

  lemma {:induction false} NodesInPreorder(ts: seq<Tree>, id: nat, job: Job)
    requires Tally(ts, Is(id, job)) > 0
    ensures job in Preorder(ts)
  {
    if Tally(ts[0].children, Is(id, job)) > 0 {
      NodesInPreorder(ts[0].children, id, job);
    } else if Tally(ts[1..], Is(id, job)) > 0 {
      NodesInPreorder(ts[1..], id, job);
    }
  }

  function NamesOf(jobs: seq<Job>): seq<string> {
    seq(|jobs|, i requires 0 <= i < |jobs| => jobs[i].name)
  }

  lemma NamesJoined(a: seq<Job>, b: seq<Job>)
    ensures NamesOf(a + b) == NamesOf(a) + NamesOf(b)
  {
  }

  lemma {:induction false} NamesTally(ts: seq<Tree>, name: string)
    ensures multiset(NamesOf(Preorder(ts)))[name] == Tally(ts, HasName(name))
  {
    if ts != [] {
      NamesTally(ts[0].children, name);
      NamesTally(ts[1..], name);
      NamesJoined([ts[0].job], Preorder(ts[0].children));
      NamesJoined([ts[0].job] + Preorder(ts[0].children), Preorder(ts[1..]));
      assert NamesOf([ts[0].job]) == [ts[0].job.name];
    }
  }

  lemma CountedTwice(names: seq<string>, i: nat, j: nat)
    requires i < j < |names| && names[i] == names[j]
    ensures multiset(names)[names[i]] >= 2
  {
    assert names == names[..j] + [names[j]] + names[j + 1..];
    assert names[..j][i] == names[i];
  }

  lemma PreorderDistinct(env: Env, jobs: seq<Job>)
    requires DistinctNames(jobs) && JobTree(env, jobs).Some?
    ensures DistinctNames(Preorder(JobTree(env, jobs).value))
  {
    var forest := JobTree(env, jobs).value;
    var order := Preorder(forest);
    GrowStage(env, jobs);
    forall i, j | 0 <= i < j < |order| ensures order[i].name != order[j].name {
      var name := order[i].name;
      NamesTally(forest, name);
      assert Tally(forest, HasName(name)) == Tally(Leaves(jobs), HasName(name));
      LeavesOnce(jobs, 0, name, order[i]);
      if order[j].name == name {
        CountedTwice(NamesOf(order), i, j);
      }
    }
  }

  lemma {:induction false} PreorderValid(env: Env, ts: seq<Tree>, job: Job)
    requires AllValid(env, ts) && job in Preorder(ts)
    ensures Valid(env, job)
  {
    if job in Preorder(ts[0].children) {
      PreorderValid(env, ts[0].children, job);
    } else if job in Preorder(ts[1..]) {
      PreorderValid(env, ts[1..], job);
    }
  }

  /** The forest holds the jobs of the list. */
  lemma PreorderIs(env: Env, jobs: seq<Job>)
    requires DistinctNames(jobs) && JobTree(env, jobs).Some?
    ensures forall job :: job in Preorder(JobTree(env, jobs).value) <==> job in jobs
  {
    var forest := JobTree(env, jobs).value;
    ForestShape(env, jobs);
    GrowStage(env, jobs);
    forall job ensures job in Preorder(forest) <==> job in jobs {
      if job in Preorder(forest) {
        var id := PreorderNodes(forest, job);
        assert Tally(forest, Is(id, job)) == Tally(Leaves(jobs), Is(id, job));
        LeavesOnce(jobs, id, "", job);
      }
      if job in jobs {
        var i :| 0 <= i < |jobs| && jobs[i] == job;
        NodesInPreorder(forest, i, job);
      }
    }
  }

  // ----- What one call does to lists -----

  predicate Twice(names: seq<string>, c: string) {
    multiset(names)[c] >= 2
  }

  lemma {:induction false} DistinctOnce(names: seq<string>, c: string)
    requires Distinct(names)
    ensures !Twice(names, c)
  {
    if names != [] {
      DistinctOnce(names[1..], c);
      assert names == [names[0]] + names[1..];
      assert names[0] !in names[1..];
    }
  }

  /** The list of p after a job has moved from one parent to another. */
  function ListAfter(names: seq<string>, p: string, child: string, from: string, to: string): seq<string> {
    if from == to then names
    else if p == to then names + [child]
    else if p == from then Without(names, child)
    else names
  }

  lemma {:induction false} WithoutOthers(names: seq<string>, name: string, c: string)
    requires c != name
    ensures c in names ==> c in Without(names, name)
    ensures multiset(Without(names, name))[c] == multiset(names)[c]
  {
    if names != [] {
      WithoutOthers(names[1..], name, c);
      assert names == [names[0]] + names[1..];
    }
  }

  lemma ListKeeps(names: seq<string>, p: string, child: string, from: string, to: string, c: string)
    requires c in names && (c != child || p != from)
    ensures var after := ListAfter(names, p, child, from, to);
            c in after && (Twice(names, c) ==> Twice(after, c))
    ensures c == child && p == to && p != from ==> Twice(ListAfter(names, p, child, from, to), c)
  {
    if c != child {
      WithoutOthers(names, child, c);
    }
  }

  /** An accepted call writes the given parent, moves the job between two lists, and brings its own list
      if none is stored. */
  lemma CallLists(env: Env, clock: Clock, db: Db, job: Job, p: string)
    requires Accepted(env, db, job) && p in db.jobs && p != "" && p != job.name
    ensures var after := SetJob(env, clock, db, job, true).0.jobs;
            && p in after && after[p].parentJob == db.jobs[p].parentJob
            && after[p].dependentJobs ==
               ListAfter(db.jobs[p].dependentJobs, p, job.name, ParentOnRecord(db.jobs, job.name), job.parentJob)
  {
    AcceptedSetJob(env, clock, db, job);
    var from, to := ParentOnRecord(db.jobs, job.name), job.parentJob;
    var jobs := db.jobs[job.name := Merged(env, clock, Stored(db.jobs, job.name), job, true).value];
    UnlinkList(jobs, from, job.name, p);
    LinkList(Unlink(jobs, from, job.name), to, job.name, p);
  }

  lemma CallParents(env: Env, clock: Clock, db: Db, job: Job)
    requires Accepted(env, db, job)
    ensures var after := SetJob(env, clock, db, job, true).0.jobs;
            && after.Keys == db.jobs.Keys + {job.name} && after[job.name].parentJob == job.parentJob
            && forall n | n in db.jobs && n != job.name :: after[n].parentJob == db.jobs[n].parentJob
  {
    AcceptedSetJob(env, clock, db, job);
    MergedIs(env, clock, Stored(db.jobs, job.name), job, true);
    var jobs := db.jobs[job.name := Merged(env, clock, Stored(db.jobs, job.name), job, true).value];
    RelinkedRest(jobs, job.name, ParentOnRecord(db.jobs, job.name), job.parentJob);
  }

  lemma OwnList(env: Env, clock: Clock, db: Db, job: Job)
    requires Sound(env, db) && Accepted(env, db, job) && ListFromCaller(db.jobs, job)
    ensures var after := SetJob(env, clock, db, job, true).0.jobs;
            job.name in after && after[job.name].dependentJobs == job.dependentJobs
  {
    AcceptedSetJob(env, clock, db, job);
    MergedIs(env, clock, Stored(db.jobs, job.name), job, true);
    RelinkedOwn(db.jobs[job.name := Merged(env, clock, Stored(db.jobs, job.name), job, true).value],
                job.name, ParentOnRecord(db.jobs, job.name), job.parentJob);
  }

  lemma RelinkedOwn(jobs: map<string, Job>, child: string, from: string, to: string)
    requires child in jobs && from != child && to != child
    ensures var after := Relinked(jobs, child, from, to);
            child in after && after[child].dependentJobs == jobs[child].dependentJobs
  {
    UnlinkList(jobs, from, child, child);
    LinkList(Unlink(jobs, from, child), to, child, child);
  }

  // ----- When lists are spoiled -----

  /** p, whose call is past, lists c although c is not its child, or twice although the call of c is past. */
  predicate SpoiledBy(jobs: map<string, Job>, past: set<string>, p: string, c: string) {
    && p in jobs && p != "" && p in past && c in jobs[p].dependentJobs
    && (!IsChild(jobs, c, p) || (c in past && Twice(jobs[p].dependentJobs, c)))
  }

  ghost predicate Spoiled(jobs: map<string, Job>, past: set<string>) {
    exists p, c :: SpoiledBy(jobs, past, p, c)
  }

  lemma ExactNotSpoiled(jobs: map<string, Job>, past: set<string>)
    requires ListsExact(jobs)
    ensures !Spoiled(jobs, past)
  {
    forall p, c ensures !SpoiledBy(jobs, past, p, c) {
      if p in jobs {
        assert ListExact(jobs, p);
        DistinctOnce(jobs[p].dependentJobs, c);
      }
    }
  }

  lemma StaysSpoiled(env: Env, clock: Clock, db: Db, job: Job, past: set<string>)
    requires Accepted(env, db, job) && job.name !in past && Spoiled(db.jobs, past)
    ensures Spoiled(SetJob(env, clock, db, job, true).0.jobs, past + {job.name})
  {
    var p, c :| SpoiledBy(db.jobs, past, p, c);
    var after := SetJob(env, clock, db, job, true).0.jobs;
    CallLists(env, clock, db, job, p);
    CallParents(env, clock, db, job);
    ListKeeps(db.jobs[p].dependentJobs, p, job.name, ParentOnRecord(db.jobs, job.name), job.parentJob, c);
    assert SpoiledBy(after, past + {job.name}, p, c);
  }

  /** A list taken over has a name that is no child yet. */
  lemma ListSpoils(env: Env, clock: Clock, db: Db, job: Job, past: set<string>)
    requires Exact(env, db) && Accepted(env, db, job) && ListFromCaller(db.jobs, job)
    ensures Spoiled(SetJob(env, clock, db, job, true).0.jobs, past + {job.name})
  {
    OwnList(env, clock, db, job);
    CallParents(env, clock, db, job);
    ChildlessIff(env, db, job);
    OwnSpoiled(db.jobs, SetJob(env, clock, db, job, true).0.jobs, job, past + {job.name});
  }

  lemma OwnSpoiled(jobs: map<string, Job>, after: map<string, Job>, job: Job, past: set<string>)
    requires after.Keys == jobs.Keys + {job.name} && after[job.name].parentJob == job.parentJob != job.name
    requires forall n | n in jobs && n != job.name :: after[n].parentJob == jobs[n].parentJob
    requires after[job.name].dependentJobs == job.dependentJobs != [] && job.name in past && job.name != ""
    requires forall c :: !IsChild(jobs, c, job.name)
    ensures Spoiled(after, past)
  {
    var c := job.dependentJobs[0];
    assert !IsChild(jobs, c, job.name) && c in after[job.name].dependentJobs;
    assert SpoiledBy(after, past, job.name, c);
  }

  /** Where lists are exact, a caller's list is taken over exactly if the job has no child. */
  lemma ChildlessIff(env: Env, db: Db, job: Job)
    requires Exact(env, db) && Valid(env, job)
    ensures ListFromCaller(db.jobs, job) <==>
              job.dependentJobs != [] && forall c :: !IsChild(db.jobs, c, job.name)
  {
    if job.name in db.jobs {
      var names := db.jobs[job.name].dependentJobs;
      assert ListExact(db.jobs, job.name);
      assert names != [] ==> names[0] in names;
    } else {
      assert forall c | c in db.jobs && db.jobs[c].parentJob != "" :: db.jobs[c].parentJob in db.jobs;
    }
  }

  // ----- The whole sequence -----

  function Past(jobs: seq<Job>, n: nat): set<string>
    requires n <= |jobs|
  {
    set i | 0 <= i < n :: jobs[i].name
  }

  /** Valid jobs under distinct names, none of which names a later one as its parent. */
  ghost predicate InTurn(env: Env, jobs: seq<Job>) {
    && DistinctNames(jobs) && (forall i | 0 <= i < |jobs| :: Valid(env, jobs[i]))
    && forall i, j | 0 <= i < j < |jobs| :: jobs[i].parentJob != jobs[j].name
  }

  /** The i-th job brings no list, or still has a stored child at its turn: one whose own turn has not
      come before. */
  ghost predicate KeepsList(stored: map<string, Job>, jobs: seq<Job>, i: nat)
    requires i < |jobs|
  {
    jobs[i].dependentJobs != [] ==> exists c :: IsChild(stored, c, jobs[i].name) && c !in Past(jobs, i)
  }

  /** The database before each call, and after the last one. */
  type Databases = nat -> Db

  predicate SetAt(env: Env, jobs: seq<Job>, calls: nat -> Call, dbs: Databases, i: nat)
    requires i < |jobs|
  {
    && Accepted(env, dbs(i), jobs[i])
    && dbs(i + 1) == SetJob(env, calls(i).clock, dbs(i), jobs[i], true).0
  }

  /** Accepted calls for the jobs in their turn, one after the other. */
  ghost predicate SetInTurn(env: Env, jobs: seq<Job>, calls: nat -> Call, dbs: Databases) {
    InTurn(env, jobs) && forall i | 0 <= i < |jobs| :: SetAt(env, jobs, calls, dbs, i)
  }

  predicate TakesOver(jobs: seq<Job>, dbs: Databases, i: nat)
    requires i < |jobs|
  {
    ListFromCaller(dbs(i).jobs, jobs[i])
  }

  /** Whether c is a child of p before each call. */
  function ChildThen(dbs: Databases, p: string, c: string): nat -> bool {
    (n: nat) => IsChild(dbs(n).jobs, c, p)
  }

  predicate LostAt(jobs: seq<Job>, child: nat -> bool, c: string, n: nat)
    requires n < |jobs|
  {
    child(n + 1) <==> child(n) && c != jobs[n].name
  }

  lemma {:induction false} LostInTurn(jobs: seq<Job>, child: nat -> bool, c: string, n: nat)
    requires n <= |jobs| && forall m | 0 <= m < n :: LostAt(jobs, child, c, m)
    ensures child(n) <==> child(0) && c !in Past(jobs, n)
  {
    if n > 0 {
      LostInTurn(jobs, child, c, n - 1);
      assert LostAt(jobs, child, c, n - 1);
      PastMore(jobs, n - 1);
    }
  }

  /** At the turn of a job its children are those of the start whose own turn has not come. */
  lemma ChildrenAt(env: Env, jobs: seq<Job>, calls: nat -> Call, dbs: Databases, i: nat, c: string)
    requires SetInTurn(env, jobs, calls, dbs) && i < |jobs|
    ensures IsChild(dbs(i).jobs, c, jobs[i].name) <==> IsChild(dbs(0).jobs, c, jobs[i].name) && c !in Past(jobs, i)
  {
    var child := ChildThen(dbs, jobs[i].name, c);
    forall m | 0 <= m < i ensures LostAt(jobs, child, c, m) {
      assert SetAt(env, jobs, calls, dbs, m);
      ChildMoves(env, calls(m).clock, dbs(m), dbs(m + 1), jobs[m], jobs[i].name, c);
    }
    LostInTurn(jobs, child, c, i);
  }

  lemma ChildMoves(env: Env, clock: Clock, db: Db, after: Db, job: Job, p: string, c: string)
    requires Accepted(env, db, job) && after == SetJob(env, clock, db, job, true).0 && job.parentJob != p
    ensures IsChild(after.jobs, c, p) <==> IsChild(db.jobs, c, p) && c != job.name
  {
    CallParents(env, clock, db, job);
  }

  lemma PastMore(jobs: seq<Job>, n: nat)
    requires n < |jobs|
    ensures Past(jobs, n + 1) == Past(jobs, n) + {jobs[n].name}
  {
  }

  lemma KeepsListIff(env: Env, jobs: seq<Job>, calls: nat -> Call, dbs: Databases, i: nat)
    requires SetInTurn(env, jobs, calls, dbs) && i < |jobs| && Exact(env, dbs(i))
    ensures KeepsList(dbs(0).jobs, jobs, i) <==> !TakesOver(jobs, dbs, i)
  {
    ChildlessIff(env, dbs(i), jobs[i]);
    forall c
      ensures IsChild(dbs(i).jobs, c, jobs[i].name) <==> IsChild(dbs(0).jobs, c, jobs[i].name) && c !in Past(jobs, i)
    {
      ChildrenAt(env, jobs, calls, dbs, i, c);
    }
  }

  /** What one call makes of exact lists and of spoiled ones. */
  lemma CallOutcome(env: Env, clock: Clock, db: Db, job: Job, past: set<string>, after: Db)
    requires Accepted(env, db, job) && job.name !in past && after == SetJob(env, clock, db, job, true).0
    ensures Exact(env, db) && !ListFromCaller(db.jobs, job) ==> Exact(env, after)
    ensures Exact(env, db) && ListFromCaller(db.jobs, job) ==> Spoiled(after.jobs, past + {job.name})
    ensures Spoiled(db.jobs, past) ==> Spoiled(after.jobs, past + {job.name})
  {
    if Exact(env, db) {
      SetJobExactIff(env, clock, db, job);
      if ListFromCaller(db.jobs, job) {
        ListSpoils(env, clock, db, job, past);
      }
    }
    if Spoiled(db.jobs, past) {
      StaysSpoiled(env, clock, db, job, past);
    }
  }

  /** One step: a list that is kept leaves what is exact as it is, one taken over spoils it for good. */
  predicate StepAt(takes: nat -> bool, keeps: nat -> bool, exact: nat -> bool, spoiled: nat -> bool, i: nat) {
    && (exact(i) ==> (keeps(i) <==> !takes(i)) && (if takes(i) then spoiled(i + 1) else exact(i + 1)))
    && (spoiled(i) ==> spoiled(i + 1))
  }

  lemma {:induction false} SoFar(takes: nat -> bool, keeps: nat -> bool, exact: nat -> bool, spoiled: nat -> bool,
                                 n: nat)
    requires exact(0) && forall i | 0 <= i < n :: StepAt(takes, keeps, exact, spoiled, i)
    ensures if forall i | 0 <= i < n :: !takes(i) then exact(n) && forall i | 0 <= i < n :: keeps(i)
            else spoiled(n) && exists i | 0 <= i < n :: !keeps(i)
  {
    if n > 0 {
      SoFar(takes, keeps, exact, spoiled, n - 1);
      assert StepAt(takes, keeps, exact, spoiled, n - 1);
    }
  }

  function TakesOf(jobs: seq<Job>, dbs: Databases): nat -> bool {
    (i: nat) => i < |jobs| && TakesOver(jobs, dbs, i)
  }

  ghost function KeepsOf(jobs: seq<Job>, dbs: Databases): nat -> bool {
    (i: nat) => i < |jobs| && KeepsList(dbs(0).jobs, jobs, i)
  }

  ghost function ExactOf(env: Env, dbs: Databases): nat -> bool {
    (i: nat) => Exact(env, dbs(i))
  }

  ghost function SpoiledOf(jobs: seq<Job>, dbs: Databases): nat -> bool {
    (i: nat) => i <= |jobs| && Spoiled(dbs(i).jobs, Past(jobs, i))
  }

  lemma StepOf(env: Env, jobs: seq<Job>, calls: nat -> Call, dbs: Databases, i: nat)
    requires SetInTurn(env, jobs, calls, dbs) && i < |jobs|
    ensures StepAt(TakesOf(jobs, dbs), KeepsOf(jobs, dbs), ExactOf(env, dbs), SpoiledOf(jobs, dbs), i)
  {
    assert SetAt(env, jobs, calls, dbs, i);
    PastMore(jobs, i);
    CallOutcome(env, calls(i).clock, dbs(i), jobs[i], Past(jobs, i), dbs(i + 1));
    if Exact(env, dbs(i)) {
      KeepsListIff(env, jobs, calls, dbs, i);
    }
  }

  lemma SequenceIff(env: Env, jobs: seq<Job>, calls: nat -> Call, dbs: Databases)
    requires SetInTurn(env, jobs, calls, dbs) && Exact(env, dbs(0))
    ensures Exact(env, dbs(|jobs|)) <==> forall i | 0 <= i < |jobs| :: !TakesOver(jobs, dbs, i)
    ensures Exact(env, dbs(|jobs|)) <==> forall i | 0 <= i < |jobs| :: KeepsList(dbs(0).jobs, jobs, i)
  {
    var takes, keeps := TakesOf(jobs, dbs), KeepsOf(jobs, dbs);
    var exact, spoiled := ExactOf(env, dbs), SpoiledOf(jobs, dbs);
    forall i | 0 <= i < |jobs| ensures StepAt(takes, keeps, exact, spoiled, i) {
      StepOf(env, jobs, calls, dbs, i);
    }
    SoFar(takes, keeps, exact, spoiled, |jobs|);
    assert exact(|jobs|) ==> !spoiled(|jobs|) by {
      if Exact(env, dbs(|jobs|)) {
        ExactNotSpoiled(dbs(|jobs|).jobs, Past(jobs, |jobs|));
      }
    }
    assert forall i | 0 <= i < |jobs| :: TakesOver(jobs, dbs, i) == takes(i);
    assert forall i | 0 <= i < |jobs| :: KeepsList(dbs(0).jobs, jobs, i) == keeps(i);
  }

  // ----- When a backup restores exact lists -----

  lemma ForestInTurn(env: Env, jobs: seq<Job>, issued: seq<Issued>)
    requires DistinctNames(jobs) && JobTree(env, jobs).Some? && ParentsFirst(issued, "")
    requires var order := Preorder(JobTree(env, jobs).value);
             |issued| == |order| && forall i | 0 <= i < |order| :: issued[i].job == order[i]
    ensures InTurn(env, Preorder(JobTree(env, jobs).value))
  {
    var order := Preorder(JobTree(env, jobs).value);
    ForestShape(env, jobs);
    PreorderDistinct(env, jobs);
    forall i | 0 <= i < |order| ensures Valid(env, order[i]) {
      PreorderValid(env, JobTree(env, jobs).value, order[i]);
    }
    forall i, j | 0 <= i < j < |order| ensures order[i].parentJob != order[j].name {
      assert FirstOf(issued, i, "");
    }
  }

  /** The databases of a replay without a failure. */
  function DatabasesOf(env: Env, v: LeaderView, jobs: seq<Job>, calls: nat -> Call): Databases {
    (n: nat) => if n <= |jobs| then After(LeaderHandler(env), v, jobs, calls, 0, n).db else EMPTY
  }

  lemma OkIsSetJob(env: Env, v: LeaderView, job: Job, call: Call)
    requires Valid(env, job) && SetJobCall(env, v, job, call).ok
    ensures Accepted(env, v.db, job)
    ensures SetJobCall(env, v, job, call).view.db == SetJob(env, call.clock, v.db, job, true).0
  {
  }

  lemma ReplayInTurn(env: Env, v: LeaderView, jobs: seq<Job>, calls: nat -> Call)
    requires InTurn(env, jobs) && CallsOk(LeaderHandler(env), v, jobs, calls, 0)
    ensures SetInTurn(env, jobs, calls, DatabasesOf(env, v, jobs, calls))
  {
    var dbs := DatabasesOf(env, v, jobs, calls);
    forall i | 0 <= i < |jobs| ensures SetAt(env, jobs, calls, dbs, i) {
      ReplaySetAt(env, v, jobs, calls, i);
    }
  }

  lemma ReplaySetAt(env: Env, v: LeaderView, jobs: seq<Job>, calls: nat -> Call, i: nat)
    requires InTurn(env, jobs) && CallsOk(LeaderHandler(env), v, jobs, calls, 0) && i < |jobs|
    ensures SetAt(env, jobs, calls, DatabasesOf(env, v, jobs, calls), i)
  {
    var now := After(LeaderHandler(env), v, jobs, calls, 0, i);
    AfterOne(env, v, jobs, calls, i, now);
    SetWhenOk(env, jobs, calls, DatabasesOf(env, v, jobs, calls), i, now);
  }

  lemma AfterOne(env: Env, v: LeaderView, jobs: seq<Job>, calls: nat -> Call, i: nat, now: LeaderView)
    requires i < |jobs| && now == After(LeaderHandler(env), v, jobs, calls, 0, i)
    requires CallsOk(LeaderHandler(env), v, jobs, calls, 0)
    ensures After(LeaderHandler(env), v, jobs, calls, 0, i + 1) == SetJobCall(env, now, jobs[i], calls(i)).view
    ensures SetJobCall(env, now, jobs[i], calls(i)).ok
  {
    assert CallOk(LeaderHandler(env), v, jobs, calls, 0, i);
  }

  lemma SetWhenOk(env: Env, jobs: seq<Job>, calls: nat -> Call, dbs: Databases, i: nat, now: LeaderView)
    requires i < |jobs| && Valid(env, jobs[i]) && SetJobCall(env, now, jobs[i], calls(i)).ok
    requires dbs(i) == now.db && dbs(i + 1) == SetJobCall(env, now, jobs[i], calls(i)).view.db
    ensures SetAt(env, jobs, calls, dbs, i)
  {
    OkIsSetJob(env, now, jobs[i], calls(i));
  }

  /** Replayed without a failure into any leader with exact lists, a backup leaves exact lists if and only
      if no call takes over a list. That can be told beforehand: each job that brings a list is stored with
      some child that is not set before it. */
  lemma RestoresExactIff(env: Env, jobs: seq<Job>, v: LeaderView, calls: nat -> Call)
    requires DistinctNames(jobs) && JobTree(env, jobs).Some? && Exact(env, v.db)
    requires AllOk(Replay(LeaderHandler(env), v, JobTree(env, jobs).value, calls, 0).issued)
    ensures var order := Preorder(JobTree(env, jobs).value);
            var after := Replay(LeaderHandler(env), v, JobTree(env, jobs).value, calls, 0).view.db;
            var dbs := DatabasesOf(env, v, order, calls);
            && (Exact(env, after) <==> forall i | 0 <= i < |order| :: !TakesOver(order, dbs, i))
            && (Exact(env, after) <==> forall i | 0 <= i < |order| :: KeepsList(v.db.jobs, order, i))
  {
    var forest, handle := JobTree(env, jobs).value, LeaderHandler(env);
    var order, replay := Preorder(forest), Replay(handle, v, forest, calls, 0);
    ReplayPlays(handle, calls);
    ReplaySets(handle, Replaying(handle, calls), v, forest, calls, 0);
    ForestShape(env, jobs);
    ReplayParentsFirst(handle, v, forest, calls, 0, "");
    ForestInTurn(env, jobs, replay.issued);
    ReplayInTurn(env, v, order, calls);
    SequenceIff(env, order, calls, DatabasesOf(env, v, order, calls));
  }

  /** In particular, where none of its jobs is stored, if and only if none of them brings a list. */
  lemma NewRestoresExactIff(env: Env, jobs: seq<Job>, v: LeaderView, calls: nat -> Call)
    requires DistinctNames(jobs) && JobTree(env, jobs).Some?
    requires Exact(env, v.db) && forall i | 0 <= i < |jobs| :: jobs[i].name !in v.db.jobs
    requires AllOk(Replay(LeaderHandler(env), v, JobTree(env, jobs).value, calls, 0).issued)
    ensures Exact(env, Replay(LeaderHandler(env), v, JobTree(env, jobs).value, calls, 0).view.db) <==>
            forall i | 0 <= i < |jobs| :: jobs[i].dependentJobs == []
  {
    RestoresExactIff(env, jobs, v, calls);
    NewKeepsIff(env, jobs, Preorder(JobTree(env, jobs).value), v.db);
  }

  lemma NewKeepsIff(env: Env, jobs: seq<Job>, order: seq<Job>, db: Db)
    requires DistinctNames(jobs) && JobTree(env, jobs).Some? && order == Preorder(JobTree(env, jobs).value)
    requires Sound(env, db) && forall i | 0 <= i < |jobs| :: jobs[i].name !in db.jobs
    ensures (forall i | 0 <= i < |order| :: KeepsList(db.jobs, order, i)) <==>
            forall i | 0 <= i < |jobs| :: jobs[i].dependentJobs == []
  {
    PreorderIs(env, jobs);
    forall i | 0 <= i < |order| ensures KeepsList(db.jobs, order, i) <==> order[i].dependentJobs == [] {
      assert order[i] in jobs;
      PreorderNamed(env, jobs, order[i]);
      NewKeepsAt(env, db, order, i);
    }
    SameConditions(db.jobs, order);
    SameMembers(order, jobs);
  }

  lemma PreorderNamed(env: Env, jobs: seq<Job>, job: Job)
    requires DistinctNames(jobs) && JobTree(env, jobs).Some? && job in Preorder(JobTree(env, jobs).value)
    ensures job.name != ""
  {
    ForestShape(env, jobs);
    PreorderValid(env, JobTree(env, jobs).value, job);
  }

  lemma NewKeepsAt(env: Env, db: Db, order: seq<Job>, i: nat)
    requires Sound(env, db) && i < |order| && order[i].name !in db.jobs && order[i].name != ""
    ensures KeepsList(db.jobs, order, i) <==> order[i].dependentJobs == []
  {
    NoChildren(env, db, order[i].name);
  }

  lemma SameConditions(stored: map<string, Job>, order: seq<Job>)
    requires forall i | 0 <= i < |order| :: KeepsList(stored, order, i) <==> order[i].dependentJobs == []
    ensures (forall i | 0 <= i < |order| :: KeepsList(stored, order, i)) <==>
            forall i | 0 <= i < |order| :: order[i].dependentJobs == []
  {
    if forall i | 0 <= i < |order| :: KeepsList(stored, order, i) {
      forall i | 0 <= i < |order| ensures order[i].dependentJobs == [] {
        assert KeepsList(stored, order, i);
      }
    }
  }

  lemma SameMembers(a: seq<Job>, b: seq<Job>)
    requires forall job :: job in a <==> job in b
    ensures (forall i | 0 <= i < |a| :: a[i].dependentJobs == []) <==>
            forall i | 0 <= i < |b| :: b[i].dependentJobs == []
  {
    ListlessMembers(a);
    ListlessMembers(b);
  }

  lemma ListlessMembers(jobs: seq<Job>)
    ensures (forall i | 0 <= i < |jobs| :: jobs[i].dependentJobs == []) <==>
            forall job | job in jobs :: job.dependentJobs == []
  {
    if forall job | job in jobs :: job.dependentJobs == [] {
      forall i | 0 <= i < |jobs| ensures jobs[i].dependentJobs == [] {
        assert jobs[i] in jobs;
      }
    }
  }

  lemma NoChildren(env: Env, db: Db, name: string)
    requires Sound(env, db) && name !in db.jobs && name != ""
    ensures forall c :: !IsChild(db.jobs, c, name)
  {
  }
}
