/** The replay of a restored forest into the leader: recursiveSetJob, whatever the network does. */
module Restore {
  import opened Wrappers
  import opened Types
  import opened StoreSpec
  import opened Links
  import opened Forest
  import opened Scheduling
  import opened Leader
  import opened LeaderNode
  import InPlace = JobTree

  /** One SetJob call: whether Raft took the command, and whether the client saw an error although the
      handler gave none. */
  datatype Call = Call(committed: bool, lost: bool, clock: Clock)

  /** What the client sees of a call, and what it does to the leader. */
  datatype Effect = Effect(view: LeaderView, refused: bool, ok: bool)

  type Handler = (LeaderView, Job, Call) -> Effect

  function LeaderHandler(env: Env): Handler {
    (v: LeaderView, job: Job, call: Call) => SetJobCall(env, v, job, call)
  }

  function SetJobCall(env: Env, v: LeaderView, job: Job, call: Call): Effect {
    var refused := call.committed && Refused(StoreSpec.SetJob(env, call.clock, v.db, job, true).1);
    Effect(AfterSetJob(env, v, job, call.committed, call.clock), refused,
           call.committed && !call.lost && !refused && !AddFails(env, job))
  }

  datatype Issued = Issued(id: nat, job: Job, refused: bool, ok: bool)

  function IssuedFor(t: Tree, effect: Effect): Issued {
    Issued(t.id, t.job, effect.refused, effect.ok)
  }

  /** The leader after a replay, and the calls made in order. */
  datatype Outcome = Outcome(view: LeaderView, issued: seq<Issued>)

  /** The replay of a list of trees, its first call the k-th overall. A failed call skips the jobs below. */
  function Replay(handle: Handler, v: LeaderView, ts: seq<Tree>, calls: nat -> Call, k: nat): Outcome
    decreases ts, 0
  {
    if ts == [] then Outcome(v, [])
    else
      var effect := handle(v, ts[0].job, calls(k));
      var one := IssuedFor(ts[0], effect);
      var below := Below(handle, effect, ts[0].children, calls, k);
      var rest := Replay(handle, below.view, ts[1..], calls, k + 1 + |below.issued|);
      Outcome(rest.view, [one] + below.issued + rest.issued)
  }

  function Below(handle: Handler, effect: Effect, children: seq<Tree>, calls: nat -> Call, k: nat): Outcome
    decreases children, 1
  {
    if effect.ok then Replay(handle, effect.view, children, calls, k + 1) else Outcome(effect.view, [])
  }

  /** A handler is any function that agrees with the leader's SetJob; LeaderHandler(env) is one. */
  ghost predicate Serves(env: Env, handle: Handler) {
    forall v: LeaderView, job: Job, call: Call {:trigger SetJobCall(env, v, job, call)} ::
      handle(v, job, call) == SetJobCall(env, v, job, call)
  }

  lemma LeaderServes(env: Env)
    ensures Serves(env, LeaderHandler(env))
  {
  }

  type Player = (LeaderView, seq<Tree>, nat) -> Outcome

  function Replaying(handle: Handler, calls: nat -> Call): Player {
    (v: LeaderView, ts: seq<Tree>, k: nat) => Replay(handle, v, ts, calls, k)
  }

  /** Satisfies the equation of Replay; Replaying(handle, calls) is the one such function. */
  ghost predicate Plays(handle: Handler, calls: nat -> Call, play: Player) {
    forall v: LeaderView, ts: seq<Tree>, k: nat {:trigger PlaysAt(handle, calls, play, v, ts, k)} ::
      PlaysAt(handle, calls, play, v, ts, k)
  }

  ghost predicate PlaysAt(handle: Handler, calls: nat -> Call, play: Player, v: LeaderView, ts: seq<Tree>, k: nat) {
    if ts == [] then play(v, ts, k) == Outcome(v, [])
    else
      var effect := handle(v, ts[0].job, calls(k));
      var below := PlayedBelow(play, effect, ts[0].children, k);
      var rest := play(below.view, ts[1..], k + 1 + |below.issued|);
      play(v, ts, k) == Outcome(rest.view, [IssuedFor(ts[0], effect)] + below.issued + rest.issued)
  }

  ghost function PlayedBelow(play: Player, effect: Effect, children: seq<Tree>, k: nat): Outcome {
    if effect.ok then play(effect.view, children, k + 1) else Outcome(effect.view, [])
  }

  lemma ReplayPlays(handle: Handler, calls: nat -> Call)
    ensures Plays(handle, calls, Replaying(handle, calls))
  {
    var play := Replaying(handle, calls);
    forall v: LeaderView, ts: seq<Tree>, k: nat
      ensures PlaysAt(handle, calls, play, v, ts, k)
    {
      if ts != [] {
        var effect := handle(v, ts[0].job, calls(k));
        assert PlayedBelow(play, effect, ts[0].children, k) == Below(handle, effect, ts[0].children, calls, k);
      }
    }
  }

  /** The objects of the region look like the trees, and stay as they are. */
  method RecursiveSetJob(node: Node, ghost handle: Handler, ghost play: Player, jobs: seq<InPlace.JobNode>,
                         ghost ts: seq<Tree>, ghost region: set<InPlace.JobNode>, calls: nat -> Call, k: nat)
    returns (result: seq<(string, bool)>, next: nat)
    requires InPlace.Shape(InPlace.KidsOf(region), jobs, ts)
    requires node.Valid() && ValidEnv(node.env) && Serves(node.env, handle) && Plays(handle, calls, play)
    modifies node.store, node.sched
    ensures node.Valid()
    ensures var replay := play(old(node.View()), ts, k);
            && node.View() == replay.view && next == k + |replay.issued|
            && result == Reported(replay.issued)
    decreases ts, 0
  {
    result, next := [], k;
    ghost var kids, played := InPlace.KidsOf(region), play(node.View(), ts, k);
    ghost var issued: seq<Issued> := [];
    assert jobs[0..] == jobs && ts[0..] == ts;
    for i := 0 to |jobs|
      invariant node.Valid() && next == k + |issued| && result == Reported(issued)
      invariant InPlace.KidsOf(region) == kids && InPlace.Shape(kids, jobs[i..], ts[i..])
      invariant GoesOn(play, node.View(), ts, i, next, issued, played)
    {
      ShapeStep(kids, jobs, ts, i);
      ghost var v := node.View();
      var lines;
      ghost var one, below;
      lines, next, one, below := SetOne(node, handle, play, jobs[i], ts[i], region, calls, next);
      result := result + lines;
      issued := PlayStep(handle, calls, play, v, ts, i, next, issued, played, one, below);
    }
    PlayEnds(handle, calls, play, node.View(), ts, next, issued, played);
  }

  /** What is still to be played completes what has been issued. */
  ghost predicate GoesOn(play: Player, v: LeaderView, ts: seq<Tree>, i: nat, k: nat, issued: seq<Issued>,
                         played: Outcome)
    requires i <= |ts|
  {
    var rest := play(v, ts[i..], k);
    played == Outcome(rest.view, issued + rest.issued)
  }

  lemma PlayEnds(handle: Handler, calls: nat -> Call, play: Player, v: LeaderView, ts: seq<Tree>, k: nat,
                 issued: seq<Issued>, played: Outcome)
    requires Plays(handle, calls, play) && GoesOn(play, v, ts, |ts|, k, issued, played)
    ensures played == Outcome(v, issued)
  {
    assert PlaysAt(handle, calls, play, v, ts[|ts|..], k);
  }

  lemma ShapeStep(kids: InPlace.Kids, jobs: seq<InPlace.JobNode>, ts: seq<Tree>, i: nat)
    requires i < |jobs| == |ts| && InPlace.Shape(kids, jobs[i..], ts[i..])
    ensures jobs[i] in kids && jobs[i].job == ts[i].job && InPlace.Shape(kids, kids[jobs[i]], ts[i].children)
    ensures InPlace.Shape(kids, jobs[i + 1..], ts[i + 1..])
  {
    assert jobs[i..][0] == jobs[i] && jobs[i..][1..] == jobs[i + 1..];
    assert ts[i..][0] == ts[i] && ts[i..][1..] == ts[i + 1..];
  }

  lemma PlayStep(handle: Handler, calls: nat -> Call, play: Player, v: LeaderView, ts: seq<Tree>, i: nat, next: nat,
                 issued: seq<Issued>, played: Outcome, one: Issued, below: Outcome)
    returns (more: seq<Issued>)
    requires Plays(handle, calls, play) && i < |ts| && next >= 1 + |below.issued|
    requires var k := next - 1 - |below.issued|;
             var effect := handle(v, ts[i].job, calls(k));
             && one == IssuedFor(ts[i], effect) && below == PlayedBelow(play, effect, ts[i].children, k)
             && GoesOn(play, v, ts, i, k, issued, played)
    ensures GoesOn(play, below.view, ts, i + 1, next, more, played) && |more| == |issued| + 1 + |below.issued|
    ensures Reported(more) == Reported(issued) + ([(one.job.name, one.ok)] + Reported(below.issued))
  {
    assert PlaysAt(handle, calls, play, v, ts[i..], next - 1 - |below.issued|);
    assert ts[i..][0] == ts[i] && ts[i..][1..] == ts[i + 1..];
    var rest := play(below.view, ts[i + 1..], next).issued;
    more := issued + [one] + below.issued;
    assert issued + ([one] + below.issued + rest) == more + rest;
  }

  /** The body of the loop: the call for one job and, if it went well, those for the jobs below. */
  method SetOne(node: Node, ghost handle: Handler, ghost play: Player, jobNode: InPlace.JobNode,
                ghost t: Tree, ghost region: set<InPlace.JobNode>, calls: nat -> Call, k: nat)
    returns (result: seq<(string, bool)>, next: nat, ghost one: Issued, ghost below: Outcome)
    requires jobNode in region && jobNode.job == t.job
    requires InPlace.Shape(InPlace.KidsOf(region), jobNode.childJobs, t.children)
    requires node.Valid() && ValidEnv(node.env) && Serves(node.env, handle) && Plays(handle, calls, play)
    modifies node.store, node.sched
    ensures node.Valid()
    ensures var effect := handle(old(node.View()), t.job, calls(k));
            one == IssuedFor(t, effect) && below == PlayedBelow(play, effect, t.children, k)
    ensures node.View() == below.view && next == k + 1 + |below.issued|
    ensures result == [(one.job.name, one.ok)] + Reported(below.issued)
    decreases t.children, 1
  {
    var job := jobNode.job;
    ghost var effect := handle(node.View(), job, calls(k));
    one, below := IssuedFor(t, effect), PlayedBelow(play, effect, t.children, k);
    var ok := IssueSetJob(node, handle, job, calls(k));
    next := k + 1;
    if !ok {
      result := [(job.name, false)];
    } else {
      result := [(job.name, true)];
      if |jobNode.childJobs| > 0 {
        var recursiveResult;
        recursiveResult, next := RecursiveSetJob(node, handle, play, jobNode.childJobs, t.children, region, calls,
                                                 next);
        result := result + recursiveResult;
      } else {
        assert PlaysAt(handle, calls, play, node.View(), t.children, next);
      }
    }
  }

  method IssueSetJob(node: Node, ghost handle: Handler, job: Job, call: Call) returns (ok: bool)
    requires node.Valid() && ValidEnv(node.env) && Serves(node.env, handle)
    modifies node.store, node.sched
    ensures node.Valid()
    ensures var effect := handle(old(node.View()), job, call);
            node.View() == effect.view && ok == effect.ok
  {
    ghost var effect := SetJobCall(node.env, node.View(), job, call);
    ok := node.SetJob(job, call.committed, call.clock);
    ok := ok && !call.lost;
  }

  /** The lines of the report: job name and whether its call went well. */
  function Reported(issued: seq<Issued>): seq<(string, bool)> {
    seq(|issued|, i requires 0 <= i < |issued| => (issued[i].job.name, issued[i].ok))
  }

  // ----- One call -----

  ghost predicate InOrder(env: Env, v: LeaderView) {
    Linked(env, v.db) && InSync(v)
  }

  /** No call makes a stored job go. */
  ghost predicate NeverDrops(handle: Handler) {
    forall v: LeaderView, job: Job, call: Call, name: string {:trigger name in handle(v, job, call).view.db.jobs} ::
      name in v.db.jobs ==> name in handle(v, job, call).view.db.jobs
  }

  lemma LeaderNeverDrops(env: Env)
    ensures NeverDrops(LeaderHandler(env))
  {
    forall v: LeaderView, job: Job, call: Call, name: string | name in v.db.jobs
      ensures name in SetJobCall(env, v, job, call).view.db.jobs
    {
      CallKeepsName(env, v, job, call, name);
    }
  }

  lemma CallKeepsName(env: Env, v: LeaderView, job: Job, call: Call, name: string)
    requires name in v.db.jobs
    ensures name in SetJobCall(env, v, job, call).view.db.jobs
  {
    if Accepted(env, v.db, job) {
      AcceptedSetJob(env, call.clock, v.db, job);
      var merged := Merged(env, call.clock, Stored(v.db.jobs, job.name), job, true).value;
      RelinkedRest(v.db.jobs[job.name := merged], job.name, ParentOnRecord(v.db.jobs, job.name), job.parentJob);
    } else {
      RefusedSetJob(env, call.clock, v.db, job);
    }
  }

  lemma {:induction false} ReplayNeverDrops(handle: Handler, play: Player, v: LeaderView, ts: seq<Tree>,
                                            calls: nat -> Call, k: nat, name: string)
    requires NeverDrops(handle) && Plays(handle, calls, play) && name in v.db.jobs
    ensures name in play(v, ts, k).view.db.jobs
    decreases ts
  {
    assert PlaysAt(handle, calls, play, v, ts, k);
    if ts != [] {
      var effect := handle(v, ts[0].job, calls(k));
      assert name in effect.view.db.jobs;
      if effect.ok {
        ReplayNeverDrops(handle, play, effect.view, ts[0].children, calls, k + 1, name);
      }
      var below := PlayedBelow(play, effect, ts[0].children, k);
      ReplayNeverDrops(handle, play, below.view, ts[1..], calls, k + 1 + |below.issued|, name);
    }
  }

  /** Where all is in order, an accepted job is never refused, is stored when all goes well, and order
      is kept. */
  ghost predicate HandlesWell(env: Env, good: LeaderView -> bool, handle: Handler) {
    forall v: LeaderView, job: Job, call: Call {:trigger WellDone(job, handle(v, job, call), good)} ::
      good(v) && Accepted(env, v.db, job) ==> WellDone(job, handle(v, job, call), good)
  }

  ghost predicate WellDone(job: Job, effect: Effect, good: LeaderView -> bool) {
    && !effect.refused && good(effect.view)
    && (effect.ok ==> job.name in effect.view.db.jobs)
  }

  ghost function Order(env: Env): LeaderView -> bool {
    (v: LeaderView) => InOrder(env, v)
  }

  lemma LeaderHandlesWell(env: Env)
    requires AcceptsZones(env)
    ensures HandlesWell(env, Order(env), LeaderHandler(env))
  {
    forall v: LeaderView, job, call: Call | InOrder(env, v) && Accepted(env, v.db, job)
      ensures WellDone(job, SetJobCall(env, v, job, call), Order(env))
    {
      CallKeeps(env, v, job, call);
    }
  }

  lemma CallKeeps(env: Env, v: LeaderView, job: Job, call: Call)
    requires AcceptsZones(env) && InOrder(env, v) && Accepted(env, v.db, job)
    ensures var effect := SetJobCall(env, v, job, call);
            && !effect.refused && InOrder(env, effect.view)
            && (effect.ok ==> job.name in effect.view.db.jobs)
  {
    SetJobInSync(env, v, job, call.committed, call.clock);
    AcceptedSetJob(env, call.clock, v.db, job);
    var merged := Merged(env, call.clock, Stored(v.db.jobs, job.name), job, true).value;
    RelinkedRest(v.db.jobs[job.name := merged], job.name, ParentOnRecord(v.db.jobs, job.name), job.parentJob);
  }

  /** A call for a valid job goes well, as the client sees it, if and only if Raft takes the command, no error
      comes instead of the answer, and the parent is stored. */
  lemma GoesWellIff(env: Env, v: LeaderView, job: Job, call: Call)
    requires AcceptsZones(env) && Valid(env, job)
    ensures SetJobCall(env, v, job, call).ok <==>
              call.committed && !call.lost && (job.parentJob == "" || job.parentJob in v.db.jobs)
    ensures SetJobCall(env, v, job, call).refused <==>
              call.committed && job.parentJob != "" && job.parentJob !in v.db.jobs
  {
    ValidJobSchedules(env, job);
    if Accepted(env, v.db, job) {
      AcceptedSetJob(env, call.clock, v.db, job);
    }
  }

  // ----- The whole replay -----

  /** Each call is for a job whose parent is the one above, or was set by an earlier successful call. */
  ghost predicate ParentsFirst(issued: seq<Issued>, above: string) {
    forall i | 0 <= i < |issued| :: FirstOf(issued, i, above)
  }

  ghost predicate SetBefore(issued: seq<Issued>, i: nat, name: string)
    requires i <= |issued|
  {
    exists j | 0 <= j < i :: issued[j].ok && issued[j].job.name == name
  }

  lemma SetBeforeShifted(issued: seq<Issued>, all: seq<Issued>, shift: nat, i: nat, name: string)
    requires i <= |issued| && shift + |issued| <= |all| && all[shift..shift + |issued|] == issued
    requires SetBefore(issued, i, name)
    ensures SetBefore(all, shift + i, name)
  {
    var j :| 0 <= j < i && issued[j].ok && issued[j].job.name == name;
    assert all[shift + j] == issued[j];
  }

  ghost predicate FirstOf(issued: seq<Issued>, i: nat, above: string)
    requires i < |issued|
  {
    issued[i].job.parentJob == above || SetBefore(issued, i, issued[i].job.parentJob)
  }

  /** The same call in a longer list, where the one above is set as well. */
  lemma FirstShifted(issued: seq<Issued>, all: seq<Issued>, shift: nat, i: nat, under: string, above: string)
    requires i < |issued| && shift + |issued| <= |all| && all[shift..shift + |issued|] == issued
    requires FirstOf(issued, i, under) && (under == above || SetBefore(all, shift + i, under))
    ensures FirstOf(all, shift + i, above)
  {
    assert all[shift + i] == issued[i];
    if issued[i].job.parentJob != under {
      SetBeforeShifted(issued, all, shift, i, issued[i].job.parentJob);
    }
  }

  lemma ParentsFirstJoined(one: Issued, below: seq<Issued>, rest: seq<Issued>, above: string)
    requires one.job.parentJob == above
    requires if one.ok then ParentsFirst(below, one.job.name) else below == []
    requires ParentsFirst(rest, above)
    ensures ParentsFirst([one] + below + rest, above)
  {
    var all, b := [one] + below + rest, |below|;
    assert all[0] == one && all[1..1 + b] == below && all[1 + b..1 + b + |rest|] == rest;
    forall i | 0 <= i < |all| ensures FirstOf(all, i, above) {
      if 1 <= i <= b {
        FirstShifted(below, all, 1, i - 1, one.job.name, above);
      } else if i > b {
        FirstShifted(rest, all, 1 + b, i - 1 - b, above, above);
      }
    }
  }

  predicate NoneRefused(issued: seq<Issued>) {
    forall i | 0 <= i < |issued| :: !issued[i].refused
  }

  /** A part of a forest that hangs below one parent. */
  ghost predicate Hanging(env: Env, ts: seq<Tree>, above: string) {
    AllValid(env, ts) && LinksHold(ts) && ChildrenOf(ts, above)
  }

  type Shape = (seq<Tree>, string) -> bool

  ghost function HangingShape(env: Env): Shape {
    (ts: seq<Tree>, above: string) => Hanging(env, ts, above)
  }

  /** A shape that passes from a list of trees to the trees below the first one and to the rest. */
  ghost predicate Splits(env: Env, shape: Shape) {
    forall ts: seq<Tree>, above: string {:trigger SplitsAt(env, shape, ts, above)} ::
      ts != [] && shape(ts, above) ==> SplitsAt(env, shape, ts, above)
  }

  ghost predicate SplitsAt(env: Env, shape: Shape, ts: seq<Tree>, above: string)
    requires ts != []
  {
    && Valid(env, ts[0].job) && ts[0].job.parentJob == above
    && shape(ts[0].children, ts[0].job.name) && shape(ts[1..], above)
  }

  lemma HangingSplits(env: Env)
    ensures Splits(env, HangingShape(env))
  {
    forall ts: seq<Tree>, above: string | ts != [] && Hanging(env, ts, above)
      ensures SplitsAt(env, HangingShape(env), ts, above)
    {
      assert forall i | 0 <= i < |ts| - 1 :: ts[1..][i] == ts[i + 1];
    }
  }

  ghost predicate IsThere(v: LeaderView, above: string) {
    above != "" ==> above in v.db.jobs
  }

  /** The call for a job whose parent is there. */
  lemma HandledWell(env: Env, good: LeaderView -> bool, handle: Handler, v: LeaderView, job: Job, call: Call,
                    above: string)
    requires HandlesWell(env, good, handle) && NeverDrops(handle) && good(v)
    requires Valid(env, job) && job.parentJob == above && IsThere(v, above)
    ensures var effect := handle(v, job, call);
            && !effect.refused && good(effect.view) && IsThere(effect.view, above)
            && (effect.ok ==> IsThere(effect.view, job.name))
  {
    assert Accepted(env, v.db, job);
    assert WellDone(job, handle(v, job, call), good);
    assert above in v.db.jobs ==> above in handle(v, job, call).view.db.jobs;
  }

  ghost predicate GoesWell(played: Outcome, good: LeaderView -> bool) {
    good(played.view) && NoneRefused(played.issued)
  }

  /** Below one parent nothing is refused, and order is kept throughout. */
  lemma {:induction false} ReplayBelow(env: Env, good: LeaderView -> bool, shape: Shape, handle: Handler, play: Player,
                                       v: LeaderView, ts: seq<Tree>, calls: nat -> Call, k: nat, above: string)
    requires HandlesWell(env, good, handle) && NeverDrops(handle) && Plays(handle, calls, play)
    requires Splits(env, shape) && shape(ts, above) && good(v) && IsThere(v, above)
    ensures GoesWell(play(v, ts, k), good)
    decreases ts
  {
    assert PlaysAt(handle, calls, play, v, ts, k);
    if ts != [] {
      assert SplitsAt(env, shape, ts, above);
      HandledWell(env, good, handle, v, ts[0].job, calls(k), above);
      var effect := handle(v, ts[0].job, calls(k));
      var below := PlayedBelow(play, effect, ts[0].children, k);
      if effect.ok {
        ReplayBelow(env, good, shape, handle, play, effect.view, ts[0].children, calls, k + 1, ts[0].job.name);
        if above != "" {
          ReplayNeverDrops(handle, play, effect.view, ts[0].children, calls, k + 1, above);
        }
      }
      assert GoesWell(below, good);
      var rest := play(below.view, ts[1..], k + 1 + |below.issued|);
      ReplayBelow(env, good, shape, handle, play, below.view, ts[1..], calls, k + 1 + |below.issued|, above);
      NoneRefusedJoined(IssuedFor(ts[0], effect), below.issued, rest.issued);
    }
  }

  /** Parents go first whatever the calls do: the jobs below a job are tried only after it was set. */
  lemma {:induction false} ReplayParentsFirst(handle: Handler, v: LeaderView, ts: seq<Tree>, calls: nat -> Call, k: nat,
                                              above: string)
    requires LinksHold(ts) && ChildrenOf(ts, above)
    ensures ParentsFirst(Replay(handle, v, ts, calls, k).issued, above)
    decreases ts
  {
    if ts != [] {
      var effect := handle(v, ts[0].job, calls(k));
      var one := IssuedFor(ts[0], effect);
      if effect.ok {
        ReplayParentsFirst(handle, effect.view, ts[0].children, calls, k + 1, ts[0].job.name);
      }
      var below := Below(handle, effect, ts[0].children, calls, k);
      assert forall i | 0 <= i < |ts| - 1 :: ts[1..][i] == ts[i + 1];
      ReplayParentsFirst(handle, below.view, ts[1..], calls, k + 1 + |below.issued|, above);
      ParentsFirstJoined(one, below.issued, Replay(handle, below.view, ts[1..], calls, k + 1 + |below.issued|).issued,
                         above);
    }
  }

  lemma NoneRefusedJoined(one: Issued, below: seq<Issued>, rest: seq<Issued>)
    requires !one.refused && NoneRefused(below) && NoneRefused(rest)
    ensures NoneRefused([one] + below + rest)
  {
  }

  // ----- Every job once -----

  function Calls(issued: seq<Issued>, p: (nat, Job) -> bool): nat {
    if issued == [] then 0 else (if p(issued[0].id, issued[0].job) then 1 else 0) + Calls(issued[1..], p)
  }

  predicate AllOk(issued: seq<Issued>) {
    forall i | 0 <= i < |issued| :: issued[i].ok
  }

  lemma {:induction false} CallsAppend(a: seq<Issued>, b: seq<Issued>, p: (nat, Job) -> bool)
    ensures Calls(a + b, p) == Calls(a, p) + Calls(b, p)
  {
    if a == [] {
      assert a + b == b;
    } else {
      CallsAppend(a[1..], b, p);
      assert (a + b)[1..] == a[1..] + b;
    }
  }

  lemma OkJoined(one: Issued, below: seq<Issued>, rest: seq<Issued>)
    requires AllOk([one] + below + rest)
    ensures one.ok && AllOk(below) && AllOk(rest)
  {
    var all := [one] + below + rest;
    assert all[0] == one;
    assert forall i | 0 <= i < |below| :: all[i + 1] == below[i];
    assert forall i | 0 <= i < |rest| :: all[i + 1 + |below|] == rest[i];
  }

  /** Without failures the calls are the nodes of the forest, each once. */
  lemma {:induction false} ReplayCounts(handle: Handler, v: LeaderView, ts: seq<Tree>, calls: nat -> Call, k: nat,
                                        p: (nat, Job) -> bool)
    requires AllOk(Replay(handle, v, ts, calls, k).issued)
    ensures Calls(Replay(handle, v, ts, calls, k).issued, p) == Tally(ts, p)
    decreases ts
  {
    if ts != [] {
      var effect := handle(v, ts[0].job, calls(k));
      var one := IssuedFor(ts[0], effect);
      var below := Below(handle, effect, ts[0].children, calls, k);
      var rest := Replay(handle, below.view, ts[1..], calls, k + 1 + |below.issued|).issued;
      OkJoined(one, below.issued, rest);
      ReplayCounts(handle, effect.view, ts[0].children, calls, k + 1, p);
      ReplayCounts(handle, below.view, ts[1..], calls, k + 1 + |below.issued|, p);
      CallsAppend([one] + below.issued, rest, p);
      CallsAppend([one], below.issued, p);
    }
  }

  // ----- Which jobs are called -----

  /** A call for a job of this name went well. */
  ghost predicate WentWell(issued: seq<Issued>, name: string) {
    exists k | 0 <= k < |issued| :: issued[k].ok && issued[k].job.name == name
  }

  /** Whatever fails, no node is called that is not in the forest, and none more often. */
  lemma {:induction false} ReplayWithin(handle: Handler, play: Player, v: LeaderView, ts: seq<Tree>,
                                        calls: nat -> Call, k: nat, p: (nat, Job) -> bool)
    requires Plays(handle, calls, play)
    ensures Calls(play(v, ts, k).issued, p) <= Tally(ts, p)
    decreases ts
  {
    assert PlaysAt(handle, calls, play, v, ts, k);
    if ts != [] {
      var effect := handle(v, ts[0].job, calls(k));
      var one, below := IssuedFor(ts[0], effect), PlayedBelow(play, effect, ts[0].children, k);
      var rest := play(below.view, ts[1..], k + 1 + |below.issued|).issued;
      if effect.ok {
        ReplayWithin(handle, play, effect.view, ts[0].children, calls, k + 1, p);
      }
      ReplayWithin(handle, play, below.view, ts[1..], calls, k + 1 + |below.issued|, p);
      CallsJoined(one, below.issued, rest, p);
    }
  }

  lemma CallsJoined(one: Issued, below: seq<Issued>, rest: seq<Issued>, p: (nat, Job) -> bool)
    ensures Calls([one] + below + rest, p) == (if p(one.id, one.job) then 1 else 0) + Calls(below, p) + Calls(rest, p)
  {
    CallsAppend([one] + below, rest, p);
    CallsAppend([one], below, p);
    assert [one][1..] == [];
  }

  lemma WentWellJoined(one: Issued, below: seq<Issued>, rest: seq<Issued>, name: string)
    ensures WentWell([one] + below + rest, name) <==>
              (one.ok && one.job.name == name) || WentWell(below, name) || WentWell(rest, name)
  {
    var all := [one] + below + rest;
    assert all[0] == one;
    assert forall i | 0 <= i < |below| :: all[i + 1] == below[i];
    assert forall i | 0 <= i < |rest| :: all[i + 1 + |below|] == rest[i];
    if k :| 0 <= k < |all| && all[k].ok && all[k].job.name == name {
      assert all[k] == if k == 0 then one else if k <= |below| then below[k - 1] else rest[k - 1 - |below|];
    }
  }

  lemma {:induction false} WellIsCalled(issued: seq<Issued>, name: string)
    requires WentWell(issued, name)
    ensures Calls(issued, HasName(name)) > 0
  {
    if !(issued[0].ok && issued[0].job.name == name) {
      var k :| 0 <= k < |issued| && issued[k].ok && issued[k].job.name == name;
      assert issued[1..][k - 1] == issued[k];
      WellIsCalled(issued[1..], name);
    }
  }

  /** No call for a job of this name went well if the name is not in the trees. */
  ghost predicate NotOutside(issued: seq<Issued>, ts: seq<Tree>, name: string) {
    WentWell(issued, name) ==> Tally(ts, HasName(name)) > 0
  }

  lemma CalledWithin(handle: Handler, play: Player, v: LeaderView, ts: seq<Tree>, calls: nat -> Call, k: nat,
                     name: string)
    requires Plays(handle, calls, play)
    ensures NotOutside(play(v, ts, k).issued, ts, name)
  {
    ReplayWithin(handle, play, v, ts, calls, k, HasName(name));
    if WentWell(play(v, ts, k).issued, name) {
      WellIsCalled(play(v, ts, k).issued, name);
    }
  }

  lemma {:induction false} ParentWithin(ts: seq<Tree>, above: string, id: nat, job: Job)
    requires LinksHold(ts) && ChildrenOf(ts, above) && Tally(ts, Is(id, job)) > 0
    ensures job.parentJob == above || Tally(ts, HasName(job.parentJob)) > 0
    ensures Tally(ts, HasName(job.name)) > 0
  {
    if Tally(ts[0].children, Is(id, job)) > 0 {
      ParentWithin(ts[0].children, ts[0].job.name, id, job);
    } else if Tally(ts[1..], Is(id, job)) > 0 {
      assert forall i | 0 <= i < |ts| - 1 :: ts[1..][i] == ts[i + 1];
      ParentWithin(ts[1..], above, id, job);
    }
  }

  /** Trees below one job, under names that occur once, its own not among them. */
  ghost predicate NamedOnce(ts: seq<Tree>, above: string) {
    && LinksHold(ts) && ChildrenOf(ts, above) && Tally(ts, HasName(above)) == 0
    && forall n :: Tally(ts, HasName(n)) <= 1
  }

  lemma NamedOnceParts(ts: seq<Tree>, above: string)
    requires NamedOnce(ts, above) && ts != []
    ensures NamedOnce(ts[0].children, ts[0].job.name) && NamedOnce(ts[1..], above)
  {
    NamesApart(ts, above);
    assert forall i | 0 <= i < |ts| - 1 :: ts[1..][i] == ts[i + 1];
  }

  lemma NamesApart(ts: seq<Tree>, above: string)
    requires NamedOnce(ts, above) && ts != []
    ensures Tally(ts[0].children, HasName(ts[0].job.name)) == 0
    ensures forall n :: Tally(ts[0].children, HasName(n)) <= 1 && Tally(ts[1..], HasName(n)) <= 1
    ensures Tally(ts[1..], HasName(ts[0].job.name)) == 0
    ensures forall n | Tally(ts[0].children, HasName(n)) > 0 :: Tally(ts[1..], HasName(n)) == 0 && n != ts[0].job.name
  {
    assert Tally(ts, HasName(ts[0].job.name)) <= 1;
    forall n
      ensures Tally(ts[0].children, HasName(n)) + Tally(ts[1..], HasName(n))
              + (if ts[0].job.name == n then 1 else 0) <= 1
    {
      assert Tally(ts, HasName(n)) <= 1;
    }
  }

  /** How often a job is called: as often as it occurs if it is right below, or its parent's call went well. */
  ghost predicate CalledRight(issued: seq<Issued>, ts: seq<Tree>, above: string, id: nat, job: Job) {
    Calls(issued, Is(id, job)) ==
      if job.parentJob == above || WentWell(issued, job.parentJob) then Tally(ts, Is(id, job)) else 0
  }

  lemma CalledParts(one: Issued, below: seq<Issued>, rest: seq<Issued>, ts: seq<Tree>, above: string, id: nat, job: Job)
    requires ts != [] && NamedOnce(ts, above) && one.id == ts[0].id && one.job == ts[0].job
    requires if one.ok then CalledRight(below, ts[0].children, ts[0].job.name, id, job) else below == []
    requires CalledRight(rest, ts[1..], above, id, job)
    requires NotOutside(below, ts[0].children, job.parentJob) && NotOutside(rest, ts[1..], job.parentJob)
    ensures CalledRight([one] + below + rest, ts, above, id, job)
  {
    NamedOnceParts(ts, above);
    NamesApart(ts, above);
    CallsJoined(one, below, rest, Is(id, job));
    WentWellJoined(one, below, rest, job.parentJob);
    if Tally(ts[0].children, Is(id, job)) > 0 {
      ParentWithin(ts[0].children, ts[0].job.name, id, job);
    }
    if Tally(ts[1..], Is(id, job)) > 0 {
      ParentWithin(ts[1..], above, id, job);
    }
  }

  lemma {:induction false} ReplayCalls(handle: Handler, play: Player, v: LeaderView, ts: seq<Tree>, calls: nat -> Call,
                                       k: nat, above: string, id: nat, job: Job)
    requires Plays(handle, calls, play) && NamedOnce(ts, above)
    ensures CalledRight(play(v, ts, k).issued, ts, above, id, job)
    decreases ts
  {
    assert PlaysAt(handle, calls, play, v, ts, k);
    if ts != [] {
      var effect, children := handle(v, ts[0].job, calls(k)), ts[0].children;
      var one, below := IssuedFor(ts[0], effect), PlayedBelow(play, effect, children, k);
      var next := k + 1 + |below.issued|;
      var rest := play(below.view, ts[1..], next).issued;
      NamedOnceParts(ts, above);
      if effect.ok {
        ReplayCalls(handle, play, effect.view, children, calls, k + 1, ts[0].job.name, id, job);
        CalledWithin(handle, play, effect.view, children, calls, k + 1, job.parentJob);
      }
      ReplayCalls(handle, play, below.view, ts[1..], calls, next, above, id, job);
      CalledWithin(handle, play, below.view, ts[1..], calls, next, job.parentJob);
      CalledParts(one, below.issued, rest, ts, above, id, job);
    }
  }

  /** Whatever calls fail, a job of the backup is called exactly once if it has no parent or its parent's call
      went well, and otherwise not at all: so exactly those whose ancestors' calls all went well. */
  lemma CalledIff(env: Env, jobs: seq<Job>, v: LeaderView, calls: nat -> Call, i: nat)
    requires DistinctNames(jobs) && JobTree(env, jobs).Some? && i < |jobs|
    ensures var issued := Replay(LeaderHandler(env), v, JobTree(env, jobs).value, calls, 0).issued;
            Calls(issued, Is(i, jobs[i])) ==
              if jobs[i].parentJob == "" || WentWell(issued, jobs[i].parentJob) then 1 else 0
  {
    var forest, handle := JobTree(env, jobs).value, LeaderHandler(env);
    ForestShape(env, jobs);
    ForestNamedOnce(env, jobs);
    ReplayPlays(handle, calls);
    ReplayCalls(handle, Replaying(handle, calls), v, forest, calls, 0, "", i, jobs[i]);
  }

  lemma ForestNamedOnce(env: Env, jobs: seq<Job>)
    requires DistinctNames(jobs) && JobTree(env, jobs).Some?
    ensures NamedOnce(JobTree(env, jobs).value, "")
  {
    var forest := JobTree(env, jobs).value;
    ForestShape(env, jobs);
    GrowStage(env, jobs);
    forall n ensures Tally(forest, HasName(n)) <= 1 {
      assert Tally(forest, HasName(n)) == Tally(Leaves(jobs), HasName(n));
      if jobs == [] {
        assert Leaves(jobs) == [];
      } else {
        LeavesOnce(jobs, 0, n, jobs[0]);
      }
    }
    NoEmptyName(env, forest);
  }

  lemma {:induction false} NoEmptyName(env: Env, ts: seq<Tree>)
    requires AllValid(env, ts)
    ensures Tally(ts, HasName("")) == 0
  {
    if ts != [] {
      NoEmptyName(env, ts[0].children);
      NoEmptyName(env, ts[1..]);
    }
  }

  /** Any backup that builds a forest replays into a leader in good order, whatever calls get lost:
      parents before children, no call refused for a missing parent, links and scheduler in order
      afterwards; and if no call fails each job of the backup is set exactly once. */
  lemma RestoreTheorem(env: Env, jobs: seq<Job>, v: LeaderView, calls: nat -> Call)
    requires AcceptsZones(env) && InOrder(env, v)
    requires DistinctNames(jobs) && JobTree(env, jobs).Some?
    ensures var replay := Replay(LeaderHandler(env), v, JobTree(env, jobs).value, calls, 0);
            var issued := replay.issued;
            && InOrder(env, replay.view)
            && NoneRefused(issued) && ParentsFirst(issued, "")
            && (AllOk(issued) ==>
                  && Calls(issued, Any()) == |jobs|
                  && forall i | 0 <= i < |jobs| :: Calls(issued, Is(i, jobs[i])) == 1)
  {
    var forest, handle := JobTree(env, jobs).value, LeaderHandler(env);
    ForestShape(env, jobs);
    LeaderHandlesWell(env);
    LeaderNeverDrops(env);
    HangingSplits(env);
    ReplayPlays(handle, calls);
    ReplayBelow(env, Order(env), HangingShape(env), handle, Replaying(handle, calls), v, forest, calls, 0, "");
    ReplayParentsFirst(handle, v, forest, calls, 0, "");
    var issued := Replay(handle, v, forest, calls, 0).issued;
    if AllOk(issued) {
      ReplayCounts(handle, v, forest, calls, 0, Any());
      forall i | 0 <= i < |jobs| ensures Calls(issued, Is(i, jobs[i])) == 1 {
        ReplayCounts(handle, v, forest, calls, 0, Is(i, jobs[i]));
      }
    }
  }

  /** The restore handler on the objects read from the file: they are linked into a forest, and nothing
      happens to the leader when they make none. */
  method Restore(node: Node, jobs: seq<InPlace.JobNode>, calls: nat -> Call)
    returns (result: Option<seq<(string, bool)>>)
    requires node.Valid() && ValidEnv(node.env)
    requires forall i | 0 <= i < |jobs| :: jobs[i].id == i && jobs[i].childJobs == []
    modifies node.store, node.sched, InPlace.Region(jobs)
    ensures node.Valid()
    ensures match JobTree(node.env, InPlace.JobsOf(jobs))
            case None => result == None && node.View() == old(node.View())
            case Some(forest) =>
              var replay := Replay(LeaderHandler(node.env), old(node.View()), forest, calls, 0);
              node.View() == replay.view && result == Some(Reported(replay.issued))
  {
    ghost var handle := LeaderHandler(node.env);
    var jobTree := InPlace.GenerateJobTree(node.env, jobs);
    if jobTree.None? {
      return None;
    }
    ghost var forest := JobTree(node.env, InPlace.JobsOf(jobs)).value;
    LeaderServes(node.env);
    ReplayPlays(handle, calls);
    var lines, _ := RecursiveSetJob(node, handle, Replaying(handle, calls), jobTree.value, forest,
                                    InPlace.Region(jobs), calls, 0);
    return Some(lines);
  }
}
