/** The forest that a restore builds from the flat list of a backup: what generateJobTree computes,
    on values, and when it succeeds. JobTree.dfy proves the in-place construction against it. */
module Forest {
  import opened Wrappers
  import opened Types

  /** A job of the list (by position) with the jobs attached below it. */
  datatype Tree = Node(id: nat, job: Job, children: seq<Tree>)

  function Leaves(jobs: seq<Job>): (ts: seq<Tree>)
    ensures |ts| == |jobs|
  {
    seq(|jobs|, i requires 0 <= i < |jobs| => Node(i, jobs[i], []))
  }

  /** The first node with this name, each node before the nodes below it. */
  function FirstNamed(ts: seq<Tree>, name: string): Option<nat> {
    if ts == [] then None
    else if ts[0].job.name == name then Some(ts[0].id)
    else
      var below := FirstNamed(ts[0].children, name);
      if below.Some? then below else FirstNamed(ts[1..], name)
  }

  /** The trees that may hold the parent of a job: those whose root has another name. */
  function Others(ts: seq<Tree>, name: string): seq<Tree> {
    if ts == [] then []
    else (if ts[0].job.name == name then [] else [ts[0]]) + Others(ts[1..], name)
  }

  /** Hang a tree under the node with this id. */
  function Graft(ts: seq<Tree>, id: nat, child: Tree): seq<Tree> {
    if ts == [] then []
    else
      var below := Graft(ts[0].children, id, child) + if ts[0].id == id then [child] else [];
      [Node(ts[0].id, ts[0].job, below)] + Graft(ts[1..], id, child)
  }

  function Spliced(ts: seq<Tree>, j: nat): seq<Tree>
    requires j < |ts|
  {
    ts[..j] + ts[j + 1..]
  }

  /** The trees, and the position of the next job to look at. */
  datatype Round = Round(trees: seq<Tree>, next: nat)

  /** One turn of the loop: None when the job at j is refused. */
  function NextRound(env: Env, ts: seq<Tree>, j: nat): (r: Option<Round>)
    requires j < |ts|
    ensures r.Some? ==> r.value.next + (|ts| - j - 1) == |r.value.trees|
  {
    if !Valid(env, ts[j].job) then None
    else if ts[j].job.parentJob == "" then Some(Round(ts, j + 1))
    else
      var parent := FirstNamed(Others(ts, ts[j].job.name), ts[j].job.parentJob);
      if parent.None? then None
      else
        GraftSize(Spliced(ts, j), parent.value, ts[j]);
        Some(Round(Graft(Spliced(ts, j), parent.value, ts[j]), j))
  }

  /** The trees after the given number of rounds, when the next job to look at is at j. */
  function Grow(env: Env, ts: seq<Tree>, j: nat, rounds: nat): Option<seq<Tree>>
    requires j + rounds == |ts|
    decreases rounds
  {
    if rounds == 0 then Some(ts)
    else
      var r := NextRound(env, ts, j);
      if r.None? then None else Grow(env, r.value.trees, r.value.next, rounds - 1)
  }

  function JobTree(env: Env, jobs: seq<Job>): Option<seq<Tree>> {
    Grow(env, Leaves(jobs), 0, |jobs|)
  }

  lemma {:induction false} GraftSize(ts: seq<Tree>, id: nat, child: Tree)
    ensures |Graft(ts, id, child)| == |ts|
    ensures forall i | 0 <= i < |ts| :: Graft(ts, id, child)[i].job == ts[i].job
  {
    if ts != [] {
      GraftSize(ts[1..], id, child);
    }
  }

  // ----- Counting nodes -----

  /** How many nodes satisfy p. */
  function Tally(ts: seq<Tree>, p: (nat, Job) -> bool): nat {
    if ts == [] then 0
    else (if p(ts[0].id, ts[0].job) then 1 else 0) + Tally(ts[0].children, p) + Tally(ts[1..], p)
  }

  function HasId(id: nat): (nat, Job) -> bool {
    (i: nat, job: Job) => i == id
  }

  function HasName(name: string): (nat, Job) -> bool {
    (i: nat, job: Job) => job.name == name
  }

  function Is(id: nat, job: Job): (nat, Job) -> bool {
    (i: nat, j: Job) => i == id && j == job
  }

  lemma {:induction false} TallyAppend(ts: seq<Tree>, us: seq<Tree>, p: (nat, Job) -> bool)
    ensures Tally(ts + us, p) == Tally(ts, p) + Tally(us, p)
  {
    if ts == [] {
      assert ts + us == us;
    } else {
      TallyAppend(ts[1..], us, p);
      assert (ts + us)[1..] == ts[1..] + us;
    }
  }

  lemma TallyMiddle(us: seq<Tree>, t: Tree, vs: seq<Tree>, p: (nat, Job) -> bool)
    ensures Tally(us + ([t] + vs), p) == Tally(us + vs, p) + Tally([t], p)
    ensures Tally(us + vs, p) == Tally(us, p) + Tally(vs, p)
  {
    TallyAppend(us, [t] + vs, p);
    TallyAppend([t], vs, p);
    TallyAppend(us, vs, p);
  }

  lemma CutAt(ts: seq<Tree>, j: nat)
    requires j < |ts|
    ensures ts == ts[..j] + ([ts[j]] + ts[j + 1..])
  {
  }

  lemma TallySplice(ts: seq<Tree>, j: nat, p: (nat, Job) -> bool)
    requires j < |ts|
    ensures Tally(ts, p) == Tally(Spliced(ts, j), p) + Tally([ts[j]], p)
  {
    CutAt(ts, j);
    TallyMiddle(ts[..j], ts[j], ts[j + 1..], p);
  }

  lemma {:induction false} GraftAbsent(ts: seq<Tree>, id: nat, child: Tree)
    requires Tally(ts, HasId(id)) == 0
    ensures Graft(ts, id, child) == ts
  {
    if ts != [] {
      GraftAbsent(ts[0].children, id, child);
      GraftAbsent(ts[1..], id, child);
      assert ts[0].children + [] == ts[0].children;
      assert ts == [ts[0]] + ts[1..];
    }
  }

  /** Hanging a tree under the one node with an id adds exactly the nodes of the tree. */
  lemma {:induction false} TallyGraft(ts: seq<Tree>, id: nat, child: Tree, p: (nat, Job) -> bool)
    requires Tally(ts, HasId(id)) == 1
    ensures Tally(Graft(ts, id, child), p) == Tally(ts, p) + Tally([child], p)
  {
    var first, rest := ts[0], ts[1..];
    if first.id == id {
      GraftAbsent(first.children, id, child);
      GraftAbsent(rest, id, child);
      TallyAppend(first.children, [child], p);
    } else if Tally(first.children, HasId(id)) == 1 {
      GraftAbsent(rest, id, child);
      TallyGraft(first.children, id, child, p);
      assert Graft(first.children, id, child) + [] == Graft(first.children, id, child);
    } else {
      GraftAbsent(first.children, id, child);
      TallyGraft(rest, id, child, p);
    }
  }

  lemma {:induction false} FirstNamedCounts(ts: seq<Tree>, name: string)
    ensures FirstNamed(ts, name).Some? <==> Tally(ts, HasName(name)) > 0
    ensures FirstNamed(ts, name).Some? ==> Tally(ts, HasId(FirstNamed(ts, name).value)) > 0
  {
    if ts != [] {
      FirstNamedCounts(ts[0].children, name);
      FirstNamedCounts(ts[1..], name);
    }
  }

  lemma {:induction false} OthersTally(ts: seq<Tree>, name: string, p: (nat, Job) -> bool)
    ensures Tally(Others(ts, name), p) <= Tally(ts, p)
  {
    if ts != [] {
      OthersTally(ts[1..], name, p);
      TallyAppend(if ts[0].job.name == name then [] else [ts[0]], Others(ts[1..], name), p);
    }
  }

  /** When no other root shares the name, the candidates are the trees without the job's own. */
  lemma OthersAreSpliced(ts: seq<Tree>, j: nat)
    requires j < |ts| && Tally(ts, HasName(ts[j].job.name)) <= 1
    ensures Others(ts, ts[j].job.name) == Spliced(ts, j)
  {
    CutAt(ts, j);
    OthersOfMiddle(ts[..j], ts[j], ts[j + 1..]);
  }

  lemma OthersOfMiddle(us: seq<Tree>, t: Tree, vs: seq<Tree>)
    requires Tally(us + ([t] + vs), HasName(t.job.name)) <= 1
    ensures Others(us + ([t] + vs), t.job.name) == us + vs
  {
    var name := t.job.name;
    TallyMiddle(us, t, vs, HasName(name));
    OthersKeepAll(us, name);
    OthersKeepAll(vs, name);
    OthersAppend(us, [t] + vs, name);
    OthersSkip(t, vs);
  }

  lemma OthersSkip(t: Tree, vs: seq<Tree>)
    ensures Others([t] + vs, t.job.name) == Others(vs, t.job.name)
  {
    assert ([t] + vs)[1..] == vs;
  }

  lemma {:induction false} OthersAppend(ts: seq<Tree>, us: seq<Tree>, name: string)
    ensures Others(ts + us, name) == Others(ts, name) + Others(us, name)
  {
    if ts == [] {
      assert ts + us == us;
    } else {
      var head := if ts[0].job.name == name then [] else [ts[0]];
      assert (ts + us)[0] == ts[0] && (ts + us)[1..] == ts[1..] + us;
      OthersAppend(ts[1..], us, name);
      assert Others(ts + us, name) == head + Others(ts[1..] + us, name);
      assert Others(ts, name) == head + Others(ts[1..], name);
    }
  }

  lemma {:induction false} OthersKeepAll(ts: seq<Tree>, name: string)
    requires Tally(ts, HasName(name)) == 0
    ensures Others(ts, name) == ts
  {
    if ts != [] {
      OthersKeepAll(ts[1..], name);
    }
  }

  // ----- Chains of parents -----

  function Parents(jobs: seq<Job>): map<string, string> {
    if jobs == [] then map[]
    else Parents(jobs[..|jobs| - 1])[jobs[|jobs| - 1].name := jobs[|jobs| - 1].parentJob]
  }

  /** Where a chain of parent links leads in d steps; None once it has left the list or ended. */
  function Up(parents: map<string, string>, name: string, d: nat): (r: Option<string>)
    ensures r.Some? ==> r.value in parents
    decreases d
  {
    if name !in parents then None
    else if d == 0 then Some(name)
    else if parents[name] == "" then None
    else Up(parents, parents[name], d - 1)
  }

  ghost predicate ReachesRoot(parents: map<string, string>, name: string) {
    exists d: nat :: Up(parents, name, d).Some? && parents[Up(parents, name, d).value] == ""
  }

  lemma {:induction false} UpFurther(parents: map<string, string>, name: string, d: nat, e: nat)
    ensures Up(parents, name, d + e) ==
            if Up(parents, name, d).Some? then Up(parents, Up(parents, name, d).value, e) else None
    decreases d
  {
    if d > 0 && name in parents && parents[name] != "" {
      UpFurther(parents, parents[name], d - 1, e);
    }
  }

  /** A chain that comes back to its start never reaches a root. */
  lemma {:induction false} NoCycle(parents: map<string, string>, name: string, d: nat, k: nat)
    requires d > 0 && Up(parents, name, d) == Some(name)
    ensures !(Up(parents, name, k).Some? && parents[Up(parents, name, k).value] == "")
    decreases k
  {
    if k < d {
      UpFurther(parents, name, k, d - k);
    } else {
      UpFurther(parents, name, d, k - d);
      NoCycle(parents, name, d, k - d);
    }
  }

  // ----- What every stage of the construction keeps -----

  predicate ChildrenOf(ts: seq<Tree>, name: string) {
    forall i | 0 <= i < |ts| :: ts[i].job.parentJob == name
  }

  /** Every child names the node above it as its parent. */
  predicate LinksHold(ts: seq<Tree>) {
    ts == [] ||
    (ChildrenOf(ts[0].children, ts[0].job.name) && LinksHold(ts[0].children) && LinksHold(ts[1..]))
  }

  predicate Consistent(ts: seq<Tree>, parents: map<string, string>) {
    ts == [] ||
    (&& ts[0].job.name in parents && parents[ts[0].job.name] == ts[0].job.parentJob
     && Consistent(ts[0].children, parents) && Consistent(ts[1..], parents))
  }

  predicate AllValid(env: Env, ts: seq<Tree>) {
    ts == [] || (Valid(env, ts[0].job) && AllValid(env, ts[0].children) && AllValid(env, ts[1..]))
  }

  /** Every node below the roots passed Validate. */
  predicate BelowValid(env: Env, ts: seq<Tree>) {
    ts == [] || (AllValid(env, ts[0].children) && BelowValid(env, ts[1..]))
  }

  predicate NamedIfId(ts: seq<Tree>, id: nat, name: string) {
    ts == [] ||
    ((ts[0].id == id ==> ts[0].job.name == name) && NamedIfId(ts[0].children, id, name) && NamedIfId(ts[1..], id, name))
  }

  lemma {:induction false} Appended(env: Env, parents: map<string, string>, ts: seq<Tree>, us: seq<Tree>)
    ensures LinksHold(ts + us) == (LinksHold(ts) && LinksHold(us))
    ensures Consistent(ts + us, parents) == (Consistent(ts, parents) && Consistent(us, parents))
    ensures AllValid(env, ts + us) == (AllValid(env, ts) && AllValid(env, us))
    ensures BelowValid(env, ts + us) == (BelowValid(env, ts) && BelowValid(env, us))
  {
    if ts == [] {
      assert ts + us == us;
    } else {
      Appended(env, parents, ts[1..], us);
      assert (ts + us)[1..] == ts[1..] + us;
    }
  }

  lemma {:induction false} GraftKeeps(env: Env, parents: map<string, string>, ts: seq<Tree>, id: nat, child: Tree,
                                      after: seq<Tree>)
    requires NamedIfId(ts, id, child.job.parentJob)
    requires LinksHold([child]) && Consistent([child], parents) && AllValid(env, [child])
    requires LinksHold(ts) && Consistent(ts, parents) && after == Graft(ts, id, child)
    ensures LinksHold(after) && Consistent(after, parents)
    ensures AllValid(env, ts) ==> AllValid(env, after)
    ensures BelowValid(env, ts) ==> BelowValid(env, after)
  {
    if ts != [] {
      var below, rest := Graft(ts[0].children, id, child), Graft(ts[1..], id, child);
      var hang := if ts[0].id == id then [child] else [];
      GraftKeeps(env, parents, ts[0].children, id, child, below);
      GraftKeeps(env, parents, ts[1..], id, child, rest);
      GraftSize(ts[0].children, id, child);
      Appended(env, parents, below, hang);
      assert after[1..] == rest;
      assert ChildrenOf(below + hang, ts[0].job.name);
    }
  }

  /** The id found for a name occurs once, so every node with that id has the name. */
  lemma {:induction false} FoundHasName(ts: seq<Tree>, name: string)
    requires FirstNamed(ts, name).Some?
    requires Tally(ts, HasId(FirstNamed(ts, name).value)) <= 1
    ensures NamedIfId(ts, FirstNamed(ts, name).value, name)
  {
    var id := FirstNamed(ts, name).value;
    var first, rest := ts[0], ts[1..];
    FirstNamedCounts(first.children, name);
    FirstNamedCounts(rest, name);
    if first.job.name == name {
      AbsentNamed(first.children, id, name);
      AbsentNamed(rest, id, name);
    } else if FirstNamed(first.children, name).Some? {
      FoundHasName(first.children, name);
      AbsentNamed(rest, id, name);
    } else {
      FoundHasName(rest, name);
      AbsentNamed(first.children, id, name);
    }
  }

  lemma {:induction false} AbsentNamed(ts: seq<Tree>, id: nat, name: string)
    requires Tally(ts, HasId(id)) == 0
    ensures NamedIfId(ts, id, name)
  {
    if ts != [] {
      AbsentNamed(ts[0].children, id, name);
      AbsentNamed(ts[1..], id, name);
    }
  }

  // ----- The stages of the construction -----

  function Any(): (nat, Job) -> bool {
    (i: nat, job: Job) => true
  }

  ghost predicate SameNodes(ts: seq<Tree>, us: seq<Tree>) {
    && Tally(ts, Any()) == Tally(us, Any())
    && (forall id :: Tally(ts, HasId(id)) == Tally(us, HasId(id)))
    && (forall name :: Tally(ts, HasName(name)) == Tally(us, HasName(name)))
    && (forall id, job :: Tally(ts, Is(id, job)) == Tally(us, Is(id, job)))
  }

  predicate RootsDone(env: Env, ts: seq<Tree>, j: nat)
    requires j <= |ts|
  {
    forall i | 0 <= i < j :: ts[i].job.parentJob == "" && Valid(env, ts[i].job)
  }

  /** The state of the loop when the next job to look at is at j. */
  ghost predicate Stage(env: Env, jobs: seq<Job>, ts: seq<Tree>, j: nat) {
    && j <= |ts|
    && SameNodes(ts, Leaves(jobs))
    && LinksHold(ts) && Consistent(ts, Parents(jobs)) && BelowValid(env, ts) && RootsDone(env, ts, j)
  }

  ghost predicate DistinctNames(jobs: seq<Job>) {
    forall i, j | 0 <= i < j < |jobs| :: jobs[i].name != jobs[j].name
  }

  lemma {:induction false} ParentsAt(jobs: seq<Job>, i: nat)
    requires DistinctNames(jobs) && i < |jobs|
    ensures jobs[i].name in Parents(jobs) && Parents(jobs)[jobs[i].name] == jobs[i].parentJob
  {
    var n := |jobs| - 1;
    if i < n {
      ParentsAt(jobs[..n], i);
    }
  }

  lemma {:induction false} ParentsOnly(jobs: seq<Job>, name: string)
    requires name in Parents(jobs)
    ensures exists i :: 0 <= i < |jobs| && jobs[i].name == name
  {
    var n := |jobs| - 1;
    if jobs[n].name != name {
      ParentsOnly(jobs[..n], name);
      var i :| 0 <= i < n && jobs[..n][i].name == name;
      assert jobs[i].name == name;
    }
  }

  lemma {:induction false} LeavesTally(jobs: seq<Job>, p: (nat, Job) -> bool)
    ensures jobs != [] ==>
              var n := |jobs| - 1;
              Tally(Leaves(jobs), p) == Tally(Leaves(jobs[..n]), p) + if p(n, jobs[n]) then 1 else 0
  {
    if jobs != [] {
      var n := |jobs| - 1;
      assert Leaves(jobs) == Leaves(jobs[..n]) + [Node(n, jobs[n], [])];
      TallyAppend(Leaves(jobs[..n]), [Node(n, jobs[n], [])], p);
    }
  }

  /** In the list itself each position, each name and each job occurs once. */
  lemma {:induction false} LeavesOnce(jobs: seq<Job>, id: nat, name: string, job: Job)
    requires DistinctNames(jobs)
    ensures Tally(Leaves(jobs), Any()) == |jobs|
    ensures Tally(Leaves(jobs), HasId(id)) == if id < |jobs| then 1 else 0
    ensures Tally(Leaves(jobs), HasName(name)) == if name in Parents(jobs) then 1 else 0
    ensures Tally(Leaves(jobs), Is(id, job)) == if id < |jobs| && jobs[id] == job then 1 else 0
  {
    LeavesTally(jobs, Any());
    LeavesTally(jobs, HasId(id));
    LeavesTally(jobs, HasName(name));
    LeavesTally(jobs, Is(id, job));
    if jobs != [] {
      var n := |jobs| - 1;
      LeavesOnce(jobs[..n], id, name, job);
      if jobs[n].name in Parents(jobs[..n]) {
        ParentsOnly(jobs[..n], jobs[n].name);
      }
    }
  }

  lemma {:induction false} LeavesStage(env: Env, jobs: seq<Job>, ts: seq<Tree>, k: nat)
    requires DistinctNames(jobs) && k <= |jobs| && ts == Leaves(jobs)[k..]
    ensures LinksHold(ts) && Consistent(ts, Parents(jobs)) && BelowValid(env, ts)
    decreases |jobs| - k
  {
    if k < |jobs| {
      ParentsAt(jobs, k);
      LeavesStage(env, jobs, ts[1..], k + 1);
    }
  }

  /** One attachment moves no node in or out. */
  lemma AttachKeepsNodes(ts: seq<Tree>, j: nat, id: nat)
    requires j < |ts| && Tally(Spliced(ts, j), HasId(id)) == 1
    ensures SameNodes(Graft(Spliced(ts, j), id, ts[j]), ts)
  {
    var after := Graft(Spliced(ts, j), id, ts[j]);
    AttachTally(ts, j, id, Any());
    forall i ensures Tally(after, HasId(i)) == Tally(ts, HasId(i)) {
      AttachTally(ts, j, id, HasId(i));
    }
    forall name ensures Tally(after, HasName(name)) == Tally(ts, HasName(name)) {
      AttachTally(ts, j, id, HasName(name));
    }
    forall i, job ensures Tally(after, Is(i, job)) == Tally(ts, Is(i, job)) {
      AttachTally(ts, j, id, Is(i, job));
    }
  }

  lemma AttachTally(ts: seq<Tree>, j: nat, id: nat, p: (nat, Job) -> bool)
    requires j < |ts| && Tally(Spliced(ts, j), HasId(id)) == 1
    ensures Tally(Graft(Spliced(ts, j), id, ts[j]), p) == Tally(ts, p)
  {
    TallySplice(ts, j, p);
    TallyGraft(Spliced(ts, j), id, ts[j], p);
  }

  lemma SplitAt(env: Env, parents: map<string, string>, ts: seq<Tree>, j: nat)
    requires j < |ts| && LinksHold(ts) && Consistent(ts, parents) && BelowValid(env, ts)
    ensures LinksHold(Spliced(ts, j)) && Consistent(Spliced(ts, j), parents) && BelowValid(env, Spliced(ts, j))
    ensures LinksHold([ts[j]]) && Consistent([ts[j]], parents) && AllValid(env, ts[j].children)
  {
    assert ts == ts[..j] + ([ts[j]] + ts[j + 1..]);
    Appended(env, parents, ts[..j], [ts[j]] + ts[j + 1..]);
    Appended(env, parents, [ts[j]], ts[j + 1..]);
    Appended(env, parents, ts[..j], ts[j + 1..]);
  }

  /** The id found for the parent of the job at j, outside its own tree, occurs exactly once there. */
  lemma FoundOnce(env: Env, jobs: seq<Job>, ts: seq<Tree>, j: nat)
    requires DistinctNames(jobs) && Stage(env, jobs, ts, j) && j < |ts|
    ensures Others(ts, ts[j].job.name) == Spliced(ts, j)
    ensures var parent := FirstNamed(Spliced(ts, j), ts[j].job.parentJob);
            parent.Some? ==>
              && Tally(Spliced(ts, j), HasId(parent.value)) == 1
              && NamedIfId(Spliced(ts, j), parent.value, ts[j].job.parentJob)
  {
    var name, p := ts[j].job.name, ts[j].job.parentJob;
    LeavesOnce(jobs, 0, name, ts[j].job);
    OthersAreSpliced(ts, j);
    var parent := FirstNamed(Spliced(ts, j), p);
    if parent.Some? {
      LeavesOnce(jobs, parent.value, p, ts[j].job);
      FirstNamedCounts(Spliced(ts, j), p);
      TallySplice(ts, j, HasId(parent.value));
      FoundHasName(Spliced(ts, j), p);
    }
  }

  lemma AttachStage(env: Env, jobs: seq<Job>, ts: seq<Tree>, j: nat, id: nat, after: seq<Tree>)
    requires DistinctNames(jobs) && Stage(env, jobs, ts, j) && j < |ts| && Valid(env, ts[j].job)
    requires FirstNamed(Others(ts, ts[j].job.name), ts[j].job.parentJob) == Some(id)
    requires after == Graft(Spliced(ts, j), id, ts[j])
    ensures Stage(env, jobs, after, j)
  {
    FoundOnce(env, jobs, ts, j);
    SplitAt(env, Parents(jobs), ts, j);
    AttachKeepsNodes(ts, j, id);
    GraftKeeps(env, Parents(jobs), Spliced(ts, j), id, ts[j], after);
    GraftSize(Spliced(ts, j), id, ts[j]);
    SameNodesTransitive(after, ts, Leaves(jobs));
    assert RootsDone(env, after, j);
  }

  lemma SameNodesTransitive(ts: seq<Tree>, us: seq<Tree>, vs: seq<Tree>)
    requires SameNodes(ts, us) && SameNodes(us, vs)
    ensures SameNodes(ts, vs)
  {
  }

  lemma RootStage(env: Env, jobs: seq<Job>, ts: seq<Tree>, j: nat)
    requires Stage(env, jobs, ts, j) && j < |ts| && Valid(env, ts[j].job) && ts[j].job.parentJob == ""
    ensures Stage(env, jobs, ts, j + 1)
  {
  }

  lemma RoundStage(env: Env, jobs: seq<Job>, ts: seq<Tree>, j: nat, r: Round)
    requires DistinctNames(jobs) && Stage(env, jobs, ts, j) && j < |ts|
    requires NextRound(env, ts, j) == Some(r)
    ensures Stage(env, jobs, r.trees, r.next)
  {
    if ts[j].job.parentJob == "" {
      RootStage(env, jobs, ts, j);
    } else {
      AttachStage(env, jobs, ts, j, FirstNamed(Others(ts, ts[j].job.name), ts[j].job.parentJob).value, r.trees);
    }
  }

  type Stages = (seq<Tree>, nat) -> bool

  ghost function StageOf(env: Env, jobs: seq<Job>): Stages {
    (ts: seq<Tree>, j: nat) => Stage(env, jobs, ts, j)
  }

  /** Every round goes on from one of the stages to one of them, if it succeeds; with sure it does. */
  ghost predicate RoundsKeep(env: Env, stage: Stages, sure: bool) {
    forall ts: seq<Tree>, j: nat {:trigger RoundKeeps(env, stage, ts, j, sure)} ::
      j < |ts| ==> RoundKeeps(env, stage, ts, j, sure)
  }

  ghost predicate RoundKeeps(env: Env, stage: Stages, ts: seq<Tree>, j: nat, sure: bool)
    requires j < |ts|
  {
    var r := NextRound(env, ts, j);
    stage(ts, j) ==> if r.Some? then stage(r.value.trees, r.value.next) else !sure
  }

  lemma {:induction false} GrowKeeps(env: Env, stage: Stages, ts: seq<Tree>, j: nat, rounds: nat, sure: bool,
                                     forest: Option<seq<Tree>>)
    requires RoundsKeep(env, stage, sure) && stage(ts, j) && j + rounds == |ts|
    requires forest == Grow(env, ts, j, rounds)
    ensures if forest.Some? then stage(forest.value, |forest.value|) else !sure
    decreases rounds
  {
    if rounds > 0 {
      assert RoundKeeps(env, stage, ts, j, sure);
      var r := NextRound(env, ts, j);
      if r.Some? {
        GrowKeeps(env, stage, r.value.trees, r.value.next, rounds - 1, sure, forest);
      }
    }
  }

  lemma GrowStage(env: Env, jobs: seq<Job>)
    requires DistinctNames(jobs) && JobTree(env, jobs).Some?
    ensures var forest := JobTree(env, jobs).value; Stage(env, jobs, forest, |forest|)
  {
    var stage := StageOf(env, jobs);
    StartStage(env, jobs);
    forall ts: seq<Tree>, j: nat | j < |ts| ensures RoundKeeps(env, stage, ts, j, false) {
      if Stage(env, jobs, ts, j) && NextRound(env, ts, j).Some? {
        RoundStage(env, jobs, ts, j, NextRound(env, ts, j).value);
      }
    }
    GrowKeeps(env, stage, Leaves(jobs), 0, |jobs|, false, JobTree(env, jobs));
  }

  lemma StartStage(env: Env, jobs: seq<Job>)
    requires DistinctNames(jobs)
    ensures Stage(env, jobs, Leaves(jobs), 0)
  {
    assert Leaves(jobs)[0..] == Leaves(jobs);
    LeavesStage(env, jobs, Leaves(jobs), 0);
  }

  // ----- Success means that every chain of parents ends at a root -----

  lemma {:induction false} NodesReachRoot(ts: seq<Tree>, parents: map<string, string>, id: nat, job: Job)
    requires Consistent(ts, parents) && LinksHold(ts)
    requires forall i | 0 <= i < |ts| :: ReachesRoot(parents, ts[i].job.name)
    requires Tally(ts, Is(id, job)) > 0
    ensures ReachesRoot(parents, job.name)
  {
    var first := ts[0];
    if first.id == id && first.job == job {
    } else if Tally(first.children, Is(id, job)) > 0 {
      forall i | 0 <= i < |first.children|
        ensures ReachesRoot(parents, first.children[i].job.name)
      {
        ChildReachesRoot(first.children, parents, first.job.name, i);
      }
      NodesReachRoot(first.children, parents, id, job);
    } else {
      NodesReachRoot(ts[1..], parents, id, job);
    }
  }

  lemma {:induction false} ConsistentAt(ts: seq<Tree>, parents: map<string, string>, i: nat)
    requires Consistent(ts, parents) && i < |ts|
    ensures ts[i].job.name in parents && parents[ts[i].job.name] == ts[i].job.parentJob
  {
    if i > 0 {
      ConsistentAt(ts[1..], parents, i - 1);
    }
  }

  lemma ChildReachesRoot(children: seq<Tree>, parents: map<string, string>, name: string, i: nat)
    requires Consistent(children, parents) && ChildrenOf(children, name)
    requires ReachesRoot(parents, name) && i < |children|
    ensures ReachesRoot(parents, children[i].job.name)
  {
    var child := children[i].job.name;
    ConsistentAt(children, parents, i);
    if parents[child] == "" {
      assert Up(parents, child, 0) == Some(child);
    } else {
      var d: nat :| Up(parents, name, d).Some? && parents[Up(parents, name, d).value] == "";
      assert Up(parents, child, d + 1) == Up(parents, name, d);
    }
  }

  lemma {:induction false} NodesValid(env: Env, ts: seq<Tree>, id: nat, job: Job)
    requires AllValid(env, ts) && Tally(ts, Is(id, job)) > 0
    ensures Valid(env, job)
  {
    if Tally(ts[0].children, Is(id, job)) > 0 {
      NodesValid(env, ts[0].children, id, job);
    } else if Tally(ts[1..], Is(id, job)) > 0 {
      NodesValid(env, ts[1..], id, job);
    }
  }

  lemma {:induction false} DoneAllValid(env: Env, ts: seq<Tree>)
    requires BelowValid(env, ts) && RootsDone(env, ts, |ts|)
    ensures AllValid(env, ts)
  {
    if ts != [] {
      assert forall i | 0 <= i < |ts| - 1 :: ts[1..][i] == ts[i + 1];
      DoneAllValid(env, ts[1..]);
    }
  }

  // ----- Every chain ending at a root means success -----

  /** A node inside a tree leads up to the root of the tree. */
  lemma {:induction false} LeadsUp(env: Env, ts: seq<Tree>, parents: map<string, string>, above: string, p: string)
    returns (d: nat)
    requires LinksHold(ts) && Consistent(ts, parents) && AllValid(env, ts) && ChildrenOf(ts, above)
    requires above != "" && above in parents
    requires Tally(ts, HasName(p)) > 0
    ensures d > 0 && Up(parents, p, d) == Some(above)
  {
    var first := ts[0];
    if first.job.name == p {
      assert Up(parents, above, 0) == Some(above);
      d := 1;
    } else if Tally(first.children, HasName(p)) > 0 {
      var e := LeadsUp(env, first.children, parents, first.job.name, p);
      UpFurther(parents, p, e, 1);
      assert Up(parents, above, 0) == Some(above);
      d := e + 1;
    } else {
      assert forall i | 0 <= i < |ts| - 1 :: ts[1..][i] == ts[i + 1];
      d := LeadsUp(env, ts[1..], parents, above, p);
    }
  }

  /** A job whose parent stands below it is on a cycle. */
  lemma OwnTreeCycle(env: Env, t: Tree, parents: map<string, string>)
    requires LinksHold([t]) && Consistent([t], parents) && AllValid(env, t.children) && Valid(env, t.job)
    requires t.job.parentJob != "" && Tally(t.children, HasName(t.job.parentJob)) > 0
    ensures !ReachesRoot(parents, t.job.name)
  {
    var d := LeadsUp(env, t.children, parents, t.job.name, t.job.parentJob);
    assert Up(parents, t.job.name, d + 1) == Some(t.job.name);
    forall k: nat
      ensures !(Up(parents, t.job.name, k).Some? && parents[Up(parents, t.job.name, k).value] == "")
    {
      NoCycle(parents, t.job.name, d + 1, k);
    }
  }

  lemma ChainGoesOn(parents: map<string, string>, name: string)
    requires ReachesRoot(parents, name) && name in parents && parents[name] != ""
    ensures parents[name] in parents
  {
    var k: nat :| Up(parents, name, k).Some? && parents[Up(parents, name, k).value] == "";
    assert k > 0 && Up(parents, parents[name], k - 1).Some?;
  }

  /** The parent of a job whose chain reaches a root stands outside the job's own tree. */
  lemma ParentOutside(env: Env, jobs: seq<Job>, ts: seq<Tree>, j: nat)
    requires DistinctNames(jobs) && Stage(env, jobs, ts, j) && j < |ts|
    requires Valid(env, ts[j].job) && ts[j].job.parentJob != ""
    requires ReachesRoot(Parents(jobs), ts[j].job.name)
    ensures FirstNamed(Others(ts, ts[j].job.name), ts[j].job.parentJob).Some?
  {
    var parents, t, p := Parents(jobs), ts[j], ts[j].job.parentJob;
    ConsistentAt(ts, parents, j);
    ChainGoesOn(parents, t.job.name);
    FoundOnce(env, jobs, ts, j);
    LeavesOnce(jobs, 0, p, t.job);
    TallySplice(ts, j, HasName(p));
    FirstNamedCounts(Spliced(ts, j), p);
    if Tally(Spliced(ts, j), HasName(p)) == 0 {
      SplitAt(env, parents, ts, j);
      assert Tally([t], HasName(p)) == Tally(t.children, HasName(p));
      OwnTreeCycle(env, t, parents);
    }
  }

  lemma NodeOfList(jobs: seq<Job>, ts: seq<Tree>, j: nat)
    requires DistinctNames(jobs) && SameNodes(ts, Leaves(jobs)) && j < |ts|
    ensures exists i :: 0 <= i < |jobs| && jobs[i] == ts[j].job
  {
    var id, job := ts[j].id, ts[j].job;
    TallySplice(ts, j, Is(id, job));
    LeavesOnce(jobs, id, job.name, job);
  }

  ghost predicate Restorable(env: Env, jobs: seq<Job>) {
    forall i | 0 <= i < |jobs| :: Valid(env, jobs[i]) && ReachesRoot(Parents(jobs), jobs[i].name)
  }

  lemma RoundSucceeds(env: Env, jobs: seq<Job>, ts: seq<Tree>, j: nat)
    requires DistinctNames(jobs) && Stage(env, jobs, ts, j) && j < |ts| && Restorable(env, jobs)
    ensures NextRound(env, ts, j).Some?
  {
    NodeOfList(jobs, ts, j);
    if ts[j].job.parentJob != "" {
      ParentOutside(env, jobs, ts, j);
    }
  }

  lemma GrowSucceeds(env: Env, jobs: seq<Job>)
    requires DistinctNames(jobs) && Restorable(env, jobs)
    ensures JobTree(env, jobs).Some?
  {
    var stage := StageOf(env, jobs);
    StartStage(env, jobs);
    forall ts: seq<Tree>, j: nat | j < |ts| ensures RoundKeeps(env, stage, ts, j, true) {
      if Stage(env, jobs, ts, j) {
        RoundSucceeds(env, jobs, ts, j);
        RoundStage(env, jobs, ts, j, NextRound(env, ts, j).value);
      }
    }
    GrowKeeps(env, stage, Leaves(jobs), 0, |jobs|, true, JobTree(env, jobs));
  }

  // ----- The theorems -----

  /** A list with distinct names yields a forest exactly when every job validates and every chain of
      parents reaches a root: an unknown parent or a cycle is refused. */
  lemma SucceedsIff(env: Env, jobs: seq<Job>)
    requires DistinctNames(jobs)
    ensures JobTree(env, jobs).Some? <==> Restorable(env, jobs)
  {
    if Restorable(env, jobs) {
      GrowSucceeds(env, jobs);
    }
    if JobTree(env, jobs).Some? {
      var forest, parents := JobTree(env, jobs).value, Parents(jobs);
      GrowStage(env, jobs);
      DoneAllValid(env, forest);
      forall i | 0 <= i < |forest|
        ensures ReachesRoot(parents, forest[i].job.name)
      {
        ConsistentAt(forest, parents, i);
        assert Up(parents, forest[i].job.name, 0).Some?;
      }
      forall i | 0 <= i < |jobs|
        ensures Valid(env, jobs[i]) && ReachesRoot(parents, jobs[i].name)
      {
        LeavesOnce(jobs, i, jobs[i].name, jobs[i]);
        NodesValid(env, forest, i, jobs[i]);
        NodesReachRoot(forest, parents, i, jobs[i]);
      }
    }
  }

  /** A job without a parent cannot hang below another one. */
  lemma {:induction false} RootNotBelow(env: Env, ts: seq<Tree>, above: string, id: nat, job: Job)
    requires AllValid(env, ts) && LinksHold(ts) && ChildrenOf(ts, above)
    requires above != "" && job.parentJob == ""
    ensures Tally(ts, Is(id, job)) == 0
  {
    if ts != [] {
      assert forall i | 0 <= i < |ts| - 1 :: ts[1..][i] == ts[i + 1];
      RootNotBelow(env, ts[0].children, ts[0].job.name, id, job);
      RootNotBelow(env, ts[1..], above, id, job);
    }
  }

  lemma {:induction false} RootAmongRoots(env: Env, ts: seq<Tree>, id: nat, job: Job)
    requires AllValid(env, ts) && LinksHold(ts) && job.parentJob == ""
    requires Tally(ts, Is(id, job)) > 0
    ensures exists r :: 0 <= r < |ts| && ts[r].id == id && ts[r].job == job
  {
    if !(ts[0].id == id && ts[0].job == job) {
      RootNotBelow(env, ts[0].children, ts[0].job.name, id, job);
      RootAmongRoots(env, ts[1..], id, job);
      var r :| 0 <= r < |ts| - 1 && ts[1..][r].id == id && ts[1..][r].job == job;
      assert ts[r + 1].id == id;
    }
  }

  /** The forest holds each job of the list once and nothing else, every edge is a parent link, and
      its roots are exactly the jobs without a parent. */
  lemma ForestShape(env: Env, jobs: seq<Job>)
    requires DistinctNames(jobs) && JobTree(env, jobs).Some?
    ensures var forest := JobTree(env, jobs).value;
            && LinksHold(forest) && AllValid(env, forest)
            && Tally(forest, Any()) == |jobs|
            && (forall i | 0 <= i < |jobs| :: Tally(forest, Is(i, jobs[i])) == 1)
            && (forall r | 0 <= r < |forest| :: forest[r].job.parentJob == "")
            && (forall i | 0 <= i < |jobs| && jobs[i].parentJob == "" ::
                  exists r :: 0 <= r < |forest| && forest[r].id == i && forest[r].job == jobs[i])
  {
    var forest := JobTree(env, jobs).value;
    GrowStage(env, jobs);
    DoneAllValid(env, forest);
    if jobs == [] {
      assert Leaves(jobs) == [];
    } else {
      LeavesOnce(jobs, 0, "", jobs[0]);
    }
    forall i | 0 <= i < |jobs|
      ensures Tally(forest, Is(i, jobs[i])) == 1
      ensures jobs[i].parentJob == "" ==>
                exists r :: 0 <= r < |forest| && forest[r].id == i && forest[r].job == jobs[i]
    {
      LeavesOnce(jobs, i, "", jobs[i]);
      if jobs[i].parentJob == "" {
        RootAmongRoots(env, forest, i, jobs[i]);
      }
    }
  }
}
