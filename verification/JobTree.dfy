/** The construction of the forest in place: job objects are appended to the child lists of other
    job objects and taken out of the list. Proved against Forest. */
module JobTree {
  import opened Wrappers
  import opened Types
  import opened Forest

  class JobNode {
    const id: nat
    const job: Job
    var childJobs: seq<JobNode>

    constructor (id: nat, job: Job)
      ensures this.id == id && this.job == job && childJobs == []
    {
      this.id, this.job, this.childJobs := id, job, [];
    }
  }

  /** The child lists of all objects of a region, as a value. */
  type Kids = map<JobNode, seq<JobNode>>

  ghost function KidsOf(region: set<JobNode>): Kids
    reads region
  {
    map n | n in region :: n.childJobs
  }

  /** The objects, their lists and the lists below them look like the trees. */
  ghost predicate Shape(kids: Kids, nodes: seq<JobNode>, ts: seq<Tree>)
    decreases ts
  {
    && |nodes| == |ts|
    && (ts != [] ==>
          && nodes[0] in kids && nodes[0].id == ts[0].id && nodes[0].job == ts[0].job
          && Shape(kids, kids[nodes[0]], ts[0].children)
          && Shape(kids, nodes[1..], ts[1..]))
  }

  ghost predicate IdsDiffer(region: set<JobNode>) {
    forall m, n | m in region && n in region && m.id == n.id :: m == n
  }

  function Appended(kids: Kids, p: JobNode, child: JobNode): Kids
    requires p in kids
  {
    kids[p := kids[p] + [child]]
  }

  ghost predicate IdsOnce(ts: seq<Tree>) {
    forall id: nat :: Tally(ts, HasId(id)) <= 1
  }

  // ----- Shapes under one append -----

  lemma {:induction false} ShapeKept(kids: Kids, nodes: seq<JobNode>, ts: seq<Tree>, p: JobNode, child: JobNode)
    requires Shape(kids, nodes, ts) && p in kids
    requires Tally(ts, HasId(p.id)) == 0
    ensures Shape(Appended(kids, p, child), nodes, ts)
    decreases ts
  {
    if ts != [] {
      ShapeKept(kids, kids[nodes[0]], ts[0].children, p, child);
      ShapeKept(kids, nodes[1..], ts[1..], p, child);
    }
  }

  lemma {:induction false} ShapeAppend(kids: Kids, nodes: seq<JobNode>, more: seq<JobNode>, ts: seq<Tree>,
                                       us: seq<Tree>)
    requires |nodes| == |ts|
    ensures Shape(kids, nodes + more, ts + us) <==> Shape(kids, nodes, ts) && Shape(kids, more, us)
  {
    if ts == [] {
      assert nodes + more == more && ts + us == us;
    } else {
      ShapeAppend(kids, nodes[1..], more, ts[1..], us);
      assert (nodes + more)[1..] == nodes[1..] + more && (ts + us)[1..] == ts[1..] + us;
    }
  }

  lemma {:induction false} GraftShape(kids: Kids, nodes: seq<JobNode>, ts: seq<Tree>, p: JobNode, child: JobNode,
                                      t: Tree)
    requires Shape(kids, nodes, ts) && p in kids && IdsDiffer(kids.Keys)
    requires Shape(Appended(kids, p, child), [child], [t])
    ensures Shape(Appended(kids, p, child), nodes, Graft(ts, p.id, t))
    decreases ts
  {
    if ts != [] {
      var after, below := Appended(kids, p, child), Graft(ts[0].children, p.id, t);
      GraftShape(kids, kids[nodes[0]], ts[0].children, p, child, t);
      GraftShape(kids, nodes[1..], ts[1..], p, child, t);
      GraftSize(ts[0].children, p.id, t);
      ShapeAppend(after, kids[nodes[0]], [child], below, [t]);
      assert below + [] == below;
      assert Graft(ts, p.id, t)[1..] == Graft(ts[1..], p.id, t);
    }
  }

  lemma ShapeSpliced(kids: Kids, nodes: seq<JobNode>, ts: seq<Tree>, j: nat)
    requires Shape(kids, nodes, ts) && j < |ts|
    ensures Shape(kids, nodes[..j] + nodes[j + 1..], Spliced(ts, j))
    ensures Shape(kids, [nodes[j]], [ts[j]])
    ensures nodes[j] in kids && nodes[j].job == ts[j].job
  {
    assert nodes == nodes[..j] + ([nodes[j]] + nodes[j + 1..]);
    assert ts == ts[..j] + ([ts[j]] + ts[j + 1..]);
    ShapeAppend(kids, nodes[..j], [nodes[j]] + nodes[j + 1..], ts[..j], [ts[j]] + ts[j + 1..]);
    ShapeAppend(kids, [nodes[j]], nodes[j + 1..], [ts[j]], ts[j + 1..]);
    ShapeAppend(kids, nodes[..j], nodes[j + 1..], ts[..j], ts[j + 1..]);
  }

  /** Candidates for the parent never lie in the job's own tree. */
  lemma {:induction false} OthersOfSpliced(ts: seq<Tree>, j: nat)
    requires j < |ts|
    ensures Others(ts, ts[j].job.name) == Others(Spliced(ts, j), ts[j].job.name)
  {
    var name := ts[j].job.name;
    assert ts == ts[..j] + ([ts[j]] + ts[j + 1..]);
    OthersAppend(ts[..j], [ts[j]] + ts[j + 1..], name);
    OthersAppend([ts[j]], ts[j + 1..], name);
    OthersAppend(ts[..j], ts[j + 1..], name);
  }

  lemma FoundElsewhere(ts: seq<Tree>, j: nat, id: nat)
    requires j < |ts| && Tally(ts, HasId(id)) <= 1
    requires FirstNamed(Others(ts, ts[j].job.name), ts[j].job.parentJob) == Some(id)
    ensures Tally([ts[j]], HasId(id)) == 0 && Tally(Spliced(ts, j), HasId(id)) == 1
  {
    var name := ts[j].job.name;
    OthersOfSpliced(ts, j);
    FirstNamedCounts(Others(ts, name), ts[j].job.parentJob);
    OthersTally(Spliced(ts, j), name, HasId(id));
    TallySplice(ts, j, HasId(id));
  }

  // ----- The search -----

  method FindParentJobInChildJobs(nodes: seq<JobNode>, child: JobNode, ghost ts: seq<Tree>, ghost region: set<JobNode>)
    returns (found: bool, ghost p: JobNode)
    requires Shape(KidsOf(region), nodes, ts)
    modifies region
    ensures FirstNamed(ts, child.job.parentJob) == if found then Some(p.id) else None
    ensures found ==> p in region
    ensures KidsOf(region) == if found then Appended(old(KidsOf(region)), p, child) else old(KidsOf(region))
    decreases ts
  {
    p := child;
    for i := 0 to |nodes|
      invariant KidsOf(region) == old(KidsOf(region))
      invariant Shape(KidsOf(region), nodes[i..], ts[i..])
      invariant FirstNamed(ts, child.job.parentJob) == FirstNamed(ts[i..], child.job.parentJob)
    {
      var parentJob := nodes[i];
      assert nodes[i..][0] == parentJob && ts[i..][0] == ts[i];
      assert nodes[i..][1..] == nodes[i + 1..] && ts[i..][1..] == ts[i + 1..];
      if child.job.parentJob == parentJob.job.name {
        parentJob.childJobs := parentJob.childJobs + [child];
        return true, parentJob;
      } else if |parentJob.childJobs| > 0 {
        var flag;
        flag, p := FindParentJobInChildJobs(parentJob.childJobs, child, ts[i].children, region);
        if flag {
          return true, p;
        }
      }
    }
    found := false;
  }

  /** The loop over the list itself, which passes over every job with the child's own name. */
  method FindParentJob(jobs: seq<JobNode>, child: JobNode, ghost ts: seq<Tree>, ghost region: set<JobNode>)
    returns (found: bool, ghost p: JobNode)
    requires Shape(KidsOf(region), jobs, ts)
    modifies region
    ensures FirstNamed(Others(ts, child.job.name), child.job.parentJob) == if found then Some(p.id) else None
    ensures found ==> p in region
    ensures KidsOf(region) == if found then Appended(old(KidsOf(region)), p, child) else old(KidsOf(region))
  {
    p := child;
    ghost var name, parent := child.job.name, child.job.parentJob;
    for i := 0 to |jobs|
      invariant KidsOf(region) == old(KidsOf(region))
      invariant Shape(KidsOf(region), jobs[i..], ts[i..])
      invariant FirstNamed(Others(ts, name), parent) == FirstNamed(Others(ts[i..], name), parent)
    {
      var parentJob := jobs[i];
      assert jobs[i..][0] == parentJob && ts[i..][0] == ts[i];
      assert jobs[i..][1..] == jobs[i + 1..] && ts[i..][1..] == ts[i + 1..];
      if parentJob.job.name == child.job.name {
        assert Others(ts[i..], name) == Others(ts[i + 1..], name);
        continue;
      }
      assert Others(ts[i..], name) == [ts[i]] + Others(ts[i + 1..], name);
      FirstOfMore(ts[i], Others(ts[i + 1..], name), parent);
      if child.job.parentJob == parentJob.job.name {
        parentJob.childJobs := parentJob.childJobs + [child];
        return true, parentJob;
      }
      if |parentJob.childJobs| > 0 {
        var flag;
        flag, p := FindParentJobInChildJobs(parentJob.childJobs, child, ts[i].children, region);
        if flag {
          return true, p;
        }
      }
    }
    found := false;
  }

  lemma FirstOfMore(t: Tree, rest: seq<Tree>, name: string)
    ensures FirstNamed([t] + rest, name) ==
            if t.job.name == name then Some(t.id)
            else if FirstNamed(t.children, name).Some? then FirstNamed(t.children, name) else FirstNamed(rest, name)
  {
    assert ([t] + rest)[1..] == rest;
  }

  // ----- The loop -----

  method FindParentJobAndValidateJob(env: Env, jobs: seq<JobNode>, index: nat, ghost ts: seq<Tree>,
                                     ghost region: set<JobNode>)
    returns (rejobs: seq<JobNode>, isTop: bool, ok: bool, ghost after: seq<Tree>)
    requires Shape(KidsOf(region), jobs, ts) && IdsDiffer(region) && index < |jobs|
    requires IdsOnce(ts)
    modifies region
    ensures ok ==> Shape(KidsOf(region), rejobs, after) && IdsOnce(after)
    ensures NextRound(env, ts, index) == if ok then Some(Round(after, if isTop then index + 1 else index)) else None
  {
    var childJob := jobs[index];
    rejobs, isTop, ok, after := jobs, false, false, ts;
    ghost var kids := KidsOf(region);
    ShapeSpliced(kids, jobs, ts, index);
    if Validate(env, childJob.job).Some? {
      return;
    }
    if childJob.job.parentJob == "" {
      isTop, ok := true, true;
      return;
    }
    var found, p := FindParentJob(jobs, childJob, ts, region);
    if found {
      rejobs := jobs[..index] + jobs[index + 1..];
      FoundElsewhere(ts, index, p.id);
      ShapeKept(kids, [childJob], [ts[index]], p, childJob);
      GraftShape(kids, rejobs, Spliced(ts, index), p, childJob, ts[index]);
      GraftSize(Spliced(ts, index), p.id, ts[index]);
      after := Graft(Spliced(ts, index), p.id, ts[index]);
      forall id: nat ensures Tally(after, HasId(id)) == Tally(ts, HasId(id)) {
        AttachTally(ts, index, p.id, HasId(id));
      }
      ok := true;
    }
  }

  function JobsOf(nodes: seq<JobNode>): seq<Job> {
    seq(|nodes|, i requires 0 <= i < |nodes| => nodes[i].job)
  }

  function Region(jobs: seq<JobNode>): set<JobNode> {
    set n | n in jobs
  }

  /** The objects end up linked as the forest on values, or the list is refused just as there. The
      index stays inside the shrinking list. */
  method GenerateJobTree(env: Env, jobs: seq<JobNode>) returns (forest: Option<seq<JobNode>>)
    requires forall i | 0 <= i < |jobs| :: jobs[i].id == i && jobs[i].childJobs == []
    modifies Region(jobs)
    ensures match JobTree(env, JobsOf(jobs))
            case None => forest == None
            case Some(ts) => forest.Some? && Shape(KidsOf(Region(jobs)), forest.value, ts)
  {
    ghost var ts := Leaves(JobsOf(jobs));
    LeavesShape(KidsOf(Region(jobs)), jobs, ts, 0);
    LeavesIds(JobsOf(jobs));
    assert jobs[0..] == jobs && ts[0..] == ts;
    ghost var grown := JobTree(env, JobsOf(jobs));
    WayLeads(env, grown);
    forest := ProcessAll(env, jobs, ts, Region(jobs), grown, OnTheWay(env, grown));
  }

  /** The trees, the position of the next job, and how many rounds are to come. */
  type Way = (seq<Tree>, nat, nat) -> bool

  /** The states from which the loop ends with the given result. */
  ghost function OnTheWay(env: Env, grown: Option<seq<Tree>>): Way {
    (ts: seq<Tree>, j: nat, rounds: nat) => Going(env, grown, ts, j, rounds)
  }

  ghost predicate Going(env: Env, grown: Option<seq<Tree>>, ts: seq<Tree>, j: nat, rounds: nat) {
    j + rounds == |ts| && grown == Grow(env, ts, j, rounds)
  }

  ghost predicate Leads(env: Env, way: Way, grown: Option<seq<Tree>>) {
    && (forall ts: seq<Tree>, j: nat, rounds: nat {:trigger LeadsAt(env, way, grown, ts, j, rounds)} ::
          LeadsAt(env, way, grown, ts, j, rounds))
    && forall ts: seq<Tree>, j: nat {:trigger way(ts, j, 0)} :: way(ts, j, 0) ==> grown == Some(ts)
  }

  ghost predicate LeadsAt(env: Env, way: Way, grown: Option<seq<Tree>>, ts: seq<Tree>, j: nat, rounds: nat) {
    way(ts, j, rounds) && rounds > 0 && j < |ts| ==>
      match NextRound(env, ts, j)
      case None => grown == None
      case Some(r) => way(r.trees, r.next, rounds - 1)
  }

  lemma GoingOn(env: Env, grown: Option<seq<Tree>>, ts: seq<Tree>, j: nat, rounds: nat, r: Option<Round>)
    requires Going(env, grown, ts, j, rounds) && rounds > 0 && r == NextRound(env, ts, j)
    ensures if r.None? then grown == None else Going(env, grown, r.value.trees, r.value.next, rounds - 1)
  {
  }

  lemma WayLeadsAt(env: Env, grown: Option<seq<Tree>>, ts: seq<Tree>, j: nat, rounds: nat)
    ensures LeadsAt(env, OnTheWay(env, grown), grown, ts, j, rounds)
  {
    if Going(env, grown, ts, j, rounds) && rounds > 0 {
      GoingOn(env, grown, ts, j, rounds, NextRound(env, ts, j));
    }
  }

  lemma WayLeads(env: Env, grown: Option<seq<Tree>>)
    ensures Leads(env, OnTheWay(env, grown), grown)
  {
    forall ts: seq<Tree>, j: nat, rounds: nat
      ensures LeadsAt(env, OnTheWay(env, grown), grown, ts, j, rounds)
    {
      WayLeadsAt(env, grown, ts, j, rounds);
    }
  }

  method ProcessAll(env: Env, given: seq<JobNode>, ghost start: seq<Tree>, ghost region: set<JobNode>,
                    ghost grown: Option<seq<Tree>>, ghost way: Way)
    returns (forest: Option<seq<JobNode>>)
    requires Shape(KidsOf(region), given, start) && IdsDiffer(region) && IdsOnce(start)
    requires Leads(env, way, grown) && way(start, 0, |start|)
    modifies region
    ensures if grown.Some? then forest.Some? && Shape(KidsOf(region), forest.value, grown.value) else forest == None
  {
    ghost var ts := start;
    var length := |given|;
    var jobs := given;
    var j: nat := 0;
    for i := 0 to length
      invariant Shape(KidsOf(region), jobs, ts) && IdsOnce(ts)
      invariant j + (length - i) == |jobs| == |ts| && way(ts, j, length - i)
    {
      var ok;
      jobs, j, ok, ts := Turn(env, jobs, j, length - i, ts, region, grown, way);
      if !ok {
        return None;
      }
    }
    return Some(jobs);
  }

  /** The body of the loop. */
  method Turn(env: Env, jobs: seq<JobNode>, j: nat, ghost rounds: nat, ghost ts: seq<Tree>, ghost region: set<JobNode>,
              ghost grown: Option<seq<Tree>>, ghost way: Way)
    returns (rejobs: seq<JobNode>, next: nat, ok: bool, ghost after: seq<Tree>)
    requires Shape(KidsOf(region), jobs, ts) && IdsDiffer(region) && IdsOnce(ts) && j < |jobs|
    requires LeadsAt(env, way, grown, ts, j, rounds) && way(ts, j, rounds) && rounds > 0
    modifies region
    ensures if ok then Shape(KidsOf(region), rejobs, after) && IdsOnce(after) && way(after, next, rounds - 1)
            else grown == None
    ensures ok ==> next + (|jobs| - j - 1) == |rejobs|
  {
    var isTop;
    rejobs, isTop, ok, after := FindParentJobAndValidateJob(env, jobs, j, ts, region);
    next := if isTop then j + 1 else j;
  }

  lemma {:induction false} LeavesShape(kids: Kids, nodes: seq<JobNode>, ts: seq<Tree>, k: nat)
    requires k <= |nodes| && ts == Leaves(JobsOf(nodes))
    requires forall i | 0 <= i < |nodes| :: nodes[i] in kids && nodes[i].id == i && kids[nodes[i]] == []
    ensures Shape(kids, nodes[k..], ts[k..])
    decreases |nodes| - k
  {
    if k < |nodes| {
      LeavesShape(kids, nodes, ts, k + 1);
    }
  }

  lemma {:induction false} LeavesIds(jobs: seq<Job>)
    ensures forall id: nat :: Tally(Leaves(jobs), HasId(id)) == if id < |jobs| then 1 else 0
  {
    if jobs != [] {
      var n := |jobs| - 1;
      LeavesIds(jobs[..n]);
      forall id: nat
        ensures Tally(Leaves(jobs), HasId(id)) == if id < |jobs| then 1 else 0
      {
        LeavesTally(jobs, HasId(id));
      }
    }
  }
}
