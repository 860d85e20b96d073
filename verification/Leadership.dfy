/** The leadership monitor and the leader loops it spawns, as a state machine over the interleaved
    steps of both, of Raft's notifications and of a shutdown. */
module Leadership {

  /** The monitor's weAreLeaderCh: none, open for a loop, or closed while the monitor waits for the
      loops to end. */
  datatype Channel = NoChannel | Open(id: nat) | Closed(id: nat)

  /** Where a leader loop stands. The flag is its local establishedLeader, which also says whether the
      deferred revocation is due on return. */
  datatype Phase =
    | AtBarrier(established: bool)
    | Establishing
    | Revoking          // after a failed establish
    | Transferring      // trying to hand leadership over
    | Reconciling
    | Polling           // reconcile worked: look at the stop channel once
    | Waiting(established: bool)
    | Returning(established: bool)

  datatype State = State(
    channel: Channel,
    loops: map<nat, Phase>,  // the leader loops alive
    nextId: nat,
    monitoring: bool,        // the monitor has not returned
    shutdown: bool,
    started: bool,           // Scheduler.started
    metStarted: bool)        // some Start found the scheduler already started

  datatype Step =
    | Elected
    | Deposed
    | LoopsEnded                             // leaderLoop.Wait returns
    | Shutdown
    | MonitorReturns
    | AgentStopsScheduler                    // Agent.Stop
    | Barrier(id: nat, ok: bool)
    | Establish(id: nat, ok: bool)           // ok: every job could be added
    | Revoke(id: nat)
    | Transfer(id: nat, ok: bool)
    | Reconcile(id: nat, ok: bool)
    | Poll(id: nat)
    | Timer(id: nat)
    | StopSeen(id: nat)                      // stop channel closed, or shutdown
    | Return(id: nat)

  const INITIAL := State(NoChannel, map[], 0, true, false, false, false)

  predicate MonitorFree(s: State) {
    s.monitoring && !s.channel.Closed?
  }

  predicate StopRequested(s: State, id: nat) {
    s.channel == Closed(id) || s.shutdown
  }

  predicate At(s: State, id: nat, phase: Phase) {
    id in s.loops && s.loops[id] == phase
  }

  function Move(s: State, id: nat, phase: Phase): State {
    s.(loops := s.loops[id := phase])
  }

  function End(s: State, id: nat): State {
    s.(loops := s.loops - {id})
  }

  ghost predicate Enabled(s: State, step: Step) {
    match step
    case Elected => MonitorFree(s)
    case Deposed => MonitorFree(s)
    case LoopsEnded => s.monitoring && s.channel.Closed? && s.loops == map[]
    case Shutdown => true
    case MonitorReturns => MonitorFree(s) && s.shutdown
    case AgentStopsScheduler => true
    case Barrier(id, _) => At(s, id, AtBarrier(true)) || At(s, id, AtBarrier(false))
    case Establish(id, _) => At(s, id, Establishing)
    case Revoke(id) => At(s, id, Revoking)
    case Transfer(id, _) => At(s, id, Transferring)
    case Reconcile(id, _) => At(s, id, Reconciling)
    case Poll(id) => At(s, id, Polling)
    case Timer(id) => id in s.loops && s.loops[id].Waiting?
    case StopSeen(id) => id in s.loops && s.loops[id].Waiting? && StopRequested(s, id)
    case Return(id) => id in s.loops && s.loops[id].Returning?
  }

  function Apply(s: State, step: Step): State {
    match step
    case Elected =>
      // A loop is spawned only when no channel is held.
      if s.channel.NoChannel?
      then s.(channel := Open(s.nextId), loops := s.loops[s.nextId := AtBarrier(false)], nextId := s.nextId + 1)
      else s
    case Deposed => if s.channel.Open? then s.(channel := Closed(s.channel.id)) else s
    case LoopsEnded => s.(channel := NoChannel)
    case Shutdown => s.(shutdown := true)
    case MonitorReturns => s.(monitoring := false)
    case AgentStopsScheduler => s.(started := false)
    case Barrier(id, ok) =>
      var established := At(s, id, AtBarrier(true));
      if !ok then Move(s, id, Waiting(established))
      else if established then Move(s, id, Reconciling)
      else Move(s, id, Establishing)
    case Establish(id, ok) =>
      if s.started then Move(s, id, Revoking).(metStarted := true)
      else if ok then Move(s, id, Reconciling).(started := true)
      else Move(s, id, Revoking)
    case Revoke(id) => Move(s, id, Transferring).(started := false)
    case Transfer(id, ok) => if ok then End(s, id).(started := false) else Move(s, id, Waiting(false))
    case Reconcile(id, ok) => Move(s, id, if ok then Polling else Waiting(true))
    case Poll(id) => Move(s, id, if s.channel == Closed(id) then Returning(true) else Waiting(true))
    case Timer(id) => if At(s, id, Waiting(true)) then Move(s, id, AtBarrier(true)) else Move(s, id, AtBarrier(false))
    case StopSeen(id) =>
      if At(s, id, Waiting(true)) then Move(s, id, Returning(true)) else Move(s, id, Returning(false))
    case Return(id) => if At(s, id, Returning(true)) then End(s, id).(started := false) else End(s, id)
  }

  predicate Established(phase: Phase) {
    || phase.Reconciling? || phase.Polling?
    || phase == AtBarrier(true) || phase == Waiting(true) || phase == Returning(true)
  }

  // ----- The claims -----

  predicate OneLoop(s: State) {
    forall i, j | i in s.loops && j in s.loops :: i == j
  }

  predicate StartedUnderLoop(s: State) {
    s.started ==> exists id :: id in s.loops && Established(s.loops[id])
  }

  predicate Safe(s: State) {
    OneLoop(s) && StartedUnderLoop(s) && !s.metStarted
  }

  /** Every loop alive is the one whose channel the monitor holds. */
  predicate Inductive(s: State) {
    && (forall id | id in s.loops :: s.channel == Open(id) || s.channel == Closed(id))
    && StartedUnderLoop(s) && !s.metStarted
  }

  lemma InductiveIsSafe(s: State)
    requires Inductive(s)
    ensures Safe(s)
  {
  }

  lemma StepKeepsInductive(s: State, step: Step)
    requires Inductive(s) && Enabled(s, step)
    ensures Inductive(Apply(s, step))
  {
    StepKeepsLoops(s, step);
    StepKeepsStarted(s, step, Apply(s, step));
  }

  lemma StepKeepsLoops(s: State, step: Step)
    requires Inductive(s) && Enabled(s, step)
    ensures var after := Apply(s, step);
            && (forall id | id in after.loops :: after.channel == Open(id) || after.channel == Closed(id))
            && !after.metStarted
  {
    InductiveIsSafe(s);
  }

  lemma StepKeepsStarted(s: State, step: Step, after: State)
    requires Inductive(s) && Enabled(s, step) && after == Apply(s, step)
    ensures StartedUnderLoop(after)
  {
    InductiveIsSafe(s);
    if after.started {
      var id :| id in s.loops || (step.Establish? && id == step.id);
      assert id in after.loops && Established(after.loops[id]);
    }
  }

  ghost predicate IsRun(states: seq<State>, steps: seq<Step>) {
    && |states| == |steps| + 1 && states[0] == INITIAL
    && forall i | 0 <= i < |steps| :: Enabled(states[i], steps[i]) && states[i + 1] == Apply(states[i], steps[i])
  }

  /** In every interleaving at most one leader loop is alive, the scheduler is started only while an
      established loop is alive, and Start never meets a started scheduler. */
  lemma {:induction false} RunIsSafe(states: seq<State>, steps: seq<Step>)
    requires IsRun(states, steps)
    ensures forall i | 0 <= i < |states| :: Safe(states[i])
    ensures forall i | 0 <= i < |steps| && steps[i].Establish? :: !states[i].started
  {
    RunIsInductive(states, steps);
    forall i | 0 <= i < |steps| && steps[i].Establish? ensures !states[i].started {
      InductiveIsSafe(states[i]);
      NoneLeads(states[i], steps[i].id);
    }
    forall i | 0 <= i < |states| ensures Safe(states[i]) {
      InductiveIsSafe(states[i]);
    }
  }

  lemma NoneLeads(s: State, id: nat)
    requires Inductive(s) && At(s, id, Establishing)
    ensures !s.started
  {
    InductiveIsSafe(s);
  }

  /** Where the outcome of a step takes its loop: a failed barrier to waiting, established as before, and a
      transfer of leadership to the end. */
  lemma OutcomeDecides(s: State, id: nat)
    requires Inductive(s) && id in s.loops
    ensures forall established :: s.loops[id] == AtBarrier(established) ==>
              && At(Apply(s, Barrier(id, false)), id, Waiting(established))
              && At(Apply(s, Barrier(id, true)), id, if established then Reconciling else Establishing)
    ensures s.loops[id] == Establishing ==>
              && At(Apply(s, Establish(id, true)), id, Reconciling) && At(Apply(s, Establish(id, false)), id, Revoking)
    ensures s.loops[id] == Revoking ==> At(Apply(s, Revoke(id)), id, Transferring)
    ensures s.loops[id] == Transferring ==>
              && id !in Apply(s, Transfer(id, true)).loops && At(Apply(s, Transfer(id, false)), id, Waiting(false))
  {
    if s.loops[id] == Establishing {
      NoneLeads(s, id);
    }
  }

  /** A failed reconciliation leads to waiting as well, a good one to a look at the channel. */
  lemma ThenWaits(s: State, id: nat)
    requires Inductive(s) && id in s.loops
    ensures s.loops[id] == Reconciling ==>
              && At(Apply(s, Reconcile(id, true)), id, Polling) && At(Apply(s, Reconcile(id, false)), id, Waiting(true))
    ensures s.loops[id] == Polling ==>
              At(Apply(s, Poll(id)), id, if s.channel == Closed(id) then Returning(true) else Waiting(true))
    ensures forall established :: s.loops[id] == Waiting(established) ==>
              && At(Apply(s, Timer(id)), id, AtBarrier(established))
              && At(Apply(s, StopSeen(id)), id, Returning(established))
    ensures s.loops[id].Returning? ==> id !in Apply(s, Return(id)).loops
  {
  }

  /** Once the monitor has returned it stays so, and no loop begins any more. */
  lemma {:induction false} ReturnedForGood(states: seq<State>, steps: seq<Step>, k: nat, l: nat)
    requires IsRun(states, steps) && k <= l < |states| && !states[k].monitoring
    ensures !states[l].monitoring && states[l].loops.Keys <= states[k].loops.Keys
  {
    if k < l {
      ReturnedForGood(states, steps, k, l - 1);
      ReturnedOneMore(states, steps, l - 1);
    }
  }

  lemma ReturnedOneMore(states: seq<State>, steps: seq<Step>, i: nat)
    requires IsRun(states, steps) && i < |steps| && !states[i].monitoring
    ensures !states[i + 1].monitoring && states[i + 1].loops.Keys <= states[i].loops.Keys
  {
    StaysReturned(states[i], steps[i]);
  }

  lemma StaysReturned(s: State, step: Step)
    requires Enabled(s, step) && !s.monitoring
    ensures !Apply(s, step).monitoring && Apply(s, step).loops.Keys <= s.loops.Keys
  {
  }

  // ----- The scheduler does run -----

  /** This loop has established leadership. */
  predicate Leads(s: State, id: nat) {
    id in s.loops && Established(s.loops[id])
  }

  /** A good Establish starts the scheduler under its loop, and Agent.Stop stops it. */
  lemma EstablishStarts(s: State, id: nat)
    requires Inductive(s) && Enabled(s, Establish(id, true))
    ensures Apply(s, Establish(id, true)).started && Leads(Apply(s, Establish(id, true)), id)
    ensures !Apply(s, AgentStopsScheduler).started
  {
    NoneLeads(s, id);
  }

  /** No other step makes a loop lead, and while it leads only Agent.Stop stops the scheduler. */
  lemma StartedChanges(s: State, step: Step, id: nat)
    requires Inductive(s) && Enabled(s, step) && Leads(Apply(s, step), id)
    ensures !Leads(s, id) ==> step == Establish(id, true)
    ensures Leads(s, id) && s.started && !Apply(s, step).started ==> step.AgentStopsScheduler?
  {
    InductiveIsSafe(s);
  }

  /** Since its Establish the loop has led, and at j the agent stopped the scheduler. */
  ghost predicate StoppedUnder(states: seq<State>, steps: seq<Step>, id: nat, j: nat, k: nat)
    requires |states| == |steps| + 1
  {
    j < k < |states| && steps[j].AgentStopsScheduler? && forall m | j <= m <= k :: Leads(states[m], id)
  }

  /** A loop that leads without a started scheduler had it stopped by Agent.Stop after it had established. */
  lemma {:induction false} LeadsUnstarted(states: seq<State>, steps: seq<Step>, id: nat, k: nat) returns (j: nat)
    requires IsRun(states, steps) && k < |states| && Leads(states[k], id) && !states[k].started
    ensures StoppedUnder(states, steps, id, j, k)
  {
    RunIsInductive(states, steps);
    StartedChanges(states[k - 1], steps[k - 1], id);
    if !Leads(states[k - 1], id) {
      EstablishStarts(states[k - 1], id);
    }
    j := k - 1;
    if !(Leads(states[k - 1], id) && states[k - 1].started) {
      j := LeadsUnstarted(states, steps, id, k - 1);
    }
  }

  /** So without Agent.Stop the scheduler is started exactly while some loop leads. */
  lemma StartedIffLed(states: seq<State>, steps: seq<Step>)
    requires IsRun(states, steps) && forall i | 0 <= i < |steps| :: !steps[i].AgentStopsScheduler?
    ensures forall k | 0 <= k < |states| :: states[k].started <==> exists id :: Leads(states[k], id)
  {
    RunIsInductive(states, steps);
    forall k | 0 <= k < |states| ensures states[k].started <==> exists id :: Leads(states[k], id) {
      if states[k].started {
        var id :| id in states[k].loops && Established(states[k].loops[id]);
        assert Leads(states[k], id);
      } else if id :| Leads(states[k], id) {
        var j := LeadsUnstarted(states, steps, id, k);
        assert false;
      }
    }
  }

  lemma {:induction false} RunIsInductive(states: seq<State>, steps: seq<Step>)
    requires IsRun(states, steps)
    ensures forall i | 0 <= i < |states| :: Inductive(states[i])
  {
    for k := 0 to |steps|
      invariant forall i | 0 <= i <= k :: Inductive(states[i])
    {
      StepKeepsInductive(states[k], steps[k]);
    }
  }

  /** The states that some enabled steps lead through. */
  ghost predicate LeadsTo(s: State, steps: seq<Step>, after: State)
    decreases |steps|
  {
    if steps == [] then s == after
    else Enabled(s, steps[0]) && LeadsTo(Apply(s, steps[0]), steps[1..], after)
  }

  /** A server that is elected while it holds no channel starts a loop; when its barrier and its Establish go
      well the loop leads and the scheduler is started. */
  lemma ElectionStarts(s: State) returns (after: State)
    requires Inductive(s) && s.monitoring && s.channel.NoChannel?
    ensures LeadsTo(s, [Elected, Barrier(s.nextId, true), Establish(s.nextId, true)], after)
    ensures after.started && Leads(after, s.nextId) && after.channel == Open(s.nextId)
  {
    var one := Apply(s, Elected);
    var two := Apply(one, Barrier(s.nextId, true));
    after := Apply(two, Establish(s.nextId, true));
    var id := s.nextId;
    assert s.loops == map[];
    assert [Establish(id, true)][1..] == [];
    assert [Barrier(id, true), Establish(id, true)][1..] == [Establish(id, true)];
    assert [Elected, Barrier(id, true), Establish(id, true)][1..] == [Barrier(id, true), Establish(id, true)];
    assert LeadsTo(after, [], after) && LeadsTo(two, [Establish(id, true)], after);
    assert LeadsTo(one, [Barrier(id, true), Establish(id, true)], after);
  }

  /** The monitor blocked on a closed channel always gets free: each loop that sees the stop request
      has a step that brings it nearer to its end, whatever the outcomes. */
  function Distance(phase: Phase): nat {
    match phase
    case Returning(_) => 1
    case Waiting(_) => 2
    case Polling => 3
    case Reconciling => 4
    case Transferring => 5
    case Revoking => 6
    case Establishing => 7
    case AtBarrier(_) => 8
  }

  predicate AboutLoop(step: Step, id: nat) {
    match step
    case Barrier(i, _) => i == id
    case Establish(i, _) => i == id
    case Revoke(i) => i == id
    case Transfer(i, _) => i == id
    case Reconcile(i, _) => i == id
    case Poll(i) => i == id
    case StopSeen(i) => i == id
    case Return(i) => i == id
    case _ => false
  }

  /** The monitor has closed the loop's channel, or the server shuts down. */
  predicate Asked(s: State, id: nat) {
    s.channel == Closed(id) || s.shutdown
  }

  /** Once asked to stop a loop that does not take the timer goes on to its end. */
  lemma StoppedLoopProgresses(s: State, step: Step, id: nat)
    requires Inductive(s) && id in s.loops && Asked(s, id)
    requires Enabled(s, step) && AboutLoop(step, id)
    ensures var after := Apply(s, step);
            id in after.loops ==> Distance(after.loops[id]) < Distance(s.loops[id])
  {
  }

  lemma StoppedLoopCanMove(s: State, id: nat) returns (step: Step)
    requires id in s.loops && (s.channel == Closed(id) || s.shutdown)
    ensures Enabled(s, step) && AboutLoop(step, id)
  {
    match s.loops[id]
    case AtBarrier(_) => step := Barrier(id, true);
    case Establishing => step := Establish(id, true);
    case Revoking => step := Revoke(id);
    case Transferring => step := Transfer(id, true);
    case Reconciling => step := Reconcile(id, true);
    case Polling => step := Poll(id);
    case Waiting(_) => step := StopSeen(id);
    case Returning(_) => step := Return(id);
  }

  lemma {:induction false} StoppedLoopEnds(s: State, id: nat) returns (steps: seq<Step>, after: State)
    requires Inductive(s) && (s.channel == Closed(id) || (s.shutdown && s.channel == Open(id)))
    ensures LeadsTo(s, steps, after) && |steps| <= if id in s.loops then Distance(s.loops[id]) else 0
    ensures after == s.(loops := map[], started := after.started) && !after.started
    decreases if id in s.loops then Distance(s.loops[id]) else 0
  {
    if id in s.loops {
      var step := StoppedLoopCanMove(s, id);
      StepKeepsInductive(s, step);
      StoppedLoopProgresses(s, step, id);
      OnlyMoves(s, step, id);
      steps, after := StoppedLoopEnds(Apply(s, step), id);
      steps := [step] + steps;
    } else {
      assert s.loops == map[];
      steps, after := [], s;
    }
  }

  /** A step of a loop leaves the channel and the flags of the monitor alone. */
  lemma OnlyMoves(s: State, step: Step, id: nat)
    requires Inductive(s) && Enabled(s, step) && AboutLoop(step, id)
    ensures var after := Apply(s, step);
            after == s.(loops := after.loops, started := after.started)
  {
    InductiveIsSafe(s);
  }

  lemma {:induction false} LeadsOn(s: State, steps: seq<Step>, after: State, step: Step)
    requires LeadsTo(s, steps, after) && Enabled(after, step)
    ensures LeadsTo(s, steps + [step], Apply(after, step))
    decreases |steps|
  {
    if steps == [] {
      assert LeadsTo(Apply(after, step), [step][1..], Apply(after, step));
    } else {
      LeadsOn(Apply(s, steps[0]), steps[1..], after, step);
      assert (steps + [step])[1..] == steps[1..] + [step];
    }
  }

  /** After a deposition at most eight steps of the loop and one of the monitor lead to a state without loop and
      channel and with a stopped scheduler, from which the server can be elected anew. */
  lemma DeposedEnds(s: State, id: nat) returns (steps: seq<Step>, after: State)
    requires Inductive(s) && s.monitoring && s.channel == Open(id)
    ensures LeadsTo(s, [Deposed] + steps, after) && |steps| <= 9
    ensures after.monitoring && after.channel.NoChannel? && after.loops == map[] && !after.started
  {
    var deposed := Apply(s, Deposed);
    StepKeepsInductive(s, Deposed);
    steps, after := StoppedLoopEnds(deposed, id);
    LeadsOn(deposed, steps, after, LoopsEnded);
    steps, after := steps + [LoopsEnded], Apply(after, LoopsEnded);
    assert ([Deposed] + steps)[1..] == steps;
  }

  /** After a shutdown at most eight steps of the loop and one of the monitor lead to a state in which none of
      them goes on and the scheduler is stopped. */
  lemma ShutdownEnds(s: State, id: nat) returns (steps: seq<Step>, after: State)
    requires Inductive(s) && s.monitoring && s.channel == Open(id)
    ensures LeadsTo(s, [Shutdown] + steps, after) && |steps| <= 9
    ensures !after.monitoring && after.loops == map[] && !after.started
  {
    var shut := Apply(s, Shutdown);
    StepKeepsInductive(s, Shutdown);
    steps, after := StoppedLoopEnds(shut, id);
    LeadsOn(shut, steps, after, MonitorReturns);
    steps, after := steps + [MonitorReturns], Apply(after, MonitorReturns);
    assert ([Shutdown] + steps)[1..] == steps;
  }

  // ----- No loop stops for nothing -----

  predicate ReturnsAsked(s: State) {
    forall id | id in s.loops :: s.loops[id].Returning? ==> Asked(s, id)
  }

  lemma StepKeepsAsked(s: State, step: Step)
    requires Inductive(s) && ReturnsAsked(s) && Enabled(s, step)
    ensures ReturnsAsked(Apply(s, step))
  {
    InductiveIsSafe(s);
  }

  lemma GoneWhenAsked(s: State, step: Step, id: nat)
    requires Inductive(s) && ReturnsAsked(s) && Enabled(s, step) && id in s.loops && id !in Apply(s, step).loops
    ensures (step == Return(id) && Asked(s, id)) || step == Transfer(id, true)
  {
    InductiveIsSafe(s);
  }

  lemma RunReturnsAsked(states: seq<State>, steps: seq<Step>)
    requires IsRun(states, steps)
    ensures forall k | 0 <= k < |states| :: ReturnsAsked(states[k])
  {
    RunIsInductive(states, steps);
    for k := 0 to |steps|
      invariant forall i | 0 <= i <= k :: ReturnsAsked(states[i])
    {
      StepKeepsAsked(states[k], steps[k]);
    }
  }

  /** In every interleaving a loop goes only by returning after it was asked to, by its closed channel or a
      shutdown, or by handing leadership over. */
  lemma LoopsStay(states: seq<State>, steps: seq<Step>, k: nat, id: nat)
    requires IsRun(states, steps) && k < |steps| && id in states[k].loops && id !in states[k + 1].loops
    ensures || (steps[k] == Return(id) && (states[k].channel == Closed(id) || states[k].shutdown))
            || steps[k] == Transfer(id, true)
  {
    RunIsInductive(states, steps);
    RunReturnsAsked(states, steps);
    GoneWhenAsked(states[k], steps[k], id);
  }
}
