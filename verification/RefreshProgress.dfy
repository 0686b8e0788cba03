/** How long an operation or a login can go on: every step of its own uses up work that nothing else
    gives back, so no caller and no task loops, and when nobody can move everybody has finished. */
module RefreshProgress {
  import opened Wrappers
  import opened ClientErrors
  import opened RefreshCoordinator
  import opened RefreshProtocol
  import opened RefreshInvariants
  import opened RefreshTheorems

  const CALLER_WORK := 16
  const TASK_WORK := 6

  /** The most steps of its own a caller still has before it in the current attempt. */
  function PhaseWork(phase: CallerPhase): nat {
    match phase
    case Sampling => 8
    case Peeking(_) => 7
    case WantLock => 6
    case Deciding(_) => 5
    case Waiting(_) => 4
    case Reaping(_) => 3
    case WantSlot(_, _) => 3
    case Exchanging(_) => 2
    case Evicting(_, _) => 1
    case Done(_) => 0
    case Cancelled => 0
  }

  /** A first attempt may be followed by a second one. */
  function CallerWork(caller: Caller): nat {
    PhaseWork(caller.phase) + (if caller.attempt == 1 && Active(caller) then 8 else 0)
  }

  function TaskWork(phase: TaskPhase): nat {
    match phase
    case Spawned => 6
    case LoginWantSlot(_, _) => 5
    case LoginExchanging(_) => 4
    case Storing(_) => 3
    case Finishing(_) => 2
    case Publishing(_) => 1
    case Gone => 0
  }

  /** An agent that is not there yet has all its work before it. */
  function Work(s: State, a: Agent): nat {
    match a
    case CallerAgent(i) => if i < |s.callers| then CallerWork(s.callers[i]) else CALLER_WORK
    case TaskAgent(f) => if f < |s.flights| then TaskWork(s.flights[f].phase) else TASK_WORK
  }

  /** The steps after which an attempt may be over. */
  lemma {:induction false} EndingStepLowersWork(c: Config, s: State, step: Step, i: nat)
    requires Enabled(c, s, step) && i < |s.callers|
    requires step == DecideLocked(i) || step == Observe(i) || step == GiveUpSlot(i) || step == Evict(i)
    ensures CallerWork(Apply(c, s, step).callers[i]) < CallerWork(s.callers[i])
  {
  }

  lemma {:induction false} ReapLowersWork(c: Config, s: State, i: nat, lag: nat)
    requires Enabled(c, s, Reap(i, lag)) && i < |s.callers|
    ensures CallerWork(Apply(c, s, Reap(i, lag)).callers[i]) < CallerWork(s.callers[i])
  {
  }

  lemma {:induction false} ReceiveLowersWork(c: Config, s: State, i: nat, reply: Answer)
    requires Enabled(c, s, Receive(i, reply)) && i < |s.callers|
    ensures CallerWork(Apply(c, s, Receive(i, reply)).callers[i]) < CallerWork(s.callers[i])
  {
  }

  lemma {:induction false} MovingLowersWork(c: Config, s: State, step: Step, i: nat)
    requires Enabled(c, s, step) && i < |s.callers|
    requires step == Sample(i) || step == Peek(i) || step == Acquire(i) || step == TakeSlot(i)
    ensures CallerWork(Apply(c, s, step).callers[i]) < CallerWork(s.callers[i])
  {
  }

  lemma {:induction false} CallerStepLowersWork(c: Config, s: State, step: Step, i: nat)
    requires Enabled(c, s, step) && Mover(step) == Some(CallerAgent(i))
    ensures Work(Apply(c, s, step), CallerAgent(i)) < Work(s, CallerAgent(i))
  {
    match step
    case Reap(_, lag) => ReapLowersWork(c, s, i, lag);
    case Receive(_, reply) => ReceiveLowersWork(c, s, i, reply);
    case DecideLocked(_) => EndingStepLowersWork(c, s, step, i);
    case Observe(_) => EndingStepLowersWork(c, s, step, i);
    case GiveUpSlot(_) => EndingStepLowersWork(c, s, step, i);
    case Evict(_) => EndingStepLowersWork(c, s, step, i);
    case _ => MovingLowersWork(c, s, step, i);
  }

  lemma {:induction false} TaskStepLowersWork(c: Config, s: State, step: Step, f: nat)
    requires Enabled(c, s, step) && Mover(step) == Some(TaskAgent(f))
    ensures Work(Apply(c, s, step), TaskAgent(f)) < Work(s, TaskAgent(f))
  {
  }

  lemma {:induction false} CancellingLowersWork(c: Config, s: State, i: nat)
    requires Enabled(c, s, Cancel(i))
    ensures Work(Apply(c, s, Cancel(i)), CallerAgent(i)) <= Work(s, CallerAgent(i))
  {
  }

  lemma {:induction false} InterruptingLowersWork(c: Config, s: State, f: nat)
    requires Enabled(c, s, Interrupt(f))
    ensures Work(Apply(c, s, Interrupt(f)), TaskAgent(f)) <= Work(s, TaskAgent(f))
  {
  }

  lemma {:induction false} OnlyArrivalsAddCallers(c: Config, s: State, step: Step)
    requires Enabled(c, s, step) && !step.Arrive?
    ensures |Apply(c, s, step).callers| == |s.callers|
  {
  }

  lemma {:induction false} ArrivalHasBoundedWork(c: Config, s: State, kind: OperationKind, endpointOk: bool)
    ensures |Apply(c, s, Arrive(kind, endpointOk)).callers| == |s.callers| + 1
    ensures CallerWork(Apply(c, s, Arrive(kind, endpointOk)).callers[|s.callers|]) <= CALLER_WORK
  {
  }

  /** Nothing that other agents, arrivals, cancellations, interruptions or the clock do gives an agent
      more work. */
  lemma {:induction false} OthersGiveNoWork(c: Config, s: State, step: Step, a: Agent)
    requires Enabled(c, s, step) && Mover(step) != Some(a)
    ensures Work(Apply(c, s, step), a) <= Work(s, a)
  {
    match a
    case CallerAgent(i) =>
      if step == Cancel(i) {
        CancellingLowersWork(c, s, i);
      } else if i < |s.callers| {
        OthersUntouched(c, s, step, i);
      } else if i < |Apply(c, s, step).callers| {
        if step.Arrive? {
          ArrivalHasBoundedWork(c, s, step.kind, step.endpointOk);
        } else {
          OnlyArrivalsAddCallers(c, s, step);
        }
      }
    case TaskAgent(f) =>
      if step == Interrupt(f) {
        InterruptingLowersWork(c, s, f);
      } else if f < |s.flights| {
        OtherTasksUntouched(c, s, step, f);
      } else if f < |Apply(c, s, step).flights| {
        NewFlightIsSpawned(c, s, step);
      }
  }

  // ---------- whole runs ----------

  /** A run together with the steps it took. */
  ghost predicate IsTrace(c: Config, steps: seq<Step>, run: seq<State>) {
    && |run| == |steps| + 1 && run[0] == Init()
    && forall k :: 0 <= k < |steps| ==> Enabled(c, run[k], steps[k]) && run[k + 1] == Apply(c, run[k], steps[k])
  }

  lemma {:induction false} RunHasTrace(c: Config, run: seq<State>)
    requires IsRun(c, run)
    ensures exists steps :: IsTrace(c, steps, run)
  {
    if |run| == 1 {
      assert IsTrace(c, [], run);
    } else {
      var last := |run| - 1;
      RunHasTrace(c, run[..last]);
      var before :| IsTrace(c, before, run[..last]);
      assert Next(c, run[last - 1], run[last]);
      var step :| Enabled(c, run[last - 1], step) && run[last] == Apply(c, run[last - 1], step);
      var steps := before + [step];
      forall k | 0 <= k < |steps|
        ensures Enabled(c, run[k], steps[k]) && run[k + 1] == Apply(c, run[k], steps[k])
      {
        assert k < last - 1 ==> run[..last][k] == run[k] && run[..last][k + 1] == run[k + 1] && steps[k] == before[k];
      }
      assert IsTrace(c, steps, run);
    }
  }

  function OwnSteps(steps: seq<Step>, a: Agent): nat {
    if steps == [] then 0
    else OwnSteps(steps[..|steps| - 1], a) + (if Mover(steps[|steps| - 1]) == Some(a) then 1 else 0)
  }

  /** Steps taken and work left never exceed the work there was. */
  lemma {:induction false} StepsUseUpWork(c: Config, steps: seq<Step>, run: seq<State>, a: Agent)
    requires IsTrace(c, steps, run)
    ensures OwnSteps(steps, a) + Work(run[|steps|], a) <= Work(run[0], a)
  {
    if steps != [] {
      var last := |steps| - 1;
      StepsUseUpWork(c, steps[..last], run[..last + 1], a);
      if Mover(steps[last]) != Some(a) {
        OthersGiveNoWork(c, run[last], steps[last], a);
      } else if a.CallerAgent? {
        CallerStepLowersWork(c, run[last], steps[last], a.caller);
      } else {
        TaskStepLowersWork(c, run[last], steps[last], a.task);
      }
    }
  }

  /** In every run an operation takes at most sixteen steps of its own, retry included, and a login
      task at most six, whatever everybody else does. */
  lemma {:induction false} OwnStepsAreBounded(c: Config, steps: seq<Step>, run: seq<State>, a: Agent)
    requires IsTrace(c, steps, run)
    ensures OwnSteps(steps, a) <= if a.CallerAgent? then 16 else 6
  {
    StepsUseUpWork(c, steps, run, a);
  }

  lemma {:induction false} MoversAreLive(c: Config, s: State, step: Step, a: Agent)
    requires Enabled(c, s, step) && Mover(step) == Some(a)
    ensures Live(s, a)
  {
  }

  /** Somebody can take a step of their own exactly as long as somebody has not finished; so with the
      bounds above, callers that no longer arrive all finish. */
  lemma {:induction false} StuckMeansFinished(c: Config, run: seq<State>, k: nat)
    requires Reached(c, run, k)
    ensures (exists a :: CanMove(c, run[k], a)) <==> (exists a :: Live(run[k], a))
  {
    if a :| Live(run[k], a) {
      NobodyIsStranded(c, run, k, a);
      var chain :| IsChain(c, run[k], chain) && chain[0] == a && CanMove(c, run[k], chain[|chain| - 1]);
    }
    if a :| CanMove(c, run[k], a) {
      var step :| Enabled(c, run[k], step) && Mover(step) == Some(a);
      MoversAreLive(c, run[k], step, a);
    }
  }
}
