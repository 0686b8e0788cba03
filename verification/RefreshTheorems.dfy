/** What the client promises about every run: one login at a time, no deadlock, bounded sending,
    spaced failures, and a token cell that never goes backwards. */
module RefreshTheorems {
  import opened Wrappers
  import opened ClientErrors
  import opened RefreshCoordinator
  import opened RefreshProtocol
  import opened RefreshInvariants

  ghost predicate Reached(c: Config, run: seq<State>, k: nat) {
    ValidConfig(c) && IsRun(c, run) && k < |run|
  }

  // ---------- single flight ----------

  /** A login task that has not yet reported to the coordinator. */
  ghost predicate LoginRunning(s: State, f: nat) {
    f < |s.flights| && Pending(s.flights[f].phase)
  }

  lemma {:induction false} SingleFlight(c: Config, run: seq<State>, k: nat)
    requires Reached(c, run, k)
    ensures forall f: nat, g: nat :: LoginRunning(run[k], f) && LoginRunning(run[k], g) ==> f == g
    ensures forall f: nat :: run[k].shared.inFlight == Some(f) <==> f < |run[k].flights| && f !in run[k].settled
    ensures forall f: nat :: LoginRunning(run[k], f) ==> run[k].shared.inFlight == Some(f)
  {
    RunInv(c, run, k);
    var s := run[k];
    forall f: nat | LoginRunning(s, f)
      ensures s.shared.inFlight == Some(f)
    {
      assert FlightOk(s, f);
    }
  }

  ghost predicate StartJustified(s: State, t: State, i: nat) {
    && i < |s.callers| && s.callers[i].phase.Deciding?
    && FreshToken(s.shared.token, s.callers[i].phase.sampled).None?
    && !CoolingDown(s.shared, s.now)
    && t.lock == None
    && s.shared.inFlight.None? && t.shared.inFlight == Some(|s.flights|)
    && t.flights == s.flights + [Flight(Spawned, None)]
    && t.log == s.log + [LoginStarted(|s.flights|, s.now)]
  }

  lemma {:induction false} DecisionsStart(c: Config, s: State, i: nat)
    requires Enabled(c, s, DecideLocked(i))
    ensures
      var t := ApplyDecide(c, s, i);
      if |t.flights| != |s.flights| then StartJustified(s, t, i) else t.log == s.log
  {
  }

  /** A login starts in exactly one way: a caller holding the lock, who found no fresh token, sees
      no unexpired cooldown and no flight. */
  lemma {:induction false} StartsOnlyUnderLock(c: Config, s: State, step: Step)
    requires LockInv(s) && Enabled(c, s, step)
    ensures
      var t := Apply(c, s, step);
      if |t.flights| != |s.flights| then
        step.DecideLocked? && s.lock == Some(step.caller) && StartJustified(s, t, step.caller)
      else
        forall flight: nat, at: nat :: LoginStarted(flight, at) in t.log ==> LoginStarted(flight, at) in s.log
  {
    if step.DecideLocked? {
      assert HoldsLock(s, step.caller);
      DecisionsStart(c, s, step.caller);
    } else {
      OnlyDecisionsStart(c, s, step);
    }
  }

  /** A flight completes once: any later completion reported for its channel, by its task or by any
      waiter that saw it close, changes nothing and reports nothing. */
  lemma {:induction false} LateFinishIsIgnored(c: Config, run: seq<State>, k: nat, flight: nat,
                                               failure: Option<ClientError>, later: nat)
    requires Reached(c, run, k) && flight < |run[k].flights|
    ensures Finish(run[k].shared, flight, failure, run[k].now, later) == (run[k].shared, None)
       <==> flight in run[k].settled
  {
    RunInv(c, run, k);
  }

  // ---------- nobody waits for ever ----------

  predicate Live(s: State, a: Agent) {
    match a
    case CallerAgent(i) => i < |s.callers| && Active(s.callers[i])
    case TaskAgent(f) => f < |s.flights| && !s.flights[f].phase.Gone?
  }

  /** The agent whose code a step runs; cancellation and interruption come from outside. */
  function Mover(step: Step): Option<Agent> {
    match step
    case Sample(i) => Some(CallerAgent(i))
    case Peek(i) => Some(CallerAgent(i))
    case Acquire(i) => Some(CallerAgent(i))
    case DecideLocked(i) => Some(CallerAgent(i))
    case Observe(i) => Some(CallerAgent(i))
    case Reap(i, _) => Some(CallerAgent(i))
    case TakeSlot(i) => Some(CallerAgent(i))
    case GiveUpSlot(i) => Some(CallerAgent(i))
    case Receive(i, _) => Some(CallerAgent(i))
    case Evict(i) => Some(CallerAgent(i))
    case BeginLogin(f, _) => Some(TaskAgent(f))
    case TakeLoginSlot(f) => Some(TaskAgent(f))
    case GiveUpLoginSlot(f) => Some(TaskAgent(f))
    case ReceiveLogin(f, _) => Some(TaskAgent(f))
    case StoreToken(f) => Some(TaskAgent(f))
    case FinishLogin(f, _) => Some(TaskAgent(f))
    case Publish(f) => Some(TaskAgent(f))
    case _ => None
  }

  ghost predicate CanMove(c: Config, s: State, a: Agent) {
    exists step :: Enabled(c, s, step) && Mover(step) == Some(a)
  }

  /** `a` is held up, and only `b` can let it go on. */
  ghost predicate WaitsFor(c: Config, s: State, a: Agent, b: Agent) {
    match a
    case CallerAgent(i) =>
      && i < |s.callers|
      && (match s.callers[i].phase
          case WantLock => b.CallerAgent? && s.lock == Some(b.caller)
          case Reaping(_) => b.CallerAgent? && s.lock == Some(b.caller)
          case Waiting(f) => b == TaskAgent(f) && f < |s.flights| && s.flights[f].published.None? && Live(s, b)
          case WantSlot(_, deadline) => !SlotFree(c, s) && s.now < deadline && b in s.slots
          case _ => false)
    case TaskAgent(f) =>
      && f < |s.flights|
      && (match s.flights[f].phase
          case LoginWantSlot(_, deadline) => !SlotFree(c, s) && s.now < deadline && b in s.slots
          case Finishing(_) => b.CallerAgent? && s.lock == Some(b.caller)
          case _ => false)
  }

  ghost predicate IsChain(c: Config, s: State, chain: seq<Agent>) {
    && 0 < |chain|
    && forall k :: 0 < k < |chain| ==> WaitsFor(c, s, chain[k - 1], chain[k])
  }

  function Rank(s: State, a: Agent): nat {
    match a
    case CallerAgent(i) =>
      if |s.callers| <= i then 0
      else (match s.callers[i].phase
            case Waiting(_) => 2
            case WantLock => 1
            case Reaping(_) => 1
            case WantSlot(_, _) => 1
            case _ => 0)
    case TaskAgent(f) =>
      if |s.flights| <= f then 0
      else if s.flights[f].phase.LoginWantSlot? || s.flights[f].phase.Finishing? then 1 else 0
  }

  lemma {:induction false} WaitingLowersRank(c: Config, s: State, a: Agent, b: Agent)
    requires Inv(c, s) && WaitsFor(c, s, a, b)
    ensures Rank(s, b) < Rank(s, a)
  {
    if b.CallerAgent? && s.lock == Some(b.caller) {
      assert HoldsLock(s, b.caller);
    }
  }

  lemma {:induction false} ChainLowersRank(c: Config, s: State, chain: seq<Agent>)
    requires Inv(c, s) && IsChain(c, s, chain)
    ensures Rank(s, chain[|chain| - 1]) + |chain| - 1 <= Rank(s, chain[0])
  {
    var last := |chain| - 1;
    if last > 0 {
      ChainLowersRank(c, s, chain[..last]);
      WaitingLowersRank(c, s, chain[last - 1], chain[last]);
    }
  }

  /** No cycle of waiting exists in any reachable state, and no chain is longer than a caller, a
      task and the holder that task is queued behind. */
  lemma {:induction false} WaitForIsAcyclic(c: Config, run: seq<State>, k: nat, chain: seq<Agent>)
    requires Reached(c, run, k) && IsChain(c, run[k], chain)
    ensures |chain| <= 3
    ensures 1 < |chain| ==> chain[0] != chain[|chain| - 1]
  {
    RunInv(c, run, k);
    ChainLowersRank(c, run[k], chain);
  }

  /** A caller watching a flight holds neither a request slot nor the coordinator lock. */
  lemma {:induction false} WaitersHoldNothing(c: Config, run: seq<State>, k: nat, i: nat)
    requires Reached(c, run, k) && i < |run[k].callers|
    requires run[k].callers[i].phase.Waiting? || run[k].callers[i].phase.Reaping?
    ensures CallerAgent(i) !in run[k].slots && run[k].lock != Some(i)
  {
    RunInv(c, run, k);
    assert CallerAgent(i) in run[k].slots <==> HoldsSlot(run[k], CallerAgent(i));
    assert run[k].lock == Some(i) <==> HoldsLock(run[k], i);
  }

  /** An agent at rank zero that is still live can always move. */
  lemma {:induction false} UnqueuedCanMove(c: Config, s: State, a: Agent)
    requires Inv(c, s) && Live(s, a) && Rank(s, a) == 0
    ensures CanMove(c, s, a)
  {
    match a
    case CallerAgent(i) =>
      var step := match s.callers[i].phase
        case Sampling => Sample(i)
        case Peeking(_) => Peek(i)
        case Deciding(_) => DecideLocked(i)
        case Exchanging(_) => Receive(i, Answered)
        case _ => Evict(i);
      assert Enabled(c, s, step) && Mover(step) == Some(a);
    case TaskAgent(f) =>
      var step := match s.flights[f].phase
        case Spawned => BeginLogin(f, true)
        case LoginExchanging(_) => ReceiveLogin(f, Granted(1, false))
        case Storing(_) => StoreToken(f)
        case _ => Publish(f);
      assert Enabled(c, s, step) && Mover(step) == Some(a);
  }

  ghost predicate MovesOrWaits(c: Config, s: State, a: Agent) {
    CanMove(c, s, a) || exists b :: WaitsFor(c, s, a, b) && Live(s, b)
  }

  lemma {:induction false} LockQueueMovesOrWaits(c: Config, s: State, a: Agent, step: Step)
    requires LockInv(s) && Mover(step) == Some(a)
    requires s.lock.None? ==> Enabled(c, s, step)
    requires s.lock.Some? ==> WaitsFor(c, s, a, CallerAgent(s.lock.value))
    ensures MovesOrWaits(c, s, a)
  {
    if s.lock.Some? {
      assert HoldsLock(s, s.lock.value) && Live(s, CallerAgent(s.lock.value));
    }
  }

  lemma {:induction false} SlotQueueMovesOrWaits(c: Config, s: State, a: Agent, step: Step)
    requires ValidConfig(c) && SlotInv(c, s) && Mover(step) == Some(a)
    requires Enabled(c, s, step) || (!SlotFree(c, s) && forall b :: b in s.slots ==> WaitsFor(c, s, a, b))
    ensures MovesOrWaits(c, s, a)
  {
    if !Enabled(c, s, step) {
      assert s.slots != {};
      var b :| b in s.slots;
      assert HoldsSlot(s, b) && Live(s, b);
    }
  }

  lemma {:induction false} CallerMovesOrWaits(c: Config, s: State, i: nat)
    requires Inv(c, s) && Live(s, CallerAgent(i)) && 0 < Rank(s, CallerAgent(i))
    ensures MovesOrWaits(c, s, CallerAgent(i))
  {
    var a := CallerAgent(i);
    match s.callers[i].phase
    case WantLock => LockQueueMovesOrWaits(c, s, a, Acquire(i));
    case Reaping(_) => LockQueueMovesOrWaits(c, s, a, Reap(i, 0));
    case WantSlot(_, deadline) =>
      SlotQueueMovesOrWaits(c, s, a, if deadline <= s.now then GiveUpSlot(i) else TakeSlot(i));
    case Waiting(f) =>
      assert CallerOk(s, i);
      if s.flights[f].published.Some? || s.flights[f].phase.Gone? {
        assert Enabled(c, s, Observe(i)) && Mover(Observe(i)) == Some(a);
      } else {
        assert WaitsFor(c, s, a, TaskAgent(f));
      }
    case _ =>
  }

  lemma {:induction false} TaskMovesOrWaits(c: Config, s: State, f: nat)
    requires Inv(c, s) && Live(s, TaskAgent(f)) && 0 < Rank(s, TaskAgent(f))
    ensures MovesOrWaits(c, s, TaskAgent(f))
  {
    var a := TaskAgent(f);
    match s.flights[f].phase
    case LoginWantSlot(_, deadline) =>
      SlotQueueMovesOrWaits(c, s, a, if deadline <= s.now then GiveUpLoginSlot(f) else TakeLoginSlot(f));
    case Finishing(_) => LockQueueMovesOrWaits(c, s, a, FinishLogin(f, 0));
    case _ =>
  }

  lemma {:induction false} LiveAgentIsUnblocked(c: Config, s: State, a: Agent)
    requires Inv(c, s) && Live(s, a)
    ensures exists chain :: IsChain(c, s, chain) && chain[0] == a && CanMove(c, s, chain[|chain| - 1])
    decreases Rank(s, a)
  {
    if Rank(s, a) == 0 {
      UnqueuedCanMove(c, s, a);
    } else {
      match a
      case CallerAgent(i) => CallerMovesOrWaits(c, s, i);
      case TaskAgent(f) => TaskMovesOrWaits(c, s, f);
    }
    if CanMove(c, s, a) {
      assert IsChain(c, s, [a]);
    } else {
      var b :| WaitsFor(c, s, a, b) && Live(s, b);
      WaitingLowersRank(c, s, a, b);
      LiveAgentIsUnblocked(c, s, b);
      var rest :| IsChain(c, s, rest) && rest[0] == b && CanMove(c, s, rest[|rest| - 1]);
      var chain := [a] + rest;
      forall k | 0 < k < |chain|
        ensures WaitsFor(c, s, chain[k - 1], chain[k])
      {
        assert k > 1 ==> WaitsFor(c, s, rest[k - 2], rest[k - 1]);
      }
      assert IsChain(c, s, chain);
    }
  }

  /** No deadlock and no stranded waiter: in every reachable state every unfinished caller or task
      either can take a step of its own or waits, directly or through one task, for one that can. */
  lemma {:induction false} NobodyIsStranded(c: Config, run: seq<State>, k: nat, a: Agent)
    requires Reached(c, run, k) && Live(run[k], a)
    ensures exists chain :: IsChain(c, run[k], chain) && chain[0] == a && CanMove(c, run[k], chain[|chain| - 1])
  {
    RunInv(c, run, k);
    LiveAgentIsUnblocked(c, run[k], a);
  }

  // ---------- what is sent ----------

  /** A read is sent at most twice and anything else at most once; an operation that ends with one
      of the four nothing-was-sent errors did not send its last attempt, and one that ends any other
      way did. For mutations and observable reads that means: sent never, or exactly once. */
  lemma {:induction false} SendingIsBounded(c: Config, run: seq<State>, k: nat, i: nat)
    requires Reached(c, run, k) && i < |run[k].callers|
    ensures
      var caller := run[k].callers[i];
      && caller.sent <= (if caller.kind.Read? then 2 else 1)
      && (caller.phase.Done? ==>
            var answer := caller.phase.answer;
            var nothing := answer.Failed? && answer.error.PromisesNothingSent();
            && caller.sent == caller.attempt - (if nothing then 1 else 0)
            && (!caller.kind.Read? ==> caller.sent == if nothing then 0 else 1))
  {
    RunInv(c, run, k);
    assert CallerOk(run[k], i);
  }

  /** An attempt number changes only to retry a read whose own single request was answered 401, and
      an operation reports a 401 only when its own last request was refused. */
  ghost predicate RetryJustified(before: Caller, after: Caller) {
    && (before.attempt != after.attempt ==>
          before.kind.Read? && before.phase.Evicting? && before.sent == before.refused == 1 && after.attempt == 2)
    && (after.phase.Done? && after.phase.answer.Failed? && after.phase.answer.error.Is401() ==>
          after.refused == after.sent == if after.kind.Read? then 2 else 1)
  }

  lemma {:induction false} ObservingKeepsAttempt(c: Config, s: State, i: nat)
    requires FlightInv(s) && i < |s.callers| && Enabled(c, s, Observe(i))
    ensures Apply(c, s, Observe(i)).callers[i].attempt == s.callers[i].attempt
  {
    assert FlightOk(s, s.callers[i].phase.flight);
  }

  lemma {:induction false} RefusingKeepsAttempt(c: Config, s: State, step: Step, i: nat)
    requires i < |s.callers| && Enabled(c, s, step)
    requires step == DecideLocked(i) || (step.Reap? && step.caller == i) || step == GiveUpSlot(i)
    ensures Apply(c, s, step).callers[i].attempt == s.callers[i].attempt
  {
  }

  lemma {:induction false} ReceivingKeepsAttempt(c: Config, s: State, i: nat, reply: Answer)
    requires i < |s.callers| && Enabled(c, s, Receive(i, reply))
    ensures Apply(c, s, Receive(i, reply)).callers[i].attempt == s.callers[i].attempt
  {
  }

  lemma {:induction false} MovingKeepsAttempt(c: Config, s: State, step: Step, i: nat)
    requires i < |s.callers| && Enabled(c, s, step)
    requires step == Cancel(i) || step == Sample(i) || step == Peek(i) || step == Acquire(i) || step == TakeSlot(i)
    ensures Apply(c, s, step).callers[i].attempt == s.callers[i].attempt
  {
  }

  lemma {:induction false} OnlyEvictingRetries(c: Config, s: State, step: Step, i: nat)
    requires FlightInv(s) && i < |s.callers| && Enabled(c, s, step) && ActsFor(step, i) && !step.Evict?
    ensures i < |Apply(c, s, step).callers| && Apply(c, s, step).callers[i].attempt == s.callers[i].attempt
  {
    match step
    case Observe(_) => ObservingKeepsAttempt(c, s, i);
    case DecideLocked(_) => RefusingKeepsAttempt(c, s, step, i);
    case Reap(_, _) => RefusingKeepsAttempt(c, s, step, i);
    case GiveUpSlot(_) => RefusingKeepsAttempt(c, s, step, i);
    case Receive(_, reply) => ReceivingKeepsAttempt(c, s, i, reply);
    case _ => MovingKeepsAttempt(c, s, step, i);
  }

  lemma {:induction false} EvictingRetriesReads(c: Config, s: State, i: nat)
    requires i < |s.callers| && CallerOk(s, i) && Enabled(c, s, Evict(i))
    ensures
      var before, after := s.callers[i], Apply(c, s, Evict(i)).callers[i];
      before.attempt != after.attempt ==> before.kind.Read? && before.sent == before.refused == 1 && after.attempt == 2
  {
  }

  lemma {:induction false} OrderedCallerReportsOwn401(s: State, i: nat)
    requires i < |s.callers| && CallerOk(s, i)
    ensures
      var caller := s.callers[i];
      caller.phase.Done? && caller.phase.answer.Failed? && caller.phase.answer.error.Is401() ==>
        caller.refused == caller.sent == if caller.kind.Read? then 2 else 1
  {
  }

  lemma {:induction false} StepJustifiesRetry(c: Config, s: State, step: Step, i: nat)
    requires FlightInv(s) && i < |s.callers| && CallerOk(s, i) && Enabled(c, s, step)
    ensures i < |Apply(c, s, step).callers|
    ensures RetryJustified(s.callers[i], Apply(c, s, step).callers[i])
  {
    CallerKeptAt(c, s, step, i);
    OrderedCallerReportsOwn401(Apply(c, s, step), i);
    if !ActsFor(step, i) {
      OthersUntouched(c, s, step, i);
    } else if step == Evict(i) {
      EvictingRetriesReads(c, s, i);
    } else {
      OnlyEvictingRetries(c, s, step, i);
    }
  }

  lemma {:induction false} NextJustifiesRetry(c: Config, s: State, t: State, i: nat)
    requires FlightInv(s) && i < |s.callers| && CallerOk(s, i) && Next(c, s, t)
    ensures i < |t.callers| && RetryJustified(s.callers[i], t.callers[i])
  {
    var step :| Enabled(c, s, step) && t == Apply(c, s, step);
    StepJustifiesRetry(c, s, step, i);
  }

  lemma {:induction false} ReachedCallerIsOk(c: Config, run: seq<State>, k: nat, i: nat)
    requires Reached(c, run, k) && i < |run[k].callers|
    ensures FlightInv(run[k]) && CallerOk(run[k], i)
  {
    RunInv(c, run, k);
  }

  /** A read is retried only after its own request was sent and refused: errors of a login, 401s
      included, never reach a caller unwrapped. */
  lemma {:induction false} RetryNeedsOwnRefusal(c: Config, run: seq<State>, k: nat, i: nat)
    requires 0 < k && Reached(c, run, k) && i < |run[k - 1].callers|
    ensures i < |run[k].callers| && RetryJustified(run[k - 1].callers[i], run[k].callers[i])
  {
    ReachedCallerIsOk(c, run, k - 1, i);
    assert Next(c, run[k - 1], run[k]);
    NextJustifiesRetry(c, run[k - 1], run[k], i);
  }

  /** A mutation never ends as merely undecodable: once sent, an unreadable answer is reported as a
      mutation whose outcome is unknown. */
  lemma {:induction false} UnreadableMutationsAreUnknown(c: Config, run: seq<State>, k: nat, i: nat)
    requires Reached(c, run, k) && i < |run[k].callers| && run[k].callers[i].kind.Mutation?
    ensures run[k].callers[i].phase != Done(Failed(InvalidResponse))
    ensures run[k].callers[i].phase == Done(Failed(InvalidMutationResponse)) ==> run[k].callers[i].sent == 1
  {
    ReachedCallerIsOk(c, run, k, i);
  }

  // ---------- cooldowns over whole runs ----------

  lemma {:induction false} CooldownBounds(failure: ClientError)
    ensures AUTH_FAILURE_COOLDOWN <= CooldownFor(failure) <= MAX_RETRY_AFTER
  {
  }

  /** A failure enters the history only when its flight completes, at that instant, and with the
      error that ended its own login; a flight reaped by a waiter fails as interrupted. */
  lemma {:induction false} FailuresAreOwn(c: Config, s: State, step: Step)
    requires CoordinatorInv(s) && Enabled(c, s, step)
    ensures
      var t := Apply(c, s, step);
      |s.log| < |t.log| && t.log[|s.log|].LoginFailed? ==>
        && t.log == s.log + [t.log[|s.log|]] && t.log[|s.log|].at == s.now
        && s.shared.inFlight == Some(t.log[|s.log|].flight)
        && ((step.FinishLogin? && s.flights[step.flight].phase.outcome == Failure(t.log[|s.log|].failure)
             && step.flight == t.log[|s.log|].flight)
            || (step.Reap? && t.log[|s.log|].failure == RefreshInterrupted
                && s.callers[step.caller].phase.flight == t.log[|s.log|].flight))
  {
  }

  /** After a login failed nothing is logged, and in particular no login starts, before the cooldown
      its own error calls for: five seconds, or thirty after a rejection, or a longer Retry-After,
      but five minutes at most. */
  lemma {:induction false} LoginsAreSpaced(c: Config, run: seq<State>, k: nat, failed: nat, later: nat)
    requires Reached(c, run, k) && failed < later < |run[k].log| && run[k].log[failed].LoginFailed?
    ensures
      var failure := run[k].log[failed].failure;
      var rejected := failure.Api? && (failure.kind.Authentication? || failure.kind.PermissionDenied?);
      run[k].log[failed].at + Min(Max((if rejected then 30 else 5) * SECOND, failure.RetryAfter()), 300 * SECOND)
      <= run[k].log[later].at
  {
    RunInv(c, run, k);
    assert CooldownEnd(run[k].log[failed]) <= run[k].log[later].at;
  }

  function FailuresIn(log: seq<Event>, from: int, to: int): nat {
    if log == [] then 0
    else
      var last := log[|log| - 1];
      FailuresIn(log[..|log| - 1], from, to) + if last.LoginFailed? && from <= last.at <= to then 1 else 0
  }

  lemma {:induction false} FailuresInNarrower(log: seq<Event>, from: int, to: int, bound: int)
    requires bound <= to
    requires forall e :: e in log && e.LoginFailed? ==> e.at <= bound
    ensures FailuresIn(log, from, to) == FailuresIn(log, from, bound)
  {
    if log != [] {
      FailuresInNarrower(log[..|log| - 1], from, to, bound);
    }
  }

  lemma {:induction false} EarlierFailuresEnded(log: seq<Event>)
    requires log != [] && Spaced(log)
    ensures Spaced(log[..|log| - 1])
    ensures forall e :: e in log[..|log| - 1] && e.LoginFailed? ==> e.at <= log[|log| - 1].at - AUTH_FAILURE_COOLDOWN
  {
    var init, last := log[..|log| - 1], log[|log| - 1];
    forall e | e in init && e.LoginFailed?
      ensures e.at <= last.at - AUTH_FAILURE_COOLDOWN
    {
      var j :| 0 <= j < |init| && init[j] == e;
      assert log[j] == e && CooldownEnd(log[j]) <= log[|log| - 1].at;
      CooldownBounds(e.failure);
    }
  }

  lemma {:induction false} SpacedFailuresAreFew(log: seq<Event>, from: int, to: int)
    requires Spaced(log)
    ensures FailuresIn(log, from, to) <= 1 || (FailuresIn(log, from, to) - 1) * AUTH_FAILURE_COOLDOWN <= to - from
  {
    if log != [] {
      var init, last := log[..|log| - 1], log[|log| - 1];
      EarlierFailuresEnded(log);
      if last.LoginFailed? && from <= last.at <= to {
        var bound := last.at - AUTH_FAILURE_COOLDOWN;
        FailuresInNarrower(init, from, to, bound);
        SpacedFailuresAreFew(init, from, bound);
        if bound < from {
          NoFailuresIn(init, from, bound);
        }
      } else {
        SpacedFailuresAreFew(init, from, to);
      }
    }
  }

  lemma {:induction false} NoFailuresIn(log: seq<Event>, from: int, to: int)
    requires to < from
    ensures FailuresIn(log, from, to) == 0
  {
    if log != [] {
      NoFailuresIn(log[..|log| - 1], from, to);
    }
  }

  lemma {:induction false} ReachedLogIsSpaced(c: Config, run: seq<State>, k: nat)
    requires Reached(c, run, k)
    ensures Spaced(run[k].log)
  {
    RunInv(c, run, k);
  }

  lemma {:induction false} FiveSecondsApart(count: int, seconds: nat)
    requires count <= 1 || (count - 1) * AUTH_FAILURE_COOLDOWN <= seconds * SECOND
    ensures count <= seconds / 5 + 1
  {
    assert count > 1 ==> (count - 1) * 5 <= seconds;
  }

  /** In any window of W seconds at most W / 5 + 1 logins fail. */
  lemma {:induction false} FailuresPerWindow(c: Config, run: seq<State>, k: nat, from: int, seconds: nat)
    requires Reached(c, run, k)
    ensures FailuresIn(run[k].log, from, from + seconds * SECOND) <= seconds / 5 + 1
  {
    ReachedLogIsSpaced(c, run, k);
    SpacedFailuresAreFew(run[k].log, from, from + seconds * SECOND);
    FiveSecondsApart(FailuresIn(run[k].log, from, from + seconds * SECOND), seconds);
  }

  // ---------- the token cell ----------

  /** When a login's answer yields a token: exactly for a nonempty token with a lifetime whose refresh
      instant the clock can represent. The token is the flight's own and is refreshed in the second
      half of its life, counted from before the request was sent. */
  lemma {:induction false} LoginIsExact(c: Config, flight: nat, startedAt: nat, reply: LoginReply)
    requires ValidConfig(c)
    ensures
      match LoginOutcome(c, flight, startedAt, reply)
      case Success(token) =>
        && reply.Granted? && !reply.emptyToken && 0 < reply.ttlSeconds && token.refreshAfter <= c.maxInstant
        && token.id == flight
        && startedAt + reply.ttlSeconds * SECOND / 2 <= token.refreshAfter < startedAt + reply.ttlSeconds * SECOND
        && token.refreshAfter == startedAt + reply.ttlSeconds * SECOND - Min(c.skew, reply.ttlSeconds * SECOND / 2)
      case Failure(error) =>
        if reply.LoginFault? then error == reply.fault
        else
          && error == InvalidResponse
          && (reply.emptyToken || reply.ttlSeconds == 0
              || c.maxInstant < startedAt + reply.ttlSeconds * SECOND - Min(c.skew, reply.ttlSeconds * SECOND / 2))
  {
    if reply.Granted? && 0 < reply.ttlSeconds {
      RefreshWindow(startedAt, reply.ttlSeconds, c.skew);
    }
  }

  /** No token enters the cell twice, and an evicted one is no longer there. */
  lemma {:induction false} StoredAtMostOnce(c: Config, run: seq<State>, k: nat)
    requires Reached(c, run, k)
    ensures forall j, m :: 0 <= j < m < |run[k].stored| ==> run[k].stored[j] != run[k].stored[m]
    ensures run[k].shared.token.Some? ==> run[k].shared.token.value.id !in run[k].evicted
  {
    RunInv(c, run, k);
  }

  /** A 401 empties the cell exactly when the cell still holds the very token that was refused;
      no other step but a store touches the cell at all. */
  lemma {:induction false} EvictionIsExact(c: Config, s: State, step: Step)
    requires Enabled(c, s, step) && !step.StoreToken?
    ensures
      var t := Apply(c, s, step);
      var evicts := step.Evict? && s.shared.token.Some?
                    && s.shared.token.value.id == s.callers[step.caller].phase.token.id;
      && t.shared.token == (if evicts then None else s.shared.token)
      && t.evicted == (if evicts then s.evicted + {s.shared.token.value.id} else s.evicted)
  {
    if step.Evict? {
      EvictOnCell(c, s, step.caller);
    } else {
      OtherStepsOnCell(c, s, step);
    }
  }

  lemma {:induction false} EvictedGrows(c: Config, s: State, step: Step)
    requires Enabled(c, s, step)
    ensures s.evicted <= Apply(c, s, step).evicted
  {
  }

  lemma {:induction false} NextKeepsEvicted(c: Config, s: State, t: State)
    requires Next(c, s, t)
    ensures s.evicted <= t.evicted
  {
    var step :| Enabled(c, s, step) && t == Apply(c, s, step);
    EvictedGrows(c, s, step);
  }

  lemma {:induction false} EvictedIsMonotone(c: Config, run: seq<State>, j: nat, k: nat)
    requires Reached(c, run, k) && j <= k
    ensures run[j].evicted <= run[k].evicted
  {
    if j < k {
      EvictedIsMonotone(c, run, j, k - 1);
      assert Next(c, run[k - 1], run[k]);
      NextKeepsEvicted(c, run[k - 1], run[k]);
    }
  }

  /** Once evicted, a token is never in the cell again. */
  lemma {:induction false} EvictedNeverReturns(c: Config, run: seq<State>, j: nat, k: nat, id: nat)
    requires Reached(c, run, k) && j <= k && id in run[j].evicted
    ensures run[k].shared.token.Some? ==> run[k].shared.token.value.id != id
  {
    EvictedIsMonotone(c, run, j, k);
    RunInv(c, run, k);
  }
}
