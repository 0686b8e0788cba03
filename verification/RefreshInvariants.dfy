/** What every step of the client keeps, and hence what holds in every state of every run. */
module RefreshInvariants {
  import opened Wrappers
  import opened ClientErrors
  import opened RefreshCoordinator
  import opened RefreshProtocol

  // ---------- ownership of the lock and of the request slots ----------

  ghost predicate HoldsLock(s: State, i: nat) {
    i < |s.callers| && s.callers[i].phase.Deciding?
  }

  ghost predicate HoldsSlot(s: State, a: Agent) {
    match a
    case CallerAgent(i) => i < |s.callers| && s.callers[i].phase.Exchanging?
    case TaskAgent(f) => f < |s.flights| && s.flights[f].phase.LoginExchanging?
  }

  ghost predicate LockInv(s: State) {
    forall i: nat :: s.lock == Some(i) <==> HoldsLock(s, i)
  }

  ghost predicate SlotInv(c: Config, s: State) {
    && |s.slots| <= c.limit
    && forall a :: a in s.slots <==> HoldsSlot(s, a)
  }

  // ---------- flights ----------

  ghost predicate Pending(phase: TaskPhase) {
    !phase.Publishing? && !phase.Gone?
  }

  /** Errors as they may leave a finished flight: only wrapped. */
  ghost predicate PublicOutcome(outcome: Outcome) {
    outcome.Failure? ==> outcome.error.AuthenticationCooldown?
  }

  ghost predicate FlightOk(s: State, f: nat)
    requires f < |s.flights|
  {
    var flight := s.flights[f];
    && (Pending(flight.phase) ==> f !in s.settled)
    && (flight.phase.Publishing? ==> f in s.settled && PublicOutcome(flight.phase.value))
    && (flight.published.Some? ==> flight.phase.Gone? && f in s.settled && PublicOutcome(flight.published.value))
  }

  /** The coordinator names exactly the flight that has not been completed, which is the newest. */
  ghost predicate CoordinatorInv(s: State) {
    && (forall f :: f in s.settled ==> f < |s.flights|)
    && (forall f: nat :: s.shared.inFlight == Some(f) <==> f < |s.flights| && f !in s.settled)
    && (s.shared.inFlight.Some? ==> s.shared.inFlight.value == |s.flights| - 1 && s.shared.failure.None?)
  }

  ghost predicate FlightInv(s: State) {
    CoordinatorInv(s) && forall f :: 0 <= f < |s.flights| ==> FlightOk(s, f)
  }

  // ---------- tokens ----------

  ghost predicate FlightTokenOk(s: State, f: nat)
    requires f < |s.flights|
  {
    match s.flights[f].phase
    case Storing(token) => token.id == f && f !in s.stored
    case Finishing(outcome) => outcome.Success? ==> outcome.value.id == f
    case Publishing(_) => true
    case Gone => true
    case _ => f !in s.stored
  }

  ghost predicate FlightTokenInv(s: State) {
    forall f :: 0 <= f < |s.flights| ==> FlightTokenOk(s, f)
  }

  /** Tokens are stored in the order of their flights, each at most once, and the cell holds the
      last one stored or nothing; in particular never one that was evicted. */
  ghost predicate CellInv(s: State) {
    && (forall k :: 0 <= k < |s.stored| ==> s.stored[k] < |s.flights|)
    && (forall j, k :: 0 <= j < k < |s.stored| ==> s.stored[j] < s.stored[k])
    && (forall id :: id in s.evicted ==> id in s.stored)
    && (s.shared.token.Some? ==>
          && 0 < |s.stored|
          && s.shared.token.value.id == s.stored[|s.stored| - 1]
          && s.shared.token.value.id !in s.evicted)
  }

  // ---------- callers ----------

  ghost predicate SentMatches(caller: Caller) {
    match caller.phase
    case Exchanging(_) => caller.sent == caller.attempt && caller.refused == caller.attempt - 1
    case Evicting(_, refusal) => caller.sent == caller.attempt && refusal.Is401() && caller.refused == caller.attempt
    case Done(answer) =>
      && caller.attempt - 1 <= caller.sent <= caller.attempt
      && (caller.sent == caller.attempt - 1 <==> answer.Failed? && answer.error.PromisesNothingSent())
      && (answer.Failed? && answer.error.Is401() ==> caller.refused == caller.sent == caller.attempt)
      && (answer.Failed? && answer.error.Is401() && caller.kind.Read? ==> caller.attempt == 2)
      && (caller.kind.Mutation? ==> answer != Failed(InvalidResponse))
    case Cancelled => caller.attempt - 1 <= caller.sent <= caller.attempt
    case _ => caller.sent == caller.refused == caller.attempt - 1
  }

  ghost predicate CallerOk(s: State, i: nat)
    requires i < |s.callers|
  {
    var caller := s.callers[i];
    && (caller.attempt == 1 || (caller.attempt == 2 && caller.kind.Read? && 1 <= caller.refused))
    && caller.attempt - 1 <= caller.refused <= caller.sent
    && SentMatches(caller)
    && (caller.phase.Waiting? || caller.phase.Reaping? ==> caller.phase.flight < |s.flights|)
    && (caller.phase.Reaping? ==> Closed(s.flights[caller.phase.flight]))
  }

  ghost predicate CallerInv(s: State) {
    forall i :: 0 <= i < |s.callers| ==> CallerOk(s, i)
  }

  // ---------- time ----------

  function CooldownEnd(e: Event): nat
    requires e.LoginFailed?
  {
    e.at + CooldownFor(e.failure)
  }

  ghost predicate Expired(s: State, e: Event) {
    e.LoginFailed? ==>
      CooldownEnd(e) <= s.now || (s.shared.failure.Some? && CooldownEnd(e) <= s.shared.failure.value.retryAt)
  }

  /** Nothing is logged, no login begins and none fails, before an earlier failure has cooled down. */
  ghost predicate Spaced(log: seq<Event>) {
    forall j, k :: 0 <= j < k < |log| && log[j].LoginFailed? ==> CooldownEnd(log[j]) <= log[k].at
  }

  ghost predicate TimeInv(s: State) {
    && Spaced(s.log)
    && (forall k :: 0 <= k < |s.log| ==>
          s.log[k].at <= s.now && Expired(s, s.log[k]))
  }

  ghost predicate Inv(c: Config, s: State) {
    && ValidConfig(c)
    && LockInv(s)
    && SlotInv(c, s)
    && FlightInv(s)
    && FlightTokenInv(s)
    && CellInv(s)
    && CallerInv(s)
    && TimeInv(s)
  }

  // ---------- whom a step is about ----------

  ghost predicate ActsFor(step: Step, i: nat) {
    match step
    case Cancel(j) => i == j
    case Sample(j) => i == j
    case Peek(j) => i == j
    case Acquire(j) => i == j
    case DecideLocked(j) => i == j
    case Observe(j) => i == j
    case Reap(j, _) => i == j
    case TakeSlot(j) => i == j
    case GiveUpSlot(j) => i == j
    case Receive(j, _) => i == j
    case Evict(j) => i == j
    case _ => false
  }

  lemma {:induction false} OthersUntouched(c: Config, s: State, step: Step, i: nat)
    requires Enabled(c, s, step) && i < |s.callers| && !ActsFor(step, i)
    ensures i < |Apply(c, s, step).callers| && Apply(c, s, step).callers[i] == s.callers[i]
  {
  }

  ghost predicate RunsTask(step: Step, f: nat) {
    match step
    case BeginLogin(g, _) => f == g
    case TakeLoginSlot(g) => f == g
    case GiveUpLoginSlot(g) => f == g
    case ReceiveLogin(g, _) => f == g
    case StoreToken(g) => f == g
    case FinishLogin(g, _) => f == g
    case Publish(g) => f == g
    case Interrupt(g) => f == g
    case _ => false
  }

  lemma {:induction false} OtherTasksUntouched(c: Config, s: State, step: Step, f: nat)
    requires Enabled(c, s, step) && f < |s.flights| && !RunsTask(step, f)
    ensures f < |Apply(c, s, step).flights| && Apply(c, s, step).flights[f] == s.flights[f]
  {
  }

  lemma {:induction false} NewFlightIsSpawned(c: Config, s: State, step: Step)
    requires Enabled(c, s, step) && |s.flights| < |Apply(c, s, step).flights|
    ensures Apply(c, s, step).flights == s.flights + [Flight(Spawned, None)]
    ensures Apply(c, s, step).settled == s.settled && Apply(c, s, step).stored == s.stored
  {
  }

  // ---------- every step keeps them ----------

  lemma {:induction false} LockKept(c: Config, s: State, step: Step)
    requires LockInv(s) && Enabled(c, s, step)
    ensures LockInv(Apply(c, s, step))
  {
    var t := Apply(c, s, step);
    if step.DecideLocked? {
      assert HoldsLock(s, step.caller);
    }
    forall i: nat
      ensures t.lock == Some(i) <==> HoldsLock(t, i)
    {
      assert s.lock == Some(i) <==> HoldsLock(s, i);
    }
  }

  lemma {:induction false} OtherSlotsUntouched(c: Config, s: State, step: Step, a: Agent)
    requires Enabled(c, s, step)
    requires a.CallerAgent? ==> !ActsFor(step, a.caller)
    requires a.TaskAgent? ==> !RunsTask(step, a.task)
    ensures a in Apply(c, s, step).slots <==> a in s.slots
  {
  }

  lemma {:induction false} CallerSlotKept(c: Config, s: State, step: Step, i: nat)
    requires (CallerAgent(i) in s.slots <==> HoldsSlot(s, CallerAgent(i))) && Enabled(c, s, step)
    ensures CallerAgent(i) in Apply(c, s, step).slots <==> HoldsSlot(Apply(c, s, step), CallerAgent(i))
  {
    if !ActsFor(step, i) {
      OtherSlotsUntouched(c, s, step, CallerAgent(i));
      if i < |s.callers| {
        OthersUntouched(c, s, step, i);
      }
    }
  }

  lemma {:induction false} TaskSlotKept(c: Config, s: State, step: Step, f: nat)
    requires (TaskAgent(f) in s.slots <==> HoldsSlot(s, TaskAgent(f))) && Enabled(c, s, step)
    ensures TaskAgent(f) in Apply(c, s, step).slots <==> HoldsSlot(Apply(c, s, step), TaskAgent(f))
  {
    if !RunsTask(step, f) {
      OtherSlotsUntouched(c, s, step, TaskAgent(f));
      if f < |s.flights| {
        OtherTasksUntouched(c, s, step, f);
      } else if f < |Apply(c, s, step).flights| {
        NewFlightIsSpawned(c, s, step);
      }
    }
  }

  /** A slot is taken only while one is free; every other step leaves or returns slots. */
  lemma {:induction false} SlotsTaken(c: Config, s: State, step: Step)
    requires Enabled(c, s, step)
    ensures
      var t := Apply(c, s, step);
      t.slots <= s.slots || (|s.slots| < c.limit && exists a :: t.slots == s.slots + {a})
  {
    match step
    case TakeSlot(i) => assert Apply(c, s, step).slots == s.slots + {CallerAgent(i)};
    case TakeLoginSlot(f) => assert Apply(c, s, step).slots == s.slots + {TaskAgent(f)};
    case _ => assert Apply(c, s, step).slots <= s.slots;
  }

  lemma {:induction false} FewerAgents(a: set<Agent>, b: set<Agent>)
    requires a <= b
    ensures |a| <= |b|
  {
    assert b == a + (b - a);
  }

  lemma {:induction false} SlotCountKept(c: Config, s: State, step: Step)
    requires |s.slots| <= c.limit && Enabled(c, s, step)
    ensures |Apply(c, s, step).slots| <= c.limit
  {
    SlotsTaken(c, s, step);
    if Apply(c, s, step).slots <= s.slots {
      FewerAgents(Apply(c, s, step).slots, s.slots);
    }
  }

  lemma {:induction false} SlotKept(c: Config, s: State, step: Step)
    requires SlotInv(c, s) && Enabled(c, s, step)
    ensures SlotInv(c, Apply(c, s, step))
  {
    SlotCountKept(c, s, step);
    forall a
      ensures a in Apply(c, s, step).slots <==> HoldsSlot(Apply(c, s, step), a)
    {
      match a
      case CallerAgent(i) => CallerSlotKept(c, s, step, i);
      case TaskAgent(f) => TaskSlotKept(c, s, step, f);
    }
  }

  lemma {:induction false} SettleKeepsCoordinator(s: State, flight: nat, failure: Option<ClientError>, lag: nat)
    requires CoordinatorInv(s) && flight < |s.flights|
    ensures CoordinatorInv(Settle(s, flight, failure, lag)) && flight in Settle(s, flight, failure, lag).settled
  {
  }

  /** The coordinator's view of a state: the steps that settle no flight change it only by starting
      the next one. */
  lemma {:induction false} OtherStepsOnCoordinator(c: Config, s: State, step: Step)
    requires Enabled(c, s, step) && !step.Reap? && !step.FinishLogin?
    ensures
      var t := Apply(c, s, step);
      && t.settled == s.settled
      && ((|t.flights| == |s.flights| && t.shared.inFlight == s.shared.inFlight
           && (t.shared.failure == s.shared.failure || t.shared.failure.None?))
          || (|t.flights| == |s.flights| + 1 && s.shared.inFlight.None?
              && t.shared.inFlight == Some(|s.flights|) && t.shared.failure.None?))
  {
  }

  lemma {:induction false} CoordinatorKept(c: Config, s: State, step: Step)
    requires CoordinatorInv(s) && Enabled(c, s, step)
    requires step.Reap? ==> s.callers[step.caller].phase.flight < |s.flights|
    ensures CoordinatorInv(Apply(c, s, step))
  {
    match step
    case Reap(i, lag) => SettleKeepsCoordinator(s, s.callers[i].phase.flight, Some(RefreshInterrupted), lag);
    case FinishLogin(f, lag) => SettleKeepsCoordinator(s, f, OutcomeError(s.flights[f].phase.outcome), lag);
    case _ => OtherStepsOnCoordinator(c, s, step);
  }

  /** Only the end of a login and the reaping of a closed flight settle anything, each its own. */
  lemma {:induction false} SettledOnlyBy(c: Config, s: State, step: Step, f: nat)
    requires Enabled(c, s, step)
    ensures f in s.settled ==> f in Apply(c, s, step).settled
    ensures f in Apply(c, s, step).settled && f !in s.settled ==>
              (step.FinishLogin? && step.flight == f) || (step.Reap? && s.callers[step.caller].phase.flight == f)
  {
  }

  lemma {:induction false} FlightKeptAt(c: Config, s: State, step: Step, f: nat)
    requires CoordinatorInv(s) && f < |s.flights| && FlightOk(s, f) && Enabled(c, s, step)
    requires step.Reap? ==>
               var waited := s.callers[step.caller].phase.flight;
               waited < |s.flights| && Closed(s.flights[waited])
    ensures f < |Apply(c, s, step).flights| && FlightOk(Apply(c, s, step), f)
  {
    SettledOnlyBy(c, s, step, f);
    if !RunsTask(step, f) {
      OtherTasksUntouched(c, s, step, f);
    }
  }

  lemma {:induction false} FlightKept(c: Config, s: State, step: Step)
    requires FlightInv(s) && CallerInv(s) && Enabled(c, s, step)
    ensures FlightInv(Apply(c, s, step))
  {
    var t := Apply(c, s, step);
    if step.Reap? {
      assert CallerOk(s, step.caller);
    }
    CoordinatorKept(c, s, step);
    forall f | 0 <= f < |t.flights|
      ensures FlightOk(t, f)
    {
      if f < |s.flights| {
        FlightKeptAt(c, s, step, f);
      } else {
        NewFlightIsSpawned(c, s, step);
      }
    }
  }

  lemma {:induction false} FlightTokenKeptAt(c: Config, s: State, step: Step, f: nat)
    requires f < |s.flights| && FlightTokenOk(s, f) && Enabled(c, s, step)
    requires step.StoreToken? ==> FlightTokenOk(s, step.flight)
    ensures f < |Apply(c, s, step).flights| && FlightTokenOk(Apply(c, s, step), f)
  {
    if !RunsTask(step, f) {
      OtherTasksUntouched(c, s, step, f);
    }
  }

  lemma {:induction false} FlightTokenKept(c: Config, s: State, step: Step)
    requires FlightTokenInv(s) && CellInv(s) && Enabled(c, s, step)
    ensures FlightTokenInv(Apply(c, s, step))
  {
    var t := Apply(c, s, step);
    if step.StoreToken? {
      assert FlightTokenOk(s, step.flight);
    }
    forall f | 0 <= f < |t.flights|
      ensures FlightTokenOk(t, f)
    {
      if f < |s.flights| {
        FlightTokenKeptAt(c, s, step, f);
      } else {
        NewFlightIsSpawned(c, s, step);
      }
    }
  }

  /** Only the flight the coordinator names can be about to store, and it is the newest one. */
  lemma {:induction false} StoreKeepsCell(c: Config, s: State, f: nat)
    requires CoordinatorInv(s) && CellInv(s) && Enabled(c, s, StoreToken(f))
    requires FlightOk(s, f) && FlightTokenOk(s, f)
    ensures CellInv(ApplyStore(s, f))
  {
  }

  /** A 401 empties the cell exactly when it holds the very token that was refused. */
  lemma {:induction false} EvictOnCell(c: Config, s: State, i: nat)
    requires Enabled(c, s, Evict(i))
    ensures
      var t := Apply(c, s, Evict(i));
      && t.stored == s.stored && t.flights == s.flights
      && (if s.shared.token.Some? && s.shared.token.value.id == s.callers[i].phase.token.id
          then t.shared.token == None && t.evicted == s.evicted + {s.shared.token.value.id}
          else t.shared.token == s.shared.token && t.evicted == s.evicted)
  {
  }

  /** No step but a store and an eviction touches the cell. */
  lemma {:induction false} OtherStepsOnCell(c: Config, s: State, step: Step)
    requires Enabled(c, s, step) && !step.StoreToken? && !step.Evict?
    ensures
      var t := Apply(c, s, step);
      && t.stored == s.stored && |s.flights| <= |t.flights|
      && t.shared.token == s.shared.token && t.evicted == s.evicted
  {
  }

  lemma {:induction false} CellKept(c: Config, s: State, step: Step)
    requires FlightInv(s) && FlightTokenInv(s) && CellInv(s) && Enabled(c, s, step)
    ensures CellInv(Apply(c, s, step))
  {
    if step.StoreToken? {
      assert FlightOk(s, step.flight) && FlightTokenOk(s, step.flight);
      StoreKeepsCell(c, s, step.flight);
    } else if step.Evict? {
      EvictOnCell(c, s, step.caller);
    } else {
      OtherStepsOnCell(c, s, step);
    }
  }

  /** Flights are only ever added, and a channel that closed without an outcome stays that way. */
  lemma {:induction false} FlightsPersist(c: Config, s: State, step: Step, f: nat)
    requires Enabled(c, s, step) && f < |s.flights|
    ensures
      var t := Apply(c, s, step);
      && f < |t.flights|
      && (Closed(s.flights[f]) ==> Closed(t.flights[f]))
  {
    if !RunsTask(step, f) {
      OtherTasksUntouched(c, s, step, f);
    }
  }

  lemma {:induction false} DecideKeepsCaller(c: Config, s: State, i: nat)
    requires CoordinatorInv(s) && i < |s.callers| && CallerOk(s, i) && Enabled(c, s, DecideLocked(i))
    ensures CallerOk(Apply(c, s, DecideLocked(i)), i)
  {
  }

  lemma {:induction false} ObserveKeepsCaller(c: Config, s: State, i: nat)
    requires FlightInv(s) && i < |s.callers| && CallerOk(s, i) && Enabled(c, s, Observe(i))
    ensures CallerOk(Apply(c, s, Observe(i)), i)
  {
    assert FlightOk(s, s.callers[i].phase.flight);
  }

  lemma {:induction false} ReapKeepsCaller(c: Config, s: State, i: nat, lag: nat)
    requires i < |s.callers| && CallerOk(s, i) && Enabled(c, s, Reap(i, lag))
    ensures CallerOk(Apply(c, s, Reap(i, lag)), i)
  {
  }

  lemma {:induction false} ReceiveKeepsCaller(c: Config, s: State, i: nat, reply: Answer)
    requires i < |s.callers| && CallerOk(s, i) && Enabled(c, s, Receive(i, reply))
    ensures CallerOk(Apply(c, s, Receive(i, reply)), i)
  {
  }

  lemma {:induction false} EvictKeepsCaller(c: Config, s: State, i: nat)
    requires i < |s.callers| && CallerOk(s, i) && Enabled(c, s, Evict(i))
    ensures CallerOk(Apply(c, s, Evict(i)), i)
  {
  }

  lemma {:induction false} TakeSlotKeepsCaller(c: Config, s: State, i: nat)
    requires i < |s.callers| && CallerOk(s, i) && Enabled(c, s, TakeSlot(i))
    ensures CallerOk(Apply(c, s, TakeSlot(i)), i)
  {
  }

  lemma {:induction false} GiveUpSlotKeepsCaller(c: Config, s: State, i: nat)
    requires i < |s.callers| && CallerOk(s, i) && Enabled(c, s, GiveUpSlot(i))
    ensures CallerOk(Apply(c, s, GiveUpSlot(i)), i)
  {
  }

  /** Going on towards the first request of an attempt, or being cancelled, keeps a caller in order. */
  lemma {:induction false} MovingKeepsCaller(s: State, t: State, i: nat)
    requires i < |s.callers| == |t.callers| && CallerOk(s, i) && t.flights == s.flights
    requires t.callers[i] == s.callers[i].(phase := t.callers[i].phase)
    requires var before, after := s.callers[i].phase, t.callers[i].phase;
             || (after.Cancelled? && Active(s.callers[i]))
             || ((before.Sampling? || before.Peeking? || before.WantLock?)
                 && (after.Peeking? || after.WantLock? || after.Deciding? || after.WantSlot?))
    ensures CallerOk(t, i)
  {
  }

  lemma {:induction false} ActingCallerKept(c: Config, s: State, step: Step, i: nat)
    requires FlightInv(s) && i < |s.callers| && CallerOk(s, i)
    requires Enabled(c, s, step) && ActsFor(step, i)
    ensures i < |Apply(c, s, step).callers| && CallerOk(Apply(c, s, step), i)
  {
    match step
    case DecideLocked(_) => DecideKeepsCaller(c, s, i);
    case Observe(_) => ObserveKeepsCaller(c, s, i);
    case Reap(_, lag) => ReapKeepsCaller(c, s, i, lag);
    case TakeSlot(_) => TakeSlotKeepsCaller(c, s, i);
    case GiveUpSlot(_) => GiveUpSlotKeepsCaller(c, s, i);
    case Receive(_, reply) => ReceiveKeepsCaller(c, s, i, reply);
    case Evict(_) => EvictKeepsCaller(c, s, i);
    case Cancel(_) => CancelKeepsCaller(c, s, i);
    case Sample(_) => SampleKeepsCaller(c, s, i);
    case Peek(_) => PeekKeepsCaller(c, s, i);
    case Acquire(_) => AcquireKeepsCaller(c, s, i);
    case _ =>
  }

  lemma {:induction false} CancelKeepsCaller(c: Config, s: State, i: nat)
    requires i < |s.callers| && CallerOk(s, i) && Enabled(c, s, Cancel(i))
    ensures CallerOk(Apply(c, s, Cancel(i)), i)
  {
    MovingKeepsCaller(s, ApplyCancel(s, i), i);
  }

  lemma {:induction false} SampleKeepsCaller(c: Config, s: State, i: nat)
    requires i < |s.callers| && CallerOk(s, i) && Enabled(c, s, Sample(i))
    ensures CallerOk(Apply(c, s, Sample(i)), i)
  {
    MovingKeepsCaller(s, SetPhase(s, i, Peeking(s.now)), i);
  }

  lemma {:induction false} PeekKeepsCaller(c: Config, s: State, i: nat)
    requires i < |s.callers| && CallerOk(s, i) && Enabled(c, s, Peek(i))
    ensures CallerOk(Apply(c, s, Peek(i)), i)
  {
    MovingKeepsCaller(s, ApplyPeek(c, s, i), i);
  }

  lemma {:induction false} AcquireKeepsCaller(c: Config, s: State, i: nat)
    requires i < |s.callers| && CallerOk(s, i) && Enabled(c, s, Acquire(i))
    ensures CallerOk(Apply(c, s, Acquire(i)), i)
  {
    MovingKeepsCaller(s, SetPhase(s, i, Deciding(s.now)).(lock := Some(i)), i);
  }

  lemma {:induction false} CallerKept(c: Config, s: State, step: Step)
    requires FlightInv(s) && CallerInv(s) && Enabled(c, s, step)
    ensures CallerInv(Apply(c, s, step))
  {
    var t := Apply(c, s, step);
    forall i | 0 <= i < |t.callers|
      ensures CallerOk(t, i)
    {
      if i == |s.callers| {
        assert step.Arrive?;
      } else {
        CallerKeptAt(c, s, step, i);
      }
    }
  }

  lemma {:induction false} CallerKeptAt(c: Config, s: State, step: Step, i: nat)
    requires FlightInv(s) && i < |s.callers| && CallerOk(s, i) && Enabled(c, s, step)
    ensures i < |Apply(c, s, step).callers| && CallerOk(Apply(c, s, step), i)
  {
    if ActsFor(step, i) {
      ActingCallerKept(c, s, step, i);
    } else {
      OthersUntouched(c, s, step, i);
      if s.callers[i].phase.Waiting? || s.callers[i].phase.Reaping? {
        FlightsPersist(c, s, step, s.callers[i].phase.flight);
      }
    }
  }

  /** How a step can extend the login history: not at all; by a start, with no cooldown pending; or
      by a failure, whose cooldown is then the pending one. */
  ghost predicate HistoryStep(s: State, t: State) {
    && s.now <= t.now
    && ((t.log == s.log && (t.shared.failure == s.shared.failure || !CoolingDown(s.shared, s.now)))
        || (exists f :: t.log == s.log + [LoginStarted(f, s.now)] && !CoolingDown(s.shared, s.now))
        || (exists f, e ::
              && t.log == s.log + [LoginFailed(f, s.now, e)]
              && s.shared.failure.None?
              && t.shared.failure == Some(Cooldown(s.now + CooldownFor(e), e))))
  }

  lemma {:induction false} SettleIsHistoryStep(s: State, flight: nat, failure: Option<ClientError>, lag: nat)
    requires CoordinatorInv(s)
    ensures HistoryStep(s, Settle(s, flight, failure, lag))
  {
    if s.shared.inFlight == Some(flight) && failure.Some? {
      assert Settle(s, flight, failure, lag).log == s.log + [LoginFailed(flight, s.now, failure.value)];
    }
  }

  lemma {:induction false} StepsExtendHistory(c: Config, s: State, step: Step)
    requires CoordinatorInv(s) && Enabled(c, s, step)
    ensures HistoryStep(s, Apply(c, s, step))
  {
    match step
    case Reap(i, lag) => SettleIsHistoryStep(s, s.callers[i].phase.flight, Some(RefreshInterrupted), lag);
    case FinishLogin(f, lag) => SettleIsHistoryStep(s, f, OutcomeError(s.flights[f].phase.outcome), lag);
    case DecideLocked(i) =>
      if |ApplyDecide(c, s, i).flights| != |s.flights| {
        assert ApplyDecide(c, s, i).log == s.log + [LoginStarted(|s.flights|, s.now)];
      }
    case _ =>
  }

  /** Only a decision under the lock adds a flight; the other steps log at most a failure. */
  lemma {:induction false} OnlyDecisionsStart(c: Config, s: State, step: Step)
    requires Enabled(c, s, step) && !step.DecideLocked?
    ensures
      var t := Apply(c, s, step);
      && |t.flights| == |s.flights|
      && (t.log == s.log
          || (|t.log| == |s.log| + 1 && t.log == s.log + [t.log[|s.log|]] && t.log[|s.log|].LoginFailed?))
  {
  }

  lemma {:induction false} HistoryStepKeepsTime(s: State, t: State)
    requires TimeInv(s) && HistoryStep(s, t)
    ensures TimeInv(t)
  {
    assert forall k :: 0 <= k < |s.log| ==> t.log[k] == s.log[k];
    assert forall k :: 0 <= k < |s.log| ==> Expired(s, s.log[k]);
  }

  lemma {:induction false} TimeKept(c: Config, s: State, step: Step)
    requires FlightInv(s) && TimeInv(s) && Enabled(c, s, step)
    ensures TimeInv(Apply(c, s, step))
  {
    StepsExtendHistory(c, s, step);
    HistoryStepKeepsTime(s, Apply(c, s, step));
  }

  lemma {:induction false} InvKept(c: Config, s: State, step: Step)
    requires Inv(c, s) && Enabled(c, s, step)
    ensures Inv(c, Apply(c, s, step))
  {
    LockKept(c, s, step);
    SlotKept(c, s, step);
    FlightKept(c, s, step);
    FlightTokenKept(c, s, step);
    CellKept(c, s, step);
    CallerKept(c, s, step);
    TimeKept(c, s, step);
  }

  /** The invariant holds in every state of every run. */
  lemma {:induction false} RunInv(c: Config, run: seq<State>, k: nat)
    requires ValidConfig(c) && IsRun(c, run) && k < |run|
    ensures Inv(c, run[k])
  {
    if k > 0 {
      RunInv(c, run, k - 1);
      assert Next(c, run[k - 1], run[k]);
      var step :| Enabled(c, run[k - 1], step) && run[k] == Apply(c, run[k - 1], step);
      InvKept(c, run[k - 1], step);
    }
  }
}
