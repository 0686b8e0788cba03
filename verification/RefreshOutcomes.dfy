/** What each step makes of its caller or task, and what an operation, a login and a wait end in: the
    reply of the operation's own last exchange, the token or the error of a login, the instants read
    from the clock. Histories are functions of the steps a run took. */
module RefreshOutcomes {
  import opened Wrappers
  import opened ClientErrors
  import opened RefreshCoordinator
  import opened RefreshProtocol
  import opened RefreshInvariants
  import opened RefreshTheorems
  import opened RefreshProgress

  function PhaseAfter(c: Config, s: State, step: Step, i: nat): CallerPhase
    requires Enabled(c, s, step) && i < |Apply(c, s, step).callers|
  {
    Apply(c, s, step).callers[i].phase
  }

  function TaskAfter(c: Config, s: State, step: Step, f: nat): TaskPhase
    requires Enabled(c, s, step) && f < |Apply(c, s, step).flights|
  {
    Apply(c, s, step).flights[f].phase
  }

  // ---------- where a caller goes from each of its phases ----------

  lemma {:induction false} ArrivingIsExact(c: Config, s: State, kind: OperationKind, endpointOk: bool)
    ensures
      var t := Apply(c, s, Arrive(kind, endpointOk));
      && |t.callers| == |s.callers| + 1 && t.callers[..|s.callers|] == s.callers
      && t.callers[|s.callers|].kind == kind
      && t.callers[|s.callers|].phase == if endpointOk then Sampling else Done(Failed(InvalidEndpoint))
  {
  }

  /** Clock readings are those of the step that makes them. */
  lemma {:induction false} SamplingIsExact(c: Config, s: State, i: nat)
    ensures Enabled(c, s, Sample(i)) ==> PhaseAfter(c, s, Sample(i), i) == Peeking(s.now)
    ensures Enabled(c, s, Acquire(i)) ==> PhaseAfter(c, s, Acquire(i), i) == Deciding(s.now)
  {
  }

  /** Without the lock: a token in the cell that was fresh at the instant sampled is used at once. */
  lemma {:induction false} PeekingIsExact(c: Config, s: State, i: nat)
    requires Enabled(c, s, Peek(i))
    ensures
      var cell, sampled := s.shared.token, s.callers[i].phase.sampled;
      PhaseAfter(c, s, Peek(i), i) ==
      if cell.Some? && sampled < cell.value.refreshAfter then WantSlot(cell.value, s.now + c.timeout) else WantLock
    ensures Apply(c, s, Peek(i)).shared == s.shared
  {
  }

  /** Under the lock: a fresh token is used; else a pending cooldown rejects; else the flight under
      way is waited for; else a new one. */
  lemma {:induction false} DecidingIsExact(c: Config, s: State, i: nat)
    requires Enabled(c, s, DecideLocked(i))
    ensures
      var cell, sampled := s.shared.token, s.callers[i].phase.sampled;
      var after := PhaseAfter(c, s, DecideLocked(i), i);
      if cell.Some? && sampled < cell.value.refreshAfter then after == WantSlot(cell.value, s.now + c.timeout)
      else if s.shared.failure.Some? && s.now < s.shared.failure.value.retryAt then
        && after.Done? && after.answer.Failed? && after.answer.error.AuthenticationCooldown?
        && after.answer.error.failure == s.shared.failure.value.error
        && forall wait: nat ::
             s.shared.failure.value.retryAt <= s.now + wait * SECOND <==> after.answer.error.retryAfterSeconds <= wait
      else if s.shared.inFlight.Some? then after == Waiting(s.shared.inFlight.value)
      else after == Waiting(|s.flights|)
  {
    DecideIsExact(s.shared, s.callers[i].phase.sampled, s.now, |s.flights|);
  }

  /** A waiter goes on with the very token its flight published, returns the very error, or, when the
      channel closed without either, goes to report that. */
  lemma {:induction false} ObservingIsExact(c: Config, s: State, i: nat)
    requires Enabled(c, s, Observe(i)) && FlightOk(s, s.callers[i].phase.flight)
    ensures
      var published := s.flights[s.callers[i].phase.flight].published;
      PhaseAfter(c, s, Observe(i), i) ==
      match published
      case Some(Success(token)) => WantSlot(token, s.now + c.timeout)
      case Some(Failure(error)) => Done(Failed(error))
      case None => Reaping(s.callers[i].phase.flight)
  {
  }

  /** Who reports an interruption first also starts its cooldown and says so. */
  lemma {:induction false} ReapingIsExact(c: Config, s: State, i: nat, lag: nat)
    requires CoordinatorInv(s) && Enabled(c, s, Reap(i, lag)) && s.callers[i].phase.flight < |s.flights|
    ensures
      var after := PhaseAfter(c, s, Reap(i, lag), i);
      && after.Done? && after.answer.Failed?
      && (if s.callers[i].phase.flight in s.settled then after.answer.error == RefreshInterrupted
          else
            && after.answer.error.AuthenticationCooldown? && after.answer.error.failure == RefreshInterrupted
            && forall wait: nat :: 5 * SECOND <= lag + wait * SECOND <==> after.answer.error.retryAfterSeconds <= wait)
  {
    if s.callers[i].phase.flight !in s.settled {
      FinishWrapsFailures(s.shared, s.callers[i].phase.flight, RefreshInterrupted, s.now, s.now + lag);
      assert CooldownFor(RefreshInterrupted) == 5 * SECOND;
    }
  }

  /** A slot is taken or given up, with the same token; giving up sends nothing and says so. */
  lemma {:induction false} SlotStepsAreExact(c: Config, s: State, i: nat)
    requires i < |s.callers| && s.callers[i].phase.WantSlot?
    ensures
      var caller := s.callers[i];
      && (Enabled(c, s, TakeSlot(i)) <==> |s.slots| < c.limit && s.now < caller.phase.deadline)
      && (Enabled(c, s, GiveUpSlot(i)) <==> caller.phase.deadline <= s.now)
      && (Enabled(c, s, TakeSlot(i)) ==>
            && PhaseAfter(c, s, TakeSlot(i), i) == Exchanging(caller.phase.token)
            && Apply(c, s, TakeSlot(i)).callers[i].sent == caller.sent + 1)
      && (Enabled(c, s, GiveUpSlot(i)) ==>
            && PhaseAfter(c, s, GiveUpSlot(i), i) == Done(Failed(WorkBudgetExhausted))
            && Apply(c, s, GiveUpSlot(i)).callers[i].sent == caller.sent)
  {
  }

  /** The end of an exchange: a 401 is first taken to the cell, together with the token it refused;
      anything else is returned, only that a mutation's undecodable answer becomes an unknown one. */
  lemma {:induction false} ReceivingIsExact(c: Config, s: State, i: nat, reply: Answer)
    requires Enabled(c, s, Receive(i, reply))
    ensures
      var caller := s.callers[i];
      PhaseAfter(c, s, Receive(i, reply), i) ==
      if reply.Failed? && reply.error.Api? && reply.error.kind == Authentication
      then Evicting(caller.phase.token, reply.error)
      else if caller.kind.Mutation? && reply == Failed(InvalidResponse) then Done(Failed(InvalidMutationResponse))
      else Done(reply)
  {
  }

  /** After a 401 a read starts over, once; anything else returns it. */
  lemma {:induction false} EvictingIsExact(c: Config, s: State, i: nat)
    requires i < |s.callers| && CallerOk(s, i) && Enabled(c, s, Evict(i))
    ensures
      var caller := s.callers[i];
      PhaseAfter(c, s, Evict(i), i) ==
      if caller.kind.Read? && caller.attempt == 1 then Sampling else Done(Failed(caller.phase.refusal))
  {
  }

  // ---------- where a login task goes from each of its phases ----------

  lemma {:induction false} LoginBeginsExactly(c: Config, s: State, f: nat, endpointOk: bool)
    requires Enabled(c, s, BeginLogin(f, endpointOk))
    ensures TaskAfter(c, s, BeginLogin(f, endpointOk), f) ==
            if endpointOk then LoginWantSlot(s.now, s.now + c.timeout) else Finishing(Failure(InvalidEndpoint))
  {
  }

  lemma {:induction false} LoginSlotStepsAreExact(c: Config, s: State, f: nat)
    requires f < |s.flights| && s.flights[f].phase.LoginWantSlot?
    ensures
      var phase := s.flights[f].phase;
      && (Enabled(c, s, TakeLoginSlot(f)) <==> |s.slots| < c.limit && s.now < phase.deadline)
      && (Enabled(c, s, GiveUpLoginSlot(f)) <==> phase.deadline <= s.now)
      && (Enabled(c, s, TakeLoginSlot(f)) ==>
            TaskAfter(c, s, TakeLoginSlot(f), f) == LoginExchanging(phase.startedAt))
      && (Enabled(c, s, GiveUpLoginSlot(f)) ==>
            TaskAfter(c, s, GiveUpLoginSlot(f), f) == Finishing(Failure(WorkBudgetExhausted)))
  {
  }

  /** The instant from which the refresh window of a token with a lifetime is counted. */
  function RefreshInstant(c: Config, startedAt: nat, ttlSeconds: nat): nat {
    startedAt + ttlSeconds * SECOND - Min(c.skew, ttlSeconds * SECOND / 2)
  }

  predicate Earns(c: Config, startedAt: nat, reply: LoginReply) {
    reply.Granted? && !reply.emptyToken && 0 < reply.ttlSeconds
    && RefreshInstant(c, startedAt, reply.ttlSeconds) <= c.maxInstant
  }

  lemma {:induction false} LoginEndsExactly(c: Config, s: State, f: nat, reply: LoginReply)
    requires ValidConfig(c) && Enabled(c, s, ReceiveLogin(f, reply))
    ensures
      var startedAt := s.flights[f].phase.startedAt;
      TaskAfter(c, s, ReceiveLogin(f, reply), f) ==
      if Earns(c, startedAt, reply) then Storing(Token(f, RefreshInstant(c, startedAt, reply.ttlSeconds)))
      else Finishing(Failure(if reply.LoginFault? then reply.fault else InvalidResponse))
  {
    LoginIsExact(c, f, s.flights[f].phase.startedAt, reply);
  }

  lemma {:induction false} StoringIsExact(c: Config, s: State, f: nat)
    requires Enabled(c, s, StoreToken(f))
    ensures
      var token := s.flights[f].phase.token;
      && TaskAfter(c, s, StoreToken(f), f) == Finishing(Success(token))
      && Apply(c, s, StoreToken(f)).shared == s.shared.(token := Some(token))
  {
  }

  /** A current flight reports its token, or its error wrapped with the time left at the second clock
      reading, and is then no longer the current one. */
  lemma {:induction false} FinishingIsExact(c: Config, s: State, f: nat, lag: nat)
    requires Enabled(c, s, FinishLogin(f, lag)) && s.shared.inFlight == Some(f)
    ensures
      var t := Apply(c, s, FinishLogin(f, lag));
      var value := s.flights[f].phase.outcome;
      && t.shared.inFlight.None? && t.shared.token == s.shared.token && t.flights[f].phase.Publishing?
      && (value.Success? ==> t.flights[f].phase.value == value && t.shared.failure.None?)
      && (value.Failure? ==>
            var reported := t.flights[f].phase.value;
            && reported.Failure? && reported.error.AuthenticationCooldown? && reported.error.failure == value.error
            && t.shared.failure == Some(Cooldown(s.now + CooldownFor(value.error), value.error))
            && forall wait: nat ::
                 CooldownFor(value.error) <= lag + wait * SECOND <==> reported.error.retryAfterSeconds <= wait)
  {
    var value := s.flights[f].phase.outcome;
    if value.Failure? {
      FinishWrapsFailures(s.shared, f, value.error, s.now, s.now + lag);
    }
  }

  lemma {:induction false} PublishingIsExact(c: Config, s: State, f: nat)
    requires Enabled(c, s, Publish(f))
    ensures Apply(c, s, Publish(f)).flights[f] == Flight(Gone, Some(s.flights[f].phase.value))
  {
  }
}
