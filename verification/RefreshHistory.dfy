/** What holds of an operation or a login because of everything its run did before: it reports the
    reply to its own last request, uses only tokens a login earned, and waits for a slot exactly as
    long as it may. Histories are functions of the steps taken. */
module RefreshHistory {
  import opened Wrappers
  import opened ClientErrors
  import opened RefreshCoordinator
  import opened RefreshProtocol
  import opened RefreshInvariants
  import opened RefreshTheorems
  import opened RefreshProgress
  import opened RefreshOutcomes

  // ---------- an operation reports its own last reply ----------

  /** The reply to the last request a caller sent, once there is one. */
  function ReplyAfter(before: Option<Answer>, step: Step, i: nat): Option<Answer> {
    match step
    case TakeSlot(j) => if i == j then None else before
    case Receive(j, reply) => if i == j then Some(reply) else before
    case _ => before
  }

  function LastReply(steps: seq<Step>, i: nat): Option<Answer> {
    if steps == [] then None
    else ReplyAfter(LastReply(steps[..|steps| - 1], i), steps[|steps| - 1], i)
  }

  ghost predicate ReportsReply(caller: Caller, reply: Option<Answer>) {
    match caller.phase
    case Exchanging(_) => reply.None?
    case Evicting(_, refusal) => reply == Some(Failed(refusal))
    case Done(answer) =>
      caller.sent == caller.attempt ==>
        && reply.Some?
        && answer == if caller.kind.Mutation? && reply == Some(Failed(InvalidResponse))
                     then Failed(InvalidMutationResponse) else reply.value
    case _ => true
  }

  lemma {:induction false} AfterExchange(c: Config, s: State, i: nat, reply: Answer)
    requires i < |s.callers| && CallerOk(s, i) && Enabled(c, s, Receive(i, reply))
    ensures ReportsReply(Apply(c, s, Receive(i, reply)).callers[i], Some(reply))
  {
    ReceivingIsExact(c, s, i, reply);
  }

  lemma {:induction false} AfterEviction(c: Config, s: State, i: nat, reply: Option<Answer>)
    requires i < |s.callers| && CallerOk(s, i) && Enabled(c, s, Evict(i)) && ReportsReply(s.callers[i], reply)
    ensures ReportsReply(Apply(c, s, Evict(i)).callers[i], reply)
  {
    EvictingIsExact(c, s, i);
  }

  /** The other steps of a caller end nothing that was sent in the same attempt. */
  lemma {:induction false} AfterOtherStep(c: Config, s: State, step: Step, i: nat, reply: Option<Answer>)
    requires FlightInv(s) && i < |s.callers| && CallerOk(s, i) && Enabled(c, s, step) && ActsFor(step, i)
    requires !step.Receive? && !step.Evict? && !step.TakeSlot?
    ensures i < |Apply(c, s, step).callers|
    ensures !Apply(c, s, step).callers[i].phase.Exchanging? && !Apply(c, s, step).callers[i].phase.Evicting?
    ensures ReportsReply(Apply(c, s, step).callers[i], reply)
  {
    match step
    case Observe(_) =>
      assert FlightOk(s, s.callers[i].phase.flight);
      ObservingIsExact(c, s, i);
    case DecideLocked(_) => DecidingIsExact(c, s, i);
    case Reap(_, lag) =>
      assert Closed(s.flights[s.callers[i].phase.flight]);
      ReapingIsExact(c, s, i, lag);
    case Peek(_) => PeekingIsExact(c, s, i);
    case GiveUpSlot(_) => SlotStepsAreExact(c, s, i);
    case _ =>
  }

  lemma {:induction false} ReplyKept(c: Config, s: State, step: Step, i: nat, reply: Option<Answer>)
    requires FlightInv(s) && i < |s.callers| && CallerOk(s, i) && Enabled(c, s, step)
    requires ReportsReply(s.callers[i], reply)
    ensures i < |Apply(c, s, step).callers|
    ensures ReportsReply(Apply(c, s, step).callers[i], ReplyAfter(reply, step, i))
  {
    if !ActsFor(step, i) {
      OthersUntouched(c, s, step, i);
    } else {
      OwnReplyKept(c, s, step, i, reply);
    }
  }

  lemma {:induction false} OwnReplyKept(c: Config, s: State, step: Step, i: nat, reply: Option<Answer>)
    requires FlightInv(s) && i < |s.callers| && CallerOk(s, i) && Enabled(c, s, step) && ActsFor(step, i)
    requires ReportsReply(s.callers[i], reply)
    ensures i < |Apply(c, s, step).callers|
    ensures ReportsReply(Apply(c, s, step).callers[i], ReplyAfter(reply, step, i))
  {
    match step
    case Receive(_, answer) => AfterExchange(c, s, i, answer);
    case Evict(_) => AfterEviction(c, s, i, reply);
    case TakeSlot(_) => SlotStepsAreExact(c, s, i);
    case _ => AfterOtherStep(c, s, step, i, reply);
  }

  ghost predicate Traced(c: Config, steps: seq<Step>, run: seq<State>) {
    ValidConfig(c) && IsTrace(c, steps, run)
  }

  /** A trace without its last step is a trace, and every state of it meets the invariant. */
  lemma {:induction false} TracePrefix(c: Config, steps: seq<Step>, run: seq<State>)
    requires Traced(c, steps, run) && steps != []
    ensures Traced(c, steps[..|steps| - 1], run[..|steps|])
    ensures Enabled(c, run[|steps| - 1], steps[|steps| - 1])
    ensures run[|steps|] == Apply(c, run[|steps| - 1], steps[|steps| - 1])
  {
  }

  lemma {:induction false} TraceInv(c: Config, steps: seq<Step>, run: seq<State>, k: nat)
    requires Traced(c, steps, run) && k < |run|
    ensures Inv(c, run[k])
  {
    forall m | 0 < m < |run|
      ensures Next(c, run[m - 1], run[m])
    {
      assert Enabled(c, run[m - 1], steps[m - 1]) && run[m - 1 + 1] == Apply(c, run[m - 1], steps[m - 1]);
    }
    RunInv(c, run, k);
  }

  lemma {:induction false} TraceCaller(c: Config, steps: seq<Step>, run: seq<State>, k: nat, i: nat)
    requires Traced(c, steps, run) && k < |run| && i < |run[k].callers|
    ensures FlightInv(run[k]) && CallerOk(run[k], i)
  {
    TraceInv(c, steps, run, k);
  }

  lemma {:induction false} NewCallerSentNothing(c: Config, s: State, step: Step)
    requires Enabled(c, s, step) && |s.callers| < |Apply(c, s, step).callers|
    ensures |Apply(c, s, step).callers| == |s.callers| + 1
    ensures
      var caller := Apply(c, s, step).callers[|s.callers|];
      && caller.sent == 0 && caller.attempt == 1
      && (caller.phase == Sampling || caller.phase == Done(Failed(InvalidEndpoint)))
  {
    if !step.Arrive? {
      OnlyArrivalsAddCallers(c, s, step);
    }
  }

  lemma {:induction false} ReplyReported(c: Config, steps: seq<Step>, run: seq<State>, i: nat)
    requires Traced(c, steps, run) && i < |run[|steps|].callers|
    ensures ReportsReply(run[|steps|].callers[i], LastReply(steps, i))
  {
    if steps != [] {
      var n := |steps| - 1;
      TracePrefix(c, steps, run);
      if i < |run[n].callers| {
        ReplyReported(c, steps[..n], run[..n + 1], i);
        TraceCaller(c, steps, run, n, i);
        ReplyKept(c, run[n], steps[n], i, LastReply(steps[..n], i));
      } else {
        NewCallerSentNothing(c, run[n], steps[n]);
      }
    }
  }

  /** An operation that sent its last attempt ends in the reply to that very request, except that a
      mutation whose answer could not be decoded ends as a mutation of unknown outcome. So it has
      succeeded exactly when that exchange did. */
  lemma {:induction false} OutcomeIsOwnReply(c: Config, steps: seq<Step>, run: seq<State>, i: nat)
    requires Traced(c, steps, run) && i < |run[|steps|].callers| && run[|steps|].callers[i].phase.Done?
    ensures
      var caller := run[|steps|].callers[i];
      var reply := LastReply(steps, i);
      && (caller.phase.answer == Answered ==> caller.sent == caller.attempt && reply == Some(Answered))
      && (caller.sent == caller.attempt ==>
            && reply.Some?
            && (reply == Some(Answered) ==> caller.phase.answer == Answered)
            && (caller.kind.Mutation? && reply == Some(Failed(InvalidResponse)) ==>
                  caller.phase.answer == Failed(InvalidMutationResponse))
            && (!(caller.kind.Mutation? && reply == Some(Failed(InvalidResponse))) ==>
                  caller.phase.answer == reply.value))
  {
    ReplyReported(c, steps, run, i);
    TraceCaller(c, steps, run, |steps|, i);
  }

  // ---------- tokens and errors of logins ----------

  /** What a login task did: when it read the clock, whether it had an endpoint, when it sent its
      request, and what was answered. */
  datatype LoginPast = LoginPast(
    began: Option<nat>, endpointOk: bool, asked: Option<nat>, reply: Option<LoginReply>)

  const NO_PAST := LoginPast(None, false, None, None)

  function PastAfter(past: LoginPast, step: Step, now: nat, f: nat): LoginPast {
    match step
    case BeginLogin(g, endpointOk) => if f == g then LoginPast(Some(now), endpointOk, None, None) else past
    case TakeLoginSlot(g) => if f == g then past.(asked := Some(now)) else past
    case ReceiveLogin(g, reply) => if f == g then past.(reply := Some(reply)) else past
    case _ => past
  }

  function PastOf(steps: seq<Step>, run: seq<State>, f: nat): LoginPast
    requires |steps| <= |run|
    decreases |steps|
  {
    if steps == [] then NO_PAST
    else
      var n := |steps| - 1;
      PastAfter(PastOf(steps[..n], run, f), steps[n], run[n].now, f)
  }

  /** The token was granted in answer to the flight's own request, sent no earlier than the instant its
      refresh window is counted from; it is refreshed in the second half of its life. */
  ghost predicate Earned(c: Config, past: LoginPast, f: nat, token: Token) {
    && token.id == f && past.began.Some? && past.asked.Some? && past.began.value <= past.asked.value
    && past.reply.Some? && past.reply.value.Granted? && !past.reply.value.emptyToken
    && var ttl := past.reply.value.ttlSeconds * SECOND;
       && 0 < ttl && token.refreshAfter <= c.maxInstant
       && token.refreshAfter == past.began.value + ttl - Min(c.skew, ttl / 2)
       && past.began.value + ttl / 2 <= token.refreshAfter < past.began.value + ttl
  }

  /** Why a login failed: without a request, because of its endpoint or of the slots; else because of
      the server's answer, or of one that earns no token. */
  ghost predicate FailedBecause(c: Config, past: LoginPast, error: ClientError) {
    && past.began.Some?
    && match past.reply
       case None => past.asked.None? && error == if past.endpointOk then WorkBudgetExhausted else InvalidEndpoint
       case Some(reply) =>
         if reply.LoginFault? then error == reply.fault
         else !Earns(c, past.began.value, reply) && error == InvalidResponse
  }

  ghost predicate Justified(c: Config, past: LoginPast, f: nat, outcome: Outcome) {
    match outcome
    case Success(token) => Earned(c, past, f, token)
    case Failure(error) => FailedBecause(c, past, error)
  }

  /** What leaves a flight: its earned token, or its own error as a cooldown. */
  ghost predicate PublishedFor(c: Config, past: LoginPast, f: nat, outcome: Outcome) {
    match outcome
    case Success(token) => Earned(c, past, f, token)
    case Failure(error) => error.AuthenticationCooldown? && FailedBecause(c, past, error.failure)
  }

  ghost predicate TaskMatches(c: Config, now: nat, flight: Flight, f: nat, past: LoginPast) {
    && (flight.published.Some? ==> flight.phase.Gone? && PublishedFor(c, past, f, flight.published.value))
    && match flight.phase
       case Spawned => past == NO_PAST
       case LoginWantSlot(startedAt, deadline) =>
         past == LoginPast(Some(startedAt), true, None, None) && deadline == startedAt + c.timeout && startedAt <= now
       case LoginExchanging(startedAt) =>
         && past.began == Some(startedAt) && past.endpointOk && past.reply.None?
         && past.asked.Some? && startedAt <= past.asked.value < startedAt + c.timeout
       case Storing(token) => Earned(c, past, f, token)
       case Finishing(outcome) => Justified(c, past, f, outcome)
       case Publishing(outcome) => PublishedFor(c, past, f, outcome)
       case Gone => true
  }

  lemma {:induction false} BeginningMatches(c: Config, s: State, f: nat, endpointOk: bool)
    requires Enabled(c, s, BeginLogin(f, endpointOk)) && s.flights[f].published.None?
    ensures
      var past := LoginPast(Some(s.now), endpointOk, None, None);
      TaskMatches(c, s.now, Apply(c, s, BeginLogin(f, endpointOk)).flights[f], f, past)
  {
    LoginBeginsExactly(c, s, f, endpointOk);
  }

  lemma {:induction false} SlotStepMatches(c: Config, s: State, step: Step, f: nat, past: LoginPast)
    requires step == TakeLoginSlot(f) || step == GiveUpLoginSlot(f)
    requires Enabled(c, s, step) && TaskMatches(c, s.now, s.flights[f], f, past)
    ensures TaskMatches(c, s.now, Apply(c, s, step).flights[f], f, PastAfter(past, step, s.now, f))
  {
    LoginSlotStepsAreExact(c, s, f);
  }

  lemma {:induction false} AnswerMatches(c: Config, s: State, f: nat, reply: LoginReply, past: LoginPast)
    requires ValidConfig(c) && Enabled(c, s, ReceiveLogin(f, reply)) && TaskMatches(c, s.now, s.flights[f], f, past)
    requires s.flights[f].published.None?
    ensures TaskMatches(c, s.now, Apply(c, s, ReceiveLogin(f, reply)).flights[f], f, past.(reply := Some(reply)))
  {
    LoginEndsExactly(c, s, f, reply);
    var startedAt := s.flights[f].phase.startedAt;
    if Earns(c, startedAt, reply) {
      RefreshWindow(startedAt, reply.ttlSeconds, c.skew);
    }
  }

  lemma {:induction false} FinishMatches(c: Config, s: State, f: nat, lag: nat, past: LoginPast)
    requires CoordinatorInv(s) && Enabled(c, s, FinishLogin(f, lag)) && FlightOk(s, f)
    requires TaskMatches(c, s.now, s.flights[f], f, past)
    ensures TaskMatches(c, s.now, Apply(c, s, FinishLogin(f, lag)).flights[f], f, past)
  {
    FinishingIsExact(c, s, f, lag);
  }

  lemma {:induction false} LastStepsMatch(c: Config, s: State, step: Step, f: nat, past: LoginPast)
    requires step == StoreToken(f) || step == Publish(f) || step == Interrupt(f)
    requires Enabled(c, s, step) && TaskMatches(c, s.now, s.flights[f], f, past)
    ensures TaskMatches(c, s.now, Apply(c, s, step).flights[f], f, past)
  {
  }

  lemma {:induction false} OwnTaskStepMatches(c: Config, s: State, step: Step, f: nat, past: LoginPast)
    requires ValidConfig(c) && CoordinatorInv(s) && f < |s.flights| && FlightOk(s, f)
    requires Enabled(c, s, step) && RunsTask(step, f) && TaskMatches(c, s.now, s.flights[f], f, past)
    ensures f < |Apply(c, s, step).flights|
    ensures TaskMatches(c, s.now, Apply(c, s, step).flights[f], f, PastAfter(past, step, s.now, f))
  {
    match step
    case BeginLogin(_, endpointOk) => BeginningMatches(c, s, f, endpointOk);
    case TakeLoginSlot(_) => SlotStepMatches(c, s, step, f, past);
    case GiveUpLoginSlot(_) => SlotStepMatches(c, s, step, f, past);
    case ReceiveLogin(_, reply) => AnswerMatches(c, s, f, reply, past);
    case FinishLogin(_, lag) => FinishMatches(c, s, f, lag, past);
    case _ => LastStepsMatch(c, s, step, f, past);
  }

  lemma {:induction false} TimePasses(c: Config, s: State, step: Step)
    requires Enabled(c, s, step)
    ensures s.now <= Apply(c, s, step).now
  {
  }

  lemma {:induction false} LaterStillMatches(c: Config, now: nat, later: nat, flight: Flight, f: nat, past: LoginPast)
    requires TaskMatches(c, now, flight, f, past) && now <= later
    ensures TaskMatches(c, later, flight, f, past)
  {
  }

  lemma {:induction false} TaskStepMatches(c: Config, s: State, step: Step, f: nat, past: LoginPast)
    requires ValidConfig(c) && CoordinatorInv(s) && f < |s.flights| && FlightOk(s, f)
    requires Enabled(c, s, step) && TaskMatches(c, s.now, s.flights[f], f, past)
    ensures f < |Apply(c, s, step).flights|
    ensures TaskMatches(c, Apply(c, s, step).now, Apply(c, s, step).flights[f], f, PastAfter(past, step, s.now, f))
  {
    TimePasses(c, s, step);
    if RunsTask(step, f) {
      OwnTaskStepMatches(c, s, step, f, past);
    } else {
      OtherTasksUntouched(c, s, step, f);
    }
    LaterStillMatches(c, s.now, Apply(c, s, step).now, Apply(c, s, step).flights[f], f,
                      PastAfter(past, step, s.now, f));
  }

  lemma {:induction false} PastIsLocal(steps: seq<Step>, run: seq<State>, longer: seq<State>, f: nat)
    requires |steps| <= |run| <= |longer| && run == longer[..|run|]
    ensures PastOf(steps, run, f) == PastOf(steps, longer, f)
    decreases |steps|
  {
    if steps != [] {
      PastIsLocal(steps[..|steps| - 1], run, longer, f);
    }
  }

  /** A flight that was not there before the last step has done nothing. */
  lemma {:induction false} NoFlightNoPast(c: Config, steps: seq<Step>, run: seq<State>, f: nat)
    requires Traced(c, steps, run) && steps != [] && |run[|steps| - 1].flights| <= f
    ensures PastOf(steps, run, f) == NO_PAST
    decreases |steps|
  {
    var n := |steps| - 1;
    TracePrefix(c, steps, run);
    if n > 0 {
      FlightsGrow(c, run[n - 1], steps[n - 1]);
      assert run[n - 1 + 1] == Apply(c, run[n - 1], steps[n - 1]);
      PastIsLocal(steps[..n], run[..n + 1], run, f);
      NoFlightNoPast(c, steps[..n], run[..n + 1], f);
    }
  }

  lemma {:induction false} FlightsGrow(c: Config, s: State, step: Step)
    requires Enabled(c, s, step)
    ensures |s.flights| <= |Apply(c, s, step).flights|
  {
  }

  /** In every run each login task is where its own past brought it, and what it publishes is the token
      that past earned or the error it failed with. */
  lemma {:induction false} TasksFollowTheirPast(c: Config, steps: seq<Step>, run: seq<State>, f: nat)
    requires Traced(c, steps, run) && f < |run[|steps|].flights|
    ensures TaskMatches(c, run[|steps|].now, run[|steps|].flights[f], f, PastOf(steps, run, f))
    decreases |steps|
  {
    if steps != [] {
      var n := |steps| - 1;
      TracePrefix(c, steps, run);
      PastIsLocal(steps[..n], run[..n + 1], run, f);
      if f < |run[n].flights| {
        TasksFollowTheirPast(c, steps[..n], run[..n + 1], f);
        TraceInv(c, steps, run, n);
        assert FlightOk(run[n], f);
        TaskStepMatches(c, run[n], steps[n], f, PastOf(steps[..n], run, f));
      } else {
        NewFlightIsSpawned(c, run[n], steps[n]);
        NoFlightNoPast(c, steps, run, f);
      }
    }
  }

  // ---------- whose tokens callers use ----------

  /** The token was earned by the login task of its own flight. */
  ghost predicate Genuine(c: Config, steps: seq<Step>, run: seq<State>, token: Token)
    requires |steps| <= |run|
  {
    Earned(c, PastOf(steps, run, token.id), token.id, token)
  }

  ghost predicate HasToken(phase: CallerPhase) {
    phase.WantSlot? || phase.Exchanging? || phase.Evicting?
  }

  /** The token in the cell and those in the hands of callers. */
  ghost predicate InUse(s: State, token: Token) {
    s.shared.token == Some(token)
    || exists i :: 0 <= i < |s.callers| && HasToken(s.callers[i].phase) && s.callers[i].phase.token == token
  }

  /** A flight that has its answer does nothing any more that its past records. */
  lemma {:induction false} EarnedStaysEarned(c: Config, s: State, step: Step, f: nat, past: LoginPast, token: Token)
    requires Enabled(c, s, step) && Earned(c, past, f, token)
    requires f < |s.flights| ==> TaskMatches(c, s.now, s.flights[f], f, past)
    ensures Earned(c, PastAfter(past, step, s.now, f), f, token)
  {
  }

  lemma {:induction false} GenuineKept(c: Config, steps: seq<Step>, run: seq<State>, token: Token)
    requires Traced(c, steps, run) && steps != []
    requires Genuine(c, steps[..|steps| - 1], run[..|steps|], token)
    ensures Genuine(c, steps, run, token)
  {
    var n := |steps| - 1;
    TracePrefix(c, steps, run);
    PastIsLocal(steps[..n], run[..n + 1], run, token.id);
    if token.id < |run[n].flights| {
      TasksFollowTheirPast(c, steps[..n], run[..n + 1], token.id);
    }
    EarnedStaysEarned(c, run[n], steps[n], token.id, PastOf(steps[..n], run, token.id), token);
  }

  /** A token comes into use only from the cell, from a flight that published it or from one that is
      about to store it. */
  lemma {:induction false} TokensComeFrom(c: Config, s: State, step: Step, token: Token)
    requires Enabled(c, s, step) && InUse(Apply(c, s, step), token)
    ensures InUse(s, token)
         || (step.StoreToken? && s.flights[step.flight].phase == Storing(token))
         || (step.Observe? && s.flights[s.callers[step.caller].phase.flight].published == Some(Success(token)))
  {
    var t := Apply(c, s, step);
    if t.shared.token == Some(token) {
      CellComesFrom(c, s, step, token);
    } else {
      var i :| 0 <= i < |t.callers| && HasToken(t.callers[i].phase) && t.callers[i].phase.token == token;
      CallersTokenComesFrom(c, s, step, i);
    }
  }

  lemma {:induction false} CellComesFrom(c: Config, s: State, step: Step, token: Token)
    requires Enabled(c, s, step) && Apply(c, s, step).shared.token == Some(token)
    ensures s.shared.token == Some(token) || (step.StoreToken? && s.flights[step.flight].phase == Storing(token))
  {
    match step
    case StoreToken(f) => StoringIsExact(c, s, f);
    case Evict(i) => EvictOnCell(c, s, i);
    case _ => OtherStepsOnCell(c, s, step);
  }

  lemma {:induction false} CallersTokenComesFrom(c: Config, s: State, step: Step, i: nat)
    requires Enabled(c, s, step) && i < |Apply(c, s, step).callers| && HasToken(Apply(c, s, step).callers[i].phase)
    ensures
      var token := Apply(c, s, step).callers[i].phase.token;
      || InUse(s, token)
      || (step.Observe? && s.flights[s.callers[step.caller].phase.flight].published == Some(Success(token)))
  {
    if i == |s.callers| {
      NewCallerSentNothing(c, s, step);
    } else if !ActsFor(step, i) {
      OthersUntouched(c, s, step, i);
    } else {
      ActingCallersToken(c, s, step, i);
    }
  }

  lemma {:induction false} ActingCallersToken(c: Config, s: State, step: Step, i: nat)
    requires Enabled(c, s, step) && i < |s.callers| && ActsFor(step, i)
    requires i < |Apply(c, s, step).callers| && HasToken(Apply(c, s, step).callers[i].phase)
    ensures
      var token := Apply(c, s, step).callers[i].phase.token;
      || s.shared.token == Some(token)
      || (HasToken(s.callers[i].phase) && s.callers[i].phase.token == token)
      || (step == Observe(i) && s.flights[s.callers[i].phase.flight].published == Some(Success(token)))
  {
    match step
    case Peek(_) => PeekingIsExact(c, s, i);
    case DecideLocked(_) => DecidingIsExact(c, s, i);
    case TakeSlot(_) => SlotStepsAreExact(c, s, i);
    case GiveUpSlot(_) => SlotStepsAreExact(c, s, i);
    case Receive(_, reply) => ReceivingIsExact(c, s, i, reply);
    case _ =>
  }

  /** Every token ever in the cell or used by a caller was earned by a login: granted in answer to a
      request of its own flight, with a refresh window counted from before that request was sent. */
  lemma {:induction false} TokensAreEarned(c: Config, steps: seq<Step>, run: seq<State>, token: Token)
    requires Traced(c, steps, run) && InUse(run[|steps|], token)
    ensures Genuine(c, steps, run, token)
    decreases |steps|
  {
    if steps != [] {
      var n := |steps| - 1;
      var s, step := run[n], steps[n];
      TracePrefix(c, steps, run);
      TokensComeFrom(c, s, step, token);
      if InUse(s, token) {
        TokensAreEarned(c, steps[..n], run[..n + 1], token);
      } else {
        var f := if step.StoreToken? then step.flight else s.callers[step.caller].phase.flight;
        TasksFollowTheirPast(c, steps[..n], run[..n + 1], f);
      }
      GenuineKept(c, steps, run, token);
    }
  }

  // ---------- how long a slot is waited for ----------

  /** A caller that wants a slot has wanted it, with the same token, since an instant that lies the whole
      timeout before its deadline. */
  lemma {:induction false} QueuedSince(c: Config, steps: seq<Step>, run: seq<State>, i: nat)
    requires Traced(c, steps, run) && i < |run[|steps|].callers| && run[|steps|].callers[i].phase.WantSlot?
    ensures exists j :: 0 <= j < |steps| && QueuedFrom(c, steps, run, i, j)
    decreases |steps|
  {
    var n := |steps| - 1;
    var phase := run[|steps|].callers[i].phase;
    TracePrefix(c, steps, run);
    if i < |run[n].callers| && run[n].callers[i].phase == phase {
      QueuedSince(c, steps[..n], run[..n + 1], i);
      var j :| 0 <= j < n && QueuedFrom(c, steps[..n], run[..n + 1], i, j);
      StillQueued(c, steps, run, i, j);
    } else {
      QueueStart(c, run[n], steps[n], i);
      assert QueuedFrom(c, steps, run, i, n);
    }
  }

  lemma {:induction false} StillQueued(c: Config, steps: seq<Step>, run: seq<State>, i: nat, j: nat)
    requires |run| == |steps| + 1 && j < |steps| - 1
    requires i < |run[|steps|].callers| && run[|steps|].callers[i].phase.WantSlot?
    requires i < |run[|steps| - 1].callers| && run[|steps| - 1].callers[i].phase == run[|steps|].callers[i].phase
    requires QueuedFrom(c, steps[..|steps| - 1], run[..|steps|], i, j)
    ensures QueuedFrom(c, steps, run, i, j)
  {
    var phase := run[|steps|].callers[i].phase;
    forall m | j < m <= |steps|
      ensures i < |run[m].callers| && run[m].callers[i].phase == phase
    {
      if m < |steps| {
        assert run[..|steps|][m] == run[m];
      }
    }
  }

  ghost predicate QueuedFrom(c: Config, steps: seq<Step>, run: seq<State>, i: nat, j: nat)
    requires |run| == |steps| + 1 && j < |steps|
    requires i < |run[|steps|].callers| && run[|steps|].callers[i].phase.WantSlot?
  {
    var phase := run[|steps|].callers[i].phase;
    && phase.deadline == run[j].now + c.timeout
    && forall m :: j < m <= |steps| ==> i < |run[m].callers| && run[m].callers[i].phase == phase
  }

  lemma {:induction false} QueueStart(c: Config, s: State, step: Step, i: nat)
    requires Enabled(c, s, step) && i < |Apply(c, s, step).callers| && Apply(c, s, step).callers[i].phase.WantSlot?
    requires i < |s.callers| ==> s.callers[i].phase != Apply(c, s, step).callers[i].phase
    ensures Apply(c, s, step).callers[i].phase.deadline == s.now + c.timeout
  {
    if i == |s.callers| {
      NewCallerSentNothing(c, s, step);
    } else if !ActsFor(step, i) {
      OthersUntouched(c, s, step, i);
    } else {
      ActingQueueStart(c, s, step, i);
    }
  }

  lemma {:induction false} ActingQueueStart(c: Config, s: State, step: Step, i: nat)
    requires Enabled(c, s, step) && i < |s.callers| && ActsFor(step, i)
    requires i < |Apply(c, s, step).callers| && Apply(c, s, step).callers[i].phase.WantSlot?
    ensures Apply(c, s, step).callers[i].phase.deadline == s.now + c.timeout
  {
    match step
    case Peek(_) => PeekingIsExact(c, s, i);
    case DecideLocked(_) => DecidingIsExact(c, s, i);
    case TakeSlot(_) => SlotStepsAreExact(c, s, i);
    case GiveUpSlot(_) => SlotStepsAreExact(c, s, i);
    case Receive(_, reply) => ReceivingIsExact(c, s, i, reply);
    case _ =>
  }

  /** With a free slot a queued operation can send its request as long as less than the timeout has
      passed since it was queued, and gives up only once the timeout has passed. */
  lemma {:induction false} SlotIsWaitedForExactly(c: Config, steps: seq<Step>, run: seq<State>, i: nat)
    requires Traced(c, steps, run) && i < |run[|steps|].callers| && run[|steps|].callers[i].phase.WantSlot?
    ensures
      var s := run[|steps|];
      exists j :: 0 <= j < |steps| && QueuedFrom(c, steps, run, i, j)
        && (Enabled(c, s, TakeSlot(i)) <==> |s.slots| < c.limit && s.now < run[j].now + c.timeout)
        && (Enabled(c, s, GiveUpSlot(i)) <==> run[j].now + c.timeout <= s.now)
  {
    QueuedSince(c, steps, run, i);
    SlotStepsAreExact(c, run[|steps|], i);
  }

  // ---------- when a login is rejected for its cooldown ----------

  /** A pending cooldown is that of the last entry of the log. */
  ghost predicate PendingIsLast(s: State) {
    s.shared.failure.Some? ==>
      && s.log != [] && s.log[|s.log| - 1].LoginFailed?
      && s.shared.failure.value == Cooldown(CooldownEnd(s.log[|s.log| - 1]), s.log[|s.log| - 1].failure)
  }

  lemma {:induction false} SettleKeepsPending(s: State, flight: nat, failure: Option<ClientError>, lag: nat)
    requires PendingIsLast(s)
    ensures PendingIsLast(Settle(s, flight, failure, lag))
  {
  }

  lemma {:induction false} DecideKeepsPending(c: Config, s: State, i: nat)
    requires Enabled(c, s, DecideLocked(i)) && PendingIsLast(s)
    ensures PendingIsLast(Apply(c, s, DecideLocked(i)))
  {
  }

  lemma {:induction false} OthersKeepLog(c: Config, s: State, step: Step)
    requires Enabled(c, s, step) && !step.Reap? && !step.FinishLogin? && !step.DecideLocked?
    ensures Apply(c, s, step).log == s.log && Apply(c, s, step).shared.failure == s.shared.failure
  {
  }

  lemma {:induction false} PendingKept(c: Config, s: State, step: Step)
    requires Enabled(c, s, step) && PendingIsLast(s)
    ensures PendingIsLast(Apply(c, s, step))
  {
    match step
    case Reap(i, lag) => SettleKeepsPending(s, s.callers[i].phase.flight, Some(RefreshInterrupted), lag);
    case FinishLogin(f, lag) => SettleKeepsPending(s, f, OutcomeError(s.flights[f].phase.outcome), lag);
    case DecideLocked(i) => DecideKeepsPending(c, s, i);
    case _ => OthersKeepLog(c, s, step);
  }

  lemma {:induction false} RunKeepsPending(c: Config, run: seq<State>, k: nat)
    requires Reached(c, run, k)
    ensures PendingIsLast(run[k])
  {
    if k > 0 {
      RunKeepsPending(c, run, k - 1);
      assert Next(c, run[k - 1], run[k]);
      var step :| Enabled(c, run[k - 1], step) && run[k] == Apply(c, run[k - 1], step);
      PendingKept(c, run[k - 1], step);
    }
  }

  /** In every reachable state a cooldown is pending exactly when the last thing that happened to logins
      was a failure, and less time than that failure's own cooldown has passed since. */
  lemma {:induction false} CoolingDownIff(c: Config, run: seq<State>, k: nat)
    requires Reached(c, run, k)
    ensures
      var s := run[k];
      CoolingDown(s.shared, s.now) <==>
      s.log != [] && var last := s.log[|s.log| - 1];
                     last.LoginFailed? && s.now < last.at + CooldownFor(last.failure)
  {
    RunKeepsPending(c, run, k);
    RunInv(c, run, k);
    var s := run[k];
    if s.log != [] {
      assert Expired(s, s.log[|s.log| - 1]);
    }
  }
}
