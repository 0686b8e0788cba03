/** The whole client as a step relation: any number of callers, one detached login task per flight,
    a coordinator lock, a token cell and a semaphore of request slots. One step is what the code
    does between two of its awaits. */
module RefreshProtocol {
  import opened Wrappers
  import opened ClientErrors
  import opened RefreshCoordinator

  datatype Config = Config(limit: nat, timeout: nat, skew: nat, maxInstant: nat)

  predicate ValidConfig(c: Config) {
    0 < c.limit && 0 < c.timeout && 0 < c.skew
  }

  datatype OperationKind = Read | ObservableRead | Mutation

  datatype Answer = Answered | Failed(error: ClientError)

  datatype CallerPhase =
    | Sampling                                  // about to read the clock for the unlocked look
    | Peeking(sampled: nat)                     // about to look at the token cell
    | WantLock                                  // queued on the coordinator lock
    | Deciding(sampled: nat)                    // holds the lock, about to look at the cell again
    | Waiting(flight: nat)                      // watching a flight's channel
    | Reaping(flight: nat)                      // saw the channel close without an outcome
    | WantSlot(token: Token, deadline: nat)     // queued on the semaphore
    | Exchanging(token: Token)                  // request sent; holds a slot
    | Evicting(token: Token, refusal: ClientError)
    | Done(answer: Answer)
    | Cancelled

  /** `sent` and `refused` count the operation's own requests and the 401 answers to them. */
  datatype Caller = Caller(kind: OperationKind, attempt: nat, phase: CallerPhase, sent: nat, refused: nat)

  datatype TaskPhase =
    | Spawned
    | LoginWantSlot(startedAt: nat, deadline: nat)
    | LoginExchanging(startedAt: nat)           // holds a slot
    | Storing(token: Token)
    | Finishing(outcome: Outcome)
    | Publishing(value: Outcome)
    | Gone

  /** A flight's task, and the value its channel carries once the task has sent one. */
  datatype Flight = Flight(phase: TaskPhase, published: Option<Outcome>)

  datatype Agent = CallerAgent(caller: nat) | TaskAgent(task: nat)

  datatype Event = LoginStarted(flight: nat, at: nat) | LoginFailed(flight: nat, at: nat, failure: ClientError)

  /** `settled`, `log`, `stored` and `evicted` are history: the flights some completion was applied
      to, the logins started and failed, the tokens put in the cell and those a 401 took out. */
  datatype State = State(
    now: nat,
    shared: Shared,
    lock: Option<nat>,
    slots: set<Agent>,
    callers: seq<Caller>,
    flights: seq<Flight>,
    settled: set<nat>,
    log: seq<Event>,
    stored: seq<nat>,
    evicted: set<nat>)

  datatype LoginReply = Granted(ttlSeconds: nat, emptyToken: bool) | LoginFault(fault: ClientError)

  datatype Step =
    | Tick(elapsed: nat)
    | Arrive(kind: OperationKind, endpointOk: bool)
    | Cancel(caller: nat)
    | Sample(caller: nat)
    | Peek(caller: nat)
    | Acquire(caller: nat)
    | DecideLocked(caller: nat)
    | Observe(caller: nat)
    | Reap(caller: nat, lag: nat)
    | TakeSlot(caller: nat)
    | GiveUpSlot(caller: nat)
    | Receive(caller: nat, reply: Answer)
    | Evict(caller: nat)
    | BeginLogin(flight: nat, endpointOk: bool)
    | TakeLoginSlot(flight: nat)
    | GiveUpLoginSlot(flight: nat)
    | ReceiveLogin(flight: nat, loginReply: LoginReply)
    | StoreToken(flight: nat)
    | FinishLogin(flight: nat, lag: nat)
    | Publish(flight: nat)
    | Interrupt(flight: nat)

  function Init(): State {
    State(0, Shared(None, None, None), None, {}, [], [], {}, [], [], {})
  }

  // ---------- caller bookkeeping ----------

  /** The end of one attempt: a read that was refused starts over once, anything else is returned. */
  function EndAttempt(caller: Caller, answer: Answer): Caller {
    if caller.kind.Read? && caller.attempt == 1 && answer.Failed? && answer.error.Is401()
    then caller.(attempt := 2, phase := Sampling)
    else caller.(phase := Done(answer))
  }

  /** Mutations rename an undecodable answer, since the change may have happened. */
  function Reported(kind: OperationKind, answer: Answer): Answer {
    if kind.Mutation? && answer == Failed(InvalidResponse) then Failed(InvalidMutationResponse) else answer
  }

  function SetCaller(s: State, i: nat, caller: Caller): State
    requires i < |s.callers|
  {
    s.(callers := s.callers[i := caller])
  }

  function SetPhase(s: State, i: nat, phase: CallerPhase): State
    requires i < |s.callers|
  {
    SetCaller(s, i, s.callers[i].(phase := phase))
  }

  function SetTask(s: State, f: nat, phase: TaskPhase): State
    requires f < |s.flights|
  {
    s.(flights := s.flights[f := s.flights[f].(phase := phase)])
  }

  function Queue(c: Config, s: State, token: Token): CallerPhase {
    WantSlot(token, s.now + c.timeout)
  }

  // ---------- the steps ----------

  predicate Active(caller: Caller) { !caller.phase.Done? && !caller.phase.Cancelled? }

  predicate SlotFree(c: Config, s: State) { |s.slots| < c.limit }

  predicate Closed(flight: Flight) { flight.phase.Gone? && flight.published.None? }

  predicate ValidReply(reply: Answer) { reply.Failed? ==> reply.error.IsWireError() }

  predicate ValidLoginReply(reply: LoginReply) { reply.LoginFault? ==> reply.fault.IsWireError() }

  predicate Enabled(c: Config, s: State, step: Step) {
    match step
    case Tick(_) => true
    case Arrive(_, _) => true
    case Cancel(i) => i < |s.callers| && Active(s.callers[i])
    case Sample(i) => i < |s.callers| && s.callers[i].phase.Sampling?
    case Peek(i) => i < |s.callers| && s.callers[i].phase.Peeking?
    case Acquire(i) => i < |s.callers| && s.callers[i].phase.WantLock? && s.lock.None?
    case DecideLocked(i) => i < |s.callers| && s.callers[i].phase.Deciding?
    case Observe(i) =>
      && i < |s.callers| && s.callers[i].phase.Waiting?
      && s.callers[i].phase.flight < |s.flights|
      && var flight := s.flights[s.callers[i].phase.flight];
         flight.published.Some? || flight.phase.Gone?
    case Reap(i, _) => i < |s.callers| && s.callers[i].phase.Reaping? && s.lock.None?
    case TakeSlot(i) =>
      i < |s.callers| && s.callers[i].phase.WantSlot? && SlotFree(c, s) && s.now < s.callers[i].phase.deadline
    case GiveUpSlot(i) =>
      i < |s.callers| && s.callers[i].phase.WantSlot? && s.callers[i].phase.deadline <= s.now
    case Receive(i, reply) => i < |s.callers| && s.callers[i].phase.Exchanging? && ValidReply(reply)
    case Evict(i) => i < |s.callers| && s.callers[i].phase.Evicting?
    case BeginLogin(f, _) => f < |s.flights| && s.flights[f].phase.Spawned?
    case TakeLoginSlot(f) =>
      f < |s.flights| && s.flights[f].phase.LoginWantSlot? && SlotFree(c, s) && s.now < s.flights[f].phase.deadline
    case GiveUpLoginSlot(f) =>
      f < |s.flights| && s.flights[f].phase.LoginWantSlot? && s.flights[f].phase.deadline <= s.now
    case ReceiveLogin(f, reply) =>
      f < |s.flights| && s.flights[f].phase.LoginExchanging? && ValidLoginReply(reply)
    case StoreToken(f) => f < |s.flights| && s.flights[f].phase.Storing?
    case FinishLogin(f, _) => f < |s.flights| && s.flights[f].phase.Finishing? && s.lock.None?
    case Publish(f) => f < |s.flights| && s.flights[f].phase.Publishing?
    case Interrupt(f) => f < |s.flights| && !s.flights[f].phase.Gone?
  }

  function ApplyCancel(s: State, i: nat): State
    requires i < |s.callers|
  {
    SetPhase(s, i, Cancelled).(
      lock := if s.lock == Some(i) then None else s.lock,
      slots := s.slots - {CallerAgent(i)})
  }

  function ApplyPeek(c: Config, s: State, i: nat): State
    requires i < |s.callers| && s.callers[i].phase.Peeking?
  {
    match FreshToken(s.shared.token, s.callers[i].phase.sampled)
    case Some(token) => SetPhase(s, i, Queue(c, s, token))
    case None => SetPhase(s, i, WantLock)
  }

  function ApplyDecide(c: Config, s: State, i: nat): State
    requires i < |s.callers| && s.callers[i].phase.Deciding?
  {
    var (shared, verdict) := Decide(s.shared, s.callers[i].phase.sampled, s.now, |s.flights|);
    var unlocked := s.(shared := shared, lock := None);
    match verdict
    case UseToken(token) => SetPhase(unlocked, i, Queue(c, s, token))
    case Reject(error) => SetCaller(unlocked, i, EndAttempt(s.callers[i], Failed(error)))
    case Join(flight) => SetPhase(unlocked, i, Waiting(flight))
    case Start(flight) =>
      SetPhase(unlocked, i, Waiting(flight)).(
        flights := s.flights + [Flight(Spawned, None)],
        log := s.log + [LoginStarted(flight, s.now)])
  }

  function ApplyObserve(c: Config, s: State, i: nat): State
    requires i < |s.callers| && s.callers[i].phase.Waiting? && s.callers[i].phase.flight < |s.flights|
  {
    match s.flights[s.callers[i].phase.flight].published
    case Some(Success(token)) => SetPhase(s, i, Queue(c, s, token))
    case Some(Failure(error)) => SetCaller(s, i, EndAttempt(s.callers[i], Failed(error)))
    case None => SetPhase(s, i, Reaping(s.callers[i].phase.flight))
  }

  /** Applies one completion of `flight` under the lock and records it in the history; `lag` passes
      between its two clock readings. */
  function Settle(s: State, flight: nat, failure: Option<ClientError>, lag: nat): State {
    var current := s.shared.inFlight == Some(flight);
    s.(now := s.now + lag,
       shared := Finish(s.shared, flight, failure, s.now, s.now + lag).0,
       settled := s.settled + {flight},
       log := if current && failure.Some?
              then s.log + [LoginFailed(flight, s.now, failure.value)]
              else s.log)
  }

  function ApplyReap(s: State, i: nat, lag: nat): State
    requires i < |s.callers| && s.callers[i].phase.Reaping?
  {
    var flight := s.callers[i].phase.flight;
    var reported := Finish(s.shared, flight, Some(RefreshInterrupted), s.now, s.now + lag).1;
    var error := if reported.Some? then reported.value else RefreshInterrupted;
    SetCaller(Settle(s, flight, Some(RefreshInterrupted), lag), i, EndAttempt(s.callers[i], Failed(error)))
  }

  function ApplyTakeSlot(s: State, i: nat): State
    requires i < |s.callers| && s.callers[i].phase.WantSlot?
  {
    var caller := s.callers[i];
    SetCaller(s, i, caller.(phase := Exchanging(caller.phase.token), sent := caller.sent + 1)).(
      slots := s.slots + {CallerAgent(i)})
  }

  function ApplyReceive(s: State, i: nat, reply: Answer): State
    requires i < |s.callers| && s.callers[i].phase.Exchanging?
  {
    var caller := s.callers[i];
    var released := s.(slots := s.slots - {CallerAgent(i)});
    if reply.Failed? && reply.error.Is401()
    then
      SetCaller(released, i,
                caller.(phase := Evicting(caller.phase.token, reply.error), refused := caller.refused + 1))
    else SetCaller(released, i, EndAttempt(caller, Reported(caller.kind, reply)))
  }

  function ApplyEvict(s: State, i: nat): State
    requires i < |s.callers| && s.callers[i].phase.Evicting?
  {
    var caller := s.callers[i];
    var shared := Invalidate(s.shared, caller.phase.token);
    SetCaller(s, i, EndAttempt(caller, Failed(caller.phase.refusal))).(
      shared := shared,
      evicted := if shared != s.shared then s.evicted + {caller.phase.token.id} else s.evicted)
  }

  /** What a login makes of its answer: a token with a validity instant, or an error. */
  function LoginOutcome(c: Config, flight: nat, startedAt: nat, reply: LoginReply): Outcome {
    match reply
    case LoginFault(fault) => Failure(fault)
    case Granted(ttlSeconds, emptyToken) =>
      var refreshAfter := RefreshAfter(startedAt, ttlSeconds * SECOND, c.skew);
      if emptyToken || ttlSeconds == 0 || c.maxInstant < refreshAfter then Failure(InvalidResponse)
      else Success(Token(flight, refreshAfter))
  }

  function ApplyReceiveLogin(c: Config, s: State, f: nat, reply: LoginReply): State
    requires f < |s.flights| && s.flights[f].phase.LoginExchanging?
  {
    var outcome := LoginOutcome(c, f, s.flights[f].phase.startedAt, reply);
    SetTask(s, f, if outcome.Success? then Storing(outcome.value) else Finishing(outcome)).(
      slots := s.slots - {TaskAgent(f)})
  }

  function ApplyStore(s: State, f: nat): State
    requires f < |s.flights| && s.flights[f].phase.Storing?
  {
    var token := s.flights[f].phase.token;
    SetTask(s, f, Finishing(Success(token))).(
      shared := s.shared.(token := Some(token)),
      stored := s.stored + [token.id])
  }

  function OutcomeError(outcome: Outcome): Option<ClientError> {
    if outcome.Failure? then Some(outcome.error) else None
  }

  function ApplyFinish(s: State, f: nat, lag: nat): State
    requires f < |s.flights| && s.flights[f].phase.Finishing?
  {
    var outcome := s.flights[f].phase.outcome;
    var reported := Finish(s.shared, f, OutcomeError(outcome), s.now, s.now + lag).1;
    SetTask(Settle(s, f, OutcomeError(outcome), lag), f,
            Publishing(if reported.Some? then Failure(reported.value) else outcome))
  }

  function Apply(c: Config, s: State, step: Step): State
    requires Enabled(c, s, step)
  {
    match step
    case Tick(elapsed) => s.(now := s.now + elapsed)
    case Arrive(kind, endpointOk) =>
      s.(callers := s.callers +
           [Caller(kind, 1, if endpointOk then Sampling else Done(Failed(InvalidEndpoint)), 0, 0)])
    case Cancel(i) => ApplyCancel(s, i)
    case Sample(i) => SetPhase(s, i, Peeking(s.now))
    case Peek(i) => ApplyPeek(c, s, i)
    case Acquire(i) => SetPhase(s, i, Deciding(s.now)).(lock := Some(i))
    case DecideLocked(i) => ApplyDecide(c, s, i)
    case Observe(i) => ApplyObserve(c, s, i)
    case Reap(i, lag) => ApplyReap(s, i, lag)
    case TakeSlot(i) => ApplyTakeSlot(s, i)
    case GiveUpSlot(i) => SetCaller(s, i, EndAttempt(s.callers[i], Failed(WorkBudgetExhausted)))
    case Receive(i, reply) => ApplyReceive(s, i, reply)
    case Evict(i) => ApplyEvict(s, i)
    case BeginLogin(f, endpointOk) =>
      SetTask(s, f, if endpointOk then LoginWantSlot(s.now, s.now + c.timeout) else Finishing(Failure(InvalidEndpoint)))
    case TakeLoginSlot(f) =>
      SetTask(s, f, LoginExchanging(s.flights[f].phase.startedAt)).(slots := s.slots + {TaskAgent(f)})
    case GiveUpLoginSlot(f) => SetTask(s, f, Finishing(Failure(WorkBudgetExhausted)))
    case ReceiveLogin(f, reply) => ApplyReceiveLogin(c, s, f, reply)
    case StoreToken(f) => ApplyStore(s, f)
    case FinishLogin(f, lag) => ApplyFinish(s, f, lag)
    case Publish(f) =>
      s.(flights := s.flights[f := Flight(Gone, Some(s.flights[f].phase.value))])
    case Interrupt(f) => SetTask(s, f, Gone).(slots := s.slots - {TaskAgent(f)})
  }

  // ---------- runs ----------

  ghost predicate Next(c: Config, s: State, t: State) {
    exists step :: Enabled(c, s, step) && t == Apply(c, s, step)
  }

  ghost predicate IsRun(c: Config, run: seq<State>) {
    && 0 < |run| && run[0] == Init()
    && forall k :: 0 < k < |run| ==> Next(c, run[k - 1], run[k])
  }
}
