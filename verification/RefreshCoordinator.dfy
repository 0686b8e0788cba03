/** The critical sections of the login coordinator: what each one computes, as a function on the
    shared cells, and the class whose methods change those cells in place. */
module RefreshCoordinator {
  import opened Wrappers
  import opened ClientErrors

  /** A cached access token. Two handles are the same allocation exactly when the ids agree. */
  datatype Token = Token(id: nat, refreshAfter: nat)

  datatype Cooldown = Cooldown(retryAt: nat, error: ClientError)

  type Outcome = Result<Token, ClientError>

  datatype Shared = Shared(token: Option<Token>, inFlight: Option<nat>, failure: Option<Cooldown>)

  /** What a caller does after looking at the cells under the coordinator lock. */
  datatype Verdict = UseToken(token: Token) | Reject(error: ClientError) | Join(flight: nat) | Start(flight: nat)

  function FreshToken(token: Option<Token>, now: nat): Option<Token> {
    if token.Some? && now < token.value.refreshAfter then token else None
  }

  function Remaining(until: nat, now: nat): nat {
    if now <= until then until - now else 0
  }

  function Wrapped(cooldown: Cooldown, now: nat): ClientError {
    AuthenticationCooldown(cooldown.error, CeilSeconds(Remaining(cooldown.retryAt, now)))
  }

  predicate CoolingDown(shared: Shared, now: nat) {
    shared.failure.Some? && now < shared.failure.value.retryAt
  }

  /** The locked half of a token request: `sampled` is the clock read before the cache was looked
      at, `now` the clock read for the cooldown, `next` the id a new flight would get. */
  function Decide(shared: Shared, sampled: nat, now: nat, next: nat): (Shared, Verdict) {
    match FreshToken(shared.token, sampled)
    case Some(token) => (shared, UseToken(token))
    case None =>
      if CoolingDown(shared, now) then (shared, Reject(Wrapped(shared.failure.value, now)))
      else if shared.inFlight.Some? then (shared.(failure := None), Join(shared.inFlight.value))
      else (shared.(failure := None, inFlight := Some(next)), Start(next))
  }

  /** Completing a flight. The clock is read twice: `now` starts the cooldown, `later` is what its
      remaining time is reported from. */
  function Finish(shared: Shared, flight: nat, failure: Option<ClientError>, now: nat, later: nat)
    : (Shared, Option<ClientError>)
  {
    if shared.inFlight != Some(flight) then (shared, None)
    else if failure.None? then (shared.(failure := None, inFlight := None), None)
    else
      var cooldown := Cooldown(now + CooldownFor(failure.value), failure.value);
      (shared.(failure := Some(cooldown), inFlight := None), Some(Wrapped(cooldown, later)))
  }

  function Invalidate(shared: Shared, used: Token): Shared {
    if shared.token.Some? && shared.token.value.id == used.id then shared.(token := None) else shared
  }

  /** The validity instant of a login answered with a lifetime of `ttl` nanoseconds. */
  function RefreshAfter(startedAt: nat, ttl: nat, skew: nat): nat {
    startedAt + (ttl - Min(skew, ttl / 2))
  }

  /** A failing current flight is reported as cooling down, for the least whole number of seconds
      that reaches the end of its own cooldown; nothing but that wrapper leaves it. The cooldown is
      pending from then on for exactly its length. */
  lemma {:induction false} FinishWrapsFailures(shared: Shared, flight: nat, failure: ClientError, now: nat, later: nat)
    requires shared.inFlight == Some(flight) && now <= later
    ensures
      var (after, reported) := Finish(shared, flight, Some(failure), now, later);
      && reported.Some? && reported.value.AuthenticationCooldown?
      && reported.value.failure == failure
      && after.inFlight.None? && after.token == shared.token
      && (forall t: nat :: CoolingDown(after, t) <==> t < now + CooldownFor(failure))
      && forall wait: nat ::
           now + CooldownFor(failure) <= later + wait * SECOND <==> reported.value.retryAfterSeconds <= wait
  {
    var wrapped := Finish(shared, flight, Some(failure), now, later).1.value;
    forall wait: nat
      ensures now + CooldownFor(failure) <= later + wait * SECOND <==> wrapped.retryAfterSeconds <= wait
    {
      CeilSecondsIsLeast(Remaining(now + CooldownFor(failure), later), wait);
    }
  }

  /** Who gets what under the lock: the cached token while it is fresh; else the pending cooldown,
      reported as the least whole number of seconds that reaches its end; else the flight under way;
      else a new one. Only a new flight changes more than an expired cooldown. */
  lemma {:induction false} DecideIsExact(shared: Shared, sampled: nat, now: nat, next: nat)
    ensures
      var (after, verdict) := Decide(shared, sampled, now, next);
      var usable := shared.token.Some? && sampled < shared.token.value.refreshAfter;
      && (verdict.UseToken? <==> usable)
      && (verdict.Reject? <==> !usable && CoolingDown(shared, now))
      && (verdict.Join? <==> !usable && !CoolingDown(shared, now) && shared.inFlight.Some?)
      && (verdict.Start? <==> !usable && !CoolingDown(shared, now) && shared.inFlight.None?)
      && (verdict.UseToken? ==> Some(verdict.token) == shared.token && after == shared)
      && (verdict.Reject? ==>
            && after == shared && verdict.error.AuthenticationCooldown?
            && verdict.error.failure == shared.failure.value.error
            && forall wait: nat ::
                 shared.failure.value.retryAt <= now + wait * SECOND <==> verdict.error.retryAfterSeconds <= wait)
      && (verdict.Join? ==> shared.inFlight == Some(verdict.flight) && after == shared.(failure := None))
      && (verdict.Start? ==> verdict.flight == next && after == shared.(failure := None, inFlight := Some(next)))
  {
    var (_, verdict) := Decide(shared, sampled, now, next);
    if verdict.Reject? {
      var left := shared.failure.value.retryAt - now;
      forall wait: nat
        ensures shared.failure.value.retryAt <= now + wait * SECOND <==> verdict.error.retryAfterSeconds <= wait
      {
        CeilSecondsIsLeast(left, wait);
      }
    }
  }

  /** A token is refreshed in the second half of its life and strictly before its end. */
  lemma {:induction false} RefreshWindow(startedAt: nat, ttlSeconds: nat, skew: nat)
    requires 0 < ttlSeconds && 0 < skew
    ensures
      var ttl := ttlSeconds * SECOND;
      startedAt + ttl / 2 <= RefreshAfter(startedAt, ttl, skew) < startedAt + ttl
  {
  }

  class Coordinator {
    var token: Option<Token>
    var inFlight: Option<nat>
    var failure: Option<Cooldown>
    var flights: nat

    function View(): Shared
      reads this
    {
      Shared(token, inFlight, failure)
    }

    constructor ()
      ensures View() == Shared(None, None, None) && flights == 0
    {
      token, inFlight, failure, flights := None, None, None, 0;
    }

    /** The part of a token request that runs under the coordinator lock. */
    method AccessTokenLocked(sampled: nat, now: nat) returns (verdict: Verdict)
      modifies this
      ensures (View(), verdict) == Decide(old(View()), sampled, now, old(flights))
      ensures flights == old(flights) + (if verdict.Start? then 1 else 0)
    {
      if token.Some? && sampled < token.value.refreshAfter {
        return UseToken(token.value);
      }
      if failure.Some? {
        var remaining := Remaining(failure.value.retryAt, now);
        if remaining != 0 {
          return Reject(AuthenticationCooldown(failure.value.error, CeilSeconds(remaining)));
        }
      }
      failure := None;
      if inFlight.Some? {
        return Join(inFlight.value);
      }
      verdict := Start(flights);
      inFlight := Some(flights);
      flights := flights + 1;
    }

    method FinishRefresh(completed: nat, error: Option<ClientError>, now: nat, later: nat)
      returns (reported: Option<ClientError>)
      modifies this
      ensures (View(), reported) == Finish(old(View()), completed, error, now, later)
      ensures flights == old(flights)
    {
      if inFlight == Some(completed) {
        if error.Some? {
          failure := Some(Cooldown(now + CooldownFor(error.value), error.value));
        } else {
          failure := None;
        }
        inFlight := None;
        if failure.Some? {
          var remaining := Remaining(failure.value.retryAt, later);
          return Some(AuthenticationCooldown(failure.value.error, CeilSeconds(remaining)));
        }
      }
      return None;
    }

    method StoreToken(minted: Token)
      modifies this
      ensures View() == old(View()).(token := Some(minted)) && flights == old(flights)
    {
      token := Some(minted);
    }

    method InvalidateIfCurrent(used: Token)
      modifies this
      ensures View() == Invalidate(old(View()), used) && flights == old(flights)
    {
      if token.Some? && token.value.id == used.id {
        token := None;
      }
    }
  }
}
