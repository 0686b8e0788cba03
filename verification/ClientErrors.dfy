/** The client's error values and the pacing arithmetic built on them. Times are whole nanoseconds. */
module ClientErrors {
  import opened Wrappers

  const SECOND := 1_000_000_000
  const AUTH_FAILURE_COOLDOWN := 5 * SECOND
  const AUTH_REJECTION_COOLDOWN := 30 * SECOND
  const MAX_RETRY_AFTER := 300 * SECOND

  datatype ApiErrorKind =
    InvalidRequest | Authentication | PermissionDenied | NotFound | Conflict | RateLimited | Server

  datatype TransportErrorKind = Timeout | Connect | Other

  datatype ClientError =
    | WorkBudgetExhausted
    | Transport(transport: TransportErrorKind)
    | ResponseTooLarge(limit: nat)
    | InvalidResponse
    | InvalidMutationResponse
    | InvalidEndpoint
    | RefreshInterrupted
    | AuthenticationCooldown(failure: ClientError, retryAfterSeconds: nat)
    | Api(kind: ApiErrorKind, apiRetryAfterSeconds: Option<nat>)
  {
    predicate Is401() {
      Api? && kind.Authentication?
    }

    /** What one exchange with the server can end in, once its request has been sent. */
    predicate IsWireError() {
      Transport? || ResponseTooLarge? || InvalidResponse? || Api?
    }

    /** The errors after which the operation's own request is promised not to have left. */
    predicate PromisesNothingSent() {
      InvalidEndpoint? || WorkBudgetExhausted? || AuthenticationCooldown? || RefreshInterrupted?
    }

    function RetryAfter(): nat {
      match this
      case Api(_, Some(seconds)) => seconds * SECOND
      case AuthenticationCooldown(_, seconds) => seconds * SECOND
      case _ => 0
    }
  }

  function Min(a: nat, b: nat): nat { if a <= b then a else b }

  function Max(a: nat, b: nat): nat { if a <= b then b else a }

  function MinimumCooldown(failure: ClientError): nat {
    if failure.Api? && (failure.kind.Authentication? || failure.kind.PermissionDenied?)
    then AUTH_REJECTION_COOLDOWN
    else AUTH_FAILURE_COOLDOWN
  }

  function CooldownFor(failure: ClientError): nat {
    Min(Max(MinimumCooldown(failure), failure.RetryAfter()), MAX_RETRY_AFTER)
  }

  /** Whole seconds plus one for a nonzero remainder. */
  function CeilSeconds(duration: nat): nat {
    duration / SECOND + (if duration % SECOND != 0 then 1 else 0)
  }

  /** The seconds kept from a Retry-After delay: capped, then rounded up. */
  function BoundedDelaySeconds(delay: nat): nat {
    CeilSeconds(Min(delay, MAX_RETRY_AFTER))
  }

  /** The reported wait is the least whole number of seconds that covers the duration. */
  lemma {:induction false} CeilSecondsIsLeast(duration: nat, seconds: nat)
    ensures duration <= CeilSeconds(duration) * SECOND
    ensures duration <= seconds * SECOND ==> CeilSeconds(duration) <= seconds
  {
    assert duration == duration / SECOND * SECOND + duration % SECOND;
  }

  /** The cooldown of every failure: five seconds, or thirty for a rejected login, or the seconds the
      server asked for if those are more, but three hundred at most. */
  lemma {:induction false} CooldownIsExact(failure: ClientError)
    ensures
      CooldownFor(failure) ==
      (match failure
       case Api(kind, retry) =>
         var base := if kind.Authentication? || kind.PermissionDenied? then 30 else 5;
         var asked := if retry.Some? then retry.value else 0;
         if 300 < Max(base, asked) then 300 else Max(base, asked)
       case AuthenticationCooldown(_, asked) => if 300 < Max(5, asked) then 300 else Max(5, asked)
       case _ => 5) * 1_000_000_000
  {
  }

  /** Of a delay asked for, the least whole number of seconds that covers it is kept, up to 300. */
  lemma {:induction false} BoundedDelayIsExact(delay: nat, wait: nat)
    ensures BoundedDelaySeconds(delay) <= wait <==> delay <= wait * 1_000_000_000 || 300 <= wait
  {
    CeilSecondsIsLeast(Min(delay, MAX_RETRY_AFTER), wait);
  }

  /** Every cooldown lies between the five-second floor and the five-minute cap, and is exactly
      what a Retry-After delay of that length calls for, rounding included. */
  lemma {:induction false} CooldownCoversRetryAfter(kind: ApiErrorKind, delay: nat)
    ensures
      var failure := Api(kind, Some(BoundedDelaySeconds(delay)));
      && AUTH_FAILURE_COOLDOWN <= MinimumCooldown(failure) <= CooldownFor(failure) <= MAX_RETRY_AFTER
      && Min(Max(MinimumCooldown(failure), delay), MAX_RETRY_AFTER) <= CooldownFor(failure)
      && CooldownFor(failure) < Max(MinimumCooldown(failure), delay) + SECOND
  {
    var bounded := Min(delay, MAX_RETRY_AFTER);
    CeilSecondsIsLeast(bounded, 300);
    assert bounded == bounded / SECOND * SECOND + bounded % SECOND;
  }
}
