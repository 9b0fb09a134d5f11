/**
 * The GitHub client's request loop as a function of its environment, and the bounds on its sends and sleeps.
 * Responses, clock readings and sleeps are the environment's, one turn for each trip round the loop.
 */
module ClientRetry {
  import opened Wrappers

  const TOKEN_REFRESH_ATTEMPTS := 2
  const TRANSIENT_ATTEMPTS := 2
  const MAX_RATE_LIMIT_ATTEMPTS := 3
  const MAX_TOKEN_REFRESH_ATTEMPTS := 3
  const MAX_RETRY_WAIT_MS := 30_000
  const MAX_AUTOMATIC_RATE_LIMIT_WAIT_SECONDS := 60 * 60
  const SECONDARY_LIMIT_HOLD_MS := 60_000

  // ----- Classifying a failed response -----

  /** A whole-seconds header as its parser reads it. */
  datatype Header = Missing | Malformed(raw: string) | Seconds(seconds: nat)

  datatype Reason = BadHeader | AboveAutomaticLimit

  datatype FailureClass =
    | TokenExpired
    | BadCredentials
    | PermissionMissing(accepted: string)
    | InstallationSuspended
    | SecondaryLimit(retryAfterSeconds: Option<nat>)
    | PrimaryExhausted(resetAt: Header)
    | RateLimitResponseUnusable(reason: Reason)
    | ForbiddenUnrecognized
    | NotFoundOrNotInstalled
    | ValidationError
    | Redirected(status: int, permanent: bool)
    | ClientError(status: int)
    | Transient

  /** A failed response, with GitHub's prose already matched against the two known patterns. */
  datatype Observation = Observation(
    status: int,
    remainingIsZero: bool,
    resetAt: Header,
    retryAfter: Header,
    saysSecondaryLimit: bool,
    saysSuspended: bool,
    acceptedPermissions: Option<string>,
    tokenPastExpiry: bool)

  function ClassifyFailure(seen: Observation): FailureClass {
    if 300 <= seen.status < 400 && seen.status != 304 then Redirected(seen.status, seen.status == 301 || seen.status == 308)
    else if seen.status == 401 then (if seen.tokenPastExpiry then TokenExpired else BadCredentials)
    else if seen.status == 403 || seen.status == 429 then
      if seen.remainingIsZero then PrimaryExhausted(seen.resetAt)
      else if seen.saysSecondaryLimit || seen.status == 429 then
        match seen.retryAfter
        case Missing => SecondaryLimit(None)
        case Malformed(_) => RateLimitResponseUnusable(BadHeader)
        case Seconds(s) =>
          if s > MAX_AUTOMATIC_RATE_LIMIT_WAIT_SECONDS then RateLimitResponseUnusable(AboveAutomaticLimit)
          else SecondaryLimit(Some(s))
      else if seen.acceptedPermissions.Some? then PermissionMissing(seen.acceptedPermissions.value)
      else if seen.saysSuspended then InstallationSuspended
      else ForbiddenUnrecognized
    else if seen.status == 404 then NotFoundOrNotInstalled
    else if seen.status == 422 then ValidationError
    else if 400 <= seen.status < 500 && seen.status != 408 then ClientError(seen.status)
    else Transient
  }

  // ----- What to do next -----

  datatype Advice = RetryAfterMs(ms: int) | RefreshTokenAndRetry | DoNotRetry

  const BACKOFF_MS := [500, 2_000, 8_000]

  function RetryAdvice(failure: FailureClass, attempt: nat, nowEpochSeconds: int): Advice {
    match failure
    case TokenExpired => if attempt >= MAX_TOKEN_REFRESH_ATTEMPTS then DoNotRetry else RefreshTokenAndRetry
    case SecondaryLimit(retryAfter) =>
      if attempt >= MAX_RATE_LIMIT_ATTEMPTS then DoNotRetry
      else RetryAfterMs(if retryAfter.Some? && retryAfter.value * 1000 > 60_000 then retryAfter.value * 1000 else 60_000)
    case PrimaryExhausted(resetAt) =>
      if attempt >= MAX_RATE_LIMIT_ATTEMPTS || !resetAt.Seconds? then DoNotRetry
      else
        var waitSeconds := if resetAt.seconds > nowEpochSeconds then resetAt.seconds - nowEpochSeconds else 0;
        if waitSeconds > MAX_AUTOMATIC_RATE_LIMIT_WAIT_SECONDS then DoNotRetry else RetryAfterMs(waitSeconds * 1000)
    case Transient => if attempt < |BACKOFF_MS| then RetryAfterMs(BACKOFF_MS[attempt]) else DoNotRetry
    case _ => DoNotRetry
  }

  /** The number of sends, all told, after which this failure ends a request. */
  function AttemptCap(failure: FailureClass): nat {
    if failure.TokenExpired? then TOKEN_REFRESH_ATTEMPTS
    else if failure.Transient? then TRANSIENT_ATTEMPTS
    else MAX_RATE_LIMIT_ATTEMPTS
  }

  /** The language's remainder: the sign of the dividend. */
  function Remainder(a: int, b: int): int
    requires b > 0
  {
    if a >= 0 then a % b else -((-a) % b)
  }

  /** What is added to the wait after a transient failure: less than a quarter of it, taken from the clock. */
  function JitterMs(failure: FailureClass, advisedMs: int, now: int): int {
    if !failure.Transient? then 0
    else
      var span := advisedMs / 4;
      if span < 1 then 0 else Remainder(now, span)
  }

  datatype NextStep = Return | RefreshToken | Wait(ms: int)

  /** What to do about a failure after `attempt` earlier ones; a wait past the ceiling is not begun. */
  function Next(failure: FailureClass, attempt: nat, now: int, waitedMs: int): NextStep {
    if attempt + 1 >= AttemptCap(failure) then Return
    else match RetryAdvice(failure, attempt, now / 1000)
      case DoNotRetry => Return
      case RefreshTokenAndRetry => RefreshToken
      case RetryAfterMs(advised) =>
        var ms := advised + JitterMs(failure, advised, now);
        if waitedMs + ms > MAX_RETRY_WAIT_MS then Return else Wait(ms)
  }

  // ----- The loop -----

  datatype Seam = Clock | Sleep | TokenSource | Response | Invalidate

  /** One exchange: it broke mid-read, succeeded, or failed for a reason of GitHub's or the adapter's own. */
  datatype Exchange = BrokeMidRead | Succeeded | Failed(failure: FailureClass) | NotSent | ResponseTooLarge

  datatype HoldReading = NotHeld | Held | HoldClockBroke

  datatype TokenReading = BrokenSource | NoToken | LacksGrants | Usable

  /** What the environment answers on one trip round the loop. */
  datatype Turn = Turn(
    hold: HoldReading,
    token: TokenReading,
    allowanceRefuses: bool,
    exchange: Exchange,
    invalidateBreaks: bool,
    clock: Option<int>,
    sleepBreaks: bool)

  datatype Answer =
    | Exchanged(exchange: Exchange)
    | StillHeld
    | WithoutToken
    | WithoutGrants
    | AllowanceSpent
    | PacedOut
    | Broken(seam: Seam)

  /** The answer, with every exchange made and every sleep asked for on the way to it. */
  datatype Trace = Trace(answer: Answer, sent: seq<Exchange>, slept: seq<int>)

  function Sum(waits: seq<int>): int {
    if waits == [] then 0 else Sum(waits[..|waits| - 1]) + waits[|waits| - 1]
  }

  /** The failure to ask advice about: none for an exchange that was not sent or answered too much. */
  function ResponseClass(exchange: Exchange): Option<FailureClass> {
    if exchange.Failed? then Some(exchange.failure) else None
  }

  function Otherwise(previous: Option<Exchange>, answer: Answer): Answer {
    if previous.Some? then Exchanged(previous.value) else answer
  }

  /** What stops a turn before it sends, if anything. */
  function StopBefore(turn: Turn, previous: Option<Exchange>): Option<Answer> {
    if turn.hold.HoldClockBroke? then Some(Otherwise(previous, Broken(Clock)))
    else if turn.hold.Held? then Some(Otherwise(previous, StillHeld))
    else if turn.token.BrokenSource? then Some(Broken(TokenSource))
    else if turn.token.NoToken? then Some(WithoutToken)
    else if turn.token.LacksGrants? then Some(WithoutGrants)
    else if turn.allowanceRefuses then Some(Otherwise(previous, AllowanceSpent))
    else None
  }

  datatype Move = Stop(answer: Answer) | Again | AgainAfter(ms: int)

  /** What a turn does about the exchange it has just made. */
  function MoveAfter(turn: Turn, retriable: bool, attempt: nat, waitedMs: int): (move: Move)
    ensures attempt >= 2 ==> move.Stop?
  {
    var exchange := turn.exchange;
    if exchange.BrokeMidRead? then Stop(Broken(Response))
    else if exchange.Succeeded? then Stop(Exchanged(exchange))
    else match ResponseClass(exchange)
      case None => Stop(Exchanged(exchange))
      case Some(failure) =>
        if failure.SecondaryLimit? || failure.RateLimitResponseUnusable? then Stop(Exchanged(exchange))
        else if failure.TokenExpired? && turn.invalidateBreaks then Stop(Broken(Invalidate))
        else if !retriable then Stop(Exchanged(exchange))
        else if turn.clock.None? then Stop(Broken(Clock))
        else match Next(failure, attempt, turn.clock.value, waitedMs)
          case Return => Stop(Exchanged(exchange))
          case RefreshToken => Again
          case Wait(ms) => AgainAfter(ms)
  }

  /** The sends from this attempt on. */
  function Deliver(env: nat -> Turn, retriable: bool, attempt: nat, previous: Option<Exchange>,
                   sent: seq<Exchange>, slept: seq<int>): Trace
    decreases if attempt < 3 then 3 - attempt else 0
  {
    var turn := env(attempt);
    match StopBefore(turn, previous)
    case Some(answer) => Trace(answer, sent, slept)
    case None =>
      var sent' := sent + [turn.exchange];
      match MoveAfter(turn, retriable, attempt, Sum(slept))
      case Stop(answer) => Trace(answer, sent', slept)
      case Again => Deliver(env, retriable, attempt + 1, Some(turn.exchange), sent', slept)
      case AgainAfter(ms) =>
        if turn.sleepBreaks then Trace(Broken(Sleep), sent', slept + [ms])
        else Deliver(env, retriable, attempt + 1, Some(turn.exchange), sent', slept + [ms])
  }

  /** The loop with its pacing: if the pool is known to be exhausted, one wait or none of the loop at all. */
  function Request(env: nat -> Turn, retriable: bool, paced: Option<FailureClass>, clock: Option<int>, sleepBreaks: bool): Trace {
    if paced.None? then Deliver(env, retriable, 0, None, [], [])
    else if clock.None? then Trace(Broken(Clock), [], [])
    else match Next(paced.value, 0, clock.value, 0)
      case Wait(ms) =>
        if sleepBreaks then Trace(Broken(Sleep), [], [ms]) else Deliver(env, retriable, 0, None, [], [ms])
      case _ => Trace(PacedOut, [], [])
  }

  method DeliverRequest(env: nat -> Turn, retriable: bool, paced: Option<FailureClass>, clock: Option<int>, sleepBreaks: bool)
    returns (trace: Trace)
    ensures trace == Request(env, retriable, paced, clock, sleepBreaks)
    ensures |trace.sent| <= 3 && (!retriable ==> |trace.sent| <= 1)
    ensures 0 <= Sum(trace.slept) <= MAX_RETRY_WAIT_MS
  {
    RequestIsBounded(env, retriable, paced, clock, sleepBreaks);
    var waitedMs := 0;
    var sent: seq<Exchange>, slept: seq<int> := [], [];
    if paced.Some? {
      if clock.None? {
        return Trace(Broken(Clock), sent, slept);
      }
      var step := Next(paced.value, 0, clock.value, waitedMs);
      if !step.Wait? {
        return Trace(PacedOut, sent, slept);
      }
      waitedMs, slept := waitedMs + step.ms, [step.ms];
      assert slept[..0] == [] && Sum(slept) == waitedMs;
      if sleepBreaks {
        return Trace(Broken(Sleep), sent, slept);
      }
    }
    trace := SendUntilStopped(env, retriable, slept);
  }

  lemma SumGrows(values: seq<int>, value: int)
    ensures Sum(values + [value]) == Sum(values) + value
  {
    assert (values + [value])[..|values|] == values;
  }

  /** The loop, once pacing has let the request start. */
  method SendUntilStopped(env: nat -> Turn, retriable: bool, paced: seq<int>) returns (trace: Trace)
    ensures trace == Deliver(env, retriable, 0, None, [], paced)
  {
    var waitedMs, slept := Sum(paced), paced;
    var sent: seq<Exchange> := [];
    var previous: Option<Exchange> := None;
    var attempt := 0;
    while true
      invariant Deliver(env, retriable, 0, None, [], paced) == Deliver(env, retriable, attempt, previous, sent, slept)
      invariant waitedMs == Sum(slept)
      decreases if attempt < 3 then 3 - attempt else 0
    {
      var turn := env(attempt);
      var stopped := StopBefore(turn, previous);
      if stopped.Some? {
        return Trace(stopped.value, sent, slept);
      }
      sent := sent + [turn.exchange];
      previous := Some(turn.exchange);
      var move := MoveAfter(turn, retriable, attempt, waitedMs);
      if move.Stop? {
        return Trace(move.answer, sent, slept);
      }
      if move.AgainAfter? {
        SumGrows(slept, move.ms);
        waitedMs, slept := waitedMs + move.ms, slept + [move.ms];
        if turn.sleepBreaks {
          return Trace(Broken(Sleep), sent, slept);
        }
      }
      attempt := attempt + 1;
    }
  }

  // ----- The bounds -----

  /** No wait is ever negative, whatever the clock reads, and none is begun past the ceiling. */
  lemma WaitsAreBounded(failure: FailureClass, attempt: nat, now: int, waitedMs: int)
    ensures var step := Next(failure, attempt, now, waitedMs);
            step.Wait? ==> 0 <= step.ms && waitedMs + step.ms <= MAX_RETRY_WAIT_MS
    ensures Next(failure, attempt, now, waitedMs) != Return ==> attempt < 2
  {
    if failure.Transient? && attempt < |BACKOFF_MS| {
      var span := BACKOFF_MS[attempt] / 4;
      assert span == 125 || span == 500 || span == 2_000;
      assert -span < Remainder(now, span) < span;
    }
  }

  /** The exchange at `i` was sent again after: what that takes. */
  ghost predicate Resent(sent: seq<Exchange>, i: nat)
    requires i < |sent|
  {
    && sent[i].Failed?
    && (sent[i].failure.TokenExpired? || sent[i].failure.Transient? || sent[i].failure.PrimaryExhausted?)
    && (i >= 1 ==> sent[i].failure.PrimaryExhausted?)
  }

  /** What going on after an exchange takes, and what the wait before it is bounded by. */
  lemma WhatIsSentAgain(turn: Turn, retriable: bool, attempt: nat, waitedMs: int)
    requires !MoveAfter(turn, retriable, attempt, waitedMs).Stop?
    ensures retriable && attempt < 2 && turn.exchange.Failed?
    ensures var failure := turn.exchange.failure;
            && (failure.TokenExpired? || failure.Transient? || failure.PrimaryExhausted?)
            && (attempt >= 1 ==> failure.PrimaryExhausted?)
    ensures var move := MoveAfter(turn, retriable, attempt, waitedMs);
            move.AgainAfter? ==> 0 <= move.ms && waitedMs + move.ms <= MAX_RETRY_WAIT_MS
  {
    WaitsAreBounded(turn.exchange.failure, attempt, turn.clock.value, waitedMs);
  }

  /** Waiting out an exhausted pool's reset from `now` begun, past what was waited already, stays inside the ceiling. */
  predicate ResetIsNear(resetAt: Header, now: int, waitedMs: int) {
    && resetAt.Seconds?
    && var waitMs := if resetAt.seconds > now / 1000 then (resetAt.seconds - now / 1000) * 1000 else 0;
      waitedMs + waitMs <= MAX_RETRY_WAIT_MS
  }

  /**
   * What is sent again: on a request that may be retried, an expired token that could be dropped, once; a transient
   * failure, once, while its backoff fits the ceiling; an exhausted pool, twice, while its reset is near.
   */
  predicate WorthAnother(turn: Turn, retriable: bool, attempt: nat, waitedMs: int) {
    && retriable && turn.exchange.Failed? && turn.clock.Some?
    && var failure, now := turn.exchange.failure, turn.clock.value;
      || (failure.TokenExpired? && !turn.invalidateBreaks && attempt == 0)
      || (failure.Transient? && attempt == 0 && waitedMs + 500 + Remainder(now, 125) <= MAX_RETRY_WAIT_MS)
      || (failure.PrimaryExhausted? && attempt < 2 && ResetIsNear(failure.resetAt, now, waitedMs))
  }

  /** A turn goes on exactly then, and at once, without a wait, exactly after an expired token. */
  lemma SentAgainIff(turn: Turn, retriable: bool, attempt: nat, waitedMs: int)
    requires waitedMs >= 0
    ensures var move := MoveAfter(turn, retriable, attempt, waitedMs);
            && (!move.Stop? <==> WorthAnother(turn, retriable, attempt, waitedMs))
            && (!move.Stop? ==> (move.Again? <==> turn.exchange.failure.TokenExpired?))
  {
  }

  /** A wait for an exhausted pool ends at or after the reset GitHub named, and by less than a second. */
  lemma AWaitReachesTheReset(resetAt: Header, attempt: nat, now: int, waitedMs: int)
    requires Next(PrimaryExhausted(resetAt), attempt, now, waitedMs).Wait?
    ensures var ms := Next(PrimaryExhausted(resetAt), attempt, now, waitedMs).ms;
            && resetAt.Seconds? && resetAt.seconds * 1000 <= now + ms
            && (resetAt.seconds * 1000 > now ==> now + ms < resetAt.seconds * 1000 + 1000)
  {
  }

  lemma {:induction false} DeliverIsBounded(env: nat -> Turn, retriable: bool, attempt: nat, previous: Option<Exchange>,
                                            sent: seq<Exchange>, slept: seq<int>)
    requires attempt <= 2 && |sent| == attempt && (!retriable ==> attempt == 0)
    requires 0 <= Sum(slept) <= MAX_RETRY_WAIT_MS
    requires forall i :: 0 <= i < |sent| ==> Resent(sent, i)
    ensures var t := Deliver(env, retriable, attempt, previous, sent, slept);
            && |t.sent| <= 3
            && (!retriable ==> |t.sent| <= 1)
            && 0 <= Sum(t.slept) <= MAX_RETRY_WAIT_MS
            && (forall i :: 0 <= i < |t.sent| - 1 ==> Resent(t.sent, i))
            && sent <= t.sent
    decreases 3 - attempt
  {
    var turn := env(attempt);
    if StopBefore(turn, previous).None? {
      var sent' := sent + [turn.exchange];
      forall i | 0 <= i < |sent| ensures Resent(sent', i) {
        assert Resent(sent, i) && sent'[i] == sent[i];
      }
      var move := MoveAfter(turn, retriable, attempt, Sum(slept));
      if !move.Stop? {
        WhatIsSentAgain(turn, retriable, attempt, Sum(slept));
        assert Resent(sent', attempt);
        if move.AgainAfter? {
          SumGrows(slept, move.ms);
          if !turn.sleepBreaks {
            DeliverIsBounded(env, retriable, attempt + 1, Some(turn.exchange), sent', slept + [move.ms]);
          }
        } else {
          DeliverIsBounded(env, retriable, attempt + 1, Some(turn.exchange), sent', slept);
        }
      }
    }
  }

  /**
   * One request sends at most three times, a request that may not be retried at most once, and its pacing and
   * retry sleeps total at most the ceiling, for any sequence of failures, clocks, holds and refusals. Only an
   * expired token, an exhausted primary limit or weather is ever sent again, and past the first send only the
   * exhausted limit.
   */
  lemma RequestIsBounded(env: nat -> Turn, retriable: bool, paced: Option<FailureClass>, clock: Option<int>, sleepBreaks: bool)
    ensures var t := Request(env, retriable, paced, clock, sleepBreaks);
            && |t.sent| <= 3
            && (!retriable ==> |t.sent| <= 1)
            && 0 <= Sum(t.slept) <= MAX_RETRY_WAIT_MS
            && forall i :: 0 <= i < |t.sent| - 1 ==> Resent(t.sent, i)
  {
    assert Sum([]) == 0;
    if paced.None? {
      DeliverIsBounded(env, retriable, 0, None, [], []);
    } else if clock.Some? {
      WaitsAreBounded(paced.value, 0, clock.value, 0);
      var step := Next(paced.value, 0, clock.value, 0);
      if step.Wait? {
        assert [step.ms][..0] == [];
        DeliverIsBounded(env, retriable, 0, None, [], [step.ms]);
      }
    }
  }

  // ----- What a request answers -----

  /**
   * Every exchange made is the environment's own, and the answer is the last of them, or else what stopped the request
   * in the turn after: before any exchange a hold, a spent allowance or the pacing, and at any turn no usable token.
   */
  ghost predicate AnswersFor(t: Trace, env: nat -> Turn) {
    && (forall i :: 0 <= i < |t.sent| ==> t.sent[i] == env(i).exchange && MaySend(env(i)))
    && match t.answer
       case Exchanged(exchange) => t.sent != [] && exchange == t.sent[|t.sent| - 1]
       case StillHeld => t.sent == [] && env(0).hold.Held?
       case AllowanceSpent => t.sent == [] && env(0).allowanceRefuses
       case WithoutToken => env(|t.sent|).token.NoToken?
       case WithoutGrants => env(|t.sent|).token.LacksGrants?
       case PacedOut => t.sent == []
       case Broken(seam) => BreaksAt(seam, env, |t.sent|)
  }

  /** No hold stands, the token is in hand with its grants, and the allowance lets the exchange through. */
  predicate MaySend(turn: Turn) {
    turn.hold.NotHeld? && turn.token.Usable? && !turn.allowanceRefuses
  }

  /** The seam the answer names did break: around the last exchange, in the turn after it, or before there was one. */
  ghost predicate BreaksAt(seam: Seam, env: nat -> Turn, sent: nat) {
    match seam
    case Clock => sent == 0 || env(sent - 1).clock.None?
    case Sleep => sent == 0 || env(sent - 1).sleepBreaks
    case TokenSource => env(sent).token.BrokenSource?
    case Response => sent > 0 && env(sent - 1).exchange.BrokeMidRead?
    case Invalidate => sent > 0 && env(sent - 1).invalidateBreaks
  }

  lemma {:induction false} DeliverAnswers(env: nat -> Turn, retriable: bool, attempt: nat, previous: Option<Exchange>,
                                          sent: seq<Exchange>, slept: seq<int>)
    requires |sent| == attempt && forall i :: 0 <= i < attempt ==> sent[i] == env(i).exchange && MaySend(env(i))
    requires previous == if attempt == 0 then None else Some(sent[attempt - 1])
    ensures AnswersFor(Deliver(env, retriable, attempt, previous, sent, slept), env)
    decreases if attempt < 3 then 3 - attempt else 0
  {
    var turn := env(attempt);
    if StopBefore(turn, previous).None? {
      var sent', move := sent + [turn.exchange], MoveAfter(turn, retriable, attempt, Sum(slept));
      if move.Again? {
        DeliverAnswers(env, retriable, attempt + 1, Some(turn.exchange), sent', slept);
      } else if move.AgainAfter? && !turn.sleepBreaks {
        DeliverAnswers(env, retriable, attempt + 1, Some(turn.exchange), sent', slept + [move.ms]);
      }
    }
  }

  /**
   * A request is answered by its last exchange and nothing else, whatever may be retried, unless it was stopped before
   * it made any, has no token to go on with, or a seam broke.
   */
  lemma TheAnswerIsTheLastExchange(env: nat -> Turn, retriable: bool, paced: Option<FailureClass>, clock: Option<int>,
                                   sleepBreaks: bool)
    ensures AnswersFor(Request(env, retriable, paced, clock, sleepBreaks), env)
  {
    if paced.None? {
      DeliverAnswers(env, retriable, 0, None, [], []);
    } else if clock.Some? && Next(paced.value, 0, clock.value, 0).Wait? {
      DeliverAnswers(env, retriable, 0, None, [], [Next(paced.value, 0, clock.value, 0).ms]);
    }
  }

  /** A known exhausted pool is waited out first: without that wait, for whatever reason, nothing at all is sent. */
  lemma AnExhaustedPoolIsWaitedOut(env: nat -> Turn, retriable: bool, failure: FailureClass, clock: Option<int>,
                                   sleepBreaks: bool)
    ensures var t := Request(env, retriable, Some(failure), clock, sleepBreaks);
            && (clock.None? ==> t == Trace(Broken(Clock), [], []))
            && (clock.Some? && !Next(failure, 0, clock.value, 0).Wait? ==> t == Trace(PacedOut, [], []))
            && (clock.Some? && Next(failure, 0, clock.value, 0).Wait? ==>
                  var ms := Next(failure, 0, clock.value, 0).ms;
                  && (sleepBreaks ==> t == Trace(Broken(Sleep), [], [ms]))
                  && (!sleepBreaks ==> t == Deliver(env, retriable, 0, None, [], [ms])))
  {
  }

  /** GitHub's own answer ends the request: nothing follows a secondary limit, or one whose wait is unusable. */
  lemma NothingFollowsASecondaryLimit(env: nat -> Turn, retriable: bool, paced: Option<FailureClass>, clock: Option<int>,
                                      sleepBreaks: bool, i: nat)
    requires var sent := Request(env, retriable, paced, clock, sleepBreaks).sent;
             i < |sent| && sent[i].Failed? && (sent[i].failure.SecondaryLimit? || sent[i].failure.RateLimitResponseUnusable?)
    ensures i == |Request(env, retriable, paced, clock, sleepBreaks).sent| - 1
  {
    RequestIsBounded(env, retriable, paced, clock, sleepBreaks);
    var sent := Request(env, retriable, paced, clock, sleepBreaks).sent;
    assert !Resent(sent, i);
  }

  /** A wait GitHub asks for automatically is at most an hour, and only these statuses are weather. */
  lemma ClassifiedWaitsAreAutomatic(seen: Observation)
    ensures var failure := ClassifyFailure(seen);
            && (failure.SecondaryLimit? && failure.retryAfterSeconds.Some? ==>
                  failure.retryAfterSeconds.value <= MAX_AUTOMATIC_RATE_LIMIT_WAIT_SECONDS)
            && (failure.Transient? <==> seen.status < 300 || seen.status == 304 || seen.status == 408 || seen.status >= 500)
            && (failure.TokenExpired? <==> seen.status == 401 && seen.tokenPastExpiry)
  {
  }

  /** A response that GitHub limits rather than answers. */
  predicate Limits(seen: Observation) {
    seen.status == 403 || seen.status == 429
  }

  /** A limit that is secondary: GitHub says so, or it is a 429 whose pool is not exhausted. */
  predicate LimitsSecondarily(seen: Observation) {
    Limits(seen) && !seen.remainingIsZero && (seen.saysSecondaryLimit || seen.status == 429)
  }

  /** The classes in no order: each of them is met by its own signals and by no other. */
  lemma EachClassHasItsSignals(seen: Observation)
    ensures var failure := ClassifyFailure(seen);
            var denied := seen.status == 403 && !seen.remainingIsZero && !seen.saysSecondaryLimit;
            && (failure.Redirected? <==> 300 <= seen.status <= 399 && seen.status != 304)
            && (failure.Redirected? ==> failure.status == seen.status && (failure.permanent <==> seen.status in {301, 308}))
            && (failure.TokenExpired? <==> seen.status == 401 && seen.tokenPastExpiry)
            && (failure.BadCredentials? <==> seen.status == 401 && !seen.tokenPastExpiry)
            && (failure.PrimaryExhausted? <==> Limits(seen) && seen.remainingIsZero)
            && (failure.PrimaryExhausted? ==> failure.resetAt == seen.resetAt)
            && (failure.SecondaryLimit? || failure.RateLimitResponseUnusable? <==> LimitsSecondarily(seen))
            && (failure.PermissionMissing? <==> denied && seen.acceptedPermissions.Some?)
            && (failure.PermissionMissing? ==> Some(failure.accepted) == seen.acceptedPermissions)
            && (failure.InstallationSuspended? <==> denied && seen.acceptedPermissions.None? && seen.saysSuspended)
            && (failure.ForbiddenUnrecognized? <==> denied && seen.acceptedPermissions.None? && !seen.saysSuspended)
            && (failure.NotFoundOrNotInstalled? <==> seen.status == 404)
            && (failure.ValidationError? <==> seen.status == 422)
            && (failure.ClientError? <==> 400 <= seen.status <= 499 && seen.status !in {401, 403, 404, 408, 422, 429})
            && (failure.ClientError? ==> failure.status == seen.status)
  {
  }

  /** Of a secondary limit: its wait is GitHub's where that is stated in seconds and within the hour, and unusable otherwise. */
  lemma ASecondaryLimitsWait(seen: Observation)
    requires LimitsSecondarily(seen)
    ensures var failure := ClassifyFailure(seen);
            && (seen.retryAfter.Missing? ==> failure == SecondaryLimit(None))
            && (seen.retryAfter.Malformed? ==> failure == RateLimitResponseUnusable(BadHeader))
            && (seen.retryAfter.Seconds? && seen.retryAfter.seconds <= 3600 ==>
                  failure == SecondaryLimit(Some(seen.retryAfter.seconds)))
            && (seen.retryAfter.Seconds? && seen.retryAfter.seconds > 3600 ==>
                  failure == RateLimitResponseUnusable(AboveAutomaticLimit))
  {
  }

  // ----- The hold a secondary limit puts on every request -----

  function HoldMs(retryAfterSeconds: Option<nat>): nat {
    if retryAfterSeconds.Some? && retryAfterSeconds.value * 1_000 > SECONDARY_LIMIT_HOLD_MS
    then retryAfterSeconds.value * 1_000 else SECONDARY_LIMIT_HOLD_MS
  }

  /**
   * What happens across all requests, however they overlap: a response is found to be a limit, some request's turn
   * begins, knowing what it last received, or the head of the creation lane asks whether it may begin. A reading of
   * `None` is a clock that threw.
   */
  datatype ClientEvent =
    | Limited(now: Option<int>, retryAfterSeconds: Option<nat>)
    | Turns(turn: Turn, previous: Option<Exchange>, asked: Option<int>)
    | LaneAsks(asked: Option<int>)

  /** What one who asks now is told of the hold. */
  function HoldReadingOf(until: Option<int>, asked: Option<int>): HoldReading {
    if until.None? then NotHeld
    else if asked.None? then HoldClockBroke
    else if asked.value < until.value then Held
    else NotHeld
  }

  function HoldAfter(until: Option<int>, event: ClientEvent): Option<int> {
    match event
    case Limited(now, retryAfter) =>
      if now.None? then until
      else
        var end := now.value + HoldMs(retryAfter);
        Some(if until.Some? && until.value > end then until.value else end)
    case _ => if until.Some? && event.asked.Some? && event.asked.value >= until.value then None else until
  }

  /** A hold ends at its instant and not before: one who asks then is let past, and forgets it for all. */
  lemma AHoldEndsOnTime(until: int, asked: int, turn: Turn, previous: Option<Exchange>)
    ensures HoldReadingOf(Some(until), Some(asked)) == if asked >= until then NotHeld else Held
    ensures HoldAfter(Some(until), Turns(turn, previous, Some(asked))) == if asked >= until then None else Some(until)
    ensures HoldAfter(Some(until), LaneAsks(Some(asked))) == if asked >= until then None else Some(until)
    ensures HoldReadingOf(None, Some(asked)) == NotHeld && HoldReadingOf(Some(until), None) == HoldClockBroke
  {
  }

  /** The turn gets past the hold, the token and the allowance, and so to its exchange. */
  predicate Exchanges(until: Option<int>, event: ClientEvent) {
    event.Turns? && StopBefore(event.turn.(hold := HoldReadingOf(until, event.asked)), event.previous).None?
  }

  /** The lane lets the creation in, and its slot and spacing follow. */
  predicate LetsIn(until: Option<int>, event: ClientEvent) {
    event.LaneAsks? && HoldReadingOf(until, event.asked).NotHeld?
  }

  /** The exchanges made and the creations let in. */
  function GotPast(until: Option<int>, events: seq<ClientEvent>): nat
    decreases |events|
  {
    if events == [] then 0
    else
      (if Exchanges(until, events[0]) || LetsIn(until, events[0]) then 1 else 0)
      + GotPast(HoldAfter(until, events[0]), events[1..])
  }

  predicate AskedBefore(events: seq<ClientEvent>, end: int) {
    forall event :: event in events && !event.Limited? && event.asked.Some? ==> event.asked.value < end
  }

  lemma {:induction false} NoExchangeUntilTheHoldEnds(until: Option<int>, end: int, events: seq<ClientEvent>)
    requires until.Some? && until.value >= end && AskedBefore(events, end)
    ensures GotPast(until, events) == 0
    decreases |events|
  {
    if events != [] {
      assert events[0] in events && AskedBefore(events[1..], end);
      NoExchangeUntilTheHoldEnds(HoldAfter(until, events[0]), end, events[1..]);
    }
  }

  /**
   * Once a secondary limit is met, no turn of any request makes an exchange and the lane lets no creation in until
   * GitHub's wait, and never less than a minute, is over; one whose clock throws gets no further either. A limit met
   * while the clock throws holds nothing.
   */
  lemma MeetingALimitHolds(before: Option<int>, met: int, retryAfterSeconds: Option<nat>, events: seq<ClientEvent>)
    requires AskedBefore(events, met + HoldMs(retryAfterSeconds))
    ensures GotPast(HoldAfter(before, Limited(Some(met), retryAfterSeconds)), events) == 0
    ensures HoldMs(retryAfterSeconds) >= SECONDARY_LIMIT_HOLD_MS
    ensures HoldAfter(before, Limited(None, retryAfterSeconds)) == before
  {
    NoExchangeUntilTheHoldEnds(HoldAfter(before, Limited(Some(met), retryAfterSeconds)), met + HoldMs(retryAfterSeconds), events);
  }

  /** In the loop a held turn, or one that cannot tell, sends nothing more and ends its request with what it has. */
  lemma AHeldTurnEndsTheRequest(env: nat -> Turn, retriable: bool, attempt: nat, previous: Option<Exchange>,
                                sent: seq<Exchange>, slept: seq<int>)
    requires !env(attempt).hold.NotHeld?
    ensures var t := Deliver(env, retriable, attempt, previous, sent, slept);
            && t.sent == sent && t.slept == slept
            && (previous.Some? ==> t.answer == Exchanged(previous.value))
  {
  }

  // ----- Whether a write is taken to have landed -----

  /** An answer whose failure says that nothing was sent: a broken seam says so too, whatever was sent before it. */
  predicate SaysNotSent(answer: Answer) {
    answer.Broken? || answer.AllowanceSpent? || answer == Exchanged(NotSent)
  }

  /** After such an answer a write drops the representations it names. */
  predicate Invalidates(answer: Answer) {
    !SaysNotSent(answer)
  }

  /** Some exchange left the process, so the write may have landed. */
  predicate ReachedGitHub(trace: Trace) {
    exists exchange :: exchange in trace.sent && exchange != NotSent
  }

  /** Asleep before exchange `k`: the pacing, and what the turns before it waited. */
  function WaitedBy(env: nat -> Turn, retriable: bool, paced: int, k: nat): int {
    if k == 0 then paced
    else
      var waited := WaitedBy(env, retriable, paced, k - 1);
      var move := MoveAfter(env(k - 1), retriable, k - 1, waited);
      if move.AgainAfter? then waited + move.ms else waited
  }

  /** The exchange left the process, and its response could be read and an expired token dropped. */
  predicate ResponseHolds(turn: Turn) {
    && turn.exchange != NotSent && !turn.exchange.BrokeMidRead?
    && !(turn.exchange.Failed? && turn.exchange.failure.TokenExpired? && turn.invalidateBreaks)
  }

  /** A failure that is not GitHub's secondary limit is followed by a look at the clock. */
  predicate LooksAtTheClock(turn: Turn) {
    turn.exchange.Failed? && !turn.exchange.failure.SecondaryLimit? && !turn.exchange.failure.RateLimitResponseUnusable?
  }

  /** The sleep after this turn, and the next turn as far as its token, break nothing. */
  predicate LeadsOn(turn: Turn, next: Turn)
    requires turn.exchange.Failed?
  {
    && (turn.exchange.failure.TokenExpired? || !turn.sleepBreaks)
    && !(next.hold.NotHeld? && next.token.BrokenSource?)
  }

  /** From exchange `k` on no seam breaks, whether the request ends there or goes on to end before another exchange. */
  predicate EndsWhole(env: nat -> Turn, retriable: bool, paced: int, k: nat) {
    && ResponseHolds(env(k))
    && (retriable && LooksAtTheClock(env(k)) ==> env(k).clock.Some?)
    && (WorthAnother(env(k), retriable, k, WaitedBy(env, retriable, paced, k)) ==> LeadsOn(env(k), env(k + 1)))
  }

  /** What the turns before this one came to: nothing, or an exchange that was worth another and led on as far as here. */
  predicate CameTo(env: nat -> Turn, retriable: bool, paced: int, attempt: nat, previous: Option<Exchange>) {
    && (attempt == 0 <==> previous.None?)
    && (attempt > 0 ==>
          && previous == Some(env(attempt - 1).exchange)
          && ResponseHolds(env(attempt - 1))
          && WorthAnother(env(attempt - 1), retriable, attempt - 1, WaitedBy(env, retriable, paced, attempt - 1))
          && (env(attempt - 1).exchange.failure.TokenExpired? || !env(attempt - 1).sleepBreaks))
  }

  /** A request that is stopped before it exchanges again ended with its last exchange, unless the token source broke. */
  lemma StoppedBeforeIsWhole(env: nat -> Turn, retriable: bool, paced: int, attempt: nat, previous: Option<Exchange>)
    requires attempt > 0 && CameTo(env, retriable, paced, attempt, previous)
    requires StopBefore(env(attempt), previous).Some?
    ensures Invalidates(StopBefore(env(attempt), previous).value) <==> EndsWhole(env, retriable, paced, attempt - 1)
  {
  }

  /** A request that stops at an exchange is invalidated by it exactly when that exchange ends whole. */
  lemma StoppedAtIsWhole(env: nat -> Turn, retriable: bool, paced: int, attempt: nat)
    requires WaitedBy(env, retriable, paced, attempt) >= 0
    requires MoveAfter(env(attempt), retriable, attempt, WaitedBy(env, retriable, paced, attempt)).Stop?
    ensures var move := MoveAfter(env(attempt), retriable, attempt, WaitedBy(env, retriable, paced, attempt));
            Invalidates(move.answer) <==> EndsWhole(env, retriable, paced, attempt)
  {
    SentAgainIff(env(attempt), retriable, attempt, WaitedBy(env, retriable, paced, attempt));
  }

  lemma {:induction false} DeliverEndsWhole(env: nat -> Turn, retriable: bool, paced: int, attempt: nat,
                                            previous: Option<Exchange>, sent: seq<Exchange>, slept: seq<int>)
    requires |sent| == attempt && CameTo(env, retriable, paced, attempt, previous)
    requires Sum(slept) == WaitedBy(env, retriable, paced, attempt) >= 0
    ensures var t := Deliver(env, retriable, attempt, previous, sent, slept);
            |t.sent| > 0 ==> (Invalidates(t.answer) <==> EndsWhole(env, retriable, paced, |t.sent| - 1))
    decreases if attempt < 3 then 3 - attempt else 0
  {
    var turn, waited := env(attempt), Sum(slept);
    if StopBefore(turn, previous).Some? {
      if attempt > 0 {
        StoppedBeforeIsWhole(env, retriable, paced, attempt, previous);
      }
    } else {
      var sent', move := sent + [turn.exchange], MoveAfter(turn, retriable, attempt, waited);
      SentAgainIff(turn, retriable, attempt, waited);
      if move.Stop? {
        StoppedAtIsWhole(env, retriable, paced, attempt);
      } else if move.Again? {
        DeliverEndsWhole(env, retriable, paced, attempt + 1, Some(turn.exchange), sent', slept);
      } else if !turn.sleepBreaks {
        SumGrows(slept, move.ms);
        WaitsAreBounded(turn.exchange.failure, attempt, turn.clock.value, waited);
        DeliverEndsWhole(env, retriable, paced, attempt + 1, Some(turn.exchange), sent', slept + [move.ms]);
      }
    }
  }

  /** What a request is asleep before its first exchange, which is nothing unless its pool is known to be exhausted. */
  function PacingMs(paced: Option<FailureClass>, clock: Option<int>): (ms: int)
    ensures 0 <= ms <= MAX_RETRY_WAIT_MS
  {
    if paced.None? || clock.None? then 0
    else
      WaitsAreBounded(paced.value, 0, clock.value, 0);
      var step := Next(paced.value, 0, clock.value, 0);
      if step.Wait? then step.ms else 0
  }

  /**
   * The test for dropping stale representations is meant to be whether the write may have reached GitHub. It says so
   * of a write that made an exchange exactly when, from its last exchange on, nothing of the environment broke.
   */
  lemma SentIsInvalidatedIff(env: nat -> Turn, retriable: bool, paced: Option<FailureClass>, clock: Option<int>,
                             sleepBreaks: bool)
    ensures var t := Request(env, retriable, paced, clock, sleepBreaks);
            |t.sent| > 0 ==>
              (Invalidates(t.answer) <==> EndsWhole(env, retriable, PacingMs(paced, clock), |t.sent| - 1))
  {
    if paced.None? {
      DeliverEndsWhole(env, retriable, 0, 0, None, [], []);
    } else if clock.Some? && Next(paced.value, 0, clock.value, 0).Wait? {
      var ms := PacingMs(paced, clock);
      SumGrows([], ms);
      assert [] + [ms] == [ms];
      DeliverEndsWhole(env, retriable, ms, 0, None, [], [ms]);
    }
  }

  lemma ReachedIsInvalidatedIff(env: nat -> Turn, retriable: bool, paced: Option<FailureClass>, clock: Option<int>,
                                sleepBreaks: bool)
    ensures var t := Request(env, retriable, paced, clock, sleepBreaks);
            ReachedGitHub(t) ==>
              (Invalidates(t.answer) <==> EndsWhole(env, retriable, PacingMs(paced, clock), |t.sent| - 1))
  {
    SentIsInvalidatedIff(env, retriable, paced, clock, sleepBreaks);
  }

  /** Nothing in this turn can break: its exchange leaves the process and is read, and its seams all answer. */
  predicate TurnHolds(turn: Turn) {
    && turn.exchange != NotSent && !turn.exchange.BrokeMidRead?
    && !turn.token.BrokenSource? && !turn.invalidateBreaks && turn.clock.Some? && !turn.sleepBreaks
  }

  lemma UnbrokenTurnsEndWhole(env: nat -> Turn, retriable: bool, paced: int, k: nat)
    requires k < 3 && TurnHolds(env(0)) && TurnHolds(env(1)) && TurnHolds(env(2))
    ensures EndsWhole(env, retriable, paced, k)
  {
    assert k == 0 || k == 1 || k == 2;
    assert TurnHolds(env(k));
    if k < 2 {
      assert TurnHolds(env(k + 1));
    }
  }

  /** What can be checked beforehand: over three turns in which nothing breaks, a write that is sent is invalidated. */
  lemma AnUnbrokenWriteIsInvalidated(env: nat -> Turn, retriable: bool, paced: Option<FailureClass>, clock: Option<int>,
                                     sleepBreaks: bool)
    requires TurnHolds(env(0)) && TurnHolds(env(1)) && TurnHolds(env(2))
    ensures var t := Request(env, retriable, paced, clock, sleepBreaks);
            ReachedGitHub(t) ==> Invalidates(t.answer)
  {
    var t := Request(env, retriable, paced, clock, sleepBreaks);
    assert |t.sent| <= 3 by { RequestIsBounded(env, retriable, paced, clock, sleepBreaks); }
    if |t.sent| > 0 {
      UnbrokenTurnsEndWhole(env, retriable, PacingMs(paced, clock), |t.sent| - 1);
      SentIsInvalidatedIff(env, retriable, paced, clock, sleepBreaks);
    }
  }

  /** A write that is never sent again is invalidated, once it has reached GitHub, exactly when its response held. */
  lemma AWriteSentOnceIsInvalidatedIff(env: nat -> Turn, paced: Option<FailureClass>, clock: Option<int>, sleepBreaks: bool)
    ensures var t := Request(env, false, paced, clock, sleepBreaks);
            ReachedGitHub(t) ==> (Invalidates(t.answer) <==> ResponseHolds(env(0)))
  {
    SentIsInvalidatedIff(env, false, paced, clock, sleepBreaks);
    RequestIsBounded(env, false, paced, clock, sleepBreaks);
  }

  /**
   * A write that may be sent again has reached GitHub and met a transient failure; then the clock throws, or the sleep,
   * or the token source on the next turn. Each time the answer is that nothing was sent, and nothing is dropped.
   */
  lemma ARetriedWriteKeepsTheStale(env: nat -> Turn, now: int)
    requires var t := env(0);
             t.hold.NotHeld? && t.token.Usable? && !t.allowanceRefuses && t.exchange == Failed(Transient)
    requires || env(0).clock.None?
             || (env(0).clock == Some(now) && env(0).sleepBreaks)
             || (env(0).clock == Some(now) && env(1).hold.NotHeld? && env(1).token.BrokenSource?)
    ensures var t := Request(env, true, None, None, false);
            ReachedGitHub(t) && !Invalidates(t.answer) && t.sent == [Failed(Transient)]
  {
    var t := Request(env, true, None, None, false);
    assert t.sent[0] == Failed(Transient);
    assert Failed(Transient) in t.sent;
  }

  /** A response object that throws while it is read has arrived: the write may have landed, and nothing is dropped. */
  lemma ABrokenResponseKeepsTheStale(env: nat -> Turn)
    requires env(0) == Turn(NotHeld, Usable, false, BrokeMidRead, false, Some(0), false)
    ensures var t := Request(env, false, None, None, false); ReachedGitHub(t) && !Invalidates(t.answer)
  {
    assert BrokeMidRead in Request(env, false, None, None, false).sent;
  }
}
