/**
 * The cached, self-refreshing installation token. Callers, mint completions and invalidations interleave freely;
 * instants are epoch milliseconds read from one clock.
 */
module TokenSource {
  import opened Wrappers
  import ClientRetry

  type FailureClass = ClientRetry.FailureClass

  const REFRESH_SKEW_MS := 300_000
  const MINT_RETRY_COOLDOWN_MS := 60_000
  const MINT_FLOOR_MS := 60_000

  datatype Token = Token(value: string, expiresAt: int)

  datatype Held = Holding(token: Token, mintedAt: int)

  datatype Pause = Pause(notBefore: int, failure: FailureClass)

  datatype Minted = Fresh(token: Token) | Failed(failure: FailureClass)

  predicate IsPastExpiry(token: Token, now: int) {
    now >= token.expiresAt
  }

  predicate IsDueForRefresh(token: Token, now: int) {
    now + REFRESH_SKEW_MS >= token.expiresAt
  }

  // ----- One source -----

  /** `pending` is a mint whose promise has not been let go of yet. */
  datatype Source = Source(cached: Option<Held>, pending: bool, retry: Option<Pause>)

  datatype Answer = Serves(token: Token) | Paused(failure: FailureClass) | StartsMint | JoinsMint

  predicate RetryPaused(source: Source, now: int) {
    source.retry.Some? && now < source.retry.value.notBefore
  }

  /**
   * A token is held that was minted within the floor, or else one that has not expired and is either not yet due for a
   * refresh or kept from one by a pause.
   */
  predicate MayServe(source: Source, now: int) {
    && source.cached.Some?
    && var held := source.cached.value;
      || now - held.mintedAt < MINT_FLOOR_MS
      || (!IsPastExpiry(held.token, now) && (!IsDueForRefresh(held.token, now) || RetryPaused(source, now)))
  }

  function AnswerOf(source: Source, now: int): Answer {
    if MayServe(source, now) then Serves(source.cached.value.token)
    else if RetryPaused(source, now) then Paused(source.retry.value.failure)
    else if source.pending then JoinsMint
    else StartsMint
  }

  function AfterCall(source: Source, now: int): Source {
    source.(pending := source.pending || AnswerOf(source, now).StartsMint?)
  }

  predicate HoldsUsable(source: Source, now: int) {
    source.cached.Some? && !IsPastExpiry(source.cached.value.token, now)
  }

  /** When the next mint may start after one failed at `now`. */
  function NotBefore(source: Source, failure: FailureClass, now: int): int {
    var cooled := now + MINT_RETRY_COOLDOWN_MS;
    if !HoldsUsable(source, now) then cooled
    else
      var expiry := source.cached.value.token.expiresAt;
      if failure.SecondaryLimit? || expiry < cooled then expiry else cooled
  }

  function AfterMint(source: Source, minted: Minted, mintedAt: int, now: int): Source {
    match minted
    case Fresh(token) => source.(cached := Some(Holding(token, mintedAt)), retry := None)
    case Failed(failure) => source.(retry := Some(Pause(NotBefore(source, failure, now), failure)))
  }

  /** What every caller sharing the mint is answered: a failed early refresh falls back on the held token. */
  function Shared(source: Source, minted: Minted, now: int): Minted {
    if minted.Failed? && HoldsUsable(source, now) then Fresh(source.cached.value.token) else minted
  }

  predicate Clears(source: Source, rejected: string) {
    source.cached.Some? && source.cached.value.token.value == rejected
  }

  function AfterInvalidate(source: Source, rejected: string): Source {
    if Clears(source, rejected) then source.(cached := None, retry := None) else source
  }

  class RefreshingSource {
    var cached: Option<Held>
    var pending: bool
    var retry: Option<Pause>

    function View(): Source reads this {
      Source(cached, pending, retry)
    }

    constructor ()
      ensures View() == Source(None, false, None)
    {
      cached, pending, retry := None, false, None;
    }

    method Current(now: int) returns (answer: Answer)
      modifies this
      ensures answer == AnswerOf(old(View()), now)
      ensures View() == AfterCall(old(View()), now)
    {
      if MayServe(View(), now) {
        return Serves(cached.value.token);
      }
      if RetryPaused(View(), now) {
        return Paused(retry.value.failure);
      }
      if pending {
        return JoinsMint;
      }
      pending := true;
      return StartsMint;
    }

    method Settled(minted: Minted, mintedAt: int, now: int) returns (shared: Minted)
      modifies this
      ensures View() == AfterMint(old(View()), minted, mintedAt, now)
      ensures shared == Shared(old(View()), minted, now)
    {
      if minted.Fresh? {
        cached, retry := Some(Holding(minted.token, mintedAt)), None;
        return minted;
      }
      if cached.None? || IsPastExpiry(cached.value.token, now) {
        retry := Some(Pause(now + MINT_RETRY_COOLDOWN_MS, minted.failure));
        return minted;
      }
      var expiry := cached.value.token.expiresAt;
      var notBefore := expiry;
      if !minted.failure.SecondaryLimit? && now + MINT_RETRY_COOLDOWN_MS < expiry {
        notBefore := now + MINT_RETRY_COOLDOWN_MS;
      }
      retry := Some(Pause(notBefore, minted.failure));
      return Fresh(cached.value.token);
    }

    method LetGo()
      modifies this
      ensures View() == old(View()).(pending := false)
    {
      pending := false;
    }

    method Invalidate(rejected: string)
      modifies this
      ensures View() == AfterInvalidate(old(View()), rejected)
    {
      if cached.Some? && cached.value.token.value == rejected {
        cached, retry := None, None;
      }
    }
  }

  // ----- Runs -----

  /** `LetsGo` is the step that forgets a settled mint's promise; calls may fall between it and the settling. */
  datatype Event =
    | Call(now: int)
    | MintSettles(minted: Minted, mintedAt: int, now: int)
    | LetsGo
    | Rejects(value: string)

  /** A source among the mints the world is running for it: those in flight and those settled but not let go. */
  datatype World = World(source: Source, inFlight: nat, settled: nat)

  const START := World(Source(None, false, None), 0, 0)

  /** Any mint in flight may settle, and any settled one be let go, at any time. */
  predicate CanHappen(world: World, event: Event) {
    && (event.MintSettles? ==> world.inFlight > 0)
    && (event.LetsGo? ==> world.settled > 0)
  }

  function Next(world: World, event: Event): World
    requires CanHappen(world, event)
  {
    match event
    case Call(now) =>
      World(AfterCall(world.source, now),
            if AnswerOf(world.source, now).StartsMint? then world.inFlight + 1 else world.inFlight,
            world.settled)
    case MintSettles(minted, mintedAt, now) =>
      World(AfterMint(world.source, minted, mintedAt, now), world.inFlight - 1, world.settled + 1)
    case LetsGo => World(world.source.(pending := false), world.inFlight, world.settled - 1)
    case Rejects(value) => world.(source := AfterInvalidate(world.source, value))
  }

  predicate Possible(world: World, events: seq<Event>)
    decreases |events|
  {
    events == [] || (CanHappen(world, events[0]) && Possible(Next(world, events[0]), events[1..]))
  }

  function Run(world: World, events: seq<Event>): World
    requires Possible(world, events)
    decreases |events|
  {
    if events == [] then world else Run(Next(world, events[0]), events[1..])
  }

  /** One promise for one mint, and none without. */
  predicate OneFlight(world: World) {
    world.inFlight + world.settled == if world.source.pending then 1 else 0
  }

  /** However callers, completions and rejections interleave, at most one mint is in flight. */
  lemma {:induction false} AtMostOneMintInFlight(world: World, events: seq<Event>)
    requires OneFlight(world) && Possible(world, events)
    ensures OneFlight(Run(world, events)) && Run(world, events).inFlight <= 1
    decreases |events|
  {
    if events != [] {
      AtMostOneMintInFlight(Next(world, events[0]), events[1..]);
    }
  }

  // ----- What may be served -----

  /** The last token minted in a run, unless a rejection named it since. */
  function LatestMint(before: Option<Held>, events: seq<Event>): Option<Held>
    decreases |events|
  {
    if events == [] then before
    else
      var last, held := events[|events| - 1], LatestMint(before, events[..|events| - 1]);
      match last
      case MintSettles(Fresh(token), mintedAt, _) => Some(Holding(token, mintedAt))
      case Rejects(value) => if held.Some? && held.value.token.value == value then None else held
      case _ => held
  }

  lemma {:induction false} RunSplits(world: World, events: seq<Event>)
    requires events != [] && Possible(world, events)
    ensures var shorter, last := events[..|events| - 1], events[|events| - 1];
            && Possible(world, shorter)
            && CanHappen(Run(world, shorter), last)
            && Run(world, events) == Next(Run(world, shorter), last)
    decreases |events|
  {
    var shorter := events[..|events| - 1];
    if |events| > 1 {
      RunSplits(Next(world, events[0]), events[1..]);
      assert shorter[0] == events[0] && shorter[1..] == events[1..][..|events| - 2];
    } else {
      assert shorter == [] && events[1..] == [];
    }
  }

  lemma {:induction false} CachedIsTheLatestMint(world: World, events: seq<Event>)
    requires Possible(world, events)
    ensures Run(world, events).source.cached == LatestMint(world.source.cached, events)
    decreases |events|
  {
    if events != [] {
      RunSplits(world, events);
      CachedIsTheLatestMint(world, events[..|events| - 1]);
    }
  }

  /**
   * After any run a call is served only the latest token minted and not rejected since, and only before that token's
   * expiry or within a minute of its mint.
   */
  lemma OnlyAGoodTokenIsServed(events: seq<Event>, now: int)
    requires Possible(START, events)
    requires AnswerOf(Run(START, events).source, now).Serves?
    ensures var latest := LatestMint(None, events);
            && latest.Some?
            && AnswerOf(Run(START, events).source, now) == Serves(latest.value.token)
            && (now < latest.value.token.expiresAt || now < latest.value.mintedAt + MINT_FLOOR_MS)
  {
    CachedIsTheLatestMint(START, events);
  }

  /**
   * With no pause a token past its first minute is served until five minutes before its expiry and not a moment longer;
   * under one, until the expiry itself.
   */
  lemma AnOldTokenIsServedUntil(source: Source, now: int)
    requires source.cached.Some? && now >= source.cached.value.mintedAt + 60_000
    ensures var token := source.cached.value.token;
            && (!RetryPaused(source, now) ==> (AnswerOf(source, now) == Serves(token) <==> now < token.expiresAt - 300_000))
            && (RetryPaused(source, now) ==> (AnswerOf(source, now) == Serves(token) <==> now < token.expiresAt))
  {
  }

  /** A shared mint answers a token only fresh from GitHub, or the latest one held while it has not expired. */
  lemma OnlyAGoodTokenIsShared(events: seq<Event>, minted: Minted, now: int)
    requires Possible(START, events)
    ensures var shared := Shared(Run(START, events).source, minted, now);
            shared.Fresh? && shared != minted ==>
              var latest := LatestMint(None, events);
              latest.Some? && shared.token == latest.value.token && now < latest.value.token.expiresAt
  {
    CachedIsTheLatestMint(START, events);
  }

  // ----- Joining a mint that has settled -----

  /** What may fall between a mint's settling and its promise being let go. */
  predicate CallsAndRejections(events: seq<Event>) {
    forall event :: event in events ==> event.Call? || event.Rejects?
  }

  /** Some rejection in the run names the token then held, and so drops it and clears the pause. */
  predicate SomeRejectionClears(world: World, events: seq<Event>)
    requires Possible(world, events)
    decreases |events|
  {
    events != [] && (
      || (events[0].Rejects? && Clears(world.source, events[0].value))
      || SomeRejectionClears(Next(world, events[0]), events[1..]))
  }

  lemma {:induction false} WhatStandsBetween(world: World, events: seq<Event>)
    requires Possible(world, events) && CallsAndRejections(events) && world.source.pending
    ensures Run(world, events).source
              == if SomeRejectionClears(world, events) then Source(None, true, None) else world.source
    decreases |events|
  {
    if events != [] {
      assert events[0] in events && CallsAndRejections(events[1..]);
      WhatStandsBetween(Next(world, events[0]), events[1..]);
      if events[0].Rejects? && Clears(world.source, events[0].value) {
        NothingLeftToClear(Next(world, events[0]), events[1..]);
      }
    }
  }

  lemma {:induction false} NothingLeftToClear(world: World, events: seq<Event>)
    requires Possible(world, events) && CallsAndRejections(events)
    requires world.source == Source(None, true, None)
    ensures !SomeRejectionClears(world, events)
    decreases |events|
  {
    if events != [] {
      assert events[0] in events && CallsAndRejections(events[1..]);
      NothingLeftToClear(Next(world, events[0]), events[1..]);
    }
  }

  /** Any token held is by now neither new nor far from its expiry. */
  predicate HeldIsAging(source: Source, now: int) {
    source.cached.Some? ==>
      now >= source.cached.value.mintedAt + MINT_FLOOR_MS && IsDueForRefresh(source.cached.value.token, now)
  }

  /**
   * Exactly when a caller joins a mint that has settled and is not let go, and so is answered as of the settling: the
   * token held was rejected since, or it is due for a refresh and the pause, if the mint failed, is over.
   */
  lemma ALateJoinIff(world: World, settling: Event, between: seq<Event>, now: int)
    requires OneFlight(world) && CanHappen(world, settling) && settling.MintSettles?
    requires Possible(Next(world, settling), between) && CallsAndRejections(between)
    ensures var settled := Next(world, settling);
            AnswerOf(Run(settled, between).source, now).JoinsMint? <==>
              || SomeRejectionClears(settled, between)
              || (&& HeldIsAging(settled.source, now)
                  && (settling.minted.Failed? ==> now >= NotBefore(world.source, settling.minted.failure, settling.now)))
  {
    WhatStandsBetween(Next(world, settling), between);
  }

  /** And what it is answered: a token that was rejected since or is by then due for a refresh, or the failure. */
  lemma WhatALateJoinerIsAnswered(world: World, settling: Event, between: seq<Event>, now: int)
    requires OneFlight(world) && CanHappen(world, settling) && settling.MintSettles?
    requires Possible(Next(world, settling), between) && CallsAndRejections(between)
    requires AnswerOf(Run(Next(world, settling), between).source, now).JoinsMint?
    ensures var shared := Shared(world.source, settling.minted, settling.now);
            shared.Fresh? ==>
              || SomeRejectionClears(Next(world, settling), between)
              || IsDueForRefresh(shared.token, now)
    ensures var shared := Shared(world.source, settling.minted, settling.now);
            shared.Failed? && !SomeRejectionClears(Next(world, settling), between) ==>
              now >= settling.now + MINT_RETRY_COOLDOWN_MS
  {
    ALateJoinIff(world, settling, between, now);
  }

  // ----- The pause after a failed mint -----

  predicate CallsBefore(events: seq<Event>, instant: int) {
    forall event :: event in events && event.Call? ==> event.now < instant
  }

  function MintsStarted(world: World, events: seq<Event>): nat
    requires Possible(world, events)
    decreases |events|
  {
    if events == [] then 0
    else
      (if events[0].Call? && AnswerOf(world.source, events[0].now).StartsMint? then 1 else 0)
      + MintsStarted(Next(world, events[0]), events[1..])
  }

  /** A run that only calls before the pause's end, and in which no rejection clears it. */
  predicate Undisturbed(world: World, events: seq<Event>) {
    && Possible(world, events)
    && world.source.retry.Some? && CallsBefore(events, world.source.retry.value.notBefore)
    && !SomeRejectionClears(world, events)
  }

  /** Once paused with nothing in flight, no mint starts before the pause ends unless a rejection clears it. */
  lemma {:induction false} NoMintDuringAPause(world: World, events: seq<Event>)
    requires Undisturbed(world, events) && world.inFlight == 0
    ensures MintsStarted(world, events) == 0
    ensures Run(world, events).source.retry == world.source.retry
    decreases |events|
  {
    if events != [] {
      assert CallsBefore(events[1..], world.source.retry.value.notBefore);
      assert events[0] in events;
      NoMintDuringAPause(Next(world, events[0]), events[1..]);
    }
  }

  /**
   * After a failed mint, in any world a run can reach, no mint starts until its pause ends or a rejection clears it.
   * (`AtMostOneMintInFlight` says that every such world is one-flight.)
   */
  lemma AFailedMintPauses(world: World, failing: Event, after: seq<Event>)
    requires OneFlight(world) && CanHappen(world, failing)
    requires failing.MintSettles? && failing.minted.Failed?
    requires Undisturbed(Next(world, failing), after)
    ensures MintsStarted(Next(world, failing), after) == 0
  {
    NoMintDuringAPause(Next(world, failing), after);
  }

  /** A pause ends by the held token's expiry, or within a minute of the latest settling. */
  predicate PauseIsBounded(world: World, latest: int) {
    world.source.retry.Some? ==>
      || world.source.retry.value.notBefore <= latest + MINT_RETRY_COOLDOWN_MS
      || (world.source.cached.Some? && world.source.retry.value.notBefore <= world.source.cached.value.token.expiresAt)
  }

  /** No event reads a clock past `latest`. */
  predicate ReadsUpTo(events: seq<Event>, latest: int) {
    forall event :: event in events && event.MintSettles? ==> event.now <= latest
  }

  lemma {:induction false} PausesAreBounded(events: seq<Event>, latest: int)
    requires Possible(START, events) && ReadsUpTo(events, latest)
    ensures PauseIsBounded(Run(START, events), latest)
    decreases |events|
  {
    if events != [] {
      var shorter := events[..|events| - 1];
      RunSplits(START, events);
      assert forall event :: event in shorter ==> event in events;
      PausesAreBounded(shorter, latest);
      assert events[|events| - 1] in events;
    }
  }

  /**
   * After any run up to `latest`, once the held token (if any) has expired and a minute has passed, no pause
   * suppresses a mint: a call outside the mint floor starts or joins one.
   */
  lemma AnExpiredTokenSuppressesNothing(events: seq<Event>, latest: int, now: int)
    requires Possible(START, events) && ReadsUpTo(events, latest)
    requires now >= latest + MINT_RETRY_COOLDOWN_MS
    requires var held := LatestMint(None, events);
             held.Some? ==> now >= held.value.token.expiresAt && now >= held.value.mintedAt + MINT_FLOOR_MS
    ensures AnswerOf(Run(START, events).source, now) in {StartsMint, JoinsMint}
  {
    CachedIsTheLatestMint(START, events);
    PausesAreBounded(events, latest);
  }

  /** A pause set while a usable token is held never outlasts that token, and a secondary limit's lasts exactly as long. */
  lemma PauseEndsByExpiry(source: Source, failure: FailureClass, mintedAt: int, now: int)
    requires HoldsUsable(source, now)
    ensures var after := AfterMint(source, Failed(failure), mintedAt, now);
            var expiry := source.cached.value.token.expiresAt;
            && after.retry.Some?
            && now < after.retry.value.notBefore <= expiry
            && (failure.SecondaryLimit? || expiry <= now + MINT_RETRY_COOLDOWN_MS ==> after.retry.value.notBefore == expiry)
            && (!failure.SecondaryLimit? && expiry > now + MINT_RETRY_COOLDOWN_MS ==>
                  after.retry.value.notBefore == now + MINT_RETRY_COOLDOWN_MS)
            && (forall later :: now <= later < after.retry.value.notBefore ==>
                  AnswerOf(after, later) == Serves(source.cached.value.token))
  {
  }

  /** With no usable token to fall back on, a failed mint is answered again for exactly a minute, and then tried again. */
  lemma APauseLastsAMinute(source: Source, failure: FailureClass, mintedAt: int, now: int, later: int)
    requires !HoldsUsable(source, now) && now <= later
    ensures var after := AfterMint(source, Failed(failure), mintedAt, now);
            !MayServe(after, later) ==>
              (AnswerOf(after, later) == Paused(failure) <==> later < now + MINT_RETRY_COOLDOWN_MS)
  {
  }
}
