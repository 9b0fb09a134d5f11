# Automation platform: a verified model

A Dafny model of the parts of the automation platform that carry state, clocks or authority, with proofs of what they
keep. The theorems are over all inputs, all runs or all reachable states; a few lemmas beside them show one input at
which a property fails, or one run that meets a bound.

- **The effect ledger** (`Facts`, `EffectFold`, `EffectLedger`). Facts are appended to a sequence of rows and read two
  ways: by a loop that folds one effect's facts into a state, and by queries over all rows. The two readings agree,
  and retention changes neither.
- **The delivery inbox and the schedules** (`Inbox`, `Schedules`). Queues with claim tokens, stale takeover, counted
  retries, dead letters and redrive, as classes over maps of rows. Fencing, no loss and bounded failures hold over runs.
- **The GitHub client** (`ClientRetry`, `RepresentationCache`, `Allowance`, `CreationLane`, `TokenSource`). The retry
  loop, the representation cache, the rate-limit ledger, the content-creation lane and the single-flight token source.
- **The safety gate** (`Modes`, `Workflow`, `Intents`, `Gate`, `WarnThenAct`, `TwoReleases`, `Inactivity`). What a
  decision may approve whatever the capabilities return, and the warn-then-act protocol over whole runs.
- **Configuration** (`SettingsCascade`, `Inactivity`, `Mappings`, `Commands`). An interpreter for settings with clocks
  that inherit through scopes, the label mapping and its inversion, and the commands a comment can issue.
- **Text** (`JsonText`, `Marker`, `RejectionFolding`, `InertText`). A JSON printer and reader, the managed comment's
  marker, the folding of a rejected configuration's errors, and untrusted text made inert.

Classes and loops stand where the source updates state. Each method is proved against a function of its old state, and
the laws are proved of that function. `Wrappers`, `Text`, `Hours` and `Doubles` hold what the modules share.

## Where the code and its comments differ

The model follows the code.

- `packages/runtime/src/adapter/client/allowance.ts:39-48`: the comment says that a 304 costs nothing on either pool.
  A GraphQL 304 is charged, and so is a mutating one (`Allowance.CostsNothingIff`, `Allowance.UnchangedGraphqlIsCharged`).
- `packages/runtime/src/store/ledger.ts:675-698`: retention is said to delete settled effects. It reads no plan, so a
  half-landed effect outside the window goes too, and would start again. What it takes is settled exactly when the last
  call fact settles it (`EffectLedger.WhatRetentionTakes`, `EffectLedger.RetentionForgetsAHalfLandedPlan`).
- `packages/runtime/src/adapter/client/http.ts:746-751`: the test for dropping stale representations is said to be
  whether a write may have reached GitHub. A seam that breaks after the send answers that nothing was sent, so such a
  write drops nothing. It drops what it should exactly when nothing of its environment breaks from its last exchange on
  (`ClientRetry.ReachedIsInvalidatedIff`, `ClientRetry.AWriteSentOnceIsInvalidatedIff`,
  `ClientRetry.ABrokenResponseKeepsTheStale`, `ClientRetry.ARetriedWriteKeepsTheStale`).
- `packages/core/src/intents/intent.ts:60-80` with `packages/capabilities/src/inactivity/issues.ts:68-97`: the key holds
  the occasion and not the payload. Two people assigned to one issue at the same instant share a release key, so while
  the first one's warning stands the second's release is refused (`WarnThenAct.AuthorityIffTheSameChange`,
  `TwoReleases.OneOfTwoIsReleased`).
- `packages/runtime/src/shell/apply/call.ts:161-169`: a landed warning's deadline is cut to a whole millisecond, and the
  gate compares it with the same sum uncut. The screen admits any finite grace of an hour or more; one whose end, as
  doubles round it, falls inside a millisecond is warned of and never acted on (`WarnThenAct.APromiseIsFullIffWhole`,
  `WarnThenAct.GraceEndsWholeIff`, `WarnThenAct.AGraceThatNeverEnds`). Accepted settings only yield whole hours.
- `packages/core/src/config/sections.ts:395-409`: a command's spelling need only begin with a slash. One that holds a
  space is accepted and can never be issued (`Commands.IssuableIffOneWord`, `Commands.ASpacedCommandIsAcceptedAndDead`).
- `packages/capabilities/src/configReport/render.ts:277-283`: at most one cause is said to enclose an error. Two errors
  at one path are two causes; at most one encloses an error exactly when nothing else was reported at its path
  (`RejectionFolding.AtMostOneCauseIff`, `RejectionFolding.TwoCausesMayEncloseOne`).
- `packages/runtime/src/adapter/client/http.ts:548-561`: the hour is anchored at its own first creation, so the ceiling
  is not one of every hour. Every stretch shorter than an hour keeps to it exactly when it is at most one; it can hold up
  to twice the ceiling less one, and for every ceiling up to 900 some run of spaced creations does
  (`CreationLane.EveryStretchKeepsIff`, `CreationLane.AnyHourHoldsLessThanTwice`, `CreationLane.LessThanTwiceIsReached`).

## Model

| member | source | states |
|---|---|---|
| `EffectFold.GapBefore` | packages/runtime/src/store/fold.ts:15-20 | the first call below this one that has not landed, and none exactly when all of them have |
| `EffectFold.Fold` | packages/runtime/src/store/fold.ts:26-82 | the loop over the facts answers what the state machine over them answers |
| `EffectFold.InconsistencyIsAbsorbing` | packages/runtime/src/store/fold.ts:26-82 | once a history is inconsistent, no further fact changes the answer |
| `EffectFold.SettledAcceptsNoCall` | packages/runtime/src/store/fold.ts:36-40 | after an effect has settled every call fact is a fault, and an effect-level fact changes nothing |
| `EffectFold.FoldAcceptsExactlyTheConsistent` | packages/runtime/src/store/fold.ts:26-82 | the loop rejects a history if and only if its call facts break the applier's rules, stated without the loop |
| `EffectFold.FoldReadsTheLastCall` | packages/runtime/src/store/fold.ts:69-82 | on a consistent history the answer is determined by the last call fact and two counts |
| `EffectFold.LandedCallsAreAPrefix` | packages/runtime/src/store/fold.ts:15-24 | landed calls are exactly 1..k; a resumed call is k+1 and inside the plan, an open one at most k+1, and attempts are never negative |
| `EffectFold.EffectLevelFactsAreInvisible` | packages/runtime/src/store/fold.ts:11-13 | facts about the effect rather than a call never change the answer, wherever they fall |
| `EffectLedger.Ledger.Record` | packages/runtime/src/store/ledger.ts:162-197 | leaves the rows as they are or adds the one; as they are exactly on a blank effect id or a second warning for the effect |
| `EffectLedger.Ledger.OpenUntil` | packages/runtime/src/store/ledger.ts:212-243 | exactly the sends open no later than an instant, each once with its payload and attempts, none after a younger one |
| `EffectLedger.Ledger.Prune` | packages/runtime/src/store/ledger.ts:679-698 | a row stays unless nothing of its effect is younger than the edge, open at a send or promised for later; every effect keeps all of its rows or none, in order |
| `EffectLedger.Ledger.StandingWarnings` | packages/runtime/src/store/ledger.ts:306-319 | counts the warnings whose promise lies ahead and whose effect has landed no call, and names the earliest promise among them, none exactly when there are none |
| `EffectLedger.PrunableIffFinished` | packages/runtime/src/store/ledger.ts:679-698 | the three conditions of the statement are exactly that every row of the effect is old, closed and promises nothing later |
| `EffectLedger.TheFirstWarningStands` | packages/runtime/src/store/ledger.ts:291-304 | what stands for an effect is the snapshot of its first warned row |
| `EffectLedger.WorklistIsOldestFirst` | packages/runtime/src/store/ledger.ts:212-243 | the worklist is sorted by instant and keeps ledger order within one, losing and adding nothing |
| `EffectLedger.FoldAndWorklistAgree` | packages/runtime/src/store/ledger.ts:26-48 | the loop and the query agree: for each effect with a consistent history, one row with the same call, payload and attempts when the fold says open, and none otherwise |
| `EffectLedger.FirstWarningBinds` | packages/runtime/src/store/ledger.ts:158-174 | recording never moves a standing warning and never leaves an effect with two |
| `EffectLedger.WorkIsNeverGone` | packages/runtime/src/store/ledger.ts:689-692 | retention never takes an effect with an open send |
| `EffectLedger.RetentionKeepsSurvivors` | packages/runtime/src/store/ledger.ts:679-698 | whole effects only: a taken one has no row left, a kept one has every row, its fold for every plan and its warning |
| `EffectLedger.RetentionKeepsWork` | packages/runtime/src/store/ledger.ts:246-257 | the worklist, its payloads and its attempt counts are unchanged by retention |
| `EffectLedger.RetentionKeepsStandingWarnings` | packages/runtime/src/store/ledger.ts:306-319 | the warnings standing at any instant from the window's edge on are unchanged by retention |
| `EffectLedger.RetentionKeepsTheStateIff` | packages/runtime/src/store/ledger.ts:671-698 | an effect folds as before retention if and only if it survives or had made no call |
| `EffectLedger.WhatRetentionTakes` | packages/runtime/src/store/ledger.ts:671-698 | of the effects taken, with possible histories, none is open; one is settled exactly when its last call fact settles it, never started exactly when it made no call, and half-landed otherwise |
| `EffectLedger.RetentionForgetsAHalfLandedPlan` | packages/runtime/src/store/ledger.ts:675-698 | a half-landed plan outside the window that is taken and would start again |
| `Inbox.Queue.AcceptDelivery` | packages/runtime/src/store/inbox.ts:146-218 | a new delivery is stored with its digest, a repeat is recognised, a different payload under one id is refused, and the row CHECK is kept |
| `Inbox.Queue.ClaimNextDelivery` | packages/runtime/src/store/inbox.ts:220-268 | claims the oldest eligible delivery, a stale claim included, exactly when one is eligible, and hands back its own bytes |
| `Inbox.Queue.CompleteDelivery` | packages/runtime/src/store/inbox.ts:270-329 | completes under the holding token alone, and never meets the "ownership changed" case |
| `Inbox.Queue.ReleaseDeliveryAfterFailure` | packages/runtime/src/store/inbox.ts:351-399 | counts one failure and decides between a retry and a dead letter from the incremented count |
| `Inbox.Queue.RedriveDelivery` | packages/runtime/src/store/inbox.ts:423-435 | puts a dead letter, and nothing else, back to be claimed with its failures forgotten |
| `Inbox.Queue.RequeueStuckDeliveries` | packages/runtime/src/store/inbox.ts:441-462 | frees exactly the claims at or before an instant and names each once, in the order of the GUIDs |
| `Inbox.Queue.PruneCompletedDeliveries` | packages/runtime/src/store/inbox.ts:507-517 | deletes exactly the completed rows up to an instant |
| `Inbox.Queue.Counts` | packages/runtime/src/store/inbox.ts:465-485 | every delivery is counted once, in exactly one state |
| `Inbox.Earliest` | packages/runtime/src/store/inbox.ts:465-485 | the earliest of the instants of completion, and none exactly when there are none |
| `Inbox.NextIsUnique` | packages/runtime/src/store/inbox.ts:230-250 | two deliveries cannot both be the oldest eligible one |
| `Inbox.WhatMayBeTaken` | packages/runtime/src/store/inbox.ts:230-250 | what waits out no backoff, or was claimed no later than the stale instant, and nothing done or dead |
| `Inbox.AClaimTakesTheOldest` | packages/runtime/src/store/inbox.ts:230-262 | a claim takes one delivery exactly when one may be taken, the oldest, under the drawn token, and disturbs no other |
| `Inbox.WhatAcceptingTells` | packages/runtime/src/store/inbox.ts:142-214 | a new GUID is stored whole and can be claimed at once; a known one changes nothing and says which of event and bytes differ |
| `Inbox.RunsKeepCheck` | packages/runtime/src/store/schema.ts:36-55 | every row keeps the schema's CHECK through any run of operations |
| `Inbox.OwnershipNeverChanges` | packages/runtime/src/store/inbox.ts:114-128 | under the CHECK a completion succeeds exactly when the token holds the row and the identity matches; the "ownership changed" throw is unreachable |
| `Inbox.LostTokenStaysLost` | packages/runtime/src/store/inbox.ts:220-268 | a token that no longer holds a row never holds it again |
| `Inbox.SupersededTokenIsDead` | packages/runtime/src/store/inbox.ts:270-348 | fencing: nothing asked under a superseded token changes any row, however long the run |
| `Inbox.AcceptedPayloadIsKeptUntilDone` | packages/runtime/src/store/inbox.ts:146-462 | until a completion of it succeeds a delivery keeps its very bytes, digest, event and arrival |
| `Inbox.AtMostOneCompletion` | packages/runtime/src/store/inbox.ts:270-329 | between acceptance and pruning at most one completion succeeds |
| `Inbox.FailuresAreBounded` | packages/runtime/src/store/inbox.ts:351-399 | under a fixed cap every claimable delivery has failed fewer times than the cap and every dead letter exactly that often |
| `Inbox.AFailureBacksOff` | packages/runtime/src/store/inbox.ts:351-399 | a counted failure is dead-lettered exactly at the cap, and otherwise can be taken exactly from its backoff on |
| `Inbox.ARetryIsNotEarly` | packages/runtime/src/store/inbox.ts:351-399 | over every run, until a claim reads a clock at its backoff the delivery is chosen by none |
| `Inbox.DigestsAnswerForTheirBytes` | packages/runtime/src/store/inbox.ts:55-57 | every payload held is the one its digest column was computed from |
| `Schedules.OneWinner` | packages/runtime/src/store/ledger.ts:501-526 | from taking a lease until returning it or going stale it stays its taker's: no other take wins and no other worker's return disturbs it |
| `Schedules.ATakeWinsIff` | packages/runtime/src/store/ledger.ts:501-526 | a take wins exactly a free lease or a stale one, and holds it from its own clock on |
| `Schedules.Schedule.Claim` | packages/runtime/src/store/ledger.ts:543-577 | claims every due row at once and hands each back once, the longest waiting first, with its token, due date, effect and cursor |
| `Schedules.Schedule.ScheduleAgain` | packages/runtime/src/store/ledger.ts:598-618 | completes a firing and arms the next in one step, for the holding token alone |
| `Schedules.NothingIsLost` | packages/runtime/src/store/ledger.ts:530-640 | a declared schedule is never lost, keeps its effect, and once completed never changes |
| `Schedules.ARunningScheduleIsNotRefired` | packages/runtime/src/store/ledger.ts:543-640 | a running row is untouched, and so claimed by nobody else, until its token is presented or it is judged stuck |
| `Schedules.ARearmedScheduleWaits` | packages/runtime/src/store/ledger.ts:598-618 | a rearmed schedule is due exactly from the date given, whatever runs meanwhile, with the cursor given and its start kept where none is |
| `Schedules.ALostTokenStaysLost` | packages/runtime/src/store/ledger.ts:580-640 | a token that has lost its row never holds it again |
| `Schedules.OneClaimEndsOnce` | packages/runtime/src/store/ledger.ts:580-618 | of all the presentations of one claim's token at most one is answered yes |
| `ClientRetry.DeliverRequest` | packages/runtime/src/adapter/client/http.ts:626-739 | the request loop, pacing included, is the step function over the environment's turns |
| `ClientRetry.TheAnswerIsTheLastExchange` | packages/runtime/src/adapter/client/http.ts:655-751 | a request is answered by its last exchange unless it was stopped before any, has no token, or the seam it names broke; every exchange was the environment's, made with a token and an allowance and under no hold |
| `ClientRetry.AnExhaustedPoolIsWaitedOut` | packages/runtime/src/adapter/client/http.ts:641-653 | a pool known to be exhausted is waited out first, and without that wait nothing is sent |
| `ClientRetry.WaitsAreBounded` | packages/runtime/src/adapter/client/http.ts:145-162 | no wait is negative or begun past the ceiling, whatever the clock reads |
| `ClientRetry.SentAgainIff` | packages/runtime/src/adapter/client/http.ts:140-162 | exactly which failures are sent again, on which attempt and within which wait |
| `ClientRetry.AWaitReachesTheReset` | packages/core/src/github/failures.ts:199-212 | a wait for an exhausted pool ends at or after the reset GitHub named, and by less than a second |
| `ClientRetry.RequestIsBounded` | packages/runtime/src/adapter/client/http.ts:130-162 | at most three sends, one when it may not be retried, and at most 30,000 ms asleep, for any turns; only an expired token, an exhausted primary limit or a transient failure is sent again |
| `ClientRetry.NothingFollowsASecondaryLimit` | packages/runtime/src/adapter/client/http.ts:703-714 | a secondary limit, or one whose wait is unusable, ends the request |
| `ClientRetry.ClassifiedWaitsAreAutomatic` | packages/core/src/github/failures.ts:92-163 | an automatic wait is at most an hour, and exactly which statuses are transient or an expired token |
| `ClientRetry.EachClassHasItsSignals` | packages/core/src/github/failures.ts:92-163 | each class is met by exactly its own status, headers and wording, whatever the order they are tried in |
| `ClientRetry.ASecondaryLimitsWait` | packages/core/src/github/failures.ts:114-140 | a secondary limit waits as GitHub states within the hour, and is unusable when it states badly or longer |
| `ClientRetry.NoExchangeUntilTheHoldEnds` | packages/runtime/src/adapter/client/http.ts:376-403 | while a hold stands no turn of any request gets as far as an exchange and the lane lets no creation in, however requests overlap |
| `ClientRetry.MeetingALimitHolds` | packages/runtime/src/adapter/client/http.ts:376-403 | once a secondary limit is met no exchange is made and no creation let in until GitHub's wait, and never less than a minute, is over; one met while the clock throws holds nothing |
| `ClientRetry.AHoldEndsOnTime` | packages/runtime/src/adapter/client/http.ts:389-403 | a hold ends at its instant and not before, and is then forgotten for every request |
| `ClientRetry.AHeldTurnEndsTheRequest` | packages/runtime/src/adapter/client/http.ts:659-664 | a held turn sends nothing more and ends its request with what it last received |
| `ClientRetry.ReachedIsInvalidatedIff` | packages/runtime/src/adapter/client/http.ts:655-751 | a write that reached GitHub is taken to have landed if and only if, from its last exchange on, the exchange left and was read, an expired token could be dropped, and whichever of clock, sleep and token source the request still turns to does not break |
| `ClientRetry.AnUnbrokenWriteIsInvalidated` | packages/runtime/src/adapter/client/http.ts:655-751 | over three turns in which no seam breaks and each exchange leaves the process, every write that reached GitHub is taken to have landed |
| `ClientRetry.ARetriedWriteKeepsTheStale` | packages/runtime/src/adapter/client/http.ts:724-736 | a write that met a transient failure and then a clock, a sleep or a token source that throws has reached GitHub and drops nothing |
| `ClientRetry.AWriteSentOnceIsInvalidatedIff` | packages/runtime/src/adapter/client/http.ts:696-751 | a write that is never sent again is taken to have landed exactly when its response object does not throw and an expired token could be dropped |
| `ClientRetry.ABrokenResponseKeepsTheStale` | packages/runtime/src/adapter/client/http.ts:698-704 | a write that reached GitHub and whose response object throws drops nothing |
| `RepresentationCache.Cache.Lookup` | packages/runtime/src/adapter/client/http.ts:197-206 | a hit is the entry held for that URL and variant, and becomes the newest |
| `RepresentationCache.Cache.Store` | packages/runtime/src/adapter/client/http.ts:207-218 | stores as newest, then evicts; the retained byte count stays the sum of the held bodies |
| `RepresentationCache.Cache.RemoveResource` | packages/runtime/src/adapter/client/http.ts:221-225 | removes a resource and every query variant of it |
| `RepresentationCache.Cache.DropStale` | packages/runtime/src/adapter/client/http.ts:746-751 | keeps everything after an answer that says nothing was sent, and drops exactly the resources the write names after any other |
| `RepresentationCache.EvictionIsLeast` | packages/runtime/src/adapter/client/http.ts:212-218 | what eviction leaves is the longest suffix of the recency order within both bounds |
| `RepresentationCache.AResourceIsItsUrlAndItsQueries` | packages/runtime/src/adapter/client/http.ts:221-230 | a resource is its URL and that URL with any query, and nothing else |
| `RepresentationCache.StoringHolds` | packages/runtime/src/adapter/client/http.ts:207-218 | an entry small enough to be kept is not evicted by its own arrival |
| `RepresentationCache.CacheRefinesAPlainMap` | packages/runtime/src/adapter/client/http.ts:184-227 | over every run the cache holds only what a plain map would, within both bounds, in order of last use |
| `RepresentationCache.LookupAnswersTheLatest` | packages/runtime/src/adapter/client/http.ts:197-206 | a lookup answers only the latest entry stored for that URL and variant and not removed since |
| `RepresentationCache.InvalidatedCannotHit` | packages/runtime/src/adapter/client/http.ts:221-225 | no URL of a removed resource hits until stored again |
| `RepresentationCache.AWriteThatMayHaveLandedCannotHit` | packages/runtime/src/adapter/client/http.ts:746-751 | after an answer that leaves it possible that the write landed, no URL of any resource it names hits until stored again |
| `Allowance.Ledger.Refuses` | packages/runtime/src/adapter/client/allowance.ts:157-161 | rolls what is due, then refuses nothing exactly when the pool is below its share and, for a mutation only, the mutation lane is below its own |
| `Allowance.Ledger.Exhausted` | packages/runtime/src/adapter/client/allowance.ts:151-156 | answers no lane exactly when no request of any shape would be refused |
| `Allowance.Ledger.Observe` | packages/runtime/src/adapter/client/allowance.ts:192-221 | the other pool is untouched; this one's spend is reset exactly by a new window and its end moved exactly by a new window or a drift |
| `Allowance.CostsNothingIff` | packages/runtime/src/adapter/client/allowance.ts:43-48 | exactly which exchanges cost nothing |
| `Allowance.WhatAnAnswerCosts` | packages/runtime/src/adapter/client/allowance.ts:39-48 | an answered exchange costs one unit of its own pool, GraphQL what it reports, a mutation one of REST and one mutation |
| `Allowance.ACapIsItsShare` | packages/runtime/src/adapter/client/allowance.ts:131-131 | the cap is the share of the limit cut to a whole number, never above the limit |
| `Allowance.APoolRollsAtItsEnd` | packages/runtime/src/adapter/client/allowance.ts:119-129 | a pool rolls at its named end and not before, keeping its limit |
| `Allowance.UnchangedGraphqlIsCharged` | packages/runtime/src/adapter/client/allowance.ts:39-48 | a GraphQL or mutating 304 is charged, although the comment says that neither pool charges one |
| `Allowance.ObservingResetsIff` | packages/runtime/src/adapter/client/allowance.ts:192-221 | a response resets the spend exactly when it opens a new window, moves the end exactly when it opens or drifts, and never backwards |
| `Allowance.NoResponseLowersALiveWindow` | packages/runtime/src/adapter/client/allowance.ts:187-214 | with a clock no response lowers the spend while the named end is ahead; without one it does exactly when it names a later window |
| `Allowance.AdmittedStaysWithinTheCap` | packages/runtime/src/adapter/client/allowance.ts:157-186 | a one-unit exchange that was admitted and answered by its own pool leaves the spend within the cap it was admitted under |
| `Allowance.WindowStartIsTheLatest` | packages/runtime/src/adapter/client/allowance.ts:119-130 | the operation a window is counted from is the latest that began one |
| `Allowance.SpendIsWhatWasChargedSinceTheReset` | packages/runtime/src/adapter/client/allowance.ts:119-221 | conservation: over any run a pool's spend is exactly the costs charged since its window began |
| `Allowance.TotalIsEverythingCharged` | packages/runtime/src/adapter/client/allowance.ts:178-186 | the grand total is everything ever charged, and no window's spend exceeds it |
| `Allowance.MutationsAreCounted` | packages/runtime/src/adapter/client/allowance.ts:178-225 | after any run the mutation lane has spent the mutations answered since it was last armed, whatever the windows did |
| `Allowance.NamedEndsOnlyMoveForward` | packages/runtime/src/adapter/client/allowance.ts:192-221 | a named end only moves forward, and is forgotten only by a clock that has passed it |
| `CreationLane.ContentLane.TakeCreationSlot` | packages/runtime/src/adapter/client/http.ts:553-561 | takes a slot of the current hour, anchoring a new hour when the last is over |
| `CreationLane.ContentLane.SpaceCreation` | packages/runtime/src/adapter/client/http.ts:564-586 | one creation's turn: held, over the ceiling, broken, or admitted after its spacing |
| `CreationLane.CreationsAreSpaced` | packages/runtime/src/adapter/client/http.ts:564-586 | consecutive admitted creations start at least 2,000 ms apart, however turns fail in between |
| `CreationLane.WhatATurnComesTo` | packages/runtime/src/adapter/client/http.ts:551-602 | a creation is admitted exactly when no hold stands, a slot is left and its spacing was slept out; each refusal has its own exact condition |
| `CreationLane.SlotsOverTime` | packages/runtime/src/adapter/client/http.ts:548-561 | slots taken by a given time after the first number at most the ceiling times the hours begun |
| `CreationLane.AnyHourHoldsLessThanTwice` | packages/runtime/src/adapter/client/http.ts:548-561 | any stretch shorter than an hour holds at most twice the ceiling less one |
| `CreationLane.WithinOneAnchorKeepsTheCeiling` | packages/runtime/src/adapter/client/http.ts:553-561 | slots from one anchor on keep to the ceiling; only a stretch across an anchor can pass it |
| `CreationLane.EveryStretchKeepsIff` | packages/runtime/src/adapter/client/http.ts:548-561 | every stretch shorter than an hour keeps to the ceiling if and only if the ceiling is at most one |
| `CreationLane.LessThanTwiceIsReached` | packages/runtime/src/adapter/client/http.ts:104-105 | twice the ceiling less one is met within an hour by admitted, properly spaced creations, for every ceiling up to 900 |
| `TokenSource.RefreshingSource.Current` | packages/runtime/src/adapter/client/token.ts:182-205 | serves, answers a paused failure, starts a mint or joins one |
| `TokenSource.RefreshingSource.Settled` | packages/runtime/src/adapter/client/token.ts:151-179 | what a finished mint leaves behind and answers to all who share it |
| `TokenSource.AtMostOneMintInFlight` | packages/runtime/src/adapter/client/token.ts:193-204 | one mint in flight at most, over every interleaving of calls, completions and rejections |
| `TokenSource.CachedIsTheLatestMint` | packages/runtime/src/adapter/client/token.ts:111-213 | the token held is the last one minted, unless a rejection named it since |
| `TokenSource.OnlyAGoodTokenIsServed` | packages/runtime/src/adapter/client/token.ts:128-131 | a call is served only that token, before its expiry or within a minute of its mint |
| `TokenSource.AnOldTokenIsServedUntil` | packages/runtime/src/adapter/client/token.ts:112-129 | past its first minute a token is served until five minutes before its expiry, and under a pause until the expiry itself |
| `TokenSource.OnlyAGoodTokenIsShared` | packages/runtime/src/adapter/client/token.ts:151-179 | a failed early refresh answers with the held token only while it has not expired |
| `TokenSource.ALateJoinIff` | packages/runtime/src/adapter/client/token.ts:180-204 | a caller joins a mint that has settled and is not let go exactly when the held token was rejected since, or is due for a refresh with any pause over |
| `TokenSource.WhatALateJoinerIsAnswered` | packages/runtime/src/adapter/client/token.ts:180-204 | a token such a caller is answered was rejected since or is by then due for a refresh; a failure is, unless a token was rejected, at least a minute old |
| `TokenSource.NoMintDuringAPause` | packages/runtime/src/adapter/client/token.ts:121-122 | no mint starts before a pause ends unless a rejection clears it |
| `TokenSource.AFailedMintPauses` | packages/runtime/src/adapter/client/token.ts:151-179 | every failed mint leaves such a pause |
| `TokenSource.AnExpiredTokenSuppressesNothing` | packages/runtime/src/adapter/client/token.ts:151-192 | once the held token has expired and a minute has passed, a call starts or joins a mint |
| `TokenSource.PauseEndsByExpiry` | packages/runtime/src/adapter/client/token.ts:163-178 | a pause set over a usable token never outlasts it, and the token is served throughout |
| `TokenSource.APauseLastsAMinute` | packages/runtime/src/adapter/client/token.ts:155-161 | with no usable token a failed mint is answered again for exactly a minute |
| `Modes.LoweredTo` | packages/core/src/config/mode.ts:41-55 | the loop over the blocks lowers exactly the file and the stated modes |
| `Modes.LoweringIsTheMinimum` | packages/core/src/config/mode.ts:21-55 | lowering gives every capability the lesser of its mode and the ceiling, even where a block states more than its file |
| `Modes.ABlockNeverExceedsItsFile` | packages/core/src/config/mode.ts:20-31 | a block runs in the lesser of its own mode and its file's |
| `Modes.NothingIsStatedAboveTheCeiling` | packages/core/src/config/mode.ts:41-56 | a lowered file states nothing above the ceiling and leaves what was lower, its consents and its principals |
| `Modes.LoweredBelowActive` | packages/core/src/config/mode.ts:34-38 | some capability is active after lowering if and only if the ceiling is active and one was |
| `Modes.LoweringComposes` | packages/core/src/config/mode.ts:41-55 | lowering twice is lowering once to the lesser ceiling |
| `Workflow.ObservedMeaningsOf` | packages/core/src/safety/world.ts:44-57 | the meanings a projection carries, each once, in the one order |
| `Workflow.ProjectionKeepsWhatWasSeen` | packages/core/src/workflow/project.ts:34-83 | projecting loses no observed meaning, no pause and no closure, in either branch |
| `Workflow.ConflictedIff` | packages/core/src/workflow/project.ts:38-49 | an item is conflicted exactly when it carries two positions of its own flow |
| `Workflow.AModeIsClaimedIffRead` | packages/core/src/safety/world.ts:60-84 | a mode is claimed truly exactly while it was read; one nobody read never is |
| `Workflow.MapsAreWellDrawn` | packages/core/src/workflow/transitions.ts:23-56 | every edge has a cause, leads elsewhere and is of its own flow throughout |
| `Workflow.MapsAreDrawnOnce` | packages/core/src/workflow/transitions.ts:23-56 | no map joins the same two ends twice |
| `Workflow.TransitionFollowsTheMap` | packages/core/src/workflow/transitions.ts:98-130 | a move is allowed exactly when some edge takes it |
| `Intents.KeysAreInjective` | packages/core/src/intents/intent.ts:60-80 | two intents share a key if and only if they are one occasion: capability, repository, item, operation, cause, instant and delivery |
| `Intents.WarningKeysStandApart` | packages/core/src/engine/decide.ts:242-242 | a warning comment's key is no occasion's own, and collides only where the acts' keys do |
| `Intents.NothingIsBuiltOffTheMap` | packages/core/src/capability/factory.ts:117-137 | with no cause stated, building finds no edge exactly when the map draws none |
| `Intents.TheScreenFollowsTheMap` | packages/core/src/engine/invoke.ts:191-249 | the screen passes exactly the moves the item's own map takes from its projected position |
| `Intents.ADefaultedCausePassesTheScreen` | packages/core/src/capability/facts.ts:77-83 | a cause left to the map passes that screen |
| `Intents.ABuiltKeyRederives` | packages/core/src/capability/factory.ts:60-95 | a built intent's key is the one its occasion derives, and it is about the record's item |
| `Intents.DerivedClaimsHold` | packages/core/src/capability/factory.ts:106-114 | claims derived from a record hold in the world derived from it, exactly when it is not conflicted |
| `Intents.DerivedClaimsSayWhatWasSeen` | packages/core/src/capability/factory.ts:105-114 | the derived claims hold of a later reading exactly when what was seen is still there, the closure is as it was, and a label to be applied has not appeared |
| `Intents.NamedClaimsReplaceDerived` | packages/core/src/capability/factory.ts:130-157 | a claim the request names stands in place of the derived one, and the others are derived |
| `Intents.ModesAreAsRead` | packages/core/src/capability/facts.ts:59-75 | a pull request's modes are its readiness and whether changes are outstanding; an issue has none |
| `Intents.AnIntentPassesTheScreenIff` | packages/core/src/engine/invoke.ts:289-345 | the ordered screen passes exactly an intent of its capability, declared, dated, keyed, termed if destructive, and on its map |
| `Gate.Decide` | packages/core/src/engine/decide.ts:498-606 | the loop over capabilities and their intents reports and approves what the gates answer, in order |
| `Gate.GeneralRulesApplyIff` | packages/core/src/safety/rules.ts:85-197 | the ordered rules apply a write if and only if every condition holds, in no order |
| `Gate.StandingRulesAreNecessary` | packages/core/src/safety/rules.ts:203-216 | the standing gate never refuses what the whole ladder lets through |
| `Gate.DestructiveAppliesOnlyAfterGrace` | packages/core/src/safety/destructive.ts:122-201 | a destructive act applies only under its own warning, at least an hour and its whole grace (as doubles sum it) later, and with no activity since |
| `Gate.GraceEndsNearby` | packages/core/src/safety/destructive.ts:174-174 | rounding costs a grace less than a millisecond and never takes it below the hour |
| `Gate.WhatAnIntentMayBecome` | packages/core/src/engine/decide.ts:302-431 | what one returned value can become: its act, or the warning for it |
| `Gate.AnActIsApprovedIff` | packages/core/src/engine/decide.ts:302-431 | an act is approved exactly when it passes its screen, is permitted in full, and any destructive one has its grace honoured |
| `Gate.FirstSightOnlyWarns` | packages/core/src/engine/decide.ts:399-415 | with no warning standing a destructive act is approved only as its warning, and exactly when the warning is permitted |
| `Gate.TheWarningSaysTheActsWords` | packages/core/src/engine/decide.ts:228-247 | the comment approved on first sight says the act's own words under its topic, on its item and for its cause, and the warning to record is of its key, terms and change |
| `Gate.AnApprovedActIsTheReturnedOne` | packages/core/src/engine/decide.ts:159-170 | an approved act is the returned intent: only its date, and ahead of a comment's words its address, are put in |
| `Gate.WhatIsApprovedWasGranted` | packages/core/src/safety/rules.ts:175-185 | every approval's own permission was granted: pull requests to close, issues for all else |
| `Gate.AWarningIsForOneRequest` | packages/core/src/safety/destructive.ts:107-119 | two requests that one warning matches agree in class, capability, item, change and dated cause |
| `Gate.ActivityCancelsFromItsSecond` | packages/core/src/safety/destructive.ts:84-91 | activity cancels from the first millisecond of the warning's second on |
| `Gate.ABuiltMoveIsApprovedIffAllowed` | packages/core/src/capability/factory.ts:130-156 | a label move built from the record is approved exactly when the repository and the item allow it |
| `Gate.WhatDecideApproves` | packages/core/src/engine/decide.ts:498-606 | whatever the capabilities return, every approved effect is about the record's item, enabled, active, granted, on an open unblocked item, with its claims holding and no human change in or after the observation's second |
| `Gate.WhatADestructiveApprovalRestsOn` | packages/core/src/engine/decide.ts:416-430 | every approved destructive effect rests on the warning recorded under its key, its grace honoured |
| `Gate.NothingIsApprovedUnlessActive` | packages/core/src/safety/rules.ts:155-167 | with no capability in active nothing is approved |
| `Gate.LoweredBelowActiveApprovesNothing` | packages/core/src/config/mode.ts:41-55 | a file lowered below active approves nothing |
| `Gate.EveryIntentIsReported` | packages/core/src/engine/decide.ts:302-431 | nothing a capability returns goes unreported, and what is approved is reported as applied |
| `Gate.WhoIsHeard` | packages/core/src/engine/decide.ts:498-560 | an approval comes only of an enabled capability, awake to the kind of item, with every group it needs read, the item open or its declaration for closed ones, and no intent returned after a skip; one asleep leaves no finding either |
| `Gate.TheHeardAreGated` | packages/core/src/engine/decide.ts:498-560 | one that is heard has every intent gated; one whose groups were not read says so, one whose item has left is silent, and one going on after a skip is told of and approved nothing |
| `Gate.FailedLookupsAreReported` | packages/core/src/engine/decide.ts:302-430 | a lookup that throws leaves its own finding, and none is left otherwise |
| `Gate.DryRunSaysWhatActiveWouldDo` | packages/core/src/engine/decide.ts:263-296 | a file lowered to dry-run says it would apply an intent exactly when the active file would have approved the act or its first warning, and approves nothing itself |
| `WarnThenAct.StandingWasOfferedThenLanded` | packages/runtime/src/shell/apply/call.ts:157-193 | a warning stands under a key only because a pass approved it and its comment landed after |
| `WarnThenAct.WhatAnOfferRecords` | packages/core/src/engine/decide.ts:399-415 | a warning is approved on first sight, none standing, for a screened destructive act the pass was returned, as a comment that says that act's own words and records it under its derived key |
| `WarnThenAct.EveryActWasWarned` | packages/core/src/engine/decide.ts:385-430 | over every run of passes, landings, other facts and pruning, each approved destructive act was warned of in an earlier pass under its own key, by a comment on its item that says its words and tells of the same change, at least an hour and its whole grace (as doubles sum it) before, with no activity since |
| `WarnThenAct.ChangesAreWordedApart` | packages/core/src/intents/operations/releaseAssignment.ts:11-13 | two destructive changes are worded alike only if they are one: the same person, or the same reason |
| `WarnThenAct.AStandingWarningIsForItsOccasion` | packages/core/src/intents/intent.ts:60-80 | what stands under a key warns of that very occasion |
| `WarnThenAct.AResetClockNeedsANewWarning` | packages/capabilities/src/inactivity/issues.ts:74-97 | a clock reset gives the act a new key, under which no warning of the old start stands |
| `WarnThenAct.AuthorityIffTheSameChange` | packages/core/src/safety/destructive.ts:107-119 | a standing warning authorises an act of its occasion if and only if it promised the same change |
| `WarnThenAct.TheSecondOfTwoSameInstantReleasesIsRefused` | packages/capabilities/src/inactivity/issues.ts:68-97 | two releases on one issue with one idle start share a key, so the one warned of second is refused while the first's warning stands |
| `TwoReleases.OneOfTwoIsReleased` | packages/core/src/engine/decide.ts:385-430 | a whole run: both are warned of, one warning stands under the key they share, and when its grace is over the first is released and nothing else |
| `TwoReleases.TheOtherIsRefused` | packages/core/src/safety/destructive.ts:142-148 | while the first's warning stands every later pass refuses the second, for the warning is not for it |
| `TwoReleases.ScenesPlay` | packages/capabilities/src/inactivity/issues.ts:68-97 | such runs there are, for any capability, repository, issue and idle run |
| `WarnThenAct.APromiseIsFullIffWhole` | packages/runtime/src/shell/apply/call.ts:161-169 | a landed warning names its whole grace exactly when the end of it, rounded as a double, is a whole millisecond; otherwise no act is ever let through on it |
| `WarnThenAct.WholeGraceEndsWhole` | packages/runtime/src/shell/apply/call.ts:165-167 | a grace of whole milliseconds ends on one |
| `WarnThenAct.GraceEndsWholeIff` | packages/runtime/src/shell/apply/call.ts:165-167 | any other ends on one if and only if the sum is within half a step of it, at the precision of a double of that size |
| `WarnThenAct.AGraceThatNeverEnds` | packages/core/src/engine/invoke.ts:276-281 | an hour and a 256th passes the screen, and its act is never let through |
| `WarnThenAct.AGraceThatRoundsWhole` | packages/core/src/safety/destructive.ts:174-177 | the double nearest 1.1 hours is no whole number of milliseconds, and yet ends on one |
| `SettingsCascade.DurationRoundTrips` | packages/core/src/capability/settings.ts:36-51 | every whole number of hours is written so that it reads back |
| `SettingsCascade.OnlyWrittenDurationsAreRead` | packages/core/src/capability/settings.ts:30-52 | a text is a duration exactly when it is a number in plain digits and h or d |
| `SettingsCascade.FindStated` | packages/core/src/capability/settings.ts:135-142 | the walk along a path stops at the first segment a level does not state |
| `SettingsCascade.FindDuration` | packages/core/src/capability/settings.ts:157-168 | the two walks outward: first for a stated value, then for a declared default |
| `SettingsCascade.CollectLogins` | packages/core/src/capability/settings.ts:353-376 | every bad entry is reported at its index, and otherwise all are held in lower case |
| `SettingsCascade.AcceptedLevelHoldsItsFields` | packages/core/src/config/spec.ts:108-118 | an accepted level accepted each field and holds what it read as |
| `SettingsCascade.AClockReadsWhatItsNameSays` | packages/core/src/capability/settings.ts:228-244 | a clock that inherits its own name reads what its level looks up under that name |
| `SettingsCascade.AcceptedClockIsBounded` | packages/core/src/capability/settings.ts:196-216 | an accepted clock is within the ceiling, its own floor and its gap above what it names |
| `SettingsCascade.AClockIsAcceptedIff` | packages/core/src/capability/settings.ts:190-247 | a clock is accepted exactly when its stated, else inherited, else default value meets the ceiling, its floor and its gap, and reads as that value |
| `SettingsCascade.ABlockIsReadOnConsent` | packages/core/src/capability/settings.ts:413-447 | a block is read only where it is enabled; left out or not enabled it is parked |
| `SettingsCascade.NothingUnknownIsRead` | packages/core/src/capability/settings.ts:76-94 | an accepted section or consented block holds no key its spec does not know |
| `SettingsCascade.AFlagIsReadAsStated` | packages/core/src/capability/settings.ts:101-130 | a flag is read as stated, or else as its default, and nothing else is a flag |
| `SettingsCascade.ALoginIsListedIff` | packages/core/src/capability/settings.ts:353-382 | a list of logins is accepted exactly when each entry is one, and names a login exactly when some entry does in any case |
| `SettingsCascade.AFloorIsWhatTheSiblingReads` | packages/core/src/capability/settings.ts:196-246 | for any spec and document the floor looked up from inside a block is the value its sibling field holds |
| `Inactivity.AcceptedSettingsAreSound` | packages/capabilities/src/inactivity/settings.ts:29-116 | in every accepted document each level that reaps acts at least an hour after it reminds and at least two hours in all |
| `Inactivity.AReapIsAcceptedIff` | packages/core/src/capability/settings.ts:413-446 | a consented release block is accepted exactly when its clock resolves to those bounds |
| `Inactivity.TheLadderIsTheCascades` | packages/capabilities/src/inactivity/ladder.ts:27-46 | an accepted issue ladder reminds after what the cascade resolves at its level and releases, on consent alone, after what it states or the levels around it say |
| `Inactivity.ASilentLevelInherits` | packages/capabilities/src/inactivity/settings.ts:20-80 | a consenting level of a document that states no clock reminds after thirty days and releases after sixty |
| `Inactivity.ExemptIffListed` | packages/capabilities/src/inactivity/ladder.ts:52-55 | a login is exempt exactly when the document lists it in any case |
| `Inactivity.LatestOf` | packages/core/src/capability/facts.ts:160-168 | the loop keeps the newest instant |
| `Inactivity.LatestIsTheMaximum` | packages/core/src/capability/facts.ts:160-168 | which is the maximum of those present |
| `Inactivity.OnIssueLadder` | packages/capabilities/src/inactivity/issues.ts:45-62 | one request for each person past the reminder and not exempt, in order |
| `Inactivity.WhoIsAskedAbout` | packages/capabilities/src/inactivity/issues.ts:45-62 | a request is made exactly for each person past the reminder |
| `Inactivity.PastItsReminderIff` | packages/core/src/capability/facts.ts:128-143 | a person is past the reminder exactly when not exempt and idle for all of its hours since the assignment or a later /working |
| `Inactivity.RequestsAskOf` | packages/capabilities/src/inactivity/issues.ts:68-126 | the request releases that person after the rest of the ladder, dated at the idle start; without a release it only comments |
| `Inactivity.NobodyIsReleasedEarly` | packages/capabilities/src/inactivity/issues.ts:68-103 | a release is let through only after the person has been idle for the whole release clock |
| `Inactivity.ReapableFor` | packages/capabilities/src/inactivity/pull-requests.ts:54-65 | the first reason, in the ladder's order, that is consented to and holds |
| `Inactivity.WhatACloseAsks` | packages/capabilities/src/inactivity/pull-requests.ts:118-158 | a close rests on its reason's state, carries the rest of the ladder and is dated at the newest of the state's start, commits and activity |
| `Inactivity.ACloseRestsOnItsState` | packages/capabilities/src/inactivity/pull-requests.ts:43-52 | a close for a draft or for requested changes is approved only while the pull request reads as one |
| `Inactivity.AcceptedGraceMeetsTheFloor` | packages/capabilities/src/inactivity/ladder.ts:27-44 | the grace of every accepted ladder meets the floor |
| `Inactivity.ReleasesPassTheGraceScreen` | packages/core/src/engine/invoke.ts:255-283 | no release an accepted ladder builds is refused for its grace |
| `Inactivity.ClosesPassTheGraceScreen` | packages/capabilities/src/inactivity/pull-requests.ts:118-155 | nor any close |
| `Inactivity.ActivityMovesTheRelease` | packages/core/src/capability/facts.ts:128-144 | a release's key moves if and only if the assignee's own activity follows the start of the idle run |
| `Inactivity.ActivityMovesTheClose` | packages/core/src/capability/facts.ts:146-158 | a close's key moves if and only if a commit or an assignee's activity follows it |
| `Inactivity.LaterActivityHasResetTheRelease` | packages/core/src/safety/destructive.ts:86-91 | activity that cancels a release's own warning falls in the warning's second; anything later has already moved the key |
| `Inactivity.LaterActivityHasResetTheClose` | packages/capabilities/src/inactivity/pull-requests.ts:146-153 | and so it does for a close |
| `Mappings.ReadMeaningFamily` | packages/core/src/config/sections.ts:324-376 | the loop accepts and refuses each entry of a family in turn |
| `Mappings.LabelsWithDefaults` | packages/core/src/config/sections.ts:500-526 | the file's spellings over the defaults, refusing one that is another meaning's standing default |
| `Mappings.CheckAgainstEarlier` | packages/core/src/config/sections.ts:454-488 | the labels a later family may not take |
| `Mappings.FamilyAcceptsIffInjective` | packages/core/src/config/sections.ts:324-376 | a family is accepted exactly when each entry is its own and no two spell one label, and then nothing is dropped |
| `Mappings.MergedSpellsApart` | packages/core/src/config/sections.ts:500-526 | spellings stay distinct once the defaults are laid under them |
| `Mappings.NoShadowIffSpellsApart` | packages/core/src/config/sections.ts:500-526 | an injective family is laid over the defaults without error exactly when no two meanings in force spell one label |
| `Mappings.TheDocumentsSpellingIsInForce` | packages/core/src/config/sections.ts:500-526 | a meaning the document maps has its spelling in force, and one it leaves has its default |
| `Mappings.AcceptedFamiliesSpellApart` | packages/core/src/config/sections.ts:528-590 | accepted labels (defaults included), tiers and alerts each spell their names apart |
| `Mappings.AcceptedFamiliesStandApart` | packages/core/src/config/sections.ts:466-488 | and no label spells a name of two of these families |
| `Mappings.MeaningOfLabel` | packages/core/src/config/labels.ts:20-29 | the first meaning whose label is the same as this one |
| `Mappings.LabelsReadBack` | packages/core/src/config/labels.ts:15-29 | every meaning has a label in force, and it reads back as that meaning, however cased or spaced |
| `Mappings.AcceptedMappingsAreTheDocuments` | packages/core/src/config/sections.ts:528-570 | an accepted section holds every entry of every family as written, and the default of each meaning left out |
| `Mappings.TheDocumentsLabelsReadBack` | packages/core/src/config/labels.ts:15-29 | a label spelled as the document spells a meaning reads as that meaning, however cased or spaced |
| `Mappings.SectionsAreAcceptedIff` | packages/core/src/config/sections.ts:528-570 | a section is accepted exactly when it has no other key, each family is, and no label stands in two of labels, skills and alerts |
| `Mappings.AlertsAreCamelCase` | packages/core/src/config/sections.ts:424-440 | the open family admits camel-case names only |
| `Mappings.OneLabelOneMeaning` | packages/core/src/config/labels.ts:32-58 | no label carries two meanings, two tiers, or one of each |
| `Commands.LinesOutsideFences` | packages/core/src/config/commands.ts:17-30 | the loop drops every fenced line, an unclosed fence running to the end |
| `Commands.AFenceIsThreeOfItsMark` | packages/core/src/config/commands.ts:10-15 | a line opens or closes a block exactly when, trimmed, it begins with three backticks or three tildes |
| `Commands.CommandInComment` | packages/core/src/config/commands.ts:39-50 | the first line outside every code block that begins with a mapped word |
| `Commands.AFencedBlockIsSkipped` | packages/core/src/config/commands.ts:16-30 | a fenced block, whatever it holds, is as if it were not there |
| `Commands.IssuedByItsWord` | packages/core/src/config/commands.ts:35-50 | a command is issued only by an unindented line that begins with its word |
| `Commands.IssuableIffOneWord` | packages/core/src/config/sections.ts:395-409 | an accepted command can be issued by some comment if and only if its trimmed spelling holds no space |
| `Commands.ASpacedCommandIsAcceptedAndDead` | packages/core/src/config/sections.ts:395-409 | a spelling with a space that is accepted and that no comment issues |
| `JsonText.ParseInvertsPrinting` | packages/core/src/intents/managed.ts:105-115 | every value printed compactly reads back as itself, decimal fractions included |
| `JsonText.DecimalsAreDistinct` | packages/core/src/intents/managed.ts:105-115 | a number's value has one decimal, and so one text that is printed for it |
| `JsonText.NoPrefixOfAnObjectParses` | packages/core/src/intents/managed.ts:162-171 | no proper prefix of a printed object reads as an object |
| `Marker.PayloadReadsBack` | packages/core/src/intents/managed.ts:191-257 | the fields read from a published payload are the payload, exactly when it is well formed |
| `Marker.WhatIsRecognised` | packages/core/src/intents/managed.ts:191-257 | whatever anybody wrote, what is recognised in it could have been published: the marker stands first, and capability, kind, subject and record are well formed |
| `Marker.APayloadNamesItsIdentity` | packages/core/src/intents/managed.ts:70-103 | a payload carries its identity's capability and kind, the record given and the first sixteen digits of the digest |
| `Marker.BytesAreTheFewest` | packages/core/src/intents/managed.ts:157-160 | a character is counted at the fewest UTF-8 bytes it fits in |
| `Marker.MarkerRoundTrips` | packages/core/src/intents/managed.ts:207-257 | a posted comment reads back as its payload if and only if that is publishable, fits the byte limit and does not hold the closing bytes |
| `Marker.IdentityTextIsInjective` | packages/core/src/intents/managed.ts:75-88 | no two identities digest the same text |
| `Marker.OneCommentOneIdentity` | packages/core/src/intents/managed.ts:284-301 | barring a digest collision, the App's comment stands under an identity if and only if it is that identity's, and nobody else's copy does |
| `RejectionFolding.InheritsIsAStrictOrder` | packages/capabilities/src/configReport/render.ts:243-250 | following from another error is a strict partial order |
| `RejectionFolding.DocumentOrderSorts` | packages/capabilities/src/configReport/render.ts:256-260 | document order loses nothing and puts nothing before what belongs ahead of it |
| `RejectionFolding.WhatComesBefore` | packages/capabilities/src/configReport/render.ts:252-260 | whole-document errors come first, then those with a line by line, then those without |
| `RejectionFolding.EachIsACauseOrFollowsOne` | packages/capabilities/src/configReport/render.ts:281-291 | each error is a cause or follows exactly one, never both and never neither |
| `RejectionFolding.CausesOfOneErrorShareAPath` | packages/capabilities/src/configReport/render.ts:277-283 | the causes that enclose one error are all at one path |
| `RejectionFolding.AtMostOneCauseIff` | packages/capabilities/src/configReport/render.ts:277-283 | at most one cause encloses an error if and only if no other error was reported at the path of the cause it follows |
| `RejectionFolding.TwoCausesMayEncloseOne` | packages/capabilities/src/configReport/render.ts:277-283 | a document's errors of which two causes enclose a third |
| `RejectionFolding.RejectionAccountsForEveryError` | packages/capabilities/src/configReport/render.ts:286-311 | what a rejection lists, counts as inherited and omits adds up to every error |
| `RejectionFolding.FitComment` | packages/capabilities/src/configReport/render.ts:52-59 | at most 12,000 units, whole when it fits, cut neither inside a surrogate pair nor after a backslash, dropping nothing else |
| `InertText.RenderedDoesNothing` | packages/core/src/capability/facts.ts:176-191 | untrusted text stays on its line, with every active character escaped and no mention linked |
| `InertText.RenderedSaysTheLine` | packages/core/src/capability/facts.ts:185-191 | and a reader still sees the line itself, or its first 120 characters and that more was cut |
| `InertText.RenderingIsFaithful` | packages/core/src/capability/facts.ts:185-191 | two texts are rendered alike if and only if their capped lines are one |

## Left out

- Storage: SQLite, transactions, pragmas, backups and migration. A statement is one atomic step on a sequence or a map.
- Instants: whole epoch milliseconds, which order as their UTC text does. The guards on that text are not modelled, and an idempotency key prints the milliseconds where the source prints the text.
- Text: sequences of Unicode scalar values, so no unpaired surrogate. White space is the language's whole set; letters change case in ASCII only.
- Fact rows: the columns that no modelled query reads, and the JSON of a payload column, which arrives read.
- Digests, tokens, GUIDs: SHA-256 is a function parameter, drawn tokens come from the environment, a GUID is a number in its text's order.
- HTTP: sockets, timers, streaming and header syntax. Responses, clock readings and sleeps are inputs, and GitHub's prose arrives matched.
- Concurrency: promise scheduling beyond the single-flight mint, the serial creation lane and interleaved store operations.
- Numbers: sums of milliseconds are rounded as binary64 where a warning's deadline is made and checked, for magnitudes from 1 to 2^53. In JSON they are decimals of any size without an exponent, which the source prints below 10^-6 and from 10^21; a number is its shortest decimal, not the double nearest it. Elsewhere they are whole; the source's lose precision past 2^53, far above the longest clock and the last date.
- Objects: value trees are plain, with distinct keys; prototypes and YAML reading are not modelled.
- ClientRetry.DeliverRequest: request admission, grant lookup and the body limit are the environment's answers for a turn, because they add no state to the loop.
- CreationLane.SlotsOverTime: counts slots by when they are taken, as the source does; a creation starts after its spacing, which a sleep may stretch.
- TokenSource.OnlyAGoodTokenIsShared: is about the instant a mint settles; a caller who joins later is `ALateJoinIff`. A throwing clock, a failed signing and the static source are not modelled.
- Allowance.Ledger.Observe: the notice of a window that opens is not modelled, and the two headers arrive as whole numbers or absent.
- Gate.Decide: begins at a record or at none; normalising a raw delivery, the wording of findings and the managed comment an effect carries are not modelled. A capability returns no object, or an intent whose payload is its operation's: one whose payload belongs to another operation, which the compiler excludes and the gate does not check, is not representable.
- Gate.DestructiveAppliesOnlyAfterGrace: a recorded warning's numbers are finite, because the ledger stores instants and hours; an intent's own dates and hours may hold none.
- ClientRetry.MeetingALimitHolds: an exchange that had passed its check before the limit was met is not stopped by it, here or in the source.
- WarnThenAct.EveryActWasWarned: the applier and the sweep are steps that append facts. A warning read back from the App's own comment is a landing like any other, at the instant the comment bears.
- SettingsCascade.AcceptedLevelHoldsItsFields: the field kinds are those the inactivity settings use; counts, free text and lists of mapped names would add only more leaves.
- Inactivity.OnIssueLadder: takes the assignees already known to be people; messages are parameters, and the stops before the ladder are not modelled.
- Mappings.ReadMeaningFamily: an error is its code and path, without its sentence.
- JsonText.ParseInvertsPrinting: a number with an exponent and an escaped surrogate pair are not read.
- Marker.MarkerRoundTrips: a grace of 10^21 hours or more, which the source prints with an exponent, is outside `JsonText`.
- InertText.RenderedSaysTheLine: the cap counts characters; the source counts UTF-16 units, so one outside the basic plane counts twice there and the cut may fall inside it.
- RejectionFolding.FitComment: the fitted body is code units; the report's other lines are not modelled.
- Stored snapshots and decision rows: a codec over fixed shapes and an append-only log, which would add only easy members.
- The other capabilities, the command line, reports and development tools: thin policy or wording.
