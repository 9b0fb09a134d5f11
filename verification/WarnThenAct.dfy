/**
 * Warn, wait, act: whole runs of the platform over one effect ledger. A pass decides, an approved warning's comment
 * lands and is recorded, other facts are appended, and retention prunes, in any order and any number of times.
 */
module WarnThenAct {
  import opened Wrappers
  import opened Intents
  import opened Gate
  import opened Hours
  import opened Doubles
  import Facts
  import Modes
  import EffectLedger

  // ----- One run -----

  /**
   * A pass brings its own record, configuration, capabilities and lookups; the recorded warnings are the ledger's,
   * except for the keys whose lookup threw.
   */
  datatype Step =
    | Pass(facts: Record, config: Modes.Config, capabilities: seq<Capability>, externals: Externals, unreadable: set<string>)
    | WarningLands(offer: nat, at: int)
    | OtherFact(fact: Facts.Fact)
    | Prunes(before: int)

  /** The ledger, and every warning approved so far. */
  datatype State = State(rows: seq<Facts.Fact>, offered: seq<WarningToRecord>)

  function OverLedger(externals: Externals, rows: seq<Facts.Fact>, unreadable: set<string>): Externals {
    externals.(warningFor := key => if key in unreadable then Threw else Gave(EffectLedger.WarningOf(rows, key)))
  }

  function ApprovedBy(pass: Step, rows: seq<Facts.Fact>): seq<Effect>
    requires pass.Pass?
  {
    OutcomeOfAll(pass.capabilities, pass.facts, pass.config, OverLedger(pass.externals, rows, pass.unreadable)).approved
  }

  /** What is written down when a warning's comment appears: the act it promises, dated from that moment. */
  function SnapshotOf(warned: WarningToRecord, at: int): Facts.StoredWarning {
    Facts.StoredWarning(
      at,
      warned.gracePeriodHours,
      GraceEnds(at, warned.gracePeriodHours).Floor,
      warned.cancelledBy,
      warned.reversesWith,
      ActionClassName(warned.request.actionClass),
      warned.request.capability,
      if warned.request.causeObservedAt.At? then warned.request.causeObservedAt.ms else 0,
      warned.request.cause,
      warned.request.item,
      warned.request.change)
  }

  /** The act's history, not the comment's, and no call of it. */
  function LandedFact(warned: WarningToRecord, at: int): Facts.Fact {
    Facts.Fact(warned.effectId, 0, Facts.Warned, at, Some(Facts.Snapshot(SnapshotOf(warned, at))))
  }

  function Recording(effects: seq<Effect>): seq<WarningToRecord> {
    if effects == [] then []
    else if effects[0].records.Some? then [effects[0].records.value] + Recording(effects[1..])
    else Recording(effects[1..])
  }

  /** Only an approved warning's comment is posted, so only one of those lands; nothing else writes a warning down. */
  predicate CanHappen(state: State, step: Step) {
    && (step.WarningLands? ==> step.offer < |state.offered|)
    && (step.OtherFact? ==> !step.fact.kind.Warned?)
  }

  function Next(state: State, step: Step): State
    requires CanHappen(state, step)
  {
    match step
    case Pass(_, _, _, _, _) => state.(offered := state.offered + Recording(ApprovedBy(step, state.rows)))
    case WarningLands(offer, at) => state.(rows := EffectLedger.Recorded(state.rows, LandedFact(state.offered[offer], at)))
    case OtherFact(fact) => state.(rows := EffectLedger.Recorded(state.rows, fact))
    case Prunes(before) => state.(rows := EffectLedger.Pruned(state.rows, before))
  }

  predicate Possible(history: seq<Step>)
    decreases |history|, 0
  {
    history == [] || (Possible(history[..|history| - 1])
                      && CanHappen(Reach(history[..|history| - 1]), history[|history| - 1]))
  }

  function Reach(history: seq<Step>): State
    requires Possible(history)
    decreases |history|, 1
  {
    if history == [] then State([], [])
    else Next(Reach(history[..|history| - 1]), history[|history| - 1])
  }

  lemma {:induction false} PrefixIsPossible(history: seq<Step>, j: nat)
    requires Possible(history) && j <= |history|
    ensures Possible(history[..j])
    decreases |history|
  {
    if j < |history| {
      var shorter := history[..|history| - 1];
      PrefixIsPossible(shorter, j);
      assert shorter[..j] == history[..j];
    } else {
      assert history[..j] == history;
    }
  }

  // ----- Where a standing warning came from -----

  /** Step `j` was a pass that approved this warning. */
  ghost predicate OfferedAt(history: seq<Step>, j: nat, warned: WarningToRecord) {
    && j < |history| && Possible(history[..j]) && history[j].Pass?
    && exists effect :: effect in ApprovedBy(history[j], Reach(history[..j]).rows) && effect.records == Some(warned)
  }

  /** Step `j` recorded this warning, as a comment that appeared at `at`. */
  ghost predicate LandedAt(history: seq<Step>, j: nat, warned: WarningToRecord, at: int) {
    && j < |history| && Possible(history[..j]) && history[j].WarningLands? && history[j].at == at
    && warned in Reach(history[..j]).offered
  }

  lemma RecordingComesFrom(effects: seq<Effect>, warned: WarningToRecord)
    requires warned in Recording(effects)
    ensures exists effect :: effect in effects && effect.records == Some(warned)
  {
    if effects[0].records != Some(warned) {
      RecordingComesFrom(effects[1..], warned);
    }
  }

  lemma {:induction false} OffersComeFromPasses(history: seq<Step>, warned: WarningToRecord) returns (i: nat)
    requires Possible(history) && warned in Reach(history).offered
    ensures i < |history| && OfferedAt(history, i, warned)
    decreases |history|
  {
    var shorter, last := history[..|history| - 1], history[|history| - 1];
    i := |shorter|;
    if warned in Reach(shorter).offered {
      i := OffersComeFromPasses(shorter, warned);
      assert shorter[..i] == history[..i];
    } else {
      RecordingComesFrom(ApprovedBy(last, Reach(shorter).rows), warned);
    }
  }

  lemma {:induction false} WarnedRowsComeFromLandings(history: seq<Step>, row: Facts.Fact)
      returns (j: nat, warned: WarningToRecord)
    requires Possible(history) && row in Reach(history).rows && row.kind.Warned?
    ensures j < |history| && LandedAt(history, j, warned, row.at) && row == LandedFact(warned, row.at)
    decreases |history|
  {
    var shorter, last := history[..|history| - 1], history[|history| - 1];
    if row in Reach(shorter).rows {
      j, warned := WarnedRowsComeFromLandings(shorter, row);
      assert shorter[..j] == history[..j];
    } else {
      j, warned := |shorter|, Reach(shorter).offered[last.offer];
    }
  }

  /** A warning stands under a key because one was offered for it, and then its comment landed. */
  lemma StandingWasOfferedThenLanded(history: seq<Step>, key: string)
      returns (i: nat, j: nat, warned: WarningToRecord, at: int)
    requires Possible(history) && EffectLedger.WarningOf(Reach(history).rows, key).Some?
    ensures i < j < |history| && OfferedAt(history, i, warned) && LandedAt(history, j, warned, at)
    ensures warned.effectId == key
    ensures EffectLedger.WarningOf(Reach(history).rows, key) == Some(SnapshotOf(warned, at))
  {
    var row := EffectLedger.FirstWarned(Reach(history).rows, key).value;
    j, warned := WarnedRowsComeFromLandings(history, row);
    at := row.at;
    i := OffersComeFromPasses(history[..j], warned);
    assert history[..j][..i] == history[..i];
  }

  /** The warning of a screened destructive act about the record, under the key its occasion derives. */
  predicate Promises(warned: WarningToRecord, act: Intent, facts: Record) {
    && act.grace.Some? && Destructive(act) && warned == ToRecord(act, act.grace.value)
    && act.key == KeyOf(OccasionOf(act)) && act.cause.observedAt.At? && ScreenGrace(act).None?
    && NamesTheRecord(act, facts)
  }

  lemma AWarningPromisesItsAct(effect: Effect, act: Intent, declaration: Declaration, facts: Record, externals: Externals)
    requires Acts(effect, act, declaration, facts, externals) || Warns(effect, act, declaration, facts, externals)
    requires effect.records.Some? && NamesTheRecord(effect.intent, facts)
    ensures Promises(effect.records.value, act, facts)
    ensures Tells(effect.intent, act, act.grace.value) && RecordsTheAct(effect.records.value, act, act.grace.value)
    ensures externals.warningFor(act.key) == Gave(None)
  {
  }

  /** Among what this pass was returned is this intent, as it was addressed and dated to be judged. */
  ghost predicate ReturnedTo(pass: Step, act: Intent)
    requires pass.Pass?
  {
    exists capability, value: Option<Intent> ::
      && capability in pass.capabilities && value in IntentsOf(capability) && value.Some?
      && act == Taken(value.value, pass.facts, pass.config)
  }

  /** This pass approved a comment that says this act's own words on its item, and is recorded as this warning. */
  ghost predicate ToldOf(pass: Step, rows: seq<Facts.Fact>, warned: WarningToRecord, act: Intent)
    requires pass.Pass?
  {
    && act.grace.Some? && Promises(warned, act, pass.facts) && RecordsTheAct(warned, act, act.grace.value)
    && ReturnedTo(pass, act)
    && exists effect :: effect in ApprovedBy(pass, rows) && effect.records == Some(warned)
                        && Tells(effect.intent, act, act.grace.value)
  }

  /** An approved warning promises an act on its first sight: none stood under the act's key when it was approved. */
  lemma WhatAnOfferRecords(history: seq<Step>, j: nat, warned: WarningToRecord)
    requires OfferedAt(history, j, warned)
    ensures exists act: Intent :: ToldOf(history[j], Reach(history[..j]).rows, warned, act)
    ensures EffectLedger.WarningOf(Reach(history[..j]).rows, warned.effectId).None?
  {
    var effect :| effect in ApprovedBy(history[j], Reach(history[..j]).rows) && effect.records == Some(warned);
    WhatAWarningRests(history[j], Reach(history[..j]).rows, effect);
  }

  lemma AnEarnedWarningTells(pass: Step, rows: seq<Facts.Fact>, effect: Effect, capability: Capability, value: Option<Intent>)
    requires pass.Pass? && effect in ApprovedBy(pass, rows) && effect.records.Some? && NamesTheRecord(effect.intent, pass.facts)
    requires Earning(effect, capability, value, pass.capabilities, pass.facts, pass.config,
                     OverLedger(pass.externals, rows, pass.unreadable))
    ensures ToldOf(pass, rows, effect.records.value, Taken(value.value, pass.facts, pass.config))
    ensures EffectLedger.WarningOf(rows, effect.records.value.effectId).None?
  {
    var act := Taken(value.value, pass.facts, pass.config);
    AWarningPromisesItsAct(effect, act, capability.declaration, pass.facts, OverLedger(pass.externals, rows, pass.unreadable));
    assert ReturnedTo(pass, act);
  }

  lemma WhatAWarningRests(pass: Step, rows: seq<Facts.Fact>, effect: Effect)
    requires pass.Pass? && effect in ApprovedBy(pass, rows) && effect.records.Some?
    ensures exists act: Intent :: ToldOf(pass, rows, effect.records.value, act)
    ensures EffectLedger.WarningOf(rows, effect.records.value.effectId).None?
  {
    var externals := OverLedger(pass.externals, rows, pass.unreadable);
    WhatDecideApproves(pass.capabilities, pass.facts, pass.config, externals, effect);
    var capability, value :| Earning(effect, capability, value, pass.capabilities, pass.facts, pass.config, externals);
    AnEarnedWarningTells(pass, rows, effect, capability, value);
  }

  // ----- The theorem -----

  /** Offered, then landed, then left standing for all its grace with no activity since, before this pass acts. */
  ghost predicate WarnedFirst(history: seq<Step>, i: nat, j: nat, warned: WarningToRecord, at: int, pass: Step, act: Intent)
    requires pass.Pass?
  {
    && i < j < |history|
    && OfferedAt(history, i, warned) && LandedAt(history, j, warned, at)
    && warned.effectId == act.key
    && act.grace.Some?
    && GraceHonoured(WriteRequestFor(act), SnapshotOf(warned, at), act.grace.value.activityAt, pass.facts.observedAt)
    && pass.facts.observedAt.ms >= at + HOUR_MS
  }

  /** And the comment that offered it told of this very act: the same item, cause and change, in words of its own. */
  ghost predicate ToldFirst(history: seq<Step>, i: nat, warned: WarningToRecord, act: Intent, told: Intent) {
    && OfferedAt(history, i, warned)
    && ToldOf(history[i], Reach(history[..i]).rows, warned, told)
    && OccasionOf(told) == OccasionOf(act) && told.desired == act.desired
  }

  /** In one pass: a destructive effect is approved on the warning standing under its key, its grace honoured. */
  lemma AnApprovedActHasItsWarning(pass: Step, rows: seq<Facts.Fact>, effect: Effect)
    requires pass.Pass? && effect in ApprovedBy(pass, rows) && Destructive(effect.intent)
    ensures var standing := EffectLedger.WarningOf(rows, effect.intent.key);
            && effect.intent.grace.Some? && standing.Some?
            && effect.intent.key == KeyOf(OccasionOf(effect.intent))
            && GraceHonoured(WriteRequestFor(effect.intent), standing.value, effect.intent.grace.value.activityAt,
                             pass.facts.observedAt)
  {
    WhatADestructiveApprovalRestsOn(pass.capabilities, pass.facts, pass.config,
                                    OverLedger(pass.externals, rows, pass.unreadable), effect);
  }

  /** The words of a destructive change say whom or what it is done to: no two changes are worded alike. */
  lemma ChangesAreWordedApart(capability: string, a: Desired, b: Desired)
    requires ActionClassOf(a).ClockTriggeredDestructive? && OperationName(a) == OperationName(b)
    requires DescribeChange(capability, a) == DescribeChange(capability, b)
    ensures a == b
  {
    OperationDecides(a, b);
    var one, two := DescribeChange(capability, a), DescribeChange(capability, b);
    assert |OperationName(ReleaseAssignment(""))| != |OperationName(ClosePullRequest(""))|;
    if a.ReleaseAssignment? {
      assert one[8..] == a.login && two[8..] == b.login;
    } else {
      assert one[20..] == a.reason && two[20..] == b.reason;
    }
  }

  /** Under one key, a warning that matches an act was given for the same change to the same item. */
  lemma TheOfferToldOfTheAct(history: seq<Step>, i: nat, warned: WarningToRecord, at: int, act: Intent) returns (told: Intent)
    requires OfferedAt(history, i, warned) && Destructive(act)
    requires warned.effectId == act.key == KeyOf(OccasionOf(act))
    requires WarningMatches(SnapshotOf(warned, at), WriteRequestFor(act))
    ensures ToldFirst(history, i, warned, act, told)
  {
    WhatAnOfferRecords(history, i, warned);
    told :| ToldOf(history[i], Reach(history[..i]).rows, warned, told);
    KeysAreInjective(OccasionOf(told), OccasionOf(act));
    ChangesAreWordedApart(act.capability, act.desired, told.desired);
  }

  /**
   * The protocol. Whatever happened before, a destructive effect a pass approves was warned of first: an earlier pass
   * approved, on the act's first sight, a comment on its item that says the act's own words and tells of this very
   * change; it landed after that pass and before this one and stands under the act's own key for its own request; its
   * whole grace of at least an hour has run since it landed, and the person it affects did nothing at or after its second.
   */
  lemma EveryActWasWarned(history: seq<Step>, pass: Step, effect: Effect)
    requires Possible(history) && pass.Pass?
    requires effect in ApprovedBy(pass, Reach(history).rows) && Destructive(effect.intent)
    ensures exists i, j, warned, at, told: Intent ::
              WarnedFirst(history, i, j, warned, at, pass, effect.intent) && ToldFirst(history, i, warned, effect.intent, told)
  {
    AnApprovedActHasItsWarning(pass, Reach(history).rows, effect);
    var i, j, warned, at := StandingWasOfferedThenLanded(history, effect.intent.key);
    assert WarnedFirst(history, i, j, warned, at, pass, effect.intent);
    var told := TheOfferToldOfTheAct(history, i, warned, at, effect.intent);
  }

  // ----- What a standing warning is worth -----

  /** A warning of some destructive act on this occasion, with at least the floor of grace. */
  ghost predicate WarnsOf(warning: RecordedWarning, occasion: Occasion) {
    && At(warning.causeObservedAt) == occasion.cause.observedAt
    && warning.gracePeriodHours >= MIN_GRACE_HOURS as real
    && exists act: Intent :: OccasionOf(act) == occasion && Destructive(act) && WarningMatches(warning, WriteRequestFor(act))
  }

  lemma APromiseWarnsOf(warned: WarningToRecord, at: int, act: Intent, facts: Record, occasion: Occasion)
    requires Promises(warned, act, facts) && warned.effectId == KeyOf(occasion)
    ensures WarnsOf(SnapshotOf(warned, at), occasion)
  {
    KeysAreInjective(OccasionOf(act), occasion);
    assert WarningMatches(SnapshotOf(warned, at), WriteRequestFor(act));
  }

  /** What stands under an occasion's key is a warning for that very occasion: the key holds every part of it. */
  lemma AStandingWarningIsForItsOccasion(history: seq<Step>, occasion: Occasion)
    requires Possible(history)
    ensures var standing := EffectLedger.WarningOf(Reach(history).rows, KeyOf(occasion));
            standing.Some? ==> WarnsOf(standing.value, occasion)
  {
    if EffectLedger.WarningOf(Reach(history).rows, KeyOf(occasion)).Some? {
      var i, j, warned, at := StandingWasOfferedThenLanded(history, KeyOf(occasion));
      WhatAnOfferRecords(history, i, warned);
      var act: Intent :| ToldOf(history[i], Reach(history[..i]).rows, warned, act);
      APromiseWarnsOf(warned, at, act, history[i].facts, occasion);
    }
  }

  /**
   * A clock that is reset moves the occasion, so the act has a new key and no warning of the old occasion stands
   * under it: whatever stands there was warned of after the reset, for the new start.
   */
  lemma AResetClockNeedsANewWarning(history: seq<Step>, before: Occasion, after: Occasion)
    requires Possible(history)
    requires after == before.(cause := after.cause) && after.cause.observedAt != before.cause.observedAt
    ensures KeyOf(after) != KeyOf(before)
    ensures var standing := EffectLedger.WarningOf(Reach(history).rows, KeyOf(after));
            standing.Some? ==> At(standing.value.causeObservedAt) == after.cause.observedAt != before.cause.observedAt
  {
    KeysAreInjective(before, after);
    AStandingWarningIsForItsOccasion(history, after);
  }

  lemma OperationDecides(a: Desired, b: Desired)
    requires OperationName(a) == OperationName(b)
    ensures ActionClassOf(a) == ActionClassOf(b) && PermissionOf(a) == PermissionOf(b)
  {
    assert |OperationName(a)| == |OperationName(b)|;
    assert OperationName(a)[0] == OperationName(b)[0];
  }

  /**
   * The key holds the occasion and not the payload, so a standing warning is authority for an act of its occasion if
   * and only if it promised the same change.
   */
  lemma AuthorityIffTheSameChange(history: seq<Step>, act: Intent)
    requires Possible(history) && act.key == KeyOf(OccasionOf(act))
    ensures var standing := EffectLedger.WarningOf(Reach(history).rows, act.key);
            var change := DescribeChange(act.capability, act.desired);
            standing.Some? ==> (WarningMatches(standing.value, WriteRequestFor(act)) <==> standing.value.change == change)
  {
    AStandingWarningIsForItsOccasion(history, OccasionOf(act));
    var standing := EffectLedger.WarningOf(Reach(history).rows, act.key);
    if standing.Some? {
      assert WarnsOf(standing.value, OccasionOf(act));
      var warnedOf: Intent :| OccasionOf(warnedOf) == OccasionOf(act) && Destructive(warnedOf)
                              && WarningMatches(standing.value, WriteRequestFor(warnedOf));
      OperationDecides(warnedOf.desired, act.desired);
    }
  }

  /**
   * So of two people whose assignments to one issue went stale at the same instant, only the first warned of can be
   * released: their acts share a key, and while the first one's warning stands the second's act is refused on every pass.
   */
  lemma TheSecondOfTwoSameInstantReleasesIsRefused(history: seq<Step>, act: Intent, first: string, second: string,
                                                   activity: bool, config: Modes.Config, context: Context, now: Date)
    requires Possible(history) && act.key == KeyOf(OccasionOf(act))
    requires act.desired == ReleaseAssignment(second) && first != second
    requires EvaluatePreflight(context).None?
    requires var standing := EffectLedger.WarningOf(Reach(history).rows, act.key);
             standing.Some? && standing.value.change == DescribeChange(act.capability, ReleaseAssignment(first))
    ensures KeyOf(OccasionOf(act.(desired := ReleaseAssignment(first)))) == act.key
    ensures EvaluateDestructive(WriteRequestFor(act), EffectLedger.WarningOf(Reach(history).rows, act.key), activity,
                                config, context, now) == Refuse(WarningRequestMismatch)
  {
    var a, b := "release " + first, "release " + second;
    assert first == a[8..] && second == b[8..];
    AuthorityIffTheSameChange(history, act);
  }

  /** However long it waits and whatever else holds, this warning lets no act through. */
  ghost predicate NeverAuthorises(warning: RecordedWarning) {
    forall request, activity, config, context, now ::
      !EvaluateDestructive(request, Some(warning), activity, config, context, now).Apply?
  }

  /**
   * A landed warning names the end of its grace cut to a whole millisecond. It promises the grace the gate demands
   * exactly when that end, rounded as a double, is whole; otherwise no pass ever acts on it.
   */
  lemma APromiseIsFullIffWhole(warned: WarningToRecord, at: int)
    ensures var snapshot := SnapshotOf(warned, at);
            && (snapshot.earliestActionAt as real >= FullGraceEnds(snapshot)
                <==> IsWhole(GraceEnds(at, warned.gracePeriodHours)))
            && (!IsWhole(GraceEnds(at, warned.gracePeriodHours)) ==> NeverAuthorises(snapshot))
  {
  }

  /** A grace of a whole number of milliseconds always ends on one. */
  lemma WholeGraceEndsWhole(at: int, hours: real)
    requires IsWhole(hours * HOUR_MS as real)
    ensures IsWhole(GraceEnds(at, hours))
  {
    WholesAreExact((hours * HOUR_MS as real).Floor);
    WholesAreExact(at + (hours * HOUR_MS as real).Floor);
  }

  /**
   * Any other ends on one exactly when the sum is within half a step of a whole millisecond, the steps being those a
   * double of its size is held to: 4,096 to the millisecond from November 2004 to September 2039.
   */
  lemma GraceEndsWholeIff(at: int, hours: real)
    requires Grid(at as real + Rounded(hours * HOUR_MS as real)) > 1
    ensures var end := at as real + Rounded(hours * HOUR_MS as real);
            IsWhole(GraceEnds(at, hours)) <==> exists n: int :: WithinHalfAStep(end, n, Grid(end))
  {
    var end := at as real + Rounded(hours * HOUR_MS as real);
    if n: int :| WithinHalfAStep(end, n, Grid(end)) {
      RoundsToIff(end, n);
    }
    if IsWhole(GraceEnds(at, hours)) {
      RoundsToIff(end, GraceEnds(at, hours).Floor);
    }
  }

  lemma StepsOfThisEra(end: real)
    requires 0x100_0000_0000 as real <= end < 0x200_0000_0000 as real
    ensures Grid(end) == 4096
  {
    assert Pow2(12) == 4096;
    BitsAre(end, 12);
  }

  lemma StepsOfAnHour(graceMs: real)
    requires 0x20_0000 as real <= graceMs < 0x40_0000 as real
    ensures Grid(graceMs) == 0x8000_0000
  {
    assert Pow2(31) as real == 0x8000_0000 as real by {
      Pow2Adds(15, 16);
      assert Pow2(15) == 0x8000 && Pow2(16) == 0x1_0000;
    }
    BitsAre(graceMs, 31);
  }

  const NOVEMBER_2025 := 1_763_400_000_000

  lemma HalfwayIsNoStepFromWhole(whole: int, n: int)
    ensures !WithinHalfAStep(whole as real + 0.5, n, 4096)
  {
    if n <= whole {
      assert whole as real + 0.5 - n as real >= 0.5;
    } else {
      assert whole as real + 0.5 - n as real <= -0.5;
    }
  }

  lemma HalfwayIsHeldExactly(whole: int)
    requires 0x20_0000 <= whole < 0x40_0000 - 1
    ensures Rounded(whole as real + 0.5) == whole as real + 0.5
  {
    var graceMs := whole as real + 0.5;
    StepsOfAnHour(graceMs);
    OnTheGridIsExact(graceMs, 0x8000_0000, whole * 0x8000_0000 + 0x4000_0000);
  }

  /** An hour and a 256th: the screen admits it, it ends half-way into a millisecond, and its act is never let through. */
  lemma AGraceThatNeverEnds(act: Intent)
    requires Destructive(act) && act.grace.Some? && act.grace.value.hours == Some(1.00390625)
    ensures ScreenGrace(act).None?
    ensures NeverAuthorises(SnapshotOf(ToRecord(act, act.grace.value), NOVEMBER_2025))
  {
    var warned := ToRecord(act, act.grace.value);
    var whole := NOVEMBER_2025 + 3_614_062;
    var end := whole as real + 0.5;
    assert warned.gracePeriodHours * HOUR_MS as real == 3_614_062 as real + 0.5;
    HalfwayIsHeldExactly(3_614_062);
    StepsOfThisEra(end);
    forall n: int ensures !WithinHalfAStep(end, n, 4096) {
      HalfwayIsNoStepFromWhole(whole, n);
    }
    GraceEndsWholeIff(NOVEMBER_2025, warned.gracePeriodHours);
    APromiseIsFullIffWhole(warned, NOVEMBER_2025);
  }

  lemma NearlyWholeRoundsWhole(at: int, graceMs: real, whole: int)
    requires 0x20_0000 as real <= graceMs < 0x40_0000 as real
    requires 0x100_0000_0000 <= at < 0x1FF_0000_0000
    requires -0.000_01 <= graceMs - whole as real <= 0.000_01
    ensures Grid(at as real + Rounded(graceMs)) == 4096
    ensures WithinHalfAStep(at as real + Rounded(graceMs), at + whole, 4096)
  {
    StepsOfAnHour(graceMs);
    NearTo(graceMs, 0x8000_0000);
    assert -0.000_01 <= Rounded(graceMs) - graceMs <= 0.000_01;
    StepsOfThisEra(at as real + Rounded(graceMs));
  }

  /** The double nearest 1.1 is not a whole number of milliseconds either, but so nearly that its rounded end is. */
  lemma AGraceThatRoundsWhole()
    ensures var hours := 4_953_959_590_107_546.0 / 4_503_599_627_370_496.0;
            !IsWhole(hours * HOUR_MS as real) && IsWhole(GraceEnds(NOVEMBER_2025, hours))
  {
    var hours := 4_953_959_590_107_546.0 / 4_503_599_627_370_496.0;
    assert 3_960_000.0 < hours * HOUR_MS as real < 3_960_000.000_01;
    NearlyWholeRoundsWhole(NOVEMBER_2025, hours * HOUR_MS as real, 3_960_000);
    GraceEndsWholeIff(NOVEMBER_2025, hours);
  }
}
