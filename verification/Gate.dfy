/**
 * The safety gate. A capability's intents are screened, judged against the derived world and the ordered rules, and,
 * for an act a clock triggers, against the warning recorded for it. `Decide` composes them over every capability.
 */
module Gate {
  import opened Wrappers
  import opened Modes
  import opened Workflow
  import opened Intents
  import opened Hours
  import opened Doubles
  import Facts
  import Text

  type RecordedWarning = Facts.StoredWarning

  // ----- Verdicts -----

  datatype Refusal =
    | KillSwitch
    | WrongEntryPoint
    | PreventiveGateUnavailable
    | CapabilityDisabled
    | PermissionMissing
    | ItemClosed
    | ItemBlocked
    | PreconditionStale
    | NewerHumanChange
    | HumanOrderingUnknown
    | InvalidTimestamp
    | ModeDisabled
    | WrongActionClass
    | NoWarning
    | WarningRequestMismatch
    | InvalidDestructivePlan
    | GraceBelowFloor
    | GraceRunning
    | ActivityCancelled

  datatype RecordReason = Observation | ModeRecordsOnly

  datatype Verdict = Apply | RecordOnly(why: RecordReason) | Refuse(code: Refusal)

  // ----- Requests and contexts -----

  datatype WriteRequest = WriteRequest(
    requiredPermissions: seq<string>,
    actionClass: ActionClass,
    capability: string,
    causeObservedAt: Date,
    evaluatedAt: Option<Date>,
    cause: string,
    item: string,
    change: string)

  /** What is known of the newest change by a person: nothing, that there is none, or its date. */
  datatype HumanChange = Unknown | Never | Changed(at: Date)

  datatype Context = Context(grants: set<string>, killSwitchActive: bool, human: HumanChange, world: World)

  function WriteRequestFor(intent: Intent): WriteRequest {
    WriteRequest(
      [PermissionOf(intent.desired)],
      ActionClassOf(intent.desired),
      intent.capability,
      intent.cause.observedAt,
      intent.evaluatedAt,
      intent.cause.cause,
      intent.repository.owner + "/" + intent.repository.repo + "#" + Decimal(intent.item.number),
      DescribeChange(intent.capability, intent.desired))
  }

  /** The next level up on one resource's ladder: `write` covers `read`, never the reverse. */
  function WiderGrant(grant: string): Option<string> {
    if |grant| >= 5 && grant[|grant| - 5..] == ":read" then Some(grant[..|grant| - 5] + ":write") else None
  }

  predicate Granted(grant: string, held: set<string>) {
    grant in held || (WiderGrant(grant).Some? && WiderGrant(grant).value in held)
  }

  function MissingPermissions(required: seq<string>, held: set<string>): (missing: seq<string>)
    ensures missing == [] <==> forall grant :: grant in required ==> Granted(grant, held)
  {
    if required == [] then []
    else if Granted(required[0], held) then MissingPermissions(required[1..], held)
    else [required[0]] + MissingPermissions(required[1..], held)
  }

  // ----- The ordered rules -----

  function SecondOf(ms: int): int {
    ms / 1000
  }

  function EvaluatePreflight(context: Context): Option<Refusal> {
    if context.killSwitchActive then Some(KillSwitch)
    else if !context.world.preconditionHolds then Some(PreconditionStale)
    else None
  }

  /** The instant a request is judged at. */
  function JudgedAt(request: WriteRequest): Date {
    if request.evaluatedAt.Some? then request.evaluatedAt.value else request.causeObservedAt
  }

  predicate HasInvalidTimestamp(request: WriteRequest, human: HumanChange) {
    || request.causeObservedAt.Invalid?
    || request.evaluatedAt == Some(Date.Invalid)
    || human == Changed(Date.Invalid)
  }

  /** The change's second is that of the judged instant or a later one. */
  predicate HumanChangedSince(request: WriteRequest, human: HumanChange) {
    && human.Changed? && human.at.At? && JudgedAt(request).At?
    && SecondOf(human.at.ms) >= SecondOf(JudgedAt(request).ms)
  }

  function EvaluateGeneralRules(request: WriteRequest, config: Config, context: Context): Verdict {
    var mode := EffectiveModeOf(config, request.capability).mode;
    if request.actionClass.ObservationOnly? then RecordOnly(RecordReason.Observation)
    else if !Enabled(config, request.capability) then Refuse(CapabilityDisabled)
    else if MissingPermissions(request.requiredPermissions, context.grants) != [] then Refuse(PermissionMissing)
    else if context.world.closure.Some? then Refuse(ItemClosed)
    else if Blocked in context.world.observedMeanings then Refuse(ItemBlocked)
    else if context.human.Unknown? then Refuse(HumanOrderingUnknown)
    else if HasInvalidTimestamp(request, context.human) then Refuse(InvalidTimestamp)
    else if HumanChangedSince(request, context.human) then Refuse(NewerHumanChange)
    else if mode.Disabled? then Refuse(ModeDisabled)
    else if mode.Observe? || mode.DryRun? then RecordOnly(ModeRecordsOnly)
    else Apply
  }

  /** The ladder without its item's rungs: kill switch, class, consent, grants and mode. */
  function EvaluateStandingRules(required: seq<string>, actionClass: ActionClass, capability: string, config: Config,
                                 grants: set<string>, killSwitchActive: bool): Verdict
  {
    var mode := EffectiveModeOf(config, capability).mode;
    if killSwitchActive then Refuse(KillSwitch)
    else if actionClass.ObservationOnly? then RecordOnly(RecordReason.Observation)
    else if !Enabled(config, capability) then Refuse(CapabilityDisabled)
    else if MissingPermissions(required, grants) != [] then Refuse(PermissionMissing)
    else if mode.Disabled? then Refuse(ModeDisabled)
    else if mode.Observe? || mode.DryRun? then RecordOnly(ModeRecordsOnly)
    else Apply
  }

  function EvaluateWrite(request: WriteRequest, config: Config, context: Context): Verdict {
    if EvaluatePreflight(context).Some? then Refuse(EvaluatePreflight(context).value)
    else if request.actionClass.ClockTriggeredDestructive? then Refuse(WrongEntryPoint)
    else if request.actionClass.ImmediatePreventive? then Refuse(PreventiveGateUnavailable)
    else EvaluateGeneralRules(request, config, context)
  }

  // ----- Clock-triggered destructive acts -----

  function ActionClassName(actionClass: ActionClass): string {
    match actionClass
    case ObservationOnly => "observation"
    case HumanFacingOutput => "humanFacingOutput"
    case ReversibleStateChange => "reversibleStateChange"
    case ClockTriggeredDestructive => "clockTriggeredDestructive"
    case ImmediatePreventive => "immediatePreventive"
  }

  /** A warning is authority for one request and no other. */
  predicate WarningMatches(warning: RecordedWarning, request: WriteRequest) {
    && warning.actionClass == ActionClassName(request.actionClass)
    && warning.capability == request.capability
    && At(warning.causeObservedAt) == request.causeObservedAt
    && warning.cause == request.cause
    && warning.item == request.item
    && warning.change == request.change
  }

  /** The activity's second is the warning's or a later one; a date that holds no instant has no second. */
  predicate ActivitySince(activityAt: Option<Date>, warning: RecordedWarning) {
    && activityAt.Some? && activityAt.value.At?
    && SecondOf(activityAt.value.ms) >= SecondOf(warning.warnedAt)
  }

  /** The end of this many hours of grace, each step rounded as a double; it may fall inside a millisecond. */
  function GraceEnds(warnedAt: int, hours: real): real {
    Rounded(warnedAt as real + Rounded(hours * HOUR_MS as real))
  }

  function FullGraceEnds(warning: RecordedWarning): real {
    GraceEnds(warning.warnedAt, warning.gracePeriodHours)
  }

  function EvaluateDestructive(request: WriteRequest, warning: Option<RecordedWarning>, activity: bool, config: Config,
                               context: Context, now: Date): Verdict
  {
    if EvaluatePreflight(context).Some? then Refuse(EvaluatePreflight(context).value)
    else if !request.actionClass.ClockTriggeredDestructive? then Refuse(WrongActionClass)
    else if warning.None? then Refuse(NoWarning)
    else if !WarningMatches(warning.value, request) then Refuse(WarningRequestMismatch)
    else if Text.Blank(warning.value.cancelledBy) || Text.Blank(warning.value.reversesWith) || now.Invalid? then
      Refuse(InvalidDestructivePlan)
    else if warning.value.gracePeriodHours < MIN_GRACE_HOURS as real then Refuse(GraceBelowFloor)
    else if warning.value.warnedAt < warning.value.causeObservedAt
            || warning.value.earliestActionAt as real < FullGraceEnds(warning.value) then Refuse(InvalidDestructivePlan)
    else if now.ms < warning.value.earliestActionAt then Refuse(GraceRunning)
    else if activity then Refuse(ActivityCancelled)
    else EvaluateGeneralRules(request, config, context)
  }

  // ----- Judging one intent -----

  /** What an injected lookup did. */
  datatype Lookup<T> = Threw | Gave(value: T)

  datatype Externals = Externals(
    killSwitchActive: bool,
    grants: set<string>,
    evaluatedAt: Option<Date>,
    latestHumanChange: Item -> Lookup<HumanChange>,
    warningFor: string -> Lookup<Option<RecordedWarning>>)

  /** A warning authored and not yet posted; `effectId` is the act's, never the comment's. */
  datatype WarningToRecord = WarningToRecord(
    effectId: string,
    request: WriteRequest,
    gracePeriodHours: real,
    cancelledBy: string,
    reversesWith: string)

  datatype Effect = Effect(intent: Intent, records: Option<WarningToRecord>)

  datatype Finding =
    | Explained
    | Judged(verdict: Verdict)
    | WouldApply
    | Screened(code: ScreenCode)
    | OrderingLookupFailed
    | WarningLookupFailed
    | FactsUnread
    | UndeclaredResolver(resolver: string)
    | ResolverFailed(resolver: string)
    | CapabilityFailed
    | IntentsAfterSkip

  datatype Gated = Gated(findings: seq<Finding>, approved: Option<Effect>)

  /** The intent with its comment addressed: to the handle behind the name, or to the bare name where there is none. */
  function Addressed(intent: Intent, config: Config): Intent {
    if !intent.desired.PostManagedComment? || intent.desired.mention.None? then intent
    else
      var name, body := intent.desired.mention.value, intent.desired.body;
      var to := if name in config.principals then "@" + config.principals[name] else "`" + name + "`";
      intent.(desired := intent.desired.(body := to + " \U{2014} " + body))
  }

  predicate NamesTheRecord(intent: Intent, facts: Record) {
    intent.repository == facts.repository && intent.item == facts.item
  }

  /** The comment that warns of an act: its words, under a key of its own, claiming only that the item is open. */
  function WarningEffectFor(act: Intent, grace: Grace): Intent {
    act.(
      desired := PostManagedComment(Warning, if grace.topic.Some? then grace.topic else Some(""), grace.warningBody, None),
      claims := Claims([], [], Some(false), None),
      key := WarningKeyOf(act.key),
      grace := None)
  }

  function OutcomeOf(intent: Intent, verdict: Verdict, config: Config, records: Option<WarningToRecord>): Gated {
    var rehearsal := EffectiveModeOf(config, intent.capability).mode.DryRun? && verdict == RecordOnly(ModeRecordsOnly);
    Gated(
      (if verdict.Refuse? then [] else [Explained]) + [Judged(verdict)] + (if rehearsal then [WouldApply] else []),
      if verdict.Apply? then Some(Effect(intent, records)) else None)
  }

  function OrderingOf(item: Item, externals: Externals): HumanChange {
    match externals.latestHumanChange(item)
    case Threw => Unknown
    case Gave(human) => human
  }

  function ContextFor(request: Intent, facts: Record, externals: Externals): Context {
    Context(externals.grants, externals.killSwitchActive, OrderingOf(request.item, externals),
            DeriveWorld(Some(facts.position), request.claims, ModesOf(facts)))
  }

  /** What is judged: the intent addressed, and evaluated at the record's instant. */
  function Taken(intent: Intent, facts: Record, config: Config): Intent {
    Addressed(intent.(evaluatedAt := Some(facts.observedAt)), config)
  }

  /** And as it is handed on: dated by when the decision began. */
  function ForApply(intent: Intent, facts: Record, externals: Externals): Intent {
    intent.(evaluatedAt := Some(if externals.evaluatedAt.Some? then externals.evaluatedAt.value else facts.observedAt))
  }

  function ToRecord(act: Intent, grace: Grace): WarningToRecord {
    WarningToRecord(act.key, WriteRequestFor(act), if grace.hours.Some? then grace.hours.value else 0.0,
                    grace.cancelledBy, grace.reversesWith)
  }

  /** An intent that passed its screen and names the record, judged. */
  function Judge(intent: Intent, facts: Record, config: Config, externals: Externals): Gated {
    if intent.grace.None? then
      OutcomeOf(ForApply(intent, facts, externals),
                EvaluateWrite(WriteRequestFor(intent), config, ContextFor(intent, facts, externals)), config, None)
    else
      match externals.warningFor(intent.key)
      case Threw => Gated([WarningLookupFailed], None)
      case Gave(None) =>
        var warning := WarningEffectFor(intent, intent.grace.value);
        OutcomeOf(ForApply(warning, facts, externals),
                  EvaluateWrite(WriteRequestFor(warning), config, ContextFor(warning, facts, externals)), config,
                  Some(ToRecord(intent, intent.grace.value)))
      case Gave(Some(recorded)) =>
        OutcomeOf(ForApply(intent, facts, externals),
                  EvaluateDestructive(WriteRequestFor(intent), Some(recorded),
                                      ActivitySince(intent.grace.value.activityAt, recorded), config,
                                      ContextFor(intent, facts, externals), facts.observedAt), config, None)
  }

  /** One returned value through every gate; `None` is a value that is no intent. */
  function GateIntent(value: Option<Intent>, declaration: Declaration, facts: Record, config: Config,
                      externals: Externals): Gated
  {
    if value.None? then Gated([Screened(MalformedIntent)], None)
    else
      var intent := Taken(value.value, facts, config);
      var screen := ScreenIntent(intent, declaration, facts.position);
      if screen.Some? then Gated([Screened(screen.value)], None)
      else if !NamesTheRecord(intent, facts) then Gated([Judged(Refuse(PreconditionStale))], None)
      else
        var judged := Judge(intent, facts, config, externals);
        if externals.latestHumanChange(intent.item).Threw? then judged.(findings := [OrderingLookupFailed] + judged.findings)
        else judged
  }

  // ----- The verb -----

  /** What a capability's call came to. */
  datatype Returned = CallThrew | CallSkipped | NotAList | Intents(values: seq<Option<Intent>>)

  /** A capability: what it declared, what it said on the way, and what it returned. */
  datatype Capability = Capability(
    declaration: Declaration,
    explanations: nat,
    violations: seq<string>,
    failures: seq<string>,
    skipped: bool,
    returned: Returned)

  function IntentsOf(capability: Capability): seq<Option<Intent>> {
    if capability.returned.Intents? then capability.returned.values else []
  }

  predicate Wakes(declaration: Declaration, facts: Record, config: Config) {
    Enabled(config, declaration.name) && facts.kind in declaration.facts
  }

  predicate NeedsUnread(declaration: Declaration, facts: Record) {
    facts.kind in declaration.needs && declaration.needs[facts.kind] * facts.unread != {}
  }

  function Each<T, U>(f: T -> U, list: seq<T>): (mapped: seq<U>)
    ensures |mapped| == |list| && forall i :: 0 <= i < |list| ==> mapped[i] == f(list[i])
  {
    if list == [] then [] else [f(list[0])] + Each(f, list[1..])
  }

  /** What the handle and the call left to say, before any intent is gated. */
  function Remarks(capability: Capability): seq<Finding> {
    seq(capability.explanations, _ => Explained)
    + Each((resolver: string) => UndeclaredResolver(resolver), capability.violations)
    + Each((resolver: string) => ResolverFailed(resolver), capability.failures)
    + if capability.returned.CallThrew? || capability.returned.NotAList? then [CapabilityFailed] else []
  }

  datatype Outcome = Outcome(findings: seq<Finding>, approved: seq<Effect>)

  function Plus(a: Outcome, b: Outcome): Outcome {
    Outcome(a.findings + b.findings, a.approved + b.approved)
  }

  function OutcomeOfGated(gated: Gated): Outcome {
    Outcome(gated.findings, if gated.approved.Some? then [gated.approved.value] else [])
  }

  function GateAll(values: seq<Option<Intent>>, declaration: Declaration, facts: Record, config: Config,
                   externals: Externals): Outcome
  {
    if values == [] then Outcome([], [])
    else Plus(GateAll(values[..|values| - 1], declaration, facts, config, externals),
              OutcomeOfGated(GateIntent(values[|values| - 1], declaration, facts, config, externals)))
  }

  function OutcomeOfCapability(capability: Capability, facts: Record, config: Config, externals: Externals): Outcome {
    var declaration := capability.declaration;
    if !Wakes(declaration, facts, config) then Outcome([], [])
    else if NeedsUnread(declaration, facts) then Outcome([FactsUnread], [])
    else if !declaration.closed && facts.position.closedBy.Some? then Outcome([], [])
    else if capability.skipped && IntentsOf(capability) != [] then
      Outcome(Remarks(capability) + [IntentsAfterSkip], [])
    else Plus(Outcome(Remarks(capability), []), GateAll(IntentsOf(capability), declaration, facts, config, externals))
  }

  function OutcomeOfAll(capabilities: seq<Capability>, facts: Record, config: Config, externals: Externals): Outcome {
    if capabilities == [] then Outcome([], [])
    else Plus(OutcomeOfAll(capabilities[..|capabilities| - 1], facts, config, externals),
              OutcomeOfCapability(capabilities[|capabilities| - 1], facts, config, externals))
  }

  /** The gates, over one capability's intents in the order it returned them. */
  method GateEach(values: seq<Option<Intent>>, declaration: Declaration, facts: Record, config: Config,
                  externals: Externals) returns (findings: seq<Finding>, approved: seq<Effect>)
    ensures Outcome(findings, approved) == GateAll(values, declaration, facts, config, externals)
  {
    findings, approved := [], [];
    for i := 0 to |values|
      invariant Outcome(findings, approved) == GateAll(values[..i], declaration, facts, config, externals)
    {
      assert values[..i + 1][..i] == values[..i] && values[..i + 1][i] == values[i];
      var gated := GateIntent(values[i], declaration, facts, config, externals);
      findings := findings + gated.findings;
      if gated.approved.Some? {
        approved := approved + [gated.approved.value];
      }
    }
    assert values[..|values|] == values;
  }

  /** One capability's turn: asleep, unread, gone, refused for going on after a skip, or gated. */
  method Evaluate(capability: Capability, facts: Record, config: Config, externals: Externals)
    returns (findings: seq<Finding>, approved: seq<Effect>)
    ensures Outcome(findings, approved) == OutcomeOfCapability(capability, facts, config, externals)
  {
    var declaration := capability.declaration;
    if !Wakes(declaration, facts, config) {
      return [], [];
    }
    if NeedsUnread(declaration, facts) {
      return [FactsUnread], [];
    }
    if !declaration.closed && facts.position.closedBy.Some? {
      return [], [];
    }
    if capability.skipped && |IntentsOf(capability)| > 0 {
      return Remarks(capability) + [IntentsAfterSkip], [];
    }
    findings, approved := GateEach(IntentsOf(capability), declaration, facts, config, externals);
    findings := Remarks(capability) + findings;
    assert [] + approved == approved;
  }

  /** A record becomes a report and the effects that may act; `None` is an input that carried no record. */
  method Decide(facts: Option<Record>, config: Config, capabilities: seq<Capability>, externals: Externals)
    returns (findings: seq<Finding>, approved: seq<Effect>)
    ensures facts.None? ==> findings == [] && approved == []
    ensures facts.Some? ==> Outcome(findings, approved) == OutcomeOfAll(capabilities, facts.value, config, externals)
  {
    findings, approved := [], [];
    if facts.Some? {
      for c := 0 to |capabilities|
        invariant Outcome(findings, approved) == OutcomeOfAll(capabilities[..c], facts.value, config, externals)
      {
        assert capabilities[..c + 1][..c] == capabilities[..c] && capabilities[..c + 1][c] == capabilities[c];
        var said, allowed := Evaluate(capabilities[c], facts.value, config, externals);
        findings, approved := findings + said, approved + allowed;
      }
      assert capabilities[..|capabilities|] == capabilities;
    }
  }

  // ----- What the rules let through -----

  /** Every general rule passes: an unordered reading of the ordered rules. */
  predicate EveryRulePasses(request: WriteRequest, config: Config, context: Context) {
    && !request.actionClass.ObservationOnly?
    && Enabled(config, request.capability)
    && EffectiveModeOf(config, request.capability).mode.Active?
    && (forall grant :: grant in request.requiredPermissions ==> Granted(grant, context.grants))
    && context.world.closure.None?
    && Blocked !in context.world.observedMeanings
    && request.causeObservedAt.At? && JudgedAt(request).At?
    && (context.human.Never?
        || (context.human.Changed? && context.human.at.At?
            && SecondOf(context.human.at.ms) < SecondOf(JudgedAt(request).ms)))
  }

  lemma GeneralRulesApplyIff(request: WriteRequest, config: Config, context: Context)
    ensures EvaluateGeneralRules(request, config, context).Apply? <==> EveryRulePasses(request, config, context)
  {
  }

  /** A standing gate never lets through less than the whole ladder: what passes every rule passes the standing ones. */
  lemma StandingRulesAreNecessary(request: WriteRequest, config: Config, context: Context)
    ensures var standing := EvaluateStandingRules(request.requiredPermissions, request.actionClass, request.capability,
                                                  config, context.grants, context.killSwitchActive);
            && (EvaluateWrite(request, config, context).Apply? ==> standing.Apply?)
            && (EvaluateWrite(request, config, context).RecordOnly? ==> standing == EvaluateWrite(request, config, context))
  {
  }

  /** The warning has stood for its whole grace, which is at least the floor, and nobody it affects acted since. */
  predicate GraceHonoured(request: WriteRequest, warning: RecordedWarning, activityAt: Option<Date>, now: Date) {
    && WarningMatches(warning, request)
    && warning.gracePeriodHours >= MIN_GRACE_HOURS as real
    && warning.causeObservedAt <= warning.warnedAt
    && now.At? && now.ms >= warning.earliestActionAt && now.ms as real >= FullGraceEnds(warning)
    && now.ms as real >= warning.warnedAt as real + warning.gracePeriodHours * HOUR_MS as real - 1.0
    && now.ms >= warning.warnedAt + HOUR_MS
    && !ActivitySince(activityAt, warning)
  }

  lemma DestructiveAppliesOnlyAfterGrace(request: WriteRequest, warning: Option<RecordedWarning>, activityAt: Option<Date>,
                                         config: Config, context: Context, now: Date)
    requires warning.Some?
    ensures var activity := ActivitySince(activityAt, warning.value);
            EvaluateDestructive(request, warning, activity, config, context, now).Apply? ==>
              && GraceHonoured(request, warning.value, activityAt, now)
              && !context.killSwitchActive && context.world.preconditionHolds && EveryRulePasses(request, config, context)
  {
    GeneralRulesApplyIff(request, config, context);
    GraceEndsNearby(warning.value.warnedAt, warning.value.gracePeriodHours);
  }

  /** Rounding costs a grace less than a millisecond in all, and never brings it below a whole floor. */
  lemma GraceEndsNearby(warnedAt: int, hours: real)
    ensures GraceEnds(warnedAt, hours) >= warnedAt as real + hours * HOUR_MS as real - 1.0
    ensures hours >= MIN_GRACE_HOURS as real ==> GraceEnds(warnedAt, hours) >= (warnedAt + HOUR_MS) as real
  {
    var graceMs := hours * HOUR_MS as real;
    RoundingIsNear(graceMs);
    RoundingIsNear(warnedAt as real + Rounded(graceMs));
    RoundingKeepsSides(graceMs, HOUR_MS);
    RoundingKeepsSides(warnedAt as real + Rounded(graceMs), warnedAt + HOUR_MS);
  }

  /** A warning is authority for one request: two that it matches agree in all that a person was told. */
  lemma AWarningIsForOneRequest(warning: RecordedWarning, a: WriteRequest, b: WriteRequest)
    requires WarningMatches(warning, a) && WarningMatches(warning, b)
    ensures a.actionClass == b.actionClass && a.capability == b.capability && a.item == b.item && a.change == b.change
    ensures a.cause == b.cause && a.causeObservedAt == b.causeObservedAt
  {
    ClassesAreNamedApart(a.actionClass, b.actionClass);
  }

  lemma ClassesAreNamedApart(a: ActionClass, b: ActionClass)
    ensures ActionClassName(a) == ActionClassName(b) <==> a == b
  {
    var x, y := ActionClassName(a), ActionClassName(b);
    assert |x| == |y| && x[0] == y[0] && x[2] == y[2] ==> a == b;
  }

  /** Activity cancels from the first millisecond of the warning's own second on. */
  lemma ActivityCancelsFromItsSecond(ms: int, warning: RecordedWarning)
    ensures ActivitySince(Some(At(ms)), warning) <==> ms >= warning.warnedAt - warning.warnedAt % 1000
    ensures !ActivitySince(None, warning) && !ActivitySince(Some(Date.Invalid), warning)
  {
  }

  // ----- What one intent may become -----

  /** What a repository must allow, and an item be, for any write of this permission. */
  predicate Allows(capability: string, permission: string, facts: Record, config: Config, externals: Externals) {
    && Enabled(config, capability)
    && EffectiveModeOf(config, capability).mode.Active?
    && !externals.killSwitchActive
    && Granted(permission, externals.grants)
    && facts.position.Position? && facts.position.closedBy.None? && !facts.position.blocked
    && Blocked !in ObservedMeanings(facts.position)
    && facts.observedAt.At?
    && var human := externals.latestHumanChange(facts.item);
      human.Gave? && (human.value.Never?
                      || (human.value.Changed? && human.value.at.At?
                          && SecondOf(human.value.at.ms) < SecondOf(facts.observedAt.ms)))
  }

  /** What holds of every approved effect, warned or acting. */
  predicate Permitted(effect: Effect, facts: Record, config: Config, externals: Externals) {
    var intent := effect.intent;
    && NamesTheRecord(intent, facts)
    && Allows(intent.capability, PermissionOf(intent.desired), facts, config, externals)
    && ExpectedHolds(intent.claims, facts.position, ModesOf(facts))
  }

  predicate Destructive(intent: Intent) {
    ActionClassOf(intent.desired).ClockTriggeredDestructive?
  }

  /** An acting effect passed its capability's screen, and a destructive one its recorded warning's grace. */
  predicate Acts(effect: Effect, act: Intent, declaration: Declaration, facts: Record, externals: Externals) {
    && effect.records.None?
    && effect.intent == ForApply(act, facts, externals)
    && ScreenIntent(act, declaration, facts.position).None?
    && (Destructive(act) ==>
          var recorded := externals.warningFor(act.key);
          && act.grace.Some? && recorded.Gave? && recorded.value.Some?
          && GraceHonoured(WriteRequestFor(act), recorded.value.value, act.grace.value.activityAt, facts.observedAt))
  }

  /** A warning effect only posts a comment, for a screened act no warning stands for, and records that act. */
  predicate Warns(effect: Effect, act: Intent, declaration: Declaration, facts: Record, externals: Externals) {
    && act.grace.Some? && Destructive(act)
    && effect.records == Some(ToRecord(act, act.grace.value))
    && effect.intent == ForApply(WarningEffectFor(act, act.grace.value), facts, externals)
    && ScreenIntent(act, declaration, facts.position).None?
    && externals.warningFor(act.key) == Gave(None)
  }

  lemma WhatAnIntentMayBecome(value: Option<Intent>, declaration: Declaration, facts: Record, config: Config,
                              externals: Externals)
    requires GateIntent(value, declaration, facts, config, externals).approved.Some?
    ensures value.Some?
    ensures var effect := GateIntent(value, declaration, facts, config, externals).approved.value;
            var act := Taken(value.value, facts, config);
            && Permitted(effect, facts, config, externals)
            && (Acts(effect, act, declaration, facts, externals) || Warns(effect, act, declaration, facts, externals))
  {
    JudgingPermits(Taken(value.value, facts, config), facts, config, externals);
  }

  /** What judging an intent about the record may approve: the act itself, its grace honoured, or its warning. */
  lemma JudgingPermits(act: Intent, facts: Record, config: Config, externals: Externals)
    requires NamesTheRecord(act, facts) && act.evaluatedAt == Some(facts.observedAt)
    requires ScreenGrace(act).None?
    requires Judge(act, facts, config, externals).approved.Some?
    ensures var effect := Judge(act, facts, config, externals).approved.value;
            && Permitted(effect, facts, config, externals)
            && if act.grace.Some? && externals.warningFor(act.key) == Gave(None) then
                 effect == Effect(ForApply(WarningEffectFor(act, act.grace.value), facts, externals),
                                  Some(ToRecord(act, act.grace.value)))
               else
                 && effect == Effect(ForApply(act, facts, externals), None)
                 && (Destructive(act) ==>
                       var recorded := externals.warningFor(act.key);
                       && act.grace.Some? && recorded.Gave? && recorded.value.Some?
                       && GraceHonoured(WriteRequestFor(act), recorded.value.value, act.grace.value.activityAt,
                                        facts.observedAt))
  {
    if act.grace.None? {
      GeneralRulesApplyIff(WriteRequestFor(act), config, ContextFor(act, facts, externals));
      JudgedPermits(act, facts, config, externals);
    } else if externals.warningFor(act.key) == Gave(None) {
      var warning := WarningEffectFor(act, act.grace.value);
      GeneralRulesApplyIff(WriteRequestFor(warning), config, ContextFor(warning, facts, externals));
      JudgedPermits(warning, facts, config, externals);
    } else {
      var recorded := externals.warningFor(act.key).value;
      DestructiveAppliesOnlyAfterGrace(WriteRequestFor(act), recorded, act.grace.value.activityAt, config,
                                       ContextFor(act, facts, externals), facts.observedAt);
      JudgedPermits(act, facts, config, externals);
    }
  }

  /** A request for this record that passes the preflight and every rule permits what it asks. */
  lemma JudgedPermits(intent: Intent, facts: Record, config: Config, externals: Externals)
    requires NamesTheRecord(intent, facts) && intent.evaluatedAt == Some(facts.observedAt)
    requires EvaluatePreflight(ContextFor(intent, facts, externals)).None?
    requires EveryRulePasses(WriteRequestFor(intent), config, ContextFor(intent, facts, externals))
    ensures Permitted(Effect(ForApply(intent, facts, externals), None), facts, config, externals)
  {
    assert PermissionOf(intent.desired) in WriteRequestFor(intent).requiredPermissions;
    assert facts.position.blocked ==> Blocked in Present(facts.position);
  }

  /** The recorded warning states a whole plan, and its grace is honoured. */
  predicate GraceStands(act: Intent, facts: Record, externals: Externals) {
    var recorded := externals.warningFor(act.key);
    && act.grace.Some? && recorded.Gave? && recorded.value.Some?
    && var warning := recorded.value.value;
      && !Text.Blank(warning.cancelledBy) && !Text.Blank(warning.reversesWith)
      && warning.earliestActionAt as real >= FullGraceEnds(warning)
      && GraceHonoured(WriteRequestFor(act), warning, act.grace.value.activityAt, facts.observedAt)
  }

  /**
   * And the other way: a screened intent about the record is let through to act exactly when all of it is permitted
   * and, for a destructive act, its recorded warning's grace is honoured.
   */
  lemma AnActIsApprovedIff(value: Intent, declaration: Declaration, facts: Record, config: Config, externals: Externals)
    ensures var act := Taken(value, facts, config);
            var acting := Effect(ForApply(act, facts, externals), None);
            GateIntent(Some(value), declaration, facts, config, externals).approved == Some(acting)
            <==> ScreenIntent(act, declaration, facts.position).None?
                 && Permitted(acting, facts, config, externals)
                 && (Destructive(act) ==> GraceStands(act, facts, externals))
  {
    var act := Taken(value, facts, config);
    var acting := Effect(ForApply(act, facts, externals), None);
    if GateIntent(Some(value), declaration, facts, config, externals).approved == Some(acting) {
      WhatAnIntentMayBecome(Some(value), declaration, facts, config, externals);
    }
    if ScreenIntent(act, declaration, facts.position).None? && Permitted(acting, facts, config, externals) {
      GeneralRulesApplyIff(WriteRequestFor(act), config, ContextFor(act, facts, externals));
    }
  }

  /**
   * The gate refuses nothing of its own making: a label move built from the record, its cause left to the map and no
   * claim overridden, is approved exactly when the repository and the item allow it.
   */
  lemma ABuiltMoveIsApprovedIffAllowed(declaration: Declaration, facts: Record, request: Request, config: Config,
                                       externals: Externals)
    requires facts.kind == facts.item.kind
    requires request.wanted.Label? && request.wanted.cause.None? && request.claims == NO_OVERRIDES && request.grace.None?
    requires "applyMappedLabel" in declaration.intents && request.wanted.meaning in declaration.labels
    requires BuildIntent(declaration.name, facts, request).Intends?
    ensures var built := BuildIntent(declaration.name, facts, request).intent;
            var approved := GateIntent(Some(built), declaration, facts, config, externals).approved;
            approved.Some? <==> Allows(declaration.name, "issues:write", facts, config, externals)
  {
    var built := BuildIntent(declaration.name, facts, request).intent;
    ADefaultedCausePassesTheScreen(declaration.name, facts, request);
    ABuiltKeyRederives(declaration.name, facts, request);
    DerivedClaimsHold(declaration.name, facts, request);
    AnActIsApprovedIff(built, declaration, facts, config, externals);
    if GateIntent(Some(built), declaration, facts, config, externals).approved.Some? {
      WhatAnIntentMayBecome(Some(built), declaration, facts, config, externals);
    }
  }

  /** A destructive act's first sight is approved only as its warning, and exactly when the warning is permitted. */
  lemma FirstSightOnlyWarns(value: Intent, declaration: Declaration, facts: Record, config: Config, externals: Externals)
    requires Destructive(value) && value.grace.Some? && externals.warningFor(value.key) == Gave(None)
    ensures var act := Taken(value, facts, config);
            var warning := Effect(ForApply(WarningEffectFor(act, act.grace.value), facts, externals),
                                  Some(ToRecord(act, act.grace.value)));
            var approved := GateIntent(Some(value), declaration, facts, config, externals).approved;
            && (approved.Some? ==> approved.value == warning)
            && (approved.Some? <==> ScreenIntent(act, declaration, facts.position).None?
                                    && Permitted(warning, facts, config, externals))
            && !Destructive(warning.intent)
  {
    var act := Taken(value, facts, config);
    if GateIntent(Some(value), declaration, facts, config, externals).approved.Some? {
      WhatAnIntentMayBecome(Some(value), declaration, facts, config, externals);
    }
    var warning := WarningEffectFor(act, act.grace.value);
    if Permitted(Effect(ForApply(warning, facts, externals), None), facts, config, externals) {
      GeneralRulesApplyIff(WriteRequestFor(warning), config, ContextFor(warning, facts, externals));
    }
  }

  /** The comment a person reads before an act: its own words, on its item and for its cause, and no act in itself. */
  predicate Tells(said: Intent, act: Intent, grace: Grace) {
    && said.desired == PostManagedComment(Warning, Some(if grace.topic.Some? then grace.topic.value else ""),
                                          grace.warningBody, None)
    && said.repository == act.repository && said.item == act.item
    && said.capability == act.capability && said.cause == act.cause
    && said.grace.None? && said.claims == Claims([], [], Some(false), None)
    && said.key == WarningKeyOf(act.key)
  }

  /** What is to be written down of an act when its warning's comment appears. */
  predicate RecordsTheAct(warned: WarningToRecord, act: Intent, grace: Grace) {
    && warned.effectId == act.key
    && grace.hours == Some(warned.gracePeriodHours)
    && warned.cancelledBy == grace.cancelledBy && warned.reversesWith == grace.reversesWith
    && warned.request.capability == act.capability && warned.request.actionClass == ActionClassOf(act.desired)
    && warned.request.cause == act.cause.cause && warned.request.causeObservedAt == act.cause.observedAt
    && warned.request.change == DescribeChange(act.capability, act.desired)
    && warned.request.item == act.repository.owner + "/" + act.repository.repo + "#" + Decimal(act.item.number)
  }

  /**
   * The warning a first sight approves says to the person what the capability gave it to say, on the act's own item,
   * and records the act as returned: its key, its terms and its change.
   */
  lemma TheWarningSaysTheActsWords(value: Intent, declaration: Declaration, facts: Record, config: Config,
                                   externals: Externals)
    requires Destructive(value) && value.grace.Some? && externals.warningFor(value.key) == Gave(None)
    ensures var approved := GateIntent(Some(value), declaration, facts, config, externals).approved;
            approved.Some? ==>
              && Tells(approved.value.intent, value, value.grace.value)
              && NamesTheRecord(approved.value.intent, facts)
              && approved.value.records.Some?
              && RecordsTheAct(approved.value.records.value, value, value.grace.value)
  {
    FirstSightOnlyWarns(value, declaration, facts, config, externals);
  }

  /** A comment's address stands ahead of its words: a principal's handle, or the bare name of nobody known. */
  predicate AddressedTo(name: string, words: string, body: string, config: Config) {
    && (name in config.principals ==> body == "@" + config.principals[name] + " \U{2014} " + words)
    && (name !in config.principals ==> body == "`" + name + "` \U{2014} " + words)
  }

  /**
   * An approved act is the intent the capability returned: nothing of it is changed but the date it is handed on under
   * and, for a comment that mentions somebody, the address put ahead of its words.
   */
  lemma AnApprovedActIsTheReturnedOne(value: Intent, declaration: Declaration, facts: Record, config: Config,
                                      externals: Externals)
    ensures var approved := GateIntent(Some(value), declaration, facts, config, externals).approved;
            approved.Some? && approved.value.records.None? ==>
              var act := approved.value.intent;
              && act == value.(desired := act.desired, evaluatedAt := act.evaluatedAt)
              && act.evaluatedAt == Some(if externals.evaluatedAt.Some? then externals.evaluatedAt.value else facts.observedAt)
              && (!value.desired.PostManagedComment? || value.desired.mention.None? ==> act.desired == value.desired)
              && (value.desired.PostManagedComment? && value.desired.mention.Some? ==>
                    && act.desired.PostManagedComment?
                    && act.desired == value.desired.(body := act.desired.body)
                    && AddressedTo(value.desired.mention.value, value.desired.body, act.desired.body, config))
  {
    var approved := GateIntent(Some(value), declaration, facts, config, externals).approved;
    if approved.Some? && approved.value.records.None? {
      WhatAnIntentMayBecome(Some(value), declaration, facts, config, externals);
      AddressingKeepsTheRest(value.(evaluatedAt := Some(facts.observedAt)), config);
    }
  }

  lemma AddressingKeepsTheRest(intent: Intent, config: Config)
    ensures var to := Addressed(intent, config);
            && to == intent.(desired := to.desired)
            && (!intent.desired.PostManagedComment? || intent.desired.mention.None? ==> to == intent)
            && (intent.desired.PostManagedComment? && intent.desired.mention.Some? ==>
                  && to.desired.PostManagedComment?
                  && to.desired == intent.desired.(body := to.desired.body)
                  && AddressedTo(intent.desired.mention.value, intent.desired.body, to.desired.body, config))
  {
    if intent.desired.PostManagedComment? && intent.desired.mention.Some? {
      var name, words := intent.desired.mention.value, intent.desired.body;
      assert "`" + name + "`" + " \U{2014} " + words == "`" + name + "` \U{2014} " + words;
    }
  }

  // ----- What a decision may approve -----

  /** This capability returned this act, and the effect is what it became. */
  predicate Earning(effect: Effect, capability: Capability, value: Option<Intent>, capabilities: seq<Capability>,
                    facts: Record, config: Config, externals: Externals)
  {
    && capability in capabilities && value in IntentsOf(capability) && value.Some?
    && Wakes(capability.declaration, facts, config)
    && var act := Taken(value.value, facts, config);
      || Acts(effect, act, capability.declaration, facts, externals)
      || Warns(effect, act, capability.declaration, facts, externals)
  }

  ghost predicate Earned(effect: Effect, capabilities: seq<Capability>, facts: Record, config: Config, externals: Externals) {
    exists capability, value :: Earning(effect, capability, value, capabilities, facts, config, externals)
  }

  lemma {:induction false} WhatGateAllApproves(values: seq<Option<Intent>>, declaration: Declaration, facts: Record,
                                               config: Config, externals: Externals, effect: Effect)
    requires effect in GateAll(values, declaration, facts, config, externals).approved
    ensures Permitted(effect, facts, config, externals)
    ensures exists value :: value in values && value.Some?
              && var act := Taken(value.value, facts, config);
                || Acts(effect, act, declaration, facts, externals) || Warns(effect, act, declaration, facts, externals)
  {
    var last, before := values[|values| - 1], values[..|values| - 1];
    if effect in GateAll(before, declaration, facts, config, externals).approved {
      WhatGateAllApproves(before, declaration, facts, config, externals, effect);
    } else {
      WhatAnIntentMayBecome(last, declaration, facts, config, externals);
    }
  }

  /**
   * The safety theorem. Whatever the capabilities return, every effect a decision approves is permitted in full, and
   * is either an act its capability was screened for or the warning for one.
   */
  lemma {:induction false} WhatDecideApproves(capabilities: seq<Capability>, facts: Record, config: Config,
                                              externals: Externals, effect: Effect)
    requires effect in OutcomeOfAll(capabilities, facts, config, externals).approved
    ensures Permitted(effect, facts, config, externals)
    ensures Earned(effect, capabilities, facts, config, externals)
  {
    var last, before := capabilities[|capabilities| - 1], capabilities[..|capabilities| - 1];
    if effect in OutcomeOfAll(before, facts, config, externals).approved {
      WhatDecideApproves(before, facts, config, externals, effect);
      var capability, value :| Earning(effect, capability, value, before, facts, config, externals);
      assert Earning(effect, capability, value, capabilities, facts, config, externals);
    } else {
      assert effect in GateAll(IntentsOf(last), last.declaration, facts, config, externals).approved;
      WhatGateAllApproves(IntentsOf(last), last.declaration, facts, config, externals, effect);
      var value :| value in IntentsOf(last) && value.Some?
        && (Acts(effect, Taken(value.value, facts, config), last.declaration, facts, externals)
            || Warns(effect, Taken(value.value, facts, config), last.declaration, facts, externals));
      assert Earning(effect, last, value, capabilities, facts, config, externals);
    }
  }

  /** The recorded warning a destructive effect stands on. */
  predicate RestsOnItsWarning(effect: Effect, facts: Record, externals: Externals) {
    var recorded := externals.warningFor(effect.intent.key);
    && effect.intent.grace.Some? && recorded.Gave? && recorded.value.Some?
    && effect.intent.key == KeyOf(OccasionOf(effect.intent))
    && GraceHonoured(WriteRequestFor(effect.intent), recorded.value.value, effect.intent.grace.value.activityAt,
                     facts.observedAt)
  }

  lemma ActingRestsOnItsWarning(effect: Effect, act: Intent, declaration: Declaration, facts: Record, externals: Externals)
    requires Destructive(effect.intent)
    ensures Acts(effect, act, declaration, facts, externals) || Warns(effect, act, declaration, facts, externals) ==>
              RestsOnItsWarning(effect, facts, externals)
  {
  }

  /** Whatever the capabilities return, a destructive effect rests on a recorded warning whose grace is honoured. */
  lemma WhatADestructiveApprovalRestsOn(capabilities: seq<Capability>, facts: Record, config: Config,
                                        externals: Externals, effect: Effect)
    requires effect in OutcomeOfAll(capabilities, facts, config, externals).approved && Destructive(effect.intent)
    ensures RestsOnItsWarning(effect, facts, externals)
  {
    WhatDecideApproves(capabilities, facts, config, externals, effect);
    var capability, value :| Earning(effect, capability, value, capabilities, facts, config, externals);
    ActingRestsOnItsWarning(effect, Taken(value.value, facts, config), capability.declaration, facts, externals);
  }

  /** With no capability in `active`, nothing is approved, whatever the capabilities return. */
  lemma NothingIsApprovedUnlessActive(capabilities: seq<Capability>, facts: Record, config: Config, externals: Externals)
    requires forall name :: !EffectiveModeOf(config, name).mode.Active?
    ensures OutcomeOfAll(capabilities, facts, config, externals).approved == []
  {
    var approved := OutcomeOfAll(capabilities, facts, config, externals).approved;
    if approved != [] {
      WhatDecideApproves(capabilities, facts, config, externals, approved[0]);
    }
  }

  /** Lowered below `active`, a file approves nothing. */
  lemma LoweredBelowActiveApprovesNothing(capabilities: seq<Capability>, facts: Record, config: Config, ceiling: Mode,
                                          externals: Externals)
    requires !ceiling.Active?
    ensures OutcomeOfAll(capabilities, facts, Lowered(config, ceiling), externals).approved == []
  {
    var lowered := Lowered(config, ceiling);
    forall name ensures !EffectiveModeOf(lowered, name).mode.Active? {
      LoweringIsTheMinimum(config, ceiling, name);
    }
    NothingIsApprovedUnlessActive(capabilities, facts, lowered, externals);
  }

  /** Whatever is approved was granted: closing needs pull requests to be writable, and all else issues. */
  lemma WhatIsApprovedWasGranted(capabilities: seq<Capability>, facts: Record, config: Config, externals: Externals,
                                 effect: Effect)
    requires effect in OutcomeOfAll(capabilities, facts, config, externals).approved
    ensures (if effect.intent.desired.ClosePullRequest? then "pull_requests:write" else "issues:write") in externals.grants
  {
    WhatDecideApproves(capabilities, facts, config, externals, effect);
    OperationsNeedWrites(effect.intent.desired, externals.grants);
  }

  lemma OperationsNeedWrites(desired: Desired, held: set<string>)
    ensures Granted(PermissionOf(desired), held) <==>
              (if desired.ClosePullRequest? then "pull_requests:write" else "issues:write") in held
  {
    WritesAreGrantedThemselves("pull_requests", held);
    WritesAreGrantedThemselves("issues", held);
    assert "pull_requests" + ":write" == "pull_requests:write" && "issues" + ":write" == "issues:write";
  }

  /** A write is granted by itself alone, and a read by itself or by its write. */
  lemma WritesAreGrantedThemselves(resource: string, held: set<string>)
    ensures Granted(resource + ":write", held) <==> resource + ":write" in held
    ensures Granted(resource + ":read", held) <==> resource + ":read" in held || resource + ":write" in held
  {
    var read, write := resource + ":read", resource + ":write";
    assert read[|read| - 5..] == ":read" && read[..|read| - 5] == resource;
    assert write[|write| - 5..] == "write";
  }

  /** A capability is heard only enabled and awake to the item, with all it needs read; asleep it leaves no trace. */
  lemma WhoIsHeard(capability: Capability, facts: Record, config: Config, externals: Externals)
    ensures var outcome := OutcomeOfCapability(capability, facts, config, externals);
            var declaration := capability.declaration;
            var awake := Enabled(config, declaration.name) && facts.kind in declaration.facts;
            && (!awake ==> outcome == Outcome([], []))
            && (outcome.approved != [] ==>
                  && awake
                  && (facts.kind in declaration.needs ==>
                        forall group :: group in declaration.needs[facts.kind] ==> group !in facts.unread)
                  && (facts.position.closedBy.Some? ==> declaration.closed)
                  && !capability.skipped && capability.returned.Intents?)
  {
    assert GateAll([], capability.declaration, facts, config, externals).approved == [];
    if facts.kind in capability.declaration.needs {
      var needed := capability.declaration.needs[facts.kind];
      assert forall group :: group in needed && group in facts.unread ==> group in needed * facts.unread;
    }
  }

  /** And one that is so heard has all its intents gated; one unread, or going on after a skip, is told of and has none. */
  lemma TheHeardAreGated(capability: Capability, facts: Record, config: Config, externals: Externals)
    requires Wakes(capability.declaration, facts, config)
    ensures var outcome := OutcomeOfCapability(capability, facts, config, externals);
            var unread := NeedsUnread(capability.declaration, facts);
            var gone := facts.position.closedBy.Some? && !capability.declaration.closed;
            var goesOn := capability.skipped && IntentsOf(capability) != [];
            && (unread ==> outcome == Outcome([FactsUnread], []))
            && (!unread && gone ==> outcome == Outcome([], []))
            && (!unread && !gone && goesOn ==> IntentsAfterSkip in outcome.findings && outcome.approved == [])
            && (!unread && !gone && !goesOn ==>
                  outcome.approved == GateAll(IntentsOf(capability), capability.declaration, facts, config, externals).approved)
  {
    var remarks := Remarks(capability) + [IntentsAfterSkip];
    assert remarks[|remarks| - 1] == IntentsAfterSkip;
  }

  lemma OutcomesMentionNoLookup(intent: Intent, verdict: Verdict, config: Config, records: Option<WarningToRecord>)
    ensures var findings := OutcomeOf(intent, verdict, config, records).findings;
            OrderingLookupFailed !in findings && WarningLookupFailed !in findings
  {
  }

  lemma JudgingReports(act: Intent, facts: Record, config: Config, externals: Externals)
    ensures var findings := Judge(act, facts, config, externals).findings;
            && OrderingLookupFailed !in findings
            && (WarningLookupFailed in findings <==> act.grace.Some? && externals.warningFor(act.key).Threw?)
  {
    if !(act.grace.Some? && externals.warningFor(act.key).Threw?) {
      JudgingIsAnOutcome(act, facts, config, externals);
    }
  }

  lemma JudgingIsAnOutcome(act: Intent, facts: Record, config: Config, externals: Externals)
    requires act.grace.None? || externals.warningFor(act.key).Gave?
    ensures OrderingLookupFailed !in Judge(act, facts, config, externals).findings
    ensures WarningLookupFailed !in Judge(act, facts, config, externals).findings
  {
    forall intent, verdict, records
      ensures OrderingLookupFailed !in OutcomeOf(intent, verdict, config, records).findings
              && WarningLookupFailed !in OutcomeOf(intent, verdict, config, records).findings
    {
      OutcomesMentionNoLookup(intent, verdict, config, records);
    }
  }

  /** A lookup that throws is said to have: the ordering's beside the verdict it left unknown, the warning's alone. */
  lemma FailedLookupsAreReported(value: Intent, declaration: Declaration, facts: Record, config: Config, externals: Externals)
    requires ScreenIntent(Taken(value, facts, config), declaration, facts.position).None? && NamesTheRecord(value, facts)
    ensures var gated := GateIntent(Some(value), declaration, facts, config, externals);
            && (OrderingLookupFailed in gated.findings <==> externals.latestHumanChange(value.item).Threw?)
            && (WarningLookupFailed in gated.findings <==> value.grace.Some? && externals.warningFor(value.key).Threw?)
  {
    JudgingReports(Taken(value, facts, config), facts, config, externals);
  }

  /** A judged intent is reported with its verdict, explained unless it is refused, and approved exactly to apply. */
  lemma WhatAVerdictSays(intent: Intent, verdict: Verdict, config: Config, records: Option<WarningToRecord>)
    ensures var gated := OutcomeOf(intent, verdict, config, records);
            && Judged(verdict) in gated.findings && (Explained in gated.findings <==> !verdict.Refuse?)
            && (gated.approved.Some? <==> verdict.Apply?)
            && (gated.approved.Some? ==> gated.approved.value == Effect(intent, records))
  {
  }

  // ----- Rehearsal -----

  /** Nothing a capability returns goes unreported. */
  lemma EveryIntentIsReported(value: Option<Intent>, declaration: Declaration, facts: Record, config: Config, externals: Externals)
    ensures GateIntent(value, declaration, facts, config, externals).findings != []
    ensures GateIntent(value, declaration, facts, config, externals).approved.Some? ==>
              Judged(Apply) in GateIntent(value, declaration, facts, config, externals).findings
  {
  }

  /** This verdict of a dry run stands where that verdict of an active one would apply. */
  predicate Rehearses(rehearsed: Verdict, acted: Verdict) {
    rehearsed == RecordOnly(ModeRecordsOnly) <==> acted.Apply?
  }

  /** Two files that differ only in what mode the capability runs in: `dry-run` and `active`. */
  predicate OneDryOneActive(capability: string, dry: Config, active: Config) {
    && Enabled(dry, capability) == Enabled(active, capability)
    && EffectiveModeOf(dry, capability).mode.DryRun? && EffectiveModeOf(active, capability).mode.Active?
  }

  lemma RehearsedOutcome(intent: Intent, rehearsed: Verdict, acted: Verdict, dry: Config, active: Config,
                         records: Option<WarningToRecord>)
    requires OneDryOneActive(intent.capability, dry, active) && Rehearses(rehearsed, acted) && !rehearsed.Apply?
    ensures OutcomeOf(intent, rehearsed, dry, records).approved.None?
    ensures var said := WouldApply in OutcomeOf(intent, rehearsed, dry, records).findings;
            said <==> OutcomeOf(intent, acted, active, records).approved.Some?
  {
  }

  /** Under `dry-run` the ordered rules stop at the mode exactly where under `active` they would let the write through. */
  lemma RulesRehearse(request: WriteRequest, dry: Config, active: Config, context: Context)
    requires OneDryOneActive(request.capability, dry, active)
    ensures Rehearses(EvaluateGeneralRules(request, dry, context), EvaluateGeneralRules(request, active, context))
    ensures !EvaluateGeneralRules(request, dry, context).Apply?
  {
  }

  lemma WriteRehearses(request: WriteRequest, dry: Config, active: Config, context: Context)
    requires OneDryOneActive(request.capability, dry, active)
    ensures Rehearses(EvaluateWrite(request, dry, context), EvaluateWrite(request, active, context))
    ensures !EvaluateWrite(request, dry, context).Apply?
  {
    RulesRehearse(request, dry, active, context);
  }

  lemma DestructiveRehearses(request: WriteRequest, warning: Option<RecordedWarning>, activity: bool, dry: Config,
                             active: Config, context: Context, now: Date)
    requires OneDryOneActive(request.capability, dry, active)
    ensures Rehearses(EvaluateDestructive(request, warning, activity, dry, context, now),
                      EvaluateDestructive(request, warning, activity, active, context, now))
    ensures !EvaluateDestructive(request, warning, activity, dry, context, now).Apply?
  {
    RulesRehearse(request, dry, active, context);
  }

  /**
   * Rehearsal is faithful. A file whose capability is active, lowered to `dry-run`, says of an intent that it would
   * apply it exactly when the file as it stands would have approved something for it: the act, or its first warning.
   */
  lemma DryRunSaysWhatActiveWouldDo(value: Intent, declaration: Declaration, facts: Record, config: Config,
                                    externals: Externals)
    requires EffectiveModeOf(config, declaration.name).mode.Active?
    ensures var dry := Lowered(config, DryRun);
            && (WouldApply in GateIntent(Some(value), declaration, facts, dry, externals).findings
                <==> GateIntent(Some(value), declaration, facts, config, externals).approved.Some?)
            && GateIntent(Some(value), declaration, facts, dry, externals).approved.None?
  {
    var dry := Lowered(config, DryRun);
    var act := Taken(value, facts, config);
    assert Taken(value, facts, dry) == act;
    LoweringIsTheMinimum(config, DryRun, declaration.name);
    if ScreenIntent(act, declaration, facts.position).None? && NamesTheRecord(act, facts) {
      JudgingRehearses(act, facts, dry, config, externals);
    }
  }

  lemma JudgingRehearses(act: Intent, facts: Record, dry: Config, active: Config, externals: Externals)
    requires OneDryOneActive(act.capability, dry, active)
    ensures WouldApply in Judge(act, facts, dry, externals).findings <==> Judge(act, facts, active, externals).approved.Some?
    ensures Judge(act, facts, dry, externals).approved.None?
  {
    if act.grace.None? {
      var request, context := WriteRequestFor(act), ContextFor(act, facts, externals);
      WriteRehearses(request, dry, active, context);
      RehearsedOutcome(ForApply(act, facts, externals), EvaluateWrite(request, dry, context),
                       EvaluateWrite(request, active, context), dry, active, None);
    } else if externals.warningFor(act.key) == Gave(None) {
      var warning := WarningEffectFor(act, act.grace.value);
      var request, context := WriteRequestFor(warning), ContextFor(warning, facts, externals);
      WriteRehearses(request, dry, active, context);
      RehearsedOutcome(ForApply(warning, facts, externals), EvaluateWrite(request, dry, context),
                       EvaluateWrite(request, active, context), dry, active, Some(ToRecord(act, act.grace.value)));
    } else if externals.warningFor(act.key).Gave? {
      var recorded := externals.warningFor(act.key).value;
      var request, context := WriteRequestFor(act), ContextFor(act, facts, externals);
      var activity := ActivitySince(act.grace.value.activityAt, recorded.value);
      DestructiveRehearses(request, recorded, activity, dry, active, context, facts.observedAt);
      RehearsedOutcome(ForApply(act, facts, externals),
                       EvaluateDestructive(request, recorded, activity, dry, context, facts.observedAt),
                       EvaluateDestructive(request, recorded, activity, active, context, facts.observedAt), dry, active, None);
    }
  }
}
