/**
 * Intents: the operations there are, the key under which two intents are one effect, how one is built from a record,
 * and the checks made of each before it is judged.
 */
module Intents {
  import opened Wrappers
  import opened Workflow
  import opened Hours
  import JsonText

  // ----- Vocabulary -----

  /** An instant in epoch milliseconds, or a date that holds none. */
  datatype Date = Invalid | At(ms: int)

  datatype Repository = Repository(owner: string, repo: string)

  datatype Item = Item(kind: EntityKind, number: nat)

  datatype CommentKind = Summary | Warning | Notice

  /** An operation together with its payload. */
  datatype Desired =
    | PostManagedComment(kind: CommentKind, topic: Option<string>, body: string, mention: Option<string>)
    | ApplyMappedLabel(meaning: Meaning, cause: Cause)
    | Assign(login: string, notice: Option<string>)
    | Unassign(login: string, notice: Option<string>)
    | ReleaseAssignment(login: string)
    | ClosePullRequest(reason: string)
    | LockIssue(reason: string)
    | UnlockIssue(reason: string)

  datatype ActionClass =
    | ObservationOnly
    | HumanFacingOutput
    | ReversibleStateChange
    | ClockTriggeredDestructive
    | ImmediatePreventive

  function OperationName(desired: Desired): string {
    match desired
    case PostManagedComment(_, _, _, _) => "postManagedComment"
    case ApplyMappedLabel(_, _) => "applyMappedLabel"
    case Assign(_, _) => "assign"
    case Unassign(_, _) => "unassign"
    case ReleaseAssignment(_) => "releaseAssignment"
    case ClosePullRequest(_) => "closePullRequest"
    case LockIssue(_) => "lockIssue"
    case UnlockIssue(_) => "unlockIssue"
  }

  /** The platform's own facts about an operation; a capability never supplies them. */
  function ActionClassOf(desired: Desired): ActionClass {
    match desired
    case PostManagedComment(_, _, _, _) => HumanFacingOutput
    case ReleaseAssignment(_) | ClosePullRequest(_) => ClockTriggeredDestructive
    case _ => ReversibleStateChange
  }

  function PermissionOf(desired: Desired): string {
    if desired.ClosePullRequest? then "pull_requests:write" else "issues:write"
  }

  function MeaningName(meaning: Meaning): string {
    match meaning
    case AwaitingTriage => "awaitingTriage"
    case Ready => "ready"
    case InProgress => "inProgress"
    case NeedsReview => "needsReview"
    case NeedsRevision => "needsRevision"
    case ReadyToMerge => "readyToMerge"
    case Blocked => "blocked"
  }

  function CommentKindName(kind: CommentKind): string {
    match kind
    case Summary => "summary"
    case Warning => "warning"
    case Notice => "notice"
  }

  /** The change put into words, as a warning promises it. */
  function DescribeChange(capability: string, desired: Desired): string {
    match desired
    case PostManagedComment(kind, _, _, _) => "managed " + CommentKindName(kind) + " comment from " + capability
    case ApplyMappedLabel(meaning, _) => "set mapped position " + MeaningName(meaning)
    case Assign(login, _) => "assign " + login
    case Unassign(login, _) => "unassign " + login
    case ReleaseAssignment(login) => "release " + login
    case ClosePullRequest(reason) => "close pull request: " + reason
    case LockIssue(reason) => "lock issue: " + reason
    case UnlockIssue(reason) => "unlock issue: " + reason
  }

  /** The terms a destructive act is warned of under; `hours` is `None` where they are no finite number. */
  datatype Grace = Grace(
    hours: Option<real>,
    topic: Option<string>,
    warningBody: string,
    cancelledBy: string,
    reversesWith: string,
    activityAt: Option<Date>)

  datatype DatedCause = DatedCause(cause: string, observedAt: Date, deliveryId: Option<string>)

  datatype Intent = Intent(
    capability: string,
    repository: Repository,
    item: Item,
    desired: Desired,
    claims: Claims,
    cause: DatedCause,
    evaluatedAt: Option<Date>,
    key: string,
    grace: Option<Grace>)

  // ----- The idempotency key -----

  function KindName(kind: EntityKind): string {
    if kind.Issue? then "issue" else "pullRequest"
  }

  function Decimal(n: int): string {
    JsonText.Printed(JsonText.Number(JsonText.Whole(n)))
  }

  function DateText(date: Date): string {
    if date.Invalid? then "" else Decimal(date.ms)
  }

  /** Everything an effect's key is made of: asker, item, operation and dated cause, and nothing of the payload. */
  datatype Occasion = Occasion(
    capability: string, repository: Repository, item: Item, operation: string, cause: DatedCause)

  function OccasionOf(intent: Intent): Occasion {
    Occasion(intent.capability, intent.repository, intent.item, OperationName(intent.desired), intent.cause)
  }

  function Texts(parts: seq<string>): JsonText.Items {
    if parts == [] then JsonText.NoItems else JsonText.Item(JsonText.Text(parts[0]), Texts(parts[1..]))
  }

  function KeyParts(o: Occasion): seq<string> {
    [o.capability, o.repository.owner, o.repository.repo, KindName(o.item.kind), Decimal(o.item.number),
     o.operation, o.cause.cause, DateText(o.cause.observedAt)]
    + if o.cause.deliveryId.Some? then [o.cause.deliveryId.value] else []
  }

  function KeyOf(o: Occasion): string {
    JsonText.Printed(JsonText.Array(Texts(KeyParts(o))))
  }

  /** The key that an act's warning is posted under. */
  function WarningKeyOf(key: string): string {
    key + ":warning"
  }

  lemma DecimalIsInjective(m: int, n: int)
    ensures Decimal(m) == Decimal(n) <==> m == n
    ensures Decimal(m) != ""
  {
    JsonText.PrintingIsInjective(JsonText.Number(JsonText.Whole(m)), JsonText.Number(JsonText.Whole(n)));
    JsonText.FirstPrinted(JsonText.Number(JsonText.Whole(m)));
  }

  lemma {:induction false} TextsAreInjective(a: seq<string>, b: seq<string>)
    ensures Texts(a) == Texts(b) <==> a == b
  {
    if a != [] && b != [] {
      TextsAreInjective(a[1..], b[1..]);
      assert a == [a[0]] + a[1..] && b == [b[0]] + b[1..];
    }
  }

  lemma KeyPartsAreInjective(a: Occasion, b: Occasion)
    ensures KeyParts(a) == KeyParts(b) <==> a == b
  {
    var p, q := KeyParts(a), KeyParts(b);
    if p == q {
      assert p[0] == q[0] && p[1] == q[1] && p[2] == q[2] && p[3] == q[3] && p[4] == q[4] && p[5] == q[5]
             && p[6] == q[6] && p[7] == q[7];
      assert |KindName(Issue)| == 5 && |KindName(PullRequest)| == 11;
      DecimalIsInjective(a.item.number, b.item.number);
      if a.cause.observedAt.At? {
        DecimalIsInjective(a.cause.observedAt.ms, if b.cause.observedAt.At? then b.cause.observedAt.ms else 0);
      }
      if b.cause.observedAt.At? {
        DecimalIsInjective(b.cause.observedAt.ms, b.cause.observedAt.ms);
      }
      if a.cause.deliveryId.Some? && b.cause.deliveryId.Some? {
        assert p[8] == q[8];
      }
    }
  }

  /** Two askings are one effect if and only if they are one occasion, whatever free text their parts hold. */
  lemma KeysAreInjective(a: Occasion, b: Occasion)
    ensures KeyOf(a) == KeyOf(b) <==> a == b
  {
    JsonText.PrintingIsInjective(JsonText.Array(Texts(KeyParts(a))), JsonText.Array(Texts(KeyParts(b))));
    TextsAreInjective(KeyParts(a), KeyParts(b));
    KeyPartsAreInjective(a, b);
  }

  /** A warning's key is no occasion's own, and tells apart whatever the acts' keys do. */
  lemma WarningKeysStandApart(a: Occasion, b: Occasion)
    ensures WarningKeyOf(KeyOf(a)) != KeyOf(b)
    ensures WarningKeyOf(KeyOf(a)) == WarningKeyOf(KeyOf(b)) <==> a == b
  {
    var keyA, keyB := KeyOf(a), KeyOf(b);
    assert keyB[|keyB| - 1] == ']';
    assert WarningKeyOf(keyA)[|WarningKeyOf(keyA)| - 1] == 'g';
    KeysAreInjective(a, b);
    if WarningKeyOf(keyA) == WarningKeyOf(keyB) {
      assert keyA == WarningKeyOf(keyA)[..|WarningKeyOf(keyA)| - 8];
      assert keyB == WarningKeyOf(keyB)[..|WarningKeyOf(keyB)| - 8];
    }
  }

  // ----- One record, one item -----

  datatype Trigger = Sweep | Event(event: string, deliveryId: Option<string>)

  datatype Review = Review(changesRequestedAt: Option<int>, lastCommitAt: Option<int>)

  /** What the platform read of one item; `None` is a group nobody read. */
  datatype Record = Record(
    repository: Repository,
    item: Item,
    kind: EntityKind,
    observedAt: Date,
    trigger: Trigger,
    position: Projection,
    readiness: Option<bool>,
    review: Option<Review>,
    unread: set<string>)

  /** Changes were requested, and the last commit, if there is one, is no newer than the request. */
  predicate ChangesOutstanding(review: Review) {
    && review.changesRequestedAt.Some?
    && (review.lastCommitAt.None? || review.lastCommitAt.value <= review.changesRequestedAt.value)
  }

  function ModesOf(facts: Record): Modes {
    if !facts.kind.PullRequest? then Modes(None, None)
    else Modes(facts.readiness, if facts.review.None? then None else Some(ChangesOutstanding(facts.review.value)))
  }

  /** The first cause of the edge from where the item stands to the meaning, if its map has one. */
  function MoveTo(facts: Record, meaning: Meaning): Option<Cause> {
    if facts.position.Conflict? then None
    else
      var edge := FindEdge(EdgesOf(facts.kind), facts.position.meaning, Some(meaning));
      if edge.None? || edge.value.causes == [] then None else Some(edge.value.causes[0])
  }

  // ----- Building an intent -----

  /** An asking before the record is read: a label may leave its cause to the map. */
  datatype Wanted = Label(meaning: Meaning, cause: Option<Cause>) | Other(desired: Desired)

  datatype Overrides = Overrides(
    meaningsPresent: Option<seq<Meaning>>,
    meaningsAbsent: Option<seq<Meaning>>,
    closed: Option<Option<bool>>,
    pullRequestMode: Option<PullRequestMode>)

  const NO_OVERRIDES := Overrides(None, None, None, None)

  datatype Request = Request(
    wanted: Wanted,
    cause: Option<string>,
    occasion: Option<Date>,
    claims: Overrides,
    grace: Option<Grace>)

  function Applying(wanted: Wanted): Option<Meaning> {
    match wanted
    case Label(meaning, _) => Some(meaning)
    case Other(ApplyMappedLabel(meaning, _)) => Some(meaning)
    case _ => None
  }

  /** What the record itself shows: the meanings on it, whether it is closed, and that a new label is not yet there. */
  function DerivedClaims(facts: Record, wanted: Wanted): Claims {
    var present := ObservedMeanings(facts.position);
    var applying := Applying(wanted);
    Claims(
      present,
      if applying.Some? && applying.value !in present then [applying.value] else [],
      Some(facts.position.closedBy.Some?),
      None)
  }

  /** The claims with each named field put in place of the derived one. */
  function Narrowed(claims: Claims, named: Overrides): Claims {
    Claims(
      if named.meaningsPresent.Some? then named.meaningsPresent.value else claims.meaningsPresent,
      if named.meaningsAbsent.Some? then named.meaningsAbsent.value else claims.meaningsAbsent,
      if named.closed.Some? then named.closed.value else claims.closed,
      if named.pullRequestMode.Some? then named.pullRequestMode else claims.pullRequestMode)
  }

  function DesiredOf(facts: Record, wanted: Wanted): Option<Desired> {
    match wanted
    case Other(desired) => Some(desired)
    case Label(meaning, stated) =>
      var cause := if stated.Some? then stated else MoveTo(facts, meaning);
      if cause.None? then None else Some(ApplyMappedLabel(meaning, cause.value))
  }

  function CauseOf(facts: Record, request: Request): DatedCause {
    DatedCause(
      if request.cause.Some? then request.cause.value
      else if facts.trigger.Sweep? then "sweep" else facts.trigger.event,
      if request.occasion.Some? then request.occasion.value else facts.observedAt,
      if facts.trigger.Event? then facts.trigger.deliveryId else None)
  }

  /** `Throws` is a date with no text, which the key cannot be derived from. */
  datatype Built = NoEdge | Throws | Intends(intent: Intent)

  function BuildIntent(capability: string, facts: Record, request: Request): Built {
    var desired := DesiredOf(facts, request.wanted);
    var cause := CauseOf(facts, request);
    if desired.None? then NoEdge
    else if cause.observedAt.Invalid? then Throws
    else
      var occasion := Occasion(capability, facts.repository, facts.item, OperationName(desired.value), cause);
      Intends(Intent(
        capability, facts.repository, facts.item, desired.value,
        Narrowed(DerivedClaims(facts, request.wanted), request.claims),
        cause, None, KeyOf(occasion), request.grace))
  }

  // ----- The screens -----

  datatype Declaration = Declaration(
    name: string,
    intents: set<string>,
    labels: set<Meaning>,
    facts: set<EntityKind>,
    needs: map<EntityKind, set<string>>,
    closed: bool)

  datatype ScreenCode =
    | MalformedIntent
    | ForeignCapability
    | UndeclaredIntent
    | UndeclaredMeaning
    | InvalidCause
    | IdempotencyKeyMismatch
    | PauseNotCapabilityWritable
    | MeaningWrongEntity
    | PositionConflict
    | TransitionNotOnMap
    | GraceMismatch
    | ScreenedGraceBelowFloor

  /** Is the move from the projected position on the item's own map? Claims never supply where it starts. */
  function ScreenTransition(kind: EntityKind, meaning: Meaning, cause: Cause, projection: Projection): Option<ScreenCode> {
    if projection.Conflict? then Some(PositionConflict)
    else if meaning.Blocked? then Some(PauseNotCapabilityWritable)
    else if FlowOf(meaning) != Some(kind) then Some(MeaningWrongEntity)
    else if projection.meaning.Some? && FlowOf(projection.meaning.value) != Some(kind) then Some(MeaningWrongEntity)
    else if !IsCauseOf(kind, cause) then Some(TransitionNotOnMap)
    else if !CanTransition(kind, projection.meaning, Some(meaning), cause).Allowed? then Some(TransitionNotOnMap)
    else None
  }

  /** Grace terms are required of a destructive operation, refused of any other, and held to the floor. */
  function ScreenGrace(intent: Intent): Option<ScreenCode> {
    var destructive := ActionClassOf(intent.desired).ClockTriggeredDestructive?;
    if destructive && intent.grace.None? then Some(GraceMismatch)
    else if !destructive && intent.grace.Some? then Some(GraceMismatch)
    else if intent.grace.Some? && (intent.grace.value.hours.None? || intent.grace.value.hours.value < MIN_GRACE_HOURS as real)
    then Some(ScreenedGraceBelowFloor)
    else None
  }

  function ScreenIntent(intent: Intent, declaration: Declaration, projection: Projection): Option<ScreenCode> {
    if intent.capability != declaration.name then Some(ForeignCapability)
    else if OperationName(intent.desired) !in declaration.intents then Some(UndeclaredIntent)
    else if intent.cause.observedAt.Invalid? then Some(InvalidCause)
    else if intent.key != KeyOf(OccasionOf(intent)) then Some(IdempotencyKeyMismatch)
    else if ScreenGrace(intent).Some? then ScreenGrace(intent)
    else if !intent.desired.ApplyMappedLabel? then None
    else if intent.desired.meaning !in declaration.labels then Some(UndeclaredMeaning)
    else ScreenTransition(intent.item.kind, intent.desired.meaning, intent.desired.cause, projection)
  }

  /** The checks in no order: an intent passes exactly when it is its capability's own, declared, dated, keyed and termed. */
  lemma AnIntentPassesTheScreenIff(intent: Intent, declaration: Declaration, projection: Projection)
    ensures ScreenIntent(intent, declaration, projection).None? <==>
              && intent.capability == declaration.name && OperationName(intent.desired) in declaration.intents
              && intent.cause.observedAt.At? && intent.key == KeyOf(OccasionOf(intent))
              && (intent.grace.Some? <==> intent.desired.ReleaseAssignment? || intent.desired.ClosePullRequest?)
              && (intent.grace.Some? ==> intent.grace.value.hours.Some? && intent.grace.value.hours.value >= 1.0)
              && (intent.desired.ApplyMappedLabel? ==>
                    && intent.desired.meaning in declaration.labels
                    && ScreenTransition(intent.item.kind, intent.desired.meaning, intent.desired.cause, projection).None?)
  {
  }

  /** What a record shows of a pull request's modes, and that it shows none of an issue's. */
  lemma ModesAreAsRead(facts: Record)
    ensures facts.kind.Issue? ==> ModesOf(facts) == Modes(None, None)
    ensures facts.kind.PullRequest? ==>
              && ModesOf(facts).draft == facts.readiness
              && (ModesOf(facts).changesRequested.Some? <==> facts.review.Some?)
              && (facts.review.Some? ==>
                    var asked, commit := facts.review.value.changesRequestedAt, facts.review.value.lastCommitAt;
                    ModesOf(facts).changesRequested.value <==> asked.Some? && (commit.Some? ==> commit.value <= asked.value))
  {
  }

  // ----- Built intents agree with what judges them -----

  /** The map draws an edge from where the item stands to the meaning asked. */
  predicate Reachable(facts: Record, meaning: Meaning) {
    facts.position.Position? && Drawn(EdgesOf(facts.kind), facts.position.meaning, Some(meaning))
  }

  /** What the map leaves a label's cause to: the first its edge takes. */
  lemma MoveToFollowsTheMap(facts: Record, meaning: Meaning)
    ensures MoveTo(facts, meaning).Some? <==> Reachable(facts, meaning)
    ensures MoveTo(facts, meaning).Some? ==>
              Takes(EdgesOf(facts.kind), facts.position.meaning, Some(meaning), MoveTo(facts, meaning).value)
  {
    if facts.position.Position? {
      var edge := FindEdge(EdgesOf(facts.kind), facts.position.meaning, Some(meaning));
      if edge.Some? {
        MapsAreWellDrawn(facts.kind, edge.value);
        assert edge.value.causes[0] in edge.value.causes;
      }
    }
  }

  /** With no cause stated, building fails for want of an edge exactly when the map draws none. */
  lemma NothingIsBuiltOffTheMap(capability: string, facts: Record, request: Request)
    ensures var unreachable := request.wanted.Label? && !Reachable(facts, request.wanted.meaning);
            BuildIntent(capability, facts, request).NoEdge? <==> unreachable && request.wanted.cause.None?
  {
    if request.wanted.Label? {
      MoveToFollowsTheMap(facts, request.wanted.meaning);
    }
  }

  /** The screen's checks, in no order: where it stands and where it goes are of the item's flow, and so is the cause. */
  lemma ScreenIsItsChecks(kind: EntityKind, meaning: Meaning, cause: Cause, projection: Projection)
    ensures ScreenTransition(kind, meaning, cause, projection).None? <==>
              && projection.Position? && FlowOf(meaning) == Some(kind) && IsCauseOf(kind, cause)
              && (projection.meaning.Some? ==> FlowOf(projection.meaning.value) == Some(kind))
              && CanTransition(kind, projection.meaning, Some(meaning), cause).Allowed?
  {
  }

  /** The screen passes exactly the moves the item's map takes from where the item stands. */
  lemma TheScreenFollowsTheMap(kind: EntityKind, meaning: Meaning, cause: Cause, projection: Projection)
    ensures var taken := projection.Position? && Takes(EdgesOf(kind), projection.meaning, Some(meaning), cause);
            ScreenTransition(kind, meaning, cause, projection).None? <==> taken
  {
    ScreenIsItsChecks(kind, meaning, cause, projection);
    if projection.Position? {
      TransitionFollowsTheMap(kind, projection.meaning, Some(meaning), cause);
    }
  }

  /** A cause left to the map passes the screen, on every record about one of its own kind of item. */
  lemma ADefaultedCausePassesTheScreen(capability: string, facts: Record, request: Request)
    requires facts.kind == facts.item.kind
    requires request.wanted.Label? && request.wanted.cause.None?
    requires BuildIntent(capability, facts, request).Intends?
    ensures var built := BuildIntent(capability, facts, request).intent;
            && built.desired.ApplyMappedLabel? && built.desired.meaning == request.wanted.meaning
            && ScreenTransition(built.item.kind, built.desired.meaning, built.desired.cause, facts.position).None?
  {
    MoveToFollowsTheMap(facts, request.wanted.meaning);
    TheScreenFollowsTheMap(facts.kind, request.wanted.meaning, MoveTo(facts, request.wanted.meaning).value, facts.position);
  }

  /** The key re-derives, and the intent is about the record's own item. */
  lemma ABuiltKeyRederives(capability: string, facts: Record, request: Request)
    requires BuildIntent(capability, facts, request).Intends?
    ensures var built := BuildIntent(capability, facts, request).intent;
            && built.key == KeyOf(OccasionOf(built))
            && built.repository == facts.repository && built.item == facts.item && built.capability == capability
  {
  }

  /**
   * What the derived claims guard. They hold of a later reading exactly when every meaning the record showed is still
   * there, the item is open or closed as it was, and a label that was to be put on is not there already.
   */
  lemma DerivedClaimsSayWhatWasSeen(facts: Record, wanted: Wanted, later: Projection, modes: Modes)
    ensures ExpectedHolds(DerivedClaims(facts, wanted), later, modes) <==>
              && (forall m :: m in Present(facts.position) ==> m in Present(later))
              && (later.closedBy.Some? <==> facts.position.closedBy.Some?)
              && (forall m :: (wanted.Label? && wanted.meaning == m)
                              || (wanted.Other? && wanted.desired.ApplyMappedLabel? && wanted.desired.meaning == m) ==>
                    m in Present(later) ==> m in Present(facts.position))
  {
    assert forall m :: m in Present(facts.position) ==> m in ObservedMeanings(facts.position);
  }

  /** A claim that the request names stands in place of the derived one, and every other is derived. */
  lemma NamedClaimsReplaceDerived(capability: string, facts: Record, request: Request)
    requires BuildIntent(capability, facts, request).Intends?
    ensures var claims, derived := BuildIntent(capability, facts, request).intent.claims, DerivedClaims(facts, request.wanted);
            var named := request.claims;
            && claims.meaningsPresent
                 == (if named.meaningsPresent.Some? then named.meaningsPresent.value else derived.meaningsPresent)
            && claims.meaningsAbsent
                 == (if named.meaningsAbsent.Some? then named.meaningsAbsent.value else derived.meaningsAbsent)
            && (if named.closed.Some? then Some(claims.closed) == named.closed else claims.closed == derived.closed)
            && (named.pullRequestMode.Some? ==> claims.pullRequestMode == named.pullRequestMode)
  {
  }

  /** With no claim overridden, an intent's derived claims hold in the world derived from its own record: unless that is conflicted. */
  lemma DerivedClaimsHold(capability: string, facts: Record, request: Request)
    requires BuildIntent(capability, facts, request).Intends? && request.claims == NO_OVERRIDES
    ensures var built := BuildIntent(capability, facts, request).intent;
            DeriveWorld(Some(facts.position), built.claims, ModesOf(facts)).preconditionHolds <==> facts.position.Position?
  {
  }
}
