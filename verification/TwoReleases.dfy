/**
 * Runs of the protocol, step by step: two people assigned to one issue at one instant. Both are warned of on first
 * sight; one warning is recorded; when its grace is over the one is released and the other refused.
 */
module TwoReleases {
  import opened Wrappers
  import opened Workflow
  import opened Intents
  import opened Gate
  import opened WarnThenAct
  import opened Hours
  import opened Doubles
  import Modes
  import EffectLedger
  import Facts
  import Text

  // ----- The scene -----

  /** A release asked for on one idle run, where it is asked, and the instant the sweep first sees it. */
  datatype Scene = Scene(
    asked: Intent,
    declaration: Declaration,
    config: Modes.Config,
    seen: Record,
    externals: Externals,
    at: int)

  /** The same asking for another person: nothing else of it differs, the key included. */
  function Release(s: Scene, login: string): Intent {
    s.asked.(desired := ReleaseAssignment(login))
  }

  function SeenAt(s: Scene, at: int): Record {
    s.seen.(observedAt := At(at))
  }

  /** The grace asked for: some whole number of milliseconds, an hour or more, stated in full, and no activity. */
  predicate FullTerms(grace: Option<Grace>) {
    && grace.Some? && grace.value.hours.Some?
    && grace.value.hours.value >= MIN_GRACE_HOURS as real && IsWhole(grace.value.hours.value * HOUR_MS as real)
    && !Text.Blank(grace.value.cancelledBy) && !Text.Blank(grace.value.reversesWith)
    && grace.value.activityAt.None?
  }

  /** The capability may release, the intent is its own and about the record, and all that is not the warning allows it. */
  predicate Plays(s: Scene) {
    && s.asked.capability == s.declaration.name && "releaseAssignment" in s.declaration.intents
    && s.asked.desired.ReleaseAssignment? && s.asked.key == KeyOf(OccasionOf(s.asked))
    && s.asked.cause.observedAt.At? && s.asked.cause.observedAt.ms <= s.at
    && FullTerms(s.asked.grace)
    && NamesTheRecord(s.asked, s.seen)
    && Wakes(s.declaration, s.seen, s.config) && !NeedsUnread(s.declaration, s.seen)
    && Allows(s.asked.capability, "issues:write", SeenAt(s, s.at), s.config, s.externals)
    && ExpectedHolds(s.asked.claims, s.seen.position, ModesOf(s.seen))
  }

  function GraceMs(s: Scene): int
    requires Plays(s)
  {
    (s.asked.grace.value.hours.value * HOUR_MS as real).Floor
  }

  function Pair(s: Scene, first: string, second: string): Capability {
    Capability(s.declaration, 0, [], [], false, Returned.Intents([Some(Release(s, first)), Some(Release(s, second))]))
  }

  /** A pass over the issue at which both releases are asked for. */
  function PassAt(s: Scene, at: int, first: string, second: string): Step {
    Pass(SeenAt(s, at), s.config, [Pair(s, first, second)], s.externals, {})
  }

  function Over(s: Scene, rows: seq<Facts.Fact>): Externals {
    OverLedger(s.externals, rows, {})
  }

  /** The warning a first sight of one release records. */
  function Promised(s: Scene, login: string): WarningToRecord
    requires Plays(s)
  {
    ToRecord(Taken(Release(s, login), SeenAt(s, s.at), s.config), s.asked.grace.value)
  }

  /** Both warnings are approved at once, and their comments appear one after the other. */
  function BothWarned(s: Scene, first: string, second: string): seq<Step> {
    [PassAt(s, s.at, first, second), WarningLands(0, s.at), WarningLands(1, s.at)]
  }

  // ----- What one pass approves -----

  function Kept(gated: Gated): seq<Effect> {
    if gated.approved.Some? then [gated.approved.value] else []
  }

  function GatedAt(s: Scene, login: string, at: int, rows: seq<Facts.Fact>): Gated {
    GateIntent(Some(Release(s, login)), s.declaration, SeenAt(s, at), s.config, Over(s, rows))
  }

  lemma GatesTwo(a: Option<Intent>, b: Option<Intent>, declaration: Declaration, facts: Record, config: Modes.Config,
                 externals: Externals)
    ensures GateAll([a, b], declaration, facts, config, externals).approved
              == Kept(GateIntent(a, declaration, facts, config, externals))
                 + Kept(GateIntent(b, declaration, facts, config, externals))
  {
    assert [a, b][..1] == [a] && [a][..0] == [];
    assert GateAll([], declaration, facts, config, externals).approved == [];
    assert GateAll([a], declaration, facts, config, externals).approved
           == Kept(GateIntent(a, declaration, facts, config, externals));
  }

  lemma DecidesOne(capability: Capability, facts: Record, config: Modes.Config, externals: Externals)
    requires Wakes(capability.declaration, facts, config) && !NeedsUnread(capability.declaration, facts)
    requires facts.position.closedBy.None? && !capability.skipped
    ensures OutcomeOfAll([capability], facts, config, externals).approved
              == GateAll(IntentsOf(capability), capability.declaration, facts, config, externals).approved
  {
    assert [capability][..0] == [];
    assert OutcomeOfAll([], facts, config, externals).approved == [];
  }

  lemma PassApproves(s: Scene, at: int, first: string, second: string, rows: seq<Facts.Fact>)
    requires Plays(s)
    ensures ApprovedBy(PassAt(s, at, first, second), rows)
              == Kept(GatedAt(s, first, at, rows)) + Kept(GatedAt(s, second, at, rows))
  {
    DecidesOne(Pair(s, first, second), SeenAt(s, at), s.config, Over(s, rows));
    GatesTwo(Some(Release(s, first)), Some(Release(s, second)), s.declaration, SeenAt(s, at), s.config, Over(s, rows));
  }

  lemma PassKeepsTheFirst(s: Scene, at: int, first: string, second: string, rows: seq<Facts.Fact>, effect: Effect)
    requires Plays(s)
    ensures GatedAt(s, first, at, rows).approved == Some(effect) && GatedAt(s, second, at, rows).approved.None? ==>
              ApprovedBy(PassAt(s, at, first, second), rows) == [effect]
  {
    PassApproves(s, at, first, second, rows);
  }

  /** Every release of the scene passes its screen and is permitted from then on, as an act and as a warning. */
  lemma AReleaseIsPermitted(s: Scene, login: string, at: int, rows: seq<Facts.Fact>)
    requires Plays(s) && at >= s.at
    ensures var act := Taken(Release(s, login), SeenAt(s, at), s.config);
            var warning := WarningEffectFor(act, act.grace.value);
            && ScreenIntent(act, s.declaration, SeenAt(s, at).position).None?
            && Permitted(Effect(ForApply(act, SeenAt(s, at), Over(s, rows)), None), SeenAt(s, at), s.config, Over(s, rows))
            && Permitted(Effect(ForApply(warning, SeenAt(s, at), Over(s, rows)), Some(ToRecord(act, act.grace.value))),
                         SeenAt(s, at), s.config, Over(s, rows))
  {
    assert OccasionOf(Taken(Release(s, login), SeenAt(s, at), s.config)) == OccasionOf(s.asked);
    assert Allows(s.asked.capability, "issues:write", SeenAt(s, at), s.config, Over(s, rows));
  }

  // ----- First sight -----

  lemma OneIsWarnedOf(s: Scene, login: string, rows: seq<Facts.Fact>)
    requires Plays(s) && EffectLedger.WarningOf(rows, s.asked.key).None?
    ensures var approved := GatedAt(s, login, s.at, rows).approved;
            approved.Some? && approved.value.records == Some(Promised(s, login))
  {
    AReleaseIsPermitted(s, login, s.at, rows);
    FirstSightOnlyWarns(Release(s, login), s.declaration, SeenAt(s, s.at), s.config, Over(s, rows));
  }

  lemma BothAreWarnedOf(s: Scene, first: string, second: string)
    requires Plays(s)
    ensures Recording(ApprovedBy(PassAt(s, s.at, first, second), [])) == [Promised(s, first), Promised(s, second)]
  {
    PassApproves(s, s.at, first, second, []);
    OneIsWarnedOf(s, first, []);
    OneIsWarnedOf(s, second, []);
    var one, two := GatedAt(s, first, s.at, []).approved.value, GatedAt(s, second, s.at, []).approved.value;
    RecordsTwo(one, two);
  }

  lemma RecordsTwo(one: Effect, two: Effect)
    requires one.records.Some? && two.records.Some?
    ensures Recording([one] + [two]) == [one.records.value, two.records.value]
  {
    assert ([one] + [two])[1..] == [two] && [two][1..] == [];
    assert Recording([two]) == [two.records.value];
  }

  // ----- The run -----

  lemma ReachOneMore(history: seq<Step>, step: Step)
    ensures Possible(history + [step]) <==> Possible(history) && CanHappen(Reach(history), step)
    ensures Possible(history + [step]) ==> Reach(history + [step]) == Next(Reach(history), step)
  {
    assert (history + [step])[..|history|] == history;
  }

  lemma BothAreOffered(s: Scene, first: string, second: string)
    requires Plays(s)
    ensures var pass := [PassAt(s, s.at, first, second)];
            Possible(pass) && Reach(pass) == State([], [Promised(s, first), Promised(s, second)])
  {
    BothAreWarnedOf(s, first, second);
    ReachOneMore([], PassAt(s, s.at, first, second));
    assert [] + [PassAt(s, s.at, first, second)] == [PassAt(s, s.at, first, second)];
  }

  /** Of two offers for one act, the first comment to appear is recorded, and the second records nothing. */
  lemma TwoLandings(offers: seq<Step>, one: WarningToRecord, two: WarningToRecord, at: int)
    requires Possible(offers) && Reach(offers) == State([], [one, two]) && one.effectId == two.effectId
    ensures var history := offers + [WarningLands(0, at)] + [WarningLands(1, at)];
            Possible(history) && Reach(history).rows == [LandedFact(one, at)]
  {
    ReachOneMore(offers, WarningLands(0, at));
    ReachOneMore(offers + [WarningLands(0, at)], WarningLands(1, at));
    OnlyTheFirstIsWritten(one, two, at);
  }

  lemma OneWarningIsRecorded(s: Scene, first: string, second: string)
    requires Plays(s)
    ensures Possible(BothWarned(s, first, second))
    ensures Reach(BothWarned(s, first, second)).rows == [LandedFact(Promised(s, first), s.at)]
  {
    BothAreOffered(s, first, second);
    var offers := [PassAt(s, s.at, first, second)];
    TwoLandings(offers, Promised(s, first), Promised(s, second), s.at);
    assert offers + [WarningLands(0, s.at)] + [WarningLands(1, s.at)] == BothWarned(s, first, second);
  }

  lemma OnlyTheFirstIsWritten(one: WarningToRecord, two: WarningToRecord, at: int)
    requires one.effectId == two.effectId
    ensures EffectLedger.Recorded([], LandedFact(one, at)) == [LandedFact(one, at)]
    ensures EffectLedger.Recorded([LandedFact(one, at)], LandedFact(two, at)) == [LandedFact(one, at)]
  {
  }

  lemma TheFirstsWarningStands(s: Scene, first: string, second: string)
    requires Plays(s)
    ensures Possible(BothWarned(s, first, second))
    ensures EffectLedger.WarningOf(Reach(BothWarned(s, first, second)).rows, s.asked.key)
              == Some(SnapshotOf(Promised(s, first), s.at))
  {
    OneWarningIsRecorded(s, first, second);
    var rows := Reach(BothWarned(s, first, second)).rows;
    assert EffectLedger.FirstWarned(rows, s.asked.key) == Some(rows[0]);
  }

  // ----- When the grace is over -----

  /** The first's warning stands under the key the two share. */
  predicate Stands(s: Scene, first: string, rows: seq<Facts.Fact>)
    requires Plays(s)
  {
    EffectLedger.WarningOf(rows, s.asked.key) == Some(SnapshotOf(Promised(s, first), s.at))
  }

  lemma AGraceIsAtLeastAnHour(s: Scene)
    requires Plays(s)
    ensures GraceMs(s) >= HOUR_MS
  {
  }

  /** An effect that releases this person, and is no warning. */
  predicate Releases(effect: Effect, login: string) {
    effect.intent.desired == ReleaseAssignment(login) && effect.records.None?
  }

  /** The release of one person, asked for at one instant. */
  function ReleaseOf(s: Scene, login: string, at: int, rows: seq<Facts.Fact>): (effect: Effect)
    ensures Releases(effect, login)
  {
    Effect(ForApply(Taken(Release(s, login), SeenAt(s, at), s.config), SeenAt(s, at), Over(s, rows)), None)
  }

  predicate GraceIsOver(s: Scene, login: string, at: int, rows: seq<Facts.Fact>)
    requires Plays(s)
  {
    GraceStands(Taken(Release(s, login), SeenAt(s, at), s.config), SeenAt(s, at), Over(s, rows))
  }

  lemma TheFirstIsReleased(s: Scene, first: string, at: int, rows: seq<Facts.Fact>)
    requires Plays(s) && at >= s.at
    ensures GraceIsOver(s, first, at, rows) ==>
              GatedAt(s, first, at, rows).approved == Some(ReleaseOf(s, first, at, rows))
  {
    AReleaseIsPermitted(s, first, at, rows);
    AnActIsApprovedIff(Release(s, first), s.declaration, SeenAt(s, at), s.config, Over(s, rows));
  }

  /** While the first's warning stands, every later pass refuses the second: the warning is not for its change. */
  lemma TheOtherIsRefused(s: Scene, first: string, second: string, at: int, rows: seq<Facts.Fact>)
    requires Plays(s) && first != second && at >= s.at
    ensures var gated := GatedAt(s, second, at, rows);
            Stands(s, first, rows) ==> gated.approved.None? && Judged(Refuse(WarningRequestMismatch)) in gated.findings
  {
    AReleaseIsPermitted(s, second, at, rows);
    var a, b := "release " + first, "release " + second;
    assert first == a[8..] && second == b[8..];
  }

  lemma UnderTheStandingWarning(s: Scene, first: string, second: string, at: int, rows: seq<Facts.Fact>)
    requires Plays(s) && first != second && at >= s.at
    ensures Stands(s, first, rows) && GraceIsOver(s, first, at, rows) ==>
              ApprovedBy(PassAt(s, at, first, second), rows) == [ReleaseOf(s, first, at, rows)]
  {
    TheFirstIsReleased(s, first, at, rows);
    TheOtherIsRefused(s, first, second, at, rows);
    PassKeepsTheFirst(s, at, first, second, rows, ReleaseOf(s, first, at, rows));
  }

  lemma TheGraceStands(s: Scene, first: string, at: int, rows: seq<Facts.Fact>)
    requires Plays(s) && at == s.at + GraceMs(s)
    ensures at >= s.at && (Stands(s, first, rows) ==> GraceIsOver(s, first, at, rows))
  {
    WholesAreExact(GraceMs(s));
    WholesAreExact(at);
    assert GraceEnds(s.at, s.asked.grace.value.hours.value) == at as real;
    AGraceIsAtLeastAnHour(s);
  }

  lemma AtTheEndOfTheGrace(s: Scene, first: string, second: string, at: int, rows: seq<Facts.Fact>)
    requires Plays(s) && first != second && at == s.at + GraceMs(s)
    ensures Stands(s, first, rows) ==> ApprovedBy(PassAt(s, at, first, second), rows) == [ReleaseOf(s, first, at, rows)]
  {
    TheGraceStands(s, first, at, rows);
    UnderTheStandingWarning(s, first, second, at, rows);
  }

  /**
   * The whole run: a history in which both are warned of and one warning stands, under the key they share. When its
   * grace is over a pass that asks for both approves one effect, and that releases the first.
   */
  lemma OneOfTwoIsReleased(s: Scene, first: string, second: string, at: int) returns (effect: Effect)
    requires Plays(s) && first != second && at == s.at + GraceMs(s)
    ensures var history := BothWarned(s, first, second);
            && Possible(history)
            && EffectLedger.WarningOf(Reach(history).rows, Release(s, second).key) == Some(SnapshotOf(Promised(s, first), s.at))
            && ApprovedBy(PassAt(s, at, first, second), Reach(history).rows) == [effect]
            && Releases(effect, first)
  {
    TheFirstsWarningStands(s, first, second);
    var rows := Reach(BothWarned(s, first, second)).rows;
    AtTheEndOfTheGrace(s, first, second, at, rows);
    effect := ReleaseOf(s, first, at, rows);
  }

  // ----- Such scenes there are -----

  /** Any capability name, repository and issue will do, an hour's grace, and any idle run before the sweep. */
  function SceneOf(capability: string, repository: Repository, number: nat, idleSince: int, at: int): Scene {
    var item := Item(Issue, number);
    var cause := DatedCause("assignmentWentStale", At(idleSince), None);
    var occasion := Occasion(capability, repository, item, "releaseAssignment", cause);
    Scene(
      Intent(capability, repository, item, ReleaseAssignment(""), Claims([], [], Some(false), None), cause, None,
             KeyOf(occasion), Some(Grace(Some(1.0), None, "", "a /working comment", "re-assign", None))),
      Declaration(capability, {"releaseAssignment"}, {}, {Issue}, map[], false),
      Modes.Config(Modes.Active, map[capability := Modes.Block(true, None)], map[]),
      Record(repository, item, Issue, At(at), Sweep, Position(Some(InProgress), false, None, []), None, None, {}),
      Externals(false, {"issues:write"}, None, (item: Item) => Gave(Never), (key: string) => Gave(None)),
      at)
  }

  lemma ScenesPlay(capability: string, repository: Repository, number: nat, idleSince: int, at: int)
    requires idleSince <= at
    ensures Plays(SceneOf(capability, repository, number, idleSince, at))
  {
    var s := SceneOf(capability, repository, number, idleSince, at);
    assert Blocked !in Present(s.seen.position);
    var cancelledBy, reversesWith := "a /working comment", "re-assign";
    assert !Text.IsSpace(cancelledBy[0]) && !Text.IsSpace(reversesWith[0]);
    assert 1.0 * HOUR_MS as real == HOUR_MS as real;
  }
}
