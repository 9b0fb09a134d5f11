/**
 * The inactivity capability: its settings, the ladders they resolve to, the clocks a ladder reads, and the acts it
 * asks for.
 */
module Inactivity {
  import opened Wrappers
  import opened Hours
  import opened Doubles
  import opened SettingsCascade
  import Text
  import Intents
  import Workflow
  import Gate
  import Modes

  // ----- The spec -----

  const REMIND_AFTER := Duration(None, Some(["remindAfter"]), None, None)

  const REAP_AFTER := Duration(None, Some(["reap", "after"]), Some((["remindAfter"], MIN_GRACE_HOURS)), Some(MIN_REAP_HOURS))

  /** What every level that can reap is read against: a reminder, and a consented block with the release. */
  function LadderSpec(): Spec {
    Entry("remindAfter", REMIND_AFTER, Entry("reap", Block(ReapSpec()), End))
  }

  function ReapSpec(): Spec {
    Entry("after", REAP_AFTER, End)
  }

  function ReapWhenSpec(): Spec {
    Entry("draft", Block(LadderSpec()),
    Entry("changesRequested", Block(LadderSpec()),
    Entry("needsRevision", Block(LadderSpec()), End)))
  }

  function PullRequestsSpec(): Spec {
    Entry("remindAfter", REMIND_AFTER,
    Entry("reap", Section(Entry("after", Duration(None, Some(["reap", "after"]), None, None), End)),
    Entry("reapWhen", Section(ReapWhenSpec()), End)))
  }

  function InactivitySpec(): Spec {
    Entry("exemptBlocked", FlagField(true),
    Entry("exemptMaintainers", LoginsField,
    Entry("exemptBots", FlagField(false),
    Entry("remindAfter", Duration(Some(30 * HOURS_PER_DAY), None, None, None),
    Entry("reap", Section(Entry("after", Duration(Some(60 * HOURS_PER_DAY), None, None, None), End)),
    Entry("issues", Block(LadderSpec()),
    Entry("pullRequests", Block(PullRequestsSpec()), End)))))))
  }

  // ----- What acceptance gives -----

  /** A level's reminder and, where it reaps, a release that waits at least an hour more and at least two in all. */
  predicate SoundLevel(level: Value) {
    level.BlockValue? ==>
      && "remindAfter" in level.values && level.values["remindAfter"].HoursValue?
      && "reap" in level.values
      && var reap := level.values["reap"];
        reap.Parked? || (
          && reap.BlockValue? && "after" in reap.values && reap.values["after"].HoursValue?
          && reap.values["after"].hours >= level.values["remindAfter"].hours + MIN_GRACE_HOURS
          && reap.values["after"].hours >= MIN_REAP_HOURS)
  }

  predicate IsLevel(value: Value) {
    value.Parked? || value.BlockValue?
  }

  /** Wherever a ladder stands in a document, reading it accepts only sound levels. */
  lemma AcceptedLaddersAreSound(key: string, scope: Scope)
    requires ReadField(Block(LadderSpec()), key, scope).Fine?
    ensures IsLevel(ReadField(Block(LadderSpec()), key, scope).value)
    ensures SoundLevel(ReadField(Block(LadderSpec()), key, scope).value)
  {
    var level := ReadField(Block(LadderSpec()), key, scope).value;
    if level.BlockValue? {
      var inner := Inner(Stated(scope.raw, key).value.entries, Dot(scope.path, key), LadderSpec(), scope);
      assert ReadScope(LadderSpec(), inner) == Fine(level.values);
      LadderFields();
      AcceptedLevelHoldsItsFields(LadderSpec(), inner, "remindAfter");
      AcceptedLevelHoldsItsFields(LadderSpec(), inner, "reap");
      AFloorIsWhatTheSiblingReads("remindAfter", REMIND_AFTER, inner, "reap", ReapSpec(), "after", REAP_AFTER);
    }
  }

  /** What a consented reap block's clock resolves to: its own written value, or else what the levels around it say. */
  function ReapHours(raw: seq<(string, Raw)>, scope: Scope): Option<nat> {
    var stated := Stated(raw, "after");
    if stated.None? then DurationNamed(["reap", "after"], Some(scope))
    else if stated.value.Written? then ParseDuration(stated.value.text)
    else None
  }

  /**
   * Nor is more refused than that: a consented reap block that names nothing unknown is accepted exactly when its
   * clock resolves, within the ceiling, to at least two hours and an hour past whatever its level reminds after.
   */
  lemma AReapIsAcceptedIff(raw: seq<(string, Raw)>, scope: Scope)
    requires Stated(scope.raw, "reap") == Some(Mapping(raw)) && Stated(raw, "enabled") == Some(Flag(true))
    requires forall e :: e in raw ==> e.0 in {"enabled", "after"}
    ensures var hours, reminds := ReapHours(raw, scope), DurationNamed(["remindAfter"], Some(scope));
            ReadField(Block(ReapSpec()), "reap", scope).Fine? <==>
              && hours.Some? && MIN_REAP_HOURS <= hours.value <= MAX_CLOCK_HOURS
              && (reminds.Some? ==> hours.value >= reminds.value + MIN_GRACE_HOURS)
  {
    var path := Dot(scope.path, "reap");
    var inner := Inner(raw, path, ReapSpec(), scope);
    LadderFields();
    assert Strangers(raw, {"enabled"} + Names(ReapSpec()), path) == [];
    UnknownKeysAreNotStated(raw, {"enabled"} + Names(ReapSpec()), path, "remindAfter");
    FieldAtIsNamed(ReapSpec(), "remindAfter");
    SilentLevelsPassThrough("remindAfter", inner);
    assert ReadScope(End, inner) == Fine(map[]);
    assert ReadScope(ReapSpec(), inner).Fine? <==> ReadDuration(REAP_AFTER, "after", inner).Fine?;
    assert ReadField(Block(ReapSpec()), "reap", scope).Fine? <==> ReadScope(ReapSpec(), inner).Fine?;
  }

  lemma LadderFields()
    ensures DistinctKeys(LadderSpec()) && DistinctKeys(ReapSpec())
    ensures FieldAt(LadderSpec(), "remindAfter") == Some(REMIND_AFTER)
    ensures FieldAt(LadderSpec(), "reap") == Some(Block(ReapSpec()))
    ensures FieldAt(ReapSpec(), "after") == Some(REAP_AFTER)
    ensures Names(ReapSpec()) == {"after"}
  {
  }

  datatype ReapReason = NeedsRevision | ChangesRequested | Draft

  /** Why a stale pull request may be closed; the earliest listed that governs wins. */
  const REAP_REASONS := [NeedsRevision, ChangesRequested, Draft]

  function ReasonName(reason: ReapReason): string {
    match reason
    case NeedsRevision => "needsRevision"
    case ChangesRequested => "changesRequested"
    case Draft => "draft"
  }

  /** The accepted settings hold every level where the ladders look for it. */
  predicate SoundSettings(settings: map<string, Value>) {
    && "exemptMaintainers" in settings && settings["exemptMaintainers"].LoginsValue?
    && "issues" in settings && IsLevel(settings["issues"]) && SoundLevel(settings["issues"])
    && "pullRequests" in settings
    && var pulls := settings["pullRequests"];
      pulls.Parked? || (
        && pulls.BlockValue? && "reapWhen" in pulls.values && pulls.values["reapWhen"].SectionValue?
        && forall reason: ReapReason ::
             var levels := pulls.values["reapWhen"].values;
             && ReasonName(reason) in levels && IsLevel(levels[ReasonName(reason)]) && SoundLevel(levels[ReasonName(reason)]))
  }

  lemma AcceptedReasonsAreSound(scope: Scope)
    requires ReadScope(ReapWhenSpec(), scope).Fine?
    ensures var levels := ReadScope(ReapWhenSpec(), scope).value;
            forall reason: ReapReason ::
              ReasonName(reason) in levels && IsLevel(levels[ReasonName(reason)]) && SoundLevel(levels[ReasonName(reason)])
  {
    forall reason: ReapReason
      ensures var levels := ReadScope(ReapWhenSpec(), scope).value;
              ReasonName(reason) in levels && IsLevel(levels[ReasonName(reason)]) && SoundLevel(levels[ReasonName(reason)])
    {
      var name := ReasonName(reason);
      assert FieldAt(ReapWhenSpec(), name) == Some(Block(LadderSpec()));
      AcceptedLevelHoldsItsFields(ReapWhenSpec(), scope, name);
      AcceptedLaddersAreSound(name, scope);
    }
  }

  lemma AcceptedPullRequestsAreSound(scope: Scope)
    requires ReadField(Block(PullRequestsSpec()), "pullRequests", scope).Fine?
    ensures var pulls := ReadField(Block(PullRequestsSpec()), "pullRequests", scope).value;
            pulls.Parked? || (
              && pulls.BlockValue? && "reapWhen" in pulls.values && pulls.values["reapWhen"].SectionValue?
              && forall reason: ReapReason ::
                   var levels := pulls.values["reapWhen"].values;
                   && ReasonName(reason) in levels && IsLevel(levels[ReasonName(reason)])
                   && SoundLevel(levels[ReasonName(reason)]))
  {
    var pulls := ReadField(Block(PullRequestsSpec()), "pullRequests", scope).value;
    if pulls.BlockValue? {
      var inner := Inner(Stated(scope.raw, "pullRequests").value.entries, Dot(scope.path, "pullRequests"),
                         PullRequestsSpec(), scope);
      assert ReadScope(PullRequestsSpec(), inner) == Fine(pulls.values);
      assert FieldAt(PullRequestsSpec(), "reapWhen") == Some(Section(ReapWhenSpec()));
      AcceptedLevelHoldsItsFields(PullRequestsSpec(), inner, "reapWhen");
      var stated := Stated(inner.raw, "reapWhen");
      var raw := if stated.Some? then stated.value.entries else [];
      AcceptedReasonsAreSound(Inner(raw, Dot(inner.path, "reapWhen"), ReapWhenSpec(), inner));
    }
  }

  /**
   * The settings theorem. Whatever document is accepted, every level that reaps waits at least an hour longer to act
   * than to remind, and at least two hours in all, whichever of its two clocks it states, inherits or leaves to default.
   */
  lemma AcceptedSettingsAreSound(raw: seq<(string, Raw)>)
    requires ReadSettings(InactivitySpec(), raw).Fine?
    ensures SoundSettings(ReadSettings(InactivitySpec(), raw).value)
  {
    var spec, scope := InactivitySpec(), Scope(raw, "", InactivitySpec(), None);
    assert FieldAt(spec, "exemptMaintainers") == Some(LoginsField);
    assert FieldAt(spec, "issues") == Some(Block(LadderSpec()));
    assert FieldAt(spec, "pullRequests") == Some(Block(PullRequestsSpec()));
    AcceptedLevelHoldsItsFields(spec, scope, "exemptMaintainers");
    AcceptedLevelHoldsItsFields(spec, scope, "issues");
    AcceptedLevelHoldsItsFields(spec, scope, "pullRequests");
    AcceptedLaddersAreSound("issues", scope);
    AcceptedPullRequestsAreSound(scope);
  }

  // ----- Ladders -----

  datatype Ladder = Ladder(remindAfter: nat, reapAfter: Option<nat>)

  function LadderOf(level: Value): Ladder
    requires level.BlockValue? && SoundLevel(level)
  {
    var reap := level.values["reap"];
    Ladder(level.values["remindAfter"].hours, if reap.Parked? then None else Some(reap.values["after"].hours))
  }

  /** Where a consented `issues` block is read from. */
  function IssuesScope(raw: seq<(string, Raw)>, issues: seq<(string, Raw)>): Scope {
    Inner(issues, "issues", LadderSpec(), Scope(raw, "", InactivitySpec(), None))
  }

  /**
   * The ladder is what the cascade resolves: its reminder is what its level looks up under that name, and its release
   * is there exactly on consent, at its own written value or else at what the levels around it say.
   */
  lemma TheLadderIsTheCascades(raw: seq<(string, Raw)>, issues: seq<(string, Raw)>)
    requires ReadSettings(InactivitySpec(), raw).Fine?
    requires Stated(raw, "issues") == Some(Mapping(issues)) && Stated(issues, "enabled") == Some(Flag(true))
    ensures var settings, inner := ReadSettings(InactivitySpec(), raw).value, IssuesScope(raw, issues);
            && SoundSettings(settings) && settings["issues"].BlockValue?
            && var ladder, reap := LadderOf(settings["issues"]), Stated(issues, "reap");
              && DurationNamed(["remindAfter"], Some(inner)) == Some(ladder.remindAfter)
              && (reap.None? ==> ladder.reapAfter.None?)
              && (reap.Some? ==>
                    && reap.value.Mapping?
                    && var enabled := Stated(reap.value.entries, "enabled");
                      && (enabled != Some(Flag(true)) ==> ladder.reapAfter.None?)
                      && (enabled == Some(Flag(true)) ==>
                            ladder.reapAfter.Some? && ladder.reapAfter == ReapHours(reap.value.entries, inner)))
  {
    AcceptedSettingsAreSound(raw);
    TheIssuesLevel(raw, issues);
    ALevelIsTheCascades(IssuesScope(raw, issues));
  }

  lemma TheIssuesLevel(raw: seq<(string, Raw)>, issues: seq<(string, Raw)>)
    requires ReadSettings(InactivitySpec(), raw).Fine?
    requires Stated(raw, "issues") == Some(Mapping(issues)) && Stated(issues, "enabled") == Some(Flag(true))
    ensures var settings := ReadSettings(InactivitySpec(), raw).value;
            && "issues" in settings && settings["issues"].BlockValue?
            && ReadScope(LadderSpec(), IssuesScope(raw, issues)) == Fine(settings["issues"].values)
  {
    var top := Scope(raw, "", InactivitySpec(), None);
    assert FieldAt(InactivitySpec(), "issues") == Some(Block(LadderSpec()));
    AcceptedLevelHoldsItsFields(InactivitySpec(), top, "issues");
    AConsentedBlockIsItsLevel(LadderSpec(), issues, "issues", top);
  }

  lemma AConsentedBlockIsItsLevel(fields: Spec, raw: seq<(string, Raw)>, key: string, scope: Scope)
    requires ReadField(Block(fields), key, scope).Fine?
    requires Stated(scope.raw, key) == Some(Mapping(raw)) && Stated(raw, "enabled") == Some(Flag(true))
    ensures var level := ReadField(Block(fields), key, scope).value;
            level.BlockValue? && ReadScope(fields, Inner(raw, Dot(scope.path, key), fields, scope)) == Fine(level.values)
  {
  }

  lemma {:induction false} ALevelIsTheCascades(inner: Scope)
    requires inner.fields == LadderSpec() && ReadScope(LadderSpec(), inner).Fine?
    ensures var values := ReadScope(LadderSpec(), inner).value;
            && "remindAfter" in values && values["remindAfter"].HoursValue?
            && DurationNamed(["remindAfter"], Some(inner)) == Some(values["remindAfter"].hours)
            && "reap" in values
            && var reap, read := Stated(inner.raw, "reap"), values["reap"];
              && (reap.None? ==> read == Parked)
              && (reap.Some? ==>
                    && reap.value.Mapping?
                    && var enabled := Stated(reap.value.entries, "enabled");
                      && (enabled != Some(Flag(true)) ==> read == Parked)
                      && (enabled == Some(Flag(true)) ==>
                            && read.BlockValue? && "after" in read.values && read.values["after"].HoursValue?
                            && ReapHours(reap.value.entries, inner) == Some(read.values["after"].hours)))
  {
    LadderFields();
    AcceptedLevelHoldsItsFields(LadderSpec(), inner, "remindAfter");
    AcceptedLevelHoldsItsFields(LadderSpec(), inner, "reap");
    AClockReadsWhatItsNameSays("remindAfter", REMIND_AFTER, inner);
    ABlockIsReadOnConsent(ReapSpec(), "reap", inner);
    if ReadField(Block(ReapSpec()), "reap", inner).value.BlockValue? {
      AReadReapIsItsHours(inner);
    }
  }

  lemma AReadReapIsItsHours(inner: Scope)
    requires ReadField(Block(ReapSpec()), "reap", inner).Fine? && ReadField(Block(ReapSpec()), "reap", inner).value.BlockValue?
    ensures var values, reap := ReadField(Block(ReapSpec()), "reap", inner).value.values, Stated(inner.raw, "reap").value.entries;
            && "after" in values && values["after"].HoursValue?
            && ReapHours(reap, inner) == Some(values["after"].hours)
  {
    LadderFields();
    var reap := Stated(inner.raw, "reap").value.entries;
    var scope := Inner(reap, Dot(inner.path, "reap"), ReapSpec(), inner);
    AcceptedLevelHoldsItsFields(ReapSpec(), scope, "after");
    AClockIsAcceptedIff(REAP_AFTER, "after", scope);
  }

  /** A document that states neither clock at its own level declares thirty days and sixty. */
  lemma SilentDocumentsWaitThirtyAndSixtyDays(raw: seq<(string, Raw)>)
    ensures var top := Some(Scope(raw, "", InactivitySpec(), None));
            && (Stated(raw, "remindAfter").None? ==> DurationNamed(["remindAfter"], top) == Some(30 * 24))
            && (Stated(raw, "reap").None? ==> DurationNamed(["reap", "after"], top) == Some(60 * 24))
  {
    var top := Scope(raw, "", InactivitySpec(), None);
    assert FieldAt(InactivitySpec(), "remindAfter") == Some(Duration(Some(30 * HOURS_PER_DAY), None, None, None));
    var reap := Section(Entry("after", Duration(Some(60 * HOURS_PER_DAY), None, None, None), End));
    assert FieldAt(InactivitySpec(), "reap") == Some(reap);
    assert ["reap", "after"][1..] == ["after"];
    assert DeclaredAt(reap.fields, ["after"]) == Some(60 * HOURS_PER_DAY);
    assert DeclaredAt(InactivitySpec(), ["remindAfter"]) == Some(30 * HOURS_PER_DAY);
    assert DeclaredAt(InactivitySpec(), ["reap", "after"]) == Some(60 * HOURS_PER_DAY);
    if Stated(raw, "remindAfter").None? {
      ASilentDocumentDeclares(["remindAfter"], top);
    }
    if Stated(raw, "reap").None? {
      ASilentDocumentDeclares(["reap", "after"], top);
    }
  }

  /** So a level that consents and states no clock reminds after the one and releases after the other. */
  lemma ASilentLevelInherits(raw: seq<(string, Raw)>, issues: seq<(string, Raw)>, reap: seq<(string, Raw)>)
    requires Stated(raw, "remindAfter").None? && Stated(raw, "reap").None?
    requires Stated(issues, "remindAfter").None? && Stated(issues, "reap") == Some(Mapping(reap)) && Stated(reap, "after").None?
    ensures var inner := IssuesScope(raw, issues);
            DurationNamed(["remindAfter"], Some(inner)) == Some(720) && ReapHours(reap, inner) == Some(1440)
  {
    SilentDocumentsWaitThirtyAndSixtyDays(raw);
    var inner := IssuesScope(raw, issues);
    var top := inner.outer;
    LadderFields();
    assert DeclaredAt(LadderSpec(), ["remindAfter"]).None?;
    assert ["reap", "after"][1..] == ["after"];
    assert DeclaredAt(ReapSpec(), ["after"]).None?;
    assert DeclaredAt(LadderSpec(), ["reap", "after"]).None?;
    assert StatedAt(Mapping(issues), ["reap", "after"]) == StatedAt(Mapping(reap), ["after"]) == None;
    assert StatedFrom(["reap", "after"], Some(inner)) == StatedFrom(["reap", "after"], top);
    assert DurationNamed(["reap", "after"], Some(inner)) == DurationNamed(["reap", "after"], top);
  }

  /** How many hours the release comes after the reminder. */
  function GraceHoursOf(ladder: Ladder): int
    requires ladder.reapAfter.Some?
  {
    ladder.reapAfter.value - ladder.remindAfter
  }

  predicate ExemptLogin(login: string, settings: map<string, Value>)
    requires SoundSettings(settings)
  {
    Text.Lower(login) in settings["exemptMaintainers"].logins
  }

  /** A person is exempt exactly when the document's list names them, in any case; where it lists nobody, nobody is. */
  lemma ExemptIffListed(raw: seq<(string, Raw)>, login: string)
    requires ReadSettings(InactivitySpec(), raw).Fine?
    ensures var settings, stated := ReadSettings(InactivitySpec(), raw).value, Stated(raw, "exemptMaintainers");
            && SoundSettings(settings)
            && (stated.None? ==> !ExemptLogin(login, settings))
            && (stated.Some? ==>
                  && stated.value.List?
                  && (ExemptLogin(login, settings) <==>
                        exists i :: 0 <= i < |stated.value.items| && Lists(stated.value.items[i])
                                    && Text.SameLetters(stated.value.items[i].text, login)))
  {
    AcceptedSettingsAreSound(raw);
    var scope, stated := Scope(raw, "", InactivitySpec(), None), Stated(raw, "exemptMaintainers");
    assert FieldAt(InactivitySpec(), "exemptMaintainers") == Some(LoginsField);
    AcceptedLevelHoldsItsFields(InactivitySpec(), scope, "exemptMaintainers");
    if stated.Some? && stated.value.List? {
      ALoginIsListedIff(stated.value.items, "exemptMaintainers", scope, login);
    }
  }

  // ----- Clocks -----

  datatype Assignee = Assignee(login: string, assignedAt: int, lastWorkingAt: Option<int>)

  datatype Clock = Clock(idleSince: int, idleHours: int)

  function Latest(instants: seq<Option<int>>): Option<int> {
    if instants == [] then None
    else
      var last, before := instants[|instants| - 1], Latest(instants[..|instants| - 1]);
      if last.Some? && (before.None? || last.value > before.value) then last else before
  }

  method LatestOf(instants: seq<Option<int>>) returns (newest: Option<int>)
    ensures newest == Latest(instants)
  {
    newest := None;
    for i := 0 to |instants|
      invariant newest == Latest(instants[..i])
    {
      assert instants[..i + 1][..i] == instants[..i];
      if instants[i].Some? && (newest.None? || instants[i].value > newest.value) {
        newest := instants[i];
      }
    }
    assert instants[..|instants|] == instants;
  }

  lemma {:induction false} LatestIsTheMaximum(instants: seq<Option<int>>)
    ensures Latest(instants).None? <==> forall t :: t in instants ==> t.None?
    ensures Latest(instants).Some? ==> Latest(instants) in instants
    ensures Latest(instants).Some? ==> forall t :: t in instants && t.Some? ==> t.value <= Latest(instants).value
  {
    if instants != [] {
      var before := instants[..|instants| - 1];
      LatestIsTheMaximum(before);
      assert forall t :: t in instants <==> t in before || t == instants[|instants| - 1];
    }
  }

  /** The later of where a state began and the newest reset. */
  function StartedAt(base: int, resets: seq<Option<int>>): int {
    var newest := Latest(resets);
    if newest.Some? && newest.value > base then newest.value else base
  }

  function ClockFrom(idleSince: int, observedAt: int): Clock {
    Clock(idleSince, (observedAt - idleSince) / HOUR_MS)
  }

  /** A release's clock counts from the assignment, or from that assignee's newest activity if it is later. */
  function AssigneeClock(assignee: Assignee, observedAt: int): Clock {
    ClockFrom(StartedAt(assignee.assignedAt, [assignee.lastWorkingAt]), observedAt)
  }

  function Workings(assignees: seq<Assignee>): seq<Option<int>> {
    if assignees == [] then [] else [assignees[0].lastWorkingAt] + Workings(assignees[1..])
  }

  function Resets(lastCommitAt: Option<int>, assignees: seq<Assignee>): seq<Option<int>> {
    [lastCommitAt] + Workings(assignees)
  }

  /** A close's clock counts from where the state began, or from the newest commit or activity of any assignee. */
  function PullRequestClock(reapableSince: int, lastCommitAt: Option<int>, assignees: seq<Assignee>, observedAt: int): Clock {
    ClockFrom(StartedAt(reapableSince, Resets(lastCommitAt, assignees)), observedAt)
  }

  // ----- The acts a ladder asks for -----

  const CANCELLED_BY := "a commit or a /working comment"
  const REVERSES_WITH := "re-assign / reopen"

  function Dated(instant: Option<int>): Option<Intents.Date> {
    if instant.None? then None else Some(Intents.At(instant.value))
  }

  /** One stale assignee's release, dated at the start of their idle run and carrying the reminder as its warning. */
  function ReleaseRequest(assignee: Assignee, ladder: Ladder, observedAt: int, words: string): Intents.Request
    requires ladder.reapAfter.Some?
  {
    Intents.Request(
      Intents.Other(Intents.ReleaseAssignment(assignee.login)),
      Some("assignmentWentStale"),
      Some(Intents.At(AssigneeClock(assignee, observedAt).idleSince)),
      Intents.NO_OVERRIDES,
      Some(Intents.Grace(Some(GraceHoursOf(ladder) as real), Some(assignee.login), words, CANCELLED_BY, REVERSES_WITH,
                         Dated(assignee.lastWorkingAt))))
  }

  /** A warning comment and no more, for a ladder without a release; it has the topic the release's warning would have. */
  function RemindRequest(assignee: Assignee, observedAt: int, words: string): Intents.Request {
    Intents.Request(
      Intents.Other(Intents.PostManagedComment(Intents.Warning, Some(assignee.login), words, None)),
      Some("assignmentWentStale"),
      Some(Intents.At(AssigneeClock(assignee, observedAt).idleSince)),
      Intents.NO_OVERRIDES,
      None)
  }

  /** A stale pull request's close; the two native states are claimed as the mode they are read from. */
  function CloseRequest(reason: ReapReason, ladder: Ladder, reapableSince: int, lastCommitAt: Option<int>,
                        assignees: seq<Assignee>, observedAt: int, closing: string, words: string): Intents.Request
    requires ladder.reapAfter.Some?
  {
    Intents.Request(
      Intents.Other(Intents.ClosePullRequest(closing)),
      Some("pullRequestWentStale"),
      Some(Intents.At(PullRequestClock(reapableSince, lastCommitAt, assignees, observedAt).idleSince)),
      Intents.NO_OVERRIDES.(pullRequestMode :=
        match reason
        case NeedsRevision => None
        case ChangesRequested => Some(Workflow.ChangesRequested)
        case Draft => Some(Workflow.Draft)),
      Some(Intents.Grace(Some(GraceHoursOf(ladder) as real), Some(ReasonName(reason)), words, CANCELLED_BY, REVERSES_WITH,
                         Dated(Latest(Resets(lastCommitAt, assignees))))))
  }

  predicate PastItsReminder(assignee: Assignee, settings: map<string, Value>, ladder: Ladder, observedAt: int)
    requires SoundSettings(settings)
  {
    !ExemptLogin(assignee.login, settings) && AssigneeClock(assignee, observedAt).idleHours >= ladder.remindAfter
  }

  function RequestFor(assignee: Assignee, ladder: Ladder, observedAt: int, words: string): Intents.Request {
    if ladder.reapAfter.Some? then ReleaseRequest(assignee, ladder, observedAt, words)
    else RemindRequest(assignee, observedAt, words)
  }

  /** One request for each person past the reminder, in the order of the assignees. */
  function IssueRequests(people: seq<Assignee>, settings: map<string, Value>, ladder: Ladder, observedAt: int,
                         words: string): seq<Intents.Request>
    requires SoundSettings(settings)
  {
    if people == [] then []
    else
      var last := people[|people| - 1];
      IssueRequests(people[..|people| - 1], settings, ladder, observedAt, words)
      + if PastItsReminder(last, settings, ladder, observedAt) then [RequestFor(last, ladder, observedAt, words)] else []
  }

  method OnIssueLadder(people: seq<Assignee>, settings: map<string, Value>, ladder: Ladder, observedAt: int, words: string)
    returns (requests: seq<Intents.Request>)
    requires SoundSettings(settings)
    ensures requests == IssueRequests(people, settings, ladder, observedAt, words)
  {
    requests := [];
    for i := 0 to |people|
      invariant requests == IssueRequests(people[..i], settings, ladder, observedAt, words)
    {
      var assignee := people[i];
      assert people[..i + 1][..i] == people[..i] && people[..i + 1][i] == assignee;
      if ExemptLogin(assignee.login, settings) {
        continue;
      }
      var clock := AssigneeClock(assignee, observedAt);
      if clock.idleHours < ladder.remindAfter {
        continue;
      }
      requests := requests
        + [if ladder.reapAfter.Some? then ReleaseRequest(assignee, ladder, observedAt, words)
           else RemindRequest(assignee, observedAt, words)];
    }
    assert people[..|people|] == people;
  }

  /** What one reason's close asks for: the state it rests on where that is a native one, and the rest of the ladder. */
  predicate AsksToClose(request: Intents.Request, reason: ReapReason, ladder: Ladder, start: int, newest: Option<int>,
                        closing: string, words: string)
  {
    && request.wanted == Intents.Other(Intents.ClosePullRequest(closing))
    && request.cause == Some("pullRequestWentStale") && request.occasion == Some(Intents.At(start))
    && request.claims.meaningsPresent.None? && request.claims.meaningsAbsent.None? && request.claims.closed.None?
    && (reason.Draft? <==> request.claims.pullRequestMode == Some(Workflow.Draft))
    && (reason.ChangesRequested? <==> request.claims.pullRequestMode == Some(Workflow.ChangesRequested))
    && request.grace.Some? && ladder.reapAfter.Some?
    && request.grace.value.hours == Some((ladder.reapAfter.value - ladder.remindAfter) as real)
    && request.grace.value.warningBody == words && request.grace.value.topic == Some(ReasonName(reason))
    && request.grace.value.activityAt == (if newest.Some? then Some(Intents.At(newest.value)) else None)
  }

  /** The start a close is dated at: where the state began, or the newest commit or activity after it. */
  lemma WhatACloseAsks(reason: ReapReason, ladder: Ladder, reapableSince: int, lastCommitAt: Option<int>,
                       assignees: seq<Assignee>, observedAt: int, closing: string, words: string)
    requires ladder.reapAfter.Some?
    ensures var request := CloseRequest(reason, ladder, reapableSince, lastCommitAt, assignees, observedAt, closing, words);
            var start := PullRequestClock(reapableSince, lastCommitAt, assignees, observedAt).idleSince;
            && AsksToClose(request, reason, ladder, start, Latest(Resets(lastCommitAt, assignees)), closing, words)
            && start >= reapableSince && (lastCommitAt.Some? ==> start >= lastCommitAt.value)
            && (forall a :: a in assignees && a.lastWorkingAt.Some? ==> start >= a.lastWorkingAt.value)
            && (start == reapableSince || Some(start) == lastCommitAt
                || exists a :: a in assignees && Some(start) == a.lastWorkingAt)
  {
    var resets := Resets(lastCommitAt, assignees);
    LatestIsTheMaximum(resets);
    WorkingsAreTheirs(assignees);
    assert resets[0] == lastCommitAt && forall t :: t in Workings(assignees) ==> t in resets;
    assert forall t :: t in resets ==> t == lastCommitAt || t in Workings(assignees);
    forall a | a in assignees && a.lastWorkingAt.Some? ensures a.lastWorkingAt in resets {
      assert a.lastWorkingAt in Workings(assignees);
    }
  }

  lemma {:induction false} WorkingsAreTheirs(assignees: seq<Assignee>)
    ensures forall t :: t in Workings(assignees) <==> exists a :: a in assignees && a.lastWorkingAt == t
  {
    if assignees != [] {
      WorkingsAreTheirs(assignees[1..]);
      assert forall a :: a in assignees <==> a == assignees[0] || a in assignees[1..];
    }
  }

  /** A close for a native state is approved only while the pull request is read to be in that state. */
  lemma ACloseRestsOnItsState(capability: string, facts: Intents.Record, reason: ReapReason, ladder: Ladder, since: int,
                              lastCommitAt: Option<int>, assignees: seq<Assignee>, observedAt: int, closing: string,
                              words: string, declaration: Intents.Declaration, config: Modes.Config,
                              externals: Gate.Externals)
    requires ladder.reapAfter.Some?
    ensures var request := CloseRequest(reason, ladder, since, lastCommitAt, assignees, observedAt, closing, words);
            var built := Intents.BuildIntent(capability, facts, request);
            && built.Intends?
            && var approved := Gate.GateIntent(Some(built.intent), declaration, facts, config, externals).approved;
              approved.Some? && approved.value.records.None? ==>
                && (reason.Draft? ==> facts.kind.PullRequest? && facts.readiness == Some(true))
                && (reason.ChangesRequested? ==> facts.kind.PullRequest? && facts.review.Some?)
  {
    var request := CloseRequest(reason, ladder, since, lastCommitAt, assignees, observedAt, closing, words);
    var built := Intents.BuildIntent(capability, facts, request);
    Intents.NamedClaimsReplaceDerived(capability, facts, request);
    Intents.ModesAreAsRead(facts);
    if Gate.GateIntent(Some(built.intent), declaration, facts, config, externals).approved.Some? {
      Gate.WhatAnIntentMayBecome(Some(built.intent), declaration, facts, config, externals);
      Gate.AnApprovedActIsTheReturnedOne(built.intent, declaration, facts, config, externals);
    }
  }

  /** The level for a reason consents and the pull request is in its state. */
  predicate Governs(reason: ReapReason, holds: set<ReapReason>, levels: ReapReason -> Value) {
    reason in holds && levels(reason).BlockValue?
  }

  /** The first reason listed that governs the pull request, with the ladder its level resolves to. */
  method ReapableFor(holds: set<ReapReason>, levels: ReapReason -> Value) returns (reapable: Option<(ReapReason, Ladder)>)
    requires forall reason :: IsLevel(levels(reason)) && SoundLevel(levels(reason))
    ensures reapable.None? <==> forall reason :: !Governs(reason, holds, levels)
    ensures reapable.Some? ==> reapable.value.0 in holds && levels(reapable.value.0).BlockValue?
    ensures reapable.Some? ==>
              exists i :: 0 <= i < |REAP_REASONS| && Governs(REAP_REASONS[i], holds, levels)
                          && reapable.value == (REAP_REASONS[i], LadderOf(levels(REAP_REASONS[i])))
                          && forall j :: 0 <= j < i ==> !Governs(REAP_REASONS[j], holds, levels)
  {
    for i := 0 to |REAP_REASONS|
      invariant forall j :: 0 <= j < i ==> !Governs(REAP_REASONS[j], holds, levels)
    {
      if Governs(REAP_REASONS[i], holds, levels) {
        return Some((REAP_REASONS[i], LadderOf(levels(REAP_REASONS[i]))));
      }
    }
    forall reason ensures !Governs(reason, holds, levels) {
      assert reason == REAP_REASONS[0] || reason == REAP_REASONS[1] || reason == REAP_REASONS[2];
    }
    return None;
  }

  // ----- When a ladder acts -----

  /** The instant an assignee's idle run began: the assignment, or a later `/working`. */
  predicate IdleSince(assignee: Assignee, start: int) {
    && start >= assignee.assignedAt && (assignee.lastWorkingAt.Some? ==> start >= assignee.lastWorkingAt.value)
    && (start == assignee.assignedAt || Some(start) == assignee.lastWorkingAt)
  }

  /** A clock has run a number of hours exactly when that many whole hours lie between its start and the reading. */
  lemma AClockCountsHours(idleSince: int, observedAt: int, hours: int)
    ensures ClockFrom(idleSince, observedAt).idleHours >= hours <==> observedAt - idleSince >= hours * HOUR_MS
    ensures ClockFrom(idleSince, observedAt).idleSince == idleSince
  {
  }

  /** A person is asked about exactly when no exemption names them and they have been idle for all of the reminder. */
  lemma PastItsReminderIff(assignee: Assignee, settings: map<string, Value>, ladder: Ladder, observedAt: int, start: int)
    requires SoundSettings(settings) && IdleSince(assignee, start)
    ensures PastItsReminder(assignee, settings, ladder, observedAt) <==>
              !ExemptLogin(assignee.login, settings) && observedAt >= start + ladder.remindAfter * HOUR_MS
    ensures AssigneeClock(assignee, observedAt).idleSince == start
  {
    LatestOfOne(assignee.lastWorkingAt);
    AClockCountsHours(start, observedAt, ladder.remindAfter);
  }

  /** What one person's request asks for: their release after the rest of the ladder, or where it has none a comment. */
  predicate AsksOf(request: Intents.Request, assignee: Assignee, ladder: Ladder, start: int, words: string) {
    && request.occasion == Some(Intents.At(start)) && request.cause == Some("assignmentWentStale")
    && if ladder.reapAfter.Some? then
         && request.wanted == Intents.Other(Intents.ReleaseAssignment(assignee.login))
         && request.grace.Some?
         && request.grace.value.hours == Some((ladder.reapAfter.value - ladder.remindAfter) as real)
         && request.grace.value.topic == Some(assignee.login) && request.grace.value.warningBody == words
         && request.grace.value.activityAt
              == (if assignee.lastWorkingAt.Some? then Some(Intents.At(assignee.lastWorkingAt.value)) else None)
       else
         && request.grace.None?
         && request.wanted == Intents.Other(Intents.PostManagedComment(Intents.Warning, Some(assignee.login), words, None))
  }

  lemma RequestsAskOf(assignee: Assignee, ladder: Ladder, observedAt: int, start: int, words: string)
    requires IdleSince(assignee, start)
    ensures AsksOf(RequestFor(assignee, ladder, observedAt, words), assignee, ladder, start, words)
  {
    LatestOfOne(assignee.lastWorkingAt);
  }

  /** Exactly the people idle past the reminder and not exempt are asked about, each by a request of their own. */
  lemma {:induction false} WhoIsAskedAbout(people: seq<Assignee>, settings: map<string, Value>, ladder: Ladder,
                                           observedAt: int, words: string, request: Intents.Request)
    requires SoundSettings(settings)
    ensures request in IssueRequests(people, settings, ladder, observedAt, words) <==>
              exists i :: 0 <= i < |people| && PastItsReminder(people[i], settings, ladder, observedAt)
                          && request == RequestFor(people[i], ladder, observedAt, words)
  {
    if people != [] {
      var shorter, last := people[..|people| - 1], |people| - 1;
      WhoIsAskedAbout(shorter, settings, ladder, observedAt, words, request);
      assert forall i :: 0 <= i < last ==> shorter[i] == people[i];
      assert people[last] in people;
    }
  }

  /**
   * Nobody is released early. A release asked for past its reminder, whose warning landed no earlier than it was asked
   * for, is let through only once the person has been idle for the whole of the ladder's release clock.
   */
  lemma NobodyIsReleasedEarly(assignee: Assignee, settings: map<string, Value>, ladder: Ladder, observedAt: int, start: int,
                              request: Gate.WriteRequest, warning: Gate.RecordedWarning,
                              activityAt: Option<Intents.Date>, now: Intents.Date)
    requires SoundSettings(settings) && IdleSince(assignee, start) && ladder.reapAfter.Some?
    requires PastItsReminder(assignee, settings, ladder, observedAt) && warning.warnedAt >= observedAt
    requires warning.gracePeriodHours == GraceHoursOf(ladder) as real
    ensures Gate.GraceHonoured(request, warning, activityAt, now) ==>
              now.ms >= start + ladder.reapAfter.value * HOUR_MS && now.ms >= observedAt + HOUR_MS
  {
    PastItsReminderIff(assignee, settings, ladder, observedAt, start);
    var graceMs := GraceHoursOf(ladder) * HOUR_MS;
    assert warning.gracePeriodHours * HOUR_MS as real == graceMs as real;
    WholesAreExact(graceMs);
    WholesAreExact(warning.warnedAt + graceMs);
    assert Gate.FullGraceEnds(warning) == (warning.warnedAt + graceMs) as real;
  }

  // ----- What the settings give the gate -----

  /** A ladder some level of an accepted document resolves to. */
  predicate Accepted(ladder: Ladder, raw: seq<(string, Raw)>) {
    && ReadSettings(InactivitySpec(), raw).Fine?
    && var settings := ReadSettings(InactivitySpec(), raw).value;
      AcceptedSettingsAreSound(raw);
      || (settings["issues"].BlockValue? && ladder == LadderOf(settings["issues"]))
      || (settings["pullRequests"].BlockValue?
          && exists reason: ReapReason ::
               var level := settings["pullRequests"].values["reapWhen"].values[ReasonName(reason)];
               level.BlockValue? && ladder == LadderOf(level))
  }

  lemma AcceptedGraceMeetsTheFloor(raw: seq<(string, Raw)>, ladder: Ladder)
    requires ladder.reapAfter.Some?
    ensures Accepted(ladder, raw) ==>
              GraceHoursOf(ladder) >= MIN_GRACE_HOURS && ladder.reapAfter.value >= MIN_REAP_HOURS
  {
    if Accepted(ladder, raw) {
      AcceptedSettingsAreSound(raw);
    }
  }

  /** The terms of a destructive act whose grace is this many whole hours pass the screen exactly at the floor or above. */
  lemma WholeHoursPassTheScreen(capability: string, facts: Intents.Record, request: Intents.Request, hours: int)
    requires request.wanted.Other? && Intents.ActionClassOf(request.wanted.desired).ClockTriggeredDestructive?
    requires request.occasion.Some? && request.occasion.value.At?
    requires request.grace.Some? && request.grace.value.hours == Some(hours as real)
    ensures var built := Intents.BuildIntent(capability, facts, request);
            built.Intends? && (Intents.ScreenGrace(built.intent).None? <==> hours >= MIN_GRACE_HOURS)
  {
  }

  /** No release an accepted ladder asks for is refused for its grace. */
  lemma ReleasesPassTheGraceScreen(raw: seq<(string, Raw)>, ladder: Ladder, capability: string, facts: Intents.Record,
                                   assignee: Assignee, observedAt: int, words: string)
    requires ladder.reapAfter.Some?
    ensures var built := Intents.BuildIntent(capability, facts, ReleaseRequest(assignee, ladder, observedAt, words));
            built.Intends? && (Accepted(ladder, raw) ==> Intents.ScreenGrace(built.intent).None?)
  {
    AcceptedGraceMeetsTheFloor(raw, ladder);
    WholeHoursPassTheScreen(capability, facts, ReleaseRequest(assignee, ladder, observedAt, words), GraceHoursOf(ladder));
  }

  /** Nor any close. */
  lemma ClosesPassTheGraceScreen(raw: seq<(string, Raw)>, ladder: Ladder, capability: string, facts: Intents.Record,
                                 reason: ReapReason, since: int, lastCommitAt: Option<int>, assignees: seq<Assignee>,
                                 observedAt: int, closing: string, words: string)
    requires ladder.reapAfter.Some?
    ensures var request := CloseRequest(reason, ladder, since, lastCommitAt, assignees, observedAt, closing, words);
            var built := Intents.BuildIntent(capability, facts, request);
            built.Intends? && (Accepted(ladder, raw) ==> Intents.ScreenGrace(built.intent).None?)
  {
    AcceptedGraceMeetsTheFloor(raw, ladder);
    WholeHoursPassTheScreen(capability, facts,
                            CloseRequest(reason, ladder, since, lastCommitAt, assignees, observedAt, closing, words),
                            GraceHoursOf(ladder));
  }

  // ----- What activity does to a standing warning -----

  /** An occasion moved to another start. */
  function DatedAt(occasion: Intents.Occasion, start: int): Intents.Occasion {
    occasion.(cause := occasion.cause.(observedAt := Intents.At(start)))
  }

  /** No activity was forgotten: the newest known later is no older than the newest known before. */
  predicate NoOlder(before: seq<Option<int>>, after: seq<Option<int>>) {
    Latest(before).Some? ==> Latest(after).Some? && Latest(after).value >= Latest(before).value
  }

  /** On one clock a later reading has the same key exactly when no activity followed the start of the idle run. */
  lemma TheKeyFollowsTheClock(base: int, before: seq<Option<int>>, after: seq<Option<int>>, occasion: Intents.Occasion)
    requires NoOlder(before, after) && occasion.cause.observedAt == Intents.At(StartedAt(base, before))
    ensures var moved := DatedAt(occasion, StartedAt(base, after));
            var followed := Latest(after).Some? && Latest(after).value > StartedAt(base, before);
            Intents.KeyOf(moved) == Intents.KeyOf(occasion) <==> !followed
  {
    Intents.KeysAreInjective(DatedAt(occasion, StartedAt(base, after)), occasion);
  }

  /** A release's key moves exactly when the assignee's own activity follows the start of their idle run. */
  lemma ActivityMovesTheRelease(before: Assignee, after: Assignee, observedBefore: int, observedAfter: int,
                                occasion: Intents.Occasion)
    requires before.assignedAt == after.assignedAt && NoOlder([before.lastWorkingAt], [after.lastWorkingAt])
    requires occasion.cause.observedAt == Intents.At(AssigneeClock(before, observedBefore).idleSince)
    ensures var start := AssigneeClock(before, observedBefore).idleSince;
            var moved := DatedAt(occasion, AssigneeClock(after, observedAfter).idleSince);
            var followed := after.lastWorkingAt.Some? && after.lastWorkingAt.value > start;
            Intents.KeyOf(moved) == Intents.KeyOf(occasion) <==> !followed
  {
    TheKeyFollowsTheClock(before.assignedAt, [before.lastWorkingAt], [after.lastWorkingAt], occasion);
    LatestOfOne(after.lastWorkingAt);
  }

  lemma LatestOfOne(instant: Option<int>)
    ensures Latest([instant]) == instant
  {
    assert [instant][..0] == [];
  }

  /** A close's key moves exactly when a commit, or anyone's activity on the pull request, follows that start. */
  lemma ActivityMovesTheClose(reapableSince: int, commitBefore: Option<int>, before: seq<Assignee>,
                              commitAfter: Option<int>, after: seq<Assignee>, observedBefore: int, observedAfter: int,
                              occasion: Intents.Occasion)
    requires NoOlder(Resets(commitBefore, before), Resets(commitAfter, after))
    requires occasion.cause.observedAt
               == Intents.At(PullRequestClock(reapableSince, commitBefore, before, observedBefore).idleSince)
    ensures var start := PullRequestClock(reapableSince, commitBefore, before, observedBefore).idleSince;
            var moved := DatedAt(occasion, PullRequestClock(reapableSince, commitAfter, after, observedAfter).idleSince);
            var followed := exists t :: t in Resets(commitAfter, after) && t.Some? && t.value > start;
            Intents.KeyOf(moved) == Intents.KeyOf(occasion) <==> !followed
  {
    TheKeyFollowsTheClock(reapableSince, Resets(commitBefore, before), Resets(commitAfter, after), occasion);
    LatestIsTheMaximum(Resets(commitAfter, after));
  }

  /**
   * Activity that a clock counts is never after the clock's start, so where it cancels a warning dated at or after
   * that start it falls in the warning's own second: anything later has already moved the clock past the warning.
   */
  lemma CancellingActivityIsOfTheSecond(base: int, resets: seq<Option<int>>, warning: Gate.RecordedWarning)
    requires warning.causeObservedAt == StartedAt(base, resets) <= warning.warnedAt
    requires Gate.ActivitySince(Dated(Latest(resets)), warning)
    ensures Gate.SecondOf(Latest(resets).value) == Gate.SecondOf(warning.warnedAt) == Gate.SecondOf(warning.causeObservedAt)
  {
  }

  lemma LaterActivityHasResetTheRelease(assignee: Assignee, ladder: Ladder, observedAt: int, words: string,
                                        warning: Gate.RecordedWarning)
    requires ladder.reapAfter.Some? && warning.causeObservedAt <= warning.warnedAt
    requires var request := ReleaseRequest(assignee, ladder, observedAt, words);
             && request.occasion == Some(Intents.At(warning.causeObservedAt))
             && Gate.ActivitySince(request.grace.value.activityAt, warning)
    ensures assignee.lastWorkingAt.Some?
    ensures Gate.SecondOf(assignee.lastWorkingAt.value) == Gate.SecondOf(warning.warnedAt)
  {
    LatestOfOne(assignee.lastWorkingAt);
    CancellingActivityIsOfTheSecond(assignee.assignedAt, [assignee.lastWorkingAt], warning);
  }

  lemma LaterActivityHasResetTheClose(reason: ReapReason, ladder: Ladder, since: int, lastCommitAt: Option<int>,
                                      assignees: seq<Assignee>, observedAt: int, closing: string, words: string,
                                      warning: Gate.RecordedWarning)
    requires ladder.reapAfter.Some? && warning.causeObservedAt <= warning.warnedAt
    requires var request := CloseRequest(reason, ladder, since, lastCommitAt, assignees, observedAt, closing, words);
             && request.occasion == Some(Intents.At(warning.causeObservedAt))
             && Gate.ActivitySince(request.grace.value.activityAt, warning)
    ensures var newest := Latest(Resets(lastCommitAt, assignees));
            newest.Some? && Gate.SecondOf(newest.value) == Gate.SecondOf(warning.warnedAt)
  {
    CancellingActivityIsOfTheSecond(since, Resets(lastCommitAt, assignees), warning);
  }
}
