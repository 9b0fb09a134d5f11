/**
 * Positions and moves: how labels make a position, the two maps of moves between positions, and the facts of an item
 * that the rules are given.
 */
module Workflow {
  import opened Wrappers

  datatype EntityKind = Issue | PullRequest

  datatype Meaning =
    | AwaitingTriage
    | Ready
    | InProgress
    | NeedsReview
    | NeedsRevision
    | ReadyToMerge
    | Blocked

  /** Every meaning, in the one order every consumer walks them. */
  const MAPPABLE_MEANINGS := [AwaitingTriage, Ready, InProgress, NeedsReview, NeedsRevision, ReadyToMerge, Blocked]

  /** The flow a meaning is a position of; `blocked` is a pause and of neither. */
  function FlowOf(meaning: Meaning): Option<EntityKind> {
    match meaning
    case AwaitingTriage | Ready | InProgress => Some(Issue)
    case NeedsReview | NeedsRevision | ReadyToMerge => Some(PullRequest)
    case Blocked => None
  }

  datatype Cause =
    | IntakeObserved | TriageCompleted | ContributorAssigned | LastContributorUnassigned | ReclaimCompleted
    | HumanClosed | LinkedMergeClosed
    | ChecksPassed | ChecksFailed | RevisionResolved | ReviewRequestedChanges | ReviewPolicySatisfied
    | ApprovalInvalidated | Merged

  /** The causes of a flow; closing by hand is the only one in both. */
  predicate IsCauseOf(kind: EntityKind, cause: Cause) {
    match kind
    case Issue =>
      || cause.IntakeObserved? || cause.TriageCompleted? || cause.ContributorAssigned?
      || cause.LastContributorUnassigned? || cause.ReclaimCompleted? || cause.HumanClosed? || cause.LinkedMergeClosed?
    case PullRequest =>
      || cause.ChecksPassed? || cause.ChecksFailed? || cause.RevisionResolved? || cause.ReviewRequestedChanges?
      || cause.ReviewPolicySatisfied? || cause.ApprovalInvalidated? || cause.HumanClosed? || cause.Merged?
  }

  // ----- The maps -----

  /** One drawn move; an end that is `None` is outside the flow. */
  datatype Edge = Edge(from: Option<Meaning>, to: Option<Meaning>, causes: seq<Cause>)

  const ISSUE_EDGES := [
    Edge(None, Some(AwaitingTriage), [IntakeObserved]),
    Edge(Some(AwaitingTriage), Some(Ready), [TriageCompleted]),
    Edge(Some(Ready), Some(InProgress), [ContributorAssigned]),
    Edge(Some(InProgress), Some(Ready), [LastContributorUnassigned, ReclaimCompleted]),
    Edge(Some(AwaitingTriage), None, [HumanClosed]),
    Edge(Some(Ready), None, [HumanClosed, LinkedMergeClosed]),
    Edge(Some(InProgress), None, [HumanClosed, LinkedMergeClosed])]

  const PR_EDGES := [
    Edge(None, Some(NeedsReview), [ChecksPassed]),
    Edge(None, Some(NeedsRevision), [ChecksFailed]),
    Edge(Some(NeedsReview), Some(NeedsRevision), [ChecksFailed, ReviewRequestedChanges]),
    Edge(Some(NeedsRevision), Some(NeedsReview), [RevisionResolved]),
    Edge(Some(NeedsReview), Some(ReadyToMerge), [ReviewPolicySatisfied]),
    Edge(Some(ReadyToMerge), Some(NeedsReview), [ApprovalInvalidated]),
    Edge(Some(ReadyToMerge), Some(NeedsRevision), [ChecksFailed]),
    Edge(Some(NeedsReview), None, [HumanClosed, Merged]),
    Edge(Some(NeedsRevision), None, [HumanClosed, Merged]),
    Edge(Some(ReadyToMerge), None, [HumanClosed, Merged])]

  function EdgesOf(kind: EntityKind): seq<Edge> {
    if kind.Issue? then ISSUE_EDGES else PR_EDGES
  }

  predicate Joins(edge: Edge, from: Option<Meaning>, to: Option<Meaning>) {
    edge.from == from && edge.to == to
  }

  predicate FirstJoining(edges: seq<Edge>, i: nat, from: Option<Meaning>, to: Option<Meaning>) {
    i < |edges| && Joins(edges[i], from, to) && forall j :: 0 <= j < i ==> !Joins(edges[j], from, to)
  }

  lemma SomeFirstJoins(edges: seq<Edge>, i: nat, from: Option<Meaning>, to: Option<Meaning>)
    requires i < |edges| && Joins(edges[i], from, to)
    ensures exists first :: 0 <= first < |edges| && FirstJoining(edges, first, from, to)
  {
    if j: nat :| j < i && Joins(edges[j], from, to) {
      SomeFirstJoins(edges, j, from, to);
    } else {
      assert FirstJoining(edges, i, from, to);
    }
  }

  /** The first edge between two ends. */
  function FindEdge(edges: seq<Edge>, from: Option<Meaning>, to: Option<Meaning>): (found: Option<Edge>)
    ensures found.Some? ==> found.value in edges && Joins(found.value, from, to)
    ensures found.None? ==> forall e :: e in edges ==> !Joins(e, from, to)
  {
    if first :| 0 <= first < |edges| && FirstJoining(edges, first, from, to) then Some(edges[first])
    else
      assert forall e :: e in edges ==> !Joins(e, from, to) by {
        if e :| e in edges && Joins(e, from, to) {
          var i :| 0 <= i < |edges| && edges[i] == e;
          SomeFirstJoins(edges, i, from, to);
        }
      }
      None
  }

  datatype TransitionVerdict = Allowed | NoSuchEdge | CauseNotAccepted

  function Evaluate(edges: seq<Edge>, from: Option<Meaning>, to: Option<Meaning>, cause: Cause): TransitionVerdict {
    var edge := FindEdge(edges, from, to);
    if edge.None? then NoSuchEdge else if cause !in edge.value.causes then CauseNotAccepted else Allowed
  }

  function CanTransition(kind: EntityKind, from: Option<Meaning>, to: Option<Meaning>, cause: Cause): TransitionVerdict {
    Evaluate(EdgesOf(kind), from, to, cause)
  }

  // ----- From labels to a position -----

  datatype Closure = ByMerge | ByHuman | ByLinkedMerge

  datatype Observation = Observation(closedBy: Option<Closure>, meanings: seq<Meaning>)

  datatype Projection =
    | Position(meaning: Option<Meaning>, blocked: bool, closedBy: Option<Closure>, ignored: seq<Meaning>)
    | Conflict(positions: seq<Meaning>, blocked: bool, closedBy: Option<Closure>, ignored: seq<Meaning>)

  function Distinct(meanings: seq<Meaning>): (distinct: seq<Meaning>)
    ensures forall m :: m in distinct <==> m in meanings
  {
    if meanings == [] then []
    else
      var last, before := meanings[|meanings| - 1], Distinct(meanings[..|meanings| - 1]);
      if last in before then before else before + [last]
  }

  function OfFlow(meanings: seq<Meaning>, kind: EntityKind): (own: seq<Meaning>)
    ensures forall m :: m in own <==> m in meanings && FlowOf(m) == Some(kind)
  {
    if meanings == [] then []
    else if FlowOf(meanings[0]) == Some(kind) then [meanings[0]] + OfFlow(meanings[1..], kind)
    else OfFlow(meanings[1..], kind)
  }

  /** What is neither a position of this flow nor the pause. */
  function Foreign(meanings: seq<Meaning>, kind: EntityKind): (foreign: seq<Meaning>)
    ensures forall m :: m in foreign <==> m in meanings && FlowOf(m) != Some(kind) && m != Blocked
  {
    if meanings == [] then []
    else if FlowOf(meanings[0]) != Some(kind) && meanings[0] != Blocked then [meanings[0]] + Foreign(meanings[1..], kind)
    else Foreign(meanings[1..], kind)
  }

  function Project(kind: EntityKind, seen: Observation): Projection {
    var distinct := Distinct(seen.meanings);
    var positions := OfFlow(distinct, kind);
    if |positions| > 1 then Conflict(positions, Blocked in distinct, seen.closedBy, Foreign(distinct, kind))
    else Position(if positions == [] then None else Some(positions[0]), Blocked in distinct, seen.closedBy,
                  Foreign(distinct, kind))
  }

  // ----- The derived world -----

  /** The meanings a projection was read from. */
  function Present(projection: Projection): set<Meaning> {
    (match projection
     case Position(meaning, _, _, _) => if meaning.Some? then {meaning.value} else {}
     case Conflict(positions, _, _, _) => set m | m in positions)
    + (if projection.blocked then {Blocked} else {})
    + set m | m in projection.ignored
  }

  function InOrder(present: set<Meaning>, order: seq<Meaning>): (list: seq<Meaning>)
    ensures forall m :: m in list <==> m in present && m in order
    ensures |list| <= |order|
  {
    if order == [] then []
    else if order[0] in present then [order[0]] + InOrder(present, order[1..])
    else InOrder(present, order[1..])
  }

  lemma EveryMeaningIsListed(m: Meaning)
    ensures m in MAPPABLE_MEANINGS
  {
    var list := MAPPABLE_MEANINGS;
    match m
    case AwaitingTriage => assert m == list[0];
    case Ready => assert m == list[1];
    case InProgress => assert m == list[2];
    case NeedsReview => assert m == list[3];
    case NeedsRevision => assert m == list[4];
    case ReadyToMerge => assert m == list[5];
    case Blocked => assert m == list[6];
  }

  function ObservedMeanings(projection: Projection): (observed: seq<Meaning>)
    ensures forall m :: m in observed <==> m in Present(projection)
  {
    assert forall m :: m in MAPPABLE_MEANINGS by {
      forall m ensures m in MAPPABLE_MEANINGS {
        EveryMeaningIsListed(m);
      }
    }
    InOrder(Present(projection), MAPPABLE_MEANINGS)
  }

  method ObservedMeaningsOf(projection: Projection) returns (observed: seq<Meaning>)
    ensures observed == ObservedMeanings(projection)
  {
    var present: set<Meaning> := {};
    match projection {
      case Position(meaning, _, _, _) =>
        if meaning.Some? {
          present := present + {meaning.value};
        }
      case Conflict(positions, _, _, _) =>
        for i := 0 to |positions|
          invariant present == set m | m in positions[..i]
        {
          assert positions[..i + 1] == positions[..i] + [positions[i]];
          present := present + {positions[i]};
        }
        assert positions[..|positions|] == positions;
    }
    if projection.blocked {
      present := present + {Blocked};
    }
    ghost var before := present;
    for i := 0 to |projection.ignored|
      invariant present == before + set m | m in projection.ignored[..i]
    {
      assert projection.ignored[..i + 1] == projection.ignored[..i] + [projection.ignored[i]];
      present := present + {projection.ignored[i]};
    }
    assert projection.ignored[..|projection.ignored|] == projection.ignored;
    assert present == Present(projection);
    observed := InOrder(present, MAPPABLE_MEANINGS);
  }

  /** Native modes, each read or not; a mode nobody read is never "not in it". */
  datatype PullRequestMode = Draft | ChangesRequested

  datatype Modes = Modes(draft: Option<bool>, changesRequested: Option<bool>)

  function ModeRead(modes: Modes, mode: PullRequestMode): Option<bool> {
    if mode.Draft? then modes.draft else modes.changesRequested
  }

  datatype Claims = Claims(
    meaningsPresent: seq<Meaning>,
    meaningsAbsent: seq<Meaning>,
    closed: Option<bool>,
    pullRequestMode: Option<PullRequestMode>)

  predicate ExpectedHolds(claims: Claims, projection: Projection, modes: Modes) {
    var observed := ObservedMeanings(projection);
    && (forall m :: m in claims.meaningsPresent ==> m in observed)
    && (forall m :: m in claims.meaningsAbsent ==> m !in observed)
    && (claims.closed.Some? ==> claims.closed.value == projection.closedBy.Some?)
    && (claims.pullRequestMode.Some? ==> ModeRead(modes, claims.pullRequestMode.value) == Some(true))
  }

  datatype World = World(observedMeanings: seq<Meaning>, preconditionHolds: bool, closure: Option<Closure>, modes: Modes)

  /** The one constructor of the safety facts: missing or conflicted data establishes no precondition. */
  function DeriveWorld(projection: Option<Projection>, claims: Claims, modes: Modes): World {
    match projection
    case None => World([], false, None, modes)
    case Some(p) =>
      World(ObservedMeanings(p), p.Position? && ExpectedHolds(claims, p, modes), p.closedBy, modes)
  }

  /** A mode is claimed of an item exactly while it was read to be in it; a mode nobody read is never claimed truly. */
  lemma AModeIsClaimedIffRead(claims: Claims, projection: Projection, modes: Modes)
    requires claims.pullRequestMode.Some?
    ensures ExpectedHolds(claims, projection, modes) <==>
              && ExpectedHolds(claims.(pullRequestMode := None), projection, modes)
              && (if claims.pullRequestMode.value.Draft? then modes.draft else modes.changesRequested) == Some(true)
  {
  }

  // ----- What projecting keeps -----

  /**
   * Projecting loses nothing that was observed, in either branch: read back, the projection holds exactly the
   * meanings seen, the pause exactly when it was seen, and why the item is closed.
   */
  lemma ProjectionKeepsWhatWasSeen(kind: EntityKind, seen: Observation)
    ensures forall m :: m in ObservedMeanings(Project(kind, seen)) <==> m in seen.meanings
    ensures Project(kind, seen).blocked <==> Blocked in seen.meanings
    ensures Project(kind, seen).closedBy == seen.closedBy
  {
    var distinct := Distinct(seen.meanings);
    var positions := OfFlow(distinct, kind);
    if |positions| == 1 {
      assert forall m :: m in positions ==> m == positions[0];
    }
    forall m ensures m in Present(Project(kind, seen)) <==> m in seen.meanings {
      assert m in positions <==> m in seen.meanings && FlowOf(m) == Some(kind);
      assert m in Foreign(distinct, kind) <==> m in seen.meanings && FlowOf(m) != Some(kind) && m != Blocked;
    }
  }

  lemma {:induction false} DistinctHasNoRepeats(meanings: seq<Meaning>)
    ensures forall i, j :: 0 <= i < j < |Distinct(meanings)| ==> Distinct(meanings)[i] != Distinct(meanings)[j]
  {
    if meanings != [] {
      DistinctHasNoRepeats(meanings[..|meanings| - 1]);
    }
  }

  lemma {:induction false} TwoOfAFlow(list: seq<Meaning>, kind: EntityKind, a: Meaning, b: Meaning)
    requires a in list && b in list && a != b && FlowOf(a) == FlowOf(b) == Some(kind)
    ensures |OfFlow(list, kind)| > 1
  {
    if a in list[1..] && b in list[1..] {
      TwoOfAFlow(list[1..], kind, a, b);
    } else {
      var other := if list[0] == a then b else a;
      assert other in list[1..] && other in OfFlow(list[1..], kind);
    }
  }

  lemma {:induction false} OneOfAFlow(list: seq<Meaning>, kind: EntityKind)
    requires forall i, j :: 0 <= i < j < |list| ==> list[i] != list[j]
    requires |OfFlow(list, kind)| > 1
    ensures exists a, b :: a in list && b in list && a != b && FlowOf(a) == FlowOf(b) == Some(kind)
  {
    if FlowOf(list[0]) == Some(kind) {
      var b := OfFlow(list[1..], kind)[0];
      assert b in OfFlow(list[1..], kind);
      assert list[0] in list && b in list && list[0] != b;
    } else {
      OneOfAFlow(list[1..], kind);
    }
  }

  predicate TwoPositions(kind: EntityKind, meanings: seq<Meaning>) {
    exists a, b :: a in meanings && b in meanings && a != b && FlowOf(a) == FlowOf(b) == Some(kind)
  }

  /** An item is conflicted exactly when it carries two positions of its own flow; repeats and other flows never conflict. */
  lemma ConflictedIff(kind: EntityKind, seen: Observation)
    ensures Project(kind, seen).Conflict? <==> TwoPositions(kind, seen.meanings)
  {
    var distinct := Distinct(seen.meanings);
    DistinctHasNoRepeats(seen.meanings);
    if Project(kind, seen).Conflict? {
      OneOfAFlow(distinct, kind);
    }
    if a, b :| a in seen.meanings && b in seen.meanings && a != b && FlowOf(a) == FlowOf(b) == Some(kind) {
      TwoOfAFlow(distinct, kind, a, b);
    }
  }

  // ----- The maps' shape -----

  /** An edge has a cause and leads somewhere else; its causes and its ends are of its own flow. */
  predicate WellDrawn(e: Edge, kind: EntityKind) {
    && e.causes != [] && e.from != e.to
    && (forall c :: c in e.causes ==> IsCauseOf(kind, c))
    && (e.from.Some? ==> FlowOf(e.from.value) == Some(kind))
    && (e.to.Some? ==> FlowOf(e.to.value) == Some(kind))
  }

  lemma IssueMapIsWellDrawn(i: nat)
    requires i < |ISSUE_EDGES|
    ensures WellDrawn(ISSUE_EDGES[i], Issue)
  {
    assert i == 0 || i == 1 || i == 2 || i == 3 || i == 4 || i == 5 || i == 6;
  }

  lemma PullRequestMapIsWellDrawn(i: nat)
    requires i < |PR_EDGES|
    ensures WellDrawn(PR_EDGES[i], PullRequest)
  {
    assert i == 0 || i == 1 || i == 2 || i == 3 || i == 4 || i == 5 || i == 6 || i == 7 || i == 8 || i == 9;
  }

  lemma MapsAreWellDrawn(kind: EntityKind, e: Edge)
    requires e in EdgesOf(kind)
    ensures WellDrawn(e, kind)
  {
    var i :| 0 <= i < |EdgesOf(kind)| && EdgesOf(kind)[i] == e;
    if kind.Issue? {
      IssueMapIsWellDrawn(i);
    } else {
      PullRequestMapIsWellDrawn(i);
    }
  }

  lemma IssueEdgesDrawnOnce(i: nat, j: nat)
    requires i < j < |ISSUE_EDGES|
    ensures ISSUE_EDGES[i].from != ISSUE_EDGES[j].from || ISSUE_EDGES[i].to != ISSUE_EDGES[j].to
  {
    assert i == 0 || i == 1 || i == 2 || i == 3 || i == 4 || i == 5;
  }

  lemma PullRequestEdgesDrawnOnce(i: nat, j: nat)
    requires i < j < |PR_EDGES|
    ensures PR_EDGES[i].from != PR_EDGES[j].from || PR_EDGES[i].to != PR_EDGES[j].to
  {
    assert i == 0 || i == 1 || i == 2 || i == 3 || i == 4 || i == 5 || i == 6 || i == 7 || i == 8;
  }

  /** Between two ends a map draws one edge. */
  predicate DrawnOnce(edges: seq<Edge>) {
    forall i, j :: 0 <= i < j < |edges| ==> edges[i].from != edges[j].from || edges[i].to != edges[j].to
  }

  lemma MapsAreDrawnOnce(kind: EntityKind)
    ensures DrawnOnce(EdgesOf(kind))
  {
    if kind.Issue? {
      forall i: nat, j: nat | i < j < |ISSUE_EDGES|
        ensures ISSUE_EDGES[i].from != ISSUE_EDGES[j].from || ISSUE_EDGES[i].to != ISSUE_EDGES[j].to
      {
        IssueEdgesDrawnOnce(i, j);
      }
    } else {
      forall i: nat, j: nat | i < j < |PR_EDGES|
        ensures PR_EDGES[i].from != PR_EDGES[j].from || PR_EDGES[i].to != PR_EDGES[j].to
      {
        PullRequestEdgesDrawnOnce(i, j);
      }
    }
  }

  /** Some edge joins the two ends. */
  predicate Drawn(edges: seq<Edge>, from: Option<Meaning>, to: Option<Meaning>) {
    exists e :: e in edges && Joins(e, from, to)
  }

  /** Some edge joins the two ends and takes the cause. */
  predicate Takes(edges: seq<Edge>, from: Option<Meaning>, to: Option<Meaning>, cause: Cause) {
    exists e :: e in edges && Joins(e, from, to) && cause in e.causes
  }

  /**
   * On a map that draws each edge once, a move is allowed exactly when some edge takes it, and refused for want of an
   * edge exactly when none is drawn.
   */
  lemma EvaluateFollowsTheMap(edges: seq<Edge>, from: Option<Meaning>, to: Option<Meaning>, cause: Cause)
    requires DrawnOnce(edges)
    ensures Evaluate(edges, from, to, cause).Allowed? <==> Takes(edges, from, to, cause)
    ensures Evaluate(edges, from, to, cause).NoSuchEdge? <==> !Drawn(edges, from, to)
  {
    var found := FindEdge(edges, from, to);
    if e :| found.Some? && e in edges && Joins(e, from, to) && cause in e.causes {
      var i :| 0 <= i < |edges| && edges[i] == e;
      var j :| 0 <= j < |edges| && edges[j] == found.value;
      assert i == j;
    }
  }

  /** What an edge takes is of its flow: the cause, and both ends. */
  lemma TakenIsOfTheFlow(kind: EntityKind, from: Option<Meaning>, to: Option<Meaning>, cause: Cause)
    requires Takes(EdgesOf(kind), from, to, cause)
    ensures IsCauseOf(kind, cause)
    ensures from.Some? ==> FlowOf(from.value) == Some(kind)
    ensures to.Some? ==> FlowOf(to.value) == Some(kind)
  {
    var e :| e in EdgesOf(kind) && Joins(e, from, to) && cause in e.causes;
    MapsAreWellDrawn(kind, e);
  }

  /** The flow's map allows exactly the moves an edge of it takes, all of them of the flow. */
  lemma TransitionFollowsTheMap(kind: EntityKind, from: Option<Meaning>, to: Option<Meaning>, cause: Cause)
    ensures CanTransition(kind, from, to, cause).Allowed? <==> Takes(EdgesOf(kind), from, to, cause)
    ensures CanTransition(kind, from, to, cause).Allowed? ==>
              && IsCauseOf(kind, cause)
              && (from.Some? ==> FlowOf(from.value) == Some(kind))
              && (to.Some? ==> FlowOf(to.value) == Some(kind))
  {
    MapsAreDrawnOnce(kind);
    EvaluateFollowsTheMap(EdgesOf(kind), from, to, cause);
    if Takes(EdgesOf(kind), from, to, cause) {
      TakenIsOfTheFlow(kind, from, to, cause);
    }
  }
}
