/**
 * Content creations, one at a time: a spacing between admitted starts, and a count of slots in an hour that begins
 * with the slot that found the last one over. Each turn brings the clock readings it took; `None` is a clock that threw.
 */
module CreationLane {
  import opened Wrappers
  import opened Hours

  const CONTENT_CREATION_SPACING_MS := 2_000

  datatype Turn = Turn(heldBySecondaryLimit: bool, started: Option<int>, sleepBroke: bool, woke: Option<int>)

  datatype Outcome = Held | HourIsFull | ClockBroke | SleepBroke | Admitted(at: int)

  datatype Lane = Lane(lastCreationAt: Option<int>, hourFrom: Option<int>, createdThisHour: nat)

  const IDLE := Lane(None, None, 0)

  predicate NewHour(lane: Lane, at: int) {
    lane.hourFrom.None? || at - lane.hourFrom.value >= HOUR_MS
  }

  predicate HasSlot(hourly: int, lane: Lane, at: int) {
    (if NewHour(lane, at) then 0 else lane.createdThisHour) < hourly
  }

  /** The lane after it was asked for a slot at `at`: a new hour is anchored even when it holds no slot. */
  function Asked(hourly: int, lane: Lane, at: int): Lane {
    var anchored := if NewHour(lane, at) then lane.(hourFrom := Some(at), createdThisHour := 0) else lane;
    if anchored.createdThisHour < hourly then anchored.(createdThisHour := anchored.createdThisHour + 1) else anchored
  }

  /** When the next creation may start, as far as the spacing goes. */
  function Due(lane: Lane): int {
    if lane.lastCreationAt.None? then 0 else lane.lastCreationAt.value + CONTENT_CREATION_SPACING_MS
  }

  predicate Waits(lane: Lane, at: int) {
    Due(lane) > at
  }

  function OutcomeOf(hourly: int, lane: Lane, turn: Turn): Outcome {
    if turn.heldBySecondaryLimit then Held
    else if turn.started.None? then ClockBroke
    else if !HasSlot(hourly, lane, turn.started.value) then HourIsFull
    else if Waits(lane, turn.started.value) && turn.sleepBroke then SleepBroke
    else if turn.woke.None? then ClockBroke
    else Admitted(turn.woke.value)
  }

  function After(hourly: int, lane: Lane, turn: Turn): Lane {
    if turn.heldBySecondaryLimit || turn.started.None? then lane
    else
      var asked := Asked(hourly, lane, turn.started.value);
      var outcome := OutcomeOf(hourly, lane, turn);
      if outcome.Admitted? then asked.(lastCreationAt := Some(outcome.at)) else asked
  }

  class ContentLane {
    const hourly: int
    var lastCreationAt: Option<int>
    var hourFrom: Option<int>
    var createdThisHour: nat

    function View(): Lane reads this {
      Lane(lastCreationAt, hourFrom, createdThisHour)
    }

    constructor (hourly: int)
      ensures this.hourly == hourly && View() == IDLE
    {
      this.hourly := hourly;
      lastCreationAt, hourFrom, createdThisHour := None, None, 0;
    }

    method TakeCreationSlot(at: int) returns (taken: bool)
      modifies this
      ensures taken == HasSlot(hourly, old(View()), at)
      ensures View() == Asked(hourly, old(View()), at)
    {
      if hourFrom.None? || at - hourFrom.value >= HOUR_MS {
        hourFrom, createdThisHour := Some(at), 0;
      }
      if createdThisHour >= hourly {
        return false;
      }
      createdThisHour := createdThisHour + 1;
      return true;
    }

    method SpaceCreation(turn: Turn) returns (outcome: Outcome)
      modifies this
      ensures outcome == OutcomeOf(hourly, old(View()), turn)
      ensures View() == After(hourly, old(View()), turn)
    {
      if turn.heldBySecondaryLimit {
        return Held;
      }
      if turn.started.None? {
        return ClockBroke;
      }
      var taken := TakeCreationSlot(turn.started.value);
      if !taken {
        return HourIsFull;
      }
      var due := if lastCreationAt.None? then 0 else lastCreationAt.value + CONTENT_CREATION_SPACING_MS;
      if due > turn.started.value && turn.sleepBroke {
        return SleepBroke;
      }
      if turn.woke.None? {
        return ClockBroke;
      }
      lastCreationAt := turn.woke;
      return Admitted(turn.woke.value);
    }
  }

  // ----- One turn -----

  /** A turn's creation is admitted exactly when no hold stands, a slot is left and its spacing, if any, was slept out. */
  lemma WhatATurnComesTo(hourly: int, lane: Lane, turn: Turn)
    ensures var outcome := OutcomeOf(hourly, lane, turn);
            var asks := !turn.heldBySecondaryLimit && turn.started.Some?;
            && (outcome.Held? <==> turn.heldBySecondaryLimit)
            && (outcome.HourIsFull? <==> asks && !HasSlot(hourly, lane, turn.started.value))
            && (outcome.SleepBroke? <==>
                  asks && HasSlot(hourly, lane, turn.started.value) && turn.started.value < Due(lane) && turn.sleepBroke)
            && (outcome.Admitted? <==>
                  && asks && HasSlot(hourly, lane, turn.started.value)
                  && (turn.started.value < Due(lane) ==> !turn.sleepBroke) && turn.woke.Some?)
            && (outcome.Admitted? ==> Some(outcome.at) == turn.woke)
  {
  }

  // ----- Runs -----

  /**
   * A lane and its history: the instants at which slots were taken, those at which creations were admitted, and for
   * each slot the index of the slot that anchored its hour. `latest` is the last clock reading.
   */
  datatype Run = Run(lane: Lane, slots: seq<int>, anchors: seq<nat>, starts: seq<int>, latest: Option<int>)

  predicate TakesSlot(hourly: int, lane: Lane, turn: Turn) {
    !turn.heldBySecondaryLimit && turn.started.Some? && HasSlot(hourly, lane, turn.started.value)
  }

  function Extended(hourly: int, run: Run, turn: Turn): Run {
    var outcome := OutcomeOf(hourly, run.lane, turn);
    var takes := TakesSlot(hourly, run.lane, turn);
    Run(
      After(hourly, run.lane, turn),
      if takes then run.slots + [turn.started.value] else run.slots,
      if !takes then run.anchors
      else if NewHour(run.lane, turn.started.value) || run.anchors == [] then run.anchors + [|run.slots|]
      else run.anchors + [run.anchors[|run.anchors| - 1]],
      if outcome.Admitted? then run.starts + [outcome.at] else run.starts,
      if turn.woke.Some? then turn.woke else if turn.started.Some? then turn.started else run.latest)
  }

  function Reach(hourly: int, turns: seq<Turn>): Run {
    if turns == [] then Run(IDLE, [], [], [], None)
    else Extended(hourly, Reach(hourly, turns[..|turns| - 1]), turns[|turns| - 1])
  }

  /** The clock never runs backwards, and a sleep lasts at least as long as it was asked to. */
  predicate Fair(run: Run, turn: Turn) {
    && (turn.started.Some? && run.latest.Some? ==> run.latest.value <= turn.started.value)
    && (turn.woke.Some? && run.latest.Some? ==> run.latest.value <= turn.woke.value)
    && (turn.started.Some? && turn.woke.Some? ==> turn.started.value <= turn.woke.value)
    && (turn.started.Some? && turn.woke.Some? && Waits(run.lane, turn.started.value) && !turn.sleepBroke
        ==> Due(run.lane) <= turn.woke.value)
  }

  predicate AllFair(hourly: int, turns: seq<Turn>) {
    turns == [] || (AllFair(hourly, turns[..|turns| - 1])
                    && Fair(Reach(hourly, turns[..|turns| - 1]), turns[|turns| - 1]))
  }

  // ----- The spacing -----

  predicate SpacedApart(starts: seq<int>) {
    forall i :: 1 <= i < |starts| ==> starts[i] >= starts[i - 1] + CONTENT_CREATION_SPACING_MS
  }

  /** However turns fail in between, two creations in a row start at least the spacing apart. */
  lemma {:induction false} CreationsAreSpaced(hourly: int, turns: seq<Turn>)
    requires AllFair(hourly, turns)
    ensures var run := Reach(hourly, turns);
            && SpacedApart(run.starts)
            && run.lane.lastCreationAt == if run.starts == [] then None else Some(run.starts[|run.starts| - 1])
  {
    if turns != [] {
      CreationsAreSpaced(hourly, turns[..|turns| - 1]);
    }
  }

  // ----- The hourly ceiling -----

  /** Slot `k` stands in an hour of at most `hourly` slots, whose anchor is an hour or more past the one before. */
  predicate Anchored(hourly: int, slots: seq<int>, anchors: seq<nat>, k: nat)
    requires |anchors| == |slots|
  {
    && k < |slots| && anchors[k] <= k < anchors[k] + hourly
    && slots[anchors[k]] <= slots[k]
    && anchors[anchors[k]] == anchors[k]
    && (anchors[k] > 0 ==>
          var before := anchors[anchors[k] - 1];
          before < anchors[k] && slots[anchors[k]] >= slots[before] + HOUR_MS)
  }

  predicate InHours(hourly: int, slots: seq<int>, anchors: seq<nat>) {
    && |anchors| == |slots|
    && (forall i, j :: 0 <= i <= j < |slots| ==> slots[i] <= slots[j])
    && (forall k: nat :: k < |slots| ==> Anchored(hourly, slots, anchors, k))
  }

  predicate Counted(hourly: int, run: Run) {
    && InHours(hourly, run.slots, run.anchors)
    && (run.slots == [] ==> run.lane.createdThisHour == 0 && (hourly > 0 ==> run.lane.hourFrom.None?))
    && (run.slots != [] ==>
          var last := |run.slots| - 1;
          && run.anchors[last] <= last
          && run.lane.hourFrom == Some(run.slots[run.anchors[last]])
          && run.lane.createdThisHour == |run.slots| - run.anchors[last]
          && run.latest.Some? && run.slots[last] <= run.latest.value)
  }

  lemma AppendingASlot(hourly: int, slots: seq<int>, anchors: seq<nat>, at: int, anchor: nat)
    requires InHours(hourly, slots, anchors)
    requires slots == [] || slots[|slots| - 1] <= at
    requires Anchored(hourly, slots + [at], anchors + [anchor], |slots|)
    ensures InHours(hourly, slots + [at], anchors + [anchor])
  {
    forall k: nat | k < |slots| ensures Anchored(hourly, slots + [at], anchors + [anchor], k) {
      assert Anchored(hourly, slots, anchors, k);
    }
  }

  lemma ExtendingCounts(hourly: int, run: Run, turn: Turn)
    requires Counted(hourly, run) && Fair(run, turn)
    ensures Counted(hourly, Extended(hourly, run, turn))
  {
    var n := |run.slots|;
    if n > 0 {
      assert Anchored(hourly, run.slots, run.anchors, n - 1);
    }
    if TakesSlot(hourly, run.lane, turn) {
      var anchor := if NewHour(run.lane, turn.started.value) || n == 0 then n else run.anchors[n - 1];
      AppendingASlot(hourly, run.slots, run.anchors, turn.started.value, anchor);
    }
  }

  lemma {:induction false} SlotsComeInHours(hourly: int, turns: seq<Turn>)
    requires AllFair(hourly, turns)
    ensures Counted(hourly, Reach(hourly, turns))
  {
    if turns != [] {
      SlotsComeInHours(hourly, turns[..|turns| - 1]);
      ExtendingCounts(hourly, Reach(hourly, turns[..|turns| - 1]), turns[|turns| - 1]);
    }
  }

  lemma HoursAdvance(hourly: int, earlier: int, later: int)
    requires 0 <= earlier && earlier + HOUR_MS <= later && hourly >= 0
    ensures hourly * (earlier / HOUR_MS) + hourly <= hourly * (later / HOUR_MS)
  {
    ScaledHours(hourly, earlier / HOUR_MS + 1, later / HOUR_MS);
  }

  lemma ScaledHours(hourly: int, fewer: int, more: int)
    requires hourly >= 0 && fewer <= more
    ensures hourly * fewer <= hourly * more
  {
  }

  /** As many slots stand before an hour's anchor as whole hours before it could hold. */
  lemma {:induction false} BeforeAnAnchor(hourly: int, slots: seq<int>, anchors: seq<nat>, k: nat)
    requires InHours(hourly, slots, anchors) && k < |slots|
    ensures anchors[k] <= k && anchors[k] <= hourly * ((slots[anchors[k]] - slots[0]) / HOUR_MS)
    decreases anchors[k]
  {
    var anchor := anchors[k];
    assert Anchored(hourly, slots, anchors, k);
    if anchor > 0 {
      assert Anchored(hourly, slots, anchors, anchor - 1);
      var previous := anchors[anchor - 1];
      BeforeAnAnchor(hourly, slots, anchors, anchor - 1);
      HoursAdvance(hourly, slots[previous] - slots[0], slots[anchor] - slots[0]);
    }
  }

  lemma SlotsInOrder(hourly: int, slots: seq<int>, anchors: seq<nat>, k: nat)
    requires InHours(hourly, slots, anchors) && k < |slots|
    ensures k + 1 <= hourly * ((slots[k] - slots[0]) / HOUR_MS + 1)
  {
    assert Anchored(hourly, slots, anchors, k);
    BeforeAnAnchor(hourly, slots, anchors, k);
    var anchored, now := (slots[anchors[k]] - slots[0]) / HOUR_MS, (slots[k] - slots[0]) / HOUR_MS;
    ScaledHours(hourly, anchored, now);
    assert hourly * (now + 1) == hourly * now + hourly;
  }

  /** Within `t` of the first slot, at most `hourly` times as many slots are taken as hours have begun. */
  lemma SlotsOverTime(hourly: int, turns: seq<Turn>, k: nat)
    requires AllFair(hourly, turns) && k < |Reach(hourly, turns).slots|
    ensures var slots := Reach(hourly, turns).slots;
            k + 1 <= hourly * ((slots[k] - slots[0]) / HOUR_MS + 1)
  {
    SlotsComeInHours(hourly, turns);
    var run := Reach(hourly, turns);
    SlotsInOrder(hourly, run.slots, run.anchors, k);
  }

  /** Any stretch shorter than an hour, wherever it begins, holds fewer than twice the ceiling. */
  lemma AnyHourHoldsLessThanTwice(hourly: int, turns: seq<Turn>, i: nat, j: nat)
    requires AllFair(hourly, turns) && i <= j < |Reach(hourly, turns).slots|
    requires Reach(hourly, turns).slots[j] < Reach(hourly, turns).slots[i] + HOUR_MS
    ensures j - i + 1 <= 2 * hourly - 1
  {
    SlotsComeInHours(hourly, turns);
    var run := Reach(hourly, turns);
    var anchor := run.anchors[j];
    assert Anchored(hourly, run.slots, run.anchors, j);
    if anchor > i {
      var previous := run.anchors[anchor - 1];
      assert Anchored(hourly, run.slots, run.anchors, anchor - 1);
      assert run.slots[anchor] >= run.slots[previous] + HOUR_MS;
      assert previous < i;
    }
  }

  /** Slots that stand in one anchored hour keep to the ceiling; only a stretch across an anchor can pass it. */
  lemma WithinOneAnchorKeepsTheCeiling(hourly: int, turns: seq<Turn>, i: nat, j: nat)
    requires AllFair(hourly, turns) && i <= j < |Reach(hourly, turns).slots|
    ensures var run := Reach(hourly, turns);
            |run.anchors| == |run.slots| && (run.anchors[j] <= i ==> j - i + 1 <= hourly)
  {
    SlotsComeInHours(hourly, turns);
    var run := Reach(hourly, turns);
    assert Anchored(hourly, run.slots, run.anchors, j);
  }

  // ----- The bound is met -----

  /** Two full hours back to back: `n` slots from 0 on, and `n` more from the next anchor on. */
  ghost predicate Crowds(n: nat, at: nat -> int, admitted: bool) {
    && n >= 1 && at(0) == 0
    && (forall k: nat, m: nat :: k <= m < 2 * n ==> at(k) <= at(m))
    && at(n - 1) < HOUR_MS <= at(n) && at(2 * n - 1) < at(n) + HOUR_MS
    && (admitted ==> forall k: nat, m: nat :: k < m < 2 * n ==> at(k) + CONTENT_CREATION_SPACING_MS <= at(m))
  }

  /** One creation asked for at each instant: admitted at once, or stopped by its second clock reading. */
  function CrowdTurn(at: nat -> int, admitted: bool, k: nat): Turn {
    Turn(false, Some(at(k)), false, if admitted then Some(at(k)) else None)
  }

  function CrowdTurns(at: nat -> int, admitted: bool, m: nat): seq<Turn> {
    if m == 0 then [] else CrowdTurns(at, admitted, m - 1) + [CrowdTurn(at, admitted, m - 1)]
  }

  function Times(at: nat -> int, m: nat): (times: seq<int>)
    ensures |times| == m && forall k :: 0 <= k < m ==> times[k] == at(k)
  {
    if m == 0 then [] else Times(at, m - 1) + [at(m - 1)]
  }

  /** A lane `m` slots into a crowd, the last taken at `last` in the hour anchored at `anchor`. */
  function LaneAfter(n: nat, admitted: bool, m: nat, last: int, anchor: int): Lane {
    if m == 0 then IDLE
    else Lane(if admitted then Some(last) else None, Some(anchor), if m <= n then m else m - n)
  }

  /** The lane after the first `m` of those turns. */
  function CrowdLane(n: nat, at: nat -> int, admitted: bool, m: nat): Lane {
    if m == 0 then IDLE else LaneAfter(n, admitted, m, at(m - 1), if m <= n then at(0) else at(n))
  }

  lemma LaneStep(n: nat, admitted: bool, m: nat, last: int, anchor: int, t: int)
    requires n >= 1 && m < 2 * n && t >= 0
    requires m > 0 && admitted ==> last + CONTENT_CREATION_SPACING_MS <= t
    requires m > 0 ==> (t - anchor >= HOUR_MS <==> m == n)
    ensures var lane := LaneAfter(n, admitted, m, last, anchor);
            var turn := Turn(false, Some(t), false, if admitted then Some(t) else None);
            && TakesSlot(n, lane, turn)
            && OutcomeOf(n, lane, turn) == (if admitted then Admitted(t) else ClockBroke)
            && After(n, lane, turn) == LaneAfter(n, admitted, m + 1, t, if m == 0 || m == n then t else anchor)
  {
  }

  /** A run that has seen the first `m` of those turns, and no others. */
  ghost predicate CrowdRun(n: nat, at: nat -> int, admitted: bool, m: nat, run: Run) {
    && run.slots == Times(at, m)
    && run.starts == (if admitted then Times(at, m) else [])
    && run.lane == CrowdLane(n, at, admitted, m)
    && run.latest == if m == 0 then None else Some(at(m - 1))
  }

  ghost predicate CrowdReached(n: nat, at: nat -> int, admitted: bool, m: nat) {
    var turns := CrowdTurns(at, admitted, m);
    AllFair(n, turns) && CrowdRun(n, at, admitted, m, Reach(n, turns))
  }

  lemma CrowdLaneStep(n: nat, at: nat -> int, admitted: bool, m: nat)
    requires Crowds(n, at, admitted) && m < 2 * n
    ensures var lane, turn := CrowdLane(n, at, admitted, m), CrowdTurn(at, admitted, m);
            && TakesSlot(n, lane, turn)
            && OutcomeOf(n, lane, turn) == (if admitted then Admitted(at(m)) else ClockBroke)
            && After(n, lane, turn) == CrowdLane(n, at, admitted, m + 1)
  {
    assert at(0) <= at(m);
    if m < n {
      assert at(m) <= at(n - 1);
    } else {
      assert at(n) <= at(m) <= at(2 * n - 1);
    }
    if m > 0 {
      assert at(m - 1) <= at(m);
      LaneStep(n, admitted, m, at(m - 1), if m <= n then at(0) else at(n), at(m));
    } else {
      LaneStep(n, admitted, m, 0, 0, at(m));
    }
  }

  lemma CrowdRunStep(n: nat, at: nat -> int, admitted: bool, m: nat, run: Run)
    requires Crowds(n, at, admitted) && 0 < m <= 2 * n && CrowdRun(n, at, admitted, m - 1, run)
    ensures Fair(run, CrowdTurn(at, admitted, m - 1))
    ensures CrowdRun(n, at, admitted, m, Extended(n, run, CrowdTurn(at, admitted, m - 1)))
  {
    CrowdLaneStep(n, at, admitted, m - 1);
    if m > 1 {
      assert at(m - 2) <= at(m - 1);
    }
  }

  lemma CrowdStep(n: nat, at: nat -> int, admitted: bool, m: nat)
    requires Crowds(n, at, admitted) && 0 < m <= 2 * n && CrowdReached(n, at, admitted, m - 1)
    ensures CrowdReached(n, at, admitted, m)
  {
    var shorter, turn := CrowdTurns(at, admitted, m - 1), CrowdTurn(at, admitted, m - 1);
    CrowdRunStep(n, at, admitted, m, Reach(n, shorter));
    ReachLast(n, shorter, turn);
    assert CrowdTurns(at, admitted, m) == shorter + [turn];
  }

  lemma ReachLast(hourly: int, shorter: seq<Turn>, turn: Turn)
    ensures Reach(hourly, shorter + [turn]) == Extended(hourly, Reach(hourly, shorter), turn)
    ensures AllFair(hourly, shorter + [turn]) <==> AllFair(hourly, shorter) && Fair(Reach(hourly, shorter), turn)
  {
    assert (shorter + [turn])[..|shorter|] == shorter;
  }

  lemma CrowdStarts(n: nat, at: nat -> int, admitted: bool)
    ensures CrowdReached(n, at, admitted, 0)
  {
    assert CrowdTurns(at, admitted, 0) == [] && Times(at, 0) == [];
  }

  lemma {:induction false} CrowdsAreReached(n: nat, at: nat -> int, admitted: bool, m: nat)
    requires Crowds(n, at, admitted) && m <= 2 * n
    ensures CrowdReached(n, at, admitted, m)
  {
    if m == 0 {
      CrowdStarts(n, at, admitted);
    } else {
      CrowdsAreReached(n, at, admitted, m - 1);
      CrowdStep(n, at, admitted, m);
    }
  }

  /** The slots `i` to `j` of a run stand within one hour, wherever it begins. */
  predicate Stretch(hourly: int, turns: seq<Turn>, i: nat, j: nat) {
    var slots := Reach(hourly, turns).slots;
    i <= j < |slots| && slots[j] < slots[i] + HOUR_MS
  }

  /** In every fair run every stretch shorter than an hour keeps to the ceiling itself. */
  ghost predicate EveryStretchKeeps(hourly: int) {
    forall turns, i: nat, j: nat :: AllFair(hourly, turns) && Stretch(hourly, turns, i, j) ==> j - i + 1 <= hourly
  }

  lemma ACrowdedStretch(n: nat, at: nat -> int, admitted: bool)
    requires Crowds(n, at, admitted) && at(2 * n - 1) < at(1) + HOUR_MS
    ensures var turns := CrowdTurns(at, admitted, 2 * n);
            && AllFair(n, turns) && Stretch(n, turns, 1, 2 * n - 1)
            && Reach(n, turns).starts == (if admitted then Reach(n, turns).slots else [])
  {
    CrowdsAreReached(n, at, admitted, 2 * n);
  }

  /**
   * The ceiling is one of each anchored hour and not of any hour: every stretch shorter than an hour keeps to it if
   * and only if it is at most one.
   */
  lemma EveryStretchKeepsIff(hourly: int)
    ensures EveryStretchKeeps(hourly) <==> hourly <= 1
  {
    if hourly <= 1 {
      forall turns, i: nat, j: nat | AllFair(hourly, turns) && Stretch(hourly, turns, i, j) ensures j - i + 1 <= hourly {
        AnyHourHoldsLessThanTwice(hourly, turns, i, j);
      }
    } else {
      var at := (k: nat) => if k == 0 then 0 else if k < hourly then HOUR_MS - 1 else HOUR_MS;
      ACrowdedStretch(hourly, at, false);
      assert Stretch(hourly, CrowdTurns(at, false, 2 * hourly), 1, 2 * hourly - 1);
    }
  }

  /**
   * One less than twice is met, for every ceiling up to 900, by creations that are all admitted, properly spaced: the
   * last of one hour and all of the next.
   */
  lemma LessThanTwiceIsReached(n: nat)
    requires 1 <= n <= 900
    ensures exists turns ::
              && AllFair(n, turns) && Stretch(n, turns, 1, 2 * n - 1)
              && Reach(n, turns).starts == Reach(n, turns).slots
  {
    var at := (k: nat) =>
      if k == 0 then 0
      else if k < n then HOUR_MS - CONTENT_CREATION_SPACING_MS * (n - k)
      else HOUR_MS + CONTENT_CREATION_SPACING_MS * (k - n);
    ACrowdedStretch(n, at, true);
  }
}
