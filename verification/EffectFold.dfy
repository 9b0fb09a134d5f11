/**
 * From a history of facts to a state, three ways.
 * The loop is proved equal to a step-by-step definition, and that definition to a reading
 * with no state at all: which histories are possible, and what the last call fact says of them.
 */
module EffectFold {
  import opened Wrappers
  import opened Facts

  // ----- The loop, one step at a time -----

  /** The loop's variables, or the fault that ended it. */
  datatype Progress =
    | Live(landed: set<int>, attempts: map<int, int>, open: Option<Fact>, settled: Option<LedgerState>, anyCall: bool)
    | Broken(fault: Fault)

  const START := Live({}, map[], None, None, false)

  /** The first call in [from, call) that never landed. */
  function FirstGap(from: int, call: int, landed: set<int>): (gap: Option<int>)
    ensures gap.None? ==> forall s :: from <= s < call ==> s in landed
    ensures gap.Some? ==> from <= gap.value < call && gap.value !in landed
    ensures gap.Some? ==> forall s :: from <= s < gap.value ==> s in landed
    decreases call - from
  {
    if from >= call then None
    else if from !in landed then Some(from)
    else FirstGap(from + 1, call, landed)
  }

  function Spent(attempts: map<int, int>, call: int): int {
    if call in attempts then attempts[call] else 0
  }

  function HowOf(kind: FactKind): How {
    if kind.Refused? then ByRefusal else if kind.Abandoned? then ByAbandoning else ByLanding
  }

  function Advance(p: Progress, fact: Fact, planLength: int): Progress {
    if p.Broken? || EffectLevel(fact.kind) then p
    else if p.settled.Some? then Broken(AfterSettled(fact.kind))
    else if fact.call < 1 || fact.call > planLength then Broken(OutsidePlan(fact.call))
    else if fact.kind.Sent? then
      if p.open.Some? && p.open.value.call != fact.call then Broken(SendWhileOpen(fact.call, p.open.value.call))
      else match FirstGap(1, fact.call, p.landed)
        case Some(gap) => Broken(SendOverGap(fact.call, gap))
        case None => Live(p.landed, p.attempts[fact.call := Spent(p.attempts, fact.call) + 1], Some(fact), None, true)
    else if p.open.None? || p.open.value.call != fact.call then Broken(ClosesNothing(fact.kind, fact.call))
    else match fact.kind
      case Landed =>
        Live(p.landed + {fact.call}, p.attempts, None,
             if fact.call == planLength then Some(Settled(ByLanding, fact.call)) else None, true)
      case Unsent => Live(p.landed, p.attempts[fact.call := Spent(p.attempts, fact.call) - 1], None, None, true)
      case _ => Live(p.landed, p.attempts, None, Some(Settled(HowOf(fact.kind), fact.call)), true)
  }

  function Reach(facts: seq<Fact>, planLength: int): Progress {
    if facts == [] then START
    else Advance(Reach(facts[..|facts| - 1], planLength), facts[|facts| - 1], planLength)
  }

  function Answer(p: Progress): LedgerState {
    match p
    case Broken(fault) => Inconsistent(fault)
    case Live(landed, attempts, open, settled, anyCall) =>
      if settled.Some? then settled.value
      else if open.Some? then LedgerState.Open(open.value.call, open.value.payload, Spent(attempts, open.value.call))
      else if !anyCall then NeverStarted
      else Resumable(|landed| + 1)
  }

  /** The answer the loop gives where it ends. */
  function FoldOf(facts: seq<Fact>, planLength: int): LedgerState {
    Answer(Reach(facts, planLength))
  }

  method GapBefore(call: int, landed: set<int>) returns (gap: Option<int>)
    ensures gap == FirstGap(1, call, landed)
    ensures gap.None? <==> forall s :: 1 <= s < call ==> s in landed
  {
    var earlier := 1;
    while earlier < call
      invariant FirstGap(1, call, landed) == FirstGap(earlier, call, landed)
    {
      if earlier !in landed {
        return Some(earlier);
      }
      earlier := earlier + 1;
    }
    return None;
  }

  /** The loop: it stops at the first fault, and otherwise ends in the answer of the steps taken one by one. */
  method Fold(facts: seq<Fact>, planLength: int) returns (state: LedgerState)
    ensures state == FoldOf(facts, planLength)
  {
    var landed: set<int> := {};
    var attempts: map<int, int> := map[];
    var open: Option<Fact> := None;
    var settled: Option<LedgerState> := None;
    var anyCall := false;
    for i := 0 to |facts|
      invariant Reach(facts[..i], planLength) == Live(landed, attempts, open, settled, anyCall)
      invariant forall s :: s in attempts.Keys <==> s in Reach(facts[..i], planLength).attempts.Keys
    {
      var fact := facts[i];
      assert facts[..i + 1][..i] == facts[..i];
      BrokenStays(facts, i + 1, planLength);
      if EffectLevel(fact.kind) {
        continue;
      }
      anyCall := true;
      if settled.Some? {
        return Inconsistent(AfterSettled(fact.kind));
      }
      if fact.call < 1 || fact.call > planLength {
        return Inconsistent(OutsidePlan(fact.call));
      }
      if fact.kind.Sent? {
        if open.Some? && open.value.call != fact.call {
          return Inconsistent(SendWhileOpen(fact.call, open.value.call));
        }
        var gap := GapBefore(fact.call, landed);
        if gap.Some? {
          return Inconsistent(SendOverGap(fact.call, gap.value));
        }
        open := Some(fact);
        attempts := attempts[fact.call := Spent(attempts, fact.call) + 1];
        continue;
      }
      if open.None? || open.value.call != fact.call {
        return Inconsistent(ClosesNothing(fact.kind, fact.call));
      }
      open := None;
      if fact.kind.Landed? {
        landed := landed + {fact.call};
        if fact.call == planLength {
          settled := Some(Settled(ByLanding, fact.call));
        }
        continue;
      }
      if fact.kind.Unsent? {
        attempts := attempts[fact.call := Spent(attempts, fact.call) - 1];
      } else {
        settled := Some(Settled(HowOf(fact.kind), fact.call));
      }
    }
    assert facts[..|facts|] == facts;
    if settled.Some? {
      return settled.value;
    }
    if open.Some? {
      return LedgerState.Open(open.value.call, open.value.payload, Spent(attempts, open.value.call));
    }
    if !anyCall {
      return NeverStarted;
    }
    return Resumable(|landed| + 1);
  }

  // ----- Extension: what a longer history can still change -----

  /** Inconsistency is absorbing: once some prefix is impossible, no extension repairs it. */
  lemma {:induction false} BrokenStays(facts: seq<Fact>, i: nat, planLength: int)
    requires i <= |facts|
    ensures Reach(facts[..i], planLength).Broken? ==> Reach(facts, planLength) == Reach(facts[..i], planLength)
    decreases |facts|
  {
    if i == |facts| {
      assert facts[..i] == facts;
    } else {
      var shorter := facts[..|facts| - 1];
      assert shorter[..i] == facts[..i];
      BrokenStays(shorter, i, planLength);
    }
  }

  lemma {:induction false} ReachAppend(facts: seq<Fact>, more: seq<Fact>, planLength: int)
    ensures |more| == 1 ==> Reach(facts + more, planLength) == Advance(Reach(facts, planLength), more[0], planLength)
  {
    if |more| == 1 {
      assert (facts + more)[..|facts|] == facts;
    }
  }

  lemma {:induction false} InconsistencyIsAbsorbing(facts: seq<Fact>, more: seq<Fact>, planLength: int)
    requires FoldOf(facts, planLength).Inconsistent?
    ensures FoldOf(facts + more, planLength) == FoldOf(facts, planLength)
  {
    assert (facts + more)[..|facts|] == facts;
    ReachAnswer(facts, planLength);
    BrokenStays(facts + more, |facts|, planLength);
  }

  /** A settled effect accepts no further call fact, and an effect-level one leaves it settled alike. */
  lemma {:induction false} SettledAcceptsNoCall(facts: seq<Fact>, next: Fact, planLength: int)
    requires FoldOf(facts, planLength).Settled?
    ensures EffectLevel(next.kind) ==> FoldOf(facts + [next], planLength) == FoldOf(facts, planLength)
    ensures !EffectLevel(next.kind) ==> FoldOf(facts + [next], planLength) == Inconsistent(AfterSettled(next.kind))
  {
    ReachAppend(facts, [next], planLength);
  }

  // ----- The state machine's own invariant -----

  ghost predicate IsPrefix(landed: set<int>, k: int) {
    forall s :: s in landed <==> 1 <= s <= k
  }

  ghost predicate Sound(p: Progress, planLength: int) {
    p.Live? ==>
      && IsPrefix(p.landed, |p.landed|)
      && (forall s :: Spent(p.attempts, s) >= 0)
      && (p.open.Some? ==>
            && p.open.value.kind.Sent?
            && 1 <= p.open.value.call <= planLength
            && p.open.value.call <= |p.landed| + 1
            && Spent(p.attempts, p.open.value.call) >= 1)
      && (p.open.Some? || p.settled.Some? || p.landed != {} ==> p.anyCall)
      && (p.open.Some? ==> p.settled.None?)
      && (p.settled.Some? ==> p.settled.value.Settled? && 1 <= p.settled.value.call <= planLength)
      && (p.settled.None? && p.anyCall ==> |p.landed| < planLength)
      && |p.landed| <= if planLength < 0 then 0 else planLength
  }

  lemma {:induction false} PrefixSize(landed: set<int>, k: nat)
    requires IsPrefix(landed, k)
    ensures |landed| == k
    decreases k
  {
    if k == 0 {
      assert forall s :: s in landed ==> 1 <= s <= 0;
      assert landed <= {};
    } else {
      PrefixSize(landed - {k}, k - 1);
    }
  }

  lemma {:induction false} AdvanceIsSound(p: Progress, fact: Fact, planLength: int)
    requires Sound(p, planLength)
    ensures Sound(Advance(p, fact, planLength), planLength)
  {
    var next := Advance(p, fact, planLength);
    if next.Live? {
      forall s ensures Spent(next.attempts, s) >= 0 {
        assert Spent(p.attempts, s) >= 0;
      }
      if next.open.Some? && fact.call > 1 && !EffectLevel(fact.kind) {
        assert fact.call - 1 in p.landed;
      }
    }
    if next.Live? && next.landed != p.landed {
      var k := if fact.call > |p.landed| then fact.call else |p.landed|;
      assert IsPrefix(next.landed, k);
      PrefixSize(next.landed, k);
    }
  }

  lemma {:induction false} ReachIsSound(facts: seq<Fact>, planLength: int)
    ensures Sound(Reach(facts, planLength), planLength)
  {
    if facts != [] {
      ReachIsSound(facts[..|facts| - 1], planLength);
      AdvanceIsSound(Reach(facts[..|facts| - 1], planLength), facts[|facts| - 1], planLength);
    } else {
      assert IsPrefix({}, 0);
    }
  }

  lemma {:induction false} ReachAnswer(facts: seq<Fact>, planLength: int)
    ensures FoldOf(facts, planLength).Inconsistent? <==> Reach(facts, planLength).Broken?
  {
    ReachIsSound(facts, planLength);
  }

  // ----- The same answer read off the history, with no state -----

  /** The facts about calls, in order: what the loop does not skip. */
  function Calls(facts: seq<Fact>): (calls: seq<Fact>)
    ensures forall i :: 0 <= i < |calls| ==> !EffectLevel(calls[i].kind)
    ensures forall c :: c in calls ==> c in facts
  {
    if facts == [] then []
    else
      var last := facts[|facts| - 1];
      var before := Calls(facts[..|facts| - 1]);
      if EffectLevel(last.kind) then before else before + [last]
  }

  /** Does this call fact end the effect? */
  predicate Settles(fact: Fact, planLength: int) {
    fact.kind.Refused? || fact.kind.Abandoned? || (fact.kind.Landed? && fact.call == planLength)
  }

  ghost predicate HasLanded(calls: seq<Fact>, s: int) {
    exists j :: 0 <= j < |calls| && calls[j].kind.Landed? && calls[j].call == s
  }

  /** May the call at `i` stand where it does, given only the calls before it? */
  ghost predicate Possible(calls: seq<Fact>, i: nat, planLength: int)
    requires i < |calls|
  {
    && 1 <= calls[i].call <= planLength
    && (forall j :: 0 <= j < i ==> !Settles(calls[j], planLength))
    && if calls[i].kind.Sent?
       then && (i > 0 && calls[i - 1].kind.Sent? ==> calls[i - 1].call == calls[i].call)
            && (forall s :: 1 <= s < calls[i].call ==> HasLanded(calls[..i], s))
       else i > 0 && calls[i - 1].kind.Sent? && calls[i - 1].call == calls[i].call
  }

  /** A history an applier could have written. */
  ghost predicate Consistent(calls: seq<Fact>, planLength: int) {
    forall i :: 0 <= i < |calls| ==> Possible(calls, i, planLength)
  }

  function CountOf(calls: seq<Fact>, kind: FactKind, s: int): nat {
    if calls == [] then 0
    else
      var last := calls[|calls| - 1];
      CountOf(calls[..|calls| - 1], kind, s) + if last.kind == kind && last.call == s then 1 else 0
  }

  /** How the loop's variables read off a consistent history. */
  ghost predicate Mirrors(p: Progress, calls: seq<Fact>, planLength: int) {
    && p.Live?
    && Consistent(calls, planLength)
    && p.anyCall == (calls != [])
    && (forall s :: s in p.landed <==> HasLanded(calls, s))
    && (forall s :: Spent(p.attempts, s) == CountOf(calls, Sent, s) - CountOf(calls, Unsent, s))
    && p.open == (if calls != [] && calls[|calls| - 1].kind.Sent? then Some(calls[|calls| - 1]) else None)
    && p.settled == (if calls != [] && Settles(calls[|calls| - 1], planLength)
                     then Some(Settled(HowOf(calls[|calls| - 1].kind), calls[|calls| - 1].call)) else None)
  }

  lemma {:induction false} PossibleOnPrefix(calls: seq<Fact>, last: Fact, planLength: int)
    ensures Consistent(calls + [last], planLength) <==>
            Consistent(calls, planLength) && Possible(calls + [last], |calls|, planLength)
  {
    var all := calls + [last];
    forall i | 0 <= i < |calls|
      ensures Possible(all, i, planLength) <==> Possible(calls, i, planLength)
    {
      assert all[..i] == calls[..i];
      assert forall j :: 0 <= j < i ==> all[j] == calls[j];
    }
    if Consistent(all, planLength) {
      forall i | 0 <= i < |calls| ensures Possible(calls, i, planLength) {
        assert Possible(all, i, planLength);
      }
    }
  }

  lemma {:induction false} LandedGrows(calls: seq<Fact>, last: Fact)
    ensures forall s :: HasLanded(calls + [last], s) <==> HasLanded(calls, s) || (last.kind.Landed? && last.call == s)
  {
    var all := calls + [last];
    forall s ensures HasLanded(all, s) <==> HasLanded(calls, s) || (last.kind.Landed? && last.call == s) {
      if HasLanded(calls, s) {
        var j :| 0 <= j < |calls| && calls[j].kind.Landed? && calls[j].call == s;
        assert all[j] == calls[j];
      }
      if last.kind.Landed? && last.call == s {
        assert all[|calls|] == last;
      }
    }
  }

  lemma {:induction false} CountGrows(calls: seq<Fact>, last: Fact, kind: FactKind, s: int)
    ensures CountOf(calls + [last], kind, s) ==
            CountOf(calls, kind, s) + if last.kind == kind && last.call == s then 1 else 0
  {
    assert (calls + [last])[..|calls|] == calls;
  }

  /** Nothing before the last call of a consistent history settled it. */
  lemma {:induction false} OnlyTheLastSettles(calls: seq<Fact>, planLength: int)
    requires Consistent(calls, planLength) && calls != []
    ensures forall j :: 0 <= j < |calls| - 1 ==> !Settles(calls[j], planLength)
  {
    assert Possible(calls, |calls| - 1, planLength);
  }

  lemma {:induction false} MirrorStep(p: Progress, calls: seq<Fact>, last: Fact, planLength: int)
    requires Mirrors(p, calls, planLength) && !EffectLevel(last.kind)
    ensures var next := Advance(p, last, planLength);
            if next.Live? then Mirrors(next, calls + [last], planLength) else !Consistent(calls + [last], planLength)
  {
    var next, all := Advance(p, last, planLength), calls + [last];
    PossibleOnPrefix(calls, last, planLength);
    LandedGrows(calls, last);
    assert all[..|calls|] == calls;
    forall s ensures CountOf(all, Sent, s) == CountOf(calls, Sent, s) + (if last.kind.Sent? && last.call == s then 1 else 0)
             ensures CountOf(all, Unsent, s) == CountOf(calls, Unsent, s) + (if last.kind.Unsent? && last.call == s then 1 else 0)
    {
      CountGrows(calls, last, Sent, s);
      CountGrows(calls, last, Unsent, s);
    }
    if calls != [] {
      OnlyTheLastSettles(calls, planLength);
      assert all[|calls| - 1] == calls[|calls| - 1];
    }
    assert all[|calls|] == last;
    if next.Live? {
      assert Possible(all, |calls|, planLength);
    } else {
      assert !Possible(all, |calls|, planLength);
    }
  }

  /** What Reach holds of a whole history, consistent or not. */
  lemma {:induction false} ReachMirrors(facts: seq<Fact>, planLength: int)
    ensures var p := Reach(facts, planLength);
            if p.Live? then Mirrors(p, Calls(facts), planLength) else !Consistent(Calls(facts), planLength)
  {
    if facts != [] {
      var shorter, last := facts[..|facts| - 1], facts[|facts| - 1];
      ReachMirrors(shorter, planLength);
      if Reach(shorter, planLength).Live? {
        if EffectLevel(last.kind) {
          assert Calls(facts) == Calls(shorter);
        } else {
          MirrorStep(Reach(shorter, planLength), Calls(shorter), last, planLength);
        }
      } else if EffectLevel(last.kind) {
        assert Calls(facts) == Calls(shorter);
      } else {
        PossibleOnPrefix(Calls(shorter), last, planLength);
      }
    }
  }

  // ----- The main results -----

  /** The fold calls a history inconsistent exactly when no applier could have written its call facts. */
  lemma FoldAcceptsExactlyTheConsistent(facts: seq<Fact>, planLength: int)
    ensures !FoldOf(facts, planLength).Inconsistent? <==> Consistent(Calls(facts), planLength)
  {
    ReachMirrors(facts, planLength);
    ReachAnswer(facts, planLength);
  }

  /** On a consistent history the answer is read off the last call fact and two counts. */
  lemma FoldReadsTheLastCall(facts: seq<Fact>, planLength: int)
    requires Consistent(Calls(facts), planLength)
    ensures var calls, state := Calls(facts), FoldOf(facts, planLength);
            if calls == [] then state == NeverStarted
            else
              var last := calls[|calls| - 1];
              if Settles(last, planLength) then state == Settled(HowOf(last.kind), last.call)
              else if last.kind.Sent? then
                state == LedgerState.Open(last.call, last.payload,
                                          CountOf(calls, Sent, last.call) - CountOf(calls, Unsent, last.call))
              else state.Resumable? && forall s :: HasLanded(calls, s) <==> 1 <= s < state.nextCall
  {
    ReachMirrors(facts, planLength);
    ReachIsSound(facts, planLength);
  }

  /** The landed calls are exactly 1..k. */
  ghost predicate LandsThrough(calls: seq<Fact>, k: nat) {
    forall s :: HasLanded(calls, s) <==> 1 <= s <= k
  }

  /** Where an effect may stand once its first `k` calls have landed. */
  predicate Bounded(state: LedgerState, k: nat, planLength: int) {
    && (state.Resumable? ==> state.nextCall == k + 1 <= planLength)
    && (state.Open? ==> 1 <= state.call <= k + 1 && state.call <= planLength && state.attempts >= 1)
    && (state.Settled? ==> 1 <= state.call <= planLength && (state.how.ByLanding? ==> k == planLength))
  }

  /**
   * Every consistent history lands a prefix 1..k of the plan. What resumes is the next call, inside the plan;
   * an open call is at most the next one and has been attempted; no attempt count is ever negative.
   */
  lemma LandedCallsAreAPrefix(facts: seq<Fact>, planLength: int)
    requires Consistent(Calls(facts), planLength)
    ensures exists k: nat :: LandsThrough(Calls(facts), k) && Bounded(FoldOf(facts, planLength), k, planLength)
    ensures forall s :: CountOf(Calls(facts), Sent, s) >= CountOf(Calls(facts), Unsent, s)
  {
    ReachMirrors(facts, planLength);
    ReachIsSound(facts, planLength);
    var p, calls := Reach(facts, planLength), Calls(facts);
    var k: nat := |p.landed|;
    assert LandsThrough(calls, k);
    if p.settled.Some? && p.settled.value.how.ByLanding? {
      var j := |calls| - 1;
      assert calls[j].kind.Landed? && calls[j].call == planLength;
      assert HasLanded(calls, planLength);
    }
    assert Bounded(FoldOf(facts, planLength), k, planLength);
    forall s ensures CountOf(calls, Sent, s) >= CountOf(calls, Unsent, s) {
      assert Spent(p.attempts, s) >= 0;
    }
  }

  /** Facts about the effect itself never change the answer, wherever they fall. */
  lemma {:induction false} EffectLevelFactsAreInvisible(facts: seq<Fact>, planLength: int)
    ensures FoldOf(facts, planLength) == FoldOf(Calls(facts), planLength)
    ensures Reach(facts, planLength) == Reach(Calls(facts), planLength)
  {
    if facts != [] {
      var shorter, last := facts[..|facts| - 1], facts[|facts| - 1];
      EffectLevelFactsAreInvisible(shorter, planLength);
      if !EffectLevel(last.kind) {
        assert Calls(facts) == Calls(shorter) + [last];
        ReachAppend(Calls(shorter), [last], planLength);
      } else {
        assert Calls(facts) == Calls(shorter);
      }
    }
  }
}
