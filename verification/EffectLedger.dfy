/**
 * The append-only half of the store: facts in `fact_id` order, what each query answers over them,
 * and what retention may take. Each statement is one atomic step on the sequence of rows.
 */
module EffectLedger {
  import opened Wrappers
  import opened Facts
  import opened EffectFold
  import Text

  // ----- The queries, as predicates and selections over the rows -----

  /** The rows of one effect, in the order of the table. */
  function Of(rows: seq<Fact>, effect: string): seq<Fact> {
    if rows == [] then []
    else
      var last := rows[|rows| - 1];
      var before := Of(rows[..|rows| - 1], effect);
      if last.effectId == effect then before + [last] else before
  }

  predicate SameCall(sent: Fact, other: Fact) {
    other.effectId == sent.effectId && other.call == sent.call
  }

  /** No later row closes this send. */
  predicate StillOpen(rows: seq<Fact>, i: nat)
    requires i < |rows|
  {
    forall j :: i < j < |rows| ==> !(SameCall(rows[i], rows[j]) && Closing(rows[j].kind))
  }

  /** No later row is a send at the same call. */
  predicate LatestSend(rows: seq<Fact>, i: nat)
    requires i < |rows|
  {
    forall j :: i < j < |rows| ==> !(SameCall(rows[i], rows[j]) && rows[j].kind.Sent?)
  }

  predicate OpenAt(rows: seq<Fact>, i: nat)
    requires i < |rows|
  {
    rows[i].kind.Sent? && StillOpen(rows, i) && LatestSend(rows, i)
  }

  /** The rows from `i` on that the open-send query selects, in ledger order. */
  function OpenFrom(rows: seq<Fact>, i: nat): seq<Fact>
    requires i <= |rows|
    decreases |rows| - i
  {
    if i == |rows| then []
    else if OpenAt(rows, i) then [rows[i]] + OpenFrom(rows, i + 1)
    else OpenFrom(rows, i + 1)
  }

  /** The open-send query without its age filter. */
  function OpenSends(rows: seq<Fact>): seq<Fact> {
    OpenFrom(rows, 0)
  }

  function CountRows(rows: seq<Fact>, effect: string, kind: FactKind, call: int): nat {
    if rows == [] then 0
    else
      var last := rows[|rows| - 1];
      CountRows(rows[..|rows| - 1], effect, kind, call)
        + if last.effectId == effect && last.kind == kind && last.call == call then 1 else 0
  }

  /** The sends at one call less its `unsent` ones. */
  function AttemptsAt(rows: seq<Fact>, effect: string, call: int): int {
    CountRows(rows, effect, Sent, call) - CountRows(rows, effect, Unsent, call)
  }

  function OlderThan(list: seq<Fact>, before: int): (aged: seq<Fact>)
    ensures forall r :: r in aged <==> r in list && r.at <= before
  {
    if list == [] then []
    else if list[0].at <= before then [list[0]] + OlderThan(list[1..], before)
    else OlderThan(list[1..], before)
  }

  /** Those of a list at one instant, in the list's order. */
  function At(list: seq<Fact>, instant: int): seq<Fact> {
    if list == [] then []
    else if list[0].at == instant then [list[0]] + At(list[1..], instant)
    else At(list[1..], instant)
  }

  function InsertByAt(fact: Fact, sorted: seq<Fact>): seq<Fact> {
    if sorted == [] || fact.at <= sorted[0].at then [fact] + sorted
    else [sorted[0]] + InsertByAt(fact, sorted[1..])
  }

  /** Oldest first, and in ledger order where the instants agree. */
  function ByAge(list: seq<Fact>): seq<Fact> {
    if list == [] then [] else InsertByAt(list[0], ByAge(list[1..]))
  }

  function OldestOf(list: seq<Fact>): (oldest: Option<int>)
    ensures oldest.None? <==> list == []
    ensures oldest.Some? ==> forall r :: r in list ==> oldest.value <= r.at
    ensures oldest.Some? ==> exists r :: r in list && r.at == oldest.value
  {
    if list == [] then None
    else match OldestOf(list[1..])
      case None => assert list[0] in list; Some(list[0].at)
      case Some(at) => assert list[0] in list; Some(if list[0].at < at then list[0].at else at)
  }

  /** The instant a warning promises, if the payload is one that states it. */
  function PromisedAt(fact: Fact): Option<int> {
    if fact.payload.Some? && fact.payload.value.Snapshot? then Some(fact.payload.value.warning.earliestActionAt) else None
  }

  predicate PromisesPast(fact: Fact, instant: int) {
    fact.kind.Warned? && PromisedAt(fact).Some? && PromisedAt(fact).value > instant
  }

  predicate LandedSome(rows: seq<Fact>, effect: string) {
    exists r :: r in rows && r.effectId == effect && r.kind.Landed? && r.call >= 1
  }

  /** The promises among `part` still ahead of `now`, of effects no row of `rows` has landed. */
  function PromisesAhead(part: seq<Fact>, rows: seq<Fact>, now: int): seq<int> {
    if part == [] then []
    else
      var others := PromisesAhead(part[1..], rows, now);
      if PromisesPast(part[0], now) && !LandedSome(rows, part[0].effectId) then [PromisedAt(part[0]).value] + others
      else others
  }

  /** A warning whose snapshot promises an instant still ahead, of an effect no call of which has landed. */
  predicate StandsAt(rows: seq<Fact>, i: nat, now: int)
    requires i < |rows|
  {
    && rows[i].kind.Warned? && rows[i].payload.Some? && rows[i].payload.value.Snapshot?
    && PromiseOf(rows[i]) > now
    && forall r :: r in rows && r.effectId == rows[i].effectId && r.kind.Landed? ==> r.call < 1
  }

  function PromiseOf(fact: Fact): int
    requires fact.payload.Some? && fact.payload.value.Snapshot?
  {
    fact.payload.value.warning.earliestActionAt
  }

  function Standing(rows: seq<Fact>, now: int): seq<int> {
    PromisesAhead(rows, rows, now)
  }

  function Least(values: seq<int>): (least: Option<int>)
    ensures least.None? <==> values == []
    ensures least.Some? ==> least.value in values && forall v :: v in values ==> least.value <= v
  {
    if values == [] then None
    else
      assert forall v :: v in values <==> v == values[0] || v in values[1..];
      match Least(values[1..])
      case None => Some(values[0])
      case Some(v) => Some(if values[0] < v then values[0] else v)
  }

  /** The earliest `warned` fact of one effect. */
  function FirstWarned(rows: seq<Fact>, effect: string): (first: Option<Fact>)
    ensures first.Some? ==> first.value in rows && first.value.kind.Warned? && first.value.effectId == effect
    ensures first.None? <==> forall r :: r in rows ==> !(r.kind.Warned? && r.effectId == effect)
  {
    if rows == [] then None
    else if rows[0].kind.Warned? && rows[0].effectId == effect then Some(rows[0])
    else FirstWarned(rows[1..], effect)
  }

  /** What the effect's first `warned` row promises; nothing where its payload is no snapshot. */
  function WarningOf(rows: seq<Fact>, effect: string): Option<StoredWarning> {
    match FirstWarned(rows, effect)
    case None => None
    case Some(fact) =>
      if fact.payload.Some? && fact.payload.value.Snapshot? then Some(fact.payload.value.warning) else None
  }

  // ----- The statements that change rows -----

  /** The rows with one more, or unchanged where it would be the effect's second warning. */
  function Recorded(rows: seq<Fact>, fact: Fact): seq<Fact> {
    if fact.kind.Warned? && FirstWarned(rows, fact.effectId).Some? then rows else rows + [fact]
  }

  predicate HasOpenSend(rows: seq<Fact>, effect: string) {
    exists i :: 0 <= i < |rows| && rows[i].effectId == effect && rows[i].kind.Sent? && StillOpen(rows, i)
  }

  /** The three conditions of the retention statement on one effect. */
  predicate Prunable(rows: seq<Fact>, effect: string, before: int) {
    && (forall r :: r in rows && r.effectId == effect ==> r.at <= before)
    && !HasOpenSend(rows, effect)
    && !(exists r :: r in rows && r.effectId == effect && PromisesPast(r, before))
  }

  /** Nothing of the effect is younger than the instant, still open at a send, or promised for later. */
  predicate Finished(rows: seq<Fact>, effect: string, before: int) {
    forall i :: 0 <= i < |rows| && rows[i].effectId == effect ==>
      && rows[i].at <= before
      && (rows[i].kind.Sent? ==> !StillOpen(rows, i))
      && (rows[i].kind.Warned? && rows[i].payload.Some? && rows[i].payload.value.Snapshot? ==>
            rows[i].payload.value.warning.earliestActionAt <= before)
  }

  /** The statement's three conditions, read row by row. */
  lemma PrunableIffFinished(rows: seq<Fact>, effect: string, before: int)
    ensures Prunable(rows, effect, before) <==> Finished(rows, effect, before)
  {
    if Prunable(rows, effect, before) {
      forall i | 0 <= i < |rows| && rows[i].effectId == effect
        ensures rows[i].at <= before && !PromisesPast(rows[i], before) && (rows[i].kind.Sent? ==> !StillOpen(rows, i))
      {
        assert rows[i] in rows;
      }
    }
    if Finished(rows, effect, before) {
      forall r | r in rows && r.effectId == effect ensures r.at <= before && !PromisesPast(r, before) {
        var i :| 0 <= i < |rows| && rows[i] == r;
      }
    }
  }

  function Gone(rows: seq<Fact>, before: int): set<string> {
    set r | r in rows && Prunable(rows, r.effectId, before) :: r.effectId
  }

  function Without(rows: seq<Fact>, gone: set<string>): (kept: seq<Fact>)
    ensures forall r :: r in kept <==> r in rows && r.effectId !in gone
    ensures |kept| <= |rows|
  {
    if rows == [] then []
    else if rows[0].effectId in gone then Without(rows[1..], gone)
    else [rows[0]] + Without(rows[1..], gone)
  }

  function Pruned(rows: seq<Fact>, before: int): seq<Fact> {
    Without(rows, Gone(rows, before))
  }

  datatype OpenSend = OpenSend(effectId: string, call: int, payload: Option<Payload>, attempts: int, at: int)

  function OpenSendOf(rows: seq<Fact>, sent: Fact): OpenSend {
    OpenSend(sent.effectId, sent.call, sent.payload, AttemptsAt(rows, sent.effectId, sent.call), sent.at)
  }

  function WorkOf(rows: seq<Fact>, list: seq<Fact>): (work: seq<OpenSend>)
    ensures |work| == |list| && forall i :: 0 <= i < |list| ==> work[i] == OpenSendOf(rows, list[i])
  {
    seq(|list|, i requires 0 <= i < |list| => OpenSendOf(rows, list[i]))
  }

  /** An open send no younger than the instant. */
  predicate DueAt(rows: seq<Fact>, i: nat, before: int)
    requires i < |rows|
  {
    OpenAt(rows, i) && rows[i].at <= before
  }

  /** The rows, in the order they were recorded. */
  class Ledger {
    var rows: seq<Fact>

    constructor ()
      ensures rows == []
    {
      rows := [];
    }

    /** Refused on an empty effect id; otherwise one row more, unless it would be the effect's second warning. */
    method Record(fact: Fact) returns (ok: bool)
      modifies this
      ensures ok == !Text.Blank(fact.effectId)
      ensures rows == if ok then Recorded(old(rows), fact) else old(rows)
      ensures rows == old(rows) || rows == old(rows) + [fact]
      ensures rows == old(rows) <==>
                !ok || (fact.kind.Warned? && exists r :: r in old(rows) && r.kind.Warned? && r.effectId == fact.effectId)
    {
      ok := !Text.Blank(fact.effectId);
      if ok && !(fact.kind.Warned? && FirstWarned(rows, fact.effectId).Some?) {
        rows := rows + [fact];
      }
    }

    method StateOf(effect: string, planLength: int) returns (state: LedgerState)
      ensures state == FoldOf(Of(rows, effect), planLength)
    {
      state := Fold(Of(rows, effect), planLength);
    }

    /** The open sends no younger than an instant, each once with its payload and attempts, in order of age. */
    method OpenUntil(before: int) returns (work: seq<OpenSend>)
      ensures |work| == |OlderThan(OpenSends(rows), before)|
      ensures forall w :: w in work <==> exists i: nat :: i < |rows| && DueAt(rows, i, before) && w == OpenSendOf(rows, rows[i])
      ensures forall i, j :: 0 <= i < j < |work| ==> work[i].at <= work[j].at
    {
      WorklistIsTheOpenSends(rows, before);
      work := WorkOf(rows, ByAge(OlderThan(OpenSends(rows), before)));
    }

    /** The size of the worklist with no age asked, and the least instant on it. */
    method Tally() returns (count: nat, oldest: Option<int>)
      ensures count == |OpenSends(rows)| && oldest == OldestOf(OpenSends(rows))
    {
      count, oldest := |OpenSends(rows)|, OldestOf(OpenSends(rows));
    }

    method WarningFor(effect: string) returns (warning: Option<StoredWarning>)
      ensures warning == WarningOf(rows, effect)
    {
      warning := WarningOf(rows, effect);
    }

    /** The warnings standing at an instant, counted, and the first of the instants they promise. */
    method StandingWarnings(now: int) returns (count: nat, nextDue: Option<int>)
      ensures count == |set i: nat | i < |rows| && StandsAt(rows, i, now)|
      ensures nextDue.None? <==> forall i: nat :: i < |rows| ==> !StandsAt(rows, i, now)
      ensures nextDue.Some? ==>
                && (exists i: nat :: i < |rows| && StandsAt(rows, i, now) && PromiseOf(rows[i]) == nextDue.value)
                && (forall i: nat :: i < |rows| && StandsAt(rows, i, now) ==> nextDue.value <= PromiseOf(rows[i]))
    {
      StandingIsWhatStands(rows, now);
      var promises := Standing(rows, now);
      count, nextDue := |promises|, Least(promises);
      forall i: nat | i < |rows| && StandsAt(rows, i, now) ensures PromiseOf(rows[i]) in promises {
        assert StandsAt(rows, i, now);
      }
      assert promises != [] ==> promises[0] in promises;
    }

    /** Rows go an effect at a time: a prunable effect loses all of its facts, any other keeps all, and order is kept. */
    method Prune(before: int) returns (deleted: nat)
      modifies this
      ensures rows == Pruned(old(rows), before)
      ensures forall r :: r in rows <==> r in old(rows) && !Finished(old(rows), r.effectId, before)
      ensures forall effect :: Of(rows, effect) == if effect in Gone(old(rows), before) then [] else Of(old(rows), effect)
      ensures Subsequence(rows, old(rows))
      ensures deleted == |old(rows)| - |rows|
    {
      var kept := Pruned(rows, before);
      forall effect ensures Prunable(rows, effect, before) <==> Finished(rows, effect, before) {
        PrunableIffFinished(rows, effect, before);
      }
      forall effect ensures Of(kept, effect) == if effect in Gone(rows, before) then [] else Of(rows, effect) {
        WithoutOf(rows, Gone(rows, before), effect);
      }
      WithoutKeepsOrder(rows, Gone(rows, before));
      deleted := |rows| - |kept|;
      rows := kept;
    }
  }

  lemma PromisesStep(rows: seq<Fact>, k: nat, now: int)
    requires k < |rows|
    ensures var later := PromisesAhead(rows[k + 1..], rows, now);
            PromisesAhead(rows[k..], rows, now)
              == if StandsAt(rows, k, now) then [PromiseOf(rows[k])] + later else later
  {
    assert rows[k..][0] == rows[k] && rows[k..][1..] == rows[k + 1..];
  }

  /** The places from `k` on at which a warning stands. */
  function StandingFrom(rows: seq<Fact>, k: nat, now: int): (places: set<nat>)
    ensures forall i :: i in places <==> k <= i < |rows| && StandsAt(rows, i, now)
  {
    set i: nat | k <= i < |rows| && StandsAt(rows, i, now)
  }

  lemma {:induction false} PromisesAreCounted(rows: seq<Fact>, k: nat, now: int)
    requires k <= |rows|
    ensures |PromisesAhead(rows[k..], rows, now)| == |StandingFrom(rows, k, now)|
    decreases |rows| - k
  {
    if k < |rows| {
      var later := StandingFrom(rows, k + 1, now);
      PromisesAreCounted(rows, k + 1, now);
      PromisesStep(rows, k, now);
      assert StandingFrom(rows, k, now) == if StandsAt(rows, k, now) then {k} + later else later;
    } else {
      assert StandingFrom(rows, k, now) == {};
    }
  }

  lemma {:induction false} PromisesAreTheirs(rows: seq<Fact>, k: nat, now: int, v: int)
    requires k <= |rows|
    ensures v in PromisesAhead(rows[k..], rows, now) <==> exists i :: i in StandingFrom(rows, k, now) && PromiseOf(rows[i]) == v
    decreases |rows| - k
  {
    if k < |rows| {
      PromisesAreTheirs(rows, k + 1, now, v);
      PromisesStep(rows, k, now);
      assert forall i :: i in StandingFrom(rows, k, now) <==>
        i in StandingFrom(rows, k + 1, now) || (i == k && StandsAt(rows, k, now));
    }
  }

  lemma StandingIsWhatStands(rows: seq<Fact>, now: int)
    ensures |Standing(rows, now)| == |set i: nat | i < |rows| && StandsAt(rows, i, now)|
    ensures forall v :: v in Standing(rows, now) <==>
              exists i: nat :: i < |rows| && StandsAt(rows, i, now) && PromiseOf(rows[i]) == v
  {
    assert rows[0..] == rows;
    PromisesAreCounted(rows, 0, now);
    assert (set i: nat | i < |rows| && StandsAt(rows, i, now)) == StandingFrom(rows, 0, now);
    forall v
      ensures v in Standing(rows, now) <==> exists i: nat :: i < |rows| && StandsAt(rows, i, now) && PromiseOf(rows[i]) == v
    {
      PromisesAreTheirs(rows, 0, now, v);
    }
  }

  /** The warning that stands for an effect is what its first warned row snapshots. */
  lemma TheFirstWarningStands(rows: seq<Fact>, i: nat)
    requires i < |rows| && rows[i].kind.Warned? && rows[i].payload.Some? && rows[i].payload.value.Snapshot?
    requires forall j :: 0 <= j < i ==> !(rows[j].kind.Warned? && rows[j].effectId == rows[i].effectId)
    ensures WarningOf(rows, rows[i].effectId) == Some(rows[i].payload.value.warning)
  {
    FirstWarnedIs(rows, i);
  }

  lemma {:induction false} FirstWarnedIs(rows: seq<Fact>, i: nat)
    requires i < |rows| && rows[i].kind.Warned?
    requires forall j :: 0 <= j < i ==> !(rows[j].kind.Warned? && rows[j].effectId == rows[i].effectId)
    ensures FirstWarned(rows, rows[i].effectId) == Some(rows[i])
  {
    if i > 0 {
      FirstWarnedIs(rows[1..], i - 1);
    }
  }

  /** The shorter list is the longer with some of its rows struck out. */
  predicate Subsequence(short: seq<Fact>, long: seq<Fact>)
    decreases |long|
  {
    || short == []
    || (long != [] && ((short[0] == long[0] && Subsequence(short[1..], long[1..])) || Subsequence(short, long[1..])))
  }

  lemma {:induction false} WithoutKeepsOrder(rows: seq<Fact>, gone: set<string>)
    ensures Subsequence(Without(rows, gone), rows)
  {
    if rows != [] {
      WithoutKeepsOrder(rows[1..], gone);
      if rows[0].effectId !in gone {
        assert Without(rows, gone)[1..] == Without(rows[1..], gone);
      }
    }
  }

  /** The query's rows are the sends that are open where they stand. */
  lemma ListedIffOpen(rows: seq<Fact>)
    ensures forall r :: r in OpenSends(rows) <==> exists i: nat :: i < |rows| && OpenAt(rows, i) && rows[i] == r
  {
    forall r | r in OpenSends(rows) ensures exists i: nat :: i < |rows| && OpenAt(rows, i) && rows[i] == r {
      ListedIsOpen(rows, 0, r);
    }
    forall i: nat | i < |rows| && OpenAt(rows, i) ensures rows[i] in OpenSends(rows) {
      OpenIsListed(rows, 0, i);
    }
  }

  lemma WorklistHolds(rows: seq<Fact>, before: int)
    ensures forall r :: r in ByAge(OlderThan(OpenSends(rows), before))
                        <==> exists i: nat :: i < |rows| && DueAt(rows, i, before) && rows[i] == r
  {
    WorklistIsOldestFirst(OlderThan(OpenSends(rows), before));
    ListedIffOpen(rows);
  }

  /** The worklist is every open send that old, and nothing else, in order of age. */
  lemma WorklistIsTheOpenSends(rows: seq<Fact>, before: int)
    ensures var work := WorkOf(rows, ByAge(OlderThan(OpenSends(rows), before)));
            && |work| == |OlderThan(OpenSends(rows), before)|
            && (forall w :: w in work <==> exists i: nat :: i < |rows| && DueAt(rows, i, before) && w == OpenSendOf(rows, rows[i]))
            && (forall i, j :: 0 <= i < j < |work| ==> work[i].at <= work[j].at)
  {
    var list := ByAge(OlderThan(OpenSends(rows), before));
    var work := WorkOf(rows, list);
    WorklistIsOldestFirst(OlderThan(OpenSends(rows), before));
    WorklistHolds(rows, before);
    forall i: nat | i < |rows| && DueAt(rows, i, before) ensures OpenSendOf(rows, rows[i]) in work {
      var k :| 0 <= k < |list| && list[k] == rows[i];
      assert work[k] == OpenSendOf(rows, rows[i]);
    }
    forall w | w in work ensures exists i: nat :: i < |rows| && DueAt(rows, i, before) && w == OpenSendOf(rows, rows[i]) {
      var k :| 0 <= k < |work| && work[k] == w;
      assert list[k] in list;
    }
  }

  lemma {:induction false} OpenIsListed(rows: seq<Fact>, from: nat, i: nat)
    requires from <= i < |rows| && OpenAt(rows, i)
    ensures rows[i] in OpenFrom(rows, from)
    decreases i - from
  {
    if from < i {
      OpenIsListed(rows, from + 1, i);
    }
  }

  // ----- The worklist's order -----

  lemma {:induction false} InsertHolds(fact: Fact, sorted: seq<Fact>)
    ensures forall r :: r in InsertByAt(fact, sorted) <==> r == fact || r in sorted
    ensures |InsertByAt(fact, sorted)| == |sorted| + 1
  {
    if sorted != [] && fact.at > sorted[0].at {
      InsertHolds(fact, sorted[1..]);
    }
  }

  lemma {:induction false} InsertKeepsOrder(fact: Fact, sorted: seq<Fact>)
    requires InOrder(sorted)
    ensures InOrder(InsertByAt(fact, sorted))
  {
    if sorted != [] && fact.at > sorted[0].at {
      var others := InsertByAt(fact, sorted[1..]);
      InsertKeepsOrder(fact, sorted[1..]);
      InsertHolds(fact, sorted[1..]);
      forall r | r in others ensures sorted[0].at <= r.at {
      }
    }
  }

  lemma {:induction false} InsertKeepsInstants(fact: Fact, sorted: seq<Fact>, t: int)
    requires InOrder(sorted)
    ensures At(InsertByAt(fact, sorted), t) == (if fact.at == t then [fact] else []) + At(sorted, t)
  {
    if sorted == [] || fact.at <= sorted[0].at {
      assert ([fact] + sorted)[1..] == sorted;
    } else {
      var others := InsertByAt(fact, sorted[1..]);
      InsertKeepsInstants(fact, sorted[1..], t);
      assert ([sorted[0]] + others)[1..] == others;
      if fact.at == t {
        AtNothingLater(sorted, t);
      }
    }
  }

  /** What is listed before an instant is not listed at it. */
  lemma AtNothingLater(sorted: seq<Fact>, t: int)
    requires sorted != [] && sorted[0].at < t
    ensures At(sorted, t) == At(sorted[1..], t)
  {
  }

  predicate InOrder(list: seq<Fact>) {
    forall i, j :: 0 <= i < j < |list| ==> list[i].at <= list[j].at
  }

  /**
   * The worklist is the query's selection, oldest first: sorted by instant, and at each instant
   * exactly the selected rows of that instant in ledger order.
   */
  lemma {:induction false} WorklistIsOldestFirst(list: seq<Fact>)
    ensures InOrder(ByAge(list))
    ensures forall t :: At(ByAge(list), t) == At(list, t)
    ensures |ByAge(list)| == |list|
    ensures forall r :: r in ByAge(list) <==> r in list
  {
    if list != [] {
      var others := ByAge(list[1..]);
      WorklistIsOldestFirst(list[1..]);
      InsertKeepsOrder(list[0], others);
      InsertHolds(list[0], others);
      forall t ensures At(ByAge(list), t) == At(list, t) {
        InsertKeepsInstants(list[0], others, t);
      }
    }
  }

  // ----- The fold and the worklist agree -----

  /** Does appending this row take that send off the worklist? */
  predicate Supersedes(sent: Fact, later: Fact) {
    SameCall(sent, later) && (Closing(later.kind) || later.kind.Sent?)
  }

  function Surviving(list: seq<Fact>, later: Fact): seq<Fact> {
    if list == [] then []
    else if Supersedes(list[0], later) then Surviving(list[1..], later)
    else [list[0]] + Surviving(list[1..], later)
  }

  lemma {:induction false} SurvivingAppend(a: seq<Fact>, b: seq<Fact>, later: Fact)
    ensures Surviving(a + b, later) == Surviving(a, later) + Surviving(b, later)
  {
    if a == [] {
      assert a + b == b;
    } else {
      assert (a + b)[1..] == a[1..] + b;
      SurvivingAppend(a[1..], b, later);
    }
  }

  lemma {:induction false} OpenAtAppend(rows: seq<Fact>, later: Fact, i: nat)
    requires i < |rows|
    ensures OpenAt(rows + [later], i) <==> OpenAt(rows, i) && !Supersedes(rows[i], later)
  {
    var all := rows + [later];
    assert all[|rows|] == later && all[i] == rows[i];
    assert forall j :: i < j < |rows| ==> all[j] == rows[j];
  }

  lemma {:induction false} OpenFromAppend(rows: seq<Fact>, later: Fact, i: nat)
    requires i <= |rows|
    ensures OpenFrom(rows + [later], i) ==
            Surviving(OpenFrom(rows, i), later) + if later.kind.Sent? then [later] else []
    decreases |rows| - i
  {
    var all := rows + [later];
    if i == |rows| {
      assert OpenFrom(all, i + 1) == [];
      assert all[i] == later;
    } else {
      OpenFromAppend(rows, later, i + 1);
      OpenAtAppend(rows, later, i);
      SurvivingAppend(if OpenAt(rows, i) then [rows[i]] else [], OpenFrom(rows, i + 1), later);
      assert all[i] == rows[i];
    }
  }

  lemma {:induction false} OfAppend(a: seq<Fact>, b: seq<Fact>, effect: string)
    ensures Of(a + b, effect) == Of(a, effect) + Of(b, effect)
  {
    if b == [] {
      assert a + b == a;
    } else {
      assert (a + b)[..|a + b| - 1] == a + b[..|b| - 1];
      OfAppend(a, b[..|b| - 1], effect);
    }
  }

  lemma OfOne(fact: Fact, effect: string)
    ensures Of([fact], effect) == if fact.effectId == effect then [fact] else []
  {
    assert [fact][..0] == [];
  }

  lemma {:induction false} OfMembers(rows: seq<Fact>, effect: string)
    ensures forall r :: r in Of(rows, effect) <==> r in rows && r.effectId == effect
  {
    if rows != [] {
      OfMembers(rows[..|rows| - 1], effect);
      assert rows == rows[..|rows| - 1] + [rows[|rows| - 1]];
    }
  }

  lemma {:induction false} SurvivingOf(list: seq<Fact>, later: Fact, effect: string)
    ensures Of(Surviving(list, later), effect) ==
            if later.effectId == effect then Surviving(Of(list, effect), later) else Of(list, effect)
  {
    if list != [] {
      var first, rest := list[0], list[1..];
      assert list == [first] + rest;
      SurvivingOf(rest, later, effect);
      OfAppend([first], rest, effect);
      OfOne(first, effect);
      var kept := if Supersedes(first, later) then [] else [first];
      OfAppend(kept, Surviving(rest, later), effect);
      SurvivingAppend(Of([first], effect), Of(rest, effect), later);
    }
  }

  /** What the open-send query selects for one effect, beside where that effect's fold has got to. */
  ghost predicate Follows(rows: seq<Fact>, effect: string, p: Progress) {
    p.Live? ==> Of(OpenSends(rows), effect) == if p.open.Some? then [p.open.value] else []
  }

  lemma OpenSendsOfAppend(rows: seq<Fact>, last: Fact, effect: string)
    ensures Of(OpenSends(rows + [last]), effect) ==
            if last.effectId != effect then Of(OpenSends(rows), effect)
            else Surviving(Of(OpenSends(rows), effect), last) + if last.kind.Sent? then [last] else []
  {
    OpenFromAppend(rows, last, 0);
    var tail := if last.kind.Sent? then [last] else [];
    OfAppend(Surviving(OpenSends(rows), last), tail, effect);
    SurvivingOf(OpenSends(rows), last, effect);
    OfOne(last, effect);
  }

  lemma FollowsStep(rows: seq<Fact>, last: Fact, p: Progress, planLength: int)
    requires Follows(rows, last.effectId, p)
    requires p.Live? && p.open.Some? ==> p.open.value.effectId == last.effectId
    ensures Follows(rows + [last], last.effectId, Advance(p, last, planLength))
  {
    OpenSendsOfAppend(rows, last, last.effectId);
    if p.Live? && p.open.Some? {
      assert Surviving([p.open.value], last) == if Supersedes(p.open.value, last) then [] else [p.open.value];
    }
  }

  lemma {:induction false} QueryFollowsFold(rows: seq<Fact>, effect: string, planLength: int)
    ensures Follows(rows, effect, Reach(Of(rows, effect), planLength))
    decreases |rows|
  {
    if rows != [] {
      var shorter, last := rows[..|rows| - 1], rows[|rows| - 1];
      assert rows == shorter + [last];
      QueryFollowsFold(shorter, effect, planLength);
      OfAppend(shorter, [last], effect);
      OfOne(last, effect);
      if last.effectId == effect {
        OpenIsOwn(shorter, effect, planLength);
        ReachAppend(Of(shorter, effect), [last], planLength);
        FollowsStep(shorter, last, Reach(Of(shorter, effect), planLength), planLength);
      } else {
        OpenSendsOfAppend(shorter, last, effect);
        assert Of(rows, effect) == Of(shorter, effect);
      }
    }
  }

  lemma {:induction false} OpenIsOwn(rows: seq<Fact>, effect: string, planLength: int)
    ensures var p := Reach(Of(rows, effect), planLength);
            p.Live? && p.open.Some? ==> p.open.value.effectId == effect
  {
    var own := Of(rows, effect);
    ReachMirrors(own, planLength);
    var p := Reach(own, planLength);
    if p.Live? && p.open.Some? {
      var calls := Calls(own);
      assert calls[|calls| - 1] in own;
      OfMembers(rows, effect);
    }
  }

  lemma OfLast(a: seq<Fact>, last: Fact, effect: string)
    ensures Of(a + [last], effect) == Of(a, effect) + if last.effectId == effect then [last] else []
  {
    assert (a + [last])[..|a|] == a;
  }

  lemma CallsLast(a: seq<Fact>, last: Fact)
    ensures Calls(a + [last]) == Calls(a) + if EffectLevel(last.kind) then [] else [last]
  {
    assert (a + [last])[..|a|] == a;
  }

  lemma CallsCountLast(own: seq<Fact>, last: Fact, kind: FactKind, call: int)
    requires !EffectLevel(kind)
    ensures CountOf(Calls(own + [last]), kind, call)
              == CountOf(Calls(own), kind, call) + if last.kind == kind && last.call == call then 1 else 0
  {
    CallsLast(own, last);
    var calls := Calls(own);
    if EffectLevel(last.kind) {
      assert Calls(own + [last]) == calls;
    } else {
      assert Calls(own + [last]) == calls + [last];
      CountGrows(calls, last, kind, call);
    }
  }

  lemma {:induction false} CountsAgree(rows: seq<Fact>, effect: string, kind: FactKind, call: int)
    requires !EffectLevel(kind)
    ensures CountRows(rows, effect, kind, call) == CountOf(Calls(Of(rows, effect)), kind, call)
  {
    if rows != [] {
      CountsAgree(rows[..|rows| - 1], effect, kind, call);
      OwnCountStep(rows, effect, kind, call);
    }
  }

  lemma OwnCountStep(rows: seq<Fact>, effect: string, kind: FactKind, call: int)
    requires rows != [] && !EffectLevel(kind)
    ensures var shorter, last := rows[..|rows| - 1], rows[|rows| - 1];
            CountOf(Calls(Of(rows, effect)), kind, call) == CountOf(Calls(Of(shorter, effect)), kind, call)
              + if last.effectId == effect && last.kind == kind && last.call == call then 1 else 0
  {
    var shorter, last := rows[..|rows| - 1], rows[|rows| - 1];
    if last.effectId == effect {
      CallsCountLast(Of(shorter, effect), last, kind, call);
    }
  }

  /**
   * The fold and the open-send query are two readings of one table. For every effect whose history an
   * applier could have written, among however many others, the query has exactly one row when the fold says
   * `open`, with the same call, payload and attempts, and no row when it says anything else.
   */
  lemma FoldAndWorklistAgree(rows: seq<Fact>, effect: string, planLength: int)
    requires Consistent(Calls(Of(rows, effect)), planLength)
    ensures var state, listed := FoldOf(Of(rows, effect), planLength), Of(OpenSends(rows), effect);
            if state.Open?
            then && |listed| == 1
                 && listed[0].call == state.call
                 && listed[0].payload == state.payload
                 && AttemptsAt(rows, effect, state.call) == state.attempts
            else listed == []
  {
    var own := Of(rows, effect);
    QueryFollowsFold(rows, effect, planLength);
    ReachMirrors(own, planLength);
    ReachIsSound(own, planLength);
    var p := Reach(own, planLength);
    if p.open.Some? {
      CountsAgree(rows, effect, Sent, p.open.value.call);
      CountsAgree(rows, effect, Unsent, p.open.value.call);
    }
  }

  // ----- The first warning binds -----

  ghost predicate OneWarningEach(rows: seq<Fact>) {
    forall i, j :: 0 <= i < j < |rows| && rows[i].kind.Warned? && rows[j].kind.Warned? ==>
      rows[i].effectId != rows[j].effectId
  }

  lemma {:induction false} FirstWarnedAppend(rows: seq<Fact>, fact: Fact, effect: string)
    ensures FirstWarned(rows + [fact], effect) ==
            if FirstWarned(rows, effect).Some? then FirstWarned(rows, effect)
            else if fact.kind.Warned? && fact.effectId == effect then Some(fact) else None
  {
    if rows != [] {
      assert (rows + [fact])[1..] == rows[1..] + [fact];
      FirstWarnedAppend(rows[1..], fact, effect);
    }
  }

  /** Recording never moves a standing warning, and never leaves an effect with two. */
  lemma FirstWarningBinds(rows: seq<Fact>, fact: Fact, effect: string)
    requires OneWarningEach(rows)
    ensures OneWarningEach(Recorded(rows, fact))
    ensures FirstWarned(rows, effect).Some? ==> FirstWarned(Recorded(rows, fact), effect) == FirstWarned(rows, effect)
    ensures FirstWarned(rows, effect).None? ==>
              (FirstWarned(Recorded(rows, fact), effect).Some? <==> fact.kind.Warned? && fact.effectId == effect)
  {
    FirstWarnedAppend(rows, fact, effect);
    if fact.kind.Warned? && FirstWarned(rows, fact.effectId).None? {
      forall i | 0 <= i < |rows| && rows[i].kind.Warned? ensures rows[i].effectId != fact.effectId {
        assert rows[i] in rows;
      }
    }
  }

  // ----- Retention preserves meaning -----

  lemma {:induction false} WithoutAppend(a: seq<Fact>, b: seq<Fact>, gone: set<string>)
    ensures Without(a + b, gone) == Without(a, gone) + Without(b, gone)
  {
    if a == [] {
      assert a + b == b;
    } else {
      assert (a + b)[1..] == a[1..] + b;
      WithoutAppend(a[1..], b, gone);
    }
  }

  lemma WithoutLast(a: seq<Fact>, last: Fact, gone: set<string>)
    ensures Without(a + [last], gone) == Without(a, gone) + if last.effectId in gone then [] else [last]
  {
    WithoutAppend(a, [last], gone);
  }

  lemma WithoutOfStep(rows: seq<Fact>, gone: set<string>, effect: string)
    requires rows != []
    requires var shorter := rows[..|rows| - 1];
             Of(Without(shorter, gone), effect) == if effect in gone then [] else Of(shorter, effect)
    ensures Of(Without(rows, gone), effect) == if effect in gone then [] else Of(rows, effect)
  {
    var shorter, last := rows[..|rows| - 1], rows[|rows| - 1];
    var kept := Without(shorter, gone);
    assert rows == shorter + [last];
    if last.effectId in gone {
      assert Without(rows, gone) == kept by { WithoutLast(shorter, last, gone); }
    } else {
      assert Without(rows, gone) == kept + [last] by { WithoutLast(shorter, last, gone); }
      OfLast(kept, last, effect);
    }
  }

  lemma {:induction false} WithoutOf(rows: seq<Fact>, gone: set<string>, effect: string)
    ensures Of(Without(rows, gone), effect) == if effect in gone then [] else Of(rows, effect)
    decreases |rows|
  {
    if rows != [] {
      WithoutOf(rows[..|rows| - 1], gone, effect);
      WithoutOfStep(rows, gone, effect);
    }
  }

  lemma {:induction false} WithoutFirstWarned(rows: seq<Fact>, gone: set<string>, effect: string)
    requires effect !in gone
    ensures FirstWarned(Without(rows, gone), effect) == FirstWarned(rows, effect)
  {
    if rows != [] {
      WithoutFirstWarned(rows[1..], gone, effect);
      if rows[0].effectId !in gone {
        assert Without(rows, gone)[1..] == Without(rows[1..], gone);
      } else {
        assert Without(rows, gone) == Without(rows[1..], gone);
      }
    }
  }

  lemma {:induction false} WithoutSurviving(list: seq<Fact>, gone: set<string>, later: Fact)
    ensures Without(Surviving(list, later), gone) ==
            if later.effectId in gone then Without(list, gone) else Surviving(Without(list, gone), later)
  {
    if list != [] {
      WithoutSurviving(list[1..], gone, later);
      WithoutAppend(if Supersedes(list[0], later) then [] else [list[0]], Surviving(list[1..], later), gone);
      SurvivingAppend(if list[0].effectId in gone then [] else [list[0]], Without(list[1..], gone), later);
    }
  }

  lemma WithoutOpenSendsStep(shorter: seq<Fact>, last: Fact, gone: set<string>)
    requires OpenSends(Without(shorter, gone)) == Without(OpenSends(shorter), gone)
    ensures OpenSends(Without(shorter + [last], gone)) == Without(OpenSends(shorter + [last]), gone)
  {
    var open, kept := OpenSends(shorter), Without(shorter, gone);
    var tail := if last.kind.Sent? then [last] else [];
    OpenFromAppend(shorter, last, 0);
    assert Without(OpenSends(shorter + [last]), gone) == Without(Surviving(open, last), gone) + Without(tail, gone) by {
      WithoutAppend(Surviving(open, last), tail, gone);
    }
    WithoutSurviving(open, gone, last);
    if last.effectId in gone {
      assert Without(shorter + [last], gone) == kept by { WithoutLast(shorter, last, gone); }
      assert Without(tail, gone) == [];
    } else {
      assert Without(shorter + [last], gone) == kept + [last] by { WithoutLast(shorter, last, gone); }
      OpenFromAppend(kept, last, 0);
      assert Without(tail, gone) == tail;
    }
  }

  /** Dropping whole effects drops exactly their rows from the worklist. */
  lemma {:induction false} WithoutOpenSends(rows: seq<Fact>, gone: set<string>)
    ensures OpenSends(Without(rows, gone)) == Without(OpenSends(rows), gone)
    decreases |rows|
  {
    if rows != [] {
      var shorter, last := rows[..|rows| - 1], rows[|rows| - 1];
      WithoutOpenSends(shorter, gone);
      WithoutOpenSendsStep(shorter, last, gone);
      assert rows == shorter + [last];
    }
  }

  lemma {:induction false} WithoutNothing(list: seq<Fact>, gone: set<string>)
    requires forall r :: r in list ==> r.effectId !in gone
    ensures Without(list, gone) == list
  {
    if list != [] {
      WithoutNothing(list[1..], gone);
    }
  }

  lemma {:induction false} ListedIsOpen(rows: seq<Fact>, i: nat, sent: Fact)
    requires i <= |rows| && sent in OpenFrom(rows, i)
    ensures exists j :: i <= j < |rows| && rows[j] == sent && OpenAt(rows, j)
    decreases |rows| - i
  {
    if i < |rows| && !(OpenAt(rows, i) && rows[i] == sent) {
      ListedIsOpen(rows, i + 1, sent);
    }
  }

  /** Retention never takes an effect the sweep still has work for. */
  lemma WorkIsNeverGone(rows: seq<Fact>, before: int)
    ensures forall r :: r in OpenSends(rows) ==> r.effectId !in Gone(rows, before)
  {
    forall r | r in OpenSends(rows) ensures r.effectId !in Gone(rows, before) {
      ListedIsOpen(rows, 0, r);
      var j :| 0 <= j < |rows| && rows[j] == r && OpenAt(rows, j);
      assert HasOpenSend(rows, r.effectId);
    }
  }

  lemma {:induction false} CountOfKept(rows: seq<Fact>, gone: set<string>, effect: string, kind: FactKind, call: int)
    requires effect !in gone && !EffectLevel(kind)
    ensures CountRows(Without(rows, gone), effect, kind, call) == CountRows(rows, effect, kind, call)
  {
    CountsAgree(rows, effect, kind, call);
    CountsAgree(Without(rows, gone), effect, kind, call);
    WithoutOf(rows, gone, effect);
  }

  /**
   * Retention removes only whole effects: one it takes has no row left, and one it leaves has every row,
   * folds as before whatever its plan, and keeps its warning.
   */
  lemma RetentionKeepsSurvivors(rows: seq<Fact>, before: int, effect: string, planLength: int)
    ensures effect in Gone(rows, before) ==> Of(Pruned(rows, before), effect) == []
    ensures effect !in Gone(rows, before) ==>
              && Of(Pruned(rows, before), effect) == Of(rows, effect)
              && FoldOf(Of(Pruned(rows, before), effect), planLength) == FoldOf(Of(rows, effect), planLength)
              && WarningOf(Pruned(rows, before), effect) == WarningOf(rows, effect)
  {
    var gone := Gone(rows, before);
    WithoutOf(rows, gone, effect);
    if effect !in gone {
      WithoutFirstWarned(rows, gone, effect);
    }
  }

  /** The sweep's worklist, and every row's attempts, are the same list before retention and after. */
  lemma RetentionKeepsWork(rows: seq<Fact>, before: int)
    ensures OpenSends(Pruned(rows, before)) == OpenSends(rows)
    ensures forall r :: r in OpenSends(rows) ==> OpenSendOf(Pruned(rows, before), r) == OpenSendOf(rows, r)
  {
    var gone := Gone(rows, before);
    WithoutOpenSends(rows, gone);
    WorkIsNeverGone(rows, before);
    WithoutNothing(OpenSends(rows), gone);
    forall r | r in OpenSends(rows)
      ensures OpenSendOf(Pruned(rows, before), r) == OpenSendOf(rows, r)
    {
      CountOfKept(rows, gone, r.effectId, Sent, r.call);
      CountOfKept(rows, gone, r.effectId, Unsent, r.call);
    }
  }

  lemma {:induction false} PromisesOfKept(part: seq<Fact>, rows: seq<Fact>, before: int, now: int)
    requires before <= now && forall r :: r in part ==> r in rows
    ensures PromisesAhead(Without(part, Gone(rows, before)), Pruned(rows, before), now) == PromisesAhead(part, rows, now)
  {
    if part != [] {
      var gone := Gone(rows, before);
      PromisesOfKept(part[1..], rows, before, now);
      var first := part[0];
      assert first in rows;
      if first.effectId in gone {
        var r :| r in rows && Prunable(rows, r.effectId, before) && r.effectId == first.effectId;
        assert !PromisesPast(first, before);
        assert Without(part, gone) == Without(part[1..], gone);
      } else {
        assert Without(part, gone) == [first] + Without(part[1..], gone);
        LandedOfKept(rows, before, first.effectId);
      }
    }
  }

  lemma LandedOfKept(rows: seq<Fact>, before: int, effect: string)
    requires effect !in Gone(rows, before)
    ensures LandedSome(Pruned(rows, before), effect) == LandedSome(rows, effect)
  {
    var kept := Pruned(rows, before);
    if LandedSome(rows, effect) {
      var r :| r in rows && r.effectId == effect && r.kind.Landed? && r.call >= 1;
      assert r in kept;
    }
  }

  /** No promise still ahead is forgotten: at any instant from the window's edge on, the standing warnings are the same. */
  lemma RetentionKeepsStandingWarnings(rows: seq<Fact>, before: int, now: int)
    requires before <= now
    ensures Standing(Pruned(rows, before), now) == Standing(rows, now)
  {
    PromisesOfKept(rows, rows, before, now);
  }

  /**
   * Retention reads no plan, so what it takes need not be settled. An effect keeps its state exactly when it
   * survives or had made no call: a half-landed plan outside the window is forgotten, and would start again.
   */
  lemma RetentionKeepsTheStateIff(rows: seq<Fact>, before: int, effect: string, planLength: int)
    ensures FoldOf(Of(Pruned(rows, before), effect), planLength) == FoldOf(Of(rows, effect), planLength)
            <==> effect !in Gone(rows, before) || Calls(Of(rows, effect)) == []
  {
    RetentionKeepsSurvivors(rows, before, effect, planLength);
    var own := Of(rows, effect);
    ReachMirrors(own, planLength);
    ReachIsSound(own, planLength);
    assert Consistent([], planLength);
  }

  /** The effect's call facts end in one that settles it. */
  predicate EndsSettled(rows: seq<Fact>, effect: string, planLength: int) {
    var calls := Calls(Of(rows, effect));
    calls != [] && Settles(calls[|calls| - 1], planLength)
  }

  /**
   * What retention takes is not always settled. Of the effects it takes, with histories an applier could have
   * written, none is open; one is settled exactly when its last call fact settles it, never started exactly when it
   * made no call, and half-landed, to be started over, exactly when it made one that did not settle it.
   */
  lemma WhatRetentionTakes(rows: seq<Fact>, before: int, effect: string, planLength: int)
    requires effect in Gone(rows, before) && Consistent(Calls(Of(rows, effect)), planLength)
    ensures var state, calls := FoldOf(Of(rows, effect), planLength), Calls(Of(rows, effect));
            && !state.Open? && !state.Inconsistent?
            && (state.Settled? <==> EndsSettled(rows, effect, planLength))
            && (state.NeverStarted? <==> calls == [])
            && (state.Resumable? <==> calls != [] && !EndsSettled(rows, effect, planLength))
  {
    FoldAndWorklistAgree(rows, effect, planLength);
    FoldReadsTheLastCall(Of(rows, effect), planLength);
    FoldAcceptsExactlyTheConsistent(Of(rows, effect), planLength);
    WorkIsNeverGone(rows, before);
    OfMembers(OpenSends(rows), effect);
  }

  lemma RetentionForgetsAHalfLandedPlan()
    ensures var sent, landed := Fact("e", 1, Sent, 3, None), Fact("e", 1, Landed, 4, None);
            && FoldOf(Of([sent, landed], "e"), 2) == Resumable(2)
            && FoldOf(Of(Pruned([sent, landed], 9), "e"), 2) == NeverStarted
  {
    var sent, landed := Fact("e", 1, Sent, 3, None), Fact("e", 1, Landed, 4, None);
    var rows := [sent, landed];
    assert rows[..1] == [sent] && [sent][..0] == [];
    assert Of([sent], "e") == [sent];
    assert Of(rows, "e") == rows;
    assert Reach([sent], 2) == Live({}, map[1 := 1], Some(sent), None, true);
    assert Reach(rows, 2) == Live({1}, map[1 := 1], None, None, true) by {
      assert {} + {1} == {1};
    }
    assert SameCall(rows[0], rows[1]) && Closing(rows[1].kind);
    assert !HasOpenSend(rows, "e");
    assert sent in rows && Prunable(rows, sent.effectId, 9);
    RetentionKeepsSurvivors(rows, 9, "e", 2);
  }
}
