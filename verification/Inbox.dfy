/**
 * Deliveries as rows of a table, and the statements that move them between states.
 * The table is a map of rows; each statement is one atomic step on it. A GUID is the number its
 * fixed-width lowercase text spells, so the text's order is the numbers'.
 */
module Inbox {
  import opened Wrappers
  import Text

  type Guid = nat
  type Bytes = seq<bv8>
  type Digest = Bytes -> string

  datatype State = Pending | Processing | Done | Failed

  datatype Row = Row(
    event: string,
    payload: Option<Bytes>,
    digest: string,
    receivedAt: int,
    state: State,
    worker: Option<string>,
    token: Option<string>,
    claimedAt: Option<int>,
    completedAt: Option<int>,
    attempts: int,
    retryNotBefore: Option<int>)

  type Table = map<Guid, Row>

  /** The row CHECK of the schema. */
  predicate Check(row: Row) {
    && row.attempts >= 0
    && (row.state.Processing? <==> row.worker.Some?)
    && (row.state.Processing? <==> row.token.Some?)
    && (row.state.Processing? <==> row.claimedAt.Some?)
    && (row.state.Done? || row.state.Failed? <==> row.completedAt.Some?)
    && (row.state.Done? <==> row.payload.None?)
    && (!row.state.Pending? ==> row.retryNotBefore.None?)
    && (row.state.Failed? ==> row.attempts > 0)
  }

  ghost predicate Valid(t: Table) {
    forall id :: id in t ==> Check(t[id])
  }

  // ----- The statements -----

  datatype AcceptResult =
    | Accepted(digest: string)
    | Duplicate(state: State, digest: string)
    | Conflict(state: State, eventNameMismatch: bool, payloadMismatch: bool)

  /** A GUID seen before leaves the table as it is, whatever came with it. */
  function Accept(t: Table, id: Guid, event: string, payload: Bytes, at: int, hash: Digest): (Table, AcceptResult) {
    if id !in t then
      (t[id := Row(event, Some(payload), hash(payload), at, Pending, None, None, None, None, 0, None)], Accepted(hash(payload)))
    else if t[id].event != event || t[id].digest != hash(payload) then
      (t, Conflict(t[id].state, t[id].event != event, t[id].digest != hash(payload)))
    else (t, Duplicate(t[id].state, t[id].digest))
  }

  /** Pending and not waiting out a backoff, or processing on a claim gone stale. */
  predicate Eligible(row: Row, now: int, staleBefore: int) {
    || (row.state.Pending? && (row.retryNotBefore.None? || row.retryNotBefore.value <= now))
    || (row.state.Processing? && row.claimedAt.Some? && row.claimedAt.value <= staleBefore)
  }

  predicate NoLater(t: Table, a: Guid, b: Guid)
    requires a in t && b in t
  {
    t[a].receivedAt < t[b].receivedAt || (t[a].receivedAt == t[b].receivedAt && a <= b)
  }

  /** The oldest eligible delivery, GUIDs breaking the tie. */
  predicate IsNext(t: Table, id: Guid, now: int, staleBefore: int) {
    && id in t
    && Eligible(t[id], now, staleBefore)
    && forall other :: other in t && Eligible(t[other], now, staleBefore) ==> NoLater(t, id, other)
  }

  predicate AnyEligible(t: Table, now: int, staleBefore: int) {
    exists id :: id in t && Eligible(t[id], now, staleBefore)
  }

  ghost function Next(t: Table, now: int, staleBefore: int): (id: Guid)
    requires AnyEligible(t, now, staleBefore)
    ensures IsNext(t, id, now, staleBefore)
  {
    NextExists(t, now, staleBefore);
    var id :| IsNext(t, id, now, staleBefore);
    id
  }

  function Claimed(row: Row, worker: string, now: int, token: string): Row {
    row.(state := Processing, worker := Some(worker), token := Some(token), claimedAt := Some(now), retryNotBefore := None)
  }

  ghost function Claim(t: Table, worker: string, now: int, staleBefore: int, token: string): (Table, Option<Guid>) {
    if !AnyEligible(t, now, staleBefore) then (t, None)
    else
      var id := Next(t, now, staleBefore);
      (t[id := Claimed(t[id], worker, now, token)], Some(id))
  }

  datatype Completion = Completion(id: Guid, event: string, digest: string, token: string, at: int)

  datatype CompleteResult = Completed | IdentityMismatch | AlreadyCompleted | NotOwned | OwnershipChanged

  /** Why a completion may not commit; identity is judged first. */
  function RefusedCompletion(row: Option<Row>, input: Completion): Option<CompleteResult> {
    if row.None? || row.value.event != input.event || row.value.digest != input.digest then Some(IdentityMismatch)
    else if row.value.state.Done? then Some(AlreadyCompleted)
    else if row.value.token != Some(input.token) then Some(NotOwned)
    else None
  }

  function Get(t: Table, id: Guid): Option<Row> {
    if id in t then Some(t[id]) else None
  }

  predicate Holds(t: Table, id: Guid, token: string) {
    id in t && t[id].state.Processing? && t[id].token == Some(token)
  }

  /** The read, the refusal, and the update whose change count of 0 is the throw. */
  function Complete(t: Table, input: Completion): (Table, CompleteResult) {
    match RefusedCompletion(Get(t, input.id), input)
    case Some(refusal) => (t, refusal)
    case None =>
      if Holds(t, input.id, input.token) && t[input.id].event == input.event && t[input.id].digest == input.digest then
        (t[input.id := t[input.id].(state := Done, payload := None, worker := None, token := None, claimedAt := None,
                                    completedAt := Some(input.at))], Completed)
      else (t, OwnershipChanged)
  }

  function Freed(row: Row): Row {
    row.(state := Pending, worker := None, token := None, claimedAt := None)
  }

  function Release(t: Table, id: Guid, token: string): (Table, bool) {
    if Holds(t, id, token) then (t[id := Freed(t[id])], true) else (t, false)
  }

  datatype FailResult = NotHeld | DeadLettered(attempts: int) | RetryScheduled(attempts: int, retryNotBefore: int)

  /** Count one failed attempt, and let the incremented count decide between a retry and a dead letter. */
  function Fail(t: Table, id: Guid, token: string, failedAt: int, retryNotBefore: int, cap: int): (Table, FailResult) {
    if !Holds(t, id, token) then (t, NotHeld)
    else
      var freed := Freed(t[id]).(attempts := t[id].attempts + 1);
      if t[id].attempts + 1 >= cap then
        (t[id := freed.(state := Failed, completedAt := Some(failedAt), retryNotBefore := None)], DeadLettered(freed.attempts))
      else
        (t[id := freed.(completedAt := None, retryNotBefore := Some(retryNotBefore))],
         RetryScheduled(freed.attempts, retryNotBefore))
  }

  function Redrive(t: Table, id: Guid): (Table, bool) {
    if id in t && t[id].state.Failed? then
      (t[id := Freed(t[id]).(completedAt := None, attempts := 0, retryNotBefore := None)], true)
    else (t, false)
  }

  predicate Stuck(row: Row, claimedBefore: int) {
    row.state.Processing? && row.claimedAt.Some? && row.claimedAt.value <= claimedBefore
  }

  function Requeue(t: Table, claimedBefore: int): (Table, set<Guid>) {
    (map id | id in t :: if Stuck(t[id], claimedBefore) then Freed(t[id]) else t[id],
     set id | id in t && Stuck(t[id], claimedBefore))
  }

  predicate PastRetention(row: Row, before: int) {
    row.state.Done? && row.completedAt.Some? && row.completedAt.value <= before
  }

  function Prune(t: Table, before: int): Table {
    map id | id in t && !PastRetention(t[id], before) :: t[id]
  }

  function InState(t: Table, state: State): (ids: set<Guid>)
    ensures forall id :: id in ids <==> id in t && t[id].state == state
  {
    set id | id in t && t[id].state == state
  }

  // ----- The oldest eligible delivery exists, and is one -----

  ghost predicate IsLeast(t: Table, ids: set<Guid>, least: Guid)
    requires ids <= t.Keys
  {
    least in ids && forall other :: other in ids ==> NoLater(t, least, other)
  }

  lemma {:induction false} LeastOf(t: Table, ids: set<Guid>) returns (least: Guid)
    requires ids != {} && ids <= t.Keys
    ensures IsLeast(t, ids, least)
    decreases |ids|
  {
    var one :| one in ids;
    var rest := ids - {one};
    least := one;
    if exists other :: other in rest {
      var other := LeastOf(t, rest);
      least := if NoLater(t, one, other) then one else other;
      forall id | id in ids ensures NoLater(t, least, id) {
        assert id == one || id in rest;
      }
    }
  }

  lemma NextExists(t: Table, now: int, staleBefore: int)
    requires AnyEligible(t, now, staleBefore)
    ensures exists id :: IsNext(t, id, now, staleBefore)
  {
    var ids := set id | id in t && Eligible(t[id], now, staleBefore);
    var some :| some in t && Eligible(t[some], now, staleBefore);
    assert some in ids;
    var least := LeastOf(t, ids);
    assert IsNext(t, least, now, staleBefore);
  }

  /** The claim's choice is determined: two deliveries cannot both be the oldest eligible one. */
  lemma NextIsUnique(t: Table, a: Guid, b: Guid, now: int, staleBefore: int)
    requires IsNext(t, a, now, staleBefore) && IsNext(t, b, now, staleBefore)
    ensures a == b
  {
    assert NoLater(t, a, b) && NoLater(t, b, a);
  }

  // ----- The queue as an object -----

  datatype ClaimedDelivery = ClaimedDelivery(id: Guid, event: string, payload: Bytes, digest: string, token: string, attempts: int)

  /** A call the guards refuse before any statement runs, or the statement's answer. */
  datatype Asked<+T> = TypeError | Answered(value: T)

  predicate HexDigest(s: string) {
    |s| == 64 && forall i :: 0 <= i < 64 ==> '0' <= s[i] <= '9' || 'a' <= s[i] <= 'f'
  }

  class Queue {
    var rows: Table
    const hash: Digest

    ghost predicate Sound() reads this {
      Valid(rows)
    }

    constructor (hash: Digest)
      ensures Sound() && rows == map[] && this.hash == hash
    {
      this.hash := hash;
      rows := map[];
    }

    method AcceptDelivery(id: Guid, event: string, payload: Bytes, receivedAt: int) returns (result: Asked<AcceptResult>)
      requires Sound()
      modifies this
      ensures Sound()
      ensures result.TypeError? <==> Text.Blank(event)
      ensures result.TypeError? ==> rows == old(rows)
      ensures result.Answered? ==> (rows, result.value) == Accept(old(rows), id, event, payload, receivedAt, hash)
      ensures result.Answered? && id in old(rows) ==> rows == old(rows)
    {
      if Text.Blank(event) {
        return TypeError;
      }
      var digest := hash(payload);
      if id !in rows {
        rows := rows[id := Row(event, Some(payload), digest, receivedAt, Pending, None, None, None, None, 0, None)];
        return Answered(Accepted(digest));
      }
      var stored := rows[id];
      if stored.event == event && stored.digest == digest {
        return Answered(Duplicate(stored.state, stored.digest));
      }
      return Answered(Conflict(stored.state, stored.event != event, stored.digest != digest));
    }

    /** Hands over the least eligible delivery by arrival and GUID, held under `token`; a stale holder loses it. */
    method ClaimNextDelivery(worker: string, now: int, staleBefore: int, token: string)
      returns (claimed: Asked<Option<ClaimedDelivery>>)
      requires Sound()
      modifies this
      ensures Sound()
      ensures claimed.TypeError? <==> Text.Blank(worker)
      ensures claimed.TypeError? ==> rows == old(rows)
      ensures claimed.Answered? ==>
                && rows == Claim(old(rows), worker, now, staleBefore, token).0
                && (claimed.value.None? <==> !AnyEligible(old(rows), now, staleBefore))
      ensures claimed.Answered? && claimed.value.Some? ==>
                var id, delivery := Next(old(rows), now, staleBefore), claimed.value.value;
                && delivery.id == id && delivery.token == token
                && delivery.event == old(rows)[id].event
                && Some(delivery.payload) == old(rows)[id].payload
                && delivery.digest == old(rows)[id].digest
                && delivery.attempts == old(rows)[id].attempts
    {
      if Text.Blank(worker) {
        return TypeError;
      }
      if !AnyEligible(rows, now, staleBefore) {
        return Answered(None);
      }
      NextExists(rows, now, staleBefore);
      var id :| id in rows && IsNext(rows, id, now, staleBefore);
      NextIsUnique(rows, id, Next(rows, now, staleBefore), now, staleBefore);
      var row := rows[id];
      rows := rows[id := Claimed(row, worker, now, token)];
      return Answered(Some(ClaimedDelivery(id, row.event, row.payload.value, row.digest, token, row.attempts)));
    }

    /** The write transaction never finds its ownership changed: the read already settled it. */
    method CompleteDelivery(input: Completion) returns (result: Asked<CompleteResult>)
      requires Sound()
      modifies this
      ensures Sound()
      ensures result.TypeError? <==> Text.Blank(input.event) || !HexDigest(input.digest) || Text.Blank(input.token)
      ensures result.TypeError? ==> rows == old(rows)
      ensures result.Answered? ==> (rows, result.value) == Complete(old(rows), input) && result.value != OwnershipChanged
    {
      if Text.Blank(input.event) || !HexDigest(input.digest) || Text.Blank(input.token) {
        return TypeError;
      }
      var refusal := RefusedCompletion(Get(rows, input.id), input);
      if refusal.Some? {
        return Answered(refusal.value);
      }
      var row := rows[input.id];
      rows := rows[input.id := row.(state := Done, payload := None, worker := None, token := None, claimedAt := None,
                                    completedAt := Some(input.at))];
      return Answered(Completed);
    }

    method ReleaseDelivery(id: Guid, token: string) returns (released: Asked<bool>)
      requires Sound()
      modifies this
      ensures Sound()
      ensures released.TypeError? <==> Text.Blank(token)
      ensures released.TypeError? ==> rows == old(rows)
      ensures released.Answered? ==> (rows, released.value) == Release(old(rows), id, token)
    {
      if Text.Blank(token) {
        return TypeError;
      }
      if !Holds(rows, id, token) {
        return Answered(false);
      }
      rows := rows[id := Freed(rows[id])];
      return Answered(true);
    }

    method ReleaseDeliveryAfterFailure(id: Guid, token: string, failedAt: int, retryNotBefore: int, maxAttempts: int)
      returns (result: Asked<FailResult>)
      requires Sound()
      modifies this
      ensures Sound()
      ensures result.TypeError? <==> Text.Blank(token) || maxAttempts < 1
      ensures result.TypeError? ==> rows == old(rows)
      ensures result.Answered? ==>
                (rows, result.value) == Fail(old(rows), id, token, failedAt, retryNotBefore, maxAttempts)
    {
      if Text.Blank(token) || maxAttempts < 1 {
        return TypeError;
      }
      if !Holds(rows, id, token) {
        return Answered(NotHeld);
      }
      var attempts := rows[id].attempts + 1;
      var dead := attempts >= maxAttempts;
      rows := rows[id := rows[id].(state := if dead then Failed else Pending, worker := None, token := None,
                                   claimedAt := None, attempts := attempts,
                                   completedAt := if dead then Some(failedAt) else None,
                                   retryNotBefore := if dead then None else Some(retryNotBefore))];
      if dead {
        return Answered(DeadLettered(attempts));
      }
      return Answered(RetryScheduled(attempts, retryNotBefore));
    }

    method RedriveDelivery(id: Guid) returns (redriven: bool)
      requires Sound()
      modifies this
      ensures Sound()
      ensures (rows, redriven) == Redrive(old(rows), id)
    {
      if id !in rows || !rows[id].state.Failed? {
        return false;
      }
      rows := rows[id := rows[id].(state := Pending, attempts := 0, completedAt := None, retryNotBefore := None,
                                   worker := None, token := None, claimedAt := None)];
      return true;
    }

    /** Frees every claim that old, and names each delivery it freed once, in the order of the GUIDs. */
    method RequeueStuckDeliveries(claimedBefore: int) returns (ids: seq<Guid>)
      requires Sound()
      modifies this
      ensures Sound()
      ensures rows == Requeue(old(rows), claimedBefore).0
      ensures Ascending(ids)
      ensures forall id :: id in ids <==>
                && id in old(rows) && old(rows)[id].state.Processing?
                && old(rows)[id].claimedAt.Some? && old(rows)[id].claimedAt.value <= claimedBefore
    {
      var after := Requeue(rows, claimedBefore);
      rows := after.0;
      ids := Sorted(after.1);
    }

    method PruneCompletedDeliveries(before: int) returns (deleted: nat)
      requires Sound()
      modifies this
      ensures Sound()
      ensures rows == Prune(old(rows), before)
      ensures forall id :: id in old(rows) && id !in rows <==>
                && id in old(rows) && old(rows)[id].state.Done?
                && old(rows)[id].completedAt.Some? && old(rows)[id].completedAt.value <= before
      ensures deleted == |old(rows)| - |rows|
    {
      var kept := Prune(rows, before);
      assert kept.Keys <= rows.Keys;
      SubsetSize(kept.Keys, rows.Keys);
      deleted := |rows| - |kept|;
      rows := kept;
    }

    /** Every delivery is counted once, in exactly one state. */
    method Counts() returns (pending: nat, processing: nat, done: nat, failed: nat)
      ensures pending == |InState(rows, Pending)| && processing == |InState(rows, Processing)|
      ensures done == |InState(rows, Done)| && failed == |InState(rows, Failed)|
      ensures pending + processing + done + failed == |rows|
    {
      pending, processing := |InState(rows, Pending)|, |InState(rows, Processing)|;
      done, failed := |InState(rows, Done)|, |InState(rows, Failed)|;
      assert rows.Keys == InState(rows, Pending) + InState(rows, Processing) + InState(rows, Done) + InState(rows, Failed);
    }

    /** The first completion still kept, which there is exactly while a completed delivery is. */
    method OldestDone() returns (oldest: Option<int>)
      ensures oldest == Earliest(CompletedAt(rows))
    {
      oldest := Earliest(CompletedAt(rows));
    }
  }

  /** The instants at which deliveries now done were completed. */
  function CompletedAt(t: Table): (instants: set<int>)
    ensures forall at :: at in instants <==> exists id :: id in t && t[id].state.Done? && t[id].completedAt == Some(at)
  {
    set id | id in t && t[id].state.Done? && t[id].completedAt.Some? :: t[id].completedAt.value
  }

  lemma {:induction false} SomeEarliest(instants: set<int>) returns (earliest: int)
    requires exists one :: one in instants
    ensures earliest in instants && forall at :: at in instants ==> earliest <= at
    decreases |instants|
  {
    var one :| one in instants;
    var rest := instants - {one};
    earliest := one;
    if exists other :: other in rest {
      var other := SomeEarliest(rest);
      earliest := if one <= other then one else other;
      assert forall at :: at in instants ==> at == one || at in rest;
    }
  }

  function Earliest(instants: set<int>): (earliest: Option<int>)
    ensures earliest.None? <==> instants == {}
    ensures earliest.Some? ==> earliest.value in instants && forall at :: at in instants ==> earliest.value <= at
  {
    if !exists at :: at in instants then None
    else
      assert exists first :: first in instants && forall at :: at in instants ==> first <= at by {
        var first := SomeEarliest(instants);
      }
      var first :| first in instants && forall at :: at in instants ==> first <= at;
      Some(first)
  }

  predicate Ascending(ids: seq<Guid>) {
    forall i, j :: 0 <= i < j < |ids| ==> ids[i] < ids[j]
  }

  function Sorted(ids: set<Guid>): (sorted: seq<Guid>)
    ensures Ascending(sorted)
    ensures forall id :: id in sorted <==> id in ids
    decreases |ids|
  {
    if ids == {} then []
    else
      var first := Earliest(ids).value;
      var rest := Sorted(ids - {first});
      assert forall i :: 0 <= i < |rest| ==> rest[i] in rest;
      [first] + rest
  }

  lemma {:induction false} SubsetSize(a: set<Guid>, b: set<Guid>)
    requires a <= b
    ensures |a| <= |b|
    decreases |a|
  {
    if a != {} {
      var x :| x in a;
      SubsetSize(a - {x}, b - {x});
    }
  }

  // ----- Runs -----

  datatype Op =
    | Accepting(id: Guid, event: string, payload: Bytes, at: int)
    | Claiming(worker: string, now: int, staleBefore: int, drawn: string)
    | Completing(input: Completion)
    | Releasing(id: Guid, token: string)
    | Failing(id: Guid, token: string, failedAt: int, retryNotBefore: int, cap: int)
    | Redriving(id: Guid)
    | Requeueing(claimedBefore: int)
    | Pruning(before: int)

  ghost function After(t: Table, op: Op, hash: Digest): Table {
    match op
    case Accepting(id, event, payload, at) => Accept(t, id, event, payload, at, hash).0
    case Claiming(worker, now, staleBefore, drawn) => Claim(t, worker, now, staleBefore, drawn).0
    case Completing(input) => Complete(t, input).0
    case Releasing(id, token) => Release(t, id, token).0
    case Failing(id, token, failedAt, retryNotBefore, cap) => Fail(t, id, token, failedAt, retryNotBefore, cap).0
    case Redriving(id) => Redrive(t, id).0
    case Requeueing(claimedBefore) => Requeue(t, claimedBefore).0
    case Pruning(before) => Prune(t, before)
  }

  ghost function Final(t: Table, ops: seq<Op>, hash: Digest): Table
    decreases |ops|
  {
    if ops == [] then t else Final(After(t, ops[0], hash), ops[1..], hash)
  }

  /** The tokens a run draws. */
  ghost predicate Draws(ops: seq<Op>, token: string) {
    exists i :: 0 <= i < |ops| && ops[i].Claiming? && ops[i].drawn == token
  }

  ghost predicate HeldToken(t: Table, id: Guid, token: string) {
    id in t && t[id].token == Some(token)
  }

  /** An operation made under this delivery's claim token. */
  predicate Presents(op: Op, id: Guid, token: string) {
    match op
    case Completing(input) => input.id == id && input.token == token
    case Releasing(i, k) => i == id && k == token
    case Failing(i, k, _, _, _) => i == id && k == token
    case _ => false
  }

  lemma StepKeepsCheck(t: Table, op: Op, hash: Digest)
    requires Valid(t)
    requires op.Failing? ==> op.cap >= 1
    ensures Valid(After(t, op, hash))
  {
    var next := After(t, op, hash);
    forall id | id in next ensures Check(next[id]) {
      assert id in t ==> Check(t[id]);
    }
  }

  ghost predicate CapsArePositive(ops: seq<Op>) {
    forall i :: 0 <= i < |ops| && ops[i].Failing? ==> ops[i].cap >= 1
  }

  /** Whatever is asked in whatever order, every row keeps the schema's CHECK. */
  lemma {:induction false} RunsKeepCheck(t: Table, ops: seq<Op>, hash: Digest)
    requires Valid(t) && CapsArePositive(ops)
    ensures Valid(Final(t, ops, hash))
    decreases |ops|
  {
    if ops != [] {
      assert CapsArePositive(ops[1..]) by {
        forall i | 0 <= i < |ops[1..]| && ops[1..][i].Failing? ensures ops[1..][i].cap >= 1 {
          assert ops[1..][i] == ops[i + 1];
        }
      }
      StepKeepsCheck(t, ops[0], hash);
      RunsKeepCheck(After(t, ops[0], hash), ops[1..], hash);
    }
  }

  /** In a queue that keeps its CHECK the "ownership changed" throw is unreachable. */
  lemma OwnershipNeverChanges(t: Table, input: Completion)
    requires Valid(t)
    ensures Complete(t, input).1 != OwnershipChanged
    ensures Complete(t, input).1 == Completed <==>
              && Holds(t, input.id, input.token)
              && t[input.id].event == input.event
              && t[input.id].digest == input.digest
  {
    if input.id in t {
      assert Check(t[input.id]);
    }
  }

  lemma {:induction false} LostTokenStaysLost(t: Table, ops: seq<Op>, hash: Digest, id: Guid, token: string)
    requires !HeldToken(t, id, token) && !Draws(ops, token)
    ensures !HeldToken(Final(t, ops, hash), id, token)
    decreases |ops|
  {
    if ops != [] {
      var next := After(t, ops[0], hash);
      assert !HeldToken(next, id, token) by {
        assert ops[0].Claiming? ==> ops[0].drawn != token;
      }
      forall i | 0 <= i < |ops[1..]| && ops[1..][i].Claiming? ensures ops[1..][i].drawn != token {
        assert ops[1..][i] == ops[i + 1];
      }
      LostTokenStaysLost(next, ops[1..], hash, id, token);
    }
  }

  /**
   * Fencing. Once a delivery is no longer held under a token, and tokens are drawn fresh, nothing made under
   * that token changes any row again, however long the run goes on.
   */
  lemma SupersededTokenIsDead(t: Table, ops: seq<Op>, hash: Digest, id: Guid, token: string, op: Op)
    requires !HeldToken(t, id, token) && !Draws(ops, token)
    requires Presents(op, id, token)
    ensures After(Final(t, ops, hash), op, hash) == Final(t, ops, hash)
  {
    LostTokenStaysLost(t, ops, hash, id, token);
  }

  /** A stale takeover is what supersedes: the claim it takes over is held under the new token alone. */
  lemma TakeoverSupersedes(t: Table, worker: string, now: int, staleBefore: int, drawn: string, id: Guid, token: string)
    requires Holds(t, id, token) && drawn != token
    requires Claim(t, worker, now, staleBefore, drawn).1 == Some(id)
    ensures var next := Claim(t, worker, now, staleBefore, drawn).0;
            Holds(next, id, drawn) && !HeldToken(next, id, token)
    ensures t[id].claimedAt.Some? && t[id].claimedAt.value <= staleBefore
  {
  }

  /** What a GUID not seen before becomes, and how one seen before is told: by its event and its bytes' digest. */
  lemma WhatAcceptingTells(t: Table, id: Guid, event: string, payload: Bytes, at: int, hash: Digest)
    ensures var (after, answer) := Accept(t, id, event, payload, at, hash);
            && (id !in t ==>
                  && after == t[id := after[id]] && SameDelivery(after[id], Row(event, Some(payload), hash(payload), at, Pending,
                                                                               None, None, None, None, 0, None))
                  && after[id].attempts == 0 && answer == Accepted(hash(payload))
                  && forall now, staleBefore :: Eligible(after[id], now, staleBefore))
            && (id in t ==>
                  && after == t && !answer.Accepted? && answer.state == t[id].state
                  && (answer.Duplicate? <==> t[id].event == event && t[id].digest == hash(payload))
                  && (answer.Duplicate? ==> answer.digest == t[id].digest)
                  && (answer.Conflict? ==>
                        && (answer.eventNameMismatch <==> t[id].event != event)
                        && (answer.payloadMismatch <==> t[id].digest != hash(payload))))
  {
  }

  /** A claim hands out a delivery exactly when one may be taken, the oldest of them, and disturbs no other. */
  lemma AClaimTakesTheOldest(t: Table, worker: string, now: int, staleBefore: int, drawn: string)
    ensures var (after, claimed) := Claim(t, worker, now, staleBefore, drawn);
            && (claimed.Some? <==> AnyEligible(t, now, staleBefore))
            && (claimed.None? ==> after == t)
            && (claimed.Some? ==>
                  && IsNext(t, claimed.value, now, staleBefore) && after == t[claimed.value := after[claimed.value]]
                  && Holds(after, claimed.value, drawn) && SameDelivery(t[claimed.value], after[claimed.value])
                  && after[claimed.value].claimedAt == Some(now) && after[claimed.value].worker == Some(worker)
                  && after[claimed.value].attempts == t[claimed.value].attempts)
  {
  }

  /** What may be taken: what waits and whose backoff, if any, is over, and what was claimed no later than the stale instant. */
  lemma WhatMayBeTaken(row: Row, now: int, staleBefore: int)
    requires Check(row)
    ensures row.state.Pending? ==>
              (Eligible(row, now, staleBefore) <==> row.retryNotBefore.None? || row.retryNotBefore.value <= now)
    ensures row.state.Processing? ==> (Eligible(row, now, staleBefore) <==> row.claimedAt.value <= staleBefore)
    ensures row.state.Done? || row.state.Failed? ==> !Eligible(row, now, staleBefore)
  {
  }

  ghost predicate SameDelivery(a: Row, b: Row) {
    a.event == b.event && a.payload == b.payload && a.digest == b.digest && a.receivedAt == b.receivedAt
  }

  /** The completion that ends a delivery's wait. */
  ghost predicate CompletesIt(t: Table, op: Op, id: Guid) {
    op.Completing? && op.input.id == id && Complete(t, op.input).1 == Completed
  }

  lemma StepLosesNothing(t: Table, op: Op, hash: Digest, id: Guid)
    requires Valid(t) && id in t && !t[id].state.Done?
    ensures id in After(t, op, hash)
    ensures After(t, op, hash)[id].state.Done? <==> CompletesIt(t, op, id)
    ensures !CompletesIt(t, op, id) ==> SameDelivery(t[id], After(t, op, hash)[id])
  {
    assert Check(t[id]);
  }

  ghost predicate NoneCompletes(t: Table, ops: seq<Op>, hash: Digest, id: Guid)
    decreases |ops|
  {
    ops != [] ==> !CompletesIt(t, ops[0], id) && NoneCompletes(After(t, ops[0], hash), ops[1..], hash, id)
  }

  /**
   * Nothing is lost. Until a completion of it succeeds, an accepted delivery stays in the table with its very
   * bytes, its digest, its event and its arrival, through every claim, failure, dead letter, redrive and pruning.
   */
  lemma {:induction false} AcceptedPayloadIsKeptUntilDone(t: Table, ops: seq<Op>, hash: Digest, id: Guid)
    requires Valid(t) && CapsArePositive(ops) && id in t && !t[id].state.Done?
    requires NoneCompletes(t, ops, hash, id)
    ensures var last := Final(t, ops, hash);
            id in last && !last[id].state.Done? && SameDelivery(t[id], last[id]) && last[id].payload.Some?
    decreases |ops|
  {
    assert Check(t[id]);
    if ops != [] {
      StepLosesNothing(t, ops[0], hash, id);
      StepKeepsCheck(t, ops[0], hash);
      forall i | 0 <= i < |ops[1..]| && ops[1..][i].Failing? ensures ops[1..][i].cap >= 1 {
        assert ops[1..][i] == ops[i + 1];
      }
      AcceptedPayloadIsKeptUntilDone(After(t, ops[0], hash), ops[1..], hash, id);
    }
  }

  /** No step of the run deletes this delivery. */
  ghost predicate NeverPruned(t: Table, ops: seq<Op>, hash: Digest, id: Guid)
    decreases |ops|
  {
    ops != [] ==>
      && (id in t ==> id in After(t, ops[0], hash))
      && NeverPruned(After(t, ops[0], hash), ops[1..], hash, id)
  }

  ghost function Completions(t: Table, ops: seq<Op>, hash: Digest, id: Guid): nat
    decreases |ops|
  {
    if ops == [] then 0
    else (if CompletesIt(t, ops[0], id) then 1 else 0) + Completions(After(t, ops[0], hash), ops[1..], hash, id)
  }

  /** Between a delivery's acceptance and its pruning at most one completion succeeds, whoever asks. */
  lemma {:induction false} AtMostOneCompletion(t: Table, ops: seq<Op>, hash: Digest, id: Guid)
    requires NeverPruned(t, ops, hash, id)
    ensures Completions(t, ops, hash, id) <= 1
    ensures id in t && t[id].state.Done? ==>
              Completions(t, ops, hash, id) == 0 && id in Final(t, ops, hash) && Final(t, ops, hash)[id] == t[id]
    decreases |ops|
  {
    if ops != [] {
      AtMostOneCompletion(After(t, ops[0], hash), ops[1..], hash, id);
    }
  }

  // ----- Counted failures -----

  ghost predicate Capped(t: Table, cap: int) {
    forall id :: id in t ==> if t[id].state.Failed? then t[id].attempts == cap else 0 <= t[id].attempts < cap
  }

  ghost predicate FixedCap(ops: seq<Op>, cap: int) {
    forall i :: 0 <= i < |ops| && ops[i].Failing? ==> ops[i].cap == cap
  }

  lemma StepKeepsCap(t: Table, op: Op, hash: Digest, cap: int)
    requires Capped(t, cap) && cap >= 1 && (op.Failing? ==> op.cap == cap)
    ensures Capped(After(t, op, hash), cap)
  {
    var next := After(t, op, hash);
    forall id | id in next
      ensures if next[id].state.Failed? then next[id].attempts == cap else 0 <= next[id].attempts < cap
    {
      assert id in t ==> if t[id].state.Failed? then t[id].attempts == cap else 0 <= t[id].attempts < cap;
    }
  }

  /**
   * Failures are bounded. Under one fixed cap every delivery still to be claimed has failed fewer times than the
   * cap, a dead letter exactly as many, and a dead letter is claimable by nothing.
   */
  lemma {:induction false} FailuresAreBounded(t: Table, ops: seq<Op>, hash: Digest, cap: int)
    requires Capped(t, cap) && cap >= 1 && FixedCap(ops, cap)
    ensures Capped(Final(t, ops, hash), cap)
    ensures var last := Final(t, ops, hash);
            forall id, now, staleBefore ::
              id in last && Eligible(last[id], now, staleBefore) ==> last[id].attempts < cap
    decreases |ops|
  {
    if ops != [] {
      StepKeepsCap(t, ops[0], hash, cap);
      forall i | 0 <= i < |ops[1..]| && ops[1..][i].Failing? ensures ops[1..][i].cap == cap {
        assert ops[1..][i] == ops[i + 1];
      }
      FailuresAreBounded(After(t, ops[0], hash), ops[1..], hash, cap);
    }
  }

  /** One failed attempt: the count is one more, and either the cap is met or the row waits out its backoff. */
  lemma AFailureBacksOff(t: Table, id: Guid, token: string, failedAt: int, retryNotBefore: int, cap: int)
    requires Holds(t, id, token)
    ensures var (after, answer) := Fail(t, id, token, failedAt, retryNotBefore, cap);
            && id in after && after[id].attempts == t[id].attempts + 1
            && after == t[id := after[id]] && SameDelivery(t[id], after[id])
            && (answer.DeadLettered? <==> t[id].attempts + 1 >= cap)
            && (answer.DeadLettered? ==>
                  && after[id].state.Failed? && after[id].completedAt == Some(failedAt)
                  && answer.attempts == t[id].attempts + 1)
            && (!answer.DeadLettered? ==>
                  && answer == RetryScheduled(t[id].attempts + 1, retryNotBefore)
                  && forall now, staleBefore :: Eligible(after[id], now, staleBefore) <==> retryNotBefore <= now)
  {
  }

  /** Every claim in the run reads a clock before this instant. */
  ghost predicate ClaimsBefore(ops: seq<Op>, instant: int) {
    forall i :: 0 <= i < |ops| && ops[i].Claiming? ==> ops[i].now < instant
  }

  /** Pending, and waiting out a backoff until this instant. */
  ghost predicate BackingOff(t: Table, id: Guid, until: int) {
    id in t && t[id].state.Pending? && t[id].retryNotBefore == Some(until)
  }

  lemma {:induction false} ABackoffIsWaitedOut(t: Table, ops: seq<Op>, hash: Digest, id: Guid, until: int)
    requires Valid(t) && CapsArePositive(ops) && BackingOff(t, id, until) && ClaimsBefore(ops, until)
    ensures BackingOff(Final(t, ops, hash), id, until) && Final(t, ops, hash)[id] == t[id]
    decreases |ops|
  {
    if ops != [] {
      var next := After(t, ops[0], hash);
      assert Check(t[id]);
      assert ops[0].Claiming? ==> ops[0].now < until;
      assert next[id] == t[id];
      StepKeepsCheck(t, ops[0], hash);
      forall i | 0 <= i < |ops[1..]|
        ensures (ops[1..][i].Failing? ==> ops[1..][i].cap >= 1) && (ops[1..][i].Claiming? ==> ops[1..][i].now < until)
      {
        assert ops[1..][i] == ops[i + 1];
      }
      ABackoffIsWaitedOut(next, ops[1..], hash, id, until);
    }
  }

  /** After a failed attempt that is retried, no claim reading a clock before the backoff's end chooses the delivery. */
  lemma ARetryIsNotEarly(t: Table, id: Guid, token: string, failedAt: int, retryNotBefore: int, cap: int, ops: seq<Op>,
                         hash: Digest, worker: string, now: int, staleBefore: int, drawn: string)
    requires Valid(t) && CapsArePositive(ops) && Holds(t, id, token) && cap >= 1 && t[id].attempts + 1 < cap
    requires ClaimsBefore(ops, retryNotBefore) && now < retryNotBefore
    ensures var later := Final(Fail(t, id, token, failedAt, retryNotBefore, cap).0, ops, hash);
            Claim(later, worker, now, staleBefore, drawn).1 != Some(id)
  {
    var after := Fail(t, id, token, failedAt, retryNotBefore, cap).0;
    StepKeepsCheck(t, Failing(id, token, failedAt, retryNotBefore, cap), hash);
    ABackoffIsWaitedOut(after, ops, hash, id, retryNotBefore);
  }

  // ----- Bytes and digests -----

  ghost predicate Digested(t: Table, hash: Digest) {
    forall id :: id in t && t[id].payload.Some? ==> t[id].digest == hash(t[id].payload.value)
  }

  /** Every payload still held is the one its digest column was computed from. */
  lemma {:induction false} DigestsAnswerForTheirBytes(t: Table, ops: seq<Op>, hash: Digest)
    requires Digested(t, hash)
    ensures Digested(Final(t, ops, hash), hash)
    decreases |ops|
  {
    if ops != [] {
      var next := After(t, ops[0], hash);
      forall id | id in next && next[id].payload.Some? ensures next[id].digest == hash(next[id].payload.value) {
        assert id in t && t[id].payload.Some? ==> t[id].digest == hash(t[id].payload.value);
      }
      DigestsAnswerForTheirBytes(next, ops[1..], hash);
    }
  }
}
