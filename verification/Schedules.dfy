/**
 * Leases that one worker at a time holds, and schedules that fire more than once. Each statement is one step on a
 * table, and its tokens are the environment's.
 */
module Schedules {
  import opened Wrappers

  // ----- Leases -----

  datatype Lease = Lease(worker: string, at: int)

  type Leases = map<string, Lease>

  /** Nobody holds the lease, or its holder has gone stale. */
  predicate Winnable(t: Leases, effect: string, staleBefore: int) {
    effect in t ==> t[effect].at <= staleBefore
  }

  datatype LeaseOp =
    | Taking(effect: string, worker: string, now: int, staleBefore: int)
    | Returning(effect: string, worker: string)

  function LeaseAfter(t: Leases, op: LeaseOp): Leases {
    match op
    case Taking(effect, worker, now, staleBefore) =>
      if Winnable(t, effect, staleBefore) then t[effect := Lease(worker, now)] else t
    case Returning(effect, worker) =>
      if effect in t && t[effect].worker == worker then t - {effect} else t
  }

  function LeasesAfter(t: Leases, ops: seq<LeaseOp>): Leases {
    if ops == [] then t else LeaseAfter(LeasesAfter(t, ops[..|ops| - 1]), ops[|ops| - 1])
  }

  /** Every take of the effect judges staleness before this holding, and the holder does not return it. */
  predicate LeftAlone(ops: seq<LeaseOp>, effect: string, held: Lease) {
    && (forall op :: op in ops && op.Taking? && op.effect == effect ==> op.staleBefore < held.at)
    && (forall op :: op in ops && op.Returning? && op.effect == effect ==> op.worker != held.worker)
  }

  /**
   * One winner. From the moment a worker takes a lease until it returns it or is judged stale, whatever else the run
   * does, the lease stays its own: no other take of the effect wins, and no other worker's return disturbs it.
   */
  lemma {:induction false} OneWinner(t: Leases, effect: string, held: Lease, ops: seq<LeaseOp>, i: nat)
    requires effect in t && t[effect] == held && LeftAlone(ops, effect, held) && i < |ops|
    ensures effect in LeasesAfter(t, ops) && LeasesAfter(t, ops)[effect] == held
    ensures ops[i].Taking? && ops[i].effect == effect ==> !Winnable(LeasesAfter(t, ops[..i]), effect, ops[i].staleBefore)
  {
    var shorter, last := ops[..|ops| - 1], ops[|ops| - 1];
    assert last in ops && forall op :: op in shorter ==> op in ops;
    if |shorter| > 0 {
      OneWinner(t, effect, held, shorter, if i < |shorter| then i else 0);
    }
    if i < |shorter| {
      assert shorter[..i] == ops[..i];
    }
  }

  /** A take wins exactly a free lease or one as old as the instant it judges by, and then holds it from its own clock on. */
  lemma ATakeWinsIff(t: Leases, effect: string, worker: string, now: int, staleBefore: int)
    ensures var after := LeaseAfter(t, Taking(effect, worker, now, staleBefore));
            && (effect !in t || t[effect].at <= staleBefore ==> after == t[effect := Lease(worker, now)])
            && (effect in t && t[effect].at > staleBefore ==> after == t)
  {
  }

  // ----- Schedules -----

  datatype Status = Pending | Running | Done

  datatype Row = Row(
    dueAt: int,
    effect: string,
    status: Status,
    claimedAt: Option<int>,
    token: Option<string>,
    resumeAfter: Option<int>,
    startedAt: Option<int>)

  type Table = map<string, Row>

  /** A running row has its claim, and no other row has one. */
  predicate ClaimedIffRunning(row: Row) {
    (row.claimedAt.Some? <==> row.status.Running?) && (row.token.Some? <==> row.status.Running?)
  }

  predicate Checked(t: Table) {
    forall id :: id in t ==> ClaimedIffRunning(t[id])
  }

  predicate Held(t: Table, id: string, token: string) {
    id in t && t[id].status.Running? && t[id].token == Some(token)
  }

  function Freed(row: Row): Row {
    row.(status := Pending, claimedAt := None, token := None)
  }

  function Declare(t: Table, id: string, dueAt: int, effect: string): Table {
    if id in t then t else t[id := Row(dueAt, effect, Pending, None, None, None, None)]
  }

  predicate Due(row: Row, now: int) {
    row.status.Pending? && row.dueAt <= now
  }

  function ClaimDue(t: Table, now: int, draw: string -> string): Table {
    map id | id in t ::
      if Due(t[id], now) then t[id].(status := Running, claimedAt := Some(now), token := Some(draw(id))) else t[id]
  }

  function Complete(t: Table, id: string, token: string): Table {
    if Held(t, id, token) then t[id := t[id].(status := Done, claimedAt := None, token := None)] else t
  }

  /** The row pending again at its next due date; its start is kept where none is given. */
  function Rearm(t: Table, id: string, token: string, dueAt: int, resumeAfter: Option<int>, startedAt: Option<int>): Table {
    if Held(t, id, token) then
      t[id := Freed(t[id]).(dueAt := dueAt, resumeAfter := resumeAfter,
                            startedAt := if startedAt.Some? then startedAt else t[id].startedAt)]
    else t
  }

  predicate Stuck(row: Row, claimedBefore: int) {
    row.status.Running? && row.claimedAt.Some? && row.claimedAt.value <= claimedBefore
  }

  function Requeue(t: Table, claimedBefore: int): Table {
    map id | id in t :: if Stuck(t[id], claimedBefore) then Freed(t[id]) else t[id]
  }

  // ----- Firing in order -----

  /** Never-fired before all, then whoever started longer ago. */
  predicate FiresNoLater(a: Option<int>, b: Option<int>) {
    a.None? || (b.Some? && a.value <= b.value)
  }

  predicate InFiringOrder(t: Table, ids: seq<string>) {
    && (forall i :: 0 <= i < |ids| ==> ids[i] in t)
    && (forall i, j :: 0 <= i < j < |ids| ==> FiresNoLater(t[ids[i]].startedAt, t[ids[j]].startedAt))
  }

  function InsertByStart(t: Table, id: string, ids: seq<string>): (inserted: seq<string>)
    requires id in t && InFiringOrder(t, ids)
    ensures InFiringOrder(t, inserted)
    ensures |inserted| == |ids| + 1 && forall x :: x in inserted <==> x == id || x in ids
  {
    if ids == [] then [id]
    else if FiresNoLater(t[id].startedAt, t[ids[0]].startedAt) then [id] + ids
    else
      var others := InsertByStart(t, id, ids[1..]);
      assert forall x :: x in ids[1..] ==> FiresNoLater(t[ids[0]].startedAt, t[x].startedAt);
      assert forall i :: 0 <= i < |others| ==> others[i] in others;
      [ids[0]] + others
  }

  /** A claimed row as its claimant is handed it. */
  datatype Firing = Firing(id: string, dueAt: int, effect: string, token: string, resumeAfter: Option<int>)

  function Ids(firings: seq<Firing>): (ids: seq<string>)
    ensures |ids| == |firings| && forall i :: 0 <= i < |firings| ==> ids[i] == firings[i].id
  {
    if firings == [] then [] else [firings[0].id] + Ids(firings[1..])
  }

  function Firings(t: Table, ids: seq<string>): (firings: seq<Firing>)
    requires forall id :: id in ids ==> id in t && t[id].token.Some?
    ensures Ids(firings) == ids
    ensures forall firing :: firing in firings ==>
              && firing.id in ids && t[firing.id].token == Some(firing.token)
              && firing.dueAt == t[firing.id].dueAt && firing.effect == t[firing.id].effect
              && firing.resumeAfter == t[firing.id].resumeAfter
  {
    if ids == [] then []
    else
      var row := t[ids[0]];
      [Firing(ids[0], row.dueAt, row.effect, row.token.value, row.resumeAfter)] + Firings(t, ids[1..])
  }

  class Schedule {
    var rows: Table

    constructor ()
      ensures rows == map[]
    {
      rows := map[];
    }

    method Add(id: string, dueAt: int, effect: string)
      modifies this
      ensures rows == Declare(old(rows), id, dueAt, effect)
    {
      if id !in rows {
        rows := rows[id := Row(dueAt, effect, Pending, None, None, None, None)];
      }
    }

    /** Every due row is claimed at once and handed back once, the longest waiting first, with the token it is held by. */
    method Claim(now: int, draw: string -> string) returns (claimed: seq<Firing>)
      modifies this
      ensures rows == ClaimDue(old(rows), now, draw)
      ensures forall id :: id in Ids(claimed) <==> id in old(rows) && Due(old(rows)[id], now)
      ensures |claimed| == |set id | id in old(rows) && Due(old(rows)[id], now)|
      ensures InFiringOrder(old(rows), Ids(claimed))
      ensures forall firing :: firing in claimed ==>
                && Held(rows, firing.id, firing.token)
                && firing.dueAt == old(rows)[firing.id].dueAt && firing.effect == old(rows)[firing.id].effect
                && firing.resumeAfter == old(rows)[firing.id].resumeAfter
    {
      var due := set id | id in rows && Due(rows[id], now);
      var left := due;
      var order: seq<string> := [];
      while left != {}
        invariant left <= due && InFiringOrder(rows, order)
        invariant forall id :: id in order <==> id in due && id !in left
        invariant |order| + |left| == |due|
        decreases left
      {
        var id :| id in left;
        order := InsertByStart(rows, id, order);
        left := left - {id};
      }
      rows := ClaimDue(rows, now, draw);
      claimed := Firings(rows, order);
    }

    method ScheduleDone(id: string, token: string) returns (done: bool)
      modifies this
      ensures done == Held(old(rows), id, token) && rows == Complete(old(rows), id, token)
    {
      done := Held(rows, id, token);
      if done {
        rows := rows[id := rows[id].(status := Done, claimedAt := None, token := None)];
      }
    }

    method ScheduleAgain(id: string, token: string, dueAt: int, resumeAfter: Option<int>, startedAt: Option<int>)
      returns (armed: bool)
      modifies this
      ensures armed == Held(old(rows), id, token) && rows == Rearm(old(rows), id, token, dueAt, resumeAfter, startedAt)
    {
      armed := Held(rows, id, token);
      if armed {
        var row := rows[id];
        rows := rows[id := row.(status := Pending, dueAt := dueAt, claimedAt := None, token := None,
                                resumeAfter := resumeAfter,
                                startedAt := if startedAt.Some? then startedAt else row.startedAt)];
      }
    }

    method RequeueStuck(claimedBefore: int) returns (requeued: set<string>)
      modifies this
      ensures rows == Requeue(old(rows), claimedBefore)
      ensures forall id :: id in requeued <==>
                && id in old(rows) && old(rows)[id].status.Running?
                && old(rows)[id].claimedAt.Some? && old(rows)[id].claimedAt.value <= claimedBefore
      ensures forall id :: id in old(rows) ==>
                id in rows && rows[id] == if id in requeued then Freed(old(rows)[id]) else old(rows)[id]
    {
      requeued := set id | id in rows && Stuck(rows[id], claimedBefore);
      rows := Requeue(rows, claimedBefore);
    }
  }

  // ----- Runs -----

  datatype Op =
    | Declaring(id: string, dueAt: int, effect: string)
    | Claiming(now: int, draw: string -> string)
    | Completing(id: string, token: string)
    | Rearming(id: string, token: string, dueAt: int, resumeAfter: Option<int>, startedAt: Option<int>)
    | Requeueing(claimedBefore: int)

  function After(t: Table, op: Op): Table {
    match op
    case Declaring(id, dueAt, effect) => Declare(t, id, dueAt, effect)
    case Claiming(now, draw) => ClaimDue(t, now, draw)
    case Completing(id, token) => Complete(t, id, token)
    case Rearming(id, token, dueAt, resumeAfter, startedAt) => Rearm(t, id, token, dueAt, resumeAfter, startedAt)
    case Requeueing(claimedBefore) => Requeue(t, claimedBefore)
  }

  ghost function Final(t: Table, ops: seq<Op>): Table
    decreases |ops|
  {
    if ops == [] then t else Final(After(t, ops[0]), ops[1..])
  }

  predicate Presents(op: Op, id: string, token: string) {
    (op.Completing? || op.Rearming?) && op.id == id && op.token == token
  }

  /** No claim in the run draws this token for this row: tokens are random, and drawn once. */
  ghost predicate NeverDrawn(ops: seq<Op>, id: string, token: string) {
    forall i :: 0 <= i < |ops| && ops[i].Claiming? ==> ops[i].draw(id) != token
  }

  /** Every statement keeps a claim on the running rows and on no other. */
  lemma {:induction false} RunsKeepClaims(t: Table, ops: seq<Op>)
    requires Checked(t)
    ensures Checked(Final(t, ops))
    decreases |ops|
  {
    if ops != [] {
      RunsKeepClaims(After(t, ops[0]), ops[1..]);
    }
  }

  /** A declared schedule is never lost, its effect never changes, and a completed one never fires again. */
  lemma {:induction false} NothingIsLost(t: Table, ops: seq<Op>, id: string)
    requires id in t
    ensures id in Final(t, ops) && Final(t, ops)[id].effect == t[id].effect
    ensures t[id].status.Done? ==> Final(t, ops)[id] == t[id]
    decreases |ops|
  {
    if ops != [] {
      NothingIsLost(After(t, ops[0]), ops[1..], id);
    }
  }

  /** A running schedule is its claimant's alone, and fires no second time, until its token is presented or it is judged stuck. */
  lemma {:induction false} ARunningScheduleIsNotRefired(t: Table, ops: seq<Op>, id: string, token: string)
    requires Checked(t) && Held(t, id, token)
    requires forall op :: op in ops ==> !Presents(op, id, token)
    requires forall op :: op in ops && op.Requeueing? ==> op.claimedBefore < t[id].claimedAt.value
    ensures id in Final(t, ops) && Final(t, ops)[id] == t[id]
    decreases |ops|
  {
    if ops != [] {
      var next := After(t, ops[0]);
      assert ops[0] in ops && next[id] == t[id];
      assert Checked(next);
      ARunningScheduleIsNotRefired(next, ops[1..], id, token);
    }
  }

  /** Pending, and due at this instant. */
  predicate WaitsUntil(t: Table, id: string, dueAt: int) {
    id in t && t[id].status.Pending? && t[id].dueAt == dueAt
  }

  /** Every claim in the run reads a clock before this instant. */
  ghost predicate ClaimsBefore(ops: seq<Op>, instant: int) {
    forall op :: op in ops && op.Claiming? ==> op.now < instant
  }

  lemma {:induction false} AWaitIsKept(t: Table, ops: seq<Op>, id: string, dueAt: int)
    requires WaitsUntil(t, id, dueAt) && ClaimsBefore(ops, dueAt)
    ensures id in Final(t, ops) && Final(t, ops)[id] == t[id]
    decreases |ops|
  {
    if ops != [] {
      assert ops[0] in ops;
      AWaitIsKept(After(t, ops[0]), ops[1..], id, dueAt);
    }
  }

  /**
   * A firing that arms the next is not due again before the date it gives, whatever runs meanwhile, and is at that
   * date; it goes on from the cursor it gives, and from its own start or, where it read nothing, the row's.
   */
  lemma ARearmedScheduleWaits(t: Table, id: string, token: string, dueAt: int, resumeAfter: Option<int>,
                              startedAt: Option<int>, ops: seq<Op>)
    requires Held(t, id, token) && ClaimsBefore(ops, dueAt)
    ensures var later := Final(Rearm(t, id, token, dueAt, resumeAfter, startedAt), ops);
            && id in later && (forall now :: Due(later[id], now) <==> dueAt <= now)
            && later[id].effect == t[id].effect && later[id].resumeAfter == resumeAfter
            && (startedAt.Some? ==> later[id].startedAt == startedAt)
            && (startedAt.None? ==> later[id].startedAt == t[id].startedAt)
  {
    AWaitIsKept(Rearm(t, id, token, dueAt, resumeAfter, startedAt), ops, id, dueAt);
  }

  /** A token that has lost its row, by any of the ways there are, never acts on it again. */
  lemma {:induction false} ALostTokenStaysLost(t: Table, ops: seq<Op>, id: string, token: string)
    requires !Held(t, id, token) && NeverDrawn(ops, id, token)
    ensures !Held(Final(t, ops), id, token)
    decreases |ops|
  {
    if ops != [] {
      var next := After(t, ops[0]);
      assert !Held(next, id, token);
      assert forall i :: 0 <= i < |ops[1..]| ==> ops[1..][i] == ops[i + 1];
      ALostTokenStaysLost(next, ops[1..], id, token);
    }
  }

  /** How often a token's presentation is answered yes. */
  ghost function Finishes(t: Table, ops: seq<Op>, id: string, token: string): nat
    decreases |ops|
  {
    if ops == [] then 0
    else (if Presents(ops[0], id, token) && Held(t, id, token) then 1 else 0)
         + Finishes(After(t, ops[0]), ops[1..], id, token)
  }

  /** One claim, one end: however often and however a claimant presents its token, at most one presentation counts. */
  lemma {:induction false} OneClaimEndsOnce(t: Table, ops: seq<Op>, id: string, token: string)
    requires NeverDrawn(ops, id, token)
    ensures Finishes(t, ops, id, token) <= if Held(t, id, token) then 1 else 0
    decreases |ops|
  {
    if ops != [] {
      var next := After(t, ops[0]);
      assert Presents(ops[0], id, token) || !Held(t, id, token) ==> !Held(next, id, token);
      assert forall i :: 0 <= i < |ops[1..]| ==> ops[1..][i] == ops[i + 1];
      OneClaimEndsOnce(next, ops[1..], id, token);
    }
  }
}
