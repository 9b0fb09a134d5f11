/**
 * The rate-limit books a client keeps for itself: the cost of an exchange, the windows costs are counted in, and which
 * request is turned away. Clock readings come in as parameters, `None` where the ledger was built without a clock.
 */
module Allowance {
  import opened Wrappers

  const ASSUMED_POOL_LIMIT := 5_000
  const WINDOW_SLACK_S := 60

  datatype Pool = Core | Graphql

  datatype Lane = Rest | Points | Mutations

  datatype Spent = Spent(core: nat, graphql: nat, mutations: nat)

  /** What the books need of an exchange; `status` is `None` for one that was never sent. */
  datatype Exchange = Exchange(pool: Pool, mutation: bool, status: Option<int>, points: Option<nat>)

  const NOTHING := Spent(0, 0, 0)

  function CostOf(exchange: Exchange): Spent {
    if exchange.status.None? then NOTHING
    else if exchange.mutation then Spent(1, 0, 1)
    else if exchange.pool.Graphql? then Spent(0, if exchange.points.Some? then exchange.points.value else 1, 0)
    else if exchange.status == Some(304) then NOTHING
    else Spent(1, 0, 0)
  }

  function CostTo(exchange: Exchange, pool: Pool): nat {
    if pool.Core? then CostOf(exchange).core else CostOf(exchange).graphql
  }

  function LaneOf(pool: Pool): Lane {
    if pool.Core? then Rest else Points
  }

  // ----- One pool's books -----

  datatype PoolLedger = PoolLedger(limit: nat, resetAt: Option<nat>, spent: nat)

  const FRESH := PoolLedger(ASSUMED_POOL_LIMIT, None, 0)

  /** How much of the pool's limit these books let through: the limit scaled by the share, cut to a whole number. */
  function CapOf(share: real, ledger: PoolLedger): int {
    (share * ledger.limit as real).Floor
  }

  /** Once the clock is at or past the end a pool names, the pool has no end and no spend. */
  function Rolled(ledger: PoolLedger, now: Option<int>): PoolLedger {
    if now.Some? && ledger.resetAt.Some? && now.value >= ledger.resetAt.value * 1_000
    then ledger.(resetAt := None, spent := 0) else ledger
  }

  /** The two headers a response states of its pool, where each is a whole number. */
  datatype Headers = Headers(limit: Option<nat>, reset: Option<nat>)

  function Relimited(ledger: PoolLedger, headers: Headers): PoolLedger {
    if headers.limit.Some? && headers.limit.value > 0 then ledger.(limit := headers.limit.value) else ledger
  }

  /** Does this response open a new window: a later end, not passed, past the slack, the old end behind us? */
  predicate Opens(ledger: PoolLedger, headers: Headers, first: Option<int>, second: Option<int>) {
    && headers.reset.Some?
    && (ledger.resetAt.None? || headers.reset.value > ledger.resetAt.value + WINDOW_SLACK_S)
    && (first.None? || first.value < headers.reset.value * 1_000)
    && (ledger.resetAt.None? || second.None? || second.value >= ledger.resetAt.value * 1_000)
  }

  /** Does it only move the end of the window it is in? */
  predicate Drifts(ledger: PoolLedger, headers: Headers, first: Option<int>) {
    && headers.reset.Some? && ledger.resetAt.Some?
    && ledger.resetAt.value < headers.reset.value <= ledger.resetAt.value + WINDOW_SLACK_S
    && (first.None? || first.value < headers.reset.value * 1_000)
  }

  /** What a response said of its pool; the clock is read twice on the way. */
  function Observed(ledger: PoolLedger, headers: Headers, first: Option<int>, second: Option<int>): PoolLedger {
    var stated := Relimited(ledger, headers);
    if headers.reset.None? || (stated.resetAt.Some? && headers.reset.value <= stated.resetAt.value) then stated
    else if first.Some? && headers.reset.value * 1_000 <= first.value then stated
    else if stated.resetAt.Some? && headers.reset.value <= stated.resetAt.value + WINDOW_SLACK_S then
      stated.(resetAt := headers.reset)
    else if second.Some? && stated.resetAt.Some? && second.value < stated.resetAt.value * 1_000 then stated
    else stated.(resetAt := headers.reset, spent := 0)
  }

  // ----- The whole ledger -----

  datatype Books = Books(
    core: PoolLedger,
    graphql: PoolLedger,
    mutationCap: Option<int>,
    mutationsSpent: nat,
    total: Spent)

  function LedgerOf(books: Books, pool: Pool): PoolLedger {
    if pool.Core? then books.core else books.graphql
  }

  function With(books: Books, pool: Pool, ledger: PoolLedger): Books {
    if pool.Core? then books.(core := ledger) else books.(graphql := ledger)
  }

  function RolledBooks(books: Books, now: Option<int>): Books {
    books.(core := Rolled(books.core, now), graphql := Rolled(books.graphql, now))
  }

  function Charged(books: Books, exchange: Exchange): Books {
    var cost := CostOf(exchange);
    books.(
      core := books.core.(spent := books.core.spent + cost.core),
      graphql := books.graphql.(spent := books.graphql.spent + cost.graphql),
      mutationsSpent := books.mutationsSpent + cost.mutations,
      total := Spent(books.total.core + cost.core, books.total.graphql + cost.graphql, books.total.mutations + cost.mutations))
  }

  predicate MutationsSpentOut(books: Books) {
    books.mutationCap.Some? && books.mutationsSpent >= books.mutationCap.value
  }

  function Refusing(books: Books, share: real, pool: Pool, mutation: bool): Option<Lane> {
    if LedgerOf(books, pool).spent >= CapOf(share, LedgerOf(books, pool)) then Some(LaneOf(pool))
    else if mutation && MutationsSpentOut(books) then Some(Mutations)
    else None
  }

  class Ledger {
    const share: real
    var core: PoolLedger
    var graphql: PoolLedger
    var mutationCap: Option<int>
    var mutationsSpent: nat
    var total: Spent
    var turnedAway: nat
    var refusedLane: Option<Lane>

    function View(): Books reads this {
      Books(core, graphql, mutationCap, mutationsSpent, total)
    }

    constructor (share: real, mutations: Option<int>)
      ensures this.share == share && View() == Books(FRESH, FRESH, mutations, 0, NOTHING)
      ensures turnedAway == 0 && refusedLane == None
    {
      this.share := share;
      core, graphql := FRESH, FRESH;
      mutationCap, mutationsSpent, total := mutations, 0, NOTHING;
      turnedAway, refusedLane := 0, None;
    }

    method RollIfDue(now: Option<int>)
      modifies this
      ensures View() == RolledBooks(old(View()), now)
      ensures turnedAway == old(turnedAway) && refusedLane == old(refusedLane)
    {
      core, graphql := Rolled(core, now), Rolled(graphql, now);
    }

    method SpentNow(now: Option<int>) returns (spent: Spent)
      modifies this
      ensures View() == RolledBooks(old(View()), now)
      ensures turnedAway == old(turnedAway) && refusedLane == old(refusedLane)
      ensures spent == Spent(View().core.spent, View().graphql.spent, View().mutationsSpent)
    {
      RollIfDue(now);
      spent := Spent(core.spent, graphql.spent, mutationsSpent);
    }

    method Exhausted(now: Option<int>) returns (lane: Option<Lane>)
      modifies this
      ensures View() == RolledBooks(old(View()), now)
      ensures turnedAway == old(turnedAway) && refusedLane == old(refusedLane)
      ensures lane.None? <==> forall pool, mutation :: Refusing(View(), share, pool, mutation).None?
    {
      RollIfDue(now);
      if core.spent >= CapOf(share, core) {
        assert Refusing(View(), share, Core, false).Some?;
        return Some(Rest);
      }
      if graphql.spent >= CapOf(share, graphql) {
        assert Refusing(View(), share, Graphql, false).Some?;
        return Some(Points);
      }
      if mutationCap.Some? && mutationsSpent >= mutationCap.value {
        assert Refusing(View(), share, Core, true).Some?;
        return Some(Mutations);
      }
      return None;
    }

    /** Nothing refuses a request exactly when its pool is below its share and, for a mutation, the mutation lane is too. */
    method Refuses(pool: Pool, mutation: bool, now: Option<int>) returns (lane: Option<Lane>)
      modifies this
      ensures View() == RolledBooks(old(View()), now)
      ensures turnedAway == old(turnedAway) && refusedLane == old(refusedLane)
      ensures lane == Refusing(View(), share, pool, mutation)
      ensures lane == Some(Rest) ==> pool.Core?
      ensures lane == Some(Points) ==> pool.Graphql?
      ensures lane == Some(Mutations) ==> mutation && MutationsSpentOut(View())
      ensures var ledger := LedgerOf(View(), pool);
              && (lane.None? <==> ledger.spent < CapOf(share, ledger) && (mutation ==> !MutationsSpentOut(View())))
              && (lane == Some(LaneOf(pool)) <==> ledger.spent >= CapOf(share, ledger))
    {
      RollIfDue(now);
      var ledger := if pool.Core? then core else graphql;
      if ledger.spent >= CapOf(share, ledger) {
        return Some(LaneOf(pool));
      }
      return if mutation && mutationCap.Some? && mutationsSpent >= mutationCap.value then Some(Mutations) else None;
    }

    method Refused(lane: Lane)
      modifies this
      ensures View() == old(View()) && turnedAway == old(turnedAway) + 1 && refusedLane == Some(lane)
    {
      turnedAway, refusedLane := turnedAway + 1, Some(lane);
    }

    method Charge(exchange: Exchange)
      modifies this
      ensures View() == Charged(old(View()), exchange)
      ensures turnedAway == old(turnedAway) && refusedLane == old(refusedLane)
    {
      var cost := CostOf(exchange);
      core := core.(spent := core.spent + cost.core);
      graphql := graphql.(spent := graphql.spent + cost.graphql);
      mutationsSpent := mutationsSpent + cost.mutations;
      total := Spent(total.core + cost.core, total.graphql + cost.graphql, total.mutations + cost.mutations);
    }

    /** The answering pool alone changes: its spend only by a new window, its end only by a new window or a drift. */
    method Observe(pool: Pool, headers: Headers, first: Option<int>, second: Option<int>)
      modifies this
      ensures View() == With(old(View()), pool, Observed(LedgerOf(old(View()), pool), headers, first, second))
      ensures var before, after := LedgerOf(old(View()), pool), LedgerOf(View(), pool);
              && after.spent == (if Opens(before, headers, first, second) then 0 else before.spent)
              && after.resetAt == (if Opens(before, headers, first, second) || Drifts(before, headers, first)
                                   then headers.reset else before.resetAt)
              && after.limit == (if headers.limit.Some? && headers.limit.value > 0 then headers.limit.value else before.limit)
      ensures forall other :: other != pool ==> LedgerOf(View(), other) == LedgerOf(old(View()), other)
      ensures turnedAway == old(turnedAway) && refusedLane == old(refusedLane)
    {
      ghost var before := LedgerOf(View(), pool);
      ObservingResetsIff(before, headers, first, second);
      var ledger := if pool.Core? then core else graphql;
      if headers.limit.Some? && headers.limit.value > 0 {
        ledger := ledger.(limit := headers.limit.value);
      }
      var reset := headers.reset;
      if reset.Some? && (ledger.resetAt.None? || reset.value > ledger.resetAt.value)
         && !(first.Some? && reset.value * 1_000 <= first.value) {
        if ledger.resetAt.Some? && reset.value <= ledger.resetAt.value + WINDOW_SLACK_S {
          ledger := ledger.(resetAt := reset);
        } else if !(second.Some? && ledger.resetAt.Some? && second.value < ledger.resetAt.value * 1_000) {
          ledger := ledger.(resetAt := reset, spent := 0);
        }
      }
      if pool.Core? {
        core := ledger;
      } else {
        graphql := ledger;
      }
    }

    method ArmMutations(calls: int)
      modifies this
      ensures View() == old(View()).(mutationCap := Some(calls), mutationsSpent := 0)
      ensures turnedAway == old(turnedAway) && refusedLane == old(refusedLane)
    {
      mutationCap, mutationsSpent := Some(calls), 0;
    }
  }

  // ----- One exchange -----

  /**
   * What costs nothing: an exchange without a status, a REST read answered 304, and a GraphQL answer that reports a
   * cost of none. A GraphQL or mutating exchange answered 304 is charged all the same.
   */
  lemma CostsNothingIff(exchange: Exchange)
    ensures CostOf(exchange) == NOTHING <==>
              || exchange.status.None?
              || (!exchange.mutation && exchange.pool.Core? && exchange.status == Some(304))
              || (!exchange.mutation && exchange.pool.Graphql? && exchange.points == Some(0))
  {
  }

  lemma UnchangedGraphqlIsCharged()
    ensures CostOf(Exchange(Graphql, false, Some(304), None)) != NOTHING
    ensures CostOf(Exchange(Core, true, Some(304), None)) != NOTHING
  {
  }

  /** An exchange that was answered costs one unit of one pool, unless GraphQL reports its own cost; a mutation is of REST. */
  lemma WhatAnAnswerCosts(exchange: Exchange)
    requires exchange.status.Some?
    ensures CostOf(exchange).mutations == if exchange.mutation then 1 else 0
    ensures exchange.mutation ==> CostTo(exchange, Core) == 1 && CostTo(exchange, Graphql) == 0
    ensures !exchange.mutation ==> forall other :: other != exchange.pool ==> CostTo(exchange, other) == 0
    ensures !exchange.mutation && exchange.pool.Graphql? && exchange.points.Some? ==>
              CostTo(exchange, Graphql) == exchange.points.value
    ensures !exchange.mutation && exchange.pool.Graphql? && exchange.points.None? ==> CostTo(exchange, Graphql) == 1
    ensures !exchange.mutation && exchange.pool.Core? ==>
              CostTo(exchange, Core) == if exchange.status == Some(304) then 0 else 1
  {
  }

  /** The cap is the share of the limit, less the part of a unit it is cut by. */
  lemma ACapIsItsShare(share: real, ledger: PoolLedger)
    ensures CapOf(share, ledger) as real <= share * ledger.limit as real < CapOf(share, ledger) as real + 1.0
    ensures 0.0 <= share <= 1.0 ==> 0 <= CapOf(share, ledger) <= ledger.limit
  {
    if 0.0 <= share <= 1.0 {
      ShareOf(share, ledger.limit as real);
    }
  }

  lemma ShareOf(share: real, limit: real)
    requires 0.0 <= share <= 1.0 && limit >= 0.0
    ensures 0.0 <= share * limit <= limit
  {
    assert (1.0 - share) * limit >= 0.0;
  }

  // ----- One window -----

  /** A pool rolls at its named end and not before, and then knows of no end, and its limit stands. */
  lemma APoolRollsAtItsEnd(ledger: PoolLedger, end: nat, now: int)
    requires ledger.resetAt == Some(end)
    ensures now >= end * 1_000 ==> Rolled(ledger, Some(now)) == PoolLedger(ledger.limit, None, 0)
    ensures now < end * 1_000 ==> Rolled(ledger, Some(now)) == ledger
    ensures Rolled(ledger, None) == ledger
  {
  }

  /** A response changes the spend exactly when it opens a new window, and then starts it from nothing. */
  lemma ObservingResetsIff(ledger: PoolLedger, headers: Headers, first: Option<int>, second: Option<int>)
    ensures var after := Observed(ledger, headers, first, second);
            && after.spent == (if Opens(ledger, headers, first, second) then 0 else ledger.spent)
            && after.resetAt == (if Opens(ledger, headers, first, second) || Drifts(ledger, headers, first)
                                 then headers.reset else ledger.resetAt)
            && (ledger.resetAt.Some? ==> after.resetAt.Some? && after.resetAt.value >= ledger.resetAt.value)
  {
  }

  /**
   * With a clock, no response lowers the spend while the window's named end is still ahead. Without one it may,
   * and does exactly when the end it names lies past the slack.
   */
  lemma NoResponseLowersALiveWindow(ledger: PoolLedger, headers: Headers, first: Option<int>, second: Option<int>)
    requires ledger.resetAt.Some?
    ensures second.Some? && second.value < ledger.resetAt.value * 1_000 ==>
              Observed(ledger, headers, first, second).spent == ledger.spent
    ensures first.None? && second.None? && ledger.spent > 0 ==>
              (Observed(ledger, headers, first, second).spent < ledger.spent
               <==> headers.reset.Some? && headers.reset.value > ledger.resetAt.value + WINDOW_SLACK_S)
  {
  }

  /**
   * A one-unit exchange that was not refused, answered by its own pool whatever that answer says of its limits,
   * leaves the spend within the cap it was admitted under, and the mutation lane within its own.
   */
  lemma AdmittedStaysWithinTheCap(books: Books, share: real, now: Option<int>, exchange: Exchange, headers: Headers,
                                  first: Option<int>, second: Option<int>)
    requires Refusing(RolledBooks(books, now), share, exchange.pool, exchange.mutation).None?
    requires CostTo(exchange, exchange.pool) <= 1
    ensures var admitted := RolledBooks(books, now);
            var pool := exchange.pool;
            var after := Charged(With(admitted, pool, Observed(LedgerOf(admitted, pool), headers, first, second)), exchange);
            && LedgerOf(after, pool).spent <= CapOf(share, LedgerOf(admitted, pool))
            && (exchange.mutation && admitted.mutationCap.Some? ==> after.mutationsSpent <= admitted.mutationCap.value)
  {
    var admitted := RolledBooks(books, now);
    ObservingResetsIff(LedgerOf(admitted, exchange.pool), headers, first, second);
  }

  // ----- Runs -----

  datatype Op =
    | Reading(now: Option<int>)
    | Charging(exchange: Exchange)
    | Observing(pool: Pool, headers: Headers, first: Option<int>, second: Option<int>)
    | Arming(calls: int)

  function After(books: Books, op: Op): Books {
    match op
    case Reading(now) => RolledBooks(books, now)
    case Charging(exchange) => Charged(books, exchange)
    case Observing(pool, headers, first, second) =>
      With(books, pool, Observed(LedgerOf(books, pool), headers, first, second))
    case Arming(calls) => books.(mutationCap := Some(calls), mutationsSpent := 0)
  }

  /** Does this operation begin a new window for the pool? */
  predicate Begins(books: Books, op: Op, pool: Pool) {
    match op
    case Reading(now) =>
      var end := LedgerOf(books, pool).resetAt;
      now.Some? && end.Some? && now.value >= end.value * 1_000
    case Observing(named, headers, first, second) => named == pool && Opens(LedgerOf(books, pool), headers, first, second)
    case _ => false
  }

  function Start(mutations: Option<int>): Books {
    Books(FRESH, FRESH, mutations, 0, NOTHING)
  }

  function Reach(mutations: Option<int>, ops: seq<Op>): Books {
    if ops == [] then Start(mutations) else After(Reach(mutations, ops[..|ops| - 1]), ops[|ops| - 1])
  }

  /** The costs charged to a pool from operation `from` on. */
  function ChargedFrom(ops: seq<Op>, pool: Pool, from: nat): nat
    requires from <= |ops|
  {
    if from == |ops| then 0
    else
      var last := ops[|ops| - 1];
      ChargedFrom(ops[..|ops| - 1], pool, from) + if last.Charging? then CostTo(last.exchange, pool) else 0
  }

  /** Where the pool's current window began: just after the last operation that began one, or at the start. */
  function WindowStart(mutations: Option<int>, ops: seq<Op>, pool: Pool): (from: nat)
    ensures from <= |ops|
  {
    if ops == [] then 0
    else if Begins(Reach(mutations, ops[..|ops| - 1]), ops[|ops| - 1], pool) then |ops|
    else WindowStart(mutations, ops[..|ops| - 1], pool)
  }

  /** The window start is what it says: the operation before it began a window, and none after it did. */
  lemma {:induction false} WindowStartIsTheLatest(mutations: Option<int>, ops: seq<Op>, pool: Pool, i: nat)
    requires i < |ops|
    ensures var from := WindowStart(mutations, ops, pool);
            && (from <= i ==> !Begins(Reach(mutations, ops[..i]), ops[i], pool))
            && (from == i + 1 ==> Begins(Reach(mutations, ops[..i]), ops[i], pool))
  {
    var shorter := ops[..|ops| - 1];
    if i < |shorter| {
      assert ops[..i] == shorter[..i];
      WindowStartIsTheLatest(mutations, shorter, pool, i);
    }
  }

  /** One operation leaves a pool's spend at what it was and what it charged, or at nothing when a window begins. */
  lemma StepSpend(books: Books, op: Op, pool: Pool)
    ensures var charged := if op.Charging? then CostTo(op.exchange, pool) else 0;
            LedgerOf(After(books, op), pool).spent
              == if Begins(books, op, pool) then 0 else LedgerOf(books, pool).spent + charged
  {
    if op.Observing? {
      ObservingResetsIff(LedgerOf(books, op.pool), op.headers, op.first, op.second);
    }
  }

  /** Conservation. After any run, each pool's spend is exactly the costs charged to it since its window began. */
  lemma {:induction false} SpendIsWhatWasChargedSinceTheReset(mutations: Option<int>, ops: seq<Op>, pool: Pool)
    ensures LedgerOf(Reach(mutations, ops), pool).spent
              == ChargedFrom(ops, pool, WindowStart(mutations, ops, pool))
  {
    if ops != [] {
      var shorter := ops[..|ops| - 1];
      SpendIsWhatWasChargedSinceTheReset(mutations, shorter, pool);
      StepSpend(Reach(mutations, shorter), ops[|ops| - 1], pool);
    }
  }

  function TotalOf(books: Books, pool: Pool): nat {
    if pool.Core? then books.total.core else books.total.graphql
  }

  /** The grand total is everything ever charged to the pool, so no window's spend exceeds it. */
  lemma {:induction false} TotalIsEverythingCharged(mutations: Option<int>, ops: seq<Op>, pool: Pool)
    ensures TotalOf(Reach(mutations, ops), pool) == ChargedFrom(ops, pool, 0)
    ensures LedgerOf(Reach(mutations, ops), pool).spent <= TotalOf(Reach(mutations, ops), pool)
  {
    if ops != [] {
      var shorter := ops[..|ops| - 1];
      TotalIsEverythingCharged(mutations, shorter, pool);
      StepSpend(Reach(mutations, shorter), ops[|ops| - 1], pool);
    }
  }

  /** The mutations answered since the lane was last armed. */
  function MutationsAnswered(ops: seq<Op>): nat {
    if ops == [] then 0
    else
      var last := ops[|ops| - 1];
      if last.Arming? then 0
      else
        MutationsAnswered(ops[..|ops| - 1])
        + if last.Charging? && last.exchange.mutation && last.exchange.status.Some? then 1 else 0
  }

  /** The cap the lane was last armed with. */
  function LastArmed(mutations: Option<int>, ops: seq<Op>): Option<int> {
    if ops == [] then mutations
    else if ops[|ops| - 1].Arming? then Some(ops[|ops| - 1].calls)
    else LastArmed(mutations, ops[..|ops| - 1])
  }

  /** The mutation lane's own conservation: its spend is the mutations answered since it was armed, whatever the windows do. */
  lemma {:induction false} MutationsAreCounted(mutations: Option<int>, ops: seq<Op>)
    ensures Reach(mutations, ops).mutationsSpent == MutationsAnswered(ops)
    ensures Reach(mutations, ops).mutationCap == LastArmed(mutations, ops)
  {
    if ops != [] {
      MutationsAreCounted(mutations, ops[..|ops| - 1]);
    }
  }

  /** A named end only moves forward, and is forgotten only by a clock that has passed it. */
  lemma NamedEndsOnlyMoveForward(books: Books, op: Op, pool: Pool)
    requires LedgerOf(books, pool).resetAt.Some?
    ensures var before, after := LedgerOf(books, pool).resetAt, LedgerOf(After(books, op), pool).resetAt;
            if after.Some? then after.value >= before.value
            else op.Reading? && op.now.Some? && op.now.value >= before.value * 1_000
  {
    if op.Observing? {
      ObservingResetsIff(LedgerOf(books, op.pool), op.headers, op.first, op.second);
    }
  }
}
