/** The effect ledger's vocabulary: one appended fact, and where a fold of facts says an effect stands. */
module Facts {
  import opened Wrappers

  /** Four kinds close a call, one sends it, and two are about the effect itself. */
  datatype FactKind = Sent | Unsent | Landed | Refused | Abandoned | Warned | Reversed

  /** The snapshot a `warned` fact stores, its instants in epoch milliseconds. */
  datatype StoredWarning = StoredWarning(
    warnedAt: int,
    gracePeriodHours: real,
    earliestActionAt: int,
    cancelledBy: string,
    reversesWith: string,
    actionClass: string,
    capability: string,
    causeObservedAt: int,
    cause: string,
    item: string,
    change: string)

  /** A payload column, already parsed: a serialized call, a warning snapshot, or neither. */
  datatype Payload = Call(text: string) | Snapshot(warning: StoredWarning) | Unreadable(text: string)

  /** A row: which effect, which call of its plan (0 where it is about none), what happened, when, and with what payload. */
  datatype Fact = Fact(effectId: string, call: int, kind: FactKind, at: int, payload: Option<Payload>)

  datatype How = ByLanding | ByRefusal | ByAbandoning

  /** The five ways a fact can fail to follow from those before it. */
  datatype Fault =
    | AfterSettled(kind: FactKind)
    | OutsidePlan(call: int)
    | SendWhileOpen(call: int, open: int)
    | SendOverGap(call: int, gap: int)
    | ClosesNothing(kind: FactKind, call: int)

  datatype LedgerState =
    | NeverStarted
    | Open(call: int, payload: Option<Payload>, attempts: int)
    | Resumable(nextCall: int)
    | Settled(how: How, call: int)
    | Inconsistent(fault: Fault)

  /** Kinds that the fold passes over. */
  predicate EffectLevel(kind: FactKind) {
    kind.Warned? || kind.Reversed?
  }

  /** Kinds that may only follow a send of their own call. */
  predicate Closing(kind: FactKind) {
    kind.Landed? || kind.Refused? || kind.Abandoned? || kind.Unsent?
  }
}
