/**
 * How a rejected configuration is reported: errors in document order, the ones that only follow from another folded
 * under it, and the whole cut to what a comment may hold.
 */
module RejectionFolding {
  import opened Wrappers

  const MAX_COMMENT_CHARS := 12_000
  const MAX_REPORTED_ERRORS := 100

  /** One error, with the dotted path and the line the parser could give it. */
  datatype ConfigError = ConfigError(path: Option<string>, line: Option<int>, message: string)

  // ----- Inheritance -----

  /** Where the last segment begins: after the last dot, or at the front. */
  function SegmentStart(path: string): (start: nat)
    ensures start <= |path|
    ensures start > 0 ==> path[start - 1] == '.'
    ensures forall i :: start <= i < |path| ==> path[i] != '.'
  {
    if path == "" then 0
    else if path[|path| - 1] == '.' then |path|
    else SegmentStart(path[..|path| - 1])
  }

  function LastSegment(path: string): string {
    path[SegmentStart(path)..]
  }

  /** The path up to and including its last dot. */
  function Enclosing(path: string): string {
    path[..SegmentStart(path)]
  }

  predicate ProperPrefix(short: string, long: string) {
    |short| < |long| && long[..|short|] == short
  }

  /** Same last segment, different path, and the one level strictly within the other. */
  predicate Inherits(inner: ConfigError, outer: ConfigError) {
    && inner.path.Some? && outer.path.Some? && inner.path != outer.path
    && LastSegment(inner.path.value) == LastSegment(outer.path.value)
    && ProperPrefix(Enclosing(outer.path.value), Enclosing(inner.path.value))
  }

  lemma ProperPrefixesCompose(a: string, b: string, c: string)
    requires ProperPrefix(a, b) && ProperPrefix(b, c)
    ensures ProperPrefix(a, c)
  {
    assert c[..|a|] == c[..|b|][..|a|];
  }

  lemma PathIsItsParts(path: string)
    ensures path == Enclosing(path) + LastSegment(path)
  {
  }

  /** Inheritance is a strict partial order. */
  lemma InheritsIsAStrictOrder(a: ConfigError, b: ConfigError, c: ConfigError)
    ensures !Inherits(a, a)
    ensures Inherits(a, b) ==> !Inherits(b, a)
    ensures Inherits(a, b) && Inherits(b, c) ==> Inherits(a, c)
  {
    if Inherits(a, b) && Inherits(b, c) {
      ProperPrefixesCompose(Enclosing(c.path.value), Enclosing(b.path.value), Enclosing(a.path.value));
    }
  }

  /** What encloses one error is linearly ordered: of two, one inherits the other unless they are at one path. */
  lemma EnclosersAreComparable(error: ConfigError, a: ConfigError, b: ConfigError)
    requires Inherits(error, a) && Inherits(error, b)
    ensures a.path == b.path || Inherits(a, b) || Inherits(b, a)
  {
    var p, q, e := Enclosing(a.path.value), Enclosing(b.path.value), Enclosing(error.path.value);
    PathIsItsParts(a.path.value);
    PathIsItsParts(b.path.value);
    if |p| < |q| {
      assert q[..|p|] == e[..|q|][..|p|] == p;
    } else if |q| < |p| {
      assert p[..|q|] == e[..|p|][..|q|] == q;
    } else {
      assert p == q;
    }
  }

  // ----- Document order -----

  function Rank(error: ConfigError): nat {
    if error.path.None? then 0 else if error.line.None? then 2 else 1
  }

  function LineOf(error: ConfigError): int {
    if error.line.None? then 0 else error.line.value
  }

  predicate Before(a: ConfigError, b: ConfigError) {
    Rank(a) < Rank(b) || (Rank(a) == Rank(b) && LineOf(a) < LineOf(b))
  }

  function InsertInOrder(error: ConfigError, sorted: seq<ConfigError>): seq<ConfigError> {
    if sorted == [] || !Before(sorted[0], error) then [error] + sorted
    else [sorted[0]] + InsertInOrder(error, sorted[1..])
  }

  /** Sorted by rank and then by line, equal errors keeping the order they came in. */
  function DocumentOrder(errors: seq<ConfigError>): seq<ConfigError> {
    if errors == [] then [] else InsertInOrder(errors[0], DocumentOrder(errors[1..]))
  }

  /** Errors of the whole document come first, then those that have a line, by line, and then those that have none. */
  lemma WhatComesBefore(a: ConfigError, b: ConfigError)
    ensures a.path.None? && b.path.Some? ==> Before(a, b)
    ensures a.path.Some? && b.path.None? ==> !Before(a, b)
    ensures a.path.Some? && b.path.Some? && a.line.Some? && b.line.None? ==> Before(a, b)
    ensures a.path.Some? && b.path.Some? && a.line.None? ==> !Before(a, b)
    ensures a.path.Some? && b.path.Some? && a.line.Some? && b.line.Some? ==> (Before(a, b) <==> a.line.value < b.line.value)
    ensures a.path.None? && b.path.None? ==> (Before(a, b) <==> LineOf(a) < LineOf(b))
  {
  }

  predicate InOrder(errors: seq<ConfigError>) {
    forall i, j :: 0 <= i < j < |errors| ==> !Before(errors[j], errors[i])
  }

  lemma {:induction false} InsertHolds(error: ConfigError, sorted: seq<ConfigError>)
    ensures multiset(InsertInOrder(error, sorted)) == multiset(sorted) + multiset{error}
  {
    if sorted != [] && Before(sorted[0], error) {
      InsertHolds(error, sorted[1..]);
      assert sorted == [sorted[0]] + sorted[1..];
    }
  }

  lemma {:induction false} InsertKeepsOrder(error: ConfigError, sorted: seq<ConfigError>)
    requires InOrder(sorted)
    ensures InOrder(InsertInOrder(error, sorted))
  {
    if sorted != [] && Before(sorted[0], error) {
      InsertKeepsOrder(error, sorted[1..]);
      var rest := InsertInOrder(error, sorted[1..]);
      forall e | e in rest ensures !Before(e, sorted[0]) {
        InsertHolds(error, sorted[1..]);
        assert e in multiset(rest);
        assert e == error || e in sorted[1..];
      }
    }
  }

  lemma {:induction false} DocumentOrderHolds(errors: seq<ConfigError>)
    ensures multiset(DocumentOrder(errors)) == multiset(errors)
  {
    if errors != [] {
      DocumentOrderHolds(errors[1..]);
      InsertHolds(errors[0], DocumentOrder(errors[1..]));
      assert errors == [errors[0]] + errors[1..];
    }
  }

  /** Ordering loses nothing, and puts nothing before what belongs ahead of it. */
  lemma {:induction false} DocumentOrderSorts(errors: seq<ConfigError>)
    ensures InOrder(DocumentOrder(errors))
    ensures multiset(DocumentOrder(errors)) == multiset(errors)
    ensures |DocumentOrder(errors)| == |errors|
  {
    DocumentOrderHolds(errors);
    assert |multiset(DocumentOrder(errors))| == |DocumentOrder(errors)| && |multiset(errors)| == |errors|;
    if errors != [] {
      DocumentOrderSorts(errors[1..]);
      InsertKeepsOrder(errors[0], DocumentOrder(errors[1..]));
    }
  }

  // ----- Folding -----

  /** An error that follows from no other. */
  predicate IsCause(errors: seq<ConfigError>, i: nat)
    requires i < |errors|
  {
    forall j :: 0 <= j < |errors| ==> !Inherits(errors[i], errors[j])
  }

  predicate Encloses(errors: seq<ConfigError>, c: nat, i: nat)
    requires i < |errors|
  {
    c < |errors| && IsCause(errors, c) && Inherits(errors[i], errors[c])
  }

  /** The first cause from `from` on that encloses error `i`. */
  function CauseFrom(errors: seq<ConfigError>, i: nat, from: nat): (cause: Option<nat>)
    requires i < |errors| && from <= |errors|
    ensures cause.Some? ==> from <= cause.value < |errors|
    decreases |errors| - from
  {
    if from == |errors| then None
    else if Encloses(errors, from, i) then Some(from)
    else CauseFrom(errors, i, from + 1)
  }

  lemma {:induction false} CauseIsTheFirst(errors: seq<ConfigError>, i: nat, from: nat)
    requires i < |errors| && from <= |errors|
    ensures var cause := CauseFrom(errors, i, from);
            && (cause.Some? ==> Encloses(errors, cause.value, i))
            && forall c :: from <= c < (if cause.Some? then cause.value else |errors|) ==> !Encloses(errors, c, i)
    decreases |errors| - from
  {
    if from < |errors| && !Encloses(errors, from, i) {
      CauseIsTheFirst(errors, i, from + 1);
    }
  }

  function CauseOf(errors: seq<ConfigError>, i: nat): Option<nat>
    requires i < |errors|
  {
    CauseFrom(errors, i, 0)
  }

  /** How many of the first `n` errors follow from cause `c`. */
  function Followers(errors: seq<ConfigError>, c: nat, n: nat): nat
    requires n <= |errors|
  {
    if n == 0 then 0 else Followers(errors, c, n - 1) + if CauseOf(errors, n - 1) == Some(c) then 1 else 0
  }

  datatype Line = Omitted(count: nat) | ErrorLine(error: ConfigError) | InheritedBy(count: nat)

  /** A cause's line, and how many places inherit it. */
  function LinesOf(errors: seq<ConfigError>, c: nat): seq<Line>
    requires c < |errors|
  {
    if !IsCause(errors, c) then []
    else
      var followers := Followers(errors, c, |errors|);
      if followers == 0 then [ErrorLine(errors[c])] else [ErrorLine(errors[c]), InheritedBy(followers)]
  }

  function LinesUpTo(errors: seq<ConfigError>, n: nat): seq<Line>
    requires n <= |errors|
  {
    if n == 0 then [] else LinesUpTo(errors, n - 1) + LinesOf(errors, n - 1)
  }

  function Rejection(errors: seq<ConfigError>): seq<Line> {
    var reported := if |errors| > MAX_REPORTED_ERRORS then errors[..MAX_REPORTED_ERRORS] else errors;
    var ordered := DocumentOrder(reported);
    DocumentOrderSorts(reported);
    var lines := LinesUpTo(ordered, |ordered|);
    if |errors| == |reported| then lines else [Omitted(|errors| - |reported|)] + lines
  }

  /** What a report accounts for: the errors it lists, counts as inherited, and says it left out. */
  function Accounted(lines: seq<Line>): nat {
    if lines == [] then 0
    else
      var last := lines[|lines| - 1];
      Accounted(lines[..|lines| - 1]) + match last
                                        case ErrorLine(_) => 1
                                        case Omitted(count) => count
                                        case InheritedBy(count) => count
  }

  lemma {:induction false} AccountedAppend(a: seq<Line>, b: seq<Line>)
    ensures Accounted(a + b) == Accounted(a) + Accounted(b)
  {
    if b == [] {
      assert a + b == a;
    } else {
      assert (a + b)[..|a + b| - 1] == a + b[..|b| - 1];
      AccountedAppend(a, b[..|b| - 1]);
    }
  }

  // ----- Every follower has one cause -----

  function Depth(error: ConfigError): nat {
    if error.path.None? then 0 else |Enclosing(error.path.value)|
  }

  /** Whatever follows from some error follows from a cause: the outermost of what encloses it. */
  lemma {:induction false} FollowersHaveACause(errors: seq<ConfigError>, i: nat, j: nat)
    requires i < |errors| && j < |errors| && Inherits(errors[i], errors[j])
    ensures CauseOf(errors, i).Some?
    decreases Depth(errors[j])
  {
    CauseIsTheFirst(errors, i, 0);
    if IsCause(errors, j) {
      assert Encloses(errors, j, i);
    } else {
      var k: nat :| k < |errors| && Inherits(errors[j], errors[k]);
      InheritsIsAStrictOrder(errors[i], errors[j], errors[k]);
      FollowersHaveACause(errors, i, k);
    }
  }

  /** Each error is listed or follows exactly one listed cause, never both and never neither. */
  lemma EachIsACauseOrFollowsOne(errors: seq<ConfigError>, i: nat)
    requires i < |errors|
    ensures IsCause(errors, i) <==> CauseOf(errors, i).None?
    ensures CauseOf(errors, i).Some? ==> IsCause(errors, CauseOf(errors, i).value)
  {
    CauseIsTheFirst(errors, i, 0);
    if !IsCause(errors, i) {
      var j: nat :| j < |errors| && Inherits(errors[i], errors[j]);
      FollowersHaveACause(errors, i, j);
    }
  }

  /** The causes that enclose one error are all at one path. */
  lemma CausesOfOneErrorShareAPath(errors: seq<ConfigError>, i: nat, c: nat, d: nat)
    requires i < |errors| && Encloses(errors, c, i) && Encloses(errors, d, i)
    ensures errors[c].path == errors[d].path
  {
    EnclosersAreComparable(errors[i], errors[c], errors[d]);
  }

  /** No two causes enclose this error. */
  ghost predicate AtMostOneEncloses(errors: seq<ConfigError>, i: nat)
    requires i < |errors|
  {
    forall c: nat, d: nat :: Encloses(errors, c, i) && Encloses(errors, d, i) ==> c == d
  }

  /** Nothing else reported is at the path of the cause this error follows, if it follows one. */
  predicate ItsCauseIsAloneAtItsPath(errors: seq<ConfigError>, i: nat)
    requires i < |errors|
  {
    var cause := CauseOf(errors, i);
    cause.Some? ==> forall d :: 0 <= d < |errors| && errors[d].path == errors[cause.value].path ==> d == cause.value
  }

  lemma SamePathSameStanding(errors: seq<ConfigError>, c: nat, d: nat, i: nat)
    requires i < |errors| && d < |errors| && Encloses(errors, c, i) && errors[d].path == errors[c].path
    ensures Encloses(errors, d, i)
  {
    forall j | 0 <= j < |errors| ensures !Inherits(errors[d], errors[j]) {
      assert !Inherits(errors[c], errors[j]);
    }
  }

  /** At most one cause encloses an error if and only if no other error was reported at that cause's path. */
  lemma AtMostOneCauseIff(errors: seq<ConfigError>, i: nat)
    requires i < |errors|
    ensures AtMostOneEncloses(errors, i) <==> ItsCauseIsAloneAtItsPath(errors, i)
  {
    CauseIsTheFirst(errors, i, 0);
    var cause := CauseOf(errors, i);
    if cause.Some? {
      forall d: nat | d < |errors| && errors[d].path == errors[cause.value].path ensures Encloses(errors, d, i) {
        SamePathSameStanding(errors, cause.value, d, i);
      }
      forall d: nat | Encloses(errors, d, i) ensures errors[d].path == errors[cause.value].path {
        CausesOfOneErrorShareAPath(errors, i, cause.value, d);
      }
    }
  }

  const PULLS := "capabilities.inactivity.pullRequests."

  /**
   * A malformed clock; a key spelled with a dot, which no spec names, at the same path; and a clock two
   * levels further in, which would have inherited the first.
   */
  const TWICE := [
    ConfigError(Some(PULLS + "remindAfter"), Some(4), "must be a duration"),
    ConfigError(Some(PULLS + "remindAfter"), Some(9), "is not a setting"),
    ConfigError(Some(PULLS + "reapWhen.draft.remindAfter"), Some(7), "must be set to a duration")]

  /** So two causes can enclose one error, and the first listed takes it. */
  lemma TwoCausesMayEncloseOne()
    ensures Encloses(TWICE, 0, 2) && Encloses(TWICE, 1, 2) && CauseOf(TWICE, 2) == Some(0)
  {
    var outer, inner := PULLS + "remindAfter", PULLS + "reapWhen.draft.remindAfter";
    var within := PULLS + "reapWhen.draft.";
    assert outer[|PULLS|..] == "remindAfter" && outer[..|PULLS|] == PULLS;
    assert inner == within + "remindAfter" && inner[|within|..] == "remindAfter" && inner[..|within|] == within;
    assert within[..|PULLS|] == PULLS;
    SegmentStartIs(outer, |PULLS|);
    SegmentStartIs(inner, |within|);
    assert IsCause(TWICE, 0) && IsCause(TWICE, 1);
    CauseIsTheFirst(TWICE, 2, 0);
  }

  lemma SegmentStartIs(path: string, start: nat)
    requires start <= |path| && (start > 0 ==> path[start - 1] == '.')
    requires forall i :: start <= i < |path| ==> path[i] != '.'
    ensures SegmentStart(path) == start
  {
  }

  // ----- Nothing is lost -----

  function CausesUpTo(errors: seq<ConfigError>, n: nat): nat
    requires n <= |errors|
  {
    if n == 0 then 0 else CausesUpTo(errors, n - 1) + if IsCause(errors, n - 1) then 1 else 0
  }

  /** The followers, among the first `n` errors, of the first `m`. */
  function FollowersOfUpTo(errors: seq<ConfigError>, m: nat, n: nat): nat
    requires m <= |errors| && n <= |errors|
  {
    if m == 0 then 0 else FollowersOfUpTo(errors, m - 1, n) + Followers(errors, m - 1, n)
  }

  lemma {:induction false} OneMoreFollower(errors: seq<ConfigError>, m: nat, n: nat)
    requires m <= |errors| && n < |errors|
    ensures FollowersOfUpTo(errors, m, n + 1) == FollowersOfUpTo(errors, m, n)
              + if CauseOf(errors, n).Some? && CauseOf(errors, n).value < m then 1 else 0
  {
    if m > 0 {
      OneMoreFollower(errors, m - 1, n);
    }
  }

  lemma {:induction false} NoFollowersYet(errors: seq<ConfigError>, m: nat)
    requires m <= |errors|
    ensures FollowersOfUpTo(errors, m, 0) == 0
  {
    if m > 0 {
      NoFollowersYet(errors, m - 1);
    }
  }

  /** Counted by error or counted by cause, the causes and their followers are all the errors. */
  lemma {:induction false} CausesAndFollowersAreAll(errors: seq<ConfigError>, n: nat)
    requires n <= |errors|
    ensures CausesUpTo(errors, n) + FollowersOfUpTo(errors, |errors|, n) == n
  {
    if n == 0 {
      NoFollowersYet(errors, |errors|);
    } else {
      CausesAndFollowersAreAll(errors, n - 1);
      OneMoreFollower(errors, |errors|, n - 1);
      EachIsACauseOrFollowsOne(errors, n - 1);
    }
  }

  lemma {:induction false} OnlyCausesAreFollowed(errors: seq<ConfigError>, c: nat, n: nat)
    requires c < |errors| && n <= |errors| && !IsCause(errors, c)
    ensures Followers(errors, c, n) == 0
  {
    if n > 0 {
      CauseIsTheFirst(errors, n - 1, 0);
      OnlyCausesAreFollowed(errors, c, n - 1);
    }
  }

  lemma OneLineAccountsFor(line: Line)
    ensures Accounted([line]) == match line
                                 case ErrorLine(_) => 1
                                 case Omitted(count) => count
                                 case InheritedBy(count) => count
  {
    assert [line][..0] == [];
  }

  lemma LinesOfAccountFor(errors: seq<ConfigError>, c: nat)
    requires c < |errors|
    ensures Accounted(LinesOf(errors, c)) == AccountedAt(errors, c)
  {
    if IsCause(errors, c) {
      var followers := Followers(errors, c, |errors|);
      OneLineAccountsFor(ErrorLine(errors[c]));
      OneLineAccountsFor(InheritedBy(followers));
      AccountedAppend([ErrorLine(errors[c])], [InheritedBy(followers)]);
    } else {
      OnlyCausesAreFollowed(errors, c, |errors|);
    }
  }

  function AccountedUpTo(errors: seq<ConfigError>, n: nat): nat
    requires n <= |errors|
  {
    if n == 0 then 0 else AccountedUpTo(errors, n - 1) + AccountedAt(errors, n - 1)
  }

  lemma {:induction false} LinesAccountFor(errors: seq<ConfigError>, n: nat)
    requires n <= |errors|
    ensures Accounted(LinesUpTo(errors, n)) == AccountedUpTo(errors, n)
  {
    if n > 0 {
      LinesAccountFor(errors, n - 1);
      LinesAccountForStep(errors, n);
    }
  }

  lemma {:induction false} AccountedByCauses(errors: seq<ConfigError>, n: nat)
    requires n <= |errors|
    ensures AccountedUpTo(errors, n) == CausesUpTo(errors, n) + FollowersOfUpTo(errors, n, |errors|)
  {
    if n > 0 {
      AccountedByCauses(errors, n - 1);
    }
  }

  lemma AppendAccountsFor(all: seq<Line>, a: seq<Line>, b: seq<Line>, more: nat)
    requires all == a + b && Accounted(b) == more
    ensures Accounted(all) == Accounted(a) + more
  {
    AccountedAppend(a, b);
  }

  lemma LinesAccountForStep(errors: seq<ConfigError>, n: nat)
    requires 0 < n <= |errors|
    ensures Accounted(LinesUpTo(errors, n)) == Accounted(LinesUpTo(errors, n - 1)) + AccountedAt(errors, n - 1)
  {
    LinesOfAccountFor(errors, n - 1);
    AppendAccountsFor(LinesUpTo(errors, n), LinesUpTo(errors, n - 1), LinesOf(errors, n - 1), AccountedAt(errors, n - 1));
  }

  /** One error's share: its followers, and itself where it is a cause. */
  function AccountedAt(errors: seq<ConfigError>, c: nat): nat
    requires c < |errors|
  {
    Followers(errors, c, |errors|) + if IsCause(errors, c) then 1 else 0
  }

  lemma OrderedErrorsAreAccountedFor(errors: seq<ConfigError>)
    ensures Accounted(LinesUpTo(errors, |errors|)) == |errors|
  {
    LinesAccountFor(errors, |errors|);
    AccountedByCauses(errors, |errors|);
    CausesAndFollowersAreAll(errors, |errors|);
  }

  /** Folding conserves errors: what a rejection lists, counts as inherited and leaves out is every error there was. */
  lemma RejectionAccountsForEveryError(errors: seq<ConfigError>)
    ensures Accounted(Rejection(errors)) == |errors|
  {
    var reported := if |errors| > MAX_REPORTED_ERRORS then errors[..MAX_REPORTED_ERRORS] else errors;
    var ordered := DocumentOrder(reported);
    DocumentOrderSorts(reported);
    OrderedErrorsAreAccountedFor(ordered);
    if |errors| > |reported| {
      OneLineAccountsFor(Omitted(|errors| - |reported|));
      AccountedAppend([Omitted(|errors| - |reported|)], LinesUpTo(ordered, |ordered|));
    }
  }

  // ----- Fitting a comment -----

  /** A body as the UTF-16 code units its length is counted in. */
  type Unit = u: nat | u < 0x1_0000

  const BACKSLASH: Unit := 0x5C

  predicate IsHigh(u: Unit) {
    0xD800 <= u <= 0xDBFF
  }

  predicate IsLow(u: Unit) {
    0xDC00 <= u <= 0xDFFF
  }

  const SHORTENED := "_Report shortened to fit in a GitHub comment._"
  const FOOTER := "Read on the default branch, this changes nothing until it merges."
  /** Plain text, one unit a character. */
  function Units(text: string): (units: seq<Unit>)
    ensures |units| == |text|
  {
    if text == "" then [] else [if text[0] as int < 0x1_0000 then text[0] as int else 0xFFFD] + Units(text[1..])
  }

  function Ending(): (ending: seq<Unit>)
    ensures |ending| < MAX_COMMENT_CHARS
  {
    Units("\n\n" + SHORTENED + "\n\n" + FOOTER)
  }

  /**
   * The body within the limit: whole when it fits, and otherwise cut before the ending, never between the halves of a
   * surrogate pair nor after a backslash, and dropping nothing that fits but trailing backslashes and one half of a pair.
   */
  method FitComment(body: seq<Unit>) returns (fitted: seq<Unit>, end: nat)
    ensures |fitted| <= MAX_COMMENT_CHARS
    ensures |body| <= MAX_COMMENT_CHARS ==> fitted == body
    ensures |body| > MAX_COMMENT_CHARS ==>
              && end <= |body| && fitted == body[..end] + Ending()
              && (end > 0 ==> body[end - 1] != BACKSLASH)
              && !(end > 0 && 0xD800 <= body[end - 1] <= 0xDBFF && 0xDC00 <= body[end] <= 0xDFFF)
              && var room := MAX_COMMENT_CHARS - |Ending()|;
                end <= room && forall i :: end <= i < room ==> body[i] == BACKSLASH || (i == room - 1 && IsHigh(body[i]))
  {
    end := |body|;
    if |body| <= MAX_COMMENT_CHARS {
      return body, end;
    }
    var room := MAX_COMMENT_CHARS - |Ending()|;
    end := room;
    if IsHigh(body[end - 1]) {
      end := end - 1;
    }
    while end > 0 && body[end - 1] == BACKSLASH
      invariant end <= room
      invariant forall i :: end <= i < room ==> body[i] == BACKSLASH || (i == room - 1 && IsHigh(body[i]))
      invariant end < room ==> body[end] == BACKSLASH || IsHigh(body[end])
      invariant end == room ==> !IsHigh(body[room - 1])
    {
      end := end - 1;
    }
    fitted := body[..end] + Ending();
  }
}
