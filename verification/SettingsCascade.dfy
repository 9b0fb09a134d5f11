/**
 * Reading a capability's settings: a small interpreter that reads a document's value tree against a spec, level by
 * level, with clocks that inherit from the levels around them.
 */
module SettingsCascade {
  import opened Wrappers
  import opened Hours
  import JsonText
  import Text

  const HOURS_PER_DAY := 24
  const MAX_CLOCK_HOURS := 36_500 * HOURS_PER_DAY

  // ----- A duration's written form -----

  predicate AllDigits(s: string) {
    forall c :: c in s ==> JsonText.IsDigit(c)
  }

  /** A whole number without leading zeros, and `h` or `d`. */
  predicate IsDuration(written: string) {
    && |written| >= 2
    && var digits, unit := written[..|written| - 1], written[|written| - 1];
      && AllDigits(digits) && (digits[0] == '0' ==> digits == "0")
      && (unit == 'h' || unit == 'd')
  }

  /** The hours a duration stands for, if the text is one. */
  function ParseDuration(written: string): Option<nat> {
    if !IsDuration(written) then None
    else
      var value := JsonText.ReadDigits(written[..|written| - 1], 0).value;
      Some(if written[|written| - 1] == 'd' then value * HOURS_PER_DAY else value)
  }

  /** A text for so many hours: in days when they come out even, and in hours when they do not. */
  function WriteDuration(hours: nat): string {
    if hours != 0 && hours % HOURS_PER_DAY == 0 then JsonText.Digits(hours / HOURS_PER_DAY) + "d"
    else JsonText.Digits(hours) + "h"
  }

  lemma WrittenDigits(n: nat, unit: char)
    requires unit == 'h' || unit == 'd'
    ensures ParseDuration(JsonText.Digits(n) + [unit]) == Some(if unit == 'd' then n * HOURS_PER_DAY else n)
  {
    var digits := JsonText.Digits(n);
    var written := digits + [unit];
    assert written[..|written| - 1] == digits;
    JsonText.ReadsDigits(n, "");
    assert digits + "" == digits;
    if n == 0 {
      assert digits == "0";
    }
  }

  /** Every whole number of hours is written so that it reads back as itself. */
  lemma DurationRoundTrips(hours: nat)
    ensures ParseDuration(WriteDuration(hours)) == Some(hours)
  {
    if hours != 0 && hours % HOURS_PER_DAY == 0 {
      WrittenDigits(hours / HOURS_PER_DAY, 'd');
    } else {
      WrittenDigits(hours, 'h');
    }
  }

  /** Nor is anything else read: a text is a duration exactly when it is a number's digits and a unit, in its plain form. */
  lemma OnlyWrittenDurationsAreRead(written: string, hours: nat)
    ensures ParseDuration(written) == Some(hours) <==>
              exists n: nat :: (written == JsonText.Digits(n) + "h" && hours == n)
                               || (written == JsonText.Digits(n) + "d" && hours == n * HOURS_PER_DAY)
  {
    if n: nat :| (written == JsonText.Digits(n) + "h" && hours == n)
                 || (written == JsonText.Digits(n) + "d" && hours == n * HOURS_PER_DAY)
    {
      WrittenDigits(n, if written == JsonText.Digits(n) + "d" && hours == n * HOURS_PER_DAY then 'd' else 'h');
    }
    if ParseDuration(written) == Some(hours) {
      var digits, unit := written[..|written| - 1], written[|written| - 1];
      JsonText.DigitsOfRead(digits);
      assert written == digits + [unit];
    }
  }

  // ----- Documents and specs -----

  /** A document's value; a mapping's keys are distinct, so the first entry of a name is its only one. */
  datatype Raw =
    | Null
    | Flag(value: bool)
    | Number(whole: int)
    | Written(text: string)
    | List(items: seq<Raw>)
    | Mapping(entries: seq<(string, Raw)>)

  function Stated(entries: seq<(string, Raw)>, key: string): (stated: Option<Raw>)
    ensures stated.None? <==> forall e :: e in entries ==> e.0 != key
    ensures stated.Some? ==> (key, stated.value) in entries
  {
    if entries == [] then None
    else if entries[0].0 == key then Some(entries[0].1)
    else Stated(entries[1..], key)
  }

  type Path = seq<string>

  /** A field of a spec; a clock's `above` is the sibling it must exceed and by how much. */
  datatype Field =
    | FlagField(initially: bool)
    | LoginsField
    | Duration(byDefault: Option<nat>, inherits: Option<Path>, above: Option<(Path, nat)>, atLeast: Option<nat>)
    | Section(fields: Spec)
    | Block(fields: Spec)

  datatype Spec = End | Entry(key: string, field: Field, rest: Spec)

  function FieldAt(fields: Spec, key: string): Option<Field> {
    match fields
    case End => None
    case Entry(k, field, rest) => if k == key then Some(field) else FieldAt(rest, key)
  }

  function Names(fields: Spec): set<string> {
    match fields
    case End => {}
    case Entry(key, _, rest) => {key} + Names(rest)
  }

  /** Where a field is read: its level's entries and spec, and the level around it. */
  datatype Scope = Scope(raw: seq<(string, Raw)>, path: string, fields: Spec, outer: Option<Scope>)

  datatype ProblemCode = UnknownKey | SettingInvalid

  datatype Problem = Problem(code: ProblemCode, path: string)

  datatype Value =
    | FlagValue(value: bool)
    | LoginsValue(logins: seq<string>)
    | HoursValue(hours: nat)
    | SectionValue(values: map<string, Value>)
    | Parked
    | BlockValue(values: map<string, Value>)

  datatype Result<T> = Fine(value: T) | Problems(problems: seq<Problem>)

  function Dot(path: string, key: string): string {
    if path == "" then key else path + "." + key
  }

  function Invalid<T>(path: string): Result<T> {
    Problems([Problem(SettingInvalid, path)])
  }

  // ----- Looking a clock up -----

  /** The hours of a raw value that is a duration up to the ceiling. */
  function ClockHours(value: Raw): Option<nat> {
    if !value.Written? then None
    else
      var hours := ParseDuration(value.text);
      if hours.Some? && hours.value <= MAX_CLOCK_HOURS then hours else None
  }

  /** The value found by following a path's names through nested mappings, if all of them are there. */
  function StatedAt(here: Raw, path: Path): Option<Raw>
    decreases |path|
  {
    if path == [] then Some(here)
    else if !here.Mapping? then None
    else
      var next := Stated(here.entries, path[0]);
      if next.None? then None else StatedAt(next.value, path[1..])
  }

  method FindStated(raw: Raw, path: Path) returns (found: Option<Raw>)
    ensures found == StatedAt(raw, path)
  {
    var here := raw;
    for i := 0 to |path|
      invariant StatedAt(raw, path) == StatedAt(here, path[i..])
    {
      if !here.Mapping? {
        return None;
      }
      var next := Stated(here.entries, path[i]);
      if next.None? {
        return None;
      }
      assert path[i..][1..] == path[i + 1..];
      here := next.value;
    }
    return Some(here);
  }

  /** The default of the clock that a path's names lead to in a spec. */
  function DeclaredAt(fields: Spec, path: Path): Option<nat>
    decreases |path|
  {
    if path == [] then None
    else
      var field := FieldAt(fields, path[0]);
      if field.None? then None
      else if |path| == 1 then (if field.value.Duration? then field.value.byDefault else None)
      else if field.value.Section? || field.value.Block? then DeclaredAt(field.value.fields, path[1..])
      else None
  }

  /** The innermost level that states the path, and what it states. */
  function StatedFrom(path: Path, from: Option<Scope>): Option<Raw>
    decreases from
  {
    if from.None? then None
    else
      var here := StatedAt(Mapping(from.value.raw), path);
      if here.Some? then here else StatedFrom(path, from.value.outer)
  }

  function DeclaredFrom(path: Path, from: Option<Scope>): Option<nat>
    decreases from
  {
    if from.None? then None
    else
      var here := DeclaredAt(from.value.fields, path);
      if here.Some? then here else DeclaredFrom(path, from.value.outer)
  }

  /** What a path means at a level: what the innermost stating level states, or else what the innermost declaring one declares. */
  function DurationNamed(path: Path, from: Option<Scope>): Option<nat> {
    var stated := StatedFrom(path, from);
    if stated.Some? then ClockHours(stated.value) else DeclaredFrom(path, from)
  }

  method FindDuration(path: Path, from: Option<Scope>) returns (hours: Option<nat>)
    ensures hours == DurationNamed(path, from)
  {
    var level := from;
    while level.Some?
      invariant StatedFrom(path, from) == StatedFrom(path, level)
      decreases level
    {
      var stated := FindStated(Mapping(level.value.raw), path);
      if stated.Some? {
        return ClockHours(stated.value);
      }
      level := level.value.outer;
    }
    level := from;
    while level.Some?
      invariant DeclaredFrom(path, from) == DeclaredFrom(path, level)
      decreases level
    {
      var declared := DeclaredAt(level.value.fields, path);
      if declared.Some? {
        return declared;
      }
      level := level.value.outer;
    }
    return None;
  }

  // ----- Reading -----

  /** The ceiling, the field's own floor, and the gap above what it names: at least an hour whatever it asks. */
  function Bounded(field: Field, hours: nat, path: string, scope: Scope): Result<Value>
    requires field.Duration?
  {
    if hours > MAX_CLOCK_HOURS then Invalid(path)
    else if field.atLeast.Some? && hours < field.atLeast.value then Invalid(path)
    else if field.above.None? then Fine(HoursValue(hours))
    else
      var floor := DurationNamed(field.above.value.0, Some(scope));
      var gap := if field.above.value.1 > MIN_GRACE_HOURS then field.above.value.1 else MIN_GRACE_HOURS;
      if floor.Some? && hours < floor.value + gap then Invalid(path) else Fine(HoursValue(hours))
  }

  function ReadDuration(field: Field, key: string, scope: Scope): Result<Value>
    requires field.Duration?
  {
    var path, stated := Dot(scope.path, key), Stated(scope.raw, key);
    if stated.Some? then
      var hours := if stated.value.Written? then ParseDuration(stated.value.text) else None;
      if hours.None? then Invalid(path) else Bounded(field, hours.value, path, scope)
    else
      var inherited := if field.inherits.None? then None else DurationNamed(field.inherits.value, scope.outer);
      var resolved := if inherited.Some? then inherited else field.byDefault;
      if resolved.None? then Invalid(path) else Bounded(field, resolved.value, path, scope)
  }

  /** From 1 to 39 letters, digits and hyphens, the first no hyphen. */
  predicate IsLogin(s: string) {
    && 1 <= |s| <= 39
    && (Text.IsLetter(s[0]) || JsonText.IsDigit(s[0]))
    && forall c :: c in s ==> Text.IsLetter(c) || JsonText.IsDigit(c) || c == '-'
  }

  predicate Lists(entry: Raw) {
    entry.Written? && IsLogin(entry.text)
  }

  function BadEntries(items: seq<Raw>, path: string): seq<Problem> {
    if items == [] then []
    else
      var n := |items| - 1;
      BadEntries(items[..n], path)
      + if Lists(items[n]) then [] else [Problem(SettingInvalid, Dot(path, JsonText.Digits(n)))]
  }

  function Listed(items: seq<Raw>): seq<string> {
    if items == [] then []
    else
      var n := |items| - 1;
      Listed(items[..n]) + if Lists(items[n]) then [Text.Lower(items[n].text)] else []
  }

  function ReadLogins(key: string, scope: Scope): Result<Value> {
    var path, stated := Dot(scope.path, key), Stated(scope.raw, key);
    if stated.None? then Fine(LoginsValue([]))
    else if !stated.value.List? then Invalid(path)
    else
      var bad := BadEntries(stated.value.items, path);
      if bad != [] then Problems(bad) else Fine(LoginsValue(Listed(stated.value.items)))
  }

  method CollectLogins(items: seq<Raw>, path: string) returns (result: Result<Value>)
    ensures result == if BadEntries(items, path) != [] then Problems(BadEntries(items, path))
                      else Fine(LoginsValue(Listed(items)))
  {
    var problems, listed := [], [];
    for i := 0 to |items|
      invariant problems == BadEntries(items[..i], path) && listed == Listed(items[..i])
    {
      assert items[..i + 1][..i] == items[..i];
      if !Lists(items[i]) {
        problems := problems + [Problem(SettingInvalid, Dot(path, JsonText.Digits(i)))];
        continue;
      }
      listed := listed + [Text.Lower(items[i].text)];
    }
    assert items[..|items|] == items;
    result := if |problems| > 0 then Problems(problems) else Fine(LoginsValue(listed));
  }

  /** An error for each key that is not a known one. */
  function Strangers(entries: seq<(string, Raw)>, known: set<string>, path: string): (strangers: seq<Problem>)
    ensures strangers == [] <==> forall e :: e in entries ==> e.0 in known
  {
    if entries == [] then []
    else if entries[0].0 in known then Strangers(entries[1..], known, path)
    else [Problem(UnknownKey, Dot(path, entries[0].0))] + Strangers(entries[1..], known, path)
  }

  function Inner(raw: seq<(string, Raw)>, path: string, fields: Spec, outer: Scope): Scope {
    Scope(raw, path, fields, Some(outer))
  }

  function ReadField(field: Field, key: string, scope: Scope): Result<Value>
    decreases field
  {
    var path, stated := Dot(scope.path, key), Stated(scope.raw, key);
    match field
    case FlagField(initially) =>
      if stated.None? then Fine(FlagValue(initially))
      else if stated.value.Flag? then Fine(FlagValue(stated.value.value)) else Invalid(path)
    case LoginsField => ReadLogins(key, scope)
    case Duration(_, _, _, _) => ReadDuration(field, key, scope)
    case Section(fields) =>
      if stated.Some? && !stated.value.Mapping? then Invalid(path)
      else
        var raw := if stated.Some? then stated.value.entries else [];
        var unknown, read := Strangers(raw, Names(fields), path), ReadScope(fields, Inner(raw, path, fields, scope));
        if unknown != [] then Problems(unknown + if read.Fine? then [] else read.problems)
        else if read.Fine? then Fine(SectionValue(read.value)) else Problems(read.problems)
    case Block(fields) =>
      if stated.None? then Fine(Parked)
      else if !stated.value.Mapping? then Invalid(path)
      else
        var raw := stated.value.entries;
        var enabled := Stated(raw, "enabled");
        if enabled.Some? && !enabled.value.Flag? then Invalid(Dot(path, "enabled"))
        else if enabled != Some(Flag(true)) then Fine(Parked)
        else
          var unknown := Strangers(raw, {"enabled"} + Names(fields), path);
          var read := ReadScope(fields, Inner(raw, path, fields, scope));
          if unknown != [] then Problems(unknown + if read.Fine? then [] else read.problems)
          else if read.Fine? then Fine(BlockValue(read.value)) else Problems(read.problems)
  }

  /** All of a level's values, or else the problems of all of its fields. */
  function ReadScope(fields: Spec, scope: Scope): Result<map<string, Value>>
    decreases fields
  {
    match fields
    case End => Fine(map[])
    case Entry(key, field, rest) =>
      var one, others := ReadField(field, key, scope), ReadScope(rest, scope);
      if one.Fine? && others.Fine? then Fine(map[key := one.value] + others.value)
      else Problems((if one.Fine? then [] else one.problems) + if others.Fine? then [] else others.problems)
  }

  function ReadSettings(fields: Spec, raw: seq<(string, Raw)>): Result<map<string, Value>> {
    ReadScope(fields, Scope(raw, "", fields, None))
  }

  // ----- What acceptance gives, for any spec -----

  predicate DistinctKeys(fields: Spec) {
    match fields
    case End => true
    case Entry(key, _, rest) => key !in Names(rest) && DistinctKeys(rest)
  }

  lemma {:induction false} FieldAtIsNamed(fields: Spec, key: string)
    ensures FieldAt(fields, key).Some? <==> key in Names(fields)
  {
    if fields.Entry? {
      FieldAtIsNamed(fields.rest, key);
    }
  }

  /** An accepted level accepted each of its fields, and holds what each read as. */
  lemma {:induction false} AcceptedLevelHoldsItsFields(fields: Spec, scope: Scope, key: string)
    requires ReadScope(fields, scope).Fine? && DistinctKeys(fields) && FieldAt(fields, key).Some?
    ensures var one := ReadField(FieldAt(fields, key).value, key, scope);
            one.Fine? && key in ReadScope(fields, scope).value && ReadScope(fields, scope).value[key] == one.value
  {
    if fields.key != key {
      AcceptedLevelHoldsItsFields(fields.rest, scope, key);
    }
    FieldAtIsNamed(fields.rest, key);
    ReadNames(fields.rest, scope);
  }

  lemma {:induction false} ReadNames(fields: Spec, scope: Scope)
    requires ReadScope(fields, scope).Fine?
    ensures ReadScope(fields, scope).value.Keys == Names(fields)
  {
    if fields.Entry? {
      ReadNames(fields.rest, scope);
    }
  }

  /** A clock takes the value its level states, or else what it inherits, or else its default; and nothing but text states one. */
  function ResolvedHours(field: Field, key: string, scope: Scope): Option<nat>
    requires field.Duration?
  {
    var stated := Stated(scope.raw, key);
    if stated.Some? then (if stated.value.Written? then ParseDuration(stated.value.text) else None)
    else if field.inherits.Some? && DurationNamed(field.inherits.value, scope.outer).Some? then
      DurationNamed(field.inherits.value, scope.outer)
    else field.byDefault
  }

  /** And is accepted, as that many hours, exactly within its ceiling, its floor and its distance from what it names. */
  lemma AClockIsAcceptedIff(field: Field, key: string, scope: Scope)
    requires field.Duration?
    ensures var hours := ResolvedHours(field, key, scope);
            var above := if field.above.Some? then DurationNamed(field.above.value.0, Some(scope)) else None;
            && (ReadField(field, key, scope).Fine? <==>
                  && hours.Some? && hours.value <= MAX_CLOCK_HOURS
                  && (field.atLeast.Some? ==> hours.value >= field.atLeast.value)
                  && (above.Some? ==> hours.value >= above.value + field.above.value.1
                                      && hours.value >= above.value + MIN_GRACE_HOURS))
            && (ReadField(field, key, scope).Fine? ==> ReadField(field, key, scope).value == HoursValue(hours.value))
  {
  }

  /** A block is read only on consent: left out or not enabled it is parked, whatever else it holds. */
  lemma ABlockIsReadOnConsent(fields: Spec, key: string, scope: Scope)
    ensures var read, stated := ReadField(Block(fields), key, scope), Stated(scope.raw, key);
            && (stated.None? ==> read == Fine(Parked))
            && (stated.Some? && !stated.value.Mapping? ==> read.Problems?)
            && (stated.Some? && stated.value.Mapping? ==>
                  var enabled := Stated(stated.value.entries, "enabled");
                  && (enabled.None? || enabled == Some(Flag(false)) ==> read == Fine(Parked))
                  && (enabled.Some? && !enabled.value.Flag? ==> read.Problems?)
                  && (enabled == Some(Flag(true)) && read.Fine? ==> read.value.BlockValue?))
  {
  }

  /** What is read has no name that its spec does not know. */
  lemma NothingUnknownIsRead(fields: Spec, key: string, scope: Scope)
    requires Stated(scope.raw, key).Some? && Stated(scope.raw, key).value.Mapping?
    ensures ReadField(Section(fields), key, scope).Fine? ==>
              forall e :: e in Stated(scope.raw, key).value.entries ==> e.0 in Names(fields)
    ensures ReadField(Block(fields), key, scope).Fine? && ReadField(Block(fields), key, scope).value.BlockValue? ==>
              forall e :: e in Stated(scope.raw, key).value.entries ==> e.0 in Names(fields) || e.0 == "enabled"
  {
  }

  /** A login is at most 39 letters, digits and hyphens, and does not begin with a hyphen. */
  lemma WhatALoginIs(s: string)
    requires IsLogin(s)
    ensures 1 <= |s| <= 39 && s[0] != '-'
    ensures forall i :: 0 <= i < |s| ==> 'a' <= s[i] <= 'z' || 'A' <= s[i] <= 'Z' || '0' <= s[i] <= '9' || s[i] == '-'
  {
    assert forall i :: 0 <= i < |s| ==> s[i] in s;
  }

  /** A flag that is stated is read as stated, one that is not is read as the spec begins it, and nothing else is a flag. */
  lemma AFlagIsReadAsStated(initially: bool, key: string, scope: Scope)
    ensures var read, stated := ReadField(FlagField(initially), key, scope), Stated(scope.raw, key);
            && (stated.None? ==> read == Fine(FlagValue(initially)))
            && (stated.Some? && stated.value.Flag? ==> read == Fine(FlagValue(stated.value.value)))
            && (read.Fine? <==> stated.None? || stated.value.Flag?)
  {
  }

  lemma {:induction false} ListedIsEachEntry(items: seq<Raw>)
    requires forall entry :: entry in items ==> Lists(entry)
    ensures |Listed(items)| == |items| && forall i :: 0 <= i < |items| ==> Lists(items[i]) && Listed(items)[i] == Text.Lower(items[i].text)
  {
    if items != [] {
      ListedIsEachEntry(items[..|items| - 1]);
    }
  }

  lemma {:induction false} NoBadEntries(items: seq<Raw>, path: string)
    ensures BadEntries(items, path) == [] <==> forall entry :: entry in items ==> Lists(entry)
  {
    if items != [] {
      var shorter := items[..|items| - 1];
      NoBadEntries(shorter, path);
      assert forall entry :: entry in items <==> entry in shorter || entry == items[|items| - 1];
    }
  }

  /** A list of logins is accepted exactly when each entry is one, and a login is then on it exactly as some entry, in any case. */
  lemma ALoginIsListedIff(items: seq<Raw>, key: string, scope: Scope, login: string)
    requires Stated(scope.raw, key) == Some(List(items))
    ensures var read := ReadField(LoginsField, key, scope);
            && (read.Fine? <==> forall entry :: entry in items ==> Lists(entry))
            && (read.Fine? ==>
                  && read.value.LoginsValue?
                  && (Text.Lower(login) in read.value.logins <==>
                        exists i :: 0 <= i < |items| && Lists(items[i]) && Text.SameLetters(items[i].text, login)))
  {
    NoBadEntries(items, Dot(scope.path, key));
    if ReadField(LoginsField, key, scope).Fine? {
      ListedIsEachEntry(items);
      var logins := Listed(items);
      forall i | 0 <= i < |items|
        ensures Lists(items[i]) && (logins[i] == Text.Lower(login) <==> Text.SameLetters(items[i].text, login))
      {
        Text.LoweringIgnoresCase(items[i].text, login);
      }
    }
  }

  /** A document that does not state a path says what its spec declares there. */
  lemma ASilentDocumentDeclares(path: Path, scope: Scope)
    requires scope.outer.None? && StatedAt(Mapping(scope.raw), path).None?
    ensures DurationNamed(path, Some(scope)) == DeclaredAt(scope.fields, path)
  {
    assert StatedFrom(path, scope.outer).None? && DeclaredFrom(path, scope.outer).None?;
  }

  /** A level that neither states nor declares a name says what the level around it says. */
  lemma SilentLevelsPassThrough(name: string, scope: Scope)
    requires Stated(scope.raw, name).None? && FieldAt(scope.fields, name).None?
    ensures DurationNamed([name], Some(scope)) == DurationNamed([name], scope.outer)
  {
  }

  /** A clock that inherits its own name, with no default of its own, reads what its level looks up under that name. */
  lemma AClockReadsWhatItsNameSays(name: string, field: Field, scope: Scope)
    requires field.Duration? && field.byDefault.None? && field.inherits == Some([name])
    requires FieldAt(scope.fields, name) == Some(field)
    requires ReadDuration(field, name, scope).Fine?
    ensures DurationNamed([name], Some(scope)) == Some(ReadDuration(field, name, scope).value.hours)
  {
    var stated := Stated(scope.raw, name);
    if stated.Some? {
      assert StatedAt(Mapping(scope.raw), [name]) == StatedAt(stated.value, []) == stated;
    }
  }

  /** Everything an accepted clock is bounded by. */
  lemma AcceptedClockIsBounded(field: Field, key: string, scope: Scope)
    requires field.Duration? && ReadDuration(field, key, scope).Fine?
    ensures var value := ReadDuration(field, key, scope).value;
            && value.HoursValue? && value.hours <= MAX_CLOCK_HOURS
            && (field.atLeast.Some? ==> value.hours >= field.atLeast.value)
            && (field.above.Some? ==>
                  var floor := DurationNamed(field.above.value.0, Some(scope));
                  floor.Some? ==> value.hours >= floor.value + MIN_GRACE_HOURS && value.hours >= floor.value + field.above.value.1)
  {
  }

  /**
   * The cascade is sound. In any accepted document, a clock inside a block that must exceed a sibling of the block
   * exceeds what that sibling itself reads as, wherever either takes its value from: the floor that is looked up from
   * inside the block is the value the sibling field holds.
   */
  lemma AFloorIsWhatTheSiblingReads(name: string, sibling: Field, scope: Scope, blockKey: string, inside: Spec,
                                    key: string, clock: Field)
    requires FieldAt(scope.fields, name) == Some(sibling) && FieldAt(scope.fields, blockKey) == Some(Block(inside))
    requires sibling.Duration? && sibling.byDefault.None? && sibling.inherits == Some([name])
    requires clock.Duration? && clock.above.Some? && clock.above.value.0 == [name]
    requires DistinctKeys(inside) && FieldAt(inside, key) == Some(clock) && name !in Names(inside) && name != "enabled"
    requires ReadField(sibling, name, scope).Fine? && ReadField(Block(inside), blockKey, scope).Fine?
    ensures ReadField(sibling, name, scope).value.HoursValue?
    ensures var read := ReadField(Block(inside), blockKey, scope).value;
            read.BlockValue? ==>
              && key in read.values && read.values[key].HoursValue?
              && read.values[key].hours >= ReadField(sibling, name, scope).value.hours + MIN_GRACE_HOURS
              && read.values[key].hours >= ReadField(sibling, name, scope).value.hours + clock.above.value.1
              && (clock.atLeast.Some? ==> read.values[key].hours >= clock.atLeast.value)
  {
    AcceptedClockIsBounded(sibling, name, scope);
    AClockReadsWhatItsNameSays(name, sibling, scope);
    if ReadField(Block(inside), blockKey, scope).value.BlockValue? {
      var raw := Stated(scope.raw, blockKey).value.entries;
      var inner := Inner(raw, Dot(scope.path, blockKey), inside, scope);
      AcceptedLevelHoldsItsFields(inside, inner, key);
      UnknownKeysAreNotStated(raw, {"enabled"} + Names(inside), inner.path, name);
      FieldAtIsNamed(inside, name);
      SilentLevelsPassThrough(name, inner);
      AcceptedClockIsBounded(clock, key, inner);
    }
  }

  lemma {:induction false} UnknownKeysAreNotStated(entries: seq<(string, Raw)>, known: set<string>, path: string, name: string)
    requires Strangers(entries, known, path) == [] && name !in known
    ensures Stated(entries, name).None?
  {
    if entries != [] {
      assert entries[0] in entries;
      UnknownKeysAreNotStated(entries[1..], known, path, name);
    }
  }
}
