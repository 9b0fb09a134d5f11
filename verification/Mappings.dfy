/**
 * The `mappings` section: names to spellings, read family by family; and spellings back
 * to the names they stand for.
 */
module Mappings {
  import opened Wrappers
  import Text

  // ----- Sameness of labels -----

  /** GitHub tells labels apart by neither case nor surrounding space. */
  function LabelKey(tag: string): string {
    Text.Lower(Text.Trim(tag))
  }

  // ----- One family -----

  /** A family's entries in the order the document writes them. */
  type Pairs = seq<(string, string)>

  function Get(pairs: Pairs, name: string): (found: Option<string>)
    ensures found.Some? ==> (name, found.value) in pairs
    ensures found.None? <==> forall p :: p in pairs ==> p.0 != name
  {
    if pairs == [] then None
    else if pairs[0].0 == name then Some(pairs[0].1)
    else Get(pairs[1..], name)
  }

  datatype RawSpelling = Spelled(text: string) | NotText

  datatype ErrorCode =
    | NotAMapping
    | UnknownKey
    | NotMappable
    | SpellingInvalid
    | NotInjective

  datatype Error = Error(code: ErrorCode, path: string)

  /** A closed family admits the meanings listed; an open one any camel-case name. */
  datatype Family = Family(path: string, meanings: Option<seq<string>>, slashed: bool)

  const MEANINGS := ["awaitingTriage", "ready", "inProgress", "needsReview", "needsRevision", "readyToMerge", "blocked"]
  const COMMANDS := ["assign", "unassign", "working"]
  const SKILL_TIERS := ["goodFirstIssue", "beginner", "intermediate", "advanced"]

  const LABELS := Family("mappings.labels", Some(MEANINGS), false)
  const COMMAND_WORDS := Family("mappings.commands", Some(COMMANDS), true)
  const SKILLS := Family("mappings.skills", Some(SKILL_TIERS), false)
  const ALERTS := Family("mappings.alerts", None, false)

  predicate IsName(s: string) {
    && s != "" && 'a' <= s[0] <= 'z'
    && forall c :: c in s ==> Text.IsLetter(c) || '0' <= c <= '9'
  }

  predicate Admits(family: Family, meaning: string) {
    if family.meanings.None? then IsName(meaning) else meaning in family.meanings.value
  }

  function Refusal(family: Family, meaning: string, raw: RawSpelling): Option<ErrorCode> {
    if !Admits(family, meaning) then Some(NotMappable)
    else if raw.NotText? || Text.Blank(raw.text) then Some(SpellingInvalid)
    else if family.slashed && (Text.Trim(raw.text) == "" || Text.Trim(raw.text)[0] != '/') then Some(SpellingInvalid)
    else None
  }

  /** What a family has read so far: its entries, who owns each folded spelling, and what was refused. */
  datatype Reading = Reading(entries: Pairs, owner: map<string, string>, errors: seq<Error>)

  function Reads(family: Family, sofar: Reading, meaning: string, raw: RawSpelling): Reading {
    var at := family.path + "." + meaning;
    var refusal := Refusal(family, meaning, raw);
    if refusal.Some? then sofar.(errors := sofar.errors + [Error(refusal.value, at)])
    else if LabelKey(raw.text) in sofar.owner then sofar.(errors := sofar.errors + [Error(NotInjective, at)])
    else sofar.(entries := sofar.entries + [(meaning, raw.text)], owner := sofar.owner[LabelKey(raw.text) := meaning])
  }

  function FamilyOf(family: Family, raw: seq<(string, RawSpelling)>): Reading {
    if raw == [] then Reading([], map[], [])
    else
      var last := raw[|raw| - 1];
      Reads(family, FamilyOf(family, raw[..|raw| - 1]), last.0, last.1)
  }

  method ReadMeaningFamily(family: Family, raw: seq<(string, RawSpelling)>) returns (entries: Pairs, errors: seq<Error>)
    ensures entries == FamilyOf(family, raw).entries && errors == FamilyOf(family, raw).errors
  {
    entries, errors := [], [];
    var owner: map<string, string> := map[];
    for i := 0 to |raw|
      invariant Reading(entries, owner, errors) == FamilyOf(family, raw[..i])
    {
      assert raw[..i + 1][..i] == raw[..i] && raw[..i + 1][i] == raw[i];
      var (meaning, spelling) := raw[i];
      var refusal := Refusal(family, meaning, spelling);
      if refusal.Some? {
        errors := errors + [Error(refusal.value, family.path + "." + meaning)];
        continue;
      }
      var key := LabelKey(spelling.text);
      if key in owner {
        errors := errors + [Error(NotInjective, family.path + "." + meaning)];
        continue;
      }
      owner := owner[key := meaning];
      entries := entries + [(meaning, spelling.text)];
    }
    assert raw[..|raw|] == raw;
  }

  // ----- Between families -----

  function DefaultLabel(meaning: string): string {
    if meaning == "awaitingTriage" then "status: triage"
    else if meaning == "ready" then "status: ready"
    else if meaning == "inProgress" then "status: in progress"
    else if meaning == "needsReview" then "status: needs review"
    else if meaning == "needsRevision" then "status: needs revision"
    else if meaning == "readyToMerge" then "status: ready to merge"
    else "status: blocked"
  }

  function LabelOf(mapped: Pairs, meaning: string): string {
    var own := Get(mapped, meaning);
    if own.Some? then own.value else DefaultLabel(meaning)
  }

  function MergedOver(mapped: Pairs, order: seq<string>): Pairs {
    if order == [] then [] else [(order[0], LabelOf(mapped, order[0]))] + MergedOver(mapped, order[1..])
  }

  /** The document's spellings over the defaults. */
  function Merged(mapped: Pairs): Pairs {
    MergedOver(mapped, MEANINGS)
  }

  /** This spelling is the default of another meaning, which the document leaves at it. */
  predicate Shadows(mapped: Pairs, entry: (string, string)) {
    exists other :: other in MEANINGS && other != entry.0 && Get(mapped, other).None?
                    && LabelKey(DefaultLabel(other)) == LabelKey(entry.1)
  }

  function ShadowErrors(mapped: Pairs, entries: Pairs): (errors: seq<Error>)
    ensures errors == [] <==> forall e :: e in entries ==> !Shadows(mapped, e)
  {
    if entries == [] then []
    else
      var last := entries[|entries| - 1];
      ShadowErrors(mapped, entries[..|entries| - 1])
      + if Shadows(mapped, last) then [Error(NotInjective, LABELS.path + "." + last.0)] else []
  }

  method LabelsWithDefaults(mapped: Pairs) returns (merged: Pairs, errors: seq<Error>)
    ensures merged == Merged(mapped) && errors == ShadowErrors(mapped, mapped)
  {
    merged, errors := Merged(mapped), [];
    for i := 0 to |mapped|
      invariant errors == ShadowErrors(mapped, mapped[..i])
    {
      assert mapped[..i + 1][..i] == mapped[..i] && mapped[..i + 1][i] == mapped[i];
      if !Shadows(mapped, mapped[i]) {
        continue;
      }
      errors := errors + [Error(NotInjective, LABELS.path + "." + mapped[i].0)];
    }
    assert mapped[..|mapped|] == mapped;
  }

  /** The folded spellings of a family's entries. */
  function Taken(entries: Pairs): set<string> {
    set e | e in entries :: LabelKey(e.1)
  }

  function Clashes(family: Family, taken: set<string>, entries: Pairs): (errors: seq<Error>)
    ensures errors == [] <==> forall e :: e in entries ==> LabelKey(e.1) !in taken
  {
    if entries == [] then []
    else
      var last := entries[|entries| - 1];
      Clashes(family, taken, entries[..|entries| - 1])
      + if LabelKey(last.1) in taken then [Error(NotInjective, family.path + "." + last.0)] else []
  }

  method CheckAgainstEarlier(family: Family, earlier: seq<Pairs>, entries: Pairs) returns (errors: seq<Error>)
    ensures errors == Clashes(family, TakenByAll(earlier), entries)
  {
    var taken: set<string> := {};
    for f := 0 to |earlier|
      invariant taken == TakenByAll(earlier[..f])
    {
      assert earlier[..f + 1][..f] == earlier[..f] && earlier[..f + 1][f] == earlier[f];
      var before := taken;
      for i := 0 to |earlier[f]|
        invariant taken == before + Taken(earlier[f][..i])
      {
        assert earlier[f][..i + 1] == earlier[f][..i] + [earlier[f][i]];
        taken := taken + {LabelKey(earlier[f][i].1)};
      }
      assert earlier[f][..|earlier[f]|] == earlier[f];
    }
    assert earlier[..|earlier|] == earlier;
    errors := [];
    for i := 0 to |entries|
      invariant errors == Clashes(family, taken, entries[..i])
    {
      assert entries[..i + 1][..i] == entries[..i] && entries[..i + 1][i] == entries[i];
      if LabelKey(entries[i].1) in taken {
        errors := errors + [Error(NotInjective, family.path + "." + entries[i].0)];
      }
    }
    assert entries[..|entries|] == entries;
  }

  function TakenByAll(families: seq<Pairs>): set<string> {
    if families == [] then {} else TakenByAll(families[..|families| - 1]) + Taken(families[|families| - 1])
  }

  // ----- The section -----

  /** One family as the document has it; an absent one is empty. */
  datatype RawFamily = Absent | Other | Entries(entries: seq<(string, RawSpelling)>)

  datatype RawMappings =
    | NoSection
    | NotASection
    | Section(unknown: seq<string>, labels: RawFamily, commands: RawFamily, skills: RawFamily, alerts: RawFamily)

  datatype Mappings = Mappings(labels: Pairs, commands: Pairs, skills: Pairs, alerts: Pairs)

  datatype Checked<T> = Accepted(value: T) | Refused(errors: seq<Error>)

  function ReadFamily(family: Family, raw: RawFamily): Checked<Pairs> {
    if raw.Other? then Refused([Error(NotAMapping, family.path)])
    else
      var read := FamilyOf(family, if raw.Entries? then raw.entries else []);
      if read.errors == [] then Accepted(read.entries) else Refused(read.errors)
  }

  function ReadLabels(raw: RawFamily): Checked<Pairs> {
    var written := ReadFamily(LABELS, raw);
    if written.Refused? then written
    else
      var errors := ShadowErrors(written.value, written.value);
      if errors == [] then Accepted(Merged(written.value)) else Refused(errors)
  }

  function UnknownKeys(keys: seq<string>): (errors: seq<Error>)
    ensures |errors| == |keys|
  {
    if keys == [] then [] else [Error(UnknownKey, "mappings." + keys[0])] + UnknownKeys(keys[1..])
  }

  function ErrorsOf<T>(checked: Checked<T>): seq<Error> {
    if checked.Refused? then checked.errors else []
  }

  function ReadMappings(raw: RawMappings): Checked<Mappings> {
    match raw
    case NoSection => Accepted(Mappings(Merged([]), [], [], []))
    case NotASection => Refused([Error(NotAMapping, "mappings")])
    case Section(unknown, rawLabels, rawCommands, rawSkills, rawAlerts) =>
      var labels, commands := ReadLabels(rawLabels), ReadFamily(COMMAND_WORDS, rawCommands);
      var skills, alerts := ReadFamily(SKILLS, rawSkills), ReadFamily(ALERTS, rawAlerts);
      var errors := UnknownKeys(unknown);
      if labels.Refused? || commands.Refused? || skills.Refused? || alerts.Refused? then
        Refused(errors + ErrorsOf(labels) + ErrorsOf(commands) + ErrorsOf(skills) + ErrorsOf(alerts))
      else Joined(errors, Mappings(labels.value, commands.value, skills.value, alerts.value))
  }

  /** The families together: refused for errors already found, and for a label of one that an earlier one spells. */
  function Joined(errors: seq<Error>, m: Mappings): Checked<Mappings> {
    var shared := Clashes(SKILLS, TakenByAll([m.labels]), m.skills) + Clashes(ALERTS, TakenByAll([m.labels, m.skills]), m.alerts);
    if errors + shared == [] then Accepted(m) else Refused(errors + shared)
  }

  // ----- Reading a label off the wire -----

  function FirstCarrying(mapped: Pairs, order: seq<string>, key: string): Option<string> {
    if order == [] then None
    else
      var tag := Get(mapped, order[0]);
      if tag.Some? && LabelKey(tag.value) == key then Some(order[0]) else FirstCarrying(mapped, order[1..], key)
  }

  method MeaningOfLabel(mappings: Mappings, tag: string) returns (meaning: Option<string>)
    ensures meaning == FirstCarrying(mappings.labels, MEANINGS, LabelKey(tag))
  {
    var wanted := LabelKey(tag);
    for i := 0 to |MEANINGS|
      invariant FirstCarrying(mappings.labels, MEANINGS, wanted) == FirstCarrying(mappings.labels, MEANINGS[i..], wanted)
    {
      var mapped := Get(mappings.labels, MEANINGS[i]);
      assert MEANINGS[i..][1..] == MEANINGS[i + 1..];
      if mapped.Some? && LabelKey(mapped.value) == wanted {
        return Some(MEANINGS[i]);
      }
    }
    return None;
  }

  /** Those names of a family, in its order, that one of these labels spells. */
  function CarriedOf(family: seq<string>, mapped: Pairs, labels: seq<string>): (carried: seq<string>)
    ensures forall m :: m in carried <==> m in family && Get(mapped, m).Some?
                                          && exists tag :: tag in labels && LabelKey(tag) == LabelKey(Get(mapped, m).value)
  {
    if family == [] then []
    else
      var own := Get(mapped, family[0]);
      var others := CarriedOf(family[1..], mapped, labels);
      if own.Some? && exists tag :: tag in labels && LabelKey(tag) == LabelKey(own.value) then [family[0]] + others
      else others
  }

  // ----- What accepting a family means -----

  /** Sameness never holds between two entries of the list. */
  predicate Injective(entries: Pairs) {
    forall i, j :: 0 <= i < j < |entries| ==> LabelKey(entries[i].1) != LabelKey(entries[j].1)
  }

  predicate DistinctKeys(raw: seq<(string, RawSpelling)>) {
    forall i, j :: 0 <= i < j < |raw| ==> raw[i].0 != raw[j].0
  }

  /** Every entry is of the family, and no two spell the same label. */
  predicate Injects(family: Family, raw: seq<(string, RawSpelling)>) {
    && (forall i :: 0 <= i < |raw| ==> Refusal(family, raw[i].0, raw[i].1).None?)
    && (forall i, j :: 0 <= i < j < |raw| ==> LabelKey(raw[i].1.text) != LabelKey(raw[j].1.text))
  }

  lemma {:induction false} OwnersAreTheEntries(family: Family, raw: seq<(string, RawSpelling)>)
    ensures FamilyOf(family, raw).owner.Keys == Taken(FamilyOf(family, raw).entries)
    ensures Injective(FamilyOf(family, raw).entries)
    ensures forall e :: e in FamilyOf(family, raw).entries ==> Refusal(family, e.0, Spelled(e.1)).None?
  {
    if raw != [] {
      OwnersAreTheEntries(family, raw[..|raw| - 1]);
    }
  }

  /** A family is accepted exactly when every entry is its own and no two spell one label, and then nothing is dropped. */
  lemma {:induction false} FamilyAcceptsIffInjective(family: Family, raw: seq<(string, RawSpelling)>)
    ensures FamilyOf(family, raw).errors == [] <==> Injects(family, raw)
    ensures FamilyOf(family, raw).errors == [] ==>
              var entries := FamilyOf(family, raw).entries;
              |entries| == |raw| && forall i :: 0 <= i < |raw| ==> raw[i] == (entries[i].0, Spelled(entries[i].1))
  {
    if raw != [] {
      var shorter, last := raw[..|raw| - 1], raw[|raw| - 1];
      FamilyAcceptsIffInjective(family, shorter);
      var before := FamilyOf(family, shorter);
      InjectsStep(family, raw);
      if before.errors == [] && Refusal(family, last.0, last.1).None? {
        OwnersAreTheEntries(family, shorter);
        OwnedIffSpelled(before.entries, shorter, LabelKey(last.1.text));
      }
    }
  }

  /** The last entry spells some earlier entry's label. */
  predicate Respells(raw: seq<(string, RawSpelling)>, key: string) {
    exists i :: 0 <= i < |raw| && raw[i].1.Spelled? && LabelKey(raw[i].1.text) == key
  }

  lemma InjectsStep(family: Family, raw: seq<(string, RawSpelling)>)
    requires raw != []
    ensures var shorter, last := raw[..|raw| - 1], raw[|raw| - 1];
            Injects(family, raw) <==>
              && Injects(family, shorter) && Refusal(family, last.0, last.1).None?
              && !Respells(shorter, LabelKey(last.1.text))
  {
    var shorter, last := raw[..|raw| - 1], raw[|raw| - 1];
    assert forall i :: 0 <= i < |shorter| ==> shorter[i] == raw[i];
  }

  lemma OwnedIffSpelled(entries: Pairs, raw: seq<(string, RawSpelling)>, key: string)
    requires |entries| == |raw| && forall i :: 0 <= i < |raw| ==> raw[i] == (entries[i].0, Spelled(entries[i].1))
    ensures key in Taken(entries) <==> Respells(raw, key)
  {
    if Respells(raw, key) {
      var i :| 0 <= i < |raw| && raw[i].1.Spelled? && LabelKey(raw[i].1.text) == key;
      assert entries[i] in entries;
    }
    if key in Taken(entries) {
      var i :| 0 <= i < |entries| && LabelKey(entries[i].1) == key;
      assert raw[i].1.Spelled?;
    }
  }

  // ----- What accepting the section means -----

  lemma KeyOfTrimmed(s: string)
    requires s != "" && !Text.IsSpace(s[0]) && !Text.IsSpace(s[|s| - 1])
    ensures |LabelKey(s)| == |s| && forall i :: 0 <= i < |s| ==> LabelKey(s)[i] == Text.LowerChar(s[i])
  {
  }

  /** Each default's folded length, and the one character that tells the two longest apart. */
  predicate DefaultKeyIs(meaning: string, key: string) {
    || (meaning == "awaitingTriage" && |key| == 14)
    || (meaning == "ready" && |key| == 13)
    || (meaning == "inProgress" && |key| == 19)
    || (meaning == "needsReview" && |key| == 20)
    || (meaning == "needsRevision" && |key| == 22 && key[8] == 'n')
    || (meaning == "readyToMerge" && |key| == 22 && key[8] == 'r')
    || (meaning == "blocked" && |key| == 15)
  }

  lemma DefaultKeys(i: nat)
    requires i < |MEANINGS|
    ensures DefaultKeyIs(MEANINGS[i], LabelKey(DefaultLabel(MEANINGS[i])))
  {
    KeyOfTrimmed(DefaultLabel(MEANINGS[i]));
    assert i == 0 || i == 1 || i == 2 || i == 3 || i == 4 || i == 5 || i == 6;
  }

  /** The defaults are seven different labels. */
  lemma DefaultsDiffer(a: string, b: string)
    requires a in MEANINGS && b in MEANINGS && a != b
    ensures LabelKey(DefaultLabel(a)) != LabelKey(DefaultLabel(b))
  {
    var i :| 0 <= i < |MEANINGS| && MEANINGS[i] == a;
    var j :| 0 <= j < |MEANINGS| && MEANINGS[j] == b;
    DefaultKeys(i);
    DefaultKeys(j);
  }

  /** Two different names spell two different labels. */
  predicate SpellsApart(entries: Pairs, a: string, b: string) {
    Get(entries, a).Some? && Get(entries, b).Some? && a != b ==>
      LabelKey(Get(entries, a).value) != LabelKey(Get(entries, b).value)
  }

  lemma InjectiveSpellsApart(entries: Pairs, a: string, b: string)
    requires Injective(entries)
    ensures SpellsApart(entries, a, b)
  {
    var x, y := Get(entries, a), Get(entries, b);
    if x.Some? && y.Some? && a != b {
      var i :| 0 <= i < |entries| && entries[i] == (a, x.value);
      var j :| 0 <= j < |entries| && entries[j] == (b, y.value);
      assert i != j;
    }
  }

  lemma {:induction false} MergedHolds(mapped: Pairs, order: seq<string>, name: string)
    ensures Get(MergedOver(mapped, order), name) == if name in order then Some(LabelOf(mapped, name)) else None
  {
    if order != [] {
      MergedHolds(mapped, order[1..], name);
    }
  }

  /** The defaults laid under an injective family stay injective exactly when no entry shadows a default left standing. */
  lemma MergedSpellsApart(mapped: Pairs, a: string, b: string)
    requires Injective(mapped) && ShadowErrors(mapped, mapped) == []
    ensures SpellsApart(Merged(mapped), a, b)
  {
    MergedHolds(mapped, MEANINGS, a);
    MergedHolds(mapped, MEANINGS, b);
    if a in MEANINGS && b in MEANINGS && a != b {
      InjectiveSpellsApart(mapped, a, b);
      var x, y := Get(mapped, a), Get(mapped, b);
      if x.None? && y.None? {
        DefaultsDiffer(a, b);
      } else if x.None? {
        assert !Shadows(mapped, (b, y.value));
      } else if y.None? {
        assert !Shadows(mapped, (a, x.value));
      }
    }
  }

  /** Names are of the list and stand once each. */
  predicate NamesEachOnce(mapped: Pairs) {
    && (forall e :: e in mapped ==> e.0 in MEANINGS)
    && (forall i, j :: 0 <= i < j < |mapped| ==> mapped[i].0 != mapped[j].0)
  }

  /** Nor is more refused than that: only a spelling that would stand for two meanings in force is. */
  lemma AShadowSpellsTwo(mapped: Pairs, entry: (string, string)) returns (other: string)
    requires NamesEachOnce(mapped) && entry in mapped && Shadows(mapped, entry)
    ensures !SpellsApart(Merged(mapped), entry.0, other)
  {
    other :| other in MEANINGS && other != entry.0 && Get(mapped, other).None?
             && LabelKey(DefaultLabel(other)) == LabelKey(entry.1);
    var i :| 0 <= i < |mapped| && mapped[i] == entry;
    GetOfDistinct(mapped, i);
    MergedHolds(mapped, MEANINGS, entry.0);
    MergedHolds(mapped, MEANINGS, other);
  }

  /** An injective family lies over the defaults without error exactly when no two meanings in force spell one label. */
  lemma NoShadowIffSpellsApart(mapped: Pairs)
    requires Injective(mapped) && NamesEachOnce(mapped)
    ensures ShadowErrors(mapped, mapped) == [] <==> forall a, b :: SpellsApart(Merged(mapped), a, b)
  {
    if ShadowErrors(mapped, mapped) == [] {
      forall a, b ensures SpellsApart(Merged(mapped), a, b) {
        MergedSpellsApart(mapped, a, b);
      }
    } else {
      var entry :| entry in mapped && Shadows(mapped, entry);
      var other := AShadowSpellsTwo(mapped, entry);
    }
  }

  /** The open family's names: camel case, which is a small letter and then letters and digits. */
  lemma AlertsAreCamelCase(raw: RawFamily, name: string)
    requires ReadFamily(ALERTS, raw).Accepted? && Get(ReadFamily(ALERTS, raw).value, name).Some?
    ensures name != "" && 'a' <= name[0] <= 'z'
    ensures forall c :: c in name ==> 'a' <= c <= 'z' || 'A' <= c <= 'Z' || '0' <= c <= '9'
  {
    OwnersAreTheEntries(ALERTS, if raw.Entries? then raw.entries else []);
  }

  /** Every family of the section is accepted by itself. */
  predicate FamiliesAccepted(raw: RawMappings)
    requires raw.Section?
  {
    && ReadLabels(raw.labels).Accepted? && ReadFamily(COMMAND_WORDS, raw.commands).Accepted?
    && ReadFamily(SKILLS, raw.skills).Accepted? && ReadFamily(ALERTS, raw.alerts).Accepted?
  }

  /** No label of these is one of the earlier families'. */
  predicate StandsApart(entries: Pairs, taken: set<string>) {
    forall e :: e in entries ==> LabelKey(e.1) !in taken
  }

  lemma ARefusedFamilyRefuses(raw: RawMappings)
    requires raw.Section? && !FamiliesAccepted(raw)
    ensures ReadMappings(raw).Refused?
  {
  }

  lemma OtherwiseTheyAreJoined(raw: RawMappings)
    requires raw.Section? && FamiliesAccepted(raw)
    ensures ReadMappings(raw) == Joined(UnknownKeys(raw.unknown),
                                        Mappings(ReadLabels(raw.labels).value, ReadFamily(COMMAND_WORDS, raw.commands).value,
                                                 ReadFamily(SKILLS, raw.skills).value, ReadFamily(ALERTS, raw.alerts).value))
  {
  }

  lemma JoinedIff(errors: seq<Error>, m: Mappings)
    ensures Joined(errors, m).Accepted? <==>
              errors == [] && StandsApart(m.skills, Taken(m.labels)) && StandsApart(m.alerts, Taken(m.labels) + Taken(m.skills))
    ensures Joined(errors, m).Accepted? ==> Joined(errors, m).value == m
  {
    TakenByTwo(m.labels, m.skills);
    var first, second := Clashes(SKILLS, Taken(m.labels), m.skills), Clashes(ALERTS, Taken(m.labels) + Taken(m.skills), m.alerts);
    assert errors + (first + second) == [] <==> errors == [] && first == [] && second == [];
  }

  /** A section is accepted exactly when it has no other key, each family is, and no label stands in two of three families. */
  lemma SectionsAreAcceptedIff(raw: RawMappings)
    requires raw.Section?
    ensures ReadMappings(raw).Accepted? <==>
              && raw.unknown == [] && FamiliesAccepted(raw)
              && var labels, skills := ReadLabels(raw.labels).value, ReadFamily(SKILLS, raw.skills).value;
                && StandsApart(skills, Taken(labels))
                && StandsApart(ReadFamily(ALERTS, raw.alerts).value, Taken(labels) + Taken(skills))
  {
    if FamiliesAccepted(raw) {
      OtherwiseTheyAreJoined(raw);
      JoinedIff(UnknownKeys(raw.unknown),
                Mappings(ReadLabels(raw.labels).value, ReadFamily(COMMAND_WORDS, raw.commands).value,
                         ReadFamily(SKILLS, raw.skills).value, ReadFamily(ALERTS, raw.alerts).value));
    } else {
      ARefusedFamilyRefuses(raw);
    }
  }

  lemma TakenByTwo(a: Pairs, b: Pairs)
    ensures TakenByAll([a]) == Taken(a) && TakenByAll([a, b]) == Taken(a) + Taken(b)
  {
    assert [a][..0] == [] && [a, b][..1] == [a];
  }

  lemma AFamilySpellsApart(family: Family, raw: RawFamily, a: string, b: string)
    requires ReadFamily(family, raw).Accepted?
    ensures SpellsApart(ReadFamily(family, raw).value, a, b)
  {
    var entries := if raw.Entries? then raw.entries else [];
    OwnersAreTheEntries(family, entries);
    InjectiveSpellsApart(ReadFamily(family, raw).value, a, b);
  }

  /** No label spells both this name of one family and that name of another. */
  predicate SpellsApartFrom(left: Pairs, a: string, right: Pairs, b: string) {
    Get(left, a).Some? && Get(right, b).Some? ==> LabelKey(Get(left, a).value) != LabelKey(Get(right, b).value)
  }

  lemma NoClashSpellsApart(family: Family, earlier: seq<Pairs>, f: nat, entries: Pairs, a: string, b: string)
    requires f < |earlier| && Clashes(family, TakenByAll(earlier), entries) == []
    ensures SpellsApartFrom(earlier[f], a, entries, b)
  {
    TakenHolds(earlier, f);
    var x, y := Get(earlier[f], a), Get(entries, b);
    if x.Some? && y.Some? {
      assert LabelKey(x.value) in Taken(earlier[f]);
    }
  }

  lemma {:induction false} TakenHolds(families: seq<Pairs>, f: nat)
    requires f < |families|
    ensures Taken(families[f]) <= TakenByAll(families)
  {
    if f < |families| - 1 {
      TakenHolds(families[..|families| - 1], f);
    }
  }

  lemma LabelsSpellApart(raw: RawFamily, a: string, b: string)
    requires ReadLabels(raw).Accepted?
    ensures SpellsApart(ReadLabels(raw).value, a, b)
  {
    OwnersAreTheEntries(LABELS, if raw.Entries? then raw.entries else []);
    MergedSpellsApart(ReadFamily(LABELS, raw).value, a, b);
  }

  /** Within positions (defaults included), within tiers and within alerts, no two names spell one label. */
  lemma AcceptedFamiliesSpellApart(raw: RawMappings, a: string, b: string)
    requires ReadMappings(raw).Accepted?
    ensures var m := ReadMappings(raw).value;
            SpellsApart(m.labels, a, b) && SpellsApart(m.skills, a, b) && SpellsApart(m.alerts, a, b)
  {
    if raw.NoSection? {
      MergedSpellsApart([], a, b);
    } else {
      LabelsSpellApart(raw.labels, a, b);
      AFamilySpellsApart(SKILLS, raw.skills, a, b);
      AFamilySpellsApart(ALERTS, raw.alerts, a, b);
    }
  }

  /** Nor does any label spell names of two of these families. */
  lemma AcceptedFamiliesStandApart(raw: RawMappings, a: string, b: string)
    requires ReadMappings(raw).Accepted?
    ensures var m := ReadMappings(raw).value;
            && SpellsApartFrom(m.labels, a, m.skills, b)
            && SpellsApartFrom(m.labels, a, m.alerts, b)
            && SpellsApartFrom(m.skills, a, m.alerts, b)
  {
    var m := ReadMappings(raw).value;
    if raw.Section? {
      NoClashSpellsApart(SKILLS, [m.labels], 0, m.skills, a, b);
      NoClashSpellsApart(ALERTS, [m.labels, m.skills], 0, m.alerts, a, b);
      NoClashSpellsApart(ALERTS, [m.labels, m.skills], 1, m.alerts, a, b);
    }
  }

  lemma {:induction false} FirstCarryingIsTheOne(mapped: Pairs, order: seq<string>, name: string)
    requires name in order && Get(mapped, name).Some?
    requires forall other :: other in order ==> SpellsApart(mapped, name, other)
    ensures FirstCarrying(mapped, order, LabelKey(Get(mapped, name).value)) == Some(name)
  {
    if order[0] != name {
      assert SpellsApart(mapped, name, order[0]);
      FirstCarryingIsTheOne(mapped, order[1..], name);
    }
  }

  /** Every meaning has a label in force, and that label, however cased or spaced, reads back as that meaning. */
  lemma LabelsReadBack(raw: RawMappings, meaning: string, tag: string)
    requires ReadMappings(raw).Accepted? && meaning in MEANINGS
    ensures var m := ReadMappings(raw).value;
            && Get(m.labels, meaning).Some?
            && (LabelKey(tag) == LabelKey(Get(m.labels, meaning).value) ==>
                  FirstCarrying(m.labels, MEANINGS, LabelKey(tag)) == Some(meaning))
  {
    var m := ReadMappings(raw).value;
    var written := if raw.NoSection? then [] else ReadFamily(LABELS, raw.labels).value;
    assert m.labels == Merged(written);
    MergedHolds(written, MEANINGS, meaning);
    forall other | other in MEANINGS ensures SpellsApart(m.labels, meaning, other) {
      AcceptedFamiliesSpellApart(raw, meaning, other);
    }
    FirstCarryingIsTheOne(m.labels, MEANINGS, meaning);
  }

  /** A meaning the document maps has the document's spelling in force, and one that it leaves has its default. */
  lemma TheDocumentsSpellingIsInForce(mapped: Pairs, meaning: string)
    requires meaning in MEANINGS
    ensures Get(mapped, meaning).Some? ==> Get(Merged(mapped), meaning) == Get(mapped, meaning)
    ensures Get(mapped, meaning).None? ==> Get(Merged(mapped), meaning) == Some(DefaultLabel(meaning))
  {
    MergedHolds(mapped, MEANINGS, meaning);
  }

  /** Nothing in force is outside the list of meanings. */
  lemma OnlyMeaningsAreInForce(mapped: Pairs, name: string)
    requires name !in MEANINGS
    ensures Get(Merged(mapped), name).None?
  {
    MergedHolds(mapped, MEANINGS, name);
  }

  /** What a family's section writes. */
  function Written(raw: RawFamily): seq<(string, RawSpelling)> {
    if raw.Entries? then raw.entries else []
  }

  lemma GetOfDistinct(entries: Pairs, i: nat)
    requires i < |entries| && forall j, k :: 0 <= j < k < |entries| ==> entries[j].0 != entries[k].0
    ensures Get(entries, entries[i].0) == Some(entries[i].1)
  {
    var found := Get(entries, entries[i].0);
    assert entries[i] in entries;
    var j :| 0 <= j < |entries| && entries[j] == (entries[i].0, found.value);
  }

  /** An accepted family is what its section writes, entry for entry, and finds each name's spelling. */
  lemma AFamilyIsWhatIsWritten(family: Family, raw: RawFamily)
    requires ReadFamily(family, raw).Accepted? && DistinctKeys(Written(raw))
    ensures Copies(ReadFamily(family, raw).value, Written(raw))
  {
    var written, entries := Written(raw), ReadFamily(family, raw).value;
    FamilyAcceptsIffInjective(family, written);
    forall i | 0 <= i < |entries| ensures Get(entries, entries[i].0) == Some(entries[i].1) {
      assert forall j :: 0 <= j < |entries| ==> written[j].0 == entries[j].0;
      GetOfDistinct(entries, i);
    }
  }

  /** Each entry of an accepted family is held under its name, spelled as the document spells it. */
  predicate Holds(entries: Pairs, raw: RawFamily) {
    forall i :: 0 <= i < |Written(raw)| ==>
      Written(raw)[i].1.Spelled? && Get(entries, Written(raw)[i].0) == Some(Written(raw)[i].1.text)
  }

  lemma AFamilyHolds(family: Family, raw: RawFamily)
    requires ReadFamily(family, raw).Accepted? && DistinctKeys(Written(raw))
    ensures Holds(ReadFamily(family, raw).value, raw)
  {
    AFamilyIsWhatIsWritten(family, raw);
  }

  /** These entries are what is written, each found under its name. */
  predicate Copies(entries: Pairs, written: seq<(string, RawSpelling)>) {
    && |entries| == |written|
    && forall i :: 0 <= i < |entries| ==>
         written[i] == (entries[i].0, Spelled(entries[i].1)) && Get(entries, entries[i].0) == Some(entries[i].1)
  }

  lemma MergedHoldsWritten(own: Pairs, raw: RawFamily)
    requires Copies(own, Written(raw)) && forall e :: e in own ==> e.0 in MEANINGS
    ensures Holds(Merged(own), raw)
  {
    forall i | 0 <= i < |Written(raw)|
      ensures Written(raw)[i].1.Spelled? && Get(Merged(own), Written(raw)[i].0) == Some(Written(raw)[i].1.text)
    {
      assert own[i] in own;
      TheDocumentsSpellingIsInForce(own, own[i].0);
    }
  }

  lemma UnwrittenIsDefault(own: Pairs, raw: RawFamily, meaning: string)
    requires Copies(own, Written(raw)) && meaning in MEANINGS
    ensures (forall e :: e in Written(raw) ==> e.0 != meaning) ==> Get(Merged(own), meaning) == Some(DefaultLabel(meaning))
  {
    TheDocumentsSpellingIsInForce(own, meaning);
    if Get(own, meaning).Some? {
      var i :| 0 <= i < |own| && own[i] == (meaning, Get(own, meaning).value);
      assert Written(raw)[i] in Written(raw);
    }
  }

  lemma NamesAreMeanings(raw: RawFamily)
    requires ReadFamily(LABELS, raw).Accepted?
    ensures forall e :: e in ReadFamily(LABELS, raw).value ==> e.0 in MEANINGS
  {
    OwnersAreTheEntries(LABELS, Written(raw));
  }

  /** The labels in force: what the section writes, and for every other meaning its default. */
  lemma TheLabelsHold(raw: RawFamily)
    requires ReadLabels(raw).Accepted? && DistinctKeys(Written(raw))
    ensures Holds(ReadLabels(raw).value, raw)
    ensures forall meaning :: meaning in MEANINGS && (forall e :: e in Written(raw) ==> e.0 != meaning) ==>
              Get(ReadLabels(raw).value, meaning) == Some(DefaultLabel(meaning))
    ensures forall i :: 0 <= i < |Written(raw)| ==> Written(raw)[i].0 in MEANINGS
  {
    var own := ReadFamily(LABELS, raw).value;
    AFamilyIsWhatIsWritten(LABELS, raw);
    NamesAreMeanings(raw);
    MergedHoldsWritten(own, raw);
    forall meaning | meaning in MEANINGS && (forall e :: e in Written(raw) ==> e.0 != meaning)
      ensures Get(Merged(own), meaning) == Some(DefaultLabel(meaning))
    {
      UnwrittenIsDefault(own, raw, meaning);
    }
    forall i | 0 <= i < |Written(raw)| ensures Written(raw)[i].0 in MEANINGS {
      assert own[i] in own;
    }
  }

  /** An accepted section reads its families one by one. */
  lemma AcceptedSectionsReadTheirFamilies(raw: RawMappings)
    requires raw.Section? && ReadMappings(raw).Accepted?
    ensures var m := ReadMappings(raw).value;
            && ReadLabels(raw.labels) == Accepted(m.labels) && ReadFamily(COMMAND_WORDS, raw.commands) == Accepted(m.commands)
            && ReadFamily(SKILLS, raw.skills) == Accepted(m.skills) && ReadFamily(ALERTS, raw.alerts) == Accepted(m.alerts)
  {
  }

  predicate DistinctNames(raw: RawMappings)
    requires raw.Section?
  {
    && DistinctKeys(Written(raw.labels)) && DistinctKeys(Written(raw.commands))
    && DistinctKeys(Written(raw.skills)) && DistinctKeys(Written(raw.alerts))
  }

  /** An accepted document is held: all that each of its families writes, and for every other meaning its default. */
  lemma AcceptedMappingsAreTheDocuments(raw: RawMappings)
    requires raw.Section? && ReadMappings(raw).Accepted? && DistinctNames(raw)
    ensures var m := ReadMappings(raw).value;
            && Holds(m.labels, raw.labels) && Holds(m.commands, raw.commands)
            && Holds(m.skills, raw.skills) && Holds(m.alerts, raw.alerts)
            && forall meaning :: meaning in MEANINGS && (forall e :: e in Written(raw.labels) ==> e.0 != meaning) ==>
                 Get(m.labels, meaning) == Some(DefaultLabel(meaning))
  {
    AcceptedSectionsReadTheirFamilies(raw);
    TheLabelsHold(raw.labels);
    AFamilyHolds(COMMAND_WORDS, raw.commands);
    AFamilyHolds(SKILLS, raw.skills);
    AFamilyHolds(ALERTS, raw.alerts);
  }

  /** So a label spelled as the document spells a meaning, however cased or spaced, reads as that meaning. */
  lemma TheDocumentsLabelsReadBack(raw: RawMappings, i: nat, tag: string)
    requires raw.Section? && ReadMappings(raw).Accepted? && DistinctKeys(Written(raw.labels)) && i < |Written(raw.labels)|
    ensures var (meaning, spelling) := Written(raw.labels)[i];
            && spelling.Spelled?
            && (LabelKey(tag) == LabelKey(spelling.text) ==>
                  FirstCarrying(ReadMappings(raw).value.labels, MEANINGS, LabelKey(tag)) == Some(meaning))
  {
    AcceptedSectionsReadTheirFamilies(raw);
    TheLabelsHold(raw.labels);
    LabelsReadBack(raw, Written(raw.labels)[i].0, tag);
  }

  /** One label carries at most one meaning or one tier, and never one of each. */
  lemma OneLabelOneMeaning(raw: RawMappings, tag: string, a: string, b: string)
    requires ReadMappings(raw).Accepted?
    ensures var m := ReadMappings(raw).value;
            var meanings, tiers := CarriedOf(MEANINGS, m.labels, [tag]), CarriedOf(SKILL_TIERS, m.skills, [tag]);
            && (a in meanings && b in meanings ==> a == b)
            && (a in tiers && b in tiers ==> a == b)
            && !(a in meanings && b in tiers)
  {
    var m := ReadMappings(raw).value;
    AcceptedFamiliesSpellApart(raw, a, b);
    AcceptedFamiliesStandApart(raw, a, b);
    CarriedByOne(MEANINGS, m.labels, tag);
    CarriedByOne(SKILL_TIERS, m.skills, tag);
  }

  lemma CarriedByOne(family: seq<string>, mapped: Pairs, tag: string)
    ensures forall name :: name in CarriedOf(family, mapped, [tag]) ==>
              Get(mapped, name).Some? && LabelKey(Get(mapped, name).value) == LabelKey(tag)
  {
  }
}
