/** Comments as commands: which lines of a body count, which word of a line, and which command that word names. */
module Commands {
  import opened Wrappers
  import opened Mappings
  import Text

  // ----- Lines outside fences -----

  datatype Fence = Backticks | Tildes

  /** Which of the two fences a trimmed line begins with, if either. */
  function FenceOf(line: string): Option<Fence> {
    if Text.StartsWith(Text.Trim(line), "```") then Some(Backticks)
    else if Text.StartsWith(Text.Trim(line), "~~~") then Some(Tildes)
    else None
  }

  function SplitLines(body: string): (lines: seq<string>)
    ensures lines != []
  {
    if body == "" then [""]
    else
      var rest := SplitLines(body[1..]);
      if body[0] == '\n' then [""] + rest else [[body[0]] + rest[0]] + rest[1..]
  }

  /** The lines that no fence covers, read from inside `open`; only the same fence again ends one. */
  function Outside(lines: seq<string>, open: Option<Fence>): seq<string> {
    if lines == [] then []
    else
      var marker := FenceOf(lines[0]);
      if open.Some? then Outside(lines[1..], if marker == open then None else open)
      else if marker.Some? then Outside(lines[1..], marker)
      else [lines[0]] + Outside(lines[1..], None)
  }

  method LinesOutsideFences(body: string) returns (outside: seq<string>)
    ensures outside == Outside(SplitLines(body), None)
  {
    var lines := SplitLines(body);
    var open: Option<Fence> := None;
    outside := [];
    for i := 0 to |lines|
      invariant Outside(lines, None) == outside + Outside(lines[i..], open)
    {
      var marker := FenceOf(lines[i]);
      assert lines[i..][1..] == lines[i + 1..];
      if open.None? {
        if marker.None? {
          outside := outside + [lines[i]];
        } else {
          open := marker;
        }
      } else if marker == open {
        open := None;
      }
    }
  }

  // ----- The command -----

  /** At least four spaces, or a tab after at most three. */
  predicate IndentedCode(line: string) {
    || Text.StartsWith(line, "    ")
    || Text.StartsWith(line, "\t")
    || Text.StartsWith(line, " \t")
    || Text.StartsWith(line, "  \t")
    || Text.StartsWith(line, "   \t")
  }

  function FirstToken(s: string): string {
    if s == "" || Text.IsSpace(s[0]) then "" else [s[0]] + FirstToken(s[1..])
  }

  function CommandOfLine(commands: Pairs, line: string): Option<string> {
    var first := FirstToken(LabelKey(line));
    if IndentedCode(line) || first == "" then None else FirstCarrying(commands, COMMANDS, first)
  }

  function CommandOfLines(commands: Pairs, lines: seq<string>): Option<string> {
    if lines == [] then None
    else
      var issued := CommandOfLine(commands, lines[0]);
      if issued.Some? then issued else CommandOfLines(commands, lines[1..])
  }

  method CommandInComment(mappings: Mappings, body: string) returns (command: Option<string>)
    ensures command == CommandOfLines(mappings.commands, Outside(SplitLines(body), None))
  {
    var lines := LinesOutsideFences(body);
    for i := 0 to |lines|
      invariant CommandOfLines(mappings.commands, lines) == CommandOfLines(mappings.commands, lines[i..])
    {
      assert lines[i..][1..] == lines[i + 1..];
      if IndentedCode(lines[i]) {
        continue;
      }
      var first := FirstToken(LabelKey(lines[i]));
      if first == "" {
        continue;
      }
      var found := FirstCarrying(mappings.commands, COMMANDS, first);
      if found.Some? {
        return found;
      }
    }
    return None;
  }

  /** A line is a fence exactly when, its own margins aside, it begins with three of one mark. */
  lemma AFenceIsThreeOfItsMark(line: string)
    ensures var trimmed := Text.Trim(line);
            && (FenceOf(line) == Some(Backticks) <==> |trimmed| >= 3 && trimmed[0] == trimmed[1] == trimmed[2] == '`')
            && (FenceOf(line) == Some(Tildes) <==> |trimmed| >= 3 && trimmed[0] == trimmed[1] == trimmed[2] == '~')
  {
    var trimmed := Text.Trim(line);
    if |trimmed| >= 3 {
      assert trimmed[..3] == [trimmed[0], trimmed[1], trimmed[2]];
      assert "```"[0] == '`' && "~~~"[0] == '~';
    }
  }

  // ----- What is quoted issues nothing -----

  predicate NeverCloses(lines: seq<string>, fence: Fence) {
    forall line :: line in lines ==> FenceOf(line) != Some(fence)
  }

  lemma {:induction false} InsideAFence(inner: seq<string>, fence: Fence, rest: seq<string>)
    requires NeverCloses(inner, fence)
    ensures Outside(inner + rest, Some(fence)) == Outside(rest, Some(fence))
  {
    if inner == [] {
      assert inner + rest == rest;
    } else {
      assert inner[0] in inner && (inner + rest)[1..] == inner[1..] + rest;
      InsideAFence(inner[1..], fence, rest);
    }
  }

  /** A fenced block, whatever it holds but its own closing marker, is as if it were not there; unclosed, so is the rest. */
  lemma AFencedBlockIsSkipped(opening: string, inner: seq<string>, closing: string, after: seq<string>, fence: Fence)
    requires FenceOf(opening) == Some(fence) && FenceOf(closing) == Some(fence) && NeverCloses(inner, fence)
    ensures Outside([opening] + (inner + ([closing] + after)), None) == Outside(after, None)
    ensures Outside([opening] + inner, None) == []
  {
    var rest := [closing] + after;
    assert ([opening] + (inner + rest))[1..] == inner + rest && rest[1..] == after;
    InsideAFence(inner, fence, rest);
    assert ([opening] + inner)[1..] == inner + [];
    InsideAFence(inner, fence, []);
  }

  // ----- Which commands can be issued at all -----

  predicate Unspaced(s: string) {
    forall c :: c in s ==> !Text.IsSpace(c)
  }

  lemma {:induction false} FirstTokenIsUnspaced(s: string)
    ensures Unspaced(FirstToken(s))
    ensures Unspaced(s) ==> FirstToken(s) == s
  {
    if s != "" && !Text.IsSpace(s[0]) {
      FirstTokenIsUnspaced(s[1..]);
      assert Unspaced(s) ==> Unspaced(s[1..]);
      assert s == [s[0]] + s[1..];
    }
  }

  lemma LoweringKeepsSpaces(s: string)
    ensures Unspaced(Text.Lower(s)) <==> Unspaced(s)
  {
    forall i | 0 <= i < |s| ensures Text.IsSpace(Text.Lower(s)[i]) <==> Text.IsSpace(s[i]) {
    }
    if !Unspaced(s) {
      var i :| 0 <= i < |s| && Text.IsSpace(s[i]);
      assert Text.Lower(s)[i] in Text.Lower(s);
    }
    if !Unspaced(Text.Lower(s)) {
      var i :| 0 <= i < |s| && Text.IsSpace(Text.Lower(s)[i]);
      assert s[i] in s;
    }
  }

  lemma {:induction false} OneLine(body: string)
    requires Unspaced(body)
    ensures SplitLines(body) == [body]
  {
    if body != "" {
      assert body[0] in body && !Text.IsSpace(body[0]) && Unspaced(body[1..]);
      OneLine(body[1..]);
      assert [body[0]] + body[1..] == body;
    }
  }

  lemma {:induction false} CarriedKeyIsTheSpelling(mapped: Pairs, order: seq<string>, key: string)
    requires FirstCarrying(mapped, order, key).Some?
    ensures var name := FirstCarrying(mapped, order, key).value;
            name in order && Get(mapped, name).Some? && LabelKey(Get(mapped, name).value) == key
  {
    if !(Get(mapped, order[0]).Some? && LabelKey(Get(mapped, order[0]).value) == key) {
      CarriedKeyIsTheSpelling(mapped, order[1..], key);
    }
  }

  /** A command is only ever issued by a line that begins with its word. */
  lemma {:induction false} IssuedByItsWord(commands: Pairs, lines: seq<string>, command: string)
    requires CommandOfLines(commands, lines) == Some(command)
    ensures Get(commands, command).Some?
    ensures exists line :: line in lines && !IndentedCode(line)
                           && FirstToken(LabelKey(line)) == LabelKey(Get(commands, command).value)
  {
    if CommandOfLine(commands, lines[0]).Some? {
      CarriedKeyIsTheSpelling(commands, COMMANDS, FirstToken(LabelKey(lines[0])));
      assert lines[0] in lines;
    } else {
      IssuedByItsWord(commands, lines[1..], command);
    }
  }

  /** Some comment issues the command. */
  ghost predicate Issuable(commands: Pairs, command: string) {
    exists body :: CommandOfLines(commands, Outside(SplitLines(body), None)) == Some(command)
  }

  /** A one-word spelling typed alone is one line, and its first token is all of it. */
  lemma AWordAloneIsItsToken(commands: Pairs, spelling: string)
    requires var word := Text.Trim(spelling); word != "" && word[0] == '/' && Unspaced(word)
    ensures CommandOfLines(commands, Outside(SplitLines(Text.Trim(spelling)), None))
              == FirstCarrying(commands, COMMANDS, LabelKey(spelling))
  {
    var word := Text.Trim(spelling);
    OneLine(word);
    Text.TrimmingTrimmed(spelling);
    LoweringKeepsSpaces(word);
    FirstTokenIsUnspaced(LabelKey(word));
    assert LabelKey(word) == LabelKey(spelling) && FirstToken(LabelKey(word)) == LabelKey(spelling) != "";
    ASlashStartsAnOrdinaryLine(word);
    assert [word][1..] == [];
    assert Outside([], None) == [];
    assert Outside([word], None) == [word];
    assert CommandOfLines(commands, []) == None;
  }

  lemma ASlashStartsAnOrdinaryLine(word: string)
    requires word != "" && word[0] == '/' && Text.Trim(word) == word
    ensures FenceOf(word).None? && !IndentedCode(word)
  {
    DifferentStart(word, "```");
    DifferentStart(word, "~~~");
    DifferentStart(word, "    ");
    DifferentStart(word, "\t");
    DifferentStart(word, " \t");
    DifferentStart(word, "  \t");
    DifferentStart(word, "   \t");
  }

  lemma DifferentStart(s: string, prefix: string)
    requires s != "" && prefix != "" && s[0] != prefix[0]
    ensures !Text.StartsWith(s, prefix)
  {
    assert |prefix| <= |s| ==> s[..|prefix|][0] == s[0];
  }

  /** The bare word, where it is one word, issues its own command. */
  lemma TheBareWordIssues(raw: RawFamily, command: string)
    requires ReadFamily(COMMAND_WORDS, raw).Accepted? && command in COMMANDS
    requires var own := Get(ReadFamily(COMMAND_WORDS, raw).value, command); own.Some? && Unspaced(Text.Trim(own.value))
    ensures var commands := ReadFamily(COMMAND_WORDS, raw).value;
            CommandOfLines(commands, Outside(SplitLines(Text.Trim(Get(commands, command).value)), None)) == Some(command)
  {
    var commands := ReadFamily(COMMAND_WORDS, raw).value;
    var spelling := Get(commands, command).value;
    OwnersAreTheEntries(COMMAND_WORDS, if raw.Entries? then raw.entries else []);
    assert Refusal(COMMAND_WORDS, command, Spelled(spelling)).None?;
    AWordAloneIsItsToken(commands, spelling);
    forall other | other in COMMANDS ensures SpellsApart(commands, command, other) {
      AFamilySpellsApart(COMMAND_WORDS, raw, command, other);
    }
    FirstCarryingIsTheOne(commands, COMMANDS, command);
  }

  /**
   * Acceptance asks only that a command begin with a slash, so it lets through one that no comment can issue: a
   * mapped command can be issued if and only if its spelling, trimmed, holds no space.
   */
  lemma IssuableIffOneWord(raw: RawFamily, command: string)
    requires ReadFamily(COMMAND_WORDS, raw).Accepted? && command in COMMANDS
    requires Get(ReadFamily(COMMAND_WORDS, raw).value, command).Some?
    ensures var commands := ReadFamily(COMMAND_WORDS, raw).value;
            Issuable(commands, command) <==> Unspaced(Text.Trim(Get(commands, command).value))
  {
    var commands := ReadFamily(COMMAND_WORDS, raw).value;
    var spelling := Get(commands, command).value;
    if Issuable(commands, command) {
      var body :| CommandOfLines(commands, Outside(SplitLines(body), None)) == Some(command);
      IssuedByItsWord(commands, Outside(SplitLines(body), None), command);
      var line :| line in Outside(SplitLines(body), None) && !IndentedCode(line)
                  && FirstToken(LabelKey(line)) == LabelKey(spelling);
      FirstTokenIsUnspaced(LabelKey(line));
      LoweringKeepsSpaces(Text.Trim(spelling));
    }
    if Unspaced(Text.Trim(spelling)) {
      TheBareWordIssues(raw, command);
    }
  }

  const SPACED := Entries([("assign", Spelled("/assign me"))])

  /** Such a spelling is accepted, and no comment issues it. */
  lemma ASpacedCommandIsAcceptedAndDead()
    ensures ReadFamily(COMMAND_WORDS, SPACED).Accepted?
    ensures Get(ReadFamily(COMMAND_WORDS, SPACED).value, "assign").Some?
    ensures !Issuable(ReadFamily(COMMAND_WORDS, SPACED).value, "assign")
  {
    var spelling := "/assign me";
    TrimIsWhole(spelling);
    assert Refusal(COMMAND_WORDS, "assign", Spelled(spelling)).None? by {
      assert COMMANDS[0] == "assign" && spelling[0] == '/' && !Text.IsSpace(spelling[0]);
    }
    assert SPACED.entries[..0] == [];
    assert FamilyOf(COMMAND_WORDS, SPACED.entries).entries == [("assign", spelling)];
    assert spelling[7] == ' ' && spelling[7] in spelling;
    IssuableIffOneWord(SPACED, "assign");
  }

  lemma TrimIsWhole(s: string)
    requires s != "" && !Text.IsSpace(s[0]) && !Text.IsSpace(s[|s| - 1])
    ensures Text.Trim(s) == s
  {
  }
}
