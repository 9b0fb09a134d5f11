/** Quoting text that a stranger wrote: one line of it, capped, in which nothing is markup and nobody is mentioned. */
module InertText {
  import Text

  const QUOTED_LIMIT := 120
  const ELLIPSIS := "\U{2026}"
  const ZERO_WIDTH_SPACE := '\U{200B}'

  /** Characters that markup gives a meaning of their own. */
  predicate IsActive(c: char) {
    || c == '\\' || c == '`' || c == '*' || c == '_' || c == '[' || c == ']' || c == '(' || c == ')'
    || c == '<' || c == '>' || c == '&' || c == '|' || c == '~' || c == '#' || c == '!'
  }

  /** Every run of white space as one space. */
  function Collapsed(s: string): string {
    if s == "" then ""
    else if !Text.IsSpace(s[0]) then [s[0]] + Collapsed(s[1..])
    else if |s| > 1 && Text.IsSpace(s[1]) then Collapsed(s[1..])
    else " " + Collapsed(s[1..])
  }

  function OneLine(s: string): string {
    Text.Trim(Collapsed(s))
  }

  function Capped(line: string): string {
    if |line| > QUOTED_LIMIT then line[..QUOTED_LIMIT] + ELLIPSIS else line
  }

  /** A character as written: escaped where active, and kept from linking where it begins a mention. */
  function Written(c: char): string {
    if IsActive(c) then ['\\', c] else if c == '@' then ['@', ZERO_WIDTH_SPACE] else [c]
  }

  function WrittenAll(s: string): string {
    if s == "" then "" else Written(s[0]) + WrittenAll(s[1..])
  }

  function Inert(text: string): string {
    WrittenAll(Capped(OneLine(text)))
  }

  // ----- It does nothing -----

  /** Read left to right, a backslash taking the next character with it, no active character or mention stands free. */
  predicate DoesNothing(s: string) {
    if s == "" then true
    else if s[0] == '\\' then |s| > 1 && IsActive(s[1]) && DoesNothing(s[2..])
    else if s[0] == '@' then |s| > 1 && s[1] == ZERO_WIDTH_SPACE && DoesNothing(s[2..])
    else !IsActive(s[0]) && DoesNothing(s[1..])
  }

  lemma {:induction false} WrittenDoesNothing(s: string)
    ensures DoesNothing(WrittenAll(s))
  {
    if s != "" {
      WrittenDoesNothing(s[1..]);
      var all, others := WrittenAll(s), WrittenAll(s[1..]);
      if IsActive(s[0]) || s[0] == '@' {
        assert all[0] == Written(s[0])[0] && all[1] == Written(s[0])[1] && all[2..] == others;
      } else {
        assert all[0] == s[0] && all[1..] == others;
      }
    }
  }

  lemma {:induction false} CollapsedIsOneLine(s: string)
    ensures forall c :: c in Collapsed(s) && Text.IsSpace(c) ==> c == ' '
    ensures forall i :: 0 < i < |Collapsed(s)| ==> Collapsed(s)[i - 1] != ' ' || Collapsed(s)[i] != ' '
    ensures Collapsed(s) != "" && Collapsed(s)[0] == ' ' ==> s != "" && Text.IsSpace(s[0])
  {
    if s != "" {
      CollapsedIsOneLine(s[1..]);
    }
  }

  lemma TrimKeepsWhatItHolds(s: string)
    ensures forall c :: c in Text.Trim(s) ==> c in s
  {
    Text.TrimStartHolds(s);
    Text.TrimEndHolds(Text.TrimStart(s));
  }

  lemma {:induction false} WrittenHolds(s: string, c: char)
    requires c in WrittenAll(s)
    ensures c in s || c == '\\' || c == ZERO_WIDTH_SPACE
  {
    if c !in Written(s[0]) {
      WrittenHolds(s[1..], c);
    }
  }

  /** Whatever is rendered stays on its line, escapes all that is active, and links nobody. */
  lemma RenderedDoesNothing(text: string)
    ensures DoesNothing(Inert(text))
    ensures forall c :: c in Inert(text) && Text.IsSpace(c) ==> c == ' '
  {
    WrittenDoesNothing(Capped(OneLine(text)));
    forall c | c in Inert(text) && Text.IsSpace(c) ensures c == ' ' {
      WrittenHolds(Capped(OneLine(text)), c);
      TrimKeepsWhatItHolds(Collapsed(text));
      CollapsedIsOneLine(text);
    }
  }

  // ----- It says what it was given -----

  /** What a reader sees: escapes and the mention's break taken away. */
  function Seen(s: string): string {
    if s == "" then ""
    else if s[0] == '\\' && |s| > 1 then [s[1]] + Seen(s[2..])
    else if s[0] == '@' && |s| > 1 && s[1] == ZERO_WIDTH_SPACE then "@" + Seen(s[2..])
    else [s[0]] + Seen(s[1..])
  }

  lemma {:induction false} WrittenIsSeen(s: string)
    ensures Seen(WrittenAll(s)) == s
  {
    if s != "" {
      WrittenIsSeen(s[1..]);
      var all, others := WrittenAll(s), WrittenAll(s[1..]);
      if IsActive(s[0]) || s[0] == '@' {
        assert all[0] == Written(s[0])[0] && all[1] == Written(s[0])[1] && all[2..] == others;
      } else {
        assert all[0] == s[0] && all[1..] == others;
      }
      assert s == [s[0]] + s[1..];
    }
  }

  /** Nothing the text says is lost to the escaping: a reader sees the line itself, or its first characters and that more was cut. */
  lemma RenderedSaysTheLine(text: string)
    ensures var line := OneLine(text);
            && |Seen(Inert(text))| <= QUOTED_LIMIT + 1
            && (|line| <= QUOTED_LIMIT ==> Seen(Inert(text)) == line)
            && (|line| > QUOTED_LIMIT ==> Seen(Inert(text)) == line[..QUOTED_LIMIT] + ELLIPSIS)
  {
    WrittenIsSeen(Capped(OneLine(text)));
  }

  /** Two texts are rendered alike if and only if their capped lines are one. */
  lemma RenderingIsFaithful(a: string, b: string)
    ensures Inert(a) == Inert(b) <==> Capped(OneLine(a)) == Capped(OneLine(b))
  {
    WrittenIsSeen(Capped(OneLine(a)));
    WrittenIsSeen(Capped(OneLine(b)));
  }
}
