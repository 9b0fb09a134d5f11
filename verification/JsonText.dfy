/**
 * JSON as the platform writes and reads it: values, the compact text `JSON.stringify` prints, and a reader for the
 * grammar of RFC 8259 (sections 2 to 7) whose numbers have no exponent.
 */
module JsonText {
  import opened Wrappers
  import Words = Text

  datatype Json =
    | Null
    | Bool(value: bool)
    | Number(decimal: Decimal)
    | Text(text: string)
    | Array(items: Items)
    | Object(fields: Fields)

  /** The digits after a decimal point, of which the last is no zero. */
  predicate IsPlaces(s: string) {
    s != "" && AllDigits(s) && s[|s| - 1] != '0'
  }

  type Places = s: string | IsPlaces(s) witness "5"

  /** A number as its shortest decimal spells it. */
  datatype Decimal = Whole(whole: int) | Fraction(negative: bool, units: nat, places: Places)

  predicate Positive(d: Decimal) {
    if d.Whole? then d.whole > 0 else !d.negative
  }

  datatype Items = NoItems | Item(head: Json, rest: Items)

  datatype Fields = NoFields | Field(name: string, value: Json, rest: Fields)

  // ----- Printing -----

  function HexDigit(n: nat): (c: char)
    requires n < 16
    ensures HexValue(c) == Some(n)
  {
    if n < 10 then '0' + n as char else 'a' + (n - 10) as char
  }

  function HexValue(c: char): (n: Option<nat>)
    ensures n.Some? ==> n.value < 16
  {
    if '0' <= c <= '9' then Some((c - '0') as nat)
    else if 'a' <= c <= 'f' then Some((c - 'a') as nat + 10)
    else if 'A' <= c <= 'F' then Some((c - 'A') as nat + 10)
    else None
  }

  function Escaped(c: char): string {
    if c == '"' then "\\\""
    else if c == '\\' then "\\\\"
    else if c == 8 as char then "\\b"
    else if c == 9 as char then "\\t"
    else if c == 10 as char then "\\n"
    else if c == 12 as char then "\\f"
    else if c == 13 as char then "\\r"
    else if c < ' ' then "\\u00" + [HexDigit(c as nat / 16), HexDigit(c as nat % 16)]
    else [c]
  }

  function EscapedAll(s: string): string {
    if s == "" then "" else Escaped(s[0]) + EscapedAll(s[1..])
  }

  function Quoted(s: string): string {
    "\"" + EscapedAll(s) + "\""
  }

  function Digits(n: nat): (digits: string)
    ensures digits != "" && forall c :: c in digits ==> '0' <= c <= '9'
    ensures n > 0 ==> digits[0] != '0'
  {
    if n < 10 then ['0' + n as char] else Digits(n / 10) + ['0' + (n % 10) as char]
  }

  predicate Negative(d: Decimal) {
    if d.Whole? then d.whole < 0 else d.negative
  }

  function UnitsOf(d: Decimal): nat {
    if d.Fraction? then d.units else if d.whole < 0 then -d.whole else d.whole
  }

  function PlacesOf(d: Decimal): (places: string)
    ensures IsPlaces(places) || places == ""
  {
    if d.Fraction? then d.places else ""
  }

  /** What stands after the units of a printed number. */
  function Tail(places: string): string {
    if places == "" then "" else "." + places
  }

  function PrintedUnsigned(units: nat, places: string): string {
    Digits(units) + Tail(places)
  }

  function PrintedDecimal(d: Decimal): string {
    var unsigned := PrintedUnsigned(UnitsOf(d), PlacesOf(d));
    if Negative(d) then "-" + unsigned else unsigned
  }

  function Printed(json: Json): string {
    match json
    case Null => "null"
    case Bool(value) => if value then "true" else "false"
    case Number(decimal) => PrintedDecimal(decimal)
    case Text(text) => Quoted(text)
    case Array(items) => "[" + PrintedItems(items) + "]"
    case Object(fields) => "{" + PrintedFields(fields) + "}"
  }

  function PrintedItems(items: Items): string {
    match items
    case NoItems => ""
    case Item(head, rest) => if rest.NoItems? then Printed(head) else Printed(head) + ("," + PrintedItems(rest))
  }

  function PrintedFields(fields: Fields): string {
    match fields
    case NoFields => ""
    case Field(name, value, rest) =>
      var one := Quoted(name) + ":" + Printed(value);
      if rest.NoFields? then one else one + ("," + PrintedFields(rest))
  }

  // ----- Reading -----

  /** What was read, and the text still to read. */
  datatype Read<T> = Read(value: T, rest: string) | Unreadable

  predicate IsJsonSpace(c: char) {
    c as int == 0x20 || c as int == 0x09 || c as int == 0x0A || c as int == 0x0D
  }

  function Skip(s: string): (rest: string)
    ensures |rest| <= |s|
    ensures rest != "" ==> !IsJsonSpace(rest[0])
  {
    if s != "" && IsJsonSpace(s[0]) then Skip(s[1..]) else s
  }

  /** The four hexadecimal digits at the front of `s`, as a code unit. */
  function FourHex(s: string): (code: Option<nat>)
    ensures code.Some? ==> |s| >= 4 && code.value < 0x1_0000
  {
    if |s| < 4 then None
    else
      var a, b, c, d := HexValue(s[0]), HexValue(s[1]), HexValue(s[2]), HexValue(s[3]);
      if a.Some? && b.Some? && c.Some? && d.Some?
      then Some(a.value * 4096 + b.value * 256 + c.value * 16 + d.value) else None
  }

  /** One character of a string literal, escaped or not; a quotation mark ends the literal instead. */
  function ReadChar(s: string): (read: Read<char>)
    requires s != "" && s[0] != '"'
    ensures read.Read? ==> |read.rest| < |s|
  {
    if s[0] < ' ' then Unreadable
    else if s[0] != '\\' then Read(s[0], s[1..])
    else if |s| < 2 then Unreadable
    else
      match s[1]
      case '"' => Read('"', s[2..])
      case '\\' => Read('\\', s[2..])
      case '/' => Read('/', s[2..])
      case 'b' => Read(8 as char, s[2..])
      case 't' => Read(9 as char, s[2..])
      case 'n' => Read(10 as char, s[2..])
      case 'f' => Read(12 as char, s[2..])
      case 'r' => Read(13 as char, s[2..])
      case 'u' =>
        var code := FourHex(s[2..]);
        if code.None? || 0xD800 <= code.value < 0xE000 then Unreadable else Read(code.value as char, s[6..])
      case _ => Unreadable
  }

  /** The rest of a string literal, from after its opening quotation mark. */
  function ReadChars(s: string): (read: Read<string>)
    ensures read.Read? ==> |read.rest| < |s|
    decreases |s|
  {
    if s == "" then Unreadable
    else if s[0] == '"' then Read("", s[1..])
    else
      var first := ReadChar(s);
      if first.Unreadable? then Unreadable
      else
        var others := ReadChars(first.rest);
        if others.Unreadable? then Unreadable else Read([first.value] + others.value, others.rest)
  }

  predicate IsDigit(c: char) {
    '0' <= c <= '9'
  }

  predicate AllDigits(s: string) {
    forall c :: c in s ==> IsDigit(c)
  }

  /** The digits at the front of `s`. */
  function DigitRun(s: string): (run: string)
    ensures |run| <= |s| && run == s[..|run|] && AllDigits(run)
    ensures |run| < |s| ==> !IsDigit(s[|run|])
  {
    if s != "" && IsDigit(s[0]) then [s[0]] + DigitRun(s[1..]) else ""
  }

  function WithoutTrailingZeros(s: string): (kept: string)
    requires AllDigits(s)
    ensures kept == "" || IsPlaces(kept)
    ensures s != "" && s[|s| - 1] != '0' ==> kept == s
  {
    if s != "" && s[|s| - 1] == '0' then WithoutTrailingZeros(s[..|s| - 1]) else s
  }

  /** A decimal point and the digits after it, or neither. */
  function ReadPlaces(s: string): (read: Read<string>)
    ensures read.Read? ==> |read.rest| <= |s|
    ensures read.Read? ==> read.value == "" || IsPlaces(read.value)
  {
    if s == "" || s[0] != '.' then Read("", s)
    else
      var run := DigitRun(s[1..]);
      if run == "" then Unreadable else Read(WithoutTrailingZeros(run), s[1 + |run|..])
  }

  function ReadDigits(s: string, sofar: nat): (read: Read<nat>)
    ensures read.Read? && |read.rest| <= |s|
  {
    if s != "" && IsDigit(s[0]) then ReadDigits(s[1..], sofar * 10 + (s[0] - '0') as nat) else Read(sofar, s)
  }

  /** A natural number without leading zeros. */
  function ReadNatural(s: string): (read: Read<nat>)
    ensures read.Read? ==> |read.rest| < |s|
  {
    if s == "" || !IsDigit(s[0]) then Unreadable
    else if s[0] == '0' then Read(0, s[1..])
    else ReadDigits(s[1..], (s[0] - '0') as nat)
  }

  function ReadNumber(s: string): (read: Read<Json>)
    ensures read.Read? ==> |read.rest| < |s|
  {
    var negative := s != "" && s[0] == '-';
    var natural := ReadNatural(if negative then s[1..] else s);
    if natural.Unreadable? then Unreadable
    else
      var places := ReadPlaces(natural.rest);
      if places.Unreadable? then Unreadable
      else Read(Number(DecimalOf(negative, natural.value, places.value)), places.rest)
  }

  function DecimalOf(negative: bool, units: nat, places: string): Decimal
    requires places == "" || IsPlaces(places)
  {
    if places != "" then Fraction(negative, units, places)
    else if negative then Whole(0 - units)
    else Whole(units)
  }

  function ReadLiteral(s: string): (read: Read<Json>)
    ensures read.Read? ==> |read.rest| < |s|
  {
    if Words.StartsWith(s, "null") then Read(Null, s[4..])
    else if Words.StartsWith(s, "true") then Read(Bool(true), s[4..])
    else if Words.StartsWith(s, "false") then Read(Bool(false), s[5..])
    else Unreadable
  }

  function ReadText(s: string): (read: Read<Json>)
    requires s != ""
    ensures read.Read? ==> |read.rest| < |s|
  {
    var text := ReadChars(s[1..]);
    if text.Unreadable? then Unreadable else Read(Text(text.value), text.rest)
  }

  function ReadValue(s: string): (read: Read<Json>)
    ensures read.Read? ==> |read.rest| < |s|
    decreases |s|, 0
  {
    if s == "" then Unreadable
    else if s[0] == '"' then ReadText(s)
    else if s[0] == '[' then ReadArray(Skip(s[1..]))
    else if s[0] == '{' then ReadObject(Skip(s[1..]))
    else if s[0] == '-' || IsDigit(s[0]) then ReadNumber(s)
    else ReadLiteral(s)
  }

  /** An array, from after its opening bracket. */
  function ReadArray(s: string): (read: Read<Json>)
    ensures read.Read? ==> |read.rest| < |s|
    decreases |s|, 2
  {
    if s != "" && s[0] == ']' then Read(Array(NoItems), s[1..])
    else
      var items := ReadItems(s);
      if items.Unreadable? then Unreadable else Read(Array(items.value), items.rest)
  }

  /** An object, from after its opening brace. */
  function ReadObject(s: string): (read: Read<Json>)
    ensures read.Read? ==> |read.rest| < |s|
    decreases |s|, 2
  {
    if s != "" && s[0] == '}' then Read(Object(NoFields), s[1..])
    else
      var fields := ReadFields(s);
      if fields.Unreadable? then Unreadable else Read(Object(fields.value), fields.rest)
  }

  /** One or more items and the bracket that ends them. */
  function ReadItems(s: string): (read: Read<Items>)
    ensures read.Read? ==> |read.rest| < |s|
    decreases |s|, 1
  {
    var head := ReadValue(s);
    if head.Unreadable? then Unreadable
    else
      var after := Skip(head.rest);
      if after == "" then Unreadable
      else if after[0] == ']' then Read(Item(head.value, NoItems), after[1..])
      else if after[0] == ',' then
        var others := ReadItems(Skip(after[1..]));
        if others.Unreadable? then Unreadable else Read(Item(head.value, others.value), others.rest)
      else Unreadable
  }

  /** A field's name and the colon after it. */
  function ReadName(s: string): (read: Read<string>)
    ensures read.Read? ==> |read.rest| < |s|
  {
    if s == "" || s[0] != '"' then Unreadable
    else
      var name := ReadChars(s[1..]);
      if name.Unreadable? then Unreadable
      else
        var after := Skip(name.rest);
        if after != "" && after[0] == ':' then Read(name.value, Skip(after[1..])) else Unreadable
  }

  /** One or more fields and the brace that ends them. */
  function ReadFields(s: string): (read: Read<Fields>)
    ensures read.Read? ==> |read.rest| < |s|
    decreases |s|, 1
  {
    var name := ReadName(s);
    if name.Unreadable? then Unreadable
    else
      var value := ReadValue(name.rest);
      if value.Unreadable? then Unreadable else ReadMoreFields(name.value, value.value, Skip(value.rest))
  }

  /** What follows a field: the brace, or a comma and more fields. */
  function ReadMoreFields(name: string, value: Json, after: string): (read: Read<Fields>)
    ensures read.Read? ==> |read.rest| < |after|
    decreases |after|, 2
  {
    if after == "" then Unreadable
    else if after[0] == '}' then Read(Field(name, value, NoFields), after[1..])
    else if after[0] == ',' then
      var others := ReadFields(Skip(after[1..]));
      if others.Unreadable? then Unreadable else Read(Field(name, value, others.value), others.rest)
    else Unreadable
  }

  /** A whole text: one value with nothing but white space about it. */
  function Parse(s: string): Option<Json> {
    var read := ReadValue(Skip(s));
    if read.Read? && Skip(read.rest) == "" then Some(read.value) else None
  }

  // ----- Reading back what was printed -----

  lemma ReadsEscaped(c: char, after: string)
    ensures var text := Escaped(c) + after;
            text[0] != '"' && ReadChar(text) == Read(c, after)
  {
    var text := Escaped(c) + after;
    if c < ' ' && |Escaped(c)| == 6 {
      assert text[2..][..4] == Escaped(c)[2..];
      assert text[2..][0] == '0' && text[2..][1] == '0';
      assert text[2..][2] == HexDigit(c as nat / 16) && text[2..][3] == HexDigit(c as nat % 16);
      assert FourHex(text[2..]) == Some(c as nat);
      assert text[6..] == after;
    } else if |Escaped(c)| == 2 {
      assert text[2..] == after;
    } else {
      assert text[1..] == after;
    }
  }

  lemma EscapedSplits(s: string, after: string)
    requires s != ""
    ensures EscapedAll(s) + "\"" + after == Escaped(s[0]) + (EscapedAll(s[1..]) + "\"" + after)
  {
  }

  lemma {:induction false} ReadsQuoted(s: string, after: string)
    ensures ReadChars(EscapedAll(s) + "\"" + after) == Read(s, after)
  {
    if s == "" {
      var text := EscapedAll(s) + "\"" + after;
      assert text[0] == '"' && text[1..] == after;
    } else {
      var others := EscapedAll(s[1..]) + "\"" + after;
      EscapedSplits(s, after);
      ReadsEscaped(s[0], others);
      ReadsQuoted(s[1..], after);
      ReadsOneMore(s[0], Escaped(s[0]) + others, others, s[1..], after);
      assert [s[0]] + s[1..] == s;
    }
  }

  lemma ReadsOneMore(c: char, text: string, others: string, s: string, after: string)
    requires text != "" && text[0] != '"' && ReadChar(text) == Read(c, others) && ReadChars(others) == Read(s, after)
    ensures ReadChars(text) == Read([c] + s, after)
  {
  }

  lemma {:induction false} ReadsDigits(n: nat, after: string)
    ensures ReadDigits(Digits(n) + after, 0) == ReadDigits(after, n)
  {
    if n < 10 {
      assert (Digits(n) + after)[1..] == after;
    } else {
      var last := ['0' + (n % 10) as char];
      assert Digits(n) + after == Digits(n / 10) + (last + after);
      ReadsDigits(n / 10, last + after);
      assert (last + after)[1..] == after;
    }
  }

  lemma {:induction false} ReadsOneDigitMore(s: string, c: char, sofar: nat)
    requires AllDigits(s) && IsDigit(c)
    ensures ReadDigits(s + [c], sofar) == Read(ReadDigits(s, sofar).value * 10 + (c - '0') as nat, "")
    ensures ReadDigits(s, sofar).rest == ""
    ensures ReadDigits(s, sofar).value >= sofar
  {
    if s == "" {
      assert (s + [c])[1..] == "";
    } else {
      assert s[0] in s && (forall d :: d in s[1..] ==> d in s) && (s + [c])[1..] == s[1..] + [c];
      ReadsOneDigitMore(s[1..], c, sofar * 10 + (s[0] - '0') as nat);
    }
  }

  lemma DigitsStep(n: nat, digit: nat)
    requires n > 0 && digit < 10
    ensures Digits(n * 10 + digit) == Digits(n) + ['0' + digit as char]
  {
    assert (n * 10 + digit) / 10 == n && (n * 10 + digit) % 10 == digit;
  }

  lemma OneDigitAlone(c: char)
    requires IsDigit(c)
    ensures ReadDigits([c], 0).value == (c - '0') as nat && Digits((c - '0') as nat) == [c]
  {
    assert [c][1..] == "";
  }

  lemma FrontAndLast(s: string)
    requires |s| > 1 && AllDigits(s) && s[0] != '0'
    ensures var front := s[..|s| - 1];
            front != "" && AllDigits(front) && front[0] != '0' && IsDigit(s[|s| - 1]) && s == front + [s[|s| - 1]]
  {
    assert s[|s| - 1] in s && forall d :: d in s[..|s| - 1] ==> d in s;
  }

  /** Digits without a leading zero are how their number is written. */
  lemma {:induction false} DigitsOfRead(s: string)
    requires s != "" && AllDigits(s) && (s[0] == '0' ==> s == "0")
    ensures Digits(ReadDigits(s, 0).value) == s
    ensures ReadDigits(s, 0).value == 0 ==> s == "0"
  {
    if |s| == 1 {
      assert s[0] in s && s == [s[0]];
      OneDigitAlone(s[0]);
    } else {
      var front, last := s[..|s| - 1], s[|s| - 1];
      FrontAndLast(s);
      DigitsOfRead(front);
      ReadsOneDigitMore(front, last, 0);
      DigitsStep(ReadDigits(front, 0).value, (last - '0') as nat);
    }
  }

  /** No number could go on with this text. */
  predicate EndsNumber(after: string) {
    after == "" || (!IsDigit(after[0]) && after[0] != '.')
  }

  lemma ReadsNatural(n: nat, after: string)
    requires after == "" || !IsDigit(after[0])
    ensures ReadNatural(Digits(n) + after) == Read(n, after)
  {
    ReadsDigits(n, after);
    var text := Digits(n) + after;
    assert text[0] == Digits(n)[0];
    if n == 0 {
      assert text[1..] == after;
    }
  }

  /** What a printed value begins with. */
  lemma FirstPrinted(json: Json)
    ensures Printed(json) != "" && !IsJsonSpace(Printed(json)[0])
    ensures Printed(json)[0] != ']' && Printed(json)[0] != '}'
    ensures json.Object? <==> Printed(json)[0] == '{'
  {
    if json.Number? {
      FirstOfDecimal(json.decimal);
    }
  }

  lemma FirstOfDecimal(d: Decimal)
    ensures var text := PrintedDecimal(d); text != "" && (text[0] == '-' || IsDigit(text[0]))
  {
    var digits := Digits(UnitsOf(d));
    assert digits[0] in digits;
  }

  lemma {:induction false} RunsOut(places: string, after: string)
    requires AllDigits(places) && EndsNumber(after)
    ensures DigitRun(places + after) == places
  {
    var text := places + after;
    if places != "" {
      assert places[0] in places && text[0] == places[0] && text[1..] == places[1..] + after;
      RunsOut(places[1..], after);
    }
  }

  lemma ReadsPlaces(places: string, after: string)
    requires (places == "" || IsPlaces(places)) && EndsNumber(after)
    ensures ReadPlaces(Tail(places) + after) == Read(places, after)
  {
    if places == "" {
      assert Tail(places) + after == after;
    } else {
      var text := Tail(places) + after;
      assert text[0] == '.' && text[1..] == places + after;
      RunsOut(places, after);
      assert text[1 + |places|..] == after;
    }
  }

  lemma ReadsUnits(units: nat, rest: string)
    requires rest == "" || !IsDigit(rest[0])
    ensures ReadNatural(Digits(units) + rest) == Read(units, rest)
    ensures IsDigit((Digits(units) + rest)[0])
  {
    ReadsNatural(units, rest);
    var digits := Digits(units);
    assert digits[0] in digits && (digits + rest)[0] == digits[0];
  }

  lemma ReadsUnsigned(units: nat, places: string, after: string)
    requires (places == "" || IsPlaces(places)) && EndsNumber(after)
    ensures var text := PrintedUnsigned(units, places) + after;
            && text != "" && IsDigit(text[0])
            && ReadNatural(text) == Read(units, Tail(places) + after)
            && ReadPlaces(Tail(places) + after) == Read(places, after)
  {
    var digits, rest := Digits(units), Tail(places) + after;
    assert digits + Tail(places) + after == digits + rest;
    assert rest == "" || !IsDigit(rest[0]) by {
      assert places == "" ==> rest == after;
    }
    ReadsUnits(units, rest);
    ReadsPlaces(places, after);
  }

  /** A number reads alike with and without its sign. */
  lemma ReadsSigned(text: string, units: nat, places: string, after: string)
    requires text != "" && IsDigit(text[0]) && ReadNatural(text).Read? && ReadNatural(text).value == units
    requires ReadPlaces(ReadNatural(text).rest) == Read(places, after)
    ensures ReadValue(text) == Read(Number(DecimalOf(false, units, places)), after)
    ensures ReadValue(['-'] + text) == Read(Number(DecimalOf(true, units, places)), after)
  {
    assert (['-'] + text)[1..] == text;
  }

  lemma SignComesFirst(unsigned: string, after: string)
    ensures "-" + unsigned + after == ['-'] + (unsigned + after)
  {
  }

  lemma PrintedNumberSplits(d: Decimal, after: string)
    ensures var text := PrintedUnsigned(UnitsOf(d), PlacesOf(d)) + after;
            Printed(Number(d)) + after == if Negative(d) then ['-'] + text else text
  {
    SignComesFirst(PrintedUnsigned(UnitsOf(d), PlacesOf(d)), after);
  }

  lemma DecimalFromItsParts(d: Decimal)
    ensures DecimalOf(Negative(d), UnitsOf(d), PlacesOf(d)) == d
  {
  }

  lemma ReadsPrintedNumber(d: Decimal, after: string)
    requires EndsNumber(after)
    ensures ReadValue(Printed(Number(d)) + after) == Read(Number(d), after)
  {
    ReadsUnsigned(UnitsOf(d), PlacesOf(d), after);
    ReadsSigned(PrintedUnsigned(UnitsOf(d), PlacesOf(d)) + after, UnitsOf(d), PlacesOf(d), after);
    PrintedNumberSplits(d, after);
    DecimalFromItsParts(d);
  }

  lemma ReadsPrintedLiteral(json: Json, after: string)
    requires json.Null? || json.Bool?
    ensures ReadValue(Printed(json) + after) == Read(json, after)
  {
    var word := Printed(json);
    var text := word + after;
    assert text[..|word|] == word && text[|word|..] == after;
    assert text[0] == word[0];
    assert |text| >= 4 && text[..4] == word[..4];
    assert ReadLiteral(text) == Read(json, after);
  }

  lemma ReadsPrintedText(s: string, after: string)
    ensures ReadValue(Quoted(s) + after) == Read(Text(s), after)
  {
    var text := Quoted(s) + after;
    assert text[0] == '"' && text[1..] == EscapedAll(s) + "\"" + after;
    ReadsQuoted(s, after);
  }

  /** Printed text reads back as the value printed, and reading stops where the printing did. */
  lemma {:induction false} ReadsPrinted(json: Json, after: string)
    requires json.Number? ==> EndsNumber(after)
    ensures ReadValue(Printed(json) + after) == Read(json, after)
    decreases json, 0
  {
    match json
    case Text(s) => ReadsPrintedText(s, after);
    case Number(decimal) => ReadsPrintedNumber(decimal, after);
    case Array(items) => ReadsPrintedArray(items, after);
    case Object(fields) => ReadsPrintedObject(fields, after);
    case _ => ReadsPrintedLiteral(json, after);
  }

  lemma ReadsGroup(opening: char, inside: string)
    requires opening == '[' || opening == '{'
    requires inside != "" && !IsJsonSpace(inside[0])
    ensures ReadValue([opening] + inside) == if opening == '[' then ReadArray(inside) else ReadObject(inside)
  {
    var text := [opening] + inside;
    assert text[0] == opening && text[1..] == inside && Skip(inside) == inside;
  }

  lemma PrintedGroups(items: Items, fields: Fields, after: string)
    ensures Printed(Array(items)) + after == ['['] + (PrintedItems(items) + "]" + after)
    ensures Printed(Object(fields)) + after == ['{'] + (PrintedFields(fields) + "}" + after)
  {
  }

  lemma {:induction false} ReadsPrintedArray(items: Items, after: string)
    ensures ReadValue(Printed(Array(items)) + after) == Read(Array(items), after)
    decreases items, 2
  {
    ReadsPrintedItemsInside(items, after);
    ReadsGroup('[', PrintedItems(items) + "]" + after);
    PrintedGroups(items, NoFields, after);
  }

  lemma {:induction false} ReadsPrintedItemsInside(items: Items, after: string)
    ensures var inside := PrintedItems(items) + "]" + after;
            inside != "" && !IsJsonSpace(inside[0]) && ReadArray(inside) == Read(Array(items), after)
    decreases items, 1
  {
    var inside := PrintedItems(items) + "]" + after;
    if items.NoItems? {
      assert inside == [']'] + after;
      assert inside[0] == ']' && inside[1..] == after;
    } else {
      ReadsPrintedItems(items, after);
      FirstPrinted(items.head);
      assert inside[0] == Printed(items.head)[0];
    }
  }

  lemma {:induction false} ReadsPrintedObject(fields: Fields, after: string)
    ensures ReadValue(Printed(Object(fields)) + after) == Read(Object(fields), after)
    decreases fields, 2
  {
    ReadsPrintedFieldsInside(fields, after);
    ReadsGroup('{', PrintedFields(fields) + "}" + after);
    PrintedGroups(NoItems, fields, after);
  }

  lemma {:induction false} ReadsPrintedFieldsInside(fields: Fields, after: string)
    ensures var inside := PrintedFields(fields) + "}" + after;
            inside != "" && !IsJsonSpace(inside[0]) && ReadObject(inside) == Read(Object(fields), after)
    decreases fields, 1
  {
    var inside := PrintedFields(fields) + "}" + after;
    if fields.NoFields? {
      assert inside == ['}'] + after;
      assert inside[0] == '}' && inside[1..] == after;
    } else {
      ReadsPrintedFields(fields, after);
      assert inside[0] == Quoted(fields.name)[0] == '"';
    }
  }

  lemma {:induction false} ReadsPrintedItems(items: Items, after: string)
    requires items.Item?
    ensures ReadItems(PrintedItems(items) + "]" + after) == Read(items, after)
    decreases items, 0
  {
    var tail := if items.rest.NoItems? then "]" + after else "," + (PrintedItems(items.rest) + "]" + after);
    assert PrintedItems(items) + "]" + after == Printed(items.head) + tail;
    ReadsPrinted(items.head, tail);
    if items.rest.Item? {
      FirstPrinted(items.rest.head);
      assert (PrintedItems(items.rest) + "]" + after)[0] == Printed(items.rest.head)[0];
      assert tail[1..] == PrintedItems(items.rest) + "]" + after;
      ReadsPrintedItems(items.rest, after);
    } else {
      assert tail[1..] == after;
    }
  }

  lemma ReadsPrintedName(name: string, after: string)
    requires after != "" && !IsJsonSpace(after[0])
    ensures ReadName(Quoted(name) + ":" + after) == Read(name, after)
  {
    var text := Quoted(name) + ":" + after;
    assert text[1..] == EscapedAll(name) + "\"" + (":" + after);
    ReadsQuoted(name, ":" + after);
    assert (":" + after)[1..] == after;
  }

  /** A separator and what it separates, or the end. */
  function FieldsTail(rest: Fields, after: string): string {
    if rest.NoFields? then "}" + after else "," + (PrintedFields(rest) + "}" + after)
  }

  lemma PrintedFieldsSplits(fields: Fields, after: string)
    requires fields.Field?
    ensures PrintedFields(fields) + "}" + after
              == Quoted(fields.name) + ":" + (Printed(fields.value) + FieldsTail(fields.rest, after))
  {
    JoinedFields(Quoted(fields.name), Printed(fields.value), PrintedFields(fields.rest), after);
  }

  lemma JoinedFields(name: string, value: string, others: string, after: string)
    ensures name + ":" + value + "}" + after == name + ":" + (value + ("}" + after))
    ensures name + ":" + value + ("," + others) + "}" + after == name + ":" + (value + ("," + (others + "}" + after)))
  {
  }

  /** One field read, and then what its separator says is left. */
  lemma ReadFieldsStep(s: string, name: string, valued: string, value: Json, separator: char, others: string)
    requires ReadName(s) == Read(name, valued) && ReadValue(valued) == Read(value, [separator] + others)
    requires separator == ',' ==> others != "" && !IsJsonSpace(others[0])
    ensures separator == '}' ==> ReadFields(s) == Read(Field(name, value, NoFields), others)
    ensures separator == ',' && ReadFields(others).Read? ==>
              ReadFields(s) == Read(Field(name, value, ReadFields(others).value), ReadFields(others).rest)
  {
    var tail := [separator] + others;
    assert tail[1..] == others;
    if separator == '}' || separator == ',' {
      assert Skip(tail) == tail;
    }
  }

  lemma {:induction false} ReadsPrintedField(name: string, value: Json, tail: string)
    requires tail != "" && EndsNumber(tail)
    ensures var valued := Printed(value) + tail;
            ReadName(Quoted(name) + ":" + valued) == Read(name, valued) && ReadValue(valued) == Read(value, tail)
    decreases value, 1
  {
    var valued := Printed(value) + tail;
    FirstPrinted(value);
    assert valued[0] == Printed(value)[0];
    ReadsPrintedName(name, valued);
    ReadsPrinted(value, tail);
  }

  lemma {:induction false} ReadsPrintedFields(fields: Fields, after: string)
    requires fields.Field?
    ensures ReadFields(PrintedFields(fields) + "}" + after) == Read(fields, after)
    decreases fields, 0
  {
    var text, tail := PrintedFields(fields) + "}" + after, FieldsTail(fields.rest, after);
    var valued := Printed(fields.value) + tail;
    PrintedFieldsSplits(fields, after);
    ReadsPrintedField(fields.name, fields.value, tail);
    if fields.rest.Field? {
      var others := PrintedFields(fields.rest) + "}" + after;
      PrintedFieldsSplits(fields.rest, after);
      assert others[0] == Quoted(fields.rest.name)[0] == '"';
      ReadsPrintedFields(fields.rest, after);
      ReadFieldsStep(text, fields.name, valued, fields.value, ',', others);
    } else {
      ReadFieldsStep(text, fields.name, valued, fields.value, '}', after);
    }
  }

  /** The round trip, and with it that no two values print alike. */
  lemma ParseInvertsPrinting(json: Json)
    ensures Parse(Printed(json)) == Some(json)
  {
    FirstPrinted(json);
    assert Printed(json) + "" == Printed(json);
    ReadsPrinted(json, "");
  }

  lemma PrintingIsInjective(a: Json, b: Json)
    ensures Printed(a) == Printed(b) <==> a == b
  {
    ParseInvertsPrinting(a);
    ParseInvertsPrinting(b);
  }

  // ----- What a decimal is worth -----

  /** The digits after a decimal point, as a part of one. */
  function PlacesValue(s: string): (value: real)
    requires AllDigits(s)
    ensures 0.0 <= value < 1.0
    ensures IsPlaces(s) ==> value > 0.0
  {
    if s == "" then 0.0
    else
      assert s[0] in s && forall c :: c in s[1..] ==> c in s;
      ((s[0] - '0') as int as real + PlacesValue(s[1..])) / 10.0
  }

  function ValueOf(d: Decimal): real {
    var size := UnitsOf(d) as real + PlacesValue(PlacesOf(d));
    if Negative(d) then 0.0 - size else size
  }

  lemma OneWholePart(m: int, p: real, n: int, q: real)
    requires 0.0 <= p < 1.0 && 0.0 <= q < 1.0 && m as real + p == n as real + q
    ensures m == n && p == q
  {
  }

  lemma {:induction false} PlacesAreDistinct(a: string, b: string)
    requires (a == "" || IsPlaces(a)) && (b == "" || IsPlaces(b)) && PlacesValue(a) == PlacesValue(b)
    ensures a == b
  {
    if a != "" && b != "" {
      RestIsPlaces(a);
      RestIsPlaces(b);
      OneWholePart((a[0] - '0') as int, PlacesValue(a[1..]), (b[0] - '0') as int, PlacesValue(b[1..]));
      PlacesAreDistinct(a[1..], b[1..]);
      assert a == [a[0]] + a[1..] && b == [b[0]] + b[1..];
    }
  }

  lemma RestIsPlaces(s: string)
    requires IsPlaces(s)
    ensures IsDigit(s[0]) && (s[1..] == "" || IsPlaces(s[1..]))
    ensures PlacesValue(s) == ((s[0] - '0') as int as real + PlacesValue(s[1..])) / 10.0
    ensures PlacesValue(s) > 0.0
  {
    assert s[0] in s && forall c :: c in s[1..] ==> c in s;
  }

  lemma SizesAreDistinct(a: Decimal, b: Decimal)
    requires UnitsOf(a) as real + PlacesValue(PlacesOf(a)) == UnitsOf(b) as real + PlacesValue(PlacesOf(b))
    ensures UnitsOf(a) == UnitsOf(b) && PlacesOf(a) == PlacesOf(b)
  {
    OneWholePart(UnitsOf(a), PlacesValue(PlacesOf(a)), UnitsOf(b), PlacesValue(PlacesOf(b)));
    PlacesAreDistinct(PlacesOf(a), PlacesOf(b));
  }

  lemma Positives(d: Decimal)
    ensures Positive(d) <==> ValueOf(d) > 0.0
    ensures Negative(d) <==> ValueOf(d) < 0.0
  {
    assert d.Fraction? ==> PlacesValue(d.places) > 0.0;
    assert d.Whole? ==> PlacesValue(PlacesOf(d)) == 0.0;
  }

  /** A value has one decimal, and so one text that is printed for it. */
  lemma DecimalsAreDistinct(a: Decimal, b: Decimal)
    ensures ValueOf(a) == ValueOf(b) <==> a == b
  {
    Positives(a);
    Positives(b);
    if ValueOf(a) == ValueOf(b) {
      SizesAreDistinct(a, b);
      DecimalFromItsParts(a);
      DecimalFromItsParts(b);
    }
  }

  // ----- Reading does not look ahead -----

  lemma SkipExtends(s: string, more: string)
    requires Skip(s) != ""
    ensures Skip(s + more) == Skip(s) + more
  {
    if IsJsonSpace(s[0]) {
      assert (s + more)[1..] == s[1..] + more;
      SkipExtends(s[1..], more);
    }
  }

  lemma ReadCharExtends(s: string, more: string)
    requires s != "" && s[0] != '"' && ReadChar(s).Read?
    ensures ReadChar(s + more) == ReadChar(s).(rest := ReadChar(s).rest + more)
  {
    var all := s + more;
    assert all[1..] == s[1..] + more;
    if s[0] == '\\' {
      assert all[2..] == s[2..] + more;
      if s[1] == 'u' {
        assert all[6..] == s[6..] + more;
      }
    }
  }

  lemma {:induction false} ReadCharsExtends(s: string, more: string)
    requires ReadChars(s).Read?
    ensures ReadChars(s + more) == ReadChars(s).(rest := ReadChars(s).rest + more)
    decreases |s|
  {
    if s[0] == '"' {
      assert (s + more)[1..] == s[1..] + more;
    } else {
      ReadCharExtends(s, more);
      ReadCharsExtends(ReadChar(s).rest, more);
    }
  }

  lemma {:induction false} ReadDigitsExtends(s: string, sofar: nat, more: string)
    requires ReadDigits(s, sofar).rest != ""
    ensures ReadDigits(s + more, sofar) == ReadDigits(s, sofar).(rest := ReadDigits(s, sofar).rest + more)
  {
    if s != "" && IsDigit(s[0]) {
      assert (s + more)[1..] == s[1..] + more;
      ReadDigitsExtends(s[1..], sofar * 10 + (s[0] - '0') as nat, more);
    }
  }

  lemma ReadNaturalExtends(s: string, more: string)
    requires ReadNatural(s).Read? && ReadNatural(s).rest != ""
    ensures ReadNatural(s + more) == ReadNatural(s).(rest := ReadNatural(s).rest + more)
  {
    assert (s + more)[1..] == s[1..] + more;
    if s[0] != '0' {
      ReadDigitsExtends(s[1..], (s[0] - '0') as nat, more);
    }
  }

  lemma {:induction false} DigitRunExtends(s: string, more: string)
    requires |DigitRun(s)| < |s|
    ensures DigitRun(s + more) == DigitRun(s)
  {
    assert (s + more)[0] == s[0];
    if IsDigit(s[0]) {
      assert (s + more)[1..] == s[1..] + more;
      DigitRunExtends(s[1..], more);
    }
  }

  lemma CutExtends(s: string, more: string, k: nat)
    requires k <= |s|
    ensures (s + more)[k..] == s[k..] + more
  {
  }

  /** A point, a run of digits and what is after it, whose first character is none. */
  lemma ReadsPlacesOf(s: string, run: string)
    requires s != "" && s[0] == '.' && run != "" && DigitRun(s[1..]) == run
    ensures ReadPlaces(s) == Read(WithoutTrailingZeros(run), s[1 + |run|..])
  {
  }

  lemma ReadPlacesExtends(s: string, more: string)
    requires ReadPlaces(s).Read? && ReadPlaces(s).rest != ""
    ensures ReadPlaces(s + more) == ReadPlaces(s).(rest := ReadPlaces(s).rest + more)
  {
    assert (s + more)[0] == s[0];
    if s[0] == '.' {
      var run := DigitRun(s[1..]);
      CutExtends(s, more, 1);
      CutExtends(s, more, 1 + |run|);
      DigitRunExtends(s[1..], more);
      ReadsPlacesOf(s, run);
      ReadsPlacesOf(s + more, run);
    }
  }

  lemma ReadNumberExtends(s: string, more: string)
    requires s != "" && ReadNumber(s).Read? && ReadNumber(s).rest != ""
    ensures ReadNumber(s + more) == ReadNumber(s).(rest := ReadNumber(s).rest + more)
  {
    assert (s + more)[0] == s[0] && (s + more)[1..] == s[1..] + more;
    var unsigned := if s[0] == '-' then s[1..] else s;
    ReadNaturalExtends(unsigned, more);
    ReadPlacesExtends(ReadNatural(unsigned).rest, more);
  }

  lemma ReadNameExtends(s: string, more: string)
    requires ReadName(s).Read? && ReadName(s).rest != ""
    ensures ReadName(s + more) == ReadName(s).(rest := ReadName(s).rest + more)
  {
    var named := ReadChars(s[1..]).rest;
    var after := Skip(named);
    assert (s + more)[0] == s[0] && (s + more)[1..] == s[1..] + more;
    ReadCharsExtends(s[1..], more);
    assert Skip(named + more) == after + more by { SkipExtends(named, more); }
    assert (after + more)[0] == after[0] && (after + more)[1..] == after[1..] + more;
    assert Skip(after[1..] + more) == Skip(after[1..]) + more by { SkipExtends(after[1..], more); }
  }

  lemma ReadLiteralExtends(s: string, more: string)
    requires ReadLiteral(s).Read?
    ensures ReadLiteral(s + more) == ReadLiteral(s).(rest := ReadLiteral(s).rest + more)
  {
    var all := s + more;
    assert |s| >= 4 && all[..4] == s[..4] && all[4..] == s[4..] + more;
    if Words.StartsWith(s, "false") {
      assert all[..5] == s[..5] && all[5..] == s[5..] + more;
    }
  }

  /** More text after a value changes nothing of its reading, unless the value is a number that it could continue. */
  lemma {:induction false} ReadValueExtends(s: string, more: string)
    requires ReadValue(s).Read? && (ReadValue(s).rest != "" || !ReadValue(s).value.Number?)
    ensures ReadValue(s + more) == ReadValue(s).(rest := ReadValue(s).rest + more)
    decreases |s|, 0
  {
    var all := s + more;
    assert all[0] == s[0] && all[1..] == s[1..] + more;
    if s[0] == '"' {
      ReadCharsExtends(s[1..], more);
    } else if s[0] == '[' || s[0] == '{' {
      var inside := Skip(s[1..]);
      SkipExtends(s[1..], more);
      assert (inside + more)[1..] == inside[1..] + more;
      if s[0] == '[' && inside[0] != ']' {
        ReadItemsExtends(inside, more);
      } else if s[0] == '{' && inside[0] != '}' {
        ReadFieldsExtends(inside, more);
      }
    } else if s[0] == '-' || IsDigit(s[0]) {
      ReadNumberExtends(s, more);
    } else {
      ReadLiteralExtends(s, more);
    }
  }

  lemma {:induction false} ReadItemsExtends(s: string, more: string)
    requires ReadItems(s).Read?
    ensures ReadItems(s + more) == ReadItems(s).(rest := ReadItems(s).rest + more)
    decreases |s|, 1
  {
    var head := ReadValue(s);
    ReadValueExtends(s, more);
    SkipExtends(head.rest, more);
    var after := Skip(head.rest);
    assert (after + more)[1..] == after[1..] + more;
    if after[0] == ',' {
      SkipExtends(after[1..], more);
      ReadItemsExtends(Skip(after[1..]), more);
    }
  }

  lemma {:induction false} ReadFieldsExtends(s: string, more: string)
    requires ReadFields(s).Read?
    ensures ReadFields(s + more) == ReadFields(s).(rest := ReadFields(s).rest + more)
    decreases |s|, 1
  {
    var named := ReadName(s).rest;
    var value := ReadValue(named);
    ReadNameExtends(s, more);
    ReadValueExtends(named, more);
    assert Skip(value.rest + more) == Skip(value.rest) + more by { SkipExtends(value.rest, more); }
    ReadMoreFieldsExtends(ReadName(s).value, value.value, Skip(value.rest), more);
  }

  lemma {:induction false} ReadMoreFieldsExtends(name: string, value: Json, after: string, more: string)
    requires ReadMoreFields(name, value, after).Read?
    ensures var read := ReadMoreFields(name, value, after);
            ReadMoreFields(name, value, after + more) == read.(rest := read.rest + more)
    decreases |after|, 2
  {
    assert (after + more)[0] == after[0] && (after + more)[1..] == after[1..] + more;
    if after[0] == ',' {
      assert Skip(after[1..] + more) == Skip(after[1..]) + more by { SkipExtends(after[1..], more); }
      ReadFieldsExtends(Skip(after[1..]), more);
    }
  }

  /** No proper prefix of a printed object is itself a whole object. */
  lemma NoPrefixOfAnObjectParses(json: Json, prefix: string)
    requires json.Object? && Words.StartsWith(Printed(json), prefix) && |prefix| < |Printed(json)|
    ensures Parse(prefix).None? || !Parse(prefix).value.Object?
  {
    var text := Printed(json);
    assert text + "" == text;
    ReadsPrinted(json, "");
    var more := text[|prefix|..];
    assert text == prefix + more;
    FirstPrinted(json);
    if Parse(prefix).Some? && Parse(prefix).value.Object? {
      assert prefix[0] == text[0];
      ReadValueExtends(prefix, more);
    }
  }
}
